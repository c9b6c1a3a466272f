/** Change detection (lib/index.ts:625-648): `getDiffDirs` compares the
    current copy of the sources with the copy saved by the previous run, in
    both directions, and reports the directories whose contents differ. The
    file system is a tree of entries; a directory lists its entries in the
    order `readdirSync` returns them. */
module Diff {
  import opened Wrappers
  import opened Strings
  import opened Records
  import opened Paths

  datatype Entry = File(content: string) | Dir(listing: seq<(string, Entry)>)

  /** What a real directory tree satisfies: entry names are plain segments,
      and no name occurs twice in one directory. */
  predicate WellFormed(e: Entry)
    decreases e
  {
    e.Dir? ==>
      && Normal(Keys(e.listing))
      && UniqueKeys(e.listing)
      && forall i :: 0 <= i < |e.listing| ==> (assert e.listing[i] in e.listing; WellFormed(e.listing[i].1))
  }

  /** The number of entries in a tree, itself included: the termination measure of the diff. */
  function Size(e: Entry): nat
    decreases e, 1
  {
    if e.File? then 1 else 1 + SizeFrom(e, 0)
  }

  function SizeFrom(e: Entry, i: nat): nat
    requires e.Dir? && i <= |e.listing|
    decreases e, 0, |e.listing| - i
  {
    if i == |e.listing| then 0
    else
      assert e.listing[i] in e.listing;
      Size(e.listing[i].1) + SizeFrom(e, i + 1)
  }

  lemma {:induction false} SizeFromBound(e: Entry, j: nat, i: nat)
    requires e.Dir? && j <= i < |e.listing|
    ensures Size(e.listing[i].1) <= SizeFrom(e, j)
    decreases i - j
  {
    if j < i {
      SizeFromBound(e, j + 1, i);
    }
  }

  /** The index of the entry named `f`, if the entry is a directory holding one. */
  function Find(e: Entry, f: string): (r: Option<nat>)
    ensures r.Some? ==> e.Dir? && r.value < |e.listing| && e.listing[r.value].0 == f
    ensures r.None? ==> e.File? || f !in Keys(e.listing)
  {
    if e.File? then None else FindFrom(e.listing, f, 0)
  }

  function FindFrom(l: seq<(string, Entry)>, f: string, i: nat): (r: Option<nat>)
    requires i <= |l|
    ensures r.Some? ==> i <= r.value < |l| && l[r.value].0 == f
    ensures r.None? ==> forall j :: i <= j < |l| ==> l[j].0 != f
    decreases |l| - i
  {
    if i == |l| then None else if l[i].0 == f then Some(i) else FindFrom(l, f, i + 1)
  }

  /** `path.join(dir, f)` followed by `existsSync` and a read: the entry at
      `f` of `e`. A file has no entries, as `existsSync` of a path below a
      file is false. */
  function Lookup(e: Entry, f: string): (r: Option<Entry>)
    ensures r.Some? <==> e.Dir? && f in Keys(e.listing)
    ensures r.Some? ==> (f, r.value) in e.listing
    ensures r.Some? ==> Size(r.value) < Size(e)
  {
    match Find(e, f)
    case None => None
    case Some(i) =>
      SizeFromBound(e, 0, i);
      Some(e.listing[i].1)
  }

  /** `getDiffDirs(base, targetDir, originalDir)`: the reports of both
      passes, the second with `originalDir` replaced by `targetDir` in each
      path, without duplicates. `tp` and `op` are where the two trees `t`
      and `o` live; `base` is the directory the reported paths are built in. */
  function DiffDirs(base: AbsPath, t: Entry, o: Entry, tp: AbsPath, op: AbsPath): (r: Result<seq<string>>)
    ensures r.Ok? ==> NoDup(r.value)
    decreases Size(t) + Size(o), 3
  {
    var d1 := DiffPass(base, t, o, tp, op);
    if d1.Err? then d1
    else
      var d2 := DiffPass(base, o, t, op, tp);
      if d2.Err? then d2
      else Ok(AddAll([], d1.value + ReplaceIn(d2.value, Render(op), Render(tp))))
  }

  /** `flipped.map(x => x.replace(originalDir, targetDir))`. */
  function ReplaceIn(xs: seq<string>, from: string, to: string): (r: seq<string>)
    ensures |r| == |xs| && forall i :: 0 <= i < |xs| ==> r[i] == ReplaceFirst(xs[i], from, to)
  {
    seq(|xs|, i requires 0 <= i < |xs| => ReplaceFirst(xs[i], from, to))
  }

  /** `getDiffDirs_(base, targetDir, originalDir)`: lists `t`, which fails
      unless it is a directory, and concatenates the reports of its entries. */
  function DiffPass(base: AbsPath, t: Entry, o: Entry, tp: AbsPath, op: AbsPath): Result<seq<string>>
    decreases Size(t) + Size(o), 2
  {
    if t.File? then Err(NotADirectory(tp)) else DiffFrom(base, t, o, tp, op, 0)
  }

  /** The reduce over the listing of `t` from entry `i` on; the first failure aborts it. */
  function DiffFrom(base: AbsPath, t: Entry, o: Entry, tp: AbsPath, op: AbsPath, i: nat): Result<seq<string>>
    requires t.Dir? && i <= |t.listing|
    decreases Size(t) + Size(o), 1, |t.listing| - i
  {
    if i == |t.listing| then Ok([])
    else
      var first := DiffEntry(base, t, o, tp, op, i);
      if first.Err? then first
      else
        var rest := DiffFrom(base, t, o, tp, op, i + 1);
        if rest.Err? then rest else Ok(first.value + rest.value)
  }

  /** What entry `i` of `t` reports: a directory present on both sides is
      diffed in both directions; a file present on both sides reports its
      directory when the contents differ; an entry missing from `o` reports
      itself if it is a directory and its directory if it is a file. */
  function DiffEntry(base: AbsPath, t: Entry, o: Entry, tp: AbsPath, op: AbsPath, i: nat): Result<seq<string>>
    requires t.Dir? && i < |t.listing|
    decreases Size(t) + Size(o), 0
  {
    var (f, te) := t.listing[i];
    SizeFromBound(t, 0, i);
    match Lookup(o, f)
    case None => Ok([if te.Dir? then Render(base + [f]) else Render(base)])
    case Some(oe) =>
      if te.Dir? then DiffDirs(base + [f], te, oe, tp + [f], op + [f])
      else if oe.Dir? then Err(IsADirectory(op + [f]))
      else if te.content != oe.content then Ok([Render(Dirname(base + [f]))])
      else Ok([])
  }

  /** In a well-formed directory the entry named like entry `i` is entry `i`. */
  lemma FindOwn(t: Entry, i: nat)
    requires WellFormed(t) && t.Dir? && i < |t.listing|
    ensures Find(t, t.listing[i].0) == Some(i)
    ensures Lookup(t, t.listing[i].0) == Some(t.listing[i].1)
  {
  }

  /** A tree compared with itself reports nothing. */
  lemma DiffDirsSame(base: AbsPath, t: Entry, tp: AbsPath, op: AbsPath)
    requires WellFormed(t) && t.Dir?
    ensures DiffDirs(base, t, t, tp, op) == Ok([])
    decreases Size(t) + Size(t), 3
  {
    DiffFromSame(base, t, tp, op, 0);
    DiffFromSame(base, t, op, tp, 0);
    var none: seq<string> := [];
    assert none + ReplaceIn(none, Render(op), Render(tp)) == [];
  }

  lemma DiffFromSame(base: AbsPath, t: Entry, tp: AbsPath, op: AbsPath, i: nat)
    requires WellFormed(t) && t.Dir? && i <= |t.listing|
    ensures DiffFrom(base, t, t, tp, op, i) == Ok([])
    decreases Size(t) + Size(t), 1, |t.listing| - i
  {
    if i < |t.listing| {
      var (f, te) := t.listing[i];
      FindOwn(t, i);
      SizeFromBound(t, 0, i);
      if te.Dir? {
        assert t.listing[i] in t.listing;
        DiffDirsSame(base + [f], te, tp + [f], op + [f]);
      }
      assert DiffEntry(base, t, t, tp, op, i) == Ok([]);
      DiffFromSame(base, t, tp, op, i + 1);
      var none: seq<string> := [];
      assert none + none == [];
    }
  }

  /** The reports of entry `i` are among those of the pass over entries `j` on. */
  lemma {:induction false} DiffFromHas(base: AbsPath, t: Entry, o: Entry, tp: AbsPath, op: AbsPath, j: nat, i: nat)
    requires t.Dir? && j <= i < |t.listing| && DiffFrom(base, t, o, tp, op, j).Ok?
    ensures DiffEntry(base, t, o, tp, op, i).Ok?
    ensures forall x :: x in DiffEntry(base, t, o, tp, op, i).value ==> x in DiffFrom(base, t, o, tp, op, j).value
    decreases i - j
  {
    if j < i {
      DiffFromHas(base, t, o, tp, op, j + 1, i);
    }
  }

  /** A successful diff: both passes succeed and the result holds exactly
      the reports of the first and the rewritten reports of the second. */
  lemma DiffDirsMembers(base: AbsPath, t: Entry, o: Entry, tp: AbsPath, op: AbsPath)
    requires DiffDirs(base, t, o, tp, op).Ok?
    ensures DiffPass(base, t, o, tp, op).Ok? && DiffPass(base, o, t, op, tp).Ok?
    ensures forall x :: x in DiffDirs(base, t, o, tp, op).value <==>
      x in DiffPass(base, t, o, tp, op).value
      || x in ReplaceIn(DiffPass(base, o, t, op, tp).value, Render(op), Render(tp))
  {
  }

  /** A directory on both sides contributes everything its own two-way diff
      reports, so a change at any depth is reported. */
  lemma NestedReported(base: AbsPath, t: Entry, o: Entry, tp: AbsPath, op: AbsPath, i: nat)
    requires t.Dir? && i < |t.listing| && t.listing[i].1.Dir? && Lookup(o, t.listing[i].0).Some?
    requires DiffDirs(base, t, o, tp, op).Ok?
    ensures var f := t.listing[i].0;
      var inner := DiffDirs(base + [f], t.listing[i].1, Lookup(o, f).value, tp + [f], op + [f]);
      && inner.Ok?
      && forall x :: x in inner.value ==> x in DiffDirs(base, t, o, tp, op).value
  {
    DiffDirsMembers(base, t, o, tp, op);
    DiffFromHas(base, t, o, tp, op, 0, i);
  }

  /** A file on both sides with different contents reports its directory. */
  lemma ChangedFileReported(base: AbsPath, t: Entry, o: Entry, tp: AbsPath, op: AbsPath, i: nat)
    requires t.Dir? && i < |t.listing| && t.listing[i].1.File?
    requires var oe := Lookup(o, t.listing[i].0); oe.Some? && oe.value.File? && oe.value.content != t.listing[i].1.content
    requires DiffDirs(base, t, o, tp, op).Ok?
    ensures Render(base) in DiffDirs(base, t, o, tp, op).value
  {
    DiffDirsMembers(base, t, o, tp, op);
    DiffFromHas(base, t, o, tp, op, 0, i);
    assert Dirname(base + [t.listing[i].0]) == base;
  }

  /** What an entry reports when the other tree lacks it: itself if it is a
      directory, its directory if it is a file. */
  function MissingReport(base: AbsPath, f: string, e: Entry): string
  {
    if e.Dir? then Render(base + [f]) else Render(base)
  }

  /** An entry only in the current tree is reported. */
  lemma AddedEntryReported(base: AbsPath, t: Entry, o: Entry, tp: AbsPath, op: AbsPath, i: nat)
    requires t.Dir? && i < |t.listing| && Lookup(o, t.listing[i].0).None?
    requires DiffDirs(base, t, o, tp, op).Ok?
    ensures MissingReport(base, t.listing[i].0, t.listing[i].1) in DiffDirs(base, t, o, tp, op).value
  {
    DiffDirsMembers(base, t, o, tp, op);
    DiffFromHas(base, t, o, tp, op, 0, i);
  }

  /** An entry only in the saved tree is reported too, by the flipped pass,
      with the saved tree's location rewritten to the current one's. */
  lemma RemovedEntryReported(base: AbsPath, t: Entry, o: Entry, tp: AbsPath, op: AbsPath, i: nat)
    requires o.Dir? && i < |o.listing| && Lookup(t, o.listing[i].0).None?
    requires DiffDirs(base, t, o, tp, op).Ok?
    ensures ReplaceFirst(MissingReport(base, o.listing[i].0, o.listing[i].1), Render(op), Render(tp))
      in DiffDirs(base, t, o, tp, op).value
  {
    DiffDirsMembers(base, t, o, tp, op);
    var x := MissingReport(base, o.listing[i].0, o.listing[i].1);
    assert DiffEntry(base, o, t, op, tp, i) == Ok([x]);
    DiffFromHas(base, o, t, op, tp, 0, i);
    var d2 := DiffPass(base, o, t, op, tp).value;
    assert x in d2;
    var k :| 0 <= k < |d2| && d2[k] == x;
    assert ReplaceIn(d2, Render(op), Render(tp))[k] == ReplaceFirst(x, Render(op), Render(tp));
  }

  /** No report contains `p`, so rewriting `p` in them changes nothing. */
  predicate Absent(xs: seq<string>, p: string)
  {
    forall i, j :: 0 <= i < |xs| && 0 <= j <= |xs[i]| ==> !At(xs[i], j, p)
  }

  lemma ReplaceAbsent(xs: seq<string>, p: string, q: string)
    requires Absent(xs, p)
    ensures ReplaceIn(xs, p, q) == xs
  {
  }

  /** Swapping the trees succeeds or fails alike, and, as both passes build
      their reports from `base`, gives the same set of paths once neither
      location occurs inside a report of the other pass. */
  lemma DiffDirsSwap(base: AbsPath, t: Entry, o: Entry, tp: AbsPath, op: AbsPath)
    ensures DiffDirs(base, t, o, tp, op).Ok? <==> DiffDirs(base, o, t, op, tp).Ok?
    ensures (DiffDirs(base, t, o, tp, op).Ok? &&
             Absent(DiffPass(base, o, t, op, tp).value, Render(op)) &&
             Absent(DiffPass(base, t, o, tp, op).value, Render(tp))) ==>
            forall x :: x in DiffDirs(base, t, o, tp, op).value <==> x in DiffDirs(base, o, t, op, tp).value
  {
    if DiffDirs(base, t, o, tp, op).Ok? {
      var d1 := DiffPass(base, t, o, tp, op).value;
      var d2 := DiffPass(base, o, t, op, tp).value;
      if Absent(d2, Render(op)) && Absent(d1, Render(tp)) {
        ReplaceAbsent(d2, Render(op), Render(tp));
        ReplaceAbsent(d1, Render(tp), Render(op));
        DiffDirsMembers(base, t, o, tp, op);
        DiffDirsMembers(base, o, t, op, tp);
      }
    }
  }
}
