/** `assertImports` of lib/index.ts: every `# import … from "…"` line of a
    node's schema must name the source of one of its direct dependencies. */
module Imports {
  import opened Wrappers
  import opened Strings
  import opened Records
  import opened Paths
  import opened Configs
  import opened Nodes

  /** The literal between the greedy `.*` and the captured path. */
  const FromQuote: string := " from \""

  /** The last `"` in `line[lo..hi]`. */
  function LastQuote(line: string, lo: nat, hi: nat): (r: Option<nat>)
    requires lo <= hi <= |line|
    ensures r.Some? ==> lo <= r.value < hi && line[r.value] == '"'
    ensures r.Some? ==> forall j :: r.value < j < hi ==> line[j] != '"'
    ensures r.None? ==> forall j :: lo <= j < hi ==> line[j] != '"'
    decreases hi - lo
  {
    if hi == lo then None
    else if line[hi - 1] == '"' then Some(hi - 1)
    else LastQuote(line, lo, hi - 1)
  }

  /** The last position in `[lo, hi)` where ` from "` occurs. */
  function LastFrom(line: string, lo: nat, hi: nat): (r: Option<nat>)
    requires lo <= hi
    ensures r.Some? ==> lo <= r.value < hi && At(line, r.value, FromQuote)
    ensures r.Some? ==> forall j :: r.value < j < hi ==> !At(line, j, FromQuote)
    ensures r.None? ==> forall j :: lo <= j < hi ==> !At(line, j, FromQuote)
    decreases hi - lo
  {
    if hi == lo then None
    else if At(line, hi - 1, FromQuote) then Some(hi - 1)
    else LastFrom(line, lo, hi - 1)
  }

  /** Where `import ` must start after the `#` at `s`: `\s?` takes one blank
      if there is one, and giving it back can never let `i` match a blank. */
  function ImportStart(line: string, s: nat): nat
  {
    if s + 1 < |line| && IsSpace(line[s + 1]) then s + 2 else s + 1
  }

  /** The capture of `#\s?import .* from "(.+)"` for a match starting at the
      `#` at `s`. Both greedy runs stop at a line terminator; the outer `.*`
      backtracks first, so the capture ends at the last `"` of the run and
      starts after the last ` from "` that leaves it at least one character. */
  function MatchAt(line: string, s: nat): (r: Option<string>)
    requires s < |line| && line[s] == '#'
    ensures r.Some? ==> |r.value| >= 1 && forall c :: c in r.value ==> !IsLineTerminator(c)
  {
    var u := ImportStart(line, s);
    if !At(line, u, "import ") then None
    else
      var a := u + 7;
      var end := DotRunEnd(line, a);
      var h := LastQuote(line, a, end);
      if h.None? || h.value < a + 8 then None
      else
        var e := LastFrom(line, a, h.value - 7);
        if e.None? then None
        else
          assert forall j :: e.value + 7 <= j < h.value ==> !IsLineTerminator(line[j]);
          Some(line[e.value + 7..h.value])
  }

  /** `line.match('#\\s?import .* from "(.+)"')[1]`: the leftmost `#` a match can start at. */
  function ImportOf(line: string): (r: Option<string>)
    ensures r.Some? ==> |r.value| >= 1 && forall c :: c in r.value ==> !IsLineTerminator(c)
    ensures r.Some? ==> exists s :: 0 <= s < |line| && line[s] == '#' && MatchAt(line, s) == r
    ensures r.None? ==> forall s :: 0 <= s < |line| && line[s] == '#' ==> MatchAt(line, s).None?
  {
    ImportFrom(line, 0)
  }

  function ImportFrom(line: string, i: nat): (r: Option<string>)
    requires i <= |line|
    ensures r.Some? ==> |r.value| >= 1 && forall c :: c in r.value ==> !IsLineTerminator(c)
    ensures r.Some? ==> exists s :: i <= s < |line| && line[s] == '#' && MatchAt(line, s) == r
    ensures r.None? ==> forall s :: i <= s < |line| && line[s] == '#' ==> MatchAt(line, s).None?
    decreases |line| - i
  {
    if i == |line| then None
    else if line[i] == '#' && MatchAt(line, i).Some? then MatchAt(line, i)
    else ImportFrom(line, i + 1)
  }

  predicate NoTerminator(s: string)
  {
    forall c :: c in s ==> !IsLineTerminator(c)
  }

  /** The canonical import line `# import <symbols> from "<path>"` captures exactly `<path>`. */
  lemma ImportOfCanonical(symbols: string, p: string)
    requires NoTerminator(symbols) && NoTerminator(p)
    requires |p| >= 1 && '"' !in p
    ensures ImportOf("# import " + symbols + FromQuote + p + "\"") == Some(p)
  {
    var line := "# import " + symbols + FromQuote + p + "\"";
    assert IsSpace(line[1]);
    assert line[2..9] == "import ";
    assert forall j :: 9 <= j < |line| ==> !IsLineTerminator(line[j]) by {
      forall j | 9 <= j < |line| ensures !IsLineTerminator(line[j]) {
        if j < 9 + |symbols| {
          assert line[j] == symbols[j - 9];
        } else if j < 16 + |symbols| {
          assert line[j] == FromQuote[j - 9 - |symbols|];
        } else if j < 16 + |symbols| + |p| {
          assert line[j] == p[j - 16 - |symbols|];
        }
      }
    }
    DotRunEndAll(line, 9);
    var h := |line| - 1;
    assert LastQuote(line, 9, |line|) == Some(h);
    var e := 9 + |symbols|;
    assert line[e..e + 7] == FromQuote;
    assert forall j :: e < j < h - 7 ==> !At(line, j, FromQuote) by {
      forall j | e < j < h - 7 ensures !At(line, j, FromQuote) {
        assert line[j + 6] == p[j + 6 - 16 - |symbols|];
      }
    }
    LastFromIs(line, 9, h - 7, e);
    assert line[e + 7..h] == p;
    assert MatchAt(line, 0) == Some(p);
  }

  lemma DotRunEndAll(s: string, i: nat)
    requires i <= |s|
    requires forall j :: i <= j < |s| ==> !IsLineTerminator(s[j])
    ensures DotRunEnd(s, i) == |s|
    decreases |s| - i
  {
    if i < |s| {
      DotRunEndAll(s, i + 1);
    }
  }

  lemma LastFromIs(line: string, lo: nat, hi: nat, e: nat)
    requires lo <= e < hi && At(line, e, FromQuote)
    requires forall j :: e < j < hi ==> !At(line, j, FromQuote)
    ensures LastFrom(line, lo, hi) == Some(e)
    decreases hi - lo
  {
    if hi - 1 != e {
      LastFromIs(line, lo, hi - 1, e);
    }
  }

  /** A line without `#` imports nothing. */
  lemma NoHashNoImport(line: string)
    requires '#' !in line
    ensures ImportOf(line) == None
  {
  }

  /** The import paths of a schema text, one per matching line, in order. */
  function ImportPaths(text: string): seq<string>
  {
    LineImports(Split(text, '\n'))
  }

  function LineImports(lines: seq<string>): (r: seq<string>)
    ensures forall p :: p in r <==> exists i :: 0 <= i < |lines| && ImportOf(lines[i]) == Some(p)
  {
    if |lines| == 0 then []
    else
      var rest := LineImports(lines[1..]);
      LineImportsStep(lines, rest);
      (if ImportOf(lines[0]).Some? then [ImportOf(lines[0]).value] else []) + rest
  }

  lemma LineImportsStep(lines: seq<string>, rest: seq<string>)
    requires |lines| > 0
    requires forall p :: p in rest <==> exists i :: 0 <= i < |lines[1..]| && ImportOf(lines[1..][i]) == Some(p)
    ensures var r := (if ImportOf(lines[0]).Some? then [ImportOf(lines[0]).value] else []) + rest;
      forall p :: p in r <==> exists i :: 0 <= i < |lines| && ImportOf(lines[i]) == Some(p)
  {
    var r := (if ImportOf(lines[0]).Some? then [ImportOf(lines[0]).value] else []) + rest;
    forall p ensures p in r <==> exists i :: 0 <= i < |lines| && ImportOf(lines[i]) == Some(p) {
      if p in rest {
        var i :| 0 <= i < |lines[1..]| && ImportOf(lines[1..][i]) == Some(p);
        assert ImportOf(lines[i + 1]) == Some(p);
      }
      if exists i :: 0 <= i < |lines| && ImportOf(lines[i]) == Some(p) {
        var i :| 0 <= i < |lines| && ImportOf(lines[i]) == Some(p);
        if i > 0 {
          assert lines[1..][i - 1] == lines[i];
        }
      }
    }
  }

  /** Some direct dependency of `n` has exactly `p` as its resolved source. */
  predicate HasDependencyAt(n: Node, p: AbsPath)
  {
    exists i :: 0 <= i < |n.dependencies| && n.dependencies[i].1.conf.source == Some(p)
  }

  /** The first import, resolved against `dir`, that no direct dependency provides. */
  function FirstMissing(n: Node, dir: AbsPath, imports: seq<string>): (r: Option<AbsPath>)
    requires Normal(dir)
    ensures r.None? <==> forall i :: 0 <= i < |imports| ==> HasDependencyAt(n, Resolve(dir, imports[i]))
    ensures r.Some? ==> exists i :: (0 <= i < |imports| && r.value == Resolve(dir, imports[i])
      && !HasDependencyAt(n, r.value)
      && forall j :: 0 <= j < i ==> HasDependencyAt(n, Resolve(dir, imports[j])))
  {
    if |imports| == 0 then None
    else if !HasDependencyAt(n, Resolve(dir, imports[0])) then Some(Resolve(dir, imports[0]))
    else
      var r := FirstMissing(n, dir, imports[1..]);
      if r.Some? then
        var i :| 0 <= i < |imports[1..]| && r.value == Resolve(dir, imports[1..][i])
          && !HasDependencyAt(n, r.value)
          && forall j :: 0 <= j < i ==> HasDependencyAt(n, Resolve(dir, imports[1..][j]));
        assert forall j :: 0 <= j < i + 1 ==> HasDependencyAt(n, Resolve(dir, imports[j])) by {
          forall j | 0 <= j < i + 1 ensures HasDependencyAt(n, Resolve(dir, imports[j])) {
            if j > 0 {
              assert imports[j] == imports[1..][j - 1];
            }
          }
        }
        r
      else
        assert forall i :: 0 <= i < |imports| ==> HasDependencyAt(n, Resolve(dir, imports[i])) by {
          forall i | 0 <= i < |imports| ensures HasDependencyAt(n, Resolve(dir, imports[i])) {
            if i > 0 {
              assert imports[i] == imports[1..][i - 1];
            }
          }
        }
        r
  }

  /** `n.assertImports(source)`: reading the file fails when it is missing,
      and the check fails on the first import that resolves, against the
      file's directory, to no direct dependency's source. */
  function AssertImports(n: Node, ws: Workspace, source: AbsPath): (r: Result<()>)
    requires Normal(source)
    ensures r.Err? && r.error.FileNotFound? <==> source !in ws.files
    ensures source in ws.files ==>
      (r.Ok? <==> forall p :: p in ImportPaths(ws.files[source]) ==> HasDependencyAt(n, Resolve(Dirname(source), p)))
    ensures r.Err? && r.error.MissingDependency? ==>
      r.error.node == Name(n) && !HasDependencyAt(n, r.error.imported)
    ensures r.Err? && r.error.MissingDependency? ==>
      source in ws.files && var imports := ImportPaths(ws.files[source]);
      exists i :: (0 <= i < |imports| && r.error.imported == Resolve(Dirname(source), imports[i])
        && forall j :: 0 <= j < i ==> HasDependencyAt(n, Resolve(Dirname(source), imports[j])))
  {
    if source !in ws.files then Err(FileNotFound(source))
    else
      var imports := ImportPaths(ws.files[source]);
      var missing := FirstMissing(n, Dirname(source), imports);
      if missing.Some? then Err(MissingDependency(Name(n), missing.value))
      else
        assert forall p :: p in imports ==> HasDependencyAt(n, Resolve(Dirname(source), p)) by {
          forall p | p in imports ensures HasDependencyAt(n, Resolve(Dirname(source), p)) {
            var i :| 0 <= i < |imports| && imports[i] == p;
          }
        }
        Ok(())
  }
}
