/** JavaScript objects and Sets as the generator uses them. Lodash folds and
    object spreads visit keys in insertion order, so an object is a sequence
    of entries, not a map, and a Set is a duplicate-free sequence. */
module Records {
  import opened Wrappers

  /** An object with string keys: its entries in insertion order. */
  type Rec<V> = seq<(string, V)>

  function Keys<V>(r: Rec<V>): (ks: seq<string>)
    ensures |ks| == |r|
    ensures forall i :: 0 <= i < |r| ==> ks[i] == r[i].0
  {
    if |r| == 0 then [] else Keys(r[..|r| - 1]) + [r[|r| - 1].0]
  }

  function Values<V>(r: Rec<V>): (vs: seq<V>)
    ensures |vs| == |r|
    ensures forall i :: 0 <= i < |r| ==> vs[i] == r[i].1
  {
    if |r| == 0 then [] else Values(r[..|r| - 1]) + [r[|r| - 1].1]
  }

  /** Every key occurs once, as in any object JavaScript builds. */
  predicate UniqueKeys<V>(r: Rec<V>)
  {
    forall i, j :: 0 <= i < j < |r| ==> r[i].0 != r[j].0
  }

  /** `r[k]`: the value of the last entry with key `k`, if any. */
  function Get<V>(r: Rec<V>, k: string): (v: Option<V>)
    ensures v.None? <==> k !in Keys(r)
    ensures v.Some? ==> (k, v.value) in r
  {
    if |r| == 0 then None
    else if r[|r| - 1].0 == k then Some(r[|r| - 1].1)
    else Get(r[..|r| - 1], k)
  }

  /** The value of an entry of an object whose keys are unique. */
  lemma {:induction false} GetEntry<V>(r: Rec<V>, i: nat)
    requires UniqueKeys(r) && i < |r|
    ensures Get(r, r[i].0) == Some(r[i].1)
    decreases |r|
  {
    if i < |r| - 1 {
      GetEntry(r[..|r| - 1], i);
    }
  }

  /** Every entry with key `k` takes the value `v`. */
  function ReplaceAll<V>(r: Rec<V>, k: string, v: V): (r': Rec<V>)
    ensures |r'| == |r|
    ensures forall i :: 0 <= i < |r| ==> r'[i] == (if r[i].0 == k then (k, v) else r[i])
  {
    if |r| == 0 then []
    else ReplaceAll(r[..|r| - 1], k, v) + [if r[|r| - 1].0 == k then (k, v) else r[|r| - 1]]
  }

  lemma {:induction false} ReplaceAllGet<V>(r: Rec<V>, k: string, v: V)
    ensures Keys(ReplaceAll(r, k, v)) == Keys(r)
    ensures k in Keys(r) ==> Get(ReplaceAll(r, k, v), k) == Some(v)
    ensures forall j :: j != k ==> Get(ReplaceAll(r, k, v), j) == Get(r, j)
    decreases |r|
  {
    if |r| > 0 {
      var r' := ReplaceAll(r, k, v);
      var front := r[..|r| - 1];
      ReplaceAllGet(front, k, v);
      assert r'[..|r'| - 1] == ReplaceAll(front, k, v);
      assert Keys(r') == Keys(r);
    }
  }

  /** `{...r, [k]: v}`: an existing key keeps its position and takes the new value;
      a new key is appended. */
  function Put<V>(r: Rec<V>, k: string, v: V): (r': Rec<V>)
    ensures Get(r', k) == Some(v)
    ensures forall j :: j != k ==> Get(r', j) == Get(r, j)
    ensures k in Keys(r) ==> Keys(r') == Keys(r)
    ensures k !in Keys(r) ==> Keys(r') == Keys(r) + [k]
    ensures UniqueKeys(r) ==> UniqueKeys(r')
  {
    if k in Keys(r) then
      ReplaceAllGet(r, k, v);
      ReplaceAll(r, k, v)
    else
      var r' := r + [(k, v)];
      assert r'[..|r'| - 1] == r;
      r'
  }

  /** `{...a, ...b}`: the entries of `b` put into `a` in order. */
  function Spread<V>(a: Rec<V>, b: Rec<V>): (r: Rec<V>)
    ensures forall k :: Get(r, k) == if k in Keys(b) then Get(b, k) else Get(a, k)
    ensures forall k :: k in Keys(r) <==> k in Keys(a) || k in Keys(b)
    ensures UniqueKeys(a) ==> UniqueKeys(r)
    decreases |b|
  {
    if |b| == 0 then a
    else
      var front := b[..|b| - 1];
      assert Keys(b) == Keys(front) + [b[|b| - 1].0];
      Put(Spread(a, front), b[|b| - 1].0, b[|b| - 1].1)
  }

  /** No member occurs twice. */
  predicate NoDup<T(==)>(s: seq<T>)
  {
    forall i, j :: 0 <= i < j < |s| ==> s[i] != s[j]
  }

  /** `new Set([...s, ...xs])` for a Set `s`: the members of `xs` not yet in `s`
      are appended in order. */
  function AddAll<T(==,!new)>(s: seq<T>, xs: seq<T>): (r: seq<T>)
    ensures NoDup(s) ==> NoDup(r)
    ensures forall x :: x in r <==> x in s || x in xs
    ensures |s| <= |r| && r[..|s|] == s
    decreases |xs|
  {
    if |xs| == 0 then s
    else AddAll(if xs[0] in s then s else s + [xs[0]], xs[1..])
  }

  /** Adding members that are all new appends them unchanged. */
  lemma {:induction false} AddAllFresh<T(!new)>(s: seq<T>, xs: seq<T>)
    requires NoDup(s + xs)
    ensures AddAll(s, xs) == s + xs
    decreases |xs|
  {
    if |xs| > 0 {
      assert xs[0] == (s + xs)[|s|];
      assert xs[0] !in s by {
        forall i | 0 <= i < |s| ensures s[i] != xs[0] {
          assert s[i] == (s + xs)[i];
        }
      }
      assert s + xs == (s + [xs[0]]) + xs[1..];
      AddAllFresh(s + [xs[0]], xs[1..]);
    }
  }

  /** `mergeIterablesToSet(...arrs)`: one Set holding the members of every
      argument, in first-seen order. */
  function MergeToSet<T(==,!new)>(arrs: seq<seq<T>>): (r: seq<T>)
    ensures NoDup(r)
    ensures forall x :: x in r <==> exists i :: 0 <= i < |arrs| && x in arrs[i]
  {
    if |arrs| == 0 then []
    else
      var front := MergeToSet(arrs[..|arrs| - 1]);
      var r := AddAll(front, arrs[|arrs| - 1]);
      assert forall x :: x in r <==> exists i :: 0 <= i < |arrs| && x in arrs[i] by {
        forall x ensures x in r <==> exists i :: 0 <= i < |arrs| && x in arrs[i] {
          if x in front {
            var i :| 0 <= i < |arrs| - 1 && x in arrs[..|arrs| - 1][i];
            assert x in arrs[i];
          }
          if exists i :: 0 <= i < |arrs| && x in arrs[i] {
            var i :| 0 <= i < |arrs| && x in arrs[i];
            if i < |arrs| - 1 {
              assert x in arrs[..|arrs| - 1][i];
            }
          }
        }
      }
      r
  }

  /** The value the last of several objects gives `k`, which is what
      spreading them one after the other leaves at `k`. */
  function LastGet<V>(rs: seq<Rec<V>>, k: string): Option<V>
  {
    if |rs| == 0 then None
    else if k in Keys(rs[|rs| - 1]) then Get(rs[|rs| - 1], k)
    else LastGet(rs[..|rs| - 1], k)
  }

  lemma {:induction false} LastGetNone<V>(rs: seq<Rec<V>>, k: string)
    ensures LastGet(rs, k).None? <==> forall i :: 0 <= i < |rs| ==> k !in Keys(rs[i])
  {
    if |rs| > 0 {
      var front := rs[..|rs| - 1];
      LastGetNone(front, k);
      assert forall i :: 0 <= i < |front| ==> front[i] == rs[i];
    }
  }

  /** A value found comes from an object after which none has the key. */
  lemma {:induction false} LastGetFrom<V>(rs: seq<Rec<V>>, k: string) returns (i: nat)
    requires LastGet(rs, k).Some?
    ensures i < |rs| && Get(rs[i], k) == LastGet(rs, k)
    ensures forall j :: i < j < |rs| ==> k !in Keys(rs[j])
  {
    if k in Keys(rs[|rs| - 1]) {
      i := |rs| - 1;
    } else {
      var front := rs[..|rs| - 1];
      i := LastGetFrom(front, k);
      assert front[i] == rs[i];
      assert forall j :: i < j < |front| ==> front[j] == rs[j];
    }
  }

  /** `mergeIterablesToSet(a, b)`: the members of both. */
  lemma MergeToSetTwo<T(!new)>(a: seq<T>, b: seq<T>)
    ensures forall x :: x in MergeToSet([a, b]) <==> x in a || x in b
  {
    forall x ensures x in MergeToSet([a, b]) <==> x in a || x in b {
      var arrs := [a, b];
      if x in a { assert x in arrs[0]; }
      if x in b { assert x in arrs[1]; }
    }
  }
}
