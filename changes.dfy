/** Change propagation in `run` (lib/index.ts:463-490): `getAllChanged`
    adds to the changed nodes every node of `gens` that depends on one of
    them, transitively. The recursion walks from a node to its dependents;
    it terminates because the dependency graph of `gens` is acyclic, which
    a `rank` on names witnesses: a dependent ranks below each of its
    dependencies. */
module Changes {
  import opened Wrappers
  import opened Records
  import opened Nodes

  /** `_.filter(gens, g => _.has(g.dependencies, k))`: the nodes of `gens` depending on `k`, in order. */
  function Directs(gens: Rec<Node>, k: string): (r: seq<Node>)
    ensures forall g :: g in r <==> exists i :: 0 <= i < |gens| && gens[i].1 == g && k in Keys(g.dependencies)
  {
    if |gens| == 0 then []
    else
      var front := gens[..|gens| - 1];
      var g := gens[|gens| - 1].1;
      var r := Directs(front, k) + (if k in Keys(g.dependencies) then [g] else []);
      assert forall g :: g in r <==> exists i :: 0 <= i < |gens| && gens[i].1 == g && k in Keys(g.dependencies) by {
        forall g' ensures g' in r <==> exists i :: 0 <= i < |gens| && gens[i].1 == g' && k in Keys(g'.dependencies) {
          if g' in Directs(front, k) {
            var i :| 0 <= i < |front| && front[i].1 == g' && k in Keys(g'.dependencies);
            assert gens[i] == front[i];
          }
          if exists i :: 0 <= i < |gens| && gens[i].1 == g' && k in Keys(g'.dependencies) {
            var i :| 0 <= i < |gens| && gens[i].1 == g' && k in Keys(g'.dependencies);
            if i < |front| {
              assert gens[i] == front[i];
            }
          }
        }
      }
      r
  }

  /** Every dependent ranks below each of its dependencies. */
  predicate Ranked(gens: Rec<Node>, rank: string -> nat)
  {
    forall i, d :: 0 <= i < |gens| && d in Keys(gens[i].1.dependencies) ==> rank(Name(gens[i].1)) < rank(d)
  }

  function MaxRank(ks: seq<string>, rank: string -> nat): (m: nat)
    ensures forall i :: 0 <= i < |ks| ==> rank(ks[i]) <= m
    ensures |ks| == 1 ==> m == rank(ks[0])
  {
    if |ks| == 0 then 0
    else
      var m := MaxRank(ks[..|ks| - 1], rank);
      if rank(ks[|ks| - 1]) > m then rank(ks[|ks| - 1]) else m
  }

  /** `getAllChanged(changed, {})`; every recursive call passes `{}` as
      `currChanged` too, so that argument is always empty. */
  function AllChanged(gens: Rec<Node>, changed: Rec<Node>, rank: string -> nat): Rec<Node>
    requires Ranked(gens, rank)
    decreases MaxRank(Keys(changed), rank), 3
  {
    if |changed| == 0 then [] else ChangedFrom(gens, changed, 0, [], rank)
  }

  /** The outer reduce over `changed`, from entry `i` on. */
  function ChangedFrom(gens: Rec<Node>, changed: Rec<Node>, i: nat, p: Rec<Node>, rank: string -> nat): Rec<Node>
    requires Ranked(gens, rank) && i <= |changed|
    decreases MaxRank(Keys(changed), rank), 2, |changed| - i
  {
    if i == |changed| then p
    else ChangedFrom(gens, changed, i + 1, ChangedOne(gens, changed[i].0, changed[i].1, p, rank), rank)
  }

  /** One entry `[k]: n`: put it, then spread in what each direct dependent brings. */
  function ChangedOne(gens: Rec<Node>, k: string, n: Node, p: Rec<Node>, rank: string -> nat): Rec<Node>
    requires Ranked(gens, rank)
    decreases rank(k), 1
  {
    var acc := Put(p, k, n);
    if |Directs(gens, k)| == 0 then acc else DirectsFold(gens, k, 0, acc, rank)
  }

  /** The inner reduce over the direct dependents of `k`, from the `j`-th on. */
  function DirectsFold(gens: Rec<Node>, k: string, j: nat, dp: Rec<Node>, rank: string -> nat): Rec<Node>
    requires Ranked(gens, rank) && j <= |Directs(gens, k)|
    decreases rank(k), 0, |Directs(gens, k)| - j
  {
    var ds := Directs(gens, k);
    if j == |ds| then dp
    else
      var dn := ds[j];
      assert rank(Name(dn)) < rank(k) by {
        assert dn in ds;
      }
      DirectsFold(gens, k, j + 1, Spread(dp, AllChanged(gens, [(Name(dn), dn)], rank)), rank)
  }

  // ------------------------------------------------- reference definition

  /** A set of names that holds the name of every node of `gens` depending on one of its members. */
  predicate Closed(gens: Rec<Node>, s: set<string>)
  {
    forall i, d :: 0 <= i < |gens| && d in Keys(gens[i].1.dependencies) && d in s ==> Name(gens[i].1) in s
  }

  /** The names reachable from `k` by going to dependents: `k` and the
      names reachable from each direct dependent. */
  function Upward(gens: Rec<Node>, k: string, rank: string -> nat): set<string>
    requires Ranked(gens, rank)
    decreases rank(k), 1
  {
    {k} + UpwardFrom(gens, k, 0, rank)
  }

  function UpwardFrom(gens: Rec<Node>, k: string, j: nat, rank: string -> nat): set<string>
    requires Ranked(gens, rank) && j <= |Directs(gens, k)|
    decreases rank(k), 0, |Directs(gens, k)| - j
  {
    var ds := Directs(gens, k);
    if j == |ds| then {}
    else
      assert rank(Name(ds[j])) < rank(k) by {
        assert ds[j] in ds;
      }
      Upward(gens, Name(ds[j]), rank) + UpwardFrom(gens, k, j + 1, rank)
  }


  /** A direct dependent of `k` ranks below `k`. */
  lemma DirectRank(gens: Rec<Node>, k: string, m: nat, rank: string -> nat)
    requires Ranked(gens, rank) && m < |Directs(gens, k)|
    ensures rank(Name(Directs(gens, k)[m])) < rank(k)
  {
    assert Directs(gens, k)[m] in Directs(gens, k);
  }

  lemma {:induction false} UpwardFromHas(gens: Rec<Node>, k: string, j: nat, m: nat, x: string, rank: string -> nat)
    requires Ranked(gens, rank) && j <= m < |Directs(gens, k)|
    requires rank(Name(Directs(gens, k)[m])) < rank(k) && x in Upward(gens, Name(Directs(gens, k)[m]), rank)
    ensures x in UpwardFrom(gens, k, j, rank)
    decreases m - j
  {
    var ds := Directs(gens, k);
    DirectRank(gens, k, j, rank);
    var here := Upward(gens, Name(ds[j]), rank);
    var rest := UpwardFrom(gens, k, j + 1, rank);
    assert UpwardFrom(gens, k, j, rank) == here + rest;
    if j < m {
      UpwardFromHas(gens, k, j + 1, m, x, rank);
      assert x in rest;
    } else {
      assert x in here;
    }
  }

  lemma {:induction false} UpwardFromIn(gens: Rec<Node>, k: string, j: nat, x: string, rank: string -> nat) returns (m: nat)
    requires Ranked(gens, rank) && j <= |Directs(gens, k)| && x in UpwardFrom(gens, k, j, rank)
    ensures j <= m < |Directs(gens, k)| && rank(Name(Directs(gens, k)[m])) < rank(k)
    ensures x in Upward(gens, Name(Directs(gens, k)[m]), rank)
    decreases |Directs(gens, k)| - j
  {
    var ds := Directs(gens, k);
    assert ds[j] in ds;
    if x in Upward(gens, Name(ds[j]), rank) {
      m := j;
    } else {
      m := UpwardFromIn(gens, k, j + 1, x, rank);
    }
  }

  /** Reaching upward never stops at a dependent. */
  lemma {:induction false} UpwardClosed(gens: Rec<Node>, k: string, rank: string -> nat)
    requires Ranked(gens, rank)
    ensures k in Upward(gens, k, rank)
    ensures Closed(gens, Upward(gens, k, rank))
    decreases rank(k)
  {
    var u := Upward(gens, k, rank);
    var ds := Directs(gens, k);
    forall i, d | 0 <= i < |gens| && d in Keys(gens[i].1.dependencies) && d in u
      ensures Name(gens[i].1) in u
    {
      var g := gens[i].1;
      if d == k {
        assert g in ds;
        var m :| 0 <= m < |ds| && ds[m] == g;
        DirectRank(gens, k, m, rank);
        UpwardClosed(gens, Name(g), rank);
        UpwardFromHas(gens, k, 0, m, Name(g), rank);
      } else {
        var m := UpwardFromIn(gens, k, 0, d, rank);
        UpwardClosed(gens, Name(ds[m]), rank);
        UpwardFromHas(gens, k, 0, m, Name(g), rank);
      }
    }
  }

  /** ... and reaches no further than any closed set holding `k`. */
  lemma {:induction false} UpwardLeast(gens: Rec<Node>, k: string, s: set<string>, rank: string -> nat)
    requires Ranked(gens, rank) && Closed(gens, s) && k in s
    ensures Upward(gens, k, rank) <= s
    decreases rank(k)
  {
    var ds := Directs(gens, k);
    forall x | x in UpwardFrom(gens, k, 0, rank) ensures x in s {
      var m := UpwardFromIn(gens, k, 0, x, rank);
      var i :| 0 <= i < |gens| && gens[i].1 == ds[m] && k in Keys(ds[m].dependencies);
      UpwardLeast(gens, Name(ds[m]), s, rank);
    }
  }

  // ------------------------------------------- getAllChanged against Upward

  /** A name is in what `getAllChanged` returns exactly when it is reachable
      upward from a changed name. */
  lemma {:induction false} AllChangedKeys(gens: Rec<Node>, changed: Rec<Node>, x: string, rank: string -> nat)
    requires Ranked(gens, rank)
    ensures x in Keys(AllChanged(gens, changed, rank)) <==>
      exists i :: 0 <= i < |changed| && x in Upward(gens, changed[i].0, rank)
    decreases MaxRank(Keys(changed), rank), 3
  {
    if |changed| > 0 {
      ChangedFromKeys(gens, changed, 0, [], x, rank);
    }
  }

  lemma {:induction false} ChangedFromKeys(gens: Rec<Node>, changed: Rec<Node>, i: nat, p: Rec<Node>, x: string, rank: string -> nat)
    requires Ranked(gens, rank) && i <= |changed|
    ensures x in Keys(ChangedFrom(gens, changed, i, p, rank)) <==>
      x in Keys(p) || exists j :: i <= j < |changed| && x in Upward(gens, changed[j].0, rank)
    decreases MaxRank(Keys(changed), rank), 2, |changed| - i
  {
    if i < |changed| {
      var q := ChangedOne(gens, changed[i].0, changed[i].1, p, rank);
      assert rank(Keys(changed)[i]) <= MaxRank(Keys(changed), rank);
      ChangedOneKeys(gens, changed[i].0, changed[i].1, p, x, rank);
      ChangedFromKeys(gens, changed, i + 1, q, x, rank);
      assert ChangedFrom(gens, changed, i, p, rank) == ChangedFrom(gens, changed, i + 1, q, rank);
      if exists j :: i <= j < |changed| && x in Upward(gens, changed[j].0, rank) {
        var j :| i <= j < |changed| && x in Upward(gens, changed[j].0, rank);
        assert j == i || (i + 1 <= j < |changed| && x in Upward(gens, changed[j].0, rank));
      }
    }
  }

  lemma {:induction false} ChangedOneKeys(gens: Rec<Node>, k: string, n: Node, p: Rec<Node>, x: string, rank: string -> nat)
    requires Ranked(gens, rank)
    ensures x in Keys(ChangedOne(gens, k, n, p, rank)) <==> x in Keys(p) || x in Upward(gens, k, rank)
    decreases rank(k), 1
  {
    var acc := Put(p, k, n);
    assert x in Keys(acc) <==> x in Keys(p) || x == k;
    if |Directs(gens, k)| > 0 {
      DirectsFoldKeys(gens, k, 0, acc, x, rank);
    }
  }

  /** One step of the inner reduce and of its reference, unfolded. */
  lemma DirectsFoldStep(gens: Rec<Node>, k: string, j: nat, dp: Rec<Node>, rank: string -> nat)
    requires Ranked(gens, rank) && j < |Directs(gens, k)|
    ensures var dn := Directs(gens, k)[j];
      && rank(Name(dn)) < rank(k)
      && DirectsFold(gens, k, j, dp, rank) == DirectsFold(gens, k, j + 1, Spread(dp, AllChanged(gens, [(Name(dn), dn)], rank)), rank)
      && UpwardFrom(gens, k, j, rank) == Upward(gens, Name(dn), rank) + UpwardFrom(gens, k, j + 1, rank)
      && dn in Values(gens)
  {
    var ds := Directs(gens, k);
    DirectRank(gens, k, j, rank);
    assert ds[j] in ds;
    var i :| 0 <= i < |gens| && gens[i].1 == ds[j] && k in Keys(ds[j].dependencies);
    assert Values(gens)[i] == ds[j];
  }

  /** What one direct dependent contributes: the names reachable upward from it. */
  lemma {:induction false} ContributionKeys(gens: Rec<Node>, dn: Node, x: string, rank: string -> nat)
    requires Ranked(gens, rank)
    ensures x in Keys(AllChanged(gens, [(Name(dn), dn)], rank)) <==> x in Upward(gens, Name(dn), rank)
    decreases rank(Name(dn)), 4
  {
    var one := [(Name(dn), dn)];
    var q := ChangedOne(gens, Name(dn), dn, [], rank);
    assert ChangedFrom(gens, one, 1, q, rank) == q;
    assert AllChanged(gens, one, rank) == q;
    ChangedOneKeys(gens, Name(dn), dn, [], x, rank);
  }

  lemma {:induction false} DirectsFoldKeys(gens: Rec<Node>, k: string, j: nat, dp: Rec<Node>, x: string, rank: string -> nat)
    requires Ranked(gens, rank) && j <= |Directs(gens, k)|
    ensures x in Keys(DirectsFold(gens, k, j, dp, rank)) <==> x in Keys(dp) || x in UpwardFrom(gens, k, j, rank)
    decreases rank(k), 0, |Directs(gens, k)| - j
  {
    var ds := Directs(gens, k);
    if j < |ds| {
      var dn := ds[j];
      DirectsFoldStep(gens, k, j, dp, rank);
      ContributionKeys(gens, dn, x, rank);
      var next := Spread(dp, AllChanged(gens, [(Name(dn), dn)], rank));
      DirectsFoldKeys(gens, k, j + 1, next, x, rank);
    }
  }

  /** A node the propagation adds comes from `gens`, and every result is
      keyed by its node's name once, as long as `changed` is. */
  predicate FromGens(gens: Rec<Node>, changed: Rec<Node>, r: Rec<Node>)
  {
    forall j :: 0 <= j < |r| ==> r[j] in changed || r[j].1 in Values(gens)
  }

  lemma {:induction false} AllChangedEntries(gens: Rec<Node>, changed: Rec<Node>, rank: string -> nat)
    requires Ranked(gens, rank) && UniqueKeys(changed) && KeyedByName(changed)
    ensures var r := AllChanged(gens, changed, rank);
      UniqueKeys(r) && KeyedByName(r) && FromGens(gens, changed, r)
    decreases MaxRank(Keys(changed), rank), 3
  {
    if |changed| > 0 {
      ChangedFromEntries(gens, changed, 0, [], rank);
    }
  }

  lemma {:induction false} ChangedFromEntries(gens: Rec<Node>, changed: Rec<Node>, i: nat, p: Rec<Node>, rank: string -> nat)
    requires Ranked(gens, rank) && i <= |changed| && KeyedByName(changed)
    requires UniqueKeys(p) && KeyedByName(p) && FromGens(gens, changed, p)
    ensures var r := ChangedFrom(gens, changed, i, p, rank);
      UniqueKeys(r) && KeyedByName(r) && FromGens(gens, changed, r)
    decreases MaxRank(Keys(changed), rank), 2, |changed| - i
  {
    if i < |changed| {
      var q := ChangedOne(gens, changed[i].0, changed[i].1, p, rank);
      assert rank(Keys(changed)[i]) <= MaxRank(Keys(changed), rank);
      ChangedOneEntries(gens, changed[i].1, p, rank);
      assert changed[i] == (Name(changed[i].1), changed[i].1);
      assert FromGens(gens, changed, q) by {
        forall e | e in q ensures e in changed || e.1 in Values(gens) {
          if e !in p && e.1 !in Values(gens) {
            assert e == (Name(changed[i].1), changed[i].1);
          }
        }
      }
      ChangedFromEntries(gens, changed, i + 1, q, rank);
    }
  }

  lemma {:induction false} ChangedOneEntries(gens: Rec<Node>, n: Node, p: Rec<Node>, rank: string -> nat)
    requires Ranked(gens, rank) && UniqueKeys(p) && KeyedByName(p)
    ensures var r := ChangedOne(gens, Name(n), n, p, rank);
      UniqueKeys(r) && KeyedByName(r) && forall e :: e in r ==> e in p || e == (Name(n), n) || e.1 in Values(gens)
    decreases rank(Name(n)), 1
  {
    var acc := Put(p, Name(n), n);
    PutEntries(p, n);
    if |Directs(gens, Name(n))| > 0 {
      DirectsFoldEntries(gens, Name(n), 0, acc, rank);
    }
  }

  /** What one direct dependent contributes is keyed by name and drawn from `gens` or is the dependent itself. */
  lemma {:induction false} ContributionEntries(gens: Rec<Node>, dn: Node, rank: string -> nat)
    requires Ranked(gens, rank)
    ensures var c := AllChanged(gens, [(Name(dn), dn)], rank);
      UniqueKeys(c) && KeyedByName(c) && forall e :: e in c ==> e == (Name(dn), dn) || e.1 in Values(gens)
    decreases rank(Name(dn)), 4
  {
    var one := [(Name(dn), dn)];
    assert Keys(one) == [Name(dn)];
    AllChangedEntries(gens, one, rank);
    var c := AllChanged(gens, one, rank);
    forall e | e in c ensures e == (Name(dn), dn) || e.1 in Values(gens) {
      var i :| 0 <= i < |c| && c[i] == e;
    }
  }

  /** Spreading one dependent's contribution keeps the entries keyed and drawn from `gens`. */
  lemma SpreadFromGens(gens: Rec<Node>, dn: Node, dp: Rec<Node>, c: Rec<Node>)
    requires UniqueKeys(dp) && KeyedByName(dp) && UniqueKeys(c) && KeyedByName(c)
    requires dn in Values(gens) && forall e :: e in c ==> e == (Name(dn), dn) || e.1 in Values(gens)
    ensures var next := Spread(dp, c);
      UniqueKeys(next) && KeyedByName(next) && forall e :: e in next ==> e in dp || e.1 in Values(gens)
  {
    var next := Spread(dp, c);
    SpreadEntries(dp, c);
    forall e | e in next ensures e in dp || e.1 in Values(gens) {
      var i :| 0 <= i < |next| && next[i] == e;
    }
  }

  lemma {:induction false} DirectsFoldEntries(gens: Rec<Node>, k: string, j: nat, dp: Rec<Node>, rank: string -> nat)
    requires Ranked(gens, rank) && j <= |Directs(gens, k)| && UniqueKeys(dp) && KeyedByName(dp)
    ensures var r := DirectsFold(gens, k, j, dp, rank);
      UniqueKeys(r) && KeyedByName(r) && forall e :: e in r ==> e in dp || e.1 in Values(gens)
    decreases rank(k), 0, |Directs(gens, k)| - j
  {
    var ds := Directs(gens, k);
    if j < |ds| {
      var dn := ds[j];
      DirectsFoldStep(gens, k, j, dp, rank);
      ContributionEntries(gens, dn, rank);
      var c := AllChanged(gens, [(Name(dn), dn)], rank);
      SpreadFromGens(gens, dn, dp, c);
      DirectsFoldEntries(gens, k, j + 1, Spread(dp, c), rank);
    }
  }

  // --------------------------------------------------- what the run relies on

  /** The names of the changed set after propagation. */
  function KeySet(r: Rec<Node>): set<string>
  {
    set x | x in Keys(r)
  }

  /** Every changed name is in the result, and every dependent of a name in
      the result is too. */
  lemma AllChangedClosed(gens: Rec<Node>, changed: Rec<Node>, rank: string -> nat)
    requires Ranked(gens, rank)
    ensures forall i :: 0 <= i < |changed| ==> changed[i].0 in Keys(AllChanged(gens, changed, rank))
    ensures Closed(gens, KeySet(AllChanged(gens, changed, rank)))
  {
    var r := AllChanged(gens, changed, rank);
    forall i | 0 <= i < |changed| ensures changed[i].0 in Keys(r) {
      UpwardClosed(gens, changed[i].0, rank);
      AllChangedKeys(gens, changed, changed[i].0, rank);
    }
    forall i, d | 0 <= i < |gens| && d in Keys(gens[i].1.dependencies) && d in KeySet(r)
      ensures Name(gens[i].1) in KeySet(r)
    {
      AllChangedKeys(gens, changed, d, rank);
      var c :| 0 <= c < |changed| && d in Upward(gens, changed[c].0, rank);
      UpwardClosed(gens, changed[c].0, rank);
      AllChangedKeys(gens, changed, Name(gens[i].1), rank);
    }
  }

  /** ... and it holds nothing more: it lies inside every set that contains
      the changed names and is closed under dependents. */
  lemma AllChangedLeast(gens: Rec<Node>, changed: Rec<Node>, s: set<string>, rank: string -> nat)
    requires Ranked(gens, rank) && Closed(gens, s)
    requires forall i :: 0 <= i < |changed| ==> changed[i].0 in s
    ensures KeySet(AllChanged(gens, changed, rank)) <= s
  {
    forall x | x in KeySet(AllChanged(gens, changed, rank)) ensures x in s {
      AllChangedKeys(gens, changed, x, rank);
      var c :| 0 <= c < |changed| && x in Upward(gens, changed[c].0, rank);
      UpwardLeast(gens, changed[c].0, s, rank);
    }
  }
}
