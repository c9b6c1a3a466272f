/** The `Generate` class of lib/index.ts: an immutable generator node, the
    composition methods that return new nodes, and the dependency closure.
    The call-stack lookup that gives a node its `rootDir` is an explicit
    directory argument `dir` instead. */
module Nodes {
  import opened Wrappers
  import opened Records
  import opened Paths
  import opened Configs

  /** A generator node with every path resolved against `rootDir`. */
  datatype Node = Node(
    rootDir: AbsPath,
    conf: Config<AbsPath>,
    scalaClientTarget: Option<AbsPath>,
    scalaTarget: Option<AbsPath>,
    typescriptTarget: Option<TsTarget<AbsPath>>,
    dependencies: Rec<Node>)

  function Name(n: Node): string
  {
    n.conf.name
  }

  predicate AllNormal(ps: seq<AbsPath>)
  {
    forall i :: 0 <= i < |ps| ==> Normal(ps[i])
  }

  predicate OptNormal(p: Option<AbsPath>)
  {
    p.Some? ==> Normal(p.value)
  }

  /** Every path a node holds is the result of a resolution, as the constructor leaves it. */
  predicate PathsNormal(n: Node)
  {
    && Normal(n.rootDir)
    && OptNormal(n.conf.source)
    && (n.conf.typescript.Some? && n.conf.typescript.value.fragments.Some? ==>
          AllNormal(n.conf.typescript.value.fragments.value))
    && OptNormal(n.scalaClientTarget)
    && OptNormal(n.scalaTarget)
    && (n.typescriptTarget.Some? ==>
          && Normal(n.typescriptTarget.value.out)
          && AllNormal(n.typescriptTarget.value.queries)
          && AllNormal(n.typescriptTarget.value.fragments))
  }

  function ResolveAll(dir: AbsPath, ps: seq<string>): (r: seq<AbsPath>)
    requires Normal(dir)
    ensures |r| == |ps| && AllNormal(r)
    ensures forall i :: 0 <= i < |ps| ==> r[i] == Resolve(dir, ps[i])
  {
    if |ps| == 0 then [] else [Resolve(dir, ps[0])] + ResolveAll(dir, ps[1..])
  }

  function RenderAll(ps: seq<AbsPath>): (r: seq<string>)
    ensures |r| == |ps|
    ensures forall i :: 0 <= i < |ps| ==> r[i] == Render(ps[i])
  {
    if |ps| == 0 then [] else [Render(ps[0])] + RenderAll(ps[1..])
  }

  lemma ResolveRenderAll(dir: AbsPath, ps: seq<AbsPath>)
    requires Normal(dir) && AllNormal(ps)
    ensures ResolveAll(dir, RenderAll(ps)) == ps
  {
    forall i | 0 <= i < |ps| ensures ResolveAll(dir, RenderAll(ps))[i] == ps[i] {
      ResolveRender(dir, ps[i]);
    }
  }

  /** `resolvePath` applied by the constructor to the declaration: a falsy
      (empty) source stays falsy, so it is kept as absent. */
  function ResolveConf(dir: AbsPath, c: Config<string>): Config<AbsPath>
    requires Normal(dir)
  {
    Config(
      c.name,
      if c.source.Some? && c.source.value != "" then Some(Resolve(dir, c.source.value)) else None,
      c.calibanArgs,
      if c.typescript.Some? then
        Some(TsConf(
          if c.typescript.value.fragments.Some? then Some(ResolveAll(dir, c.typescript.value.fragments.value)) else None,
          c.typescript.value.scalars))
      else None)
  }

  /** The declaration as the composition methods hand it back to the constructor. */
  function RenderConf(c: Config<AbsPath>): Config<string>
  {
    Config(
      c.name,
      if c.source.Some? then Some(Render(c.source.value)) else None,
      c.calibanArgs,
      if c.typescript.Some? then
        Some(TsConf(
          if c.typescript.value.fragments.Some? then Some(RenderAll(c.typescript.value.fragments.value)) else None,
          c.typescript.value.scalars))
      else None)
  }

  function ResolveOpt(dir: AbsPath, p: Option<string>): (r: Option<AbsPath>)
    requires Normal(dir)
    ensures OptNormal(r)
  {
    if p.Some? then Some(Resolve(dir, p.value)) else None
  }

  function RenderOpt(p: Option<AbsPath>): Option<string>
  {
    if p.Some? then Some(Render(p.value)) else None
  }

  function ResolveTs(dir: AbsPath, t: Option<TsTarget<string>>): Option<TsTarget<AbsPath>>
    requires Normal(dir)
  {
    if t.Some? then Some(TsTarget(Resolve(dir, t.value.out), ResolveAll(dir, t.value.queries), ResolveAll(dir, t.value.fragments)))
    else None
  }

  function RenderTs(t: Option<TsTarget<AbsPath>>): Option<TsTarget<string>>
  {
    if t.Some? then Some(TsTarget(Render(t.value.out), RenderAll(t.value.queries), RenderAll(t.value.fragments)))
    else None
  }

  /** `new Generate(conf, scalaClientTarget, scalaTarget, typescriptTarget, dependencies)`
      called from a file in `dir`: every path is resolved against `dir`. */
  function New(dir: AbsPath, conf: Config<string>, scalaClient: Option<string>, scala: Option<string>,
               typescript: Option<TsTarget<string>>, dependencies: Rec<Node>): (n: Node)
    requires Normal(dir)
    ensures PathsNormal(n)
    ensures n.rootDir == dir && n.dependencies == dependencies && n.conf.name == conf.name
    ensures n.conf.calibanArgs == conf.calibanArgs
    ensures n.conf.source.Some? <==> conf.source.Some? && conf.source.value != ""
    ensures n.conf.source.Some? ==> n.conf.source.value == Resolve(dir, conf.source.value)
    ensures n.scalaTarget == ResolveOpt(dir, scala) && n.scalaClientTarget == ResolveOpt(dir, scalaClient)
  {
    Node(dir, ResolveConf(dir, conf), ResolveOpt(dir, scalaClient), ResolveOpt(dir, scala),
         ResolveTs(dir, typescript), dependencies)
  }

  /** `generate(conf)`: a node with no target and no dependency. */
  function Generate(dir: AbsPath, conf: Config<string>): (n: Node)
    requires Normal(dir)
    ensures PathsNormal(n) && n.rootDir == dir && n.conf.name == conf.name
    ensures n.scalaTarget.None? && n.scalaClientTarget.None? && n.typescriptTarget.None?
    ensures n.dependencies == []
  {
    New(dir, conf, None, None, None, [])
  }

  /** Re-resolving the paths of a constructed node changes none of them. */
  lemma {:induction false} RebuildSame(dir: AbsPath, n: Node)
    requires Normal(dir) && PathsNormal(n)
    ensures ResolveConf(dir, RenderConf(n.conf)) == n.conf
    ensures ResolveOpt(dir, RenderOpt(n.scalaClientTarget)) == n.scalaClientTarget
    ensures ResolveOpt(dir, RenderOpt(n.scalaTarget)) == n.scalaTarget
    ensures ResolveTs(dir, RenderTs(n.typescriptTarget)) == n.typescriptTarget
  {
    if n.conf.source.Some? {
      ResolveRender(dir, n.conf.source.value);
      assert Render(n.conf.source.value)[0] == '/';
    }
    if n.conf.typescript.Some? && n.conf.typescript.value.fragments.Some? {
      ResolveRenderAll(dir, n.conf.typescript.value.fragments.value);
    }
    if n.scalaClientTarget.Some? {
      ResolveRender(dir, n.scalaClientTarget.value);
    }
    if n.scalaTarget.Some? {
      ResolveRender(dir, n.scalaTarget.value);
    }
    if n.typescriptTarget.Some? {
      ResolveRender(dir, n.typescriptTarget.value.out);
      ResolveRenderAll(dir, n.typescriptTarget.value.queries);
      ResolveRenderAll(dir, n.typescriptTarget.value.fragments);
    }
  }

  /** `n.scala(target)` called from a file in `dir`. */
  function WithScala(n: Node, dir: AbsPath, out: string): Node
    requires Normal(dir)
  {
    New(dir, RenderConf(n.conf), RenderOpt(n.scalaClientTarget), Some(out), RenderTs(n.typescriptTarget), n.dependencies)
  }

  /** `n.scalaClient(target)` called from a file in `dir`. */
  function WithScalaClient(n: Node, dir: AbsPath, out: string): Node
    requires Normal(dir)
  {
    New(dir, RenderConf(n.conf), Some(out), RenderOpt(n.scalaTarget), RenderTs(n.typescriptTarget), n.dependencies)
  }

  /** `n.typescript(target)` called from a file in `dir`. */
  function WithTypescript(n: Node, dir: AbsPath, target: TsTarget<string>): Node
    requires Normal(dir)
  {
    New(dir, RenderConf(n.conf), RenderOpt(n.scalaClientTarget), RenderOpt(n.scalaTarget), Some(target), n.dependencies)
  }

  /** `deps.reduce((p, n) => ({ ...p, [n.conf.name]: n }), {})`. */
  function ByName(deps: seq<Node>): (r: Rec<Node>)
    ensures UniqueKeys(r)
    ensures forall i :: 0 <= i < |r| ==> Name(r[i].1) == r[i].0
    ensures forall k :: k in Keys(r) <==> exists i :: 0 <= i < |deps| && Name(deps[i]) == k
    ensures forall i :: 0 <= i < |r| ==> r[i].1 in deps
  {
    if |deps| == 0 then []
    else
      var front := ByName(deps[..|deps| - 1]);
      ByNameEntries(front, deps[..|deps| - 1], deps[|deps| - 1]);
      ByNameKeys(front, deps[..|deps| - 1], deps[|deps| - 1]);
      assert deps == deps[..|deps| - 1] + [deps[|deps| - 1]];
      Put(front, Name(deps[|deps| - 1]), deps[|deps| - 1])
  }

  /** One more dependency keeps every entry keyed by its node's name. */
  lemma ByNameEntries(front: Rec<Node>, ds: seq<Node>, last: Node)
    requires UniqueKeys(front)
    requires forall i :: 0 <= i < |front| ==> Name(front[i].1) == front[i].0 && front[i].1 in ds
    ensures var r := Put(front, Name(last), last);
      UniqueKeys(r) && forall i :: 0 <= i < |r| ==> r[i].1 in ds + [last] && Name(r[i].1) == r[i].0
  {
    var r := Put(front, Name(last), last);
    forall i | 0 <= i < |r| ensures r[i].1 in ds + [last] && Name(r[i].1) == r[i].0 {
      if Name(last) in Keys(front) {
        assert Keys(r) == Keys(front);
        if r[i].0 != Name(last) {
          UniqueGet(r, i);
          UniqueGet(front, i);
        }
      } else if i < |front| {
        UniqueGet(r, i);
        UniqueGet(front, i);
      } else {
        UniqueGet(r, i);
      }
    }
  }

  /** One more dependency adds its name to the keys. */
  lemma ByNameKeys(front: Rec<Node>, ds: seq<Node>, last: Node)
    requires forall k :: k in Keys(front) <==> exists i :: 0 <= i < |ds| && Name(ds[i]) == k
    ensures var deps := ds + [last];
      forall k :: k in Keys(Put(front, Name(last), last)) <==> exists i :: 0 <= i < |deps| && Name(deps[i]) == k
  {
    var deps := ds + [last];
    forall k ensures k in Keys(Put(front, Name(last), last)) <==> exists i :: 0 <= i < |deps| && Name(deps[i]) == k {
      if k in Keys(front) {
        var i :| 0 <= i < |ds| && Name(ds[i]) == k;
        assert Name(deps[i]) == k;
      }
      if exists i :: 0 <= i < |deps| && Name(deps[i]) == k {
        var i :| 0 <= i < |deps| && Name(deps[i]) == k;
        if i < |ds| {
          assert Name(ds[i]) == k;
        } else {
          assert deps[i] == last;
        }
      }
      if k == Name(last) {
        assert Name(deps[|ds|]) == k;
      }
    }
  }

  /** In an object with unique keys an entry is what lookup of its key finds. */
  lemma UniqueGet(r: Rec<Node>, i: nat)
    requires UniqueKeys(r) && i < |r|
    ensures Get(r, r[i].0) == Some(r[i].1)
  {
    GetEntry(r, i);
  }

  /** For each name, the dependency map holds the last node given with that name. */
  lemma {:induction false} ByNameLastWins(deps: seq<Node>, j: nat)
    requires j < |deps|
    requires forall i :: j < i < |deps| ==> Name(deps[i]) != Name(deps[j])
    ensures Get(ByName(deps), Name(deps[j])) == Some(deps[j])
    decreases |deps|
  {
    if j < |deps| - 1 {
      ByNameLastWins(deps[..|deps| - 1], j);
    }
  }

  /** `n.extends(...deps)` called from a file in `dir`. */
  function Extends(n: Node, dir: AbsPath, deps: seq<Node>): Node
    requires Normal(dir)
  {
    New(dir, RenderConf(n.conf), RenderOpt(n.scalaClientTarget), RenderOpt(n.scalaTarget), RenderTs(n.typescriptTarget), ByName(deps))
  }

  /** Each composition method returns a node that differs from the receiver
      only in the one target or in the dependency map, and in `rootDir`,
      which is the directory of the caller. */
  lemma CompositionChangesOneField(n: Node, dir: AbsPath, out: string, t: TsTarget<string>, deps: seq<Node>)
    requires Normal(dir) && PathsNormal(n)
    ensures WithScala(n, dir, out) == n.(rootDir := dir, scalaTarget := Some(Resolve(dir, out)))
    ensures WithScalaClient(n, dir, out) == n.(rootDir := dir, scalaClientTarget := Some(Resolve(dir, out)))
    ensures WithTypescript(n, dir, t) == n.(rootDir := dir, typescriptTarget := ResolveTs(dir, Some(t)))
    ensures Extends(n, dir, deps) == n.(rootDir := dir, dependencies := ByName(deps))
  {
    RebuildSame(dir, n);
  }

  /** The nodes reachable from `n` in one or more steps. */
  function Descendants(n: Node): set<Node>
    decreases n, 1
  {
    DescendantsFrom(n, 0)
  }

  function DescendantsFrom(n: Node, i: nat): set<Node>
    requires i <= |n.dependencies|
    decreases n, 0, |n.dependencies| - i
  {
    if i == |n.dependencies| then {}
    else
      assert n.dependencies[i] in n.dependencies;
      var v := n.dependencies[i].1;
      {v} + Descendants(v) + DescendantsFrom(n, i + 1)
  }

  /** `recurseDependencies(n.dependencies)`: a lodash reduce over the
      dependency map that puts each dependency under its own name and then
      spreads in that dependency's closure. */
  function Closure(n: Node): Rec<Node>
    decreases n, 1
  {
    ClosureFrom(n, 0, [])
  }

  function ClosureFrom(n: Node, i: nat, acc: Rec<Node>): Rec<Node>
    requires i <= |n.dependencies|
    decreases n, 0, |n.dependencies| - i
  {
    if i == |n.dependencies| then acc
    else
      ClosureFrom(n, i + 1, ClosureStep(n, i, acc))
  }

  /** Every entry of the object is a node under its own name. */
  predicate KeyedByName(r: Rec<Node>)
  {
    forall i :: 0 <= i < |r| ==> Name(r[i].1) == r[i].0
  }

  /** Each key of `Spread(a, b)` holds a value of `a` or of `b`. */
  lemma {:induction false} SpreadValues(a: Rec<Node>, b: Rec<Node>, i: nat)
    requires UniqueKeys(a) && UniqueKeys(b) && i < |Spread(a, b)|
    ensures Spread(a, b)[i] in a || Spread(a, b)[i] in b
  {
    var r := Spread(a, b);
    GetEntry(r, i);
    var k := r[i].0;
    if k in Keys(b) {
      assert Get(r, k) == Get(b, k);
    } else {
      assert Get(r, k) == Get(a, k);
    }
  }

  /** The closure holds each reachable dependency's name exactly once, each
      under a reachable node of that name. */
  lemma {:induction false} ClosureSpec(n: Node)
    ensures UniqueKeys(Closure(n)) && KeyedByName(Closure(n))
    ensures forall i :: 0 <= i < |Closure(n)| ==> Closure(n)[i].1 in Descendants(n)
    ensures forall d :: d in Descendants(n) ==> Name(d) in Keys(Closure(n))
    decreases n, 1
  {
    ClosureFromSpec(n, 0, []);
  }

  /** Putting a node under its own name keeps an object keyed by name. */
  lemma PutEntries(acc: Rec<Node>, v: Node)
    requires UniqueKeys(acc) && KeyedByName(acc)
    ensures var p := Put(acc, Name(v), v);
      && UniqueKeys(p) && KeyedByName(p)
      && forall j :: 0 <= j < |p| ==> p[j] in acc || p[j] == (Name(v), v)
  {
    var p := Put(acc, Name(v), v);
    forall j | 0 <= j < |p| ensures p[j] in acc || p[j] == (Name(v), v) {
      GetEntry(p, j);
      if p[j].0 != Name(v) {
        assert Get(p, p[j].0) == Get(acc, p[j].0);
      }
    }
    forall j | 0 <= j < |p| ensures Name(p[j].1) == p[j].0 {
      if p[j] in acc {
        var m :| 0 <= m < |acc| && acc[m] == p[j];
      }
    }
  }

  /** Spreading one object keyed by name into another keeps it keyed by name. */
  lemma SpreadEntries(p: Rec<Node>, c: Rec<Node>)
    requires UniqueKeys(p) && KeyedByName(p) && UniqueKeys(c) && KeyedByName(c)
    ensures var r := Spread(p, c);
      && UniqueKeys(r) && KeyedByName(r)
      && forall j :: 0 <= j < |r| ==> r[j] in p || r[j] in c
  {
    var r := Spread(p, c);
    forall j | 0 <= j < |r| ensures (r[j] in p || r[j] in c) && Name(r[j].1) == r[j].0 {
      SpreadValues(p, c, j);
      if r[j] in p {
        var m :| 0 <= m < |p| && p[m] == r[j];
      } else {
        var m :| 0 <= m < |c| && c[m] == r[j];
      }
    }
  }

  /** One step of the closure fold: the object after dependency `i`. */
  function ClosureStep(n: Node, i: nat, acc: Rec<Node>): Rec<Node>
    requires i < |n.dependencies|
    decreases n, 0, 0
  {
    assert n.dependencies[i] in n.dependencies;
    var v := n.dependencies[i].1;
    var p := Put(acc, Name(v), v);
    if |v.dependencies| > 0 then Spread(p, Closure(v)) else p
  }

  /** The closure step for a dependency `v` with dependencies of its own,
      whose closure `c` holds only nodes of `ds`. */
  lemma SpreadStepEntries(acc: Rec<Node>, v: Node, c: Rec<Node>, ds: set<Node>)
    requires UniqueKeys(acc) && KeyedByName(acc) && UniqueKeys(c) && KeyedByName(c)
    requires forall j :: 0 <= j < |c| ==> c[j].1 in ds
    ensures var next := Spread(Put(acc, Name(v), v), c);
      forall j :: 0 <= j < |next| ==> next[j] in acc || next[j].1 in {v} + ds
  {
    var p := Put(acc, Name(v), v);
    PutEntries(acc, v);
    SpreadEntries(p, c);
    var next := Spread(p, c);
    forall j | 0 <= j < |next| ensures next[j] in acc || next[j].1 in {v} + ds {
      if next[j] in c {
        var m :| 0 <= m < |c| && c[m] == next[j];
      }
    }
  }

  /** The closure step keeps every key and adds `v`'s name and the names of `ds`. */
  lemma SpreadStepKeys(acc: Rec<Node>, v: Node, c: Rec<Node>, ds: set<Node>)
    requires forall d :: d in ds ==> Name(d) in Keys(c)
    ensures var next := Spread(Put(acc, Name(v), v), c);
      && (forall k :: k in Keys(acc) ==> k in Keys(next))
      && (forall d :: d in {v} + ds ==> Name(d) in Keys(next))
  {
    assert Name(v) in Keys(Put(acc, Name(v), v));
  }

  lemma {:induction false} ClosureStepSpec(n: Node, i: nat, acc: Rec<Node>)
    requires i < |n.dependencies|
    requires UniqueKeys(acc) && KeyedByName(acc)
    ensures var next := ClosureStep(n, i, acc);
      && UniqueKeys(next) && KeyedByName(next)
      && (forall j :: 0 <= j < |next| ==> next[j] in acc || next[j].1 in DescendantsFrom(n, i))
      && (forall k :: k in Keys(acc) ==> k in Keys(next))
      && (forall d :: d in DescendantsFrom(n, i) ==> d in DescendantsFrom(n, i + 1) || Name(d) in Keys(next))
    decreases n, 0, 0
  {
    assert n.dependencies[i] in n.dependencies;
    var v := n.dependencies[i].1;
    assert DescendantsFrom(n, i) == {v} + Descendants(v) + DescendantsFrom(n, i + 1);
    if |v.dependencies| > 0 {
      ClosureSpec(v);
      PutEntries(acc, v);
      SpreadEntries(Put(acc, Name(v), v), Closure(v));
      SpreadStepEntries(acc, v, Closure(v), Descendants(v));
      SpreadStepKeys(acc, v, Closure(v), Descendants(v));
    } else {
      PutEntries(acc, v);
      assert Name(v) in Keys(Put(acc, Name(v), v));
      assert Descendants(v) == DescendantsFrom(v, 0) == {};
    }
  }

  lemma {:induction false} ClosureFromSpec(n: Node, i: nat, acc: Rec<Node>)
    requires i <= |n.dependencies|
    requires UniqueKeys(acc) && KeyedByName(acc)
    ensures var r := ClosureFrom(n, i, acc);
      && UniqueKeys(r) && KeyedByName(r)
      && (forall j :: 0 <= j < |r| ==> r[j] in acc || r[j].1 in DescendantsFrom(n, i))
      && (forall k :: k in Keys(acc) ==> k in Keys(r))
      && (forall d :: d in DescendantsFrom(n, i) ==> Name(d) in Keys(r))
    decreases n, 0, |n.dependencies| - i
  {
    if i < |n.dependencies| {
      ClosureStepSpec(n, i, acc);
      var next := ClosureStep(n, i, acc);
      ClosureFromSpec(n, i + 1, next);
      var r := ClosureFrom(n, i + 1, next);
      assert r == ClosureFrom(n, i, acc);
      forall j | 0 <= j < |r| ensures r[j] in acc || r[j].1 in DescendantsFrom(n, i) {
        if r[j] in next {
          var m :| 0 <= m < |next| && next[m] == r[j];
        }
      }
    }
  }

  /** No two distinct nodes of a set share a name: the uniqueness a run relies on. */
  predicate UniqueNames(s: set<Node>)
  {
    forall a, b :: a in s && b in s && Name(a) == Name(b) ==> a == b
  }

  /** With unique names the closure holds exactly the reachable dependencies,
      each once: in a diamond the shared node appears a single time. */
  lemma ClosureExact(n: Node)
    requires UniqueNames(Descendants(n))
    ensures UniqueKeys(Closure(n))
    ensures forall d :: d in Descendants(n) <==> d in Values(Closure(n))
  {
    ClosureSpec(n);
    var c := Closure(n);
    forall d | d in Descendants(n) ensures d in Values(c) {
      var j :| 0 <= j < |c| && c[j].0 == Name(d);
      assert c[j].1 in Descendants(n);
      assert c[j].1 == d;
    }
  }

  /** The names of the direct dependencies, in order (`depNames` in `build`). */
  function DepNames(n: Node): (r: seq<string>)
    ensures |r| == |n.dependencies|
    ensures forall i :: 0 <= i < |r| ==> r[i] == Name(n.dependencies[i].1)
  {
    seq(|n.dependencies|, i requires 0 <= i < |n.dependencies| => Name(n.dependencies[i].1))
  }
}
