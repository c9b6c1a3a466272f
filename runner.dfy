/** The top-level `run` of lib/index.ts (lines 431-602): it diffs the
    current source tree against the snapshot of the previous run, selects
    the nodes to work on, builds them in order, collects their emission
    configs, keeps the requested languages, hands each language's batch to
    its generator and finally makes the current tree the new snapshot. */
module Runner {
  import opened Wrappers
  import opened Records
  import opened Paths
  import opened Configs
  import opened Nodes
  import opened Build
  import opened Merge
  import opened Diff
  import opened Changes
  import ScalaGen

  datatype Mode = BuildMode | GenMode | CleanMode

  /** `path.join(root, '.tmp', name)`. */
  function TmpDir(root: AbsPath, name: string): (r: AbsPath)
    requires Normal(root) && name != "" && name != "." && name != ".." && '/' !in name
    ensures Normal(r) && r == root + [".tmp", name]
  {
    NormalizeNormal(root, [".tmp", name]);
    Normalize(root, [".tmp", name])
  }

  // ------------------------------------------------------------ changed set

  /** `_.filter(gens, v => diffDirs.includes(v.rootDir))`. */
  function DiffDirGens(gens: Rec<Node>, dirs: seq<string>): (r: seq<Node>)
    ensures forall n :: n in r <==> n in Values(gens) && Render(n.rootDir) in dirs
  {
    if |gens| == 0 then []
    else
      var front := gens[..|gens| - 1];
      var n := gens[|gens| - 1].1;
      assert Values(gens) == Values(front) + [n];
      DiffDirGens(front, dirs) + (if Render(n.rootDir) in dirs then [n] else [])
  }

  /** `diffGens`: empty without a previous snapshot, otherwise the nodes whose
      root directory the diff reports, with everything that depends on them. */
  function ChangedGens(gens: Rec<Node>, root: AbsPath, current: Entry, previous: Option<Entry>, rank: string -> nat): Result<seq<Node>>
    requires Normal(root) && Ranked(gens, rank)
  {
    if previous.None? then Ok([])
    else
      var dirs := DiffDirs(root, current, previous.value, TmpDir(root, "srcTemp"), TmpDir(root, "src"));
      if dirs.Err? then Err(dirs.error)
      else Ok(Values(AllChanged(gens, ByName(DiffDirGens(gens, dirs.value)), rank)))
  }

  // -------------------------------------------------------------- selection

  /** `keyChanged`; `!diffGens` is never true, since `diffGens` starts as `[]`. */
  predicate KeyChanged(k: string, force: bool, diffGens: seq<Node>)
  {
    force || exists i :: 0 <= i < |diffGens| && Name(diffGens[i]) == k
  }

  /** The position of the element `keys.find(k_ => matches(k, k_))` returns,
      where `matches(k, k_)` stands for `!!k.match(k_)`. */
  function FirstMatch(k: string, keys: seq<string>, matches: (string, string) -> bool): (r: Option<nat>)
    ensures r.Some? ==> r.value < |keys| && matches(k, keys[r.value]) && NoMatchBefore(k, keys, matches, r.value)
    ensures r.None? ==> NoMatchBefore(k, keys, matches, |keys|)
    decreases |keys|
  {
    if |keys| == 0 then None
    else if matches(k, keys[0]) then Some(0)
    else
      var r := FirstMatch(k, keys[1..], matches);
      assert forall j :: 1 <= j <= |keys| ==> NoMatchBefore(k, keys[1..], matches, j - 1) ==> NoMatchBefore(k, keys, matches, j) by {
        forall j | 1 <= j <= |keys| && NoMatchBefore(k, keys[1..], matches, j - 1) ensures NoMatchBefore(k, keys, matches, j) {
          forall i | 0 < i < j ensures !matches(k, keys[i]) { assert keys[i] == keys[1..][i - 1]; }
        }
      }
      if r.None? then None else Some(r.value + 1)
  }

  /** No key before position `i` matches `k`. */
  predicate NoMatchBefore(k: string, keys: seq<string>, matches: (string, string) -> bool, i: nat)
    requires i <= |keys|
  {
    forall j :: 0 <= j < i ==> !matches(k, keys[j])
  }

  /** `keyMatches`: `!!keys.find(...)`, so the first matching key decides, and
      an empty first match is falsy. An empty `keys` array matches nothing. */
  predicate KeyMatches(k: string, keys: Option<seq<string>>, matches: (string, string) -> bool)
  {
    keys.None? || (var f := FirstMatch(k, keys.value, matches); f.Some? && keys.value[f.value] != "")
  }

  /** A list of keys matches `k` exactly when some key matches it, no key
      before that one does, and that key is not empty. */
  lemma KeyMatchesFirst(k: string, keys: seq<string>, matches: (string, string) -> bool)
    ensures KeyMatches(k, Some(keys), matches) <==>
      exists i :: 0 <= i < |keys| && matches(k, keys[i]) && NoMatchBefore(k, keys, matches, i) && keys[i] != ""
  {
    var f := FirstMatch(k, keys, matches);
    if exists i :: 0 <= i < |keys| && matches(k, keys[i]) && NoMatchBefore(k, keys, matches, i) && keys[i] != "" {
      var i :| 0 <= i < |keys| && matches(k, keys[i]) && NoMatchBefore(k, keys, matches, i) && keys[i] != "";
      assert f == Some(i);
    }
  }

  /** An empty key that is the first to match hides every later key, even
      one that matches. */
  lemma KeyMatchesEmptyFirst(k: string, keys: seq<string>, matches: (string, string) -> bool, i: nat)
    requires i < |keys| && keys[i] == "" && matches(k, keys[i]) && NoMatchBefore(k, keys, matches, i)
    ensures !KeyMatches(k, Some(keys), matches)
  {
    assert FirstMatch(k, keys, matches) == Some(i);
  }

  predicate Selected(k: string, force: bool, diffGens: seq<Node>, keys: Option<seq<string>>, matches: (string, string) -> bool)
  {
    KeyChanged(k, force, diffGens) && KeyMatches(k, keys, matches)
  }

  /** `filteredGens`: the nodes of `gens` whose key is selected, in order. */
  function Select(gens: Rec<Node>, force: bool, diffGens: seq<Node>, keys: Option<seq<string>>,
                  matches: (string, string) -> bool): (r: seq<Node>)
    ensures |r| <= |gens|
    ensures forall n :: n in r <==>
      exists i :: 0 <= i < |gens| && gens[i].1 == n && Selected(gens[i].0, force, diffGens, keys, matches)
  {
    if |gens| == 0 then []
    else
      var front := gens[..|gens| - 1];
      var e := gens[|gens| - 1];
      var r := Select(front, force, diffGens, keys, matches) + (if Selected(e.0, force, diffGens, keys, matches) then [e.1] else []);
      assert forall n :: n in r <==>
        exists i :: 0 <= i < |gens| && gens[i].1 == n && Selected(gens[i].0, force, diffGens, keys, matches) by {
        forall n ensures n in r <==>
          exists i :: 0 <= i < |gens| && gens[i].1 == n && Selected(gens[i].0, force, diffGens, keys, matches) {
          if n in Select(front, force, diffGens, keys, matches) {
            var i :| 0 <= i < |front| && front[i].1 == n && Selected(front[i].0, force, diffGens, keys, matches);
            assert gens[i] == front[i];
          }
          if exists i :: 0 <= i < |gens| && gens[i].1 == n && Selected(gens[i].0, force, diffGens, keys, matches) {
            var i :| 0 <= i < |gens| && gens[i].1 == n && Selected(gens[i].0, force, diffGens, keys, matches);
            if i < |front| {
              assert gens[i] == front[i];
            }
          }
        }
      }
      r
  }

  /** Selection keeps the order of `gens`: selecting from two parts is selecting from each. */
  lemma {:induction false} SelectAppend(a: Rec<Node>, b: Rec<Node>, force: bool, diffGens: seq<Node>,
                                         keys: Option<seq<string>>, matches: (string, string) -> bool)
    ensures Select(a + b, force, diffGens, keys, matches)
         == Select(a, force, diffGens, keys, matches) + Select(b, force, diffGens, keys, matches)
    decreases |b|
  {
    if |b| > 0 {
      var b' := b[..|b| - 1];
      var e := b[|b| - 1];
      var last := if Selected(e.0, force, diffGens, keys, matches) then [e.1] else [];
      assert (a + b)[..|a + b| - 1] == a + b';
      assert (a + b)[|a + b| - 1] == e;
      assert Select(a + b, force, diffGens, keys, matches) == Select(a + b', force, diffGens, keys, matches) + last;
      assert Select(b, force, diffGens, keys, matches) == Select(b', force, diffGens, keys, matches) + last;
      SelectAppend(a, b', force, diffGens, keys, matches);
    } else {
      assert a + b == a;
    }
  }

  /** `force` without `keys` selects every node, in order. */
  lemma {:induction false} SelectAll(gens: Rec<Node>, diffGens: seq<Node>, matches: (string, string) -> bool)
    ensures Select(gens, true, diffGens, None, matches) == Values(gens)
  {
    if |gens| > 0 {
      SelectAll(gens[..|gens| - 1], diffGens, matches);
    }
  }

  /** Without `force` and with nothing changed, nothing is selected. */
  lemma {:induction false} SelectNothingChanged(gens: Rec<Node>, keys: Option<seq<string>>, matches: (string, string) -> bool)
    ensures Select(gens, false, [], keys, matches) == []
  {
    if |gens| > 0 {
      SelectNothingChanged(gens[..|gens| - 1], keys, matches);
    }
  }

  /** An empty `keys` array selects nothing, even with `force`. */
  lemma {:induction false} SelectNoKeys(gens: Rec<Node>, force: bool, diffGens: seq<Node>, matches: (string, string) -> bool)
    ensures Select(gens, force, diffGens, Some([]), matches) == []
  {
    if |gens| > 0 {
      SelectNoKeys(gens[..|gens| - 1], force, diffGens, matches);
    }
  }

  /** In an object keyed by name, a key names one of its values exactly when it is one of its keys. */
  lemma KeyChangedValues(r: Rec<Node>, k: string)
    requires KeyedByName(r)
    ensures KeyChanged(k, false, Values(r)) <==> k in KeySet(r)
  {
    var vs := Values(r);
    if KeyChanged(k, false, vs) {
      var i :| 0 <= i < |vs| && Name(vs[i]) == k;
      assert Keys(r)[i] == k;
    }
    if k in KeySet(r) {
      var i :| 0 <= i < |r| && Keys(r)[i] == k;
      assert Name(vs[i]) == k;
    }
  }

  /** Without `force`, a key counts as changed exactly when it names one of
      the nodes `ns` the diff reported or a transitive dependent of one; by
      `AllChangedClosed` and `AllChangedLeast` that is the least
      dependents-closed set holding their names. */
  lemma PropagatedNames(gens: Rec<Node>, ns: seq<Node>, rank: string -> nat, k: string)
    requires Ranked(gens, rank)
    ensures KeyChanged(k, false, Values(AllChanged(gens, ByName(ns), rank)))
        <==> k in KeySet(AllChanged(gens, ByName(ns), rank))
    ensures forall n :: n in ns ==> Name(n) in KeySet(AllChanged(gens, ByName(ns), rank))
  {
    var changed := ByName(ns);
    var r := AllChanged(gens, changed, rank);
    AllChangedEntries(gens, changed, rank);
    KeyChangedValues(r, k);
    forall n | n in ns ensures Name(n) in KeySet(r) {
      var j :| 0 <= j < |ns| && ns[j] == n;
      assert Name(n) in Keys(changed);
      var i :| 0 <= i < |changed| && Keys(changed)[i] == Name(n);
      AllChangedClosed(gens, changed, rank);
    }
  }

  /** `filteredGens` of a run: the changed set of the diff, then the selection. */
  function Selection(gens: Rec<Node>, root: AbsPath, current: Entry, previous: Option<Entry>, force: bool,
                     keys: Option<seq<string>>, matches: (string, string) -> bool, rank: string -> nat): (r: Result<seq<Node>>)
    requires Normal(root) && Ranked(gens, rank)
    ensures r.Ok? ==> forall n :: n in r.value ==> n in Values(gens)
  {
    var diffGens := ChangedGens(gens, root, current, previous, rank);
    if diffGens.Err? then Err(diffGens.error)
    else
      var r := Select(gens, force, diffGens.value, keys, matches);
      assert forall n :: n in r ==> n in Values(gens) by {
        forall n | n in r ensures n in Values(gens) {
          var i :| 0 <= i < |gens| && gens[i].1 == n && Selected(gens[i].0, force, diffGens.value, keys, matches);
          assert Values(gens)[i] == n;
        }
      }
      Ok(r)
  }

  // ------------------------------------------------------------- build fold

  predicate AllTreeNormal(ns: seq<Node>)
  {
    forall n :: n in ns ==> TreeNormal(n)
  }

  /** What building `ns` in order adds to the already-built list: each
      node's name, then the names of its direct dependencies when it has a
      source. */
  function BuiltNames(ns: seq<Node>): seq<string>
  {
    if |ns| == 0 then []
    else
      var n := ns[|ns| - 1];
      BuiltNames(ns[..|ns| - 1]) + [Name(n)] + (if n.conf.source.Some? then DepNames(n) else [])
  }

  /** The sequential build reduce: each node is built with the list of
      names built so far as its exclude list; the first failure ends it. */
  function BuildFoldOf(ns: seq<Node>, ws: Workspace): Result<seq<string>>
    requires AllTreeNormal(ns)
  {
    if |ns| == 0 then Ok([])
    else
      var p := BuildFoldOf(ns[..|ns| - 1], ws);
      if p.Err? then p
      else
        var n := ns[|ns| - 1];
        var b := Build.Build(n, p.value, ws);
        if b.Err? then Err(b.error) else Ok(p.value + [Name(n)] + b.value.depsBuilt)
  }

  /** Once a prefix of the nodes fails to build, the whole fold fails with that error. */
  lemma {:induction false} BuildFoldErrStays(ns: seq<Node>, j: nat, ws: Workspace)
    requires AllTreeNormal(ns) && j <= |ns| && BuildFoldOf(ns[..j], ws).Err?
    ensures BuildFoldOf(ns, ws) == BuildFoldOf(ns[..j], ws)
    decreases |ns| - j
  {
    if j < |ns| {
      var f := ns[..j + 1];
      assert f[..j] == ns[..j];
      BuildFoldErrStays(ns, j + 1, ws);
    } else {
      assert ns[..j] == ns;
    }
  }

  /** `await _.reduce(filteredGens, …, Promise.resolve([]))` over `build`. */
  method BuildAll(ns: seq<Node>, ws: Workspace) returns (r: Result<seq<string>>)
    requires AllTreeNormal(ns)
    ensures r == BuildFoldOf(ns, ws)
  {
    var x: seq<string> := [];
    var i := 0;
    while i < |ns|
      invariant 0 <= i <= |ns|
      invariant BuildFoldOf(ns[..i], ws) == Ok(x)
    {
      var n := ns[i];
      assert ns[..i + 1][..i] == ns[..i] && ns[..i + 1][i] == n;
      var b := Build.Build(n, x, ws);
      if b.Err? {
        BuildFoldErrStays(ns, i + 1, ws);
        return Err(b.error);
      }
      x := x + [n.conf.name] + b.value.depsBuilt;
      i := i + 1;
    }
    assert ns[..i] == ns;
    return Ok(x);
  }

  /** A fold that succeeds returns the names `BuiltNames` lists... */
  lemma {:induction false} BuildFoldValue(ns: seq<Node>, ws: Workspace)
    requires AllTreeNormal(ns)
    ensures BuildFoldOf(ns, ws).Ok? ==> BuildFoldOf(ns, ws).value == BuiltNames(ns)
  {
    if |ns| > 0 {
      var front := ns[..|ns| - 1];
      var n := ns[|ns| - 1];
      assert AllTreeNormal(front) by {
        forall m | m in front ensures TreeNormal(m) {
          assert m in ns;
        }
      }
      BuildFoldValue(front, ws);
      var p := BuildFoldOf(front, ws);
      if p.Ok? {
        assert n in ns;
        BuildStep(n, p.value, ws);
      }
    }
  }

  /** ... every node built with the names before it as its exclude list... */
  lemma {:induction false} BuildFoldEach(ns: seq<Node>, ws: Workspace, i: nat)
    requires AllTreeNormal(ns) && i < |ns| && BuildFoldOf(ns, ws).Ok?
    ensures Build.Build(ns[i], BuiltNames(ns[..i]), ws).Ok?
  {
    var front := ns[..|ns| - 1];
    assert AllTreeNormal(front) by {
      forall m | m in front ensures TreeNormal(m) {
        assert m in ns;
      }
    }
    BuildFoldValue(front, ws);
    if i < |ns| - 1 {
      BuildFoldEach(front, ws, i);
      assert front[i] == ns[i] && front[..i] == ns[..i];
    } else {
      assert ns[..i] == front;
    }
  }

  /** ... and it succeeds when every such build does. */
  lemma {:induction false} BuildFoldAll(ns: seq<Node>, ws: Workspace)
    requires AllTreeNormal(ns)
    requires forall i :: 0 <= i < |ns| ==> Build.Build(ns[i], BuiltNames(ns[..i]), ws).Ok?
    ensures BuildFoldOf(ns, ws).Ok?
  {
    if |ns| > 0 {
      var front := ns[..|ns| - 1];
      assert AllTreeNormal(front) by {
        forall m | m in front ensures TreeNormal(m) {
          assert m in ns;
        }
      }
      forall i | 0 <= i < |front| ensures Build.Build(front[i], BuiltNames(front[..i]), ws).Ok? {
        assert front[i] == ns[i] && front[..i] == ns[..i];
      }
      BuildFoldAll(front, ws);
      BuildFoldValue(front, ws);
      assert ns[..|ns| - 1] == front;
    }
  }

  /** ... and then returns those names: a build that succeeds reports the
      dependency names exactly when the node has a source. */
  lemma BuildStep(n: Node, x: seq<string>, ws: Workspace)
    requires TreeNormal(n)
    ensures var b := Build.Build(n, x, ws);
      b.Ok? ==> b.value.depsBuilt == (if n.conf.source.Some? then DepNames(n) else [])
  {
  }

  // ------------------------------------------------------ config collection

  function ScalaEmissions(cs: seq<ScalaConfig>): (r: seq<EmissionConfig>)
    ensures |r| == |cs| && forall i :: 0 <= i < |cs| ==> r[i] == ScalaEmission(cs[i])
  {
    seq(|cs|, i requires 0 <= i < |cs| => ScalaEmission(cs[i]))
  }

  /** `scala.concat(typescript ? [typescript] : [])` for one node. */
  function Emissions(o: NodeOut): seq<EmissionConfig>
  {
    ScalaEmissions(o.scala) + (if o.typescript.Some? then [TypescriptEmission(o.typescript.value)] else [])
  }

  /** The sequential reduce of `run` over the selected nodes, flattened
      (`_.flatMap(configs, …)` visits the array indices in order). The
      snapshot files each node writes are threaded on as the workspace;
      `clock(i)` is the time stamp the `i`-th node run reads. */
  function CollectOf(ns: seq<Node>, targetDir: AbsPath, ws: Workspace, clock: nat -> string): Result<(seq<EmissionConfig>, Workspace)>
    requires Normal(targetDir)
  {
    if |ns| == 0 then Ok(([], ws))
    else
      var p := CollectOf(ns[..|ns| - 1], targetDir, ws, clock);
      if p.Err? then p
      else
        var o := NodeRunOf(ns[|ns| - 1], targetDir, p.value.1, clock(|ns| - 1));
        if o.Err? then Err(o.error) else Ok((p.value.0 + Emissions(o.value.0), o.value.1))
  }

  lemma {:induction false} CollectErrStays(ns: seq<Node>, j: nat, targetDir: AbsPath, ws: Workspace, clock: nat -> string)
    requires Normal(targetDir) && j <= |ns| && CollectOf(ns[..j], targetDir, ws, clock).Err?
    ensures CollectOf(ns, targetDir, ws, clock) == CollectOf(ns[..j], targetDir, ws, clock)
    decreases |ns| - j
  {
    if j < |ns| {
      var f := ns[..j + 1];
      assert f[..j] == ns[..j];
      CollectErrStays(ns, j + 1, targetDir, ws, clock);
    } else {
      assert ns[..j] == ns;
    }
  }

  /** The per-node `run` calls, one after the other. */
  method CollectConfigs(ns: seq<Node>, targetDir: AbsPath, ws: Workspace, clock: nat -> string)
    returns (r: Result<(seq<EmissionConfig>, Workspace)>)
    requires Normal(targetDir)
    ensures r == CollectOf(ns, targetDir, ws, clock)
  {
    var confs: seq<EmissionConfig> := [];
    var w := ws;
    var i := 0;
    while i < |ns|
      invariant 0 <= i <= |ns|
      invariant CollectOf(ns[..i], targetDir, ws, clock) == Ok((confs, w))
    {
      assert ns[..i + 1][..i] == ns[..i] && ns[..i + 1][i] == ns[i];
      var o := NodeRun(ns[i], targetDir, w, clock(i));
      if o.Err? {
        CollectErrStays(ns, i + 1, targetDir, ws, clock);
        return Err(o.error);
      }
      confs := confs + Emissions(o.value.0);
      w := o.value.1;
      i := i + 1;
    }
    assert ns[..i] == ns;
    return Ok((confs, w));
  }

  /** A collection that succeeds has succeeded on every prefix, the last node included. */
  lemma CollectStep(ns: seq<Node>, targetDir: AbsPath, ws: Workspace, clock: nat -> string)
    requires Normal(targetDir) && |ns| > 0
    ensures CollectOf(ns, targetDir, ws, clock).Ok? ==>
      CollectOf(ns[..|ns| - 1], targetDir, ws, clock).Ok? && ns[|ns| - 1].conf.source.Some?
  {
  }

  /** Configs are collected only when every selected node has a source: a
      node without one aborts the run. */
  lemma {:induction false} CollectNeedsSources(ns: seq<Node>, targetDir: AbsPath, ws: Workspace, clock: nat -> string, i: nat)
    requires Normal(targetDir) && i < |ns| && CollectOf(ns, targetDir, ws, clock).Ok?
    ensures ns[i].conf.source.Some?
  {
    CollectStep(ns, targetDir, ws, clock);
    if i < |ns| - 1 {
      var front := ns[..|ns| - 1];
      CollectNeedsSources(front, targetDir, ws, clock, i);
      assert front[i] == ns[i];
    }
  }

  // ------------------------------------------------ language filter, partition

  /** `langPred`: no `languages`, none listed, or the config's tag is one of them. */
  predicate Wanted(c: EmissionConfig, languages: Option<seq<Language>>)
  {
    languages.None? || |languages.value| == 0 || exists i :: 0 <= i < |languages.value| && HasTag(c, languages.value[i])
  }

  /** `allConfs.filter(langPred)`. */
  function FilterLanguages(cs: seq<EmissionConfig>, languages: Option<seq<Language>>): (r: seq<EmissionConfig>)
    ensures |r| <= |cs|
    ensures forall c :: c in r <==> c in cs && Wanted(c, languages)
  {
    if |cs| == 0 then []
    else
      var front := cs[..|cs| - 1];
      var c := cs[|cs| - 1];
      assert cs == front + [c];
      FilterLanguages(front, languages) + (if Wanted(c, languages) then [c] else [])
  }

  /** No language restriction keeps every config in order. */
  lemma {:induction false} FilterKeepsAll(cs: seq<EmissionConfig>, languages: Option<seq<Language>>)
    requires languages.None? || |languages.value| == 0
    ensures FilterLanguages(cs, languages) == cs
  {
    if |cs| > 0 {
      FilterKeepsAll(cs[..|cs| - 1], languages);
      assert Wanted(cs[|cs| - 1], languages);
      assert cs == cs[..|cs| - 1] + [cs[|cs| - 1]];
    }
  }

  /** The Scala configs among `cs`, in order. */
  function ScalaParts(cs: seq<EmissionConfig>): seq<ScalaConfig>
  {
    if |cs| == 0 then []
    else ScalaParts(cs[..|cs| - 1]) + (if cs[|cs| - 1].ScalaEmission? then [cs[|cs| - 1].scala] else [])
  }

  /** The TypeScript configs among `cs`, in order. */
  function TsParts(cs: seq<EmissionConfig>): seq<TypescriptConfig>
  {
    if |cs| == 0 then []
    else TsParts(cs[..|cs| - 1]) + (if cs[|cs| - 1].TypescriptEmission? then [cs[|cs| - 1].typescript] else [])
  }

  /** The `confs` reduce: each config is appended to the batch of its tag. */
  method Partition(cs: seq<EmissionConfig>) returns (scala: seq<ScalaConfig>, typescript: seq<TypescriptConfig>)
    ensures scala == ScalaParts(cs) && typescript == TsParts(cs)
  {
    scala, typescript := [], [];
    var i := 0;
    while i < |cs|
      invariant 0 <= i <= |cs|
      invariant scala == ScalaParts(cs[..i]) && typescript == TsParts(cs[..i])
    {
      assert cs[..i + 1][..i] == cs[..i];
      match cs[i] {
        case TypescriptEmission(t) => typescript := typescript + [t];
        case ScalaEmission(c) => scala := scala + [c];
      }
      i := i + 1;
    }
    assert cs[..i] == cs;
  }

  /** Partitioning two runs of configs partitions each: the batches keep the config order. */
  lemma {:induction false} PartsAppend(a: seq<EmissionConfig>, b: seq<EmissionConfig>)
    ensures ScalaParts(a + b) == ScalaParts(a) + ScalaParts(b)
    ensures TsParts(a + b) == TsParts(a) + TsParts(b)
    decreases |b|
  {
    if |b| == 0 {
      assert a + b == a;
    } else {
      var b' := b[..|b| - 1];
      assert (a + b)[..|a + b| - 1] == a + b';
      assert (a + b)[|a + b| - 1] == b[|b| - 1];
      PartsAppend(a, b');
    }
  }

  /** Every config lands in exactly one batch, with its tag deciding which. */
  lemma {:induction false} PartsMembers(cs: seq<EmissionConfig>)
    ensures |ScalaParts(cs)| + |TsParts(cs)| == |cs|
    ensures forall c :: c in ScalaParts(cs) <==> ScalaEmission(c) in cs
    ensures forall t :: t in TsParts(cs) <==> TypescriptEmission(t) in cs
  {
    if |cs| > 0 {
      var front := cs[..|cs| - 1];
      PartsMembers(front);
      assert cs == front + [cs[|cs| - 1]];
    }
  }

  /** A node's Scala configs form its Scala batch and its TypeScript config the TypeScript one. */
  lemma EmissionsParts(o: NodeOut)
    ensures ScalaParts(Emissions(o)) == o.scala
    ensures TsParts(Emissions(o)) == (if o.typescript.Some? then [o.typescript.value] else [])
  {
    var ss := ScalaEmissions(o.scala);
    var ts: seq<EmissionConfig> := if o.typescript.Some? then [TypescriptEmission(o.typescript.value)] else [];
    PartsAppend(ss, ts);
    ScalaEmissionsParts(o.scala);
    assert ts == [] || ts == [] + [TypescriptEmission(o.typescript.value)];
  }

  lemma {:induction false} ScalaEmissionsParts(cs: seq<ScalaConfig>)
    ensures ScalaParts(ScalaEmissions(cs)) == cs && TsParts(ScalaEmissions(cs)) == []
  {
    if |cs| > 0 {
      var front := cs[..|cs| - 1];
      ScalaEmissionsParts(front);
      assert ScalaEmissions(cs)[..|cs| - 1] == ScalaEmissions(front);
    }
  }

  /** Restricting a run to TypeScript leaves no Scala config. */
  lemma {:induction false} TypescriptOnly(cs: seq<EmissionConfig>)
    ensures ScalaParts(FilterLanguages(cs, Some([TypescriptLanguage]))) == []
    ensures TsParts(FilterLanguages(cs, Some([TypescriptLanguage]))) == TsParts(cs)
  {
    if |cs| > 0 {
      var front := cs[..|cs| - 1];
      var c := cs[|cs| - 1];
      TypescriptOnly(front);
      var kept := if Wanted(c, Some([TypescriptLanguage])) then [c] else [];
      PartsAppend(FilterLanguages(front, Some([TypescriptLanguage])), kept);
      if c.TypescriptEmission? {
        assert HasTag(c, [TypescriptLanguage][0]);
      }
    }
  }

  // -------------------------------------------------------------------- run

  /** What a run leaves behind: the source snapshot (`.tmp/src`) for the next
      run, the already-built list of the build fold, the batch handed to each
      generator (None where it is not called) and the workspace with the
      snapshot files the node runs wrote. */
  datatype RunOut = RunOut(
    snapshot: Option<Entry>,
    built: seq<string>,
    scala: Option<seq<ScalaConfig>>,
    typescript: Option<seq<TypescriptConfig>>,
    ws: Workspace)

  /** A generator is only called for a non-empty batch. */
  function Batch<T>(xs: seq<T>): (r: Option<seq<T>>)
    ensures r.Some? <==> |xs| > 0
    ensures r.Some? ==> r.value == xs
  {
    if |xs| > 0 then Some(xs) else None
  }

  /** The batches a `gen` run hands to the generators, and the workspace
      after the node runs. */
  datatype Emitted = Emitted(scala: Option<seq<ScalaConfig>>, typescript: Option<seq<TypescriptConfig>>, ws: Workspace)

  /** The second half of a `gen` run: collect the configs of the selected
      nodes, keep the requested languages, partition them by tag. */
  function EmitOf(ns: seq<Node>, targetDir: AbsPath, languages: Option<seq<Language>>, ws: Workspace, clock: nat -> string): Result<Emitted>
    requires Normal(targetDir)
  {
    var collected := CollectOf(ns, targetDir, ws, clock);
    if collected.Err? then Err(collected.error)
    else
      var confs := FilterLanguages(collected.value.0, languages);
      Ok(Emitted(Batch(ScalaParts(confs)), Batch(TsParts(confs)), collected.value.1))
  }

  method Emit(ns: seq<Node>, targetDir: AbsPath, languages: Option<seq<Language>>, ws: Workspace, clock: nat -> string)
    returns (r: Result<Emitted>)
    requires Normal(targetDir)
    ensures r == EmitOf(ns, targetDir, languages, ws, clock)
  {
    var collected := CollectConfigs(ns, targetDir, ws, clock);
    if collected.Err? {
      return Err(collected.error);
    }
    var confs := FilterLanguages(collected.value.0, languages);
    var scala, typescript := Partition(confs);
    return Ok(Emitted(Batch(scala), Batch(typescript), collected.value.1));
  }

  /** Each generator gets a non-empty batch or is not called; a batch holds
      exactly the collected configs of its language that the filter keeps,
      and every node handed over has a source. */
  lemma EmitBatches(ns: seq<Node>, targetDir: AbsPath, languages: Option<seq<Language>>, ws: Workspace, clock: nat -> string)
    requires Normal(targetDir)
    ensures var r := EmitOf(ns, targetDir, languages, ws, clock);
      var collected := CollectOf(ns, targetDir, ws, clock);
      r.Ok? ==>
        && collected.Ok?
        && (forall i :: 0 <= i < |ns| ==> ns[i].conf.source.Some?)
        && (r.value.scala.Some? ==> |r.value.scala.value| > 0)
        && (r.value.typescript.Some? ==> |r.value.typescript.value| > 0)
        && (forall c :: c in ScalaParts(FilterLanguages(collected.value.0, languages)) <==>
              ScalaEmission(c) in collected.value.0 && Wanted(ScalaEmission(c), languages))
        && (forall t :: t in TsParts(FilterLanguages(collected.value.0, languages)) <==>
              TypescriptEmission(t) in collected.value.0 && Wanted(TypescriptEmission(t), languages))
        && (r.value.scala.Some? <==> |ScalaParts(FilterLanguages(collected.value.0, languages))| > 0)
        && (r.value.typescript.Some? <==> |TsParts(FilterLanguages(collected.value.0, languages))| > 0)
  {
    var collected := CollectOf(ns, targetDir, ws, clock);
    if collected.Ok? {
      forall i | 0 <= i < |ns| ensures ns[i].conf.source.Some? {
        CollectNeedsSources(ns, targetDir, ws, clock, i);
      }
      PartsMembers(FilterLanguages(collected.value.0, languages));
    }
  }

  /** `languages: ['typescript']` never calls the Scala generator. */
  lemma EmitTypescriptOnly(ns: seq<Node>, targetDir: AbsPath, ws: Workspace, clock: nat -> string)
    requires Normal(targetDir)
    ensures var r := EmitOf(ns, targetDir, Some([TypescriptLanguage]), ws, clock);
      r.Ok? ==> r.value.scala.None?
  {
    var collected := CollectOf(ns, targetDir, ws, clock);
    if collected.Ok? {
      TypescriptOnly(collected.value.0);
    }
  }

  /** What `run` assumes of its arguments: an absolute root, an acyclic
      `gens` whose nodes were built by the constructor. */
  predicate RunInputs(gens: Rec<Node>, root: AbsPath, rank: string -> nat)
  {
    Normal(root) && Ranked(gens, rank) && forall n :: n in Values(gens) ==> TreeNormal(n)
  }

  /** What the generator calls meet that the run does not compute: the
      paths that exist when `produceSbtCommand` checks them, how sbt exits
      and the files it leaves, and the error `Typescript.gen` rethrows, if any. */
  datatype Generators = Generators(present: set<string>, sbtExit: Option<int>,
                                   sbtFiles: map<AbsPath, string>, typescript: Option<Error>)

  /** How `await Scala.gen(...)` ends: a thrown `produceSbtCommand` rejects
      it, and a post-processing failure in the `exit` listener crashes the
      process with an uncaught exception, which the run reports as that
      error; `None` when it resolves. */
  function ScalaFailure(g: Result<ScalaGen.GenOut>): (r: Option<Error>)
    ensures r.None? <==> g.Ok? && g.value.failure.None?
    ensures g.Err? ==> r == Some(g.error)
  {
    if g.Err? then Some(g.error) else g.value.failure
  }

  /** The failure that stops the run before the snapshot swap: the Scala
      generator's, if its batch is handed over, else the TypeScript
      generator's, if its batch is; `None` when every awaited call resolves. */
  function GenFailure(e: Emitted, gen: Generators): (r: Option<Error>)
    ensures r.None? <==>
      && (e.scala.None? || ScalaFailure(ScalaGen.GenOf(e.scala.value, gen.present, gen.sbtExit, gen.sbtFiles)).None?)
      && (e.typescript.None? || gen.typescript.None?)
    ensures e.scala.None? && e.typescript.None? ==> r.None?
  {
    var s := if e.scala.Some? then ScalaFailure(ScalaGen.GenOf(e.scala.value, gen.present, gen.sbtExit, gen.sbtFiles)) else None;
    if s.Some? then s
    else if e.typescript.Some? then gen.typescript
    else None
  }

  /** `run({gens, root, force, mode, keys, languages})`. `current` is the
      tree `createSrc` copies to `.tmp/srcTemp`, `previous` the snapshot in
      `.tmp/src` if it exists, `ws` what the run reads, `gen` how the
      generator calls end. */
  function RunOf(gens: Rec<Node>, root: AbsPath, mode: Mode, force: bool, keys: Option<seq<string>>,
                 languages: Option<seq<Language>>, matches: (string, string) -> bool,
                 current: Entry, previous: Option<Entry>, ws: Workspace, clock: nat -> string,
                 gen: Generators, rank: string -> nat): Result<RunOut>
    requires RunInputs(gens, root, rank)
  {
    if mode == CleanMode then Ok(RunOut(None, [], None, None, ws))
    else
      var sel := Selection(gens, root, current, previous, force, keys, matches, rank);
      if sel.Err? then Err(sel.error)
      else
        assert AllTreeNormal(sel.value);
        RunSelected(sel.value, root, mode, languages, current, previous, ws, clock, gen)
  }

  /** The rest of a `build` or `gen` run once the nodes are selected. */
  function RunSelected(ns: seq<Node>, root: AbsPath, mode: Mode, languages: Option<seq<Language>>,
                       current: Entry, previous: Option<Entry>, ws: Workspace, clock: nat -> string,
                       gen: Generators): Result<RunOut>
    requires Normal(root) && AllTreeNormal(ns)
  {
    var built := BuildFoldOf(ns, ws);
    if built.Err? then Err(built.error)
    else if mode != GenMode then Ok(RunOut(previous, built.value, None, None, ws))
    else
      var e := EmitOf(ns, TmpDir(root, "target"), languages, ws, clock);
      if e.Err? then Err(e.error)
      else
        var failed := GenFailure(e.value, gen);
        if failed.Some? then Err(failed.value)
        else Ok(RunOut(Some(current), built.value, e.value.scala, e.value.typescript, e.value.ws))
  }

  method Run(gens: Rec<Node>, root: AbsPath, mode: Mode, force: bool, keys: Option<seq<string>>,
             languages: Option<seq<Language>>, matches: (string, string) -> bool,
             current: Entry, previous: Option<Entry>, ws: Workspace, clock: nat -> string,
             gen: Generators, rank: string -> nat) returns (r: Result<RunOut>)
    requires RunInputs(gens, root, rank)
    ensures r == RunOf(gens, root, mode, force, keys, languages, matches, current, previous, ws, clock, gen, rank)
  {
    if mode == CleanMode {
      return Ok(RunOut(None, [], None, None, ws));
    }
    var diffGens: seq<Node> := [];
    if previous.Some? {
      var dirs := DiffDirs(root, current, previous.value, TmpDir(root, "srcTemp"), TmpDir(root, "src"));
      if dirs.Err? {
        return Err(dirs.error);
      }
      diffGens := Values(AllChanged(gens, ByName(DiffDirGens(gens, dirs.value)), rank));
    }
    var filtered := Select(gens, force, diffGens, keys, matches);
    assert Selection(gens, root, current, previous, force, keys, matches, rank) == Ok(filtered);
    assert AllTreeNormal(filtered);
    r := BuildAndEmit(filtered, root, mode, languages, current, previous, ws, clock, gen);
  }

  /** The build fold, and in `gen` mode the collection, the hand-over of
      the batches and the snapshot swap, over the selected nodes. */
  method BuildAndEmit(ns: seq<Node>, root: AbsPath, mode: Mode, languages: Option<seq<Language>>,
                      current: Entry, previous: Option<Entry>, ws: Workspace, clock: nat -> string,
                      gen: Generators)
    returns (r: Result<RunOut>)
    requires Normal(root) && AllTreeNormal(ns)
    ensures r == RunSelected(ns, root, mode, languages, current, previous, ws, clock, gen)
  {
    var built := BuildAll(ns, ws);
    if built.Err? {
      return Err(built.error);
    }
    if mode != GenMode {
      return Ok(RunOut(previous, built.value, None, None, ws));
    }
    var e := Emit(ns, TmpDir(root, "target"), languages, ws, clock);
    if e.Err? {
      return Err(e.error);
    }
    var failed := GenFailure(e.value, gen);
    if failed.Some? {
      return Err(failed.value);
    }
    return Ok(RunOut(Some(current), built.value, e.value.scala, e.value.typescript, e.value.ws));
  }

  /** `clean` removes the snapshot and calls no generator. */
  lemma RunClean(gens: Rec<Node>, root: AbsPath, force: bool, keys: Option<seq<string>>,
                 languages: Option<seq<Language>>, matches: (string, string) -> bool,
                 current: Entry, previous: Option<Entry>, ws: Workspace, clock: nat -> string,
                 gen: Generators, rank: string -> nat)
    requires RunInputs(gens, root, rank)
    ensures var r := RunOf(gens, root, CleanMode, force, keys, languages, matches, current, previous, ws, clock, gen, rank);
      r.Ok? && r.value.snapshot.None? && r.value.scala.None? && r.value.typescript.None?
  {
  }

  /** With no previous snapshot and no `force`, nothing is selected: nothing
      is built, no generator is called, and a `gen` run still records the
      current tree as the snapshot. */
  lemma RunFirstTime(gens: Rec<Node>, root: AbsPath, mode: Mode, keys: Option<seq<string>>,
                     languages: Option<seq<Language>>, matches: (string, string) -> bool,
                     current: Entry, ws: Workspace, clock: nat -> string, gen: Generators, rank: string -> nat)
    requires RunInputs(gens, root, rank) && mode != CleanMode
    ensures RunOf(gens, root, mode, false, keys, languages, matches, current, None, ws, clock, gen, rank)
         == Ok(RunOut(if mode == BuildMode then None else Some(current), [], None, None, ws))
  {
    SelectNothingChanged(gens, keys, matches);
    assert Selection(gens, root, current, None, false, keys, matches, rank) == Ok([]);
    assert EmitOf([], TmpDir(root, "target"), languages, ws, clock) == Ok(Emitted(None, None, ws));
  }

  /** A `build` run over the selected nodes builds them in order and leaves
      the snapshot, the workspace and the generators alone; a `gen` run that
      succeeds has built them the same way, handed the generators the
      batches `EmitOf` describes, seen every generator call it awaited
      resolve, and made the current tree the snapshot. */
  lemma {:induction false} RunSelectedSpec(ns: seq<Node>, root: AbsPath, mode: Mode, languages: Option<seq<Language>>,
                                           current: Entry, previous: Option<Entry>, ws: Workspace, clock: nat -> string,
                                           gen: Generators)
    requires Normal(root) && AllTreeNormal(ns) && mode != CleanMode
    ensures var r := RunSelected(ns, root, mode, languages, current, previous, ws, clock, gen);
      r.Ok? ==>
        && r.value.built == BuiltNames(ns)
        && (mode == BuildMode ==>
              r.value.snapshot == previous && r.value.scala.None? && r.value.typescript.None? && r.value.ws == ws)
        && (mode == GenMode ==>
              && r.value.snapshot == Some(current)
              && EmitOf(ns, TmpDir(root, "target"), languages, ws, clock) == Ok(Emitted(r.value.scala, r.value.typescript, r.value.ws))
              && GenFailure(Emitted(r.value.scala, r.value.typescript, r.value.ws), gen).None?)
  {
    BuildFoldValue(ns, ws);
  }

  /** A `gen` run whose build and collection succeed fails with the error of
      the first generator call that does not resolve, and then keeps the old
      snapshot; when every call resolves, the current tree becomes the snapshot. */
  lemma GenRunSwaps(ns: seq<Node>, root: AbsPath, languages: Option<seq<Language>>,
                    current: Entry, previous: Option<Entry>, ws: Workspace, clock: nat -> string, gen: Generators)
    requires Normal(root) && AllTreeNormal(ns)
    requires BuildFoldOf(ns, ws).Ok? && EmitOf(ns, TmpDir(root, "target"), languages, ws, clock).Ok?
    ensures var r := RunSelected(ns, root, GenMode, languages, current, previous, ws, clock, gen);
      var failed := GenFailure(EmitOf(ns, TmpDir(root, "target"), languages, ws, clock).value, gen);
      && (failed.Some? ==> r == Err(failed.value))
      && (failed.None? ==> r.Ok? && r.value.snapshot == Some(current))
  {
  }

  /** Either mode, as seen from `run`. */
  lemma RunModes(gens: Rec<Node>, root: AbsPath, mode: Mode, force: bool, keys: Option<seq<string>>,
                 languages: Option<seq<Language>>, matches: (string, string) -> bool,
                 current: Entry, previous: Option<Entry>, ws: Workspace, clock: nat -> string,
                 gen: Generators, rank: string -> nat)
    requires RunInputs(gens, root, rank) && mode != CleanMode
    ensures var r := RunOf(gens, root, mode, force, keys, languages, matches, current, previous, ws, clock, gen, rank);
      var sel := Selection(gens, root, current, previous, force, keys, matches, rank);
      r.Ok? ==> sel.Ok? && AllTreeNormal(sel.value) && r == RunSelected(sel.value, root, mode, languages, current, previous, ws, clock, gen)
  {
  }

  /** `languages: ['typescript']` never calls the Scala generator. */
  lemma RunSelectedTypescriptOnly(ns: seq<Node>, root: AbsPath, mode: Mode, current: Entry, previous: Option<Entry>,
                                  ws: Workspace, clock: nat -> string, gen: Generators)
    requires Normal(root) && AllTreeNormal(ns)
    ensures var r := RunSelected(ns, root, mode, Some([TypescriptLanguage]), current, previous, ws, clock, gen);
      r.Ok? ==> r.value.scala.None?
  {
    EmitTypescriptOnly(ns, TmpDir(root, "target"), ws, clock);
  }
}
