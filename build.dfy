/** `Generate.build` of lib/index.ts: checks a node's fragments and imports,
    builds the dependencies it has not been told to skip, then loads its schema. */
module Build {
  import opened Wrappers
  import opened Records
  import opened Paths
  import opened Configs
  import opened Nodes
  import opened Imports

  /** Every node of the tree has resolved paths, as the constructor leaves them. */
  predicate TreeNormal(n: Node)
    decreases n
  {
    && PathsNormal(n)
    && forall i :: 0 <= i < |n.dependencies| ==>
         (assert n.dependencies[i] in n.dependencies; TreeNormal(n.dependencies[i].1))
  }

  /** What `build` resolves to. `visited` lists, in order, the nodes on which
      `build` was called (the `Building …` log lines). */
  datatype BuildOut = BuildOut(schema: Option<set<string>>, depsBuilt: seq<string>, visited: seq<string>)

  /** A dependency that `build` recurses into: not excluded, not the node
      itself by name, and with a source. */
  predicate ShouldBuild(n: Node, d: Node, exclude: seq<string>)
  {
    Name(d) !in exclude && Name(d) != Name(n) && d.conf.source.Some?
  }

  /** `loadDocumentsSync(conf.typescript.fragments)` when fragments are declared. */
  function LoadFragments(n: Node, ws: Workspace): (r: Result<()>)
    ensures r.Ok? <==> (n.conf.typescript.None? || n.conf.typescript.value.fragments.None?
      || forall i :: 0 <= i < |n.conf.typescript.value.fragments.value| ==>
           n.conf.typescript.value.fragments.value[i] in ws.documents)
  {
    if n.conf.typescript.Some? && n.conf.typescript.value.fragments.Some? then
      var fs := n.conf.typescript.value.fragments.value;
      if forall i :: 0 <= i < |fs| ==> fs[i] in ws.documents then Ok(())
      else Err(FragmentLoadFailed(Name(n), fs))
    else Ok(())
  }

  /** `n.build(exclude)`: the first failure among the checks and the
      dependency builds aborts the whole build. */
  function Build(n: Node, exclude: seq<string>, ws: Workspace): (r: Result<BuildOut>)
    requires TreeNormal(n)
    ensures n.conf.source.None? ==> r == Ok(BuildOut(None, [], [Name(n)]))
    ensures r.Ok? && n.conf.source.Some? ==>
      && LoadFragments(n, ws).Ok?
      && AssertImports(n, ws, n.conf.source.value).Ok?
      && n.conf.source.value in ws.schemas
      && r.value.schema == Some(ws.schemas[n.conf.source.value])
      && r.value.depsBuilt == DepNames(n)
    ensures r.Ok? ==> |r.value.visited| >= 1 && r.value.visited[0] == Name(n)
    decreases n, 1
  {
    if n.conf.source.None? then Ok(BuildOut(None, [], [Name(n)]))
    else
      var source := n.conf.source.value;
      var frags := LoadFragments(n, ws);
      if frags.Err? then Err(frags.error)
      else
        var imports := AssertImports(n, ws, source);
        if imports.Err? then Err(imports.error)
        else
          var deps := BuildDeps(n, 0, exclude, ws);
          if deps.Err? then Err(deps.error)
          else if source !in ws.schemas then Err(SchemaLoadFailed(source))
          else Ok(BuildOut(Some(ws.schemas[source]), DepNames(n), [Name(n)] + deps.value))
  }

  /** The builds of the direct dependencies from index `i` on that `exclude`
      lets through, each told to skip `exclude` and all sibling names; their
      visited lists in order. */
  function BuildDeps(n: Node, i: nat, exclude: seq<string>, ws: Workspace): (r: Result<seq<string>>)
    requires TreeNormal(n) && i <= |n.dependencies|
    decreases n, 0, |n.dependencies| - i
  {
    if i == |n.dependencies| then Ok([])
    else
      assert n.dependencies[i] in n.dependencies;
      var d := n.dependencies[i].1;
      var first := if ShouldBuild(n, d, exclude) then Build(d, exclude + DepNames(n), ws) else Ok(BuildOut(None, [], []));
      if first.Err? then Err(first.error)
      else
        var rest := BuildDeps(n, i + 1, exclude, ws);
        if rest.Err? then rest else Ok(first.value.visited + rest.value)
  }

  /** The dependency at index `j` either is skipped or builds. */
  predicate ChildBuilds(n: Node, j: nat, exclude: seq<string>, ws: Workspace)
    requires TreeNormal(n) && j < |n.dependencies|
  {
    assert n.dependencies[j] in n.dependencies;
    ShouldBuild(n, n.dependencies[j].1, exclude) ==> Build(n.dependencies[j].1, exclude + DepNames(n), ws).Ok?
  }

  /** Every dependency from index `i` on is skipped or builds. */
  predicate ChildrenBuild(n: Node, i: nat, exclude: seq<string>, ws: Workspace)
    requires TreeNormal(n)
  {
    forall j :: i <= j < |n.dependencies| ==> ChildBuilds(n, j, exclude, ws)
  }

  /** Reference for what the dependency builds visit: the visited lists of
      the dependencies from index `i` on that are not skipped, in order. */
  function ChildVisits(n: Node, i: nat, exclude: seq<string>, ws: Workspace): seq<string>
    requires TreeNormal(n) && i <= |n.dependencies|
    decreases |n.dependencies| - i
  {
    if i == |n.dependencies| then []
    else
      assert n.dependencies[i] in n.dependencies;
      var d := n.dependencies[i].1;
      var c := Build(d, exclude + DepNames(n), ws);
      (if ShouldBuild(n, d, exclude) && c.Ok? then c.value.visited else []) + ChildVisits(n, i + 1, exclude, ws)
  }

  /** The dependency builds succeed exactly when every dependency that is
      not skipped builds, and then they visit what `ChildVisits` lists. */
  lemma {:induction false} BuildDepsSpec(n: Node, i: nat, exclude: seq<string>, ws: Workspace)
    requires TreeNormal(n) && i <= |n.dependencies|
    ensures BuildDeps(n, i, exclude, ws).Ok? <==> ChildrenBuild(n, i, exclude, ws)
    ensures BuildDeps(n, i, exclude, ws).Ok? ==> BuildDeps(n, i, exclude, ws).value == ChildVisits(n, i, exclude, ws)
    decreases |n.dependencies| - i
  {
    if i < |n.dependencies| {
      BuildDepsSpec(n, i + 1, exclude, ws);
      assert ChildrenBuild(n, i, exclude, ws) <==> ChildBuilds(n, i, exclude, ws) && ChildrenBuild(n, i + 1, exclude, ws) by {
        if ChildBuilds(n, i, exclude, ws) && ChildrenBuild(n, i + 1, exclude, ws) {
          forall j | i <= j < |n.dependencies| ensures ChildBuilds(n, j, exclude, ws) {
            if j > i { assert i + 1 <= j; }
          }
        }
      }
    }
  }

  /** A node with a source builds exactly when its fragments load, its
      imports check, every dependency that is not skipped builds and its
      schema loads. */
  lemma BuildSucceeds(n: Node, exclude: seq<string>, ws: Workspace)
    requires TreeNormal(n) && n.conf.source.Some?
    ensures Build(n, exclude, ws).Ok? <==>
      && LoadFragments(n, ws).Ok?
      && AssertImports(n, ws, n.conf.source.value).Ok?
      && ChildrenBuild(n, 0, exclude, ws)
      && n.conf.source.value in ws.schemas
  {
    BuildDepsSpec(n, 0, exclude, ws);
  }

  /** A successful build visits the node, then in order what each dependency
      that is not skipped visits. */
  lemma BuildVisited(n: Node, exclude: seq<string>, ws: Workspace)
    requires TreeNormal(n) && n.conf.source.Some? && Build(n, exclude, ws).Ok?
    ensures Build(n, exclude, ws).value.visited == [Name(n)] + ChildVisits(n, 0, exclude, ws)
  {
    BuildDepsSpec(n, 0, exclude, ws);
  }

  /** With its fragments loadable, a node whose import check fails fails to
      build with that same error, before any dependency is built. */
  lemma BuildRejectsImports(n: Node, exclude: seq<string>, ws: Workspace)
    requires TreeNormal(n) && n.conf.source.Some? && LoadFragments(n, ws).Ok?
    requires AssertImports(n, ws, n.conf.source.value).Err?
    ensures Build(n, exclude, ws) == Err(AssertImports(n, ws, n.conf.source.value).error)
  {
  }

  /** A failing build of a dependency that is not skipped fails the whole build. */
  lemma {:induction false} BuildDepsFail(n: Node, i: nat, exclude: seq<string>, ws: Workspace, j: nat)
    requires TreeNormal(n) && i <= j < |n.dependencies|
    requires ShouldBuild(n, n.dependencies[j].1, exclude)
    requires (assert n.dependencies[j] in n.dependencies; Build(n.dependencies[j].1, exclude + DepNames(n), ws).Err?)
    ensures BuildDeps(n, i, exclude, ws).Err?
    decreases |n.dependencies| - i
  {
    if i < j {
      BuildDepsFail(n, i + 1, exclude, ws, j);
    }
  }

  lemma BuildFailsWithDependency(n: Node, exclude: seq<string>, ws: Workspace, j: nat)
    requires TreeNormal(n) && n.conf.source.Some? && j < |n.dependencies|
    requires ShouldBuild(n, n.dependencies[j].1, exclude)
    requires (assert n.dependencies[j] in n.dependencies; Build(n.dependencies[j].1, exclude + DepNames(n), ws).Err?)
    ensures Build(n, exclude, ws).Err?
  {
    BuildDepsFail(n, 0, exclude, ws, j);
  }

  /** Every dependency that is not skipped is built, told to skip the
      exclude list and all its siblings, and what it visits is visited. */
  lemma {:induction false} BuildDepsChild(n: Node, i: nat, exclude: seq<string>, ws: Workspace, j: nat)
    requires TreeNormal(n) && i <= j < |n.dependencies|
    requires BuildDeps(n, i, exclude, ws).Ok?
    requires ShouldBuild(n, n.dependencies[j].1, exclude)
    ensures assert n.dependencies[j] in n.dependencies;
      var c := Build(n.dependencies[j].1, exclude + DepNames(n), ws);
      c.Ok? && forall x :: x in c.value.visited ==> x in BuildDeps(n, i, exclude, ws).value
    decreases |n.dependencies| - i
  {
    if i < j {
      BuildDepsChild(n, i + 1, exclude, ws, j);
    }
  }

  lemma BuildsEveryDependency(n: Node, exclude: seq<string>, ws: Workspace, j: nat)
    requires TreeNormal(n) && n.conf.source.Some? && Build(n, exclude, ws).Ok? && j < |n.dependencies|
    requires ShouldBuild(n, n.dependencies[j].1, exclude)
    ensures assert n.dependencies[j] in n.dependencies;
      var c := Build(n.dependencies[j].1, exclude + DepNames(n), ws);
      c.Ok? && forall x :: x in c.value.visited ==> x in Build(n, exclude, ws).value.visited
  {
    BuildDepsChild(n, 0, exclude, ws, j);
  }

  /** When every dependency is skipped, only the node itself is built. */
  lemma {:induction false} BuildDepsNone(n: Node, i: nat, exclude: seq<string>, ws: Workspace)
    requires TreeNormal(n) && i <= |n.dependencies|
    requires forall j :: i <= j < |n.dependencies| ==> !ShouldBuild(n, n.dependencies[j].1, exclude)
    ensures BuildDeps(n, i, exclude, ws) == Ok([])
    decreases |n.dependencies| - i
  {
    if i < |n.dependencies| {
      assert n.dependencies[i] in n.dependencies;
      BuildDepsNone(n, i + 1, exclude, ws);
      var none: seq<string> := [];
      assert BuildDeps(n, i, exclude, ws) == Ok(none + none);
      assert none + none == none;
    }
  }

  lemma BuildOnlySelf(n: Node, exclude: seq<string>, ws: Workspace)
    requires TreeNormal(n) && Build(n, exclude, ws).Ok?
    requires forall j :: 0 <= j < |n.dependencies| ==> !ShouldBuild(n, n.dependencies[j].1, exclude)
    ensures Build(n, exclude, ws).value.visited == [Name(n)]
  {
    if n.conf.source.Some? {
      BuildDepsNone(n, 0, exclude, ws);
    }
  }

  /** `build` only ever visits the node and nodes reachable from it. */
  lemma {:induction false} BuildVisitsReachable(n: Node, exclude: seq<string>, ws: Workspace)
    requires TreeNormal(n) && Build(n, exclude, ws).Ok?
    ensures forall x :: x in Build(n, exclude, ws).value.visited ==>
      x == Name(n) || exists d :: d in Descendants(n) && Name(d) == x
    decreases n, 1
  {
    if n.conf.source.Some? {
      BuildDepsReachable(n, 0, exclude, ws);
    }
  }

  lemma {:induction false} BuildDepsReachable(n: Node, i: nat, exclude: seq<string>, ws: Workspace)
    requires TreeNormal(n) && i <= |n.dependencies| && BuildDeps(n, i, exclude, ws).Ok?
    ensures forall x :: x in BuildDeps(n, i, exclude, ws).value ==>
      exists d :: d in DescendantsFrom(n, i) && Name(d) == x
    decreases n, 0, |n.dependencies| - i
  {
    if i < |n.dependencies| {
      assert n.dependencies[i] in n.dependencies;
      var d := n.dependencies[i].1;
      assert DescendantsFrom(n, i) == {d} + Descendants(d) + DescendantsFrom(n, i + 1);
      BuildDepsReachable(n, i + 1, exclude, ws);
      if ShouldBuild(n, d, exclude) {
        BuildVisitsReachable(d, exclude + DepNames(n), ws);
      }
    }
  }
}
