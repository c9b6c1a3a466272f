/** How a node's emission configs are put together (lib/index.ts:233-414):
    `runScala` merges the Scala settings of the direct dependencies (schema
    mode) or of the whole closure (client mode), `runTypescript` merges
    scalars and fragments over the closure and filters the fragments by the
    schema, and the per-node `run` snapshots the schema and collects both. */
module Merge {
  import opened Wrappers
  import opened Strings
  import opened Records
  import opened Paths
  import opened Configs
  import opened Nodes

  // ---------------------------------------------------------------- Scala

  /** `gensConf`: the settings merged from the dependencies. */
  datatype Gens = Gens(mappings: Rec<string>, effect: Option<Arg>, imports: seq<string>)

  /** What the Scala merge reads of a dependency: the three fields of
      `conf.scala.calibanArgs` it merges, and `scalaTarget.out`. */
  datatype DepView = DepView(mappings: Rec<string>, effect: Option<Arg>, imports: seq<string>, scalaOut: Option<AbsPath>)

  function View(d: Node): DepView
  {
    DepView(MappingsOf(d.conf.calibanArgs), EffectOf(d.conf.calibanArgs), ImportsOf(d.conf.calibanArgs), d.scalaTarget)
  }

  function Views(ds: seq<Node>): (r: seq<DepView>)
    ensures |r| == |ds|
    ensures forall i :: 0 <= i < |ds| ==> r[i] == View(ds[i])
  {
    if |ds| == 0 then [] else Views(ds[..|ds| - 1]) + [View(ds[|ds| - 1])]
  }

  /** The dependencies `runScala` folds over: direct ones in schema mode, the closure in client mode. */
  function ScalaItems(n: Node, client: bool): seq<DepView>
  {
    Views(if client then Values(Closure(n)) else Values(n.dependencies))
  }

  /** The imports a dependency's output path contributes: only in schema mode
      and only when it has a Scala target. */
  function OutImports(d: DepView, client: bool): Result<seq<string>>
  {
    if !client && d.scalaOut.Some? then ImportsFromOut(d.scalaOut.value) else Ok([])
  }

  /** One step of the reduce over the dependencies. */
  function GensStep(g: Gens, d: DepView, client: bool): Result<Gens>
  {
    var out := OutImports(d, client);
    if out.Err? then Err(out.error)
    else
      Ok(Gens(
        Spread(g.mappings, d.mappings),
        if d.effect.Some? then d.effect else g.effect,
        StepImports(g.imports, out.value, d.imports, client)))
  }

  /** `mergeIterablesToSet(new Set(), p.imports, …)`: the client-mode reduce
      passes the dependency's own imports, the schema-mode one also the
      imports of its output package. */
  function StepImports(prev: seq<string>, out: seq<string>, own: seq<string>, client: bool): (r: seq<string>)
    ensures NoDup(r)
    ensures forall x :: x in r <==> x in prev || (!client && x in out) || x in own
  {
    var arrs := if client then [[], prev, own] else [[], prev, out, own];
    var r := MergeToSet(arrs);
    assert forall x :: x in r <==> x in prev || (!client && x in out) || x in own by {
      forall x ensures x in r <==> x in prev || (!client && x in out) || x in own {
        if x in prev { assert x in arrs[1]; }
        if x in own { assert x in arrs[|arrs| - 1]; }
        if !client && x in out { assert x in arrs[2]; }
      }
    }
    r
  }

  /** The reduce from `{ imports: new Set(), scalarMappings: {} }`; it stops
      at the first dependency whose output path has no package. */
  function FoldGens(items: seq<DepView>, client: bool): Result<Gens>
  {
    if |items| == 0 then Ok(Gens([], None, []))
    else
      var prev := FoldGens(items[..|items| - 1], client);
      if prev.Err? then prev else GensStep(prev.value, items[|items| - 1], client)
  }

  /** The effect type `runScala` writes: the node's own if defined, else the
      merged one only if it is truthy. */
  function ChosenEffect(own: Option<Args>, merged: Option<Arg>): (r: Option<Arg>)
    ensures EffectOf(own).Some? ==> r == EffectOf(own)
    ensures EffectOf(own).None? ==> r == if merged.Some? && Truthy(merged.value) then merged else None
  {
    if EffectOf(own).Some? then EffectOf(own)
    else if merged.Some? && Truthy(merged.value) then merged
    else None
  }

  /** The fields the object literal of `runScala` writes after spreading the node's own. */
  function Fields(client: bool, mappings: Rec<string>, effect: Option<Arg>, imports: seq<string>): Args
  {
    [("client", BoolArg(client)), ("scalarMappings", RecArg(mappings))]
    + (if effect.Some? then [("abstractEffectType", effect.value)] else [])
    + [("imports", SetArg(imports))]
  }

  /** `{...base, client, scalarMappings, ...(effect ? {abstractEffectType} : {}), imports}`. */
  function WithFields(base: Args, client: bool, mappings: Rec<string>, effect: Option<Arg>, imports: seq<string>): Args
  {
    Spread(base, Fields(client, mappings, effect, imports))
  }

  /** The keys the object literal writes, and what it writes under them. */
  lemma FieldsGet(client: bool, mappings: Rec<string>, effect: Option<Arg>, imports: seq<string>)
    ensures var f := Fields(client, mappings, effect, imports);
      && Get(f, "client") == Some(BoolArg(client))
      && Get(f, "scalarMappings") == Some(RecArg(mappings))
      && Get(f, "abstractEffectType") == effect
      && Get(f, "imports") == Some(SetArg(imports))
      && forall k :: k in Keys(f) ==> k == "client" || k == "scalarMappings" || k == "abstractEffectType" || k == "imports"
  {
    var f := Fields(client, mappings, effect, imports);
    var f2 := [("client", BoolArg(client)), ("scalarMappings", RecArg(mappings))];
    var f3 := f2 + (if effect.Some? then [("abstractEffectType", effect.value)] else []);
    assert f == f3 + [("imports", SetArg(imports))];
    assert f[..|f| - 1] == f3;
    assert f2[..1] == [("client", BoolArg(client))];
    if effect.Some? {
      assert f3[..2] == f2;
    } else {
      assert f3 == f2;
    }
  }

  lemma WithFieldsSet(base: Args, client: bool, mappings: Rec<string>, effect: Option<Arg>, imports: seq<string>)
    ensures var r := WithFields(base, client, mappings, effect, imports);
      && Get(r, "client") == Some(BoolArg(client))
      && Get(r, "scalarMappings") == Some(RecArg(mappings))
      && Get(r, "imports") == Some(SetArg(imports))
  {
    FieldsGet(client, mappings, effect, imports);
  }

  lemma WithFieldsEffect(base: Args, client: bool, mappings: Rec<string>, effect: Option<Arg>, imports: seq<string>)
    ensures Get(WithFields(base, client, mappings, effect, imports), "abstractEffectType") ==
      if effect.Some? then effect else Get(base, "abstractEffectType")
  {
    FieldsGet(client, mappings, effect, imports);
  }

  lemma WithFieldsOthers(base: Args, client: bool, mappings: Rec<string>, effect: Option<Arg>, imports: seq<string>)
    ensures forall k :: k != "client" && k != "scalarMappings" && k != "abstractEffectType" && k != "imports" ==>
      Get(WithFields(base, client, mappings, effect, imports), k) == Get(base, k)
  {
    FieldsGet(client, mappings, effect, imports);
  }

  /** The resulting `calibanArgs`: the node's own, then `client`, then the
      mappings with the merged ones winning, then the chosen effect type,
      then the merged imports followed by the node's own. */
  function ScalaArgs(own: Option<Args>, g: Gens, client: bool): Args
  {
    WithFields(if own.Some? then own.value else [], client, Spread(MappingsOf(own), g.mappings),
      ChosenEffect(own, g.effect), MergeToSet([g.imports, ImportsOf(own)]))
  }

  /** What `runScala(target, client, source, conf.scala)` returns. */
  function ScalaConfigOf(n: Node, out: AbsPath, client: bool, source: AbsPath): Result<ScalaConfig>
  {
    var g := FoldGens(ScalaItems(n, client), client);
    if g.Err? then Err(g.error)
    else Ok(ScalaConfig(source, out, Some(ScalaArgs(n.conf.calibanArgs, g.value, client))))
  }

  /** Once the fold has failed, folding further items keeps the failure. */
  lemma {:induction false} FoldGensErrKept(items: seq<DepView>, j: nat, client: bool)
    requires j <= |items| && FoldGens(items[..j], client).Err?
    ensures FoldGens(items, client) == FoldGens(items[..j], client)
    decreases |items| - j
  {
    if j < |items| {
      assert items[..j + 1][..j] == items[..j];
      FoldGensErrKept(items, j + 1, client);
    } else {
      assert items[..j] == items;
    }
  }

  lemma FoldGensNext(items: seq<DepView>, i: nat, client: bool)
    requires i < |items| && FoldGens(items[..i], client).Ok?
    ensures FoldGens(items[..i + 1], client) == GensStep(FoldGens(items[..i], client).value, items[i], client)
  {
    assert items[..i + 1][..i] == items[..i];
  }

  /** The reduce in `runScala`, reassigning `gensConf`, as a loop. */
  method FoldGensLoop(items: seq<DepView>, client: bool) returns (r: Result<Gens>)
    ensures r == FoldGens(items, client)
  {
    var gens := Gens([], None, []);
    var i := 0;
    while i < |items|
      invariant 0 <= i <= |items|
      invariant FoldGens(items[..i], client) == Ok(gens)
    {
      FoldGensNext(items, i, client);
      var step := GensStep(gens, items[i], client);
      if step.Err? {
        FoldGensErrKept(items, i + 1, client);
        return Err(step.error);
      }
      gens := step.value;
      i := i + 1;
    }
    assert items[..i] == items;
    r := Ok(gens);
  }

  /** `runScala`: the reduce, then the merged `calibanArgs`. */
  method RunScala(n: Node, out: AbsPath, client: bool, source: AbsPath) returns (r: Result<ScalaConfig>)
    ensures r == ScalaConfigOf(n, out, client, source)
  {
    var g := FoldGensLoop(ScalaItems(n, client), client);
    if g.Err? {
      return Err(g.error);
    }
    r := Ok(ScalaConfig(source, out, Some(ScalaArgs(n.conf.calibanArgs, g.value, client))));
  }

  /** The dependencies' `scalarMappings`, in fold order. */
  function MappingsSeq(items: seq<DepView>): (r: seq<Rec<string>>)
    ensures |r| == |items| && forall i :: 0 <= i < |items| ==> r[i] == items[i].mappings
  {
    seq(|items|, i requires 0 <= i < |items| => items[i].mappings)
  }

  /** The effect type of the last dependency that defines one. */
  function LastEffect(items: seq<DepView>): Option<Arg>
  {
    if |items| == 0 then None
    else if items[|items| - 1].effect.Some? then items[|items| - 1].effect
    else LastEffect(items[..|items| - 1])
  }

  lemma {:induction false} LastEffectSpec(items: seq<DepView>)
    ensures LastEffect(items).None? <==> forall i :: 0 <= i < |items| ==> items[i].effect.None?
    ensures LastEffect(items).Some? ==> exists i :: (0 <= i < |items| && items[i].effect == LastEffect(items)
      && forall j :: i < j < |items| ==> items[j].effect.None?)
  {
    if |items| > 0 {
      var front := items[..|items| - 1];
      LastEffectSpec(front);
      assert forall i :: 0 <= i < |front| ==> front[i] == items[i];
    }
  }

  /** What one dependency contributes to the merged imports. */
  function ItemImports(d: DepView, client: bool): seq<string>
  {
    var out := OutImports(d, client);
    (if out.Ok? then out.value else []) + d.imports
  }

  /** A dependency whose Scala output path makes `getImportsFromOut` throw. */
  predicate BadOut(d: DepView, client: bool)
  {
    !client && d.scalaOut.Some? && PackageOf(d.scalaOut.value).None?
  }

  /** Some dependency has such an output path. */
  predicate SomeBadOut(items: seq<DepView>, client: bool)
  {
    exists i :: 0 <= i < |items| && BadOut(items[i], client)
  }

  lemma FoldGensStepFails(items: seq<DepView>, client: bool)
    requires |items| > 0
    ensures FoldGens(items, client).Err? <==>
      FoldGens(items[..|items| - 1], client).Err? || BadOut(items[|items| - 1], client)
  {
  }

  /** The fold fails exactly in schema mode, on a dependency whose Scala
      output path does not fit the package pattern. */
  lemma {:induction false} FoldGensFails(items: seq<DepView>, client: bool)
    ensures FoldGens(items, client).Err? <==> SomeBadOut(items, client)
  {
    if |items| > 0 {
      FoldGensFails(items[..|items| - 1], client);
      FoldGensStepFails(items, client);
      SomeBadOutSnoc(items, client);
    }
  }

  lemma SomeBadOutSnoc(items: seq<DepView>, client: bool)
    requires |items| > 0
    ensures SomeBadOut(items, client) <==>
      SomeBadOut(items[..|items| - 1], client) || BadOut(items[|items| - 1], client)
  {
    var front := items[..|items| - 1];
    if SomeBadOut(items, client) {
      var i :| 0 <= i < |items| && BadOut(items[i], client);
      if i < |front| {
        assert front[i] == items[i];
      }
    }
    if SomeBadOut(front, client) {
      var i :| 0 <= i < |front| && BadOut(front[i], client);
      assert front[i] == items[i];
    }
  }

  /** The merged settings: for each mapping the last dependency defining it
      wins, the effect type is the last one defined, and the imports are
      every dependency's imports (and, in schema mode, the imports of every
      dependency's output package), each once. */
  lemma {:induction false} FoldGensMappings(items: seq<DepView>, client: bool)
    requires FoldGens(items, client).Ok?
    ensures forall k :: Get(FoldGens(items, client).value.mappings, k) == LastGet(MappingsSeq(items), k)
  {
    if |items| > 0 {
      var front := items[..|items| - 1];
      FoldGensMappings(front, client);
      assert FoldGens(items, client).value.mappings == Spread(FoldGens(front, client).value.mappings, items[|items| - 1].mappings);
      assert MappingsSeq(items)[..|items| - 1] == MappingsSeq(front);
    }
  }

  lemma {:induction false} FoldGensEffect(items: seq<DepView>, client: bool)
    requires FoldGens(items, client).Ok?
    ensures FoldGens(items, client).value.effect == LastEffect(items)
  {
    if |items| > 0 {
      FoldGensEffect(items[..|items| - 1], client);
    }
  }

  /** The imports one more dependency adds to the merged ones. */
  lemma FoldGensImportsStep(items: seq<DepView>, client: bool)
    requires |items| > 0 && FoldGens(items, client).Ok?
    ensures FoldGens(items[..|items| - 1], client).Ok?
    ensures var r := FoldGens(items, client).value.imports;
      && NoDup(r)
      && forall x :: x in r <==>
                       (x in FoldGens(items[..|items| - 1], client).value.imports
                        || x in ItemImports(items[|items| - 1], client))
  {
  }

  lemma {:induction false} FoldGensImports(items: seq<DepView>, client: bool)
    requires FoldGens(items, client).Ok?
    ensures NoDup(FoldGens(items, client).value.imports)
    ensures forall x :: x in FoldGens(items, client).value.imports <==>
      exists i :: 0 <= i < |items| && x in ItemImports(items[i], client)
  {
    if |items| > 0 {
      var front := items[..|items| - 1];
      FoldGensImportsStep(items, client);
      FoldGensImports(front, client);
      var g := FoldGens(front, client).value.imports;
      var r := FoldGens(items, client).value.imports;
      forall x | x in r ensures exists i :: 0 <= i < |items| && x in ItemImports(items[i], client) {
        if x in g {
          var i :| 0 <= i < |front| && x in ItemImports(front[i], client);
          assert front[i] == items[i];
        } else {
          assert x in ItemImports(items[|items| - 1], client);
        }
      }
      forall x, i | 0 <= i < |items| && x in ItemImports(items[i], client) ensures x in r {
        if i < |items| - 1 {
          assert x in ItemImports(front[i], client);
        }
      }
    }
  }

  /** What `runScala` puts into `calibanArgs`: the flag it was given, the
      mappings with the merged ones winning, the chosen effect type, the
      merged imports followed by the node's own, and every other field of the
      node's own `calibanArgs`. */
  lemma ScalaArgsFlag(own: Option<Args>, g: Gens, client: bool)
    ensures Get(ScalaArgs(own, g, client), "client") == Some(BoolArg(client))
  {
    var base := if own.Some? then own.value else [];
    WithFieldsSet(base, client, Spread(MappingsOf(own), g.mappings), ChosenEffect(own, g.effect),
      MergeToSet([g.imports, ImportsOf(own)]));
  }

  lemma ScalaArgsMappingsField(own: Option<Args>, g: Gens, client: bool)
    ensures MappingsOf(Some(ScalaArgs(own, g, client))) == Spread(MappingsOf(own), g.mappings)
  {
    var base := if own.Some? then own.value else [];
    WithFieldsSet(base, client, Spread(MappingsOf(own), g.mappings), ChosenEffect(own, g.effect),
      MergeToSet([g.imports, ImportsOf(own)]));
  }

  lemma ScalaArgsMappings(own: Option<Args>, g: Gens, client: bool)
    ensures forall k ::
              Get(MappingsOf(Some(ScalaArgs(own, g, client))), k) ==
              (if k in Keys(g.mappings) then Get(g.mappings, k) else Get(MappingsOf(own), k))
  {
    ScalaArgsMappingsField(own, g, client);
  }

  lemma ScalaArgsImportsField(own: Option<Args>, g: Gens, client: bool)
    ensures ImportsOf(Some(ScalaArgs(own, g, client))) == MergeToSet([g.imports, ImportsOf(own)])
  {
    var base := if own.Some? then own.value else [];
    WithFieldsSet(base, client, Spread(MappingsOf(own), g.mappings), ChosenEffect(own, g.effect),
      MergeToSet([g.imports, ImportsOf(own)]));
  }

  lemma ScalaArgsImports(own: Option<Args>, g: Gens, client: bool)
    ensures NoDup(ImportsOf(Some(ScalaArgs(own, g, client))))
    ensures forall x :: x in ImportsOf(Some(ScalaArgs(own, g, client))) <==> x in g.imports || x in ImportsOf(own)
  {
    ScalaArgsImportsField(own, g, client);
    MergeToSetTwo(g.imports, ImportsOf(own));
  }

  lemma ScalaArgsEffect(own: Option<Args>, g: Gens, client: bool)
    ensures EffectOf(Some(ScalaArgs(own, g, client))) == ChosenEffect(own, g.effect)
  {
    var base := if own.Some? then own.value else [];
    var e := ChosenEffect(own, g.effect);
    WithFieldsEffect(base, client, Spread(MappingsOf(own), g.mappings), e, MergeToSet([g.imports, ImportsOf(own)]));
    if e.None? {
      assert EffectOf(own).None?;
    }
  }

  lemma ScalaArgsOthers(own: Option<Args>, g: Gens, client: bool)
    ensures forall k :: k != "client" && k != "scalarMappings" && k != "abstractEffectType" && k != "imports" ==>
      Get(ScalaArgs(own, g, client), k) == Get(if own.Some? then own.value else [], k)
  {
    var base := if own.Some? then own.value else [];
    WithFieldsOthers(base, client, Spread(MappingsOf(own), g.mappings), ChosenEffect(own, g.effect),
      MergeToSet([g.imports, ImportsOf(own)]));
  }

  /** `runScala` end to end: the flag is the argument, a mapping of a
      dependency beats the node's own, the node's effect type beats the
      merged one, a merged `false` is dropped, and the imports are the
      merged ones together with the node's own. */
  lemma ScalaConfigSpec(n: Node, out: AbsPath, client: bool, source: AbsPath)
    requires ScalaConfigOf(n, out, client, source).Ok?
    ensures var c := ScalaConfigOf(n, out, client, source).value;
      var items := ScalaItems(n, client);
      var own := n.conf.calibanArgs;
      && c.source == source && c.out == out && c.calibanArgs.Some?
      && Get(c.calibanArgs.value, "client") == Some(BoolArg(client))
      && (forall k :: Get(MappingsOf(c.calibanArgs), k) ==
            if LastGet(MappingsSeq(items), k).Some? then LastGet(MappingsSeq(items), k) else Get(MappingsOf(own), k))
      && EffectOf(c.calibanArgs) ==
            (if EffectOf(own).Some? then EffectOf(own)
             else if LastEffect(items).Some? && Truthy(LastEffect(items).value) then LastEffect(items)
             else None)
      && (forall x :: x in ImportsOf(c.calibanArgs) <==>
            x in ImportsOf(own) || exists i :: 0 <= i < |items| && x in ItemImports(items[i], client))
  {
    var items := ScalaItems(n, client);
    var g := FoldGens(items, client).value;
    FoldGensMappings(items, client);
    FoldGensEffect(items, client);
    FoldGensImports(items, client);
    ScalaArgsFlag(n.conf.calibanArgs, g, client);
    ScalaArgsMappings(n.conf.calibanArgs, g, client);
    ScalaArgsEffect(n.conf.calibanArgs, g, client);
    ScalaArgsImports(n.conf.calibanArgs, g, client);
    forall k ensures k in Keys(g.mappings) <==> LastGet(MappingsSeq(items), k).Some? {
      assert Get(g.mappings, k) == LastGet(MappingsSeq(items), k);
    }
  }

  /** In client mode nothing is derived from output paths and the fold cannot fail. */
  lemma ClientModeNoOutImports(n: Node, out: AbsPath, source: AbsPath)
    ensures ScalaConfigOf(n, out, true, source).Ok?
    ensures forall d :: ItemImports(d, true) == d.imports
  {
    FoldGensFails(ScalaItems(n, true), true);
  }

  // ----------------------------------------------------------- TypeScript

  /** What the TypeScript merge reads of a dependency: `conf.typescript?.scalars`
      (spread, so absent is empty) and `conf.typescript?.fragments` (absent is `[]`). */
  datatype TsView = TsView(scalars: Rec<string>, fragments: seq<AbsPath>)

  function TsViewOf(d: Node): TsView
  {
    match d.conf.typescript
    case None => TsView([], [])
    case Some(t) => TsView(if t.scalars.Some? then t.scalars.value else [],
                           if t.fragments.Some? then t.fragments.value else [])
  }

  function TsViews(ds: seq<Node>): (r: seq<TsView>)
    ensures |r| == |ds|
    ensures forall i :: 0 <= i < |ds| ==> r[i] == TsViewOf(ds[i])
  {
    if |ds| == 0 then [] else TsViews(ds[..|ds| - 1]) + [TsViewOf(ds[|ds| - 1])]
  }

  function ScalarsSeq(items: seq<TsView>): (r: seq<Rec<string>>)
    ensures |r| == |items| && forall i :: 0 <= i < |items| ==> r[i] == items[i].scalars
  {
    seq(|items|, i requires 0 <= i < |items| => items[i].scalars)
  }

  /** The two fields of the config the reduce rewrites. */
  datatype TsAcc = TsAcc(scalars: Option<Rec<string>>, fragments: seq<AbsPath>)

  /** The reduce's seed: the node's own scalars, and the target's fragments
      followed by the node's own, as a Set. */
  function TsInit(n: Node, target: TsTarget<AbsPath>): TsAcc
  {
    match n.conf.typescript
    case None => TsAcc(None, MergeToSet([target.fragments]))
    case Some(t) => TsAcc(t.scalars, MergeToSet([target.fragments + if t.fragments.Some? then t.fragments.value else []]))
  }

  /** One step: the dependency's scalars spread over the merged ones, its fragments added to the Set. */
  function TsStep(p: TsAcc, d: TsView): TsAcc
  {
    TsAcc(Some(Spread(if p.scalars.Some? then p.scalars.value else [], d.scalars)),
          MergeToSet([p.fragments, d.fragments]))
  }

  function TsFold(init: TsAcc, items: seq<TsView>): TsAcc
  {
    if |items| == 0 then init else TsStep(TsFold(init, items[..|items| - 1]), items[|items| - 1])
  }

  /** The fragment filter: a fragment on a named type survives iff the schema has that type. */
  predicate KeepDefinition(d: Definition, types: set<string>)
  {
    d.FragmentDefinition? && d.typeCondition.NamedType? ==> d.typeCondition.value in types
  }

  function FilterDefinitions(defs: seq<Definition>, types: set<string>): (r: seq<Definition>)
    ensures forall x :: x in r <==> x in defs && KeepDefinition(x, types)
    ensures |r| <= |defs|
  {
    if |defs| == 0 then []
    else
      var rest := FilterDefinitions(defs[..|defs| - 1], types);
      var last := defs[|defs| - 1];
      assert defs == defs[..|defs| - 1] + [last];
      if KeepDefinition(last, types) then rest + [last] else rest
  }

  /** The definitions of the loaded documents, in order (`docs.flatMap`). */
  function Documents(paths: seq<AbsPath>, ws: Workspace): (r: seq<Definition>)
    requires forall i :: 0 <= i < |paths| ==> paths[i] in ws.documents
    ensures forall x :: x in r <==> exists i :: 0 <= i < |paths| && x in ws.documents[paths[i]]
  {
    if |paths| == 0 then []
    else
      var front := paths[..|paths| - 1];
      var r := Documents(front, ws) + ws.documents[paths[|paths| - 1]];
      assert forall x :: x in r <==> exists i :: 0 <= i < |paths| && x in ws.documents[paths[i]] by {
        forall x ensures x in r <==> exists i :: 0 <= i < |paths| && x in ws.documents[paths[i]] {
          if x in Documents(front, ws) {
            var i :| 0 <= i < |front| && x in ws.documents[front[i]];
            assert paths[i] == front[i];
          }
          if exists i :: 0 <= i < |paths| && x in ws.documents[paths[i]] {
            var i :| 0 <= i < |paths| && x in ws.documents[paths[i]];
            if i < |front| {
              assert paths[i] == front[i];
            }
          }
        }
      }
      r
  }

  /** Where a node's snapshots go: `<targetDir>/<basename(dirname(source))>/<file>`. */
  function SnapshotPath(targetDir: AbsPath, source: AbsPath, file: string): AbsPath
    requires Normal(targetDir)
  {
    JoinPath(JoinPath(targetDir, Basename(Dirname(source))), file)
  }

  /** `writeSchema`'s file, named after the node and the time `stamp`. */
  function SchemaSnapshot(targetDir: AbsPath, source: AbsPath, name: string, stamp: string): AbsPath
    requires Normal(targetDir)
  {
    SnapshotPath(targetDir, source, name + "_" + stamp + ".graphql")
  }

  /** `writeFragments`'s file. */
  function FragmentsSnapshot(targetDir: AbsPath, source: AbsPath, name: string, stamp: string): AbsPath
    requires Normal(targetDir)
  {
    SnapshotPath(targetDir, source, name + "_fragments_" + stamp + ".graphql")
  }

  /** What `runTypescript` returns, and the fragments file it writes (its
      path and the definitions printed into it), if any. */
  datatype TsOut = TsOut(config: TypescriptConfig, written: Option<(AbsPath, seq<Definition>)>)

  predicate AllLoaded(paths: seq<AbsPath>, ws: Workspace)
  {
    forall i :: 0 <= i < |paths| ==> paths[i] in ws.documents
  }

  /** `runTypescript(targetDir, target, source, conf.typescript)`, from the
      merged fields on: with no fragments the config is returned as merged;
      otherwise the fragments are loaded, filtered by the schema at `source`
      and replaced by the one file they are written to. */
  function TsFinish(n: Node, targetDir: AbsPath, target: TsTarget<AbsPath>, source: AbsPath,
                    ws: Workspace, stamp: string, acc: TsAcc): Result<TsOut>
    requires Normal(targetDir)
  {
    var conf := TypescriptConfig(source, target.out, acc.scalars, acc.fragments, MergeToSet([target.queries]));
    if |acc.fragments| == 0 then Ok(TsOut(conf, None))
    else if !AllLoaded(acc.fragments, ws) then Err(FragmentLoadFailed(Name(n), acc.fragments))
    else if source !in ws.schemas then Err(SchemaLoadFailed(source))
    else
      var defs := FilterDefinitions(Documents(acc.fragments, ws), ws.schemas[source]);
      var file := FragmentsSnapshot(targetDir, source, Name(n), stamp);
      Ok(TsOut(conf.(fragments := [file]), Some((file, defs))))
  }

  function TypescriptOf(n: Node, targetDir: AbsPath, target: TsTarget<AbsPath>, source: AbsPath,
                        ws: Workspace, stamp: string): Result<TsOut>
    requires Normal(targetDir)
  {
    TsFinish(n, targetDir, target, source, ws, stamp, TsFold(TsInit(n, target), TsViews(Values(Closure(n)))))
  }

  /** The reduce in `runTypescript`, as a loop. */
  method TsReduce(init: TsAcc, items: seq<TsView>) returns (acc: TsAcc)
    ensures acc == TsFold(init, items)
  {
    var scalars := init.scalars;
    var fragments := init.fragments;
    var i := 0;
    while i < |items|
      invariant 0 <= i <= |items|
      invariant TsFold(init, items[..i]) == TsAcc(scalars, fragments)
    {
      assert items[..i + 1][..i] == items[..i];
      scalars := Some(Spread(if scalars.Some? then scalars.value else [], items[i].scalars));
      fragments := MergeToSet([fragments, items[i].fragments]);
      i := i + 1;
    }
    assert items[..i] == items;
    acc := TsAcc(scalars, fragments);
  }

  /** `runTypescript`: a reduce over the closure, then `conf.fragments` overwritten in place. */
  method RunTypescript(n: Node, targetDir: AbsPath, target: TsTarget<AbsPath>, source: AbsPath,
                       ws: Workspace, stamp: string) returns (r: Result<TsOut>)
    requires Normal(targetDir)
    ensures r == TypescriptOf(n, targetDir, target, source, ws, stamp)
  {
    var acc := TsReduce(TsInit(n, target), TsViews(Values(Closure(n))));
    var scalars, fragments := acc.scalars, acc.fragments;
    var conf := TypescriptConfig(source, target.out, scalars, fragments, MergeToSet([target.queries]));
    if |fragments| == 0 {
      return Ok(TsOut(conf, None));
    }
    if !AllLoaded(fragments, ws) {
      return Err(FragmentLoadFailed(Name(n), fragments));
    }
    if source !in ws.schemas {
      return Err(SchemaLoadFailed(source));
    }
    var defs := FilterDefinitions(Documents(fragments, ws), ws.schemas[source]);
    var file := FragmentsSnapshot(targetDir, source, Name(n), stamp);
    conf := conf.(fragments := [file]);
    r := Ok(TsOut(conf, Some((file, defs))));
  }

  /** `x` is among some dependency's fragments. */
  predicate InSomeFragments(x: AbsPath, items: seq<TsView>)
  {
    exists i :: 0 <= i < |items| && x in items[i].fragments
  }

  /** The merged fragments: the seed's and every dependency's, each once. */
  lemma {:induction false} TsFoldFragments(init: TsAcc, items: seq<TsView>)
    requires NoDup(init.fragments)
    ensures NoDup(TsFold(init, items).fragments)
    ensures forall x :: x in TsFold(init, items).fragments <==> x in init.fragments || InSomeFragments(x, items)
  {
    if |items| > 0 {
      TsFoldFragments(init, items[..|items| - 1]);
      TsFragmentsStep(init, items);
    }
  }

  /** One step of TsFoldFragments: one more dependency. */
  lemma TsFragmentsStep(init: TsAcc, items: seq<TsView>)
    requires |items| > 0
    requires forall x :: x in TsFold(init, items[..|items| - 1]).fragments <==>
      x in init.fragments || InSomeFragments(x, items[..|items| - 1])
    ensures forall x :: x in TsFold(init, items).fragments <==> x in init.fragments || InSomeFragments(x, items)
  {
    var front := items[..|items| - 1];
    var d := items[|items| - 1];
    var g := TsFold(init, front).fragments;
    assert items[..|items| - 1] == front;
    assert TsFold(init, items).fragments == MergeToSet([g, d.fragments]);
    MergeToSetTwo(g, d.fragments);
    forall x ensures x in TsFold(init, items).fragments <==> x in init.fragments || InSomeFragments(x, items) {
      InSomeSnoc(x, items);
      assert x in g <==> x in init.fragments || InSomeFragments(x, front);
    }
  }

  lemma InSomeSnoc(x: AbsPath, items: seq<TsView>)
    requires |items| > 0
    ensures InSomeFragments(x, items) <==>
      InSomeFragments(x, items[..|items| - 1]) || x in items[|items| - 1].fragments
  {
    var front := items[..|items| - 1];
    if InSomeFragments(x, items) {
      var i :| 0 <= i < |items| && x in items[i].fragments;
      if i < |front| {
        assert front[i] == items[i];
      }
    }
    if InSomeFragments(x, front) {
      var i :| 0 <= i < |front| && x in front[i].fragments;
      assert front[i] == items[i];
    }
  }

  /** The merged scalars: after at least one dependency they are always
      defined, and each scalar is the last dependency's that defines it, or
      else the node's own. */
  lemma {:induction false} TsFoldScalars(init: TsAcc, items: seq<TsView>)
    ensures |items| == 0 ==> TsFold(init, items).scalars == init.scalars
    ensures |items| > 0 ==> TsFold(init, items).scalars.Some?
    ensures |items| > 0 ==> forall k ::
              Get(TsFold(init, items).scalars.value, k) ==
              (if LastGet(ScalarsSeq(items), k).Some? then LastGet(ScalarsSeq(items), k)
               else if init.scalars.Some? then Get(init.scalars.value, k) else None)
  {
    if |items| > 0 {
      var front := items[..|items| - 1];
      TsFoldScalars(init, front);
      assert ScalarsSeq(items)[..|items| - 1] == ScalarsSeq(front);
    }
  }

  /** The seed's fragments are the target's and the node's own. */
  lemma TsInitFragments(n: Node, target: TsTarget<AbsPath>)
    ensures NoDup(TsInit(n, target).fragments)
    ensures forall x :: x in TsInit(n, target).fragments <==>
      x in target.fragments ||
      (n.conf.typescript.Some? && n.conf.typescript.value.fragments.Some? && x in n.conf.typescript.value.fragments.value)
  {
    var ts := target.fragments;
    if n.conf.typescript.Some? {
      var own := if n.conf.typescript.value.fragments.Some? then n.conf.typescript.value.fragments.value else [];
      forall x ensures x in TsInit(n, target).fragments <==> x in ts || x in own {
        var arrs := [ts + own];
        if x in ts || x in own { assert x in arrs[0]; }
      }
    } else {
      forall x ensures x in TsInit(n, target).fragments <==> x in ts {
        var arrs := [ts];
        if x in ts { assert x in arrs[0]; }
      }
    }
  }

  /** The end of `runTypescript`: the queries are the target's; with no
      merged fragments the config keeps them (none); otherwise the load
      fails iff a fragment file is unreadable or the schema is, and on
      success the config names exactly the one written file, which holds the
      loaded definitions that pass the filter. */
  lemma TsFinishSpec(n: Node, targetDir: AbsPath, target: TsTarget<AbsPath>, source: AbsPath,
                     ws: Workspace, stamp: string, acc: TsAcc)
    requires Normal(targetDir)
    ensures var r := TsFinish(n, targetDir, target, source, ws, stamp, acc);
      && (r.Err? <==> |acc.fragments| > 0 && (!AllLoaded(acc.fragments, ws) || source !in ws.schemas))
      && (r.Ok? ==> r.value.config.source == source && r.value.config.out == target.out
                    && r.value.config.scalars == acc.scalars
                    && forall x :: x in r.value.config.queries <==> x in target.queries)
      && (r.Ok? && |acc.fragments| == 0 ==> r.value.config.fragments == [] && r.value.written.None?)
      && (r.Ok? && |acc.fragments| > 0 ==>
            var file := FragmentsSnapshot(targetDir, source, Name(n), stamp);
            && r.value.config.fragments == [file]
            && r.value.written.Some? && r.value.written.value.0 == file
            && forall d :: d in r.value.written.value.1 <==>
                 (KeepDefinition(d, ws.schemas[source])
                  && exists i :: 0 <= i < |acc.fragments| && d in ws.documents[acc.fragments[i]]))
  {
    var qs := target.queries;
    forall x ensures x in MergeToSet([qs]) <==> x in qs {
      var arrs := [qs];
      if x in qs { assert x in arrs[0]; }
    }
  }

  // ---------------------------------------------------------- Node.run

  /** What a node's `run(targetDir)` resolves to. */
  datatype NodeOut = NodeOut(newSource: AbsPath, scala: seq<ScalaConfig>, typescript: Option<TypescriptConfig>)

  /** The `scala` array: the schema-mode config on the original source, then
      the client-mode config on the snapshot, each only for a declared target. */
  function ScalaConfigsOf(n: Node, source: AbsPath, newSource: AbsPath): Result<seq<ScalaConfig>>
  {
    var schema := if n.scalaTarget.Some? then ScalaConfigOf(n, n.scalaTarget.value, false, source) else Ok(ScalaConfig([], [], None));
    var client := if n.scalaClientTarget.Some? then ScalaConfigOf(n, n.scalaClientTarget.value, true, newSource) else Ok(ScalaConfig([], [], None));
    var none: seq<ScalaConfig> := [];
    if schema.Err? then Err(schema.error)
    else
      var withSchema := if n.scalaTarget.Some? then none + [schema.value] else none;
      if client.Err? then Err(client.error)
      else Ok(if n.scalaClientTarget.Some? then withSchema + [client.value] else withSchema)
  }

  /** The `scala` array as the per-node `run` builds it: one push per target. */
  method ScalaConfigs(n: Node, source: AbsPath, newSource: AbsPath) returns (r: Result<seq<ScalaConfig>>)
    ensures r == ScalaConfigsOf(n, source, newSource)
  {
    var scala: seq<ScalaConfig> := [];
    if n.scalaTarget.Some? {
      var c := RunScala(n, n.scalaTarget.value, false, source);
      if c.Err? {
        return Err(c.error);
      }
      scala := scala + [c.value];
    }
    if n.scalaClientTarget.Some? {
      var c := RunScala(n, n.scalaClientTarget.value, true, newSource);
      if c.Err? {
        return Err(c.error);
      }
      scala := scala + [c.value];
    }
    r := Ok(scala);
  }

  /** One Scala config per Scala target, the schema-mode one first, on the
      original source with `client` false, the client-mode one on the
      snapshot with `client` true. */
  lemma ScalaConfigsCount(n: Node, source: AbsPath, newSource: AbsPath)
    requires ScalaConfigsOf(n, source, newSource).Ok?
    ensures |ScalaConfigsOf(n, source, newSource).value| ==
      (if n.scalaTarget.Some? then 1 else 0) + (if n.scalaClientTarget.Some? then 1 else 0)
  {
  }

  lemma ScalaConfigsSchema(n: Node, source: AbsPath, newSource: AbsPath)
    requires ScalaConfigsOf(n, source, newSource).Ok? && n.scalaTarget.Some?
    ensures var c := ScalaConfigsOf(n, source, newSource).value[0];
      && c == ScalaConfigOf(n, n.scalaTarget.value, false, source).value
      && c.source == source && c.out == n.scalaTarget.value && c.calibanArgs.Some?
      && Get(c.calibanArgs.value, "client") == Some(BoolArg(false))
  {
    ScalaArgsFlag(n.conf.calibanArgs, FoldGens(ScalaItems(n, false), false).value, false);
  }

  lemma ScalaConfigsClient(n: Node, source: AbsPath, newSource: AbsPath)
    requires ScalaConfigsOf(n, source, newSource).Ok? && n.scalaClientTarget.Some?
    ensures var cs := ScalaConfigsOf(n, source, newSource).value;
      && |cs| > 0
      && cs[|cs| - 1] == ScalaConfigOf(n, n.scalaClientTarget.value, true, newSource).value
      && cs[|cs| - 1].source == newSource && cs[|cs| - 1].out == n.scalaClientTarget.value
      && cs[|cs| - 1].calibanArgs.Some?
      && Get(cs[|cs| - 1].calibanArgs.value, "client") == Some(BoolArg(true))
  {
    var client := ScalaConfigOf(n, n.scalaClientTarget.value, true, newSource);
    var cs := ScalaConfigsOf(n, source, newSource).value;
    var none: seq<ScalaConfig> := [];
    var w := if n.scalaTarget.Some? then none + [ScalaConfigOf(n, n.scalaTarget.value, false, source).value] else none;
    assert cs == w + [client.value];
    assert cs[|cs| - 1] == client.value;
    ScalaArgsFlag(n.conf.calibanArgs, FoldGens(ScalaItems(n, true), true).value, true);
  }

  /** The TypeScript part of `run`: the config, if a target is declared, and
      the workspace with the fragments file written. */
  function TsPartOf(n: Node, targetDir: AbsPath, ws: Workspace, newSource: AbsPath, stamp: string): Result<(Option<TypescriptConfig>, Workspace)>
    requires Normal(targetDir)
  {
    if n.typescriptTarget.None? then Ok((None, ws))
    else
      var ts := TypescriptOf(n, targetDir, n.typescriptTarget.value, newSource, ws, stamp);
      if ts.Err? then Err(ts.error)
      else if ts.value.written.Some? then
        Ok((Some(ts.value.config), ws.(documents := ws.documents[ts.value.written.value.0 := ts.value.written.value.1])))
      else Ok((Some(ts.value.config), ws))
  }

  lemma TsPartSpec(n: Node, targetDir: AbsPath, ws: Workspace, newSource: AbsPath, stamp: string)
    requires Normal(targetDir) && TsPartOf(n, targetDir, ws, newSource, stamp).Ok?
    ensures var (t, ws') := TsPartOf(n, targetDir, ws, newSource, stamp).value;
      && ws'.files == ws.files && ws'.schemas == ws.schemas
      && (t.Some? <==> n.typescriptTarget.Some?)
      && (t.Some? ==> t.value.source == newSource && t.value.out == n.typescriptTarget.value.out)
  {
    if n.typescriptTarget.Some? {
      var tt := n.typescriptTarget.value;
      TsFinishSpec(n, targetDir, tt, newSource, ws, stamp, TsFold(TsInit(n, tt), TsViews(Values(Closure(n)))));
    }
  }

  /** `run(targetDir)` on one node with the clock reading `stamp`: the
      schema is loaded and snapshotted under `targetDir`, then the Scala
      configs and the TypeScript config are derived from it. The result
      carries the workspace with the files written. */
  function NodeRunOf(n: Node, targetDir: AbsPath, ws: Workspace, stamp: string): (r: Result<(NodeOut, Workspace)>)
    requires Normal(targetDir)
    ensures n.conf.source.None? ==> r == Err(NoSource(Name(n)))
    ensures n.conf.source.Some? && n.conf.source.value !in ws.schemas ==> r == Err(SchemaLoadFailed(n.conf.source.value))
  {
    if n.conf.source.None? then Err(NoSource(Name(n)))
    else
      var source := n.conf.source.value;
      if source !in ws.schemas then Err(SchemaLoadFailed(source))
      else
        var newSource := SchemaSnapshot(targetDir, source, Name(n), stamp);
        var ws1 := ws.(schemas := ws.schemas[newSource := ws.schemas[source]]);
        var scala := ScalaConfigsOf(n, source, newSource);
        if scala.Err? then Err(scala.error)
        else
          var ts := TsPartOf(n, targetDir, ws1, newSource, stamp);
          if ts.Err? then Err(ts.error)
          else Ok((NodeOut(newSource, scala.value, ts.value.0), ts.value.1))
  }

  /** `run(targetDir)`: snapshots the schema, pushes the Scala configs, then runs the TypeScript merge. */
  method NodeRun(n: Node, targetDir: AbsPath, ws: Workspace, stamp: string) returns (r: Result<(NodeOut, Workspace)>)
    requires Normal(targetDir)
    ensures r == NodeRunOf(n, targetDir, ws, stamp)
  {
    if n.conf.source.None? {
      return Err(NoSource(Name(n)));
    }
    var source := n.conf.source.value;
    if source !in ws.schemas {
      return Err(SchemaLoadFailed(source));
    }
    var newSource := SchemaSnapshot(targetDir, source, Name(n), stamp);
    var ws1 := ws.(schemas := ws.schemas[newSource := ws.schemas[source]]);
    var scala := ScalaConfigs(n, source, newSource);
    if scala.Err? {
      return Err(scala.error);
    }
    var typescript: Option<TypescriptConfig> := None;
    var ws2 := ws1;
    if n.typescriptTarget.Some? {
      var ts := RunTypescript(n, targetDir, n.typescriptTarget.value, newSource, ws1, stamp);
      if ts.Err? {
        return Err(ts.error);
      }
      typescript := Some(ts.value.config);
      if ts.value.written.Some? {
        ws2 := ws1.(documents := ws1.documents[ts.value.written.value.0 := ts.value.written.value.1]);
      }
    }
    r := Ok((NodeOut(newSource, scala.value, typescript), ws2));
  }

  /** A successful node run: the snapshot, named after the node and the
      clock, holds the loaded schema, and nothing else changes but the
      fragments file; the Scala configs are those of `ScalaConfigsSpec` and
      the TypeScript config those of `TsPartSpec`. */
  lemma NodeRunSpec(n: Node, targetDir: AbsPath, ws: Workspace, stamp: string)
    requires Normal(targetDir) && NodeRunOf(n, targetDir, ws, stamp).Ok?
    ensures n.conf.source.Some? && n.conf.source.value in ws.schemas
    ensures var (o, ws') := NodeRunOf(n, targetDir, ws, stamp).value;
      var source := n.conf.source.value;
      && o.newSource == SchemaSnapshot(targetDir, source, Name(n), stamp)
      && ws'.files == ws.files
      && ws'.schemas == ws.schemas[o.newSource := ws.schemas[source]]
      && ScalaConfigsOf(n, source, o.newSource) == Ok(o.scala)
      && TsPartOf(n, targetDir, ws.(schemas := ws'.schemas), o.newSource, stamp) == Ok((o.typescript, ws'))
  {
    var source := n.conf.source.value;
    var newSource := SchemaSnapshot(targetDir, source, Name(n), stamp);
    var ws1 := ws.(schemas := ws.schemas[newSource := ws.schemas[source]]);
    TsPartSpec(n, targetDir, ws1, newSource, stamp);
  }
}
