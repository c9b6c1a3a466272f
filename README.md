# A model of the GraphQL code-generation orchestrator

The repository describes GraphQL schemas as a graph of `Generate` nodes.
Each node has a name, an optional schema `source`, and optional Scala,
Scala-client and TypeScript targets. It also holds a map of the nodes it
depends on.

A `run` does four things:

- It finds which nodes changed since the previous run by diffing a fresh
  copy of the sources against the snapshot the last run left.
- It adds everything that depends on a changed node.
- It builds the selected nodes in order: it checks their `#import` lines
  against their declared dependencies and builds the dependencies.
- In `gen` mode it collects one Scala config per Scala target and one
  TypeScript config per TypeScript target. It filters them by language,
  partitions them by tag and hands each batch to its generator.

The Scala generator turns each config into a `calibanGen…` sbt command,
with the missing `packageName` and `scalafmtPath` filled in. It runs all
commands in one sbt call. When sbt exits with code 0, it post-processes
each generated file:

- In schema mode it appends a `given` Schema/ArgBuilder pair for every
  declared type except `Query` and `Mutation`, qualified by the enclosing
  objects.
- In client mode it only adds the header.

## How the model is organised

The model is written on values: datatypes, functions, lemmas, and methods
with loops.

| file | module | models |
|---|---|---|
| `wrappers.dfy` | `Wrappers` | `Option` and `Result`, the errors the core throws, and `MapAll`, which is `Array.map` with a function that can throw |
| `strings.dfy` | `Strings` | `split`, `join`, `indexOf`, string `replace` and the regex `.` class |
| `records.dfy` | `Records` | JavaScript objects as ordered key/value sequences, object spread, and `Set` as a duplicate-free sequence in insertion order |
| `paths.dfy` | `Paths` | `path.resolve` and `path.dirname` on segment lists, and the output-path regex of `getImportsFromOut` |
| `configs.dfy` | `Configs` | `Config`, `ScalaConfig`, `TypescriptConfig`, `calibanArgs` values, and the workspace the core reads |
| `nodes.dfy` | `Nodes` | the `Generate` class, its composition methods, `generate` and `recurseDependencies` |
| `imports.dfy` | `Imports` | `assertImports` and its `#import` regex |
| `build.dfy` | `Build` | `build` |
| `merge.dfy` | `Merge` | the per-node `run`, `runScala` and `runTypescript` |
| `diff.dfy` | `Diff` | `getDiffDirs` |
| `changes.dfy` | `Changes` | `getAllChanged` |
| `runner.dfy` | `Runner` | the top-level `run`: selection, the build fold, the configs fold, the language filter and the partition |
| `scala_gen.dfy` | `ScalaGen` | `parseCalibanArgs`, `produceSbtCommand`, `postProcess` and `gen` |
| `scala_scenario.dfy` | `ScalaScenario` | the schema-mode scanner run over a small generated file |

### Nodes

A `Generate` instance is never mutated after construction. So it is the
datatype `Nodes.Node` and not a class.

The constructor takes the caller's directory as the parameter `dir`. This
stands for `callsites()`.

### Loops that change local state

These source constructs become methods whose contracts tie them to a
specification function:

- the reduces that reassign an accumulator
- the `push`es into the `scala` array
- the in-place `calibanArgs` and `conf.fragments` updates
- the `forEach` over the commands
- the sequential promise folds

| method | specification function |
|---|---|
| `Merge.FoldGensLoop` | `FoldGens` |
| `Merge.TsReduce` | `TsFold` |
| `Merge.ScalaConfigs` | `ScalaConfigsOf` |
| `Merge.NodeRun` | `NodeRunOf` |
| `Runner.BuildAll` | `BuildFoldOf` |
| `Runner.CollectConfigs` | `CollectOf` |
| `Runner.Partition` | `ScalaParts` and `TsParts` |
| `Runner.Run` | `RunOf` |
| `ScalaGen.ParseCalibanArgs` | `ParseOf` |
| `ScalaGen.Scan` | `ScanOf` |
| `ScalaGen.ProduceAll` | `CommandsOf` |
| `ScalaGen.PostProcessAll` | `PostAllOf` |
| `ScalaGen.Gen` | `GenOf` |

The lemmas then state what the source promises about those functions.

### Effects

- **The file system.** It is a `Workspace`: file texts, loadable schemas
  (as their type-name sets) and loadable documents (as their definitions).
  For the diff it is a tree of `Diff.Entry` values.
- **Missing files.** A missing file is an `Err` result.
- **Written files.** Snapshot files the core writes become updates of the
  workspace maps.
- **The clock.** `new Date().getTime()` is a `stamp` or `clock` parameter.
- **File existence.** `existsSync` for `.scalafmt.conf` is a `present` set.
- **The sbt exit code.** It is an `exit` parameter.
- **Generator outcomes.** A run takes a `Runner.Generators` value: the
  `present` set and the sbt exit code and output files for the Scala
  generator, and the error, if any, that the TypeScript generator
  rethrows. The run applies `ScalaGen.GenOf` to its Scala batch.
- **Key matching.** The regex test `k.match(k_)` used for key matching is a
  `matches` parameter.
- **Dependency order.** `getAllChanged` recurses over the dependents of a
  node. It terminates because the graph is acyclic. The model takes a
  `rank` function under which every dependent ranks below what it depends
  on (`Ranked`).

### Behaviour of the code worth knowing

- **Fragments are loaded before the import check.** `build` loads the
  TypeScript fragments before it checks the imports
  (lib/index.ts:192-198), not after.
- **The common node is never built.** A dependency without a `source` is
  not built at all (lib/index.ts:204).
- **A failed sbt run still counts as a success.** `gen` resolves even when
  sbt exits with a non-zero code (lib/scala/gen.ts:172-174). `run` then goes
  on and promotes the new snapshot. Only a thrown `produceSbtCommand`, a post-processing
  failure or a TypeScript generator error stop the run before the swap
  (lib/index.ts:597-601, `Runner.GenRunSwaps`).
- **Merged dependency mappings beat the node's own.** The node's
  `scalarMappings` are spread first and the merged dependency mappings
  after them (lib/index.ts:402-405, `Merge.ScalaArgsMappings`).
- **The last dependency's effect type wins.** The fold over the
  dependencies replaces `abstractEffectType` with every defined one it
  meets (lib/index.ts:378-381, `Merge.FoldGensEffect`).
- **The first matching key decides.** `keys.find` returns the first key
  that matches, and an empty key is falsy, so a first match on `""`
  selects nothing even if a later key matches (lib/index.ts:504,
  `Runner.KeyMatchesEmptyFirst`).
- **`!diffGens` never holds.** `diffGens` starts as `[]`, so the test is
  always false (lib/index.ts:462, lib/index.ts:503). Without a previous
  snapshot and without `force`, nothing is selected (`Runner.RunFirstTime`).
- **A `build` run leaves the snapshot alone.** It returns before the
  snapshot swap (lib/index.ts:528).
- **Duplicate names are not rejected.** Two nodes with the same name
  overwrite each other in the objects keyed by name
  (`Nodes.ByNameLastWins`). Nothing reports them.

## Model

| member | source | states |
|---|---|---|
| Wrappers.MapAllSpec | lib/scala/gen.ts:145 | A map with a throwing function succeeds iff every element succeeds. It then has one result per element, in order. Otherwise it fails with the error of an element before which all succeed. |
| Strings.Split | lib/scala/gen.ts:66 | `split` gives at least one part, and no part holds the separator. |
| Strings.JoinSplit | lib/scala/gen.ts:139 | Splitting at `\n` and joining with `\n` gives the text back. |
| Strings.SplitJoin | lib/scala/gen.ts:70-72 | Joining parts free of the separator and splitting again gives the parts back. |
| Strings.SplitConcat | lib/scala/gen.ts:66 | Splitting at a separator placed between two texts splits each text separately. |
| Strings.ReplaceChar | lib/scala/gen.ts:14 | `.replace(/\//g, '.')` replaces every occurrence of the character and nothing else. |
| Strings.IndexOf | lib/index.ts:628 | Gives the first position at or after `from` where the pattern occurs, or none when it occurs nowhere there. |
| Strings.ReplaceFirst | lib/index.ts:628 | String-pattern `replace` replaces only the first occurrence. Without an occurrence the text is unchanged. |
| Records.Get | lib/index.ts:165 | Object lookup finds nothing iff the key is absent, and a value found is stored under that key. |
| Records.Put | lib/index.ts:137 | `{...r, [k]: v}` maps `k` to `v` and leaves other keys alone. An existing key keeps its position; a new key goes last. Unique keys stay unique. |
| Records.Spread | lib/index.ts:352-353 | `{...a, ...b}` takes each key's value from `b` when `b` has the key, else from `a`. It has the keys of both. |
| Records.AddAll | lib/index.ts:426 | `new Set([...s, ...xs])` keeps `s` as a prefix, has the members of both, and stays duplicate-free. |
| Records.AddAllFresh | lib/index.ts:426 | Adding members that are all new appends them unchanged and in order. |
| Records.MergeToSet | lib/index.ts:424-428 | `mergeIterablesToSet` is duplicate-free and holds exactly the members of its arguments. |
| Records.MergeToSetTwo | lib/index.ts:411 | With two arguments it holds exactly the members of both. |
| Paths.Normalize | lib/index.ts:75-77 | `path.resolve` of segments against a directory gives a normal absolute path. |
| Paths.NormalizeNormal | lib/index.ts:75-77 | Segments that are already normal are appended unchanged. |
| Paths.Dirname | lib/index.ts:165 | `path.dirname` of a normal path is normal. |
| Paths.ResolveRender | lib/index.ts:104-139 | Resolving the printed form of a resolved path, from any directory, gives the path back. |
| Paths.LastMarker | lib/index.ts:418 | Finds the last `scala*`/`app*`/`play*` segment below a bound, or none. |
| Paths.PackageOfAt | lib/index.ts:418-419 | The package is the segments after the last marker with two segments after it, joined by dots. |
| Paths.PackageOfLayout | lib/index.ts:416-420 | On `…/scala/p1/…/pn/F.scala` the package is `p1.….pn`. |
| Paths.ImportsFromOut | lib/index.ts:416-421 | Gives `<pkg>.Types.*` and `<pkg>.given` iff the path fits the pattern. It fails with the pattern error otherwise. |
| Nodes.ResolveAll | lib/index.ts:98-99 | Each path is resolved against the directory, in order. |
| Nodes.ResolveRenderAll | lib/index.ts:94-101 | Resolving already-resolved target paths again changes none of them. |
| Nodes.New | lib/index.ts:63-102 | The constructor resolves every path against the caller's directory and keeps the name, `calibanArgs` and dependencies. An empty or missing source stays missing. |
| Nodes.Generate | lib/index.ts:430 | `generate(conf)` is a node with no target and no dependency. |
| Nodes.RebuildSame | lib/index.ts:104-139 | Re-resolving the paths of a constructed node changes none of them. |
| Nodes.CompositionChangesOneField | lib/index.ts:104-139 | `scala`, `scalaClient`, `typescript` and `extends` each change only their own field and the root directory. |
| Nodes.ByName | lib/index.ts:137 | The dependency map has unique keys. Each entry is keyed by its node's name, its keys are exactly the names given, and its values come from the arguments. |
| Nodes.ByNameLastWins | lib/index.ts:137 | For a repeated name the last node given wins. |
| Nodes.ClosureSpec | lib/index.ts:141-151 | `recurseDependencies` holds every reachable dependency's name once, under a reachable node of that name. |
| Nodes.ClosureExact | lib/index.ts:141-151 | With unique names it holds exactly the reachable dependencies, so a shared node appears once. |
| Nodes.DepNames | lib/index.ts:199 | Definition: the names of the direct dependencies, in order. What depends on it is proved in `Runner.BuildStep` and `Runner.BuildFoldValue`. |
| Imports.MatchAt | lib/index.ts:156 | A capture of `#\s?import .* from "(.+)"` is non-empty and has no line terminator. |
| Imports.ImportOf | lib/index.ts:156 | The match is the one at the leftmost `#` where a match can start. With no match, no `#` starts one. |
| Imports.ImportOfCanonical | lib/index.ts:156 | `# import … from "<path>"` captures exactly `<path>`. |
| Imports.NoHashNoImport | lib/index.ts:156 | A line without `#` imports nothing. |
| Imports.LineImports | lib/index.ts:155-161 | The imports are exactly the captures of the lines. |
| Imports.FirstMissing | lib/index.ts:163-172 | Finds nothing iff every import resolves to a direct dependency's source. Otherwise finds the first import that does not. |
| Imports.AssertImports | lib/index.ts:153-173 | Fails with a missing file iff the source is unreadable. Otherwise succeeds iff every import resolves, against the file's directory, to a dependency's source. A missing dependency names the node and the first import, in file order, that resolves to no dependency. |
| Build.LoadFragments | lib/index.ts:192-196 | Succeeds iff no fragments are declared or every fragment file loads. |
| Build.Build | lib/index.ts:186-212 | A node without a source builds to nothing. Success elsewhere means the fragments loaded, the imports checked and the schema loaded, and it reports the direct dependency names. |
| Build.BuildRejectsImports | lib/index.ts:198 | A failing import check fails the build with that error. |
| Build.BuildFailsWithDependency | lib/index.ts:200-208 | A failing build of a dependency that is not skipped fails the whole build. |
| Build.BuildsEveryDependency | lib/index.ts:200-208 | A build that succeeds has built each dependency that is not skipped, told to skip the exclude list and all its siblings. |
| Build.BuildOnlySelf | lib/index.ts:201-207 | With every dependency skipped, only the node itself is built. |
| Build.BuildDepsSpec | lib/index.ts:200-208 | The dependency builds succeed iff every dependency that is not skipped builds, and then they visit what `ChildVisits` lists. |
| Build.BuildSucceeds | lib/index.ts:186-212 | A node with a source builds iff its fragments load, its imports check, every dependency that is not skipped builds and its schema loads. |
| Build.BuildVisited | lib/index.ts:186-212 | A successful build visits the node, then in order what each dependency that is not skipped visits. |
| Build.BuildVisitsReachable | lib/index.ts:186-212 | A build visits only the node and nodes reachable from it. |
| Diff.Lookup | lib/index.ts:635-638 | `existsSync` of `path.join(dir, f)` finds an entry iff the tree is a directory listing `f`; the entry found is listed under `f` and is strictly smaller. A file or an absent name gives none. |
| Diff.DiffDirs | lib/index.ts:625-629 | `getDiffDirs` reports no directory twice. |
| Diff.ReplaceIn | lib/index.ts:628 | Definition: replaces the first occurrence of the saved location in each report. What depends on it is proved in `Diff.DiffDirsMembers` and `Diff.RemovedEntryReported`. |
| Diff.DiffDirsSame | lib/index.ts:625-648 | A tree compared with itself reports nothing. |
| Diff.DiffDirsMembers | lib/index.ts:625-629 | A successful diff holds exactly the first pass's reports and the rewritten reports of the flipped pass. |
| Diff.NestedReported | lib/index.ts:639-641 | A directory present on both sides contributes everything its own diff reports. |
| Diff.ChangedFileReported | lib/index.ts:643-645 | A file on both sides with different contents reports its directory. |
| Diff.AddedEntryReported | lib/index.ts:646 | An entry only in the current tree is reported: a directory as itself, a file as its directory. |
| Diff.RemovedEntryReported | lib/index.ts:627-628 | An entry only in the saved tree is reported by the flipped pass, rewritten to the current location. |
| Diff.DiffDirsSwap | lib/index.ts:625-629 | Swapping the trees fails alike. When no location leaks into the other pass's reports, it gives the same set. |
| Changes.Directs | lib/index.ts:474 | The nodes depending on `k` are exactly those whose dependency map has key `k`. |
| Changes.UpwardClosed | lib/index.ts:463-490 | The reference set of names reachable upward from `k` holds `k` and is closed under dependents. |
| Changes.UpwardLeast | lib/index.ts:463-490 | It lies inside every dependents-closed set that holds `k`. |
| Changes.ContributionKeys | lib/index.ts:478-484 | What one direct dependent contributes is exactly the names reachable upward from it. |
| Changes.AllChangedKeys | lib/index.ts:463-490 | `getAllChanged` holds a name iff it is reachable upward from a changed name. |
| Changes.AllChangedEntries | lib/index.ts:463-490 | Its keys are unique, and each entry is keyed by its node's name. |
| Changes.AllChangedClosed | lib/index.ts:463-490 | It holds every changed name and is closed under dependents. |
| Changes.AllChangedLeast | lib/index.ts:463-490 | It lies inside every dependents-closed set holding the changed names. |
| Merge.StepImports | lib/index.ts:382-387 | One step of the imports merge is duplicate-free. It holds the previous imports, the dependency's own, and in schema mode its output package's imports. |
| Merge.ChosenEffect | lib/index.ts:406-410 | Definition: the node's own effect type wins, otherwise the merged one is kept only when it is truthy. What depends on it is proved in `Merge.ScalaArgsEffect` and `Merge.FoldGensEffect`. |
| Merge.FieldsGet | lib/index.ts:399-412 | The object literal writes `client`, `scalarMappings`, `abstractEffectType` and `imports`, each with its value, and nothing else. |
| Merge.WithFieldsOthers | lib/index.ts:400 | Every other field of the node's `calibanArgs` is kept. |
| Merge.FoldGensLoop | lib/index.ts:369-391 | The reduce that reassigns `gensConf` computes `FoldGens`. |
| Merge.FoldGensFails | lib/index.ts:385 | The fold fails iff, in schema mode, some dependency's Scala output path misses the package pattern. |
| Merge.FoldGensMappings | lib/index.ts:374-377 | For each scalar mapping, the last dependency defining it wins. |
| Merge.FoldGensEffect | lib/index.ts:378-381 | The effect type is the last one a dependency defines. |
| Merge.FoldGensImports | lib/index.ts:382-387 | The imports are duplicate-free and are exactly the dependencies' imports, plus in schema mode their output packages' imports. |
| Merge.ScalaArgsFlag | lib/index.ts:401 | `client` is the flag given. |
| Merge.ScalaArgsMappings | lib/index.ts:402-405 | A merged mapping beats the node's own. |
| Merge.ScalaArgsEffect | lib/index.ts:406-410 | The effect type written is the chosen one. |
| Merge.ScalaArgsImports | lib/index.ts:411 | The imports are duplicate-free and are exactly the merged ones and the node's own. |
| Merge.ScalaArgsOthers | lib/index.ts:400 | Every other field of the node's `calibanArgs` is kept. |
| Merge.RunScala | lib/index.ts:333-414 | `runScala` as a method computes `ScalaConfigOf`. |
| Merge.ScalaConfigSpec | lib/index.ts:333-414 | Covers `runScala` end to end: the source, the output, the flag, the mappings, the effect type and the imports. |
| Merge.ClientModeNoOutImports | lib/index.ts:345-367 | In client mode the fold cannot fail, and nothing is derived from output paths. |
| Merge.FilterDefinitions | lib/index.ts:311-317 | Keeps exactly the definitions that are no fragment on a named type, or whose type is in the schema. |
| Merge.Documents | lib/index.ts:307-312 | Holds exactly the definitions of the loaded documents. |
| Merge.TsReduce | lib/index.ts:283-303 | The reduce in `runTypescript` computes `TsFold`. |
| Merge.TsFoldFragments | lib/index.ts:289-292 | The merged fragments are duplicate-free and are exactly the seed's and every dependency's. |
| Merge.TsFoldScalars | lib/index.ts:288 | After a dependency, the scalars are defined. Each scalar is the last dependency's that defines it, else the node's own. |
| Merge.TsInitFragments | lib/index.ts:297 | The seed's fragments are exactly the target's and the node's own. |
| Merge.TsFinishSpec | lib/index.ts:305-330 | The fragment load fails iff fragments exist and a fragment file or the schema is unreadable. On success the config names the one written file, which holds exactly the kept definitions. |
| Merge.RunTypescript | lib/index.ts:275-331 | `runTypescript` as a method computes `TypescriptOf`. |
| Merge.ScalaConfigs | lib/index.ts:248-256 | The pushes into the `scala` array compute `ScalaConfigsOf`. |
| Merge.ScalaConfigsCount | lib/index.ts:248-256 | There is one config per Scala target. |
| Merge.ScalaConfigsSchema | lib/index.ts:250-252 | The schema-target config comes first, on the original source, with `client` false. |
| Merge.ScalaConfigsClient | lib/index.ts:254-256 | The client-target config comes last, on the snapshot, with `client` true. |
| Merge.TsPartSpec | lib/index.ts:258-266 | A TypeScript config exists iff the node has a TypeScript target. It uses the snapshot and the target's output. |
| Merge.NodeRunOf | lib/index.ts:233-246 | A node without a source fails with `NoSource`. An unloadable schema fails with `SchemaLoadFailed`. |
| Merge.NodeRun | lib/index.ts:233-273 | The per-node `run` as a method computes `NodeRunOf`. |
| Merge.NodeRunSpec | lib/index.ts:233-273 | The snapshot is named after the node and the clock and holds the loaded schema. The configs are those of the targets. |
| Runner.TmpDir | lib/index.ts:449-451 | `path.join(root, '.tmp', name)`. |
| Runner.DiffDirGens | lib/index.ts:494 | Keeps exactly the nodes whose root directory the diff reports. |
| Runner.FirstMatch | lib/index.ts:504 | `keys.find` finds a key that matches, and no key before it matches; it finds nothing only when no key matches. |
| Runner.KeyMatchesFirst | lib/index.ts:504 | A key list matches iff some key matches, no earlier key matches, and that key is not empty. |
| Runner.KeyMatchesEmptyFirst | lib/index.ts:504 | An empty key that is the first to match hides every later matching key. |
| Runner.Select | lib/index.ts:502-506 | `filteredGens` holds exactly the nodes whose key is changed, or forced, and matched. |
| Runner.SelectAppend | lib/index.ts:502-506 | Selection keeps the order of `gens`. |
| Runner.SelectAll | lib/index.ts:503-504 | `force` without `keys` selects every node, in order. |
| Runner.SelectNothingChanged | lib/index.ts:503 | Without `force` and with nothing changed, nothing is selected. |
| Runner.SelectNoKeys | lib/index.ts:504 | An empty `keys` array selects nothing. |
| Runner.KeyChangedValues | lib/index.ts:503 | In an object keyed by name, a key is changed iff it is one of the object's keys. |
| Runner.PropagatedNames | lib/index.ts:492-503 | Without `force`, a key counts as changed iff it is in `getAllChanged` of the reported nodes. That holds the reported nodes themselves. |
| Runner.Selection | lib/index.ts:492-506 | Every selected node is one of `gens`. |
| Runner.BuildAll | lib/index.ts:517-526 | The sequential build fold computes `BuildFoldOf`. |
| Runner.BuildFoldValue | lib/index.ts:522 | A successful fold returns each node's name followed by its built dependency names. |
| Runner.BuildFoldEach | lib/index.ts:519-523 | Each node was built with the names before it as its exclude list. |
| Runner.BuildFoldAll | lib/index.ts:517-526 | The fold succeeds when every such build does. |
| Runner.BuildStep | lib/index.ts:186-212 | A build reports its dependency names iff the node has a source. |
| Runner.CollectConfigs | lib/index.ts:530-546 | The sequential per-node `run` calls compute `CollectOf`. |
| Runner.CollectNeedsSources | lib/index.ts:238-240 | Configs are collected only when every selected node has a source. |
| Runner.FilterLanguages | lib/index.ts:548-566 | Keeps exactly the configs whose tag is requested. |
| Runner.FilterKeepsAll | lib/index.ts:550-551 | No languages, or an empty list, keeps every config in order. |
| Runner.TypescriptOnly | lib/index.ts:548-566 | `['typescript']` leaves no Scala config and every TypeScript config. |
| Runner.Partition | lib/index.ts:568-594 | The partition reduce computes the two batches. |
| Runner.PartsAppend | lib/index.ts:568-594 | The batches keep the config order. |
| Runner.PartsMembers | lib/index.ts:568-594 | Every config lands in exactly one batch, by its tag. |
| Runner.EmissionsParts | lib/index.ts:537 | A node's Scala configs form its Scala batch, and its TypeScript config forms the TypeScript batch. |
| Runner.Batch | lib/index.ts:597-598 | Definition: a generator is called iff its batch is non-empty. What depends on it is proved in `Runner.EmitBatches`. |
| Runner.Emit | lib/index.ts:530-598 | Collection, filter and partition compute `EmitOf`. |
| Runner.EmitBatches | lib/index.ts:530-598 | Each batch is non-empty or not handed over. It holds exactly the collected configs of its language that the filter keeps. |
| Runner.EmitTypescriptOnly | lib/index.ts:548-598 | `['typescript']` never calls the Scala generator. |
| Runner.ScalaFailure | lib/index.ts:597 | Definition: `await Scala.gen` fails iff `gen` throws or its post-processing fails, with that error. What depends on it is proved in `Runner.GenRunSwaps`. |
| Runner.GenFailure | lib/index.ts:597-598 | The awaited generator calls all resolve iff each batch handed over is generated without failure; no batch means no failure. |
| Runner.Run | lib/index.ts:432-602 | `run` as a method computes `RunOf`. |
| Runner.BuildAndEmit | lib/index.ts:517-601 | After selection, the method computes `RunSelected`. |
| Runner.RunClean | lib/index.ts:452-457 | `clean` removes the snapshot and calls no generator. |
| Runner.RunFirstTime | lib/index.ts:492-506 | With no snapshot and no `force`, nothing is built or generated. A `gen` run still records the snapshot. |
| Runner.RunSelectedSpec | lib/index.ts:517-601 | `build` builds in order and leaves the snapshot alone. `gen` also hands over the `EmitOf` batches, sees every awaited generator call resolve, and promotes the snapshot. |
| Runner.GenRunSwaps | lib/index.ts:596-601 | After a successful build and collection, a generator failure fails the run with that error and keeps the old snapshot; otherwise the current tree becomes the snapshot. |
| Runner.RunModes | lib/index.ts:432-602 | A successful run is the selection followed by `RunSelected`. |
| Runner.RunSelectedTypescriptOnly | lib/index.ts:548-598 | `['typescript']` never calls the Scala generator in a run. |
| ScalaGen.Flags | lib/scala/gen.ts:46-48 | One flag per entry, in order. |
| ScalaGen.CliArgItems | lib/scala/gen.ts:26-29 | An array or Set is recovered by splitting its rendering at commas. |
| ScalaGen.CliArgEntries | lib/scala/gen.ts:30-33 | An object's rendering splits into its entries. Each entry splits into its key and value. |
| ScalaGen.FlagSilent | lib/scala/gen.ts:37-47 | An entry gives no flag iff its value is `false`, `""` or empty. Otherwise it gives `--<key> <value>`. |
| ScalaGen.CalibanStrAppend | lib/scala/gen.ts:46-48 | A later field's flag comes after the others. |
| ScalaGen.SrcTop | lib/scala/gen.ts:18 | Greedy `(.*)\/src` stops before the last `src…` segment. |
| ScalaGen.ParseOf | lib/scala/gen.ts:7-51 | No `calibanArgs` gives the empty flag string. Otherwise the string is the flags of the filled-in arguments. |
| ScalaGen.ParseCalibanArgs | lib/scala/gen.ts:7-51 | The method with its in-place field updates computes `ParseOf`. |
| ScalaGen.DefaultsPackage | lib/scala/gen.ts:11-15 | A set package name is kept. Otherwise it is the output path's package, the one `getImportsFromOut` uses, and a path off the pattern is an error. |
| ScalaGen.DefaultsFormatter | lib/scala/gen.ts:17-24 | A set formatter path is kept. Otherwise the module's `.scalafmt.conf` wins over its parent's, or the field stays unset. |
| ScalaGen.DefaultsOthers | lib/scala/gen.ts:10-24 | Every other field is kept, and no field is dropped. |
| ScalaGen.DefaultsOnLayout | lib/scala/gen.ts:11-24 | On `<module>/src/main/scala/p1/…/pn/F.scala`: the package is `p1.….pn`, and the formatter is looked up in the module, then its parent. |
| ScalaGen.ProduceSbtCommand | lib/scala/gen.ts:53-63 | The method computes `CommandOf`. |
| ScalaGen.CommandSpec | lib/scala/gen.ts:53-63 | The mode is Client iff `client` is `true`. The command starts with the task, the source and the output. |
| ScalaGen.RunScalaMode | lib/scala/gen.ts:57 | Configs built for a client target run the client task. All others run the schema task. |
| ScalaGen.SbtLineBatch | lib/scala/gen.ts:150 | The sbt line quotes the commands joined by `;`, recoverable in order. |
| ScalaGen.DropLastSegment | lib/scala/gen.ts:68-78 | `dropLastPrefix` drops the last dotted segment. |
| ScalaGen.DropSingle | lib/scala/gen.ts:68-78 | A single segment, or the empty prefix, drops to `""`. |
| ScalaGen.DropExample | lib/scala/gen.ts:68-78 | Worked example: `a.b.c` drops to `a.b`. |
| ScalaGen.DropQualify | lib/scala/gen.ts:88-96 | Entering an object and dropping again restores the prefix. |
| ScalaGen.SpaceRun | lib/scala/gen.ts:91 | `^\s*` consumes exactly the leading whitespace run. |
| ScalaGen.ObjectLine | lib/scala/gen.ts:91 | An indented `object X {` or `object X` line names `X`. |
| ScalaGen.ClassLine | lib/scala/gen.ts:98 | An indented `case class N(…`, `N[…` or `sealed trait N extends` line names `N`. |
| ScalaGen.GivenNames | lib/scala/gen.ts:100-101 | Under objects `o1…on` the type is `o1.….on.N` and the binding is `o1_…_onN`. |
| ScalaGen.Step | lib/scala/gen.ts:81-114 | One line moves the brace depth by at most one. |
| ScalaGen.Scan | lib/scala/gen.ts:80-116 | The reduce over the lines, as a loop, computes `ScanOf`. |
| ScalaGen.StepGiven | lib/scala/gen.ts:98-112 | A line adds one pair iff it declares a type other than `Query`/`Mutation` and is no object line. The pair is qualified by the current prefix. |
| ScalaGen.ObjectBlock | lib/scala/gen.ts:82-97 | Opening and closing an object restores the prefix and the depth. |
| ScalaGen.ScanCounts | lib/scala/gen.ts:80-116 | The depth is `{`-lines minus `}`-lines. There is one pair per declaring line. |
| ScalaGen.ScanGrows | lib/scala/gen.ts:104 | Pairs come in line order. |
| ScalaGen.ClientKeepsText | lib/scala/gen.ts:133-140 | Client mode writes the header and then the original text. |
| ScalaGen.SchemaKeepsText | lib/scala/gen.ts:118-131 | Schema mode's first line and the remaining lines are the original text cut at its first newline. |
| ScalaGen.PostProcess | lib/scala/gen.ts:65-142 | The method computes `PostProcessOf`. |
| ScalaGen.CommandsOfSpec | lib/scala/gen.ts:145 | The command map succeeds iff every config does. It then holds each command in order; otherwise it fails with the error of the first config that fails. |
| ScalaGen.ProduceAll | lib/scala/gen.ts:145 | The loop computes `CommandsOf`. |
| ScalaGen.PostProcessAll | lib/scala/gen.ts:173 | The `forEach` loop computes `PostAllOf`. |
| ScalaGen.Gen | lib/scala/gen.ts:144-177 | `gen` as a method computes `GenOf`. |
| ScalaGen.GenFailedSbt | lib/scala/gen.ts:172-174 | When sbt does not exit with 0, no file is touched. |
| ScalaGen.PostAllKeys | lib/scala/gen.ts:173 | Post-processing never adds or removes a file. |
| ScalaGen.PostAllFails | lib/scala/gen.ts:173 | It fails iff some output file is missing. |
| ScalaGen.PostAllRewritten | lib/scala/gen.ts:173 | With distinct existing outputs, each is rewritten once, in its own mode. |
| ScalaGen.PostAllUntouched | lib/scala/gen.ts:173 | A file that is no output is left alone. |
| ScalaScenario.UserGiven | lib/scala/gen.ts:100-109 | `User` in `Types` gets the binding `typesUser` and the type `Types.User`. |
| ScalaScenario.ScanFile | lib/scala/gen.ts:80-116 | On a two-object file, only `Types.User` gets a pair, `Query` gets none, and the scan ends at depth 0 with an empty prefix. |

## Left out

- **I/O is not modelled.** The model leaves out these calls:
  - `fs.rmSync`, `fs.moveSync`, `fs.mkdirSync` and `fs.writeFileSync`, as actions on a disk
  - `console` output and the `verbose` flag
  - spawning sbt, and killing it on `exit`/`SIGINT`/`SIGTERM` (lib/scala/gen.ts:150-169)

  Files read are values in the workspace. Files written become workspace
  updates, or the rewritten map that `ScalaGen.Gen` returns.
- **`createSrc` is not modelled.** It runs `git ls-files` and
  `git status` and copies files (lib/index.ts:604-623). These are external
  processes. The tree it produces is the `current` parameter of `run`.
- **The TypeScript generator is outside the modelled core.**
  lib/typescript/gen.ts is a `Promise.all` over calls into the external
  GraphQL code generator, followed by a header rewrite of each output. The
  run's result names the batch handed to it, and the error it may rethrow
  is a parameter of the run.
- Runner.ScalaFailure: a post-processing failure throws inside the sbt
  `exit` listener (lib/scala/gen.ts:172-173), outside the promise, so the
  process crashes with an uncaught exception and the `.catch` of the
  command line (lib/index.ts:697) is never reached. The model ends the run
  with that error instead. As in the source, no later generator is called
  and the old snapshot stays.
- Runner.KeyMatches: a key that is not a valid regular expression makes
  `k.match` throw and rejects `run`. `matches` is a total predicate here,
  so that error is not modelled.
- **GraphQL libraries are abstract.** Schema loading and printing, and
  document loading (`loadSchemaSync`, `printSchema`, `loadDocumentsSync`,
  `print`), are foreign code. A schema is its set of type names. A document
  is its list of definitions. A load fails when the path is not in the
  workspace.
- **Promises become sequential steps.** `Promise.all` over sibling
  dependency builds is modelled in sibling order. A build that fails fails
  the whole build either way, but `Promise.all` (lib/index.ts:200) rejects
  with the sibling that fails first in time, while the model reports the
  first failing sibling in list order, so the error reported may differ.
- Changes.Ranked: cycles are excluded. Self-dependencies and cycles make
  `getAllChanged` recurse without end. The model requires an acyclic
  graph.
- Paths.PackageOf: the output-path regex is simplified. `.*` can in principle match across
  `/` when the last segment has no `scala` after its first character.
  The model assumes the file segment ends the match. Line terminators
  in paths are not considered.
- ScalaGen.LowerFirst: only ASCII letters are lowered, while `toLowerCase` covers
  all of Unicode.
- Records.Put: integer-like keys are not reordered. Objects put such
  keys first in JavaScript; the model keeps insertion order for every key.
- Configs.ImportsOf: an `imports` value that is a string gives no imports. Spreading it in JavaScript would give its characters; the declared types make it an array or a Set.
- **Text is `seq<char>`.** Bytes, `Buffer` decoding and UTF-8 are not
  modelled.
- **`path.basename(path.dirname(source))` is modelled only through the
  snapshot name.** The snapshot and fragment file names are
  `Merge.SchemaSnapshot` and `Merge.FragmentsSnapshot`. The model does not
  prove that distinct nodes get distinct names. The names depend on the
  clock.
- **`produceSbtCommand` creates the output's directory.** That side effect
  (lib/scala/gen.ts:55) is left out.
