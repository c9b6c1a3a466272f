/** The record shapes of lib/index.ts: what a user declares for a node, the
    two emission configs handed to the generators, and what the run reads
    from disk. */
module Configs {
  import opened Wrappers
  import opened Records
  import opened Paths

  /** A value held by a `calibanArgs` field. */
  datatype Arg =
    | BoolArg(b: bool)
    | StrArg(s: string)
    | ArrArg(items: seq<string>)    // an array
    | SetArg(members: seq<string>)  // a Set
    | RecArg(entries: Rec<string>)  // an object of strings

  /** A `calibanArgs` object: its fields in insertion order. */
  type Args = Rec<Arg>

  /** JavaScript truthiness of a field value: collections are objects, hence truthy. */
  predicate Truthy(a: Arg)
  {
    match a
    case BoolArg(b) => b
    case StrArg(s) => s != ""
    case _ => true
  }

  /** The `typescript` part of a declaration. `P` is `string` as declared and
      `AbsPath` once the node constructor has resolved it. */
  datatype TsConf<P> = TsConf(fragments: Option<seq<P>>, scalars: Option<Rec<string>>)

  /** `Config`; an absent `scala` and an absent `scala.calibanArgs` behave alike,
      so only `calibanArgs` is kept. */
  datatype Config<P> = Config(
    name: string,
    source: Option<P>,
    calibanArgs: Option<Args>,
    typescript: Option<TsConf<P>>)

  /** The argument of `typescript(…)`. */
  datatype TsTarget<P> = TsTarget(out: P, queries: seq<P>, fragments: seq<P>)

  /** `ScalaConfig` (tag `'ScalaConfig'`). */
  datatype ScalaConfig = ScalaConfig(source: AbsPath, out: AbsPath, calibanArgs: Option<Args>)

  /** `TypescriptConfig` (tag `'TypescriptConfig'`); the two Sets are duplicate-free sequences. */
  datatype TypescriptConfig = TypescriptConfig(
    source: AbsPath,
    out: AbsPath,
    scalars: Option<Rec<string>>,
    fragments: seq<AbsPath>,
    queries: seq<AbsPath>)

  /** The `ScalaConfig | TypescriptConfig` union, discriminated by its tag. */
  datatype EmissionConfig = ScalaEmission(scala: ScalaConfig) | TypescriptEmission(typescript: TypescriptConfig)

  /** The languages a run can be restricted to, and the tag each selects. */
  datatype Language = ScalaLanguage | TypescriptLanguage

  predicate HasTag(c: EmissionConfig, l: Language)
  {
    match l
    case ScalaLanguage => c.ScalaEmission?
    case TypescriptLanguage => c.TypescriptEmission?
  }

  /** `args?.scalarMappings` as spread into an object: absent gives no entries. */
  function MappingsOf(args: Option<Args>): Rec<string>
  {
    if args.Some? then
      var v: Option<Arg> := Get(args.value, "scalarMappings");
      match v
      case Some(RecArg(m)) => m
      case _ => []
    else []
  }

  /** `args?.abstractEffectType`, None where it is undefined. */
  function EffectOf(args: Option<Args>): Option<Arg>
  {
    if args.Some? then Get(args.value, "abstractEffectType") else None
  }

  /** `args?.imports || []`. */
  function ImportsOf(args: Option<Args>): seq<string>
  {
    if args.Some? then
      var v: Option<Arg> := Get(args.value, "imports");
      match v
      case Some(ArrArg(xs)) => xs
      case Some(SetArg(xs)) => xs
      case _ => []
    else []
  }

  /** A GraphQL type condition; in practice always a named type. */
  datatype TypeCondition = NamedType(value: string) | OtherCondition

  /** A top-level definition of a GraphQL document, reduced to what the fragment filter looks at. */
  datatype Definition =
    | FragmentDefinition(fragment: string, typeCondition: TypeCondition)
    | OtherDefinition(kind: string)

  /** What the run reads from disk: file texts, loaded schemas (the set of
      their type names) and parsed documents. A path missing from a map is a
      read or load that fails. */
  datatype Workspace = Workspace(
    files: map<AbsPath, string>,
    schemas: map<AbsPath, set<string>>,
    documents: map<AbsPath, seq<Definition>>)
}
