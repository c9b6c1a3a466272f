/** lib/scala/gen.ts: how a `ScalaConfig` becomes a `calibanGen…` sbt
    command, how the commands are batched into one sbt call, and how each
    generated file is rewritten afterwards. The file system is a map from
    paths to texts, the `.scalafmt.conf` probe a set of existing path
    strings, and sbt's exit code a parameter. */
module ScalaGen {
  import opened Wrappers
  import opened Strings
  import opened Records
  import opened Paths
  import opened Configs
  import Nodes
  import Merge

  // ---------------------------------------------------------------------
  // Command-line flags
  // ---------------------------------------------------------------------

  /** `${k}:${v}` for one entry of an object. */
  function Pair(e: (string, string)): string
  {
    e.0 + ":" + e.1
  }

  function Pairs(r: Rec<string>): (ps: seq<string>)
    ensures |ps| == |r|
    ensures forall i :: 0 <= i < |r| ==> ps[i] == Pair(r[i])
  {
    if |r| == 0 then [] else Pairs(r[..|r| - 1]) + [Pair(r[|r| - 1])]
  }

  /** `toCliArg` as the template literal prints it: a string as it is,
      arrays and Sets joined with `,`, an object as `k:v` pairs joined with
      `,`, and a boolean as `true` or `false`. */
  function ToCliArg(a: Arg): string
  {
    match a
    case StrArg(s) => s
    case ArrArg(xs) => Join(xs, ",")
    case SetArg(xs) => Join(xs, ",")
    case RecArg(e) => Join(Pairs(e), ",")
    case BoolArg(b) => if b then "true" else "false"
  }

  /** `nonEmpty`: a collection must have a member; anything else passes. */
  predicate NonEmpty(a: Arg)
  {
    match a
    case SetArg(xs) => |xs| > 0
    case ArrArg(xs) => |xs| > 0
    case RecArg(e) => |e| > 0
    case _ => true
  }

  /** What one `calibanArgs` entry contributes to the flag string. */
  function Flag(k: string, v: Arg): string
  {
    if Truthy(v) && NonEmpty(v) then "--" + k + " " + ToCliArg(v) else ""
  }

  function Flags(args: Args): (fs: seq<string>)
    ensures |fs| == |args|
    ensures forall i :: 0 <= i < |args| ==> fs[i] == Flag(args[i].0, args[i].1)
  {
    if |args| == 0 then [] else Flags(args[..|args| - 1]) + [Flag(args[|args| - 1].0, args[|args| - 1].1)]
  }

  /** The flag string of an argument object: one part per entry, in entry
      order, joined with spaces; a silent entry still leaves its separator. */
  function CalibanStr(args: Args): string
  {
    Join(Flags(args), " ")
  }

  /** An array or a Set whose members hold no comma is recovered by
      splitting its rendering at commas. */
  lemma CliArgItems(xs: seq<string>)
    requires |xs| >= 1 && forall i :: 0 <= i < |xs| ==> ',' !in xs[i]
    ensures Split(ToCliArg(ArrArg(xs)), ',') == xs
    ensures Split(ToCliArg(SetArg(xs)), ',') == xs
  {
    SplitJoin(xs, ',');
  }

  /** An object is rendered as its entries in order: splitting at commas
      gives one part per entry, and splitting a part at its colon gives
      the key and the value back. */
  lemma CliArgEntries(e: Rec<string>)
    requires |e| >= 1
    requires forall i :: 0 <= i < |e| ==> ',' !in e[i].0 && ':' !in e[i].0 && ',' !in e[i].1 && ':' !in e[i].1
    ensures var parts := Split(ToCliArg(RecArg(e)), ',');
      |parts| == |e| && forall i :: 0 <= i < |e| ==> Split(parts[i], ':') == [e[i].0, e[i].1]
  {
    var ps := Pairs(e);
    forall i | 0 <= i < |e| ensures ',' !in ps[i] && Split(ps[i], ':') == [e[i].0, e[i].1] {
      assert ps[i] == e[i].0 + [':'] + e[i].1;
      SplitAfter(e[i].0, ':', e[i].1);
      SplitWithout(e[i].1, ':');
    }
    SplitJoin(ps, ',');
  }

  /** An entry gives no flag exactly when its value is `false`, the empty
      string or an empty collection; every other entry gives
      `--<key> <value>`. */
  lemma FlagSilent(k: string, v: Arg)
    ensures Flag(k, v) == "" <==>
      v == BoolArg(false) || v == StrArg("") || v == ArrArg([]) || v == SetArg([]) || v == RecArg([])
    ensures Flag(k, v) != "" ==> Flag(k, v) == "--" + k + " " + ToCliArg(v)
  {
    if Truthy(v) && NonEmpty(v) {
      assert |Flag(k, v)| >= 2;
    }
  }

  /** A field added after the others contributes its flag at the end. */
  lemma CalibanStrAppend(args: Args, k: string, v: Arg)
    ensures CalibanStr(args + [(k, v)]) ==
      if |args| == 0 then Flag(k, v) else CalibanStr(args) + " " + Flag(k, v)
  {
    var a := args + [(k, v)];
    assert a[..|a| - 1] == args;
    assert Flags(a) == Flags(args) + [Flag(k, v)];
    if |args| > 0 {
      JoinAppend(Flags(args), " ", Flag(k, v));
    } else {
      assert Flags(a) == [Flag(k, v)];
    }
  }

  // ---------------------------------------------------------------------
  // parseCalibanArgs
  // ---------------------------------------------------------------------

  /** `!calibanArgs[k]` is false: the field is there and truthy. */
  predicate IsSet(args: Args, k: string)
  {
    Get(args, k).Some? && Truthy(Get(args, k).value)
  }

  /** The last segment that `(.*)\/src` can stop before: the greedy `.*`
      takes the last `/src`, which begins a segment starting with `src`. */
  function SrcTop(out: AbsPath): (r: Option<nat>)
    ensures r.Some? ==> r.value < |out| && StartsWith(out[r.value], "src")
    ensures r.Some? ==> forall j :: r.value < j < |out| ==> !StartsWith(out[j], "src")
    ensures r.None? ==> forall j :: 0 <= j < |out| ==> !StartsWith(out[j], "src")
  {
    if |out| == 0 then None
    else if StartsWith(out[|out| - 1], "src") then Some(|out| - 1)
    else
      var r := SrcTop(out[..|out| - 1]);
      assert forall j :: 0 <= j < |out| - 1 ==> out[..|out| - 1][j] == out[j];
      r
  }

  const FmtName := ".scalafmt.conf"

  /** The two `.scalafmt.conf` paths probed for an output path whose last
      `src` segment is at index `i`: one in the module directory, one in
      its parent. Capturing nothing before `/src` leaves the module
      directory `""`, and both probes become the relative `.scalafmt.conf`. */
  function FmtProbes(out: AbsPath, i: nat): (string, string)
    requires i < |out|
  {
    if i == 0 then (FmtName, FmtName)
    else (Render(out[..i] + [FmtName]), Render(Dirname(out[..i]) + [FmtName]))
  }

  /** The `packageName` step: a missing name is derived from the output
      path; a path the pattern does not match fails like the non-null
      assertion on the match. */
  function PackageDefault(args: Args, out: AbsPath): Result<Args>
  {
    if IsSet(args, "packageName") then Ok(args)
    else match PackageOf(out)
      case None => Err(PatternMismatch(out))
      case Some(p) => Ok(Put(args, "packageName", StrArg(p)))
  }

  /** The `scalafmtPath` step: a missing path is the first probe that
      exists, and stays missing when neither does. */
  function FormatterDefault(args: Args, out: AbsPath, present: set<string>): Result<Args>
  {
    if IsSet(args, "scalafmtPath") then Ok(args)
    else match SrcTop(out)
      case None => Err(PatternMismatch(out))
      case Some(i) =>
        var (near, far) := FmtProbes(out, i);
        if near in present then Ok(Put(args, "scalafmtPath", StrArg(near)))
        else if far in present then Ok(Put(args, "scalafmtPath", StrArg(far)))
        else Ok(args)
  }

  /** The fields `parseCalibanArgs` fills in, the package name first. */
  function DefaultsOf(args: Args, out: AbsPath, present: set<string>): Result<Args>
  {
    match PackageDefault(args, out)
    case Err(e) => Err(e)
    case Ok(a) => FormatterDefault(a, out, present)
  }

  /** `parseCalibanArgs`: the flag string, and the `calibanArgs` as the
      call leaves them. */
  function ParseOf(config: ScalaConfig, out: AbsPath, present: set<string>): (r: Result<(string, Option<Args>)>)
    ensures config.calibanArgs.None? ==> r == Ok(("", None))
    ensures r.Ok? && config.calibanArgs.Some? ==> r.value.1.Some? && r.value.0 == CalibanStr(r.value.1.value)
  {
    match config.calibanArgs
    case None => Ok(("", None))
    case Some(args) =>
      match DefaultsOf(args, out, present)
      case Err(e) => Err(e)
      case Ok(a) => Ok((CalibanStr(a), Some(a)))
  }

  /** `parseCalibanArgs`, filling the two fields into its own copy of the arguments. */
  method ParseCalibanArgs(config: ScalaConfig, out: AbsPath, present: set<string>)
    returns (r: Result<(string, Option<Args>)>)
    ensures r == ParseOf(config, out, present)
  {
    var calibanStr := "";
    if config.calibanArgs.None? {
      return Ok((calibanStr, None));
    }
    var args := config.calibanArgs.value;
    if !IsSet(args, "packageName") {
      var p := PackageOf(out);
      if p.None? {
        return Err(PatternMismatch(out));
      }
      args := Put(args, "packageName", StrArg(p.value));
    }
    if !IsSet(args, "scalafmtPath") {
      var i := SrcTop(out);
      if i.None? {
        return Err(PatternMismatch(out));
      }
      var probes := FmtProbes(out, i.value);
      if probes.0 in present {
        args := Put(args, "scalafmtPath", StrArg(probes.0));
      } else if probes.1 in present {
        args := Put(args, "scalafmtPath", StrArg(probes.1));
      }
    }
    calibanStr := CalibanStr(args);
    r := Ok((calibanStr, Some(args)));
  }

  /** A `packageName` that is set is kept; otherwise it is the package the
      output path names, the one `getImportsFromOut` derives its imports
      from, and a path without one is an error. */
  lemma DefaultsPackage(args: Args, out: AbsPath, present: set<string>)
    ensures var r := DefaultsOf(args, out, present);
      && (!IsSet(args, "packageName") && PackageOf(out).None? ==> r == Err(PatternMismatch(out)))
      && (r.Ok? && IsSet(args, "packageName") ==> Get(r.value, "packageName") == Get(args, "packageName"))
      && (r.Ok? && !IsSet(args, "packageName") ==>
            && PackageOf(out).Some?
            && Get(r.value, "packageName") == Some(StrArg(PackageOf(out).value))
            && ImportsFromOut(out) == Ok([PackageOf(out).value + ".Types.*", PackageOf(out).value + ".given"]))
  {
    var p := PackageDefault(args, out);
    if p.Ok? && FormatterDefault(p.value, out, present).Ok? {
      FormatterOthers(p.value, out, present, "packageName");
    }
  }

  /** A `scalafmtPath` that is set is kept; otherwise the module directory's
      `.scalafmt.conf` wins over its parent's, and with neither present the
      field stays as it was. */
  lemma DefaultsFormatter(args: Args, out: AbsPath, present: set<string>)
    requires DefaultsOf(args, out, present).Ok?
    ensures var a := DefaultsOf(args, out, present).value;
      && (IsSet(args, "scalafmtPath") ==> Get(a, "scalafmtPath") == Get(args, "scalafmtPath"))
      && (!IsSet(args, "scalafmtPath") ==>
            && SrcTop(out).Some?
            && var (near, far) := FmtProbes(out, SrcTop(out).value);
               Get(a, "scalafmtPath") ==
                 if near in present then Some(StrArg(near))
                 else if far in present then Some(StrArg(far))
                 else Get(args, "scalafmtPath"))
  {
    PackageOthers(args, out, "scalafmtPath");
  }

  lemma PackageOthers(args: Args, out: AbsPath, k: string)
    requires PackageDefault(args, out).Ok? && k != "packageName"
    ensures Get(PackageDefault(args, out).value, k) == Get(args, k)
    ensures Keys(args) <= Keys(PackageDefault(args, out).value)
  {
  }

  lemma FormatterOthers(args: Args, out: AbsPath, present: set<string>, k: string)
    requires FormatterDefault(args, out, present).Ok? && k != "scalafmtPath"
    ensures Get(FormatterDefault(args, out, present).value, k) == Get(args, k)
    ensures Keys(args) <= Keys(FormatterDefault(args, out, present).value)
  {
  }

  /** Every other field is left alone, and no field is dropped. */
  lemma DefaultsOthers(args: Args, out: AbsPath, present: set<string>, k: string)
    requires DefaultsOf(args, out, present).Ok?
    ensures k != "packageName" && k != "scalafmtPath" ==> Get(DefaultsOf(args, out, present).value, k) == Get(args, k)
    ensures k in Keys(args) ==> k in Keys(DefaultsOf(args, out, present).value)
  {
    var a := PackageDefault(args, out).value;
    FormatterOthers(a, out, present, "packageName");
    if k != "packageName" && k != "scalafmtPath" {
      PackageOthers(args, out, k);
      FormatterOthers(a, out, present, k);
    }
    PackageOthers(args, out, "scalafmtPath");
  }

  /** On the usual layout `<module>/src/main/scala/<p1>/…/<pn>/<F>.scala`,
      with neither field set, the package is `p1.….pn` and the formatter
      configuration is looked up in the module directory, then its parent. */
  lemma DefaultsOnLayout(args: Args, dir: AbsPath, pkgs: seq<string>, file: string, present: set<string>)
    requires |dir| >= 1 && |pkgs| >= 1 && ScalaFileName(file)
    requires forall i :: 0 <= i < |pkgs| ==> !StartsWith(pkgs[i], "src")
    requires forall i :: 0 <= i < |pkgs| - 1 ==> !IsMarker(pkgs[i])
    requires !StartsWith(file, "src")
    requires Get(args, "packageName").None? && Get(args, "scalafmtPath").None?
    ensures var out := dir + ["src", "main"] + ["scala"] + pkgs + [file];
      var r := DefaultsOf(args, out, present);
      var near := Render(dir + [FmtName]);
      var far := Render(Dirname(dir) + [FmtName]);
      && r.Ok?
      && Get(r.value, "packageName") == Some(StrArg(Join(pkgs, ".")))
      && Get(r.value, "scalafmtPath") ==
           if near in present then Some(StrArg(near))
           else if far in present then Some(StrArg(far))
           else None
  {
    var out := dir + ["src", "main"] + ["scala"] + pkgs + [file];
    var pkg := Join(pkgs, ".");
    LayoutPackage(dir, pkgs, file);
    var k := LayoutSrc(dir, pkgs, file);
    var a := Put(args, "packageName", StrArg(pkg));
    assert PackageDefault(args, out) == Ok(a);
    assert Get(a, "scalafmtPath") == None;
    assert out[..k] == dir;
    assert FmtProbes(out, k) == (Render(dir + [FmtName]), Render(Dirname(dir) + [FmtName]));
    FormatterOthers(a, out, present, "packageName");
  }

  lemma LayoutPackage(dir: AbsPath, pkgs: seq<string>, file: string)
    requires |pkgs| >= 1 && ScalaFileName(file)
    requires forall i :: 0 <= i < |pkgs| - 1 ==> !IsMarker(pkgs[i])
    ensures PackageOf(dir + ["src", "main"] + ["scala"] + pkgs + [file]) == Some(Join(pkgs, "."))
  {
    var out := dir + ["src", "main"] + ["scala"] + pkgs + [file];
    assert IsMarker("scala");
    CharDiffers("scala", "play", 0);
    PackageOfLayout(dir + ["src", "main"], "scala", pkgs, file);
  }

  lemma LayoutSrc(dir: AbsPath, pkgs: seq<string>, file: string) returns (k: nat)
    requires forall i :: 0 <= i < |pkgs| ==> !StartsWith(pkgs[i], "src")
    requires !StartsWith(file, "src")
    ensures var out := dir + ["src", "main"] + ["scala"] + pkgs + [file];
      k == |dir| && SrcTop(out) == Some(k)
  {
    var out := dir + ["src", "main"] + ["scala"] + pkgs + [file];
    k := |dir|;
    assert out[k] == "src" && StartsWith(out[k], "src");
    forall j | k < j < |out| ensures !StartsWith(out[j], "src") {
      if j == k + 1 {
        assert out[j] == "main";
        CharDiffers("main", "src", 0);
      } else if j == k + 2 {
        assert out[j] == "scala";
        CharDiffers("scala", "src", 1);
      } else if j < |out| - 1 {
        assert out[j] == pkgs[j - k - 3];
      } else {
        assert out[j] == file;
      }
    }
    SrcTopIs(out, k);
  }

  /** `p` does not occur at `i` where it differs from the text at `i + k`. */
  lemma NotAt(s: string, i: nat, p: string, k: nat)
    requires k < |p| && i + k < |s| && s[i + k] != p[k]
    ensures !At(s, i, p)
  {
    if i + |p| <= |s| {
      assert s[i..i + |p|][k] != p[k];
    }
  }

  /** A text does not start with a prefix it differs from at index `i`. */
  lemma CharDiffers(s: string, p: string, i: nat)
    requires i < |s| && i < |p| && s[i] != p[i]
    ensures !StartsWith(s, p)
  {
    if |p| <= |s| {
      assert s[..|p|][i] != p[i];
    }
  }

  /** The last `src` segment is the one after which none follows. */
  lemma {:induction false} SrcTopIs(out: AbsPath, k: nat)
    requires k < |out| && StartsWith(out[k], "src")
    requires forall j :: k < j < |out| ==> !StartsWith(out[j], "src")
    ensures SrcTop(out) == Some(k)
    decreases |out|
  {
    if k != |out| - 1 {
      var front := out[..|out| - 1];
      assert front[k] == out[k];
      assert forall j :: k < j < |front| ==> front[j] == out[j];
      SrcTopIs(front, k);
    }
  }

  // ---------------------------------------------------------------------
  // produceSbtCommand and the batch
  // ---------------------------------------------------------------------

  datatype GenMode = Client | Schema

  function ModeName(m: GenMode): string
  {
    match m
    case Client => "Client"
    case Schema => "Schema"
  }

  /** What `produceSbtCommand` returns. */
  datatype SbtCommand = SbtCommand(out: AbsPath, genMode: GenMode, cmd: string)

  /** `calibanArgs?.client === true`, read after the defaults were filled in. */
  function ModeOf(args: Option<Args>): GenMode
  {
    if args.Some? && Get(args.value, "client") == Some(BoolArg(true)) then Client else Schema
  }

  /** `produceSbtCommand`: `calibanGen<mode> <source> <out> <flags>`. */
  function CommandOf(config: ScalaConfig, present: set<string>): Result<SbtCommand>
  {
    match ParseOf(config, config.out, present)
    case Err(e) => Err(e)
    case Ok((flags, args)) =>
      var mode := ModeOf(args);
      Ok(SbtCommand(config.out, mode,
        "calibanGen" + ModeName(mode) + " " + Render(config.source) + " " + Render(config.out) + " " + flags))
  }

  method ProduceSbtCommand(config: ScalaConfig, present: set<string>) returns (r: Result<SbtCommand>)
    ensures r == CommandOf(config, present)
  {
    var parsed := ParseCalibanArgs(config, config.out, present);
    if parsed.Err? {
      return Err(parsed.error);
    }
    var (flags, args) := parsed.value;
    var genMode := if args.Some? && Get(args.value, "client") == Some(BoolArg(true)) then Client else Schema;
    r := Ok(SbtCommand(config.out, genMode,
      "calibanGen" + ModeName(genMode) + " " + Render(config.source) + " " + Render(config.out) + " " + flags));
  }

  /** The mode is Client exactly when the config's own `client` field is
      `true`: filling in the defaults does not touch it. The first three
      words of the command are the task, the source and the output path. */
  lemma CommandSpec(config: ScalaConfig, present: set<string>)
    requires CommandOf(config, present).Ok?
    requires ' ' !in Render(config.source) && ' ' !in Render(config.out)
    ensures var c := CommandOf(config, present).value;
      && c.out == config.out
      && (c.genMode == Client <==>
            config.calibanArgs.Some? && Get(config.calibanArgs.value, "client") == Some(BoolArg(true)))
      && |Split(c.cmd, ' ')| >= 3 && Split(c.cmd, ' ')[..3] == ["calibanGen" + ModeName(c.genMode), Render(config.source), Render(config.out)]
  {
    var c := CommandOf(config, present).value;
    if config.calibanArgs.Some? {
      DefaultsOthers(config.calibanArgs.value, config.out, present, "client");
    }
    TaskWord(c.genMode);
    CommandWords("calibanGen" + ModeName(c.genMode), Render(config.source), Render(config.out),
      ParseOf(config, config.out, present).value.0);
  }

  lemma TaskWord(m: GenMode)
    ensures ' ' !in "calibanGen" + ModeName(m)
  {
    var t := "calibanGen" + ModeName(m);
    forall i | 0 <= i < |t| ensures t[i] != ' ' {
    }
  }

  /** Words without spaces, separated by spaces, are split back out. */
  lemma CommandWords(t: string, s: string, o: string, flags: string)
    requires ' ' !in t && ' ' !in s && ' ' !in o
    ensures var words := Split(t + " " + s + " " + o + " " + flags, ' ');
      |words| >= 3 && words[..3] == [t, s, o]
  {
    var line := t + " " + s + " " + o + " " + flags;
    assert line == t + [' '] + (s + [' '] + (o + [' '] + flags));
    SplitAfter(o, ' ', flags);
    SplitAfter(s, ' ', o + [' '] + flags);
    SplitAfter(t, ' ', s + [' '] + (o + [' '] + flags));
  }

  /** The configs the run builds for a client target run sbt's client task,
      and every other config its schema task. */
  lemma RunScalaMode(n: Nodes.Node, out: AbsPath, client: bool, source: AbsPath, present: set<string>)
    requires Merge.ScalaConfigOf(n, out, client, source).Ok?
    requires CommandOf(Merge.ScalaConfigOf(n, out, client, source).value, present).Ok?
    ensures CommandOf(Merge.ScalaConfigOf(n, out, client, source).value, present).value.genMode ==
      if client then Client else Schema
  {
    var c := Merge.ScalaConfigOf(n, out, client, source).value;
    Merge.ScalaArgsFlag(n.conf.calibanArgs, Merge.FoldGens(Merge.ScalaItems(n, client), client).value, client);
    DefaultsOthers(c.calibanArgs.value, c.out, present, "client");
  }

  function Cmds(cs: seq<SbtCommand>): (r: seq<string>)
    ensures |r| == |cs|
    ensures forall i :: 0 <= i < |cs| ==> r[i] == cs[i].cmd
  {
    if |cs| == 0 then [] else Cmds(cs[..|cs| - 1]) + [cs[|cs| - 1].cmd]
  }

  /** The one shell command `gen` spawns: every command in order, joined
      with `;`, in a single sbt invocation. */
  function SbtLine(cs: seq<SbtCommand>): string
  {
    "sbt \"" + Join(Cmds(cs), ";") + "\""
  }

  /** sbt sees the batch as the commands themselves, in order, as long as
      none of them holds a `;`. */
  lemma SbtLineBatch(cs: seq<SbtCommand>)
    requires |cs| >= 1 && forall i :: 0 <= i < |cs| ==> ';' !in cs[i].cmd
    ensures var body := SbtLine(cs)[5..|SbtLine(cs)| - 1];
      SbtLine(cs) == "sbt \"" + body + "\"" && Split(body, ';') == Cmds(cs)
  {
    var body := Join(Cmds(cs), ";");
    assert SbtLine(cs) == "sbt \"" + body + "\"";
    assert SbtLine(cs)[5..|SbtLine(cs)| - 1] == body;
    SplitJoin(Cmds(cs), ';');
  }

  // ---------------------------------------------------------------------
  // postProcess: the prefix of enclosing objects
  // ---------------------------------------------------------------------

  /** `dropLastPrefix`: the prefix without its last `.`-separated segment. */
  function DropLastPrefix(pr: string): string
  {
    if pr == "" then ""
    else
      var spl := Split(pr, '.');
      if |spl| > 1 then Join(spl[..|spl| - 1], ".") else ""
  }

  /** `${prefix}.${x}`, or `x` alone under the empty prefix. */
  function Qualify(prefix: string, x: string): string
  {
    if prefix != "" then prefix + "." + x else x
  }

  /** On a prefix made of segments, the last segment goes. */
  lemma DropLastSegment(segs: seq<string>)
    requires |segs| >= 1 && forall i :: 0 <= i < |segs| ==> '.' !in segs[i]
    ensures DropLastPrefix(Join(segs, ".")) == Join(segs[..|segs| - 1], ".")
  {
    var pr := Join(segs, ".");
    if |segs| == 1 {
      assert pr == segs[0];
      DropSingle(pr);
    } else {
      assert |pr| > 0 by {
        assert pr == segs[0] + "." + Join(segs[1..], ".");
      }
      SplitJoin(segs, '.');
      DropBySplit(pr, segs);
    }
  }

  lemma DropBySplit(pr: string, segs: seq<string>)
    requires pr != "" && Split(pr, '.') == segs && |segs| > 1
    ensures DropLastPrefix(pr) == Join(segs[..|segs| - 1], ".")
  {
  }

  /** A prefix of one segment, or the empty prefix, drops to the empty prefix. */
  lemma DropSingle(pr: string)
    requires '.' !in pr
    ensures DropLastPrefix(pr) == ""
  {
    SplitWithout(pr, '.');
  }

  /** Worked example: `a.b.c` drops to `a.b`. */
  lemma DropExample()
    ensures DropLastPrefix("a.b.c") == "a.b"
  {
    assert "a.b.c" == Join(["a", "b", "c"], ".");
    assert ["a", "b", "c"][..2] == ["a", "b"];
    assert Join(["a", "b"], ".") == "a.b";
    DropLastSegment(["a", "b", "c"]);
  }

  /** Entering an object and leaving it again restores the prefix. */
  lemma DropQualify(prefix: string, x: string)
    requires '.' !in x
    ensures DropLastPrefix(Qualify(prefix, x)) == prefix
  {
    SplitWithout(x, '.');
    if prefix != "" {
      var q := prefix + "." + x;
      assert q == prefix + ['.'] + x;
      SplitConcat(prefix, '.', x);
      var spl := Split(q, '.');
      assert spl == Split(prefix, '.') + [x];
      assert spl[..|spl| - 1] == Split(prefix, '.');
      JoinSplit(prefix, '.');
    } else {
      DropSingle(x);
    }
  }

  // ---------------------------------------------------------------------
  // postProcess: the two line patterns
  // ---------------------------------------------------------------------

  /** What may follow the lazy `(.+?)` of the `object` pattern, or of the
      `case class` pattern. */
  datatype Stop = ObjectStop | ClassStop

  predicate StopsAt(line: string, e: nat, k: Stop)
  {
    match k
    case ObjectStop => At(line, e, " {") || e == |line|
    case ClassStop => At(line, e, "(") || At(line, e, "[") || At(line, e, " extends") || At(line, e, "\n") || e == |line|
  }

  /** The first position in `e..end` where the pattern can go on. */
  function FirstStop(line: string, e: nat, end: nat, k: Stop): (r: Option<nat>)
    ensures r.Some? ==> e <= r.value <= end && StopsAt(line, r.value, k)
    ensures r.Some? ==> forall j :: e <= j < r.value ==> !StopsAt(line, j, k)
    ensures r.None? ==> forall j :: e <= j <= end ==> !StopsAt(line, j, k)
    decreases end + 1 - e
  {
    if e > end then None
    else if StopsAt(line, e, k) then Some(e)
    else FirstStop(line, e + 1, end, k)
  }

  /** A lazy `(.+?)` starting at `s`: the shortest run of at least one
      character with no line terminator after which the pattern goes on. */
  function LazyGroup(line: string, s: nat, k: Stop): (r: Option<string>)
    requires s <= |line|
    ensures r.Some? ==> |r.value| >= 1
  {
    match FirstStop(line, s + 1, DotRunEnd(line, s), k)
    case None => None
    case Some(e) => Some(line[s..e])
  }

  /** The end of the run of `\s` characters starting at `i`. */
  function SpaceRun(line: string, i: nat): (e: nat)
    requires i <= |line|
    ensures i <= e <= |line|
    ensures forall j :: i <= j < e ==> IsSpace(line[j])
    ensures e < |line| ==> !IsSpace(line[e])
    decreases |line| - i
  {
    if i < |line| && IsSpace(line[i]) then SpaceRun(line, i + 1) else i
  }

  /** The name `^\s*object (.+?)( \{|$)` captures. A space is not an `o`,
      so the leading `\s*` takes every leading space. */
  function ObjectName(line: string): Option<string>
  {
    var s := SpaceRun(line, 0);
    if At(line, s, "object ") then LazyGroup(line, s + 7, ObjectStop) else None
  }

  /** The length of the keyword and its space that begins at `p`, if one does. */
  function Keyword(line: string, p: nat): (r: Option<nat>)
    ensures r.Some? ==> p + r.value <= |line|
  {
    if At(line, p, "case class ") then Some(11)
    else if At(line, p, "sealed trait ") then Some(13)
    else None
  }

  /** The name `(case class|sealed trait) (.+?)(\(|\[| extends|\n|$)`
      captures, trying the start positions from `p` on. */
  function ClassFrom(line: string, p: nat): Option<string>
    requires p <= |line|
    decreases |line| - p
  {
    var g := match Keyword(line, p)
      case Some(n) => LazyGroup(line, p + n, ClassStop)
      case None => None;
    if g.Some? then g
    else if p == |line| then None
    else ClassFrom(line, p + 1)
  }

  function ClassName(line: string): Option<string>
  {
    ClassFrom(line, 0)
  }

  /** ASCII lower-casing of the first character. */
  function LowerFirst(name: string): string
  {
    if |name| == 0 then "" else [LowerChar(name[0])] + name[1..]
  }

  /** The binding name of a type `n` declared under `prefix`. */
  function BindingName(prefix: string, n: string): string
  {
    if prefix != "" then Join(Split(prefix, '.'), "_") + n else n
  }

  /** The `given` pair for a type `n` declared under `prefix`. */
  function Given(prefix: string, n: string): string
  {
    var typeName := Qualify(prefix, n);
    var name := BindingName(prefix, n);
    "given " + LowerFirst(name) + ": Schema[Any, " + typeName + "] = Schema.gen\ngiven arg" + name
      + ": ArgBuilder[" + typeName + "] = ArgBuilder.gen\n"
  }

  /** Under the objects `o1 … on` the type is `o1.….on.N` and the binding
      `o1_…_onN`. */
  lemma GivenNames(segs: seq<string>, n: string)
    requires |segs| >= 1 && forall i :: 0 <= i < |segs| ==> '.' !in segs[i]
    requires Join(segs, ".") != ""
    ensures Qualify(Join(segs, "."), n) == Join(segs + [n], ".")
    ensures BindingName(Join(segs, "."), n) == Join(segs, "_") + n
  {
    SplitJoin(segs, '.');
    JoinAppend(segs, ".", n);
  }

  lemma {:induction false} SpaceRunIs(line: string, i: nat, j: nat)
    requires i <= j <= |line|
    requires forall k :: i <= k < j ==> IsSpace(line[k])
    requires j < |line| ==> !IsSpace(line[j])
    ensures SpaceRun(line, i) == j
    decreases j - i
  {
    if i < j {
      SpaceRunIs(line, i + 1, j);
    }
  }

  lemma {:induction false} FirstStopIs(line: string, e: nat, end: nat, k: Stop, t: nat)
    requires e <= t <= end && StopsAt(line, t, k)
    requires forall j :: e <= j < t ==> !StopsAt(line, j, k)
    ensures FirstStop(line, e, end, k) == Some(t)
    decreases t - e
  {
    if e < t {
      FirstStopIs(line, e + 1, end, k, t);
    }
  }

  /** A group of name characters that ends where the pattern goes on is
      captured whole. */
  lemma LazyGroupIs(line: string, s: nat, n: string, k: Stop)
    requires s + |n| <= |line| && |n| >= 1 && line[s..s + |n|] == n
    requires forall i :: 0 <= i < |n| ==> !IsLineTerminator(n[i]) && n[i] != ' ' && n[i] != '(' && n[i] != '['
    requires StopsAt(line, s + |n|, k)
    ensures LazyGroup(line, s, k) == Some(n)
  {
    var end := DotRunEnd(line, s);
    forall j | s <= j < s + |n| ensures line[j] == n[j - s] {
      assert line[s..s + |n|][j - s] == line[j];
    }
    assert end >= s + |n|;
    forall j | s + 1 <= j < s + |n| ensures !StopsAt(line, j, k) {
      assert line[j] == n[j - s];
    }
    FirstStopIs(line, s + 1, end, k, s + |n|);
  }

  /** `object X {` and `object X`, indented: the name is `X`. */
  lemma ObjectLine(ind: string, x: string, tail: string)
    requires forall i :: 0 <= i < |ind| ==> IsSpace(ind[i])
    requires |x| >= 1 && forall i :: 0 <= i < |x| ==> !IsLineTerminator(x[i]) && x[i] != ' ' && x[i] != '(' && x[i] != '['
    requires tail == "" || StartsWith(tail, " {")
    ensures ObjectName(ind + "object " + x + tail) == Some(x)
  {
    var line := ind + "object " + x + tail;
    var s := |ind| + 7;
    assert line[|ind|] == 'o';
    SpaceRunIs(line, 0, |ind|);
    assert line[|ind|..s] == "object ";
    assert line[s..s + |x|] == x;
    if tail != "" {
      assert line[s + |x|..s + |x| + 2] == tail[..2];
    }
    LazyGroupIs(line, s, x, ObjectStop);
  }

  lemma {:induction false} ClassFromSkips(line: string, p: nat, t: nat)
    requires p <= t <= |line|
    requires forall j :: p <= j < t ==> Keyword(line, j).None?
    ensures ClassFrom(line, p) == ClassFrom(line, t)
    decreases t - p
  {
    if p < t {
      ClassFromSkips(line, p + 1, t);
    }
  }

  /** An indented `case class N(…`, `case class N[…`, `sealed trait N extends …`
      and the like: the name is `N`. */
  lemma ClassLine(ind: string, kw: string, n: string, tail: string)
    requires forall i :: 0 <= i < |ind| ==> ind[i] == ' '
    requires kw == "case class " || kw == "sealed trait "
    requires |n| >= 1 && forall i :: 0 <= i < |n| ==> !IsLineTerminator(n[i]) && n[i] != ' ' && n[i] != '(' && n[i] != '['
    requires tail == "" || StartsWith(tail, "(") || StartsWith(tail, "[") || StartsWith(tail, " extends")
    ensures ClassName(ind + kw + n + tail) == Some(n)
  {
    ClassLineIndent(ind, kw, n, tail);
    ClassLineKeyword(ind, kw, n, tail);
    ClassLineGroup(ind + kw, n, tail);
    ClassFromHere(ind + kw + n + tail, |ind|, |kw|, n);
  }

  lemma ClassLineIndent(ind: string, kw: string, n: string, tail: string)
    requires forall i :: 0 <= i < |ind| ==> ind[i] == ' '
    ensures ClassFrom(ind + kw + n + tail, 0) == ClassFrom(ind + kw + n + tail, |ind|)
  {
    var line := ind + kw + n + tail;
    IndentSkipped(line, |ind|);
    ClassFromSkips(line, 0, |ind|);
  }

  lemma ClassLineKeyword(ind: string, kw: string, n: string, tail: string)
    requires kw == "case class " || kw == "sealed trait "
    ensures Keyword(ind + kw + n + tail, |ind|) == Some(|kw|)
  {
    var line := ind + kw + n + tail;
    assert line[|ind|..|ind| + |kw|] == kw;
    KeywordIs(line, |ind|, kw);
  }

  lemma ClassLineGroup(head: string, n: string, tail: string)
    requires |n| >= 1 && forall i :: 0 <= i < |n| ==> !IsLineTerminator(n[i]) && n[i] != ' ' && n[i] != '(' && n[i] != '['
    requires tail == "" || StartsWith(tail, "(") || StartsWith(tail, "[") || StartsWith(tail, " extends")
    ensures LazyGroup(head + n + tail, |head|, ClassStop) == Some(n)
  {
    var line := head + n + tail;
    var q := |head|;
    assert line[q..q + |n|] == n;
    assert line[q + |n|..] == tail;
    ClassStopAt(line, q + |n|, tail);
    LazyGroupIs(line, q, n, ClassStop);
  }

  lemma ClassFromHere(line: string, p: nat, m: nat, n: string)
    requires p + m <= |line| && Keyword(line, p) == Some(m) && LazyGroup(line, p + m, ClassStop) == Some(n)
    ensures ClassFrom(line, p) == Some(n)
  {
  }

  /** No keyword begins inside an indentation of spaces. */
  lemma IndentSkipped(line: string, t: nat)
    requires t <= |line| && forall i :: 0 <= i < t ==> line[i] == ' '
    ensures forall j :: 0 <= j < t ==> Keyword(line, j).None?
  {
    forall j | 0 <= j < t ensures Keyword(line, j).None? {
      NotAt(line, j, "case class ", 0);
      NotAt(line, j, "sealed trait ", 0);
    }
  }

  lemma KeywordIs(line: string, p: nat, kw: string)
    requires kw == "case class " || kw == "sealed trait "
    requires p + |kw| <= |line| && line[p..p + |kw|] == kw
    ensures Keyword(line, p) == Some(|kw|)
  {
    if kw == "sealed trait " {
      assert line[p] == 's';
      NotAt(line, p, "case class ", 0);
    }
  }

  lemma ClassStopAt(line: string, e: nat, tail: string)
    requires e <= |line| && line[e..] == tail
    requires tail == "" || StartsWith(tail, "(") || StartsWith(tail, "[") || StartsWith(tail, " extends")
    ensures StopsAt(line, e, ClassStop)
  {
    if StartsWith(tail, " extends") {
      assert line[e..e + 8] == tail[..8];
    } else if tail != "" {
      assert line[e..e + 1] == tail[..1];
    }
  }

  // ---------------------------------------------------------------------
  // postProcess: the line scanner
  // ---------------------------------------------------------------------

  /** The state the reduce carries: the enclosing objects, the brace depth,
      and the `given` pairs so far. */
  datatype ScanState = ScanState(prefix: string, curlyLeft: int, res: seq<string>)

  /** A line that adds a `given` pair, whatever the state. */
  predicate YieldsGiven(line: string)
  {
    ObjectName(line).None? && ClassName(line).Some?
    && ClassName(line).value != "Query" && ClassName(line).value != "Mutation"
  }

  /** One line of the reduce: the depth moves by the presence of `{` and of
      `}`, a lower depth drops a prefix segment, then an `object` line adds
      one, and otherwise a type declaration adds its `given` pair. */
  function Step(st: ScanState, line: string): (r: ScanState)
    ensures -1 <= r.curlyLeft - st.curlyLeft <= 1
  {
    var openCurly := if '{' in line then 1 else 0;
    var closeCurly := if '}' in line then 1 else 0;
    var curlyLeft := st.curlyLeft + openCurly - closeCurly;
    var prefix := if curlyLeft < st.curlyLeft then DropLastPrefix(st.prefix) else st.prefix;
    match ObjectName(line)
    case Some(x) => ScanState(Qualify(prefix, x), curlyLeft, st.res)
    case None =>
      match ClassName(line)
      case Some(n) =>
        if n != "Query" && n != "Mutation" then ScanState(prefix, curlyLeft, st.res + [Given(prefix, n)])
        else ScanState(prefix, curlyLeft, st.res)
      case None => ScanState(prefix, curlyLeft, st.res)
  }

  const ScanStart := ScanState("", 0, [])

  /** The reduce over all lines. */
  function ScanOf(lines: seq<string>): ScanState
  {
    if |lines| == 0 then ScanStart else Step(ScanOf(lines[..|lines| - 1]), lines[|lines| - 1])
  }

  /** The reduce as a loop over the lines. */
  method Scan(lines: seq<string>) returns (st: ScanState)
    ensures st == ScanOf(lines)
  {
    st := ScanStart;
    var i := 0;
    while i < |lines|
      invariant i <= |lines|
      invariant st == ScanOf(lines[..i])
    {
      assert lines[..i + 1][..i] == lines[..i];
      st := Step(st, lines[i]);
      i := i + 1;
    }
    assert lines[..i] == lines;
  }

  /** A line adds exactly one pair when it declares a type other than
      `Query` or `Mutation` and is no `object` line, and none otherwise; the
      pair is qualified by the prefix the line leaves. */
  lemma StepGiven(st: ScanState, line: string)
    ensures Step(st, line).res ==
      st.res + if YieldsGiven(line) then [Given(Step(st, line).prefix, ClassName(line).value)] else []
  {
  }

  /** A line opening `object X {` and a later line closing it with `}`
      leave the prefix as it was. */
  lemma ObjectBlock(st: ScanState, open: string, close: string)
    requires ObjectName(open).Some? && '.' !in ObjectName(open).value
    requires '{' in open && '}' !in open
    requires '}' in close && '{' !in close && ObjectName(close).None?
    ensures Step(Step(st, open), close).prefix == st.prefix
    ensures Step(Step(st, open), close).curlyLeft == st.curlyLeft
  {
    DropQualify(st.prefix, ObjectName(open).value);
  }

  function Opens(lines: seq<string>): nat
  {
    if |lines| == 0 then 0 else Opens(lines[..|lines| - 1]) + if '{' in lines[|lines| - 1] then 1 else 0
  }

  function Closes(lines: seq<string>): nat
  {
    if |lines| == 0 then 0 else Closes(lines[..|lines| - 1]) + if '}' in lines[|lines| - 1] then 1 else 0
  }

  function GivenLines(lines: seq<string>): nat
  {
    if |lines| == 0 then 0 else GivenLines(lines[..|lines| - 1]) + if YieldsGiven(lines[|lines| - 1]) then 1 else 0
  }

  /** After the reduce the depth is the number of lines holding `{` less
      the number holding `}`, and there is one pair per line that yields one. */
  lemma {:induction false} ScanCounts(lines: seq<string>)
    ensures ScanOf(lines).curlyLeft == Opens(lines) - Closes(lines)
    ensures |ScanOf(lines).res| == GivenLines(lines)
  {
    if |lines| > 0 {
      ScanCounts(lines[..|lines| - 1]);
      StepGiven(ScanOf(lines[..|lines| - 1]), lines[|lines| - 1]);
    }
  }

  /** The pairs of a prefix of the lines come first, in line order. */
  lemma {:induction false} ScanGrows(lines: seq<string>, i: nat)
    requires i <= |lines|
    ensures ScanOf(lines[..i]).res <= ScanOf(lines).res
    decreases |lines| - i
  {
    if i < |lines| {
      ScanGrows(lines[..|lines| - 1], i);
      assert lines[..|lines| - 1][..i] == lines[..i];
      StepGiven(ScanOf(lines[..|lines| - 1]), lines[|lines| - 1]);
    } else {
      assert lines[..i] == lines;
    }
  }

  // ---------------------------------------------------------------------
  // postProcess: the rewritten file
  // ---------------------------------------------------------------------

  const Header := "/*\n* This file has been generated don't modify here\n*/\n\n"
  const ArgBuilderImport := "import caliban.schema.ArgBuilder"

  /** Schema mode: the first line, the `ArgBuilder` import, the other
      lines, and the pairs. */
  function SchemaText(lines: seq<string>, givens: seq<string>): string
    requires |lines| >= 1
  {
    Header + lines[0] + "\n\n" + ArgBuilderImport + "\n" + Join(lines[1..], "\n") + "\n\n" + Join(givens, "\n") + "\n"
  }

  /** Client mode: the lines unchanged. */
  function ClientText(lines: seq<string>): string
  {
    Header + Join(lines, "\n")
  }

  function Rewrite(text: string, mode: GenMode): string
  {
    var lines := Split(text, '\n');
    match mode
    case Schema => SchemaText(lines, ScanOf(lines).res)
    case Client => ClientText(lines)
  }

  /** In client mode the file is the header followed by the original text. */
  lemma ClientKeepsText(text: string)
    ensures Rewrite(text, Client) == Header + text
  {
    JoinSplit(text, '\n');
  }

  /** In schema mode the import goes after the first line, and the first
      line and the lines after it are the original text cut at its first
      newline. */
  lemma SchemaKeepsText(text: string)
    ensures var lines := Split(text, '\n');
      && '\n' !in lines[0]
      && ('\n' !in text ==> Join(lines[1..], "\n") == "")
      && text == lines[0] + (if '\n' in text then "\n" + Join(lines[1..], "\n") else "")
  {
    var lines := Split(text, '\n');
    JoinSplit(text, '\n');
    if |lines| > 1 {
      assert text == lines[0] + "\n" + Join(lines[1..], "\n");
      assert text[|lines[0]|] == '\n';
    }
  }

  /** `postProcess`: the output file rewritten, or the failed read. */
  function PostProcessOf(c: SbtCommand, files: map<AbsPath, string>): Result<map<AbsPath, string>>
  {
    if c.out !in files then Err(FileNotFound(c.out))
    else Ok(files[c.out := Rewrite(files[c.out], c.genMode)])
  }

  method PostProcess(c: SbtCommand, files: map<AbsPath, string>) returns (r: Result<map<AbsPath, string>>)
    ensures r == PostProcessOf(c, files)
  {
    if c.out !in files {
      return Err(FileNotFound(c.out));
    }
    var outFile := Split(files[c.out], '\n');
    var text;
    if c.genMode == Schema {
      var st := Scan(outFile);
      text := SchemaText(outFile, st.res);
    } else {
      text := ClientText(outFile);
    }
    r := Ok(files[c.out := text]);
  }

  // ---------------------------------------------------------------------
  // gen
  // ---------------------------------------------------------------------

  /** `produceSbtCommand` for a fixed set of existing files. */
  function CommandWith(present: set<string>): ScalaConfig -> Result<SbtCommand>
  {
    c => CommandOf(c, present)
  }

  /** `toGen.map(produceSbtCommand)`: the first failure stops the map. */
  function CommandsOf(toGen: seq<ScalaConfig>, present: set<string>): Result<seq<SbtCommand>>
  {
    MapAll(toGen, CommandWith(present))
  }

  /** The map succeeds iff every command does, and then holds each one; it
      fails with the error of the first command that fails. */
  lemma CommandsOfSpec(toGen: seq<ScalaConfig>, present: set<string>)
    ensures CommandsOf(toGen, present).Ok? <==> forall i :: 0 <= i < |toGen| ==> CommandOf(toGen[i], present).Ok?
    ensures CommandsOf(toGen, present).Ok? ==> |CommandsOf(toGen, present).value| == |toGen|
    ensures CommandsOf(toGen, present).Ok? ==>
      forall i :: 0 <= i < |toGen| ==> CommandsOf(toGen, present).value[i] == CommandOf(toGen[i], present).value
    ensures CommandsOf(toGen, present).Err? ==>
      exists i :: 0 <= i < |toGen| && CommandOf(toGen[i], present) == Err(CommandsOf(toGen, present).error) &&
        forall j :: 0 <= j < i ==> CommandOf(toGen[j], present).Ok?
  {
    MapAllSpec(toGen, CommandWith(present));
  }

  /** `toGen_.forEach(postProcess)`: the first failure stops the rest, and
      the files rewritten before it stay rewritten. */
  function PostAllOf(cs: seq<SbtCommand>, files: map<AbsPath, string>): (map<AbsPath, string>, Option<Error>)
  {
    if |cs| == 0 then (files, None)
    else
      var (f, e) := PostAllOf(cs[..|cs| - 1], files);
      if e.Some? then (f, e)
      else match PostProcessOf(cs[|cs| - 1], f)
        case Err(x) => (f, Some(x))
        case Ok(f') => (f', None)
  }

  /** What `gen` leaves: the sbt command line it spawned, the files, and
      the failure that stopped the post-processing, if any. */
  datatype GenOut = GenOut(sbt: string, files: map<AbsPath, string>, failure: Option<Error>)

  /** `gen`: one sbt call for all configs; the files are post-processed
      only when sbt exits with code 0 (`exit` is None when it was killed). */
  function GenOf(toGen: seq<ScalaConfig>, present: set<string>, exit: Option<int>, files: map<AbsPath, string>)
    : Result<GenOut>
  {
    match CommandsOf(toGen, present)
    case Err(e) => Err(e)
    case Ok(cs) =>
      if exit == Some(0) then
        var (f, e) := PostAllOf(cs, files);
        Ok(GenOut(SbtLine(cs), f, e))
      else Ok(GenOut(SbtLine(cs), files, None))
  }

  /** `toGen.map(produceSbtCommand)` as a loop. */
  method ProduceAll(toGen: seq<ScalaConfig>, present: set<string>) returns (r: Result<seq<SbtCommand>>)
    ensures r == CommandsOf(toGen, present)
  {
    var cs: seq<SbtCommand> := [];
    var i := 0;
    while i < |toGen|
      invariant i <= |toGen|
      invariant CommandsOf(toGen[..i], present) == Ok(cs)
    {
      assert toGen[..i + 1][..i] == toGen[..i];
      var c := ProduceSbtCommand(toGen[i], present);
      if c.Err? {
        assert CommandsOf(toGen[..i + 1], present).Err?;
        CommandsErrKept(toGen, present, i + 1);
        return Err(c.error);
      }
      cs := cs + [c.value];
      i := i + 1;
    }
    assert toGen[..i] == toGen;
    r := Ok(cs);
  }

  /** `toGen_.forEach(postProcess)` as a loop. */
  method PostProcessAll(cs: seq<SbtCommand>, files: map<AbsPath, string>)
    returns (f: map<AbsPath, string>, failure: Option<Error>)
    ensures (f, failure) == PostAllOf(cs, files)
  {
    f := files;
    var j := 0;
    while j < |cs|
      invariant j <= |cs|
      invariant PostAllOf(cs[..j], files) == (f, None)
    {
      assert cs[..j + 1][..j] == cs[..j];
      var p := PostProcess(cs[j], f);
      if p.Err? {
        PostAllErrKept(cs, files, j + 1);
        return f, Some(p.error);
      }
      f := p.value;
      j := j + 1;
    }
    assert cs[..j] == cs;
    failure := None;
  }

  method Gen(toGen: seq<ScalaConfig>, present: set<string>, exit: Option<int>, files: map<AbsPath, string>)
    returns (r: Result<GenOut>)
    ensures r == GenOf(toGen, present, exit, files)
  {
    var toGen_ := ProduceAll(toGen, present);
    if toGen_.Err? {
      return Err(toGen_.error);
    }
    var sbt := SbtLine(toGen_.value);
    if exit == Some(0) {
      var f, failure := PostProcessAll(toGen_.value, files);
      r := Ok(GenOut(sbt, f, failure));
    } else {
      r := Ok(GenOut(sbt, files, None));
    }
  }

  lemma {:induction false} CommandsErrKept(toGen: seq<ScalaConfig>, present: set<string>, i: nat)
    requires i <= |toGen| && CommandsOf(toGen[..i], present).Err?
    ensures CommandsOf(toGen, present) == CommandsOf(toGen[..i], present)
    decreases |toGen| - i
  {
    if i < |toGen| {
      var front := toGen[..|toGen| - 1];
      assert front[..i] == toGen[..i];
      CommandsErrKept(front, present, i);
    } else {
      assert toGen[..i] == toGen;
    }
  }

  lemma {:induction false} PostAllErrKept(cs: seq<SbtCommand>, files: map<AbsPath, string>, j: nat)
    requires j <= |cs| && PostAllOf(cs[..j], files).1.Some?
    ensures PostAllOf(cs, files) == PostAllOf(cs[..j], files)
    decreases |cs| - j
  {
    if j < |cs| {
      var front := cs[..|cs| - 1];
      assert front[..j] == cs[..j];
      PostAllErrKept(front, files, j);
    } else {
      assert cs[..j] == cs;
    }
  }

  /** When sbt does not exit with code 0, no file is touched. */
  lemma GenFailedSbt(toGen: seq<ScalaConfig>, present: set<string>, exit: Option<int>, files: map<AbsPath, string>)
    requires exit != Some(0) && CommandsOf(toGen, present).Ok?
    ensures GenOf(toGen, present, exit, files) == Ok(GenOut(SbtLine(CommandsOf(toGen, present).value), files, None))
  {
  }

  /** Post-processing never adds or removes a file. */
  lemma {:induction false} PostAllKeys(cs: seq<SbtCommand>, files: map<AbsPath, string>)
    ensures PostAllOf(cs, files).0.Keys == files.Keys
  {
    if |cs| > 0 {
      PostAllKeys(cs[..|cs| - 1], files);
    }
  }

  /** Post-processing fails exactly when some output file is missing. */
  lemma {:induction false} PostAllFails(cs: seq<SbtCommand>, files: map<AbsPath, string>)
    ensures PostAllOf(cs, files).1.None? <==> forall i :: 0 <= i < |cs| ==> cs[i].out in files
  {
    if |cs| > 0 {
      var front := cs[..|cs| - 1];
      PostAllFails(front, files);
      PostAllKeys(front, files);
      assert forall i :: 0 <= i < |front| ==> front[i] == cs[i];
    }
  }

  /** With distinct output paths that all exist, each output file is
      rewritten once, in its own mode. */
  lemma {:induction false} PostAllRewritten(cs: seq<SbtCommand>, files: map<AbsPath, string>, i: nat)
    requires forall j :: 0 <= j < |cs| ==> cs[j].out in files
    requires forall j, k :: 0 <= j < k < |cs| ==> cs[j].out != cs[k].out
    requires i < |cs|
    ensures cs[i].out in PostAllOf(cs, files).0
    ensures PostAllOf(cs, files).0[cs[i].out] == Rewrite(files[cs[i].out], cs[i].genMode)
  {
    var front := cs[..|cs| - 1];
    var last := cs[|cs| - 1];
    assert forall j :: 0 <= j < |front| ==> front[j] == cs[j];
    PostAllKeys(front, files);
    PostAllFails(front, files);
    var f := PostAllOf(front, files).0;
    assert PostAllOf(front, files).1.None?;
    assert last.out in f;
    assert PostAllOf(cs, files).0 == f[last.out := Rewrite(f[last.out], last.genMode)];
    if i < |cs| - 1 {
      PostAllRewritten(front, files, i);
      assert cs[i].out != last.out;
    } else {
      PostAllUntouched(front, files, cs[i].out);
    }
  }

  /** A file that is no output path is left alone. */
  lemma {:induction false} PostAllUntouched(cs: seq<SbtCommand>, files: map<AbsPath, string>, p: AbsPath)
    requires p in files && forall j :: 0 <= j < |cs| ==> cs[j].out != p
    ensures p in PostAllOf(cs, files).0 && PostAllOf(cs, files).0[p] == files[p]
  {
    PostAllKeys(cs, files);
    if |cs| > 0 {
      var front := cs[..|cs| - 1];
      assert forall j :: 0 <= j < |front| ==> front[j] == cs[j];
      PostAllUntouched(front, files, p);
    }
  }
}
