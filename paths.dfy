/** Paths as sequences of segments: what `path.resolve`, `path.join`,
    `path.dirname` and `path.basename` do to absolute paths, and the
    output-path pattern the Scala generator derives package names from. */
module Paths {
  import opened Wrappers
  import opened Strings

  /** An absolute, normalised path as its segments: `/a/b` is `["a", "b"]` and `/` is `[]`. */
  type AbsPath = seq<string>

  predicate NoSlash(segs: seq<string>)
  {
    forall i :: 0 <= i < |segs| ==> '/' !in segs[i]
  }

  /** What `path.resolve` leaves: no empty, `.` or `..` segment, and no `/` inside one. */
  predicate Normal(p: seq<string>)
  {
    NoSlash(p) && forall i :: 0 <= i < |p| ==> p[i] != "" && p[i] != "." && p[i] != ".."
  }

  /** Appends segments to a directory as `path.resolve` does: empty and `.`
      segments vanish, `..` drops the last segment and stops at `/`. */
  function Normalize(dir: AbsPath, segs: seq<string>): (r: AbsPath)
    requires Normal(dir) && NoSlash(segs)
    ensures Normal(r)
    decreases |segs|
  {
    if |segs| == 0 then dir
    else if segs[0] == "" || segs[0] == "." then Normalize(dir, segs[1..])
    else if segs[0] == ".." then Normalize(if |dir| == 0 then dir else dir[..|dir| - 1], segs[1..])
    else Normalize(dir + [segs[0]], segs[1..])
  }

  /** Segments that are already normal are appended unchanged. */
  lemma {:induction false} NormalizeNormal(dir: AbsPath, segs: seq<string>)
    requires Normal(dir) && Normal(segs)
    ensures Normalize(dir, segs) == dir + segs
    decreases |segs|
  {
    if |segs| > 0 {
      assert Normal(segs[1..]) by {
        forall i | 0 <= i < |segs[1..]| ensures segs[1..][i] == segs[i + 1] { }
      }
      NormalizeNormal(dir + [segs[0]], segs[1..]);
      assert dir + [segs[0]] + segs[1..] == dir + segs;
    }
  }

  predicate IsAbsolute(p: string)
  {
    |p| > 0 && p[0] == '/'
  }

  /** `path.resolve(dir, p)` for an absolute `dir`. */
  function Resolve(dir: AbsPath, p: string): AbsPath
    requires Normal(dir)
  {
    Normalize(if IsAbsolute(p) then [] else dir, Split(p, '/'))
  }

  /** `path.join(dir, rel)` for an absolute `dir`: `rel` is appended even when it starts with `/`. */
  function JoinPath(dir: AbsPath, rel: string): AbsPath
    requires Normal(dir)
  {
    Normalize(dir, Split(rel, '/'))
  }

  /** The path as the string Node.js prints. */
  function Render(p: AbsPath): string
  {
    "/" + Join(p, "/")
  }

  /** `path.dirname`; the root is its own directory. */
  function Dirname(p: AbsPath): (r: AbsPath)
    ensures Normal(p) ==> Normal(r)
  {
    if |p| == 0 then [] else p[..|p| - 1]
  }

  /** `path.basename`; the root has the empty name. */
  function Basename(p: AbsPath): string
  {
    if |p| == 0 then "" else p[|p| - 1]
  }

  /** Resolving the printed form of a normalised path, from any directory,
      gives the path back: re-running the node constructor on paths it has
      already resolved changes nothing. */
  lemma ResolveRender(dir: AbsPath, p: AbsPath)
    requires Normal(dir) && Normal(p)
    ensures Resolve(dir, Render(p)) == p
  {
    var j := Join(p, "/");
    SplitAfter("", '/', j);
    assert "" + ['/'] + j == Render(p);
    if |p| == 0 {
      assert Split(Render(p), '/') == ["", ""];
      assert ["", ""][1..] == [""];
      assert Normalize([], ["", ""]) == Normalize([], [""]);
    } else {
      SplitJoin(p, '/');
      NormalizeNormal([], p);
      assert Split(Render(p), '/') == [""] + p;
      assert ([""] + p)[1..] == p;
    }
  }

  /** A segment the pattern `(?:scala|play.*|app)[^\/]*` can start at. */
  predicate IsMarker(seg: string)
  {
    StartsWith(seg, "scala") || StartsWith(seg, "play") || StartsWith(seg, "app")
  }

  /** A last segment `(.*).scala` matches: `scala` after at least one character. */
  predicate ScalaFileName(seg: string)
  {
    exists k :: 1 <= k <= |seg| && At(seg, k, "scala")
  }

  /** The last index below `hi` holding a marker segment. */
  function LastMarker(out: AbsPath, hi: nat): (r: Option<nat>)
    requires hi <= |out|
    ensures r.Some? ==> r.value < hi && IsMarker(out[r.value])
    ensures r.Some? ==> forall j :: r.value < j < hi ==> !IsMarker(out[j])
    ensures r.None? ==> forall j :: 0 <= j < hi ==> !IsMarker(out[j])
  {
    if hi == 0 then None
    else if IsMarker(out[hi - 1]) then Some(hi - 1)
    else LastMarker(out, hi - 1)
  }

  /** The package `/.*\/(?:scala|play.*|app)[^\/]*\/(.*)\/(.*).scala/` captures in
      the rendered path, with `/` turned into `.`, or None when it does not match.
      The greedy leading `.*` picks the last marker segment followed by at least
      two more segments; after a `play…` marker the greedy `play.*` leaves only
      the second-to-last segment to the capture. */
  function PackageOf(out: AbsPath): Option<string>
  {
    if |out| < 3 || !ScalaFileName(out[|out| - 1]) then None
    else match LastMarker(out, |out| - 2)
      case None => None
      case Some(j) =>
        if StartsWith(out[j], "play") then Some(out[|out| - 2])
        else Some(Join(out[j + 1..|out| - 1], "."))
  }

  /** The last marker below `hi` is the one after which no marker follows. */
  lemma {:induction false} LastMarkerIs(out: AbsPath, k: nat, hi: nat)
    requires k < hi <= |out| && IsMarker(out[k])
    requires forall j :: k < j < hi ==> !IsMarker(out[j])
    ensures LastMarker(out, hi) == Some(k)
    decreases hi
  {
    if hi - 1 != k {
      LastMarkerIs(out, k, hi - 1);
    }
  }

  /** The package is read after the last marker that has two segments after it. */
  lemma PackageOfAt(out: AbsPath, k: nat)
    requires k + 2 < |out| && IsMarker(out[k]) && !StartsWith(out[k], "play")
    requires forall j :: k < j < |out| - 2 ==> !IsMarker(out[j])
    requires ScalaFileName(out[|out| - 1])
    ensures PackageOf(out) == Some(Join(out[k + 1..|out| - 1], "."))
  {
    LastMarkerIs(out, k, |out| - 2);
  }

  /** On `…/scala/<p1>/…/<pn>/<F>.scala` the package is `p1.….pn`
      (with no marker among p1 … p(n-1)). */
  lemma PackageOfLayout(prefix: AbsPath, marker: string, pkgs: seq<string>, file: string)
    requires IsMarker(marker) && !StartsWith(marker, "play")
    requires |pkgs| >= 1 && ScalaFileName(file)
    requires forall i :: 0 <= i < |pkgs| - 1 ==> !IsMarker(pkgs[i])
    ensures PackageOf(prefix + [marker] + pkgs + [file]) == Some(Join(pkgs, "."))
  {
    var out := prefix + [marker] + pkgs + [file];
    var k := |prefix|;
    assert out[k] == marker;
    assert out[|out| - 1] == file;
    forall j | k < j < |out| - 2 ensures !IsMarker(out[j]) {
      assert out[j] == pkgs[j - k - 1];
    }
    assert out[k + 1..|out| - 1] == pkgs;
    PackageOfAt(out, k);
  }

  /** `getImportsFromOut`: the wildcard and `given` imports of the package an
      output path belongs to; a path off the pattern fails like the source's
      non-null assertion. */
  function ImportsFromOut(out: AbsPath): (r: Result<seq<string>>)
    ensures r.Ok? <==> PackageOf(out).Some?
    ensures r.Ok? ==> r.value == [PackageOf(out).value + ".Types.*", PackageOf(out).value + ".given"]
    ensures r.Err? ==> r.error == PatternMismatch(out)
  {
    match PackageOf(out)
    case Some(pkg) => Ok([pkg + ".Types.*", pkg + ".given"])
    case None => Err(PatternMismatch(out))
  }
}
