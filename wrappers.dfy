/** Option and Result values, and the errors the generator can stop with. */
module Wrappers {

  datatype Option<T> = None | Some(value: T)

  /** Every way a run can fail. Each of them aborts the whole run: nothing is swallowed. */
  datatype Error =
    | NoSource(node: string)                              // a node without `source` was asked to run
    | MissingDependency(node: string, imported: seq<string>) // an `# import` names no declared dependency
    | FileNotFound(path: seq<string>)                     // a file could not be read
    | SchemaLoadFailed(path: seq<string>)                 // a schema could not be loaded
    | FragmentLoadFailed(node: string, paths: seq<seq<string>>) // fragment documents could not be loaded
    | PatternMismatch(path: seq<string>)                  // a non-null assertion on a failed regex match
    | NotADirectory(path: seq<string>)                    // a directory listing of a file
    | IsADirectory(path: seq<string>)                     // a file read of a directory

  datatype Result<T> = Ok(value: T) | Err(error: Error)

  /** Applies `f` to each element in order; the first failure is the result. */
  function MapAll<A, B>(xs: seq<A>, f: A -> Result<B>): Result<seq<B>>
  {
    if |xs| == 0 then Ok([])
    else
      match MapAll(xs[..|xs| - 1], f)
      case Err(e) => Err(e)
      case Ok(ys) =>
        match f(xs[|xs| - 1])
        case Err(e) => Err(e)
        case Ok(y) => Ok(ys + [y])
  }

  /** The map succeeds iff every element does, and then holds each result;
      a failure is the failure of some element before which all succeed. */
  lemma {:induction false} MapAllSpec<A, B>(xs: seq<A>, f: A -> Result<B>)
    ensures MapAll(xs, f).Ok? <==> forall i :: 0 <= i < |xs| ==> f(xs[i]).Ok?
    ensures MapAll(xs, f).Ok? ==> |MapAll(xs, f).value| == |xs|
    ensures MapAll(xs, f).Ok? ==> forall i :: 0 <= i < |xs| ==> MapAll(xs, f).value[i] == f(xs[i]).value
    ensures MapAll(xs, f).Err? ==>
      exists i :: 0 <= i < |xs| && f(xs[i]) == Err(MapAll(xs, f).error) && forall j :: 0 <= j < i ==> f(xs[j]).Ok?
  {
    if |xs| > 0 {
      var front := xs[..|xs| - 1];
      MapAllSpec(front, f);
      assert forall i :: 0 <= i < |front| ==> front[i] == xs[i];
      if MapAll(xs, f).Err? && MapAll(front, f).Ok? {
        assert f(xs[|xs| - 1]) == Err(MapAll(xs, f).error);
      }
    }
  }
}
