/** Option and Result: JavaScript's `undefined` results and thrown errors, as values. */
module Wrappers {
  datatype Option<T> = None | Some(value: T)

  datatype Result<T> = Success(value: T) | Failure(error: string)

  /** `xs.map(f)` where `f` may throw: every result when none fails, otherwise the error of the first that does. */
  function MapAll<A, B>(xs: seq<A>, f: A --> Result<B>): (r: Result<seq<B>>)
    requires forall i :: 0 <= i < |xs| ==> f.requires(xs[i])
    ensures r.Success? <==> forall i :: 0 <= i < |xs| ==> f(xs[i]).Success?
    ensures r.Success? ==> |r.value| == |xs| && forall i :: 0 <= i < |xs| ==> r.value[i] == f(xs[i]).value
    ensures r.Failure? ==> exists i :: (0 <= i < |xs| && f(xs[i]).Failure? && r.error == f(xs[i]).error
      && forall j :: 0 <= j < i ==> f(xs[j]).Success?)
  {
    if xs == [] then Success([])
    else
      match f(xs[0])
      case Failure(e) => Failure(e)
      case Success(first) =>
        assert forall i :: 1 <= i < |xs| ==> xs[i] == xs[1..][i - 1];
        match MapAll(xs[1..], f)
        case Failure(e) =>
          assert exists i :: (1 <= i < |xs| && f(xs[i]).Failure? && e == f(xs[i]).error
            && forall j :: 1 <= j < i ==> f(xs[j]).Success?);
          Failure(e)
        case Success(rest) => Success([first] + rest)
  }
}
