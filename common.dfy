/** Shared vocabulary of the model: Go's error returns as `Result`, nil-able
    pointers as `Option`, the unsigned byte type, and the "first failure aborts
    the whole loop" pattern that every mapping loop of the gateway follows. */
module Common {

  datatype Option<+T> = None | Some(value: T)

  datatype Result<+T, +E> = Ok(value: T) | Err(error: E)

  /** Go's `uint8` (and `byte`). */
  newtype uint8 = x: int | 0 <= x < 256

  /** The opaque error of an upstream HTTP client (transport failure, non-200
      status or undecodable body); the model never looks inside it. */
  datatype ClientError = ClientError(message: string)

  /** Where an element-wise mapping stopped: the index of the first element
      whose conversion failed, and that conversion's error. */
  datatype Failure<+E> = Failure(index: nat, cause: E)

  /** Converts every element in order, the way the source's
      `for i, x := range xs { y, err := f(x); if err != nil { return nil, err } ... }`
      loops do: either every conversion succeeds and the results keep the
      order of the input, or the first failing element decides the error and
      no partial list is returned. */
  function Traverse<A, B, E>(f: A -> Result<B, E>, xs: seq<A>): (r: Result<seq<B>, Failure<E>>)
    ensures r.Ok? <==> forall k :: 0 <= k < |xs| ==> f(xs[k]).Ok?
    ensures r.Ok? ==> |r.value| == |xs| && forall k :: 0 <= k < |xs| ==> f(xs[k]) == Ok(r.value[k])
    ensures r.Err? ==>
              && r.error.index < |xs|
              && f(xs[r.error.index]) == Err(r.error.cause)
              && forall k :: 0 <= k < r.error.index ==> f(xs[k]).Ok?
  {
    if |xs| == 0 then Ok([])
    else
      match f(xs[0])
      case Err(e) => Err(Failure(0, e))
      case Ok(y) =>
        match Traverse(f, xs[1..])
        case Err(fl) => Err(Failure(fl.index + 1, fl.cause))
        case Ok(ys) => Ok([y] + ys)
  }

  /** The first failing element, at `i`, decides the error. */
  lemma TraverseFirstFailure<A, B, E>(f: A -> Result<B, E>, xs: seq<A>, i: nat, e: E)
    requires i < |xs|
    requires forall k :: 0 <= k < i ==> f(xs[k]).Ok?
    requires f(xs[i]) == Err(e)
    ensures Traverse(f, xs) == Err(Failure(i, e))
  {
    var r := Traverse(f, xs);
    assert r.Err?;
    assert r.error.index == i;
  }

  /** When every element converts, the results are those conversions, in
      order. */
  lemma TraverseAllOk<A, B, E>(f: A -> Result<B, E>, xs: seq<A>, ys: seq<B>)
    requires |ys| == |xs|
    requires forall k :: 0 <= k < |xs| ==> f(xs[k]) == Ok(ys[k])
    ensures Traverse(f, xs) == Ok(ys)
  {
    var r := Traverse(f, xs);
    assert r.Ok?;
    assert r.value == ys;
  }
}
