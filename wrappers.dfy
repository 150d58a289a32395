/** Failure-carrying values shared by the other modules, and the two ways the
    source walks a sequence while an exception may stop it. */
module Wrappers {

  datatype Option<T> = None | Some(value: T)

  /** The outcome of an operation that can raise: a value, or the error raised. */
  datatype Result<T, E> = Ok(value: T) | Err(error: E)

  /** Applies `f` to each element in order and collects the values; the first
      failure stops the walk and is the result. */
  function Traverse<X, Y, E>(f: X -> Result<Y, E>, xs: seq<X>): (r: Result<seq<Y>, E>)
    ensures r.Ok? <==> forall i :: 0 <= i < |xs| ==> f(xs[i]).Ok?
    ensures r.Ok? ==> |r.value| == |xs| && forall i :: 0 <= i < |xs| ==> f(xs[i]) == Ok(r.value[i])
    decreases |xs|
  {
    if xs == [] then Ok([])
    else
      match Traverse(f, xs[..|xs| - 1])
      case Err(e) => Err(e)
      case Ok(init) =>
        match f(xs[|xs| - 1])
        case Err(e) => Err(e)
        case Ok(y) => Ok(init + [y])
  }

  /** The failure reported is the one of the first element that fails. */
  lemma {:induction false} TraverseFirstError<X, Y, E>(f: X -> Result<Y, E>, xs: seq<X>, i: nat)
    requires i < |xs| && f(xs[i]).Err?
    requires forall j :: 0 <= j < i ==> f(xs[j]).Ok?
    ensures Traverse(f, xs) == Err(f(xs[i]).error)
    decreases |xs|
  {
    var last := |xs| - 1;
    if i < last {
      TraverseFirstError(f, xs[..last], i);
    } else {
      assert Traverse(f, xs[..last]).Ok?;
    }
  }

  /** One more successful element extends the collected values by its value. */
  lemma TraverseExtend<X, Y, E>(f: X -> Result<Y, E>, xs: seq<X>, i: nat, ys: seq<Y>, y: Y)
    requires i < |xs| && Traverse(f, xs[..i]) == Ok(ys) && f(xs[i]) == Ok(y)
    ensures Traverse(f, xs[..i + 1]) == Ok(ys + [y])
  {
    assert xs[..i + 1][..i] == xs[..i];
  }

  /** The loop that applies `f` to each element in turn and appends its value,
      returning at the first failure. */
  method TraverseLoop<X, Y, E>(f: X -> Result<Y, E>, xs: seq<X>) returns (r: Result<seq<Y>, E>)
    ensures r == Traverse(f, xs)
  {
    var results: seq<Y> := [];
    for i := 0 to |xs|
      invariant Traverse(f, xs[..i]) == Ok(results)
    {
      var y := f(xs[i]);
      if y.Err? {
        TraverseFirstError(f, xs, i);
        return Err(y.error);
      }
      TraverseExtend(f, xs, i, results, y.value);
      results := results + [y.value];
    }
    assert xs[..|xs|] == xs;
    r := Ok(results);
  }

  /** Runs `step` over the elements in order from `init`; the first failure
      stops the run and is the result. */
  function Fold<S, X, E>(step: (S, X) -> Result<S, E>, init: S, xs: seq<X>): Result<S, E>
    decreases |xs|
  {
    if xs == [] then Ok(init)
    else
      match Fold(step, init, xs[..|xs| - 1])
      case Err(e) => Err(e)
      case Ok(s) => step(s, xs[|xs| - 1])
  }

  /** One more element runs one more step on the state reached so far. */
  lemma FoldExtend<S, X, E>(step: (S, X) -> Result<S, E>, init: S, xs: seq<X>, i: nat, s: S)
    requires i < |xs| && Fold(step, init, xs[..i]) == Ok(s)
    ensures Fold(step, init, xs[..i + 1]) == step(s, xs[i])
  {
    assert xs[..i + 1][..i] == xs[..i];
  }

  /** Once a prefix of the run has failed, the whole run fails the same way. */
  lemma {:induction false} FoldErrorSticks<S, X, E>(step: (S, X) -> Result<S, E>, init: S, xs: seq<X>, k: nat)
    requires k <= |xs| && Fold(step, init, xs[..k]).Err?
    ensures Fold(step, init, xs) == Fold(step, init, xs[..k])
    decreases |xs| - k
  {
    if k < |xs| {
      assert xs[..k + 1][..k] == xs[..k];
      FoldErrorSticks(step, init, xs, k + 1);
    } else {
      assert xs[..k] == xs;
    }
  }
}
