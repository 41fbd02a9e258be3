/** Option and Result values for the operations of the pipeline that can fail. */
module Wrappers {

  datatype Option<+T> = None | Some(value: T)

  /** The outcome of an operation that either yields a value or raises an error. */
  datatype Result<+R, +E> = Success(value: R) | Failure(error: E)

  /**
   * A loop that applies `f` to each element in turn and collects the values,
   * until the first failure, which ends the loop with that failure.
   */
  function Collect<T, U, E>(f: T -> Result<U, E>, xs: seq<T>): Result<seq<U>, E>
  {
    if xs == [] then Success([])
    else
      match Collect(f, xs[..|xs| - 1])
      case Failure(e) => Failure(e)
      case Success(us) =>
        match f(xs[|xs| - 1])
        case Failure(e) => Failure(e)
        case Success(u) => Success(us + [u])
  }

  /** Element `j` is the first on which `f` fails. */
  predicate FirstFailure<T, U, E>(f: T -> Result<U, E>, xs: seq<T>, j: int)
  {
    && 0 <= j < |xs|
    && f(xs[j]).Failure?
    && forall k :: 0 <= k < j ==> f(xs[k]).Success?
  }

  /** Once the loop has failed, the elements after the failing one are not looked at. */
  lemma {:induction false} CollectStopsAtFailure<T, U, E>(f: T -> Result<U, E>, xs: seq<T>, i: nat)
    requires i <= |xs| && Collect(f, xs[..i]).Failure?
    ensures Collect(f, xs) == Collect(f, xs[..i])
    decreases |xs| - i
  {
    if i < |xs| {
      var init := xs[..|xs| - 1];
      assert init[..i] == xs[..i];
      CollectStopsAtFailure(f, init, i);
    } else {
      assert xs[..i] == xs;
    }
  }

  /**
   * The loop succeeds exactly when `f` succeeds on every element, and then
   * yields the values in order; otherwise it fails with the error of the first
   * element on which `f` fails.
   */
  lemma {:induction false} CollectOutcome<T, U, E>(f: T -> Result<U, E>, xs: seq<T>)
    ensures var r := Collect(f, xs);
      && (r.Success? <==> forall k :: 0 <= k < |xs| ==> f(xs[k]).Success?)
      && (r.Success? ==> (|r.value| == |xs| && forall k :: 0 <= k < |xs| ==> r.value[k] == f(xs[k]).value))
      && (r.Failure? ==> exists j :: FirstFailure(f, xs, j) && r.error == f(xs[j]).error)
  {
    if xs != [] {
      var init := xs[..|xs| - 1];
      CollectOutcome(f, init);
      assert forall k :: 0 <= k < |init| ==> init[k] == xs[k];
      var prev := Collect(f, init);
      if prev.Failure? {
        var j :| FirstFailure(f, init, j) && prev.error == f(init[j]).error;
        assert FirstFailure(f, xs, j);
      } else if f(xs[|init|]).Failure? {
        assert FirstFailure(f, xs, |init|);
      }
    }
  }

  /** When element `j` is the first on which `f` fails, the loop fails with its error. */
  lemma CollectFirstFailure<T, U, E>(f: T -> Result<U, E>, xs: seq<T>, j: int)
    requires FirstFailure(f, xs, j)
    ensures Collect(f, xs) == Failure(f(xs[j]).error)
  {
    CollectOutcome(f, xs);
    var r := Collect(f, xs);
    assert r.Failure?;
    var i :| FirstFailure(f, xs, i) && r.error == f(xs[i]).error;
    assert i == j;
  }
}
