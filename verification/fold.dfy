/** A left-to-right pass over a sequence that applies a fallible step to each
    element in turn, replaces the element with the step's result, and stops at
    the first failure without undoing earlier replacements. */
module Fold {
  import opened Wrappers

  /** The sequence after the pass and the error that stopped it, if any. */
  datatype Outcome<T, E> = Outcome(items: seq<T>, err: Option<E>)

  /** Index of the first element whose step fails, or `|xs|` if none does. */
  function FirstFailure<T, E>(step: T -> Result<T, E>, xs: seq<T>): (k: nat)
    ensures k <= |xs|
    ensures forall i :: 0 <= i < k ==> step(xs[i]).Success?
    ensures k < |xs| ==> step(xs[k]).Failure?
  {
    if |xs| == 0 then 0
    else if step(xs[0]).Failure? then 0
    else 1 + FirstFailure(step, xs[1..])
  }

  /** Elements before the first failure are replaced by their step results,
      the failing element and all later ones are left as they were, and the
      error is the failing element's; with no failure every element is
      replaced and no error is returned. */
  function Run<T, E>(step: T -> Result<T, E>, xs: seq<T>): (r: Outcome<T, E>)
    ensures |r.items| == |xs|
    ensures var k := FirstFailure(step, xs);
            && (forall i :: 0 <= i < k ==> r.items[i] == step(xs[i]).value)
            && r.items[k..] == xs[k..]
            && (r.err.None? <==> k == |xs|)
            && (k < |xs| ==> r.err == Some(step(xs[k]).error))
  {
    if |xs| == 0 then
      Outcome([], None)
    else
      match step(xs[0])
      case Failure(e) => Outcome(xs, Some(e))
      case Success(x) =>
        var rest := Run(step, xs[1..]);
        var k := FirstFailure(step, xs[1..]);
        assert FirstFailure(step, xs) == k + 1;
        assert xs[k + 1..] == xs[1..][k..];
        assert ([x] + rest.items)[k + 1..] == rest.items[k..];
        Outcome([x] + rest.items, rest.err)
  }

  /** The pass as an indexed loop over the first `n` elements, each
      replacement made in place, returning at the first failure. It computes
      exactly `Run`. */
  method RunLoop<T, E>(step: T -> Result<T, E>, xs: seq<T>, n: nat) returns (items: seq<T>, err: Option<E>)
    requires n == |xs|
    ensures Outcome(items, err) == Run(step, xs)
  {
    ghost var r := Run(step, xs);
    items := xs;
    var i := 0;
    while i < n
      invariant 0 <= i <= n && |items| == n
      invariant i <= FirstFailure(step, xs)
      invariant forall j :: 0 <= j < i ==> items[j] == step(xs[j]).value
      invariant items[i..] == xs[i..]
    {
      assert items[i] == xs[i] by { assert items[i..][0] == xs[i..][0]; }
      var s := step(items[i]);
      if s.Failure? {
        err := Some(s.error);
        assert items == r.items by {
          assert forall j :: 0 <= j < i ==> items[j] == r.items[j];
          assert forall j :: i <= j < |items| ==> items[j] == items[i..][j - i] == r.items[i..][j - i];
        }
        return;
      }
      items := items[i := s.value];
      i := i + 1;
    }
    err := None;
    assert items == r.items;
  }

  /** If re-applying the step to any of its own results reproduces that
      result, running the pass again over its own output reproduces the same
      sequence and the same error. */
  lemma {:induction false} RunIdempotent<T, E>(step: T -> Result<T, E>, xs: seq<T>)
    requires forall x :: step(x).Success? ==> step(step(x).value) == step(x)
    ensures Run(step, Run(step, xs).items) == Run(step, xs)
    decreases |xs|
  {
    if |xs| > 0 && step(xs[0]).Success? {
      var rest := Run(step, xs[1..]);
      var out := [step(xs[0]).value] + rest.items;
      assert out[1..] == rest.items;
      RunIdempotent(step, xs[1..]);
    }
  }
}
