/** Runs of a deterministic step function over a sequence of inputs. */
module Folds {
  function Fold<S, I, O>(step: (S, I) -> (S, O), s: S, inputs: seq<I>): (r: (S, seq<O>))
    ensures |r.1| == |inputs|
    decreases |inputs|
  {
    if inputs == [] then (s, [])
    else
      var (s', out) := step(s, inputs[0]);
      var (s'', outs) := Fold(step, s', inputs[1..]);
      (s'', [out] + outs)
  }

  /** A run over `a + b` is a run over `a` continued over `b`. */
  lemma {:induction false} FoldAppend<S, I, O>(step: (S, I) -> (S, O), s: S, a: seq<I>, b: seq<I>)
    ensures var (s', outs) := Fold(step, s, a);
      var (s'', outs') := Fold(step, s', b);
      Fold(step, s, a + b) == (s'', outs + outs')
    decreases |a|
  {
    if a == [] {
      assert a + b == b;
      assert [] + Fold(step, s, b).1 == Fold(step, s, b).1;
    } else {
      assert (a + b)[1..] == a[1..] + b;
      var (s1, out) := step(s, a[0]);
      FoldAppend(step, s1, a[1..], b);
      var (s2, outs) := Fold(step, s1, a[1..]);
      assert [out] + (outs + Fold(step, s2, b).1) == [out] + outs + Fold(step, s2, b).1;
    }
  }
}
