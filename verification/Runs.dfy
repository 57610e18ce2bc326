// Stepping back along a run, for any kind of state.
module Runs {
  import opened Wrappers
  import opened Bytes

  /** Apply `back` at heights `top - 1`, `top - 2`, ... for `count` steps or down to height 0. */
  function UnwindBy<S, E>(back: (S, u32) -> Result<S, E>, s: S, top: nat, count: nat): Result<S, E>
    requires top <= U32_RANGE
    decreases count
  {
    if count == 0 || top == 0 then Ok(s)
    else
      var below :- back(s, top - 1);
      UnwindBy(back, below, top - 1, count - 1)
  }

  datatype RunStep<S, B> = RunStep(before: S, height: u32, block: B, after: S)

  /** Consecutive heights, each step starting where the previous one ended. */
  predicate Linked<S(==), B>(steps: seq<RunStep<S, B>>) {
    forall i :: 0 < i < |steps| ==>
      steps[i].before == steps[i - 1].after && steps[i].height == steps[i - 1].height + 1
  }

  ghost predicate Reversible<S, B, E>(back: (S, u32) -> Result<S, E>, s: RunStep<S, B>) {
    back(s.after, s.height) == Ok(s.before)
  }

  lemma {:induction false} LinkedHeights<S, B>(steps: seq<RunStep<S, B>>, i: nat)
    requires Linked(steps) && i < |steps|
    ensures steps[i].height == steps[0].height + i
  {
    if i > 0 { LinkedHeights(steps, i - 1); }
  }

  /** If every step is reversible, stepping back from the end reaches every earlier state. */
  lemma {:induction false} UnwindLinked<S, B, E>(
      back: (S, u32) -> Result<S, E>, steps: seq<RunStep<S, B>>, keep: nat)
    requires Linked(steps) && keep < |steps|
    requires forall i :: 0 <= i < |steps| ==> Reversible(back, steps[i])
    ensures var top := steps[|steps| - 1];
            UnwindBy(back, top.after, top.height + 1, |steps| - keep) == Ok(steps[keep].before)
    decreases |steps|
  {
    var n := |steps| - 1;
    assert Reversible(back, steps[n]);
    if keep < n {
      LinkedHeights(steps, n - 1);
      UnwindLinked(back, steps[..n], keep);
      assert steps[..n][n - 1] == steps[n - 1];
    }
  }

  /** Feed `xs` to `f` in order, starting from `s`. */
  function Fold<S, X>(f: (S, X) -> S, s: S, xs: seq<X>): S {
    if |xs| == 0 then s else f(Fold(f, s, xs[..|xs| - 1]), xs[|xs| - 1])
  }

  lemma {:induction false} FoldSnoc<S, X>(f: (S, X) -> S, s: S, xs: seq<X>, x: X)
    ensures Fold(f, s, xs + [x]) == f(Fold(f, s, xs), x)
  {
    assert (xs + [x])[..|xs|] == xs;
  }
}
