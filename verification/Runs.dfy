/** Runs of any state machine: the state after a sequence of steps. */
module Runs {

  ghost function Run<S, T>(next: (S, T) -> S, start: S, steps: seq<T>): S {
    if steps == [] then start else next(Run(next, start, steps[..|steps| - 1]), steps[|steps| - 1])
  }

  lemma RunOneMore<S, T>(next: (S, T) -> S, start: S, steps: seq<T>, i: nat)
    requires i < |steps|
    ensures Run(next, start, steps[..i + 1]) == next(Run(next, start, steps[..i]), steps[i])
  {
    assert steps[..i + 1][..i] == steps[..i];
  }

  /** A run can be cut anywhere. */
  lemma {:induction false} RunSplits<S, T>(next: (S, T) -> S, start: S, steps: seq<T>, i: nat, j: nat)
    requires i <= j <= |steps|
    ensures Run(next, start, steps[..j]) == Run(next, Run(next, start, steps[..i]), steps[i..j])
  {
    if i < j {
      RunSplits(next, start, steps, i, j - 1);
      RunOneMore(next, start, steps, j - 1);
      assert steps[i..j][..j - 1 - i] == steps[i..j - 1];
    }
  }
}
