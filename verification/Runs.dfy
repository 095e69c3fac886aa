/** Runs of a state machine: finite sequences of states in which each state follows from the one before. */
module Runs {

  ghost predicate IsRun<S(!new)>(run: seq<S>, init: S -> bool, step: (S, S) -> bool)
  {
    && |run| > 0 && init(run[0])
    && (forall k :: 0 < k < |run| ==> step(run[k - 1], run[k]))
  }

  /** What holds initially and is kept by every step holds in every state of every run. */
  lemma {:induction false} InvariantHolds<S(!new)>(run: seq<S>, init: S -> bool, step: (S, S) -> bool,
                                                  inv: S -> bool, n: nat)
    requires IsRun(run, init, step) && n < |run|
    requires forall s :: init(s) ==> inv(s)
    requires forall s, t :: inv(s) && step(s, t) ==> inv(t)
    ensures inv(run[n])
  {
    if n > 0 {
      InvariantHolds(run, init, step, inv, n - 1);
      assert step(run[n - 1], run[n]);
    }
  }
}
