/** Induction over the states of a run. */
module Runs {

  /** What holds at first and is kept by every step holds at every moment. */
  lemma {:induction false} Induction<S>(states: seq<S>, inv: S -> bool, n: nat)
    requires n < |states| && inv(states[0])
    requires forall i :: 0 < i <= n ==> inv(states[i - 1]) ==> inv(states[i])
    ensures inv(states[n])
  {
    if n > 0 { Induction(states, inv, n - 1); }
  }
}
