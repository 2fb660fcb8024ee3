/** Histories: the states a component went through, with the log of what happened between them. */
module Runs {

  /** states[i] is the state before event i. */
  ghost predicate History<S, E>(happens: (S, E, S) -> bool, states: seq<S>, log: seq<E>) {
    && |states| == |log| + 1
    && forall i {:trigger log[i]} :: 0 <= i < |log| ==> happens(states[i], log[i], states[i + 1])
  }

  lemma HistoryGrows<S, E>(happens: (S, E, S) -> bool, states: seq<S>, log: seq<E>, e: E, t: S)
    requires History(happens, states, log) && happens(states[|log|], e, t)
    ensures History(happens, states + [t], log + [e])
  {
    var states', log' := states + [t], log + [e];
    forall i | 0 <= i < |log'|
      ensures happens(states'[i], log'[i], states'[i + 1])
    {
      if i < |log| {
        assert happens(states[i], log[i], states[i + 1]);
      }
    }
  }

  lemma HistoryFront<S, E>(happens: (S, E, S) -> bool, states: seq<S>, log: seq<E>, n: nat)
    requires History(happens, states, log) && n <= |log|
    ensures History(happens, states[..n + 1], log[..n])
  {
    forall i | 0 <= i < n
      ensures happens(states[..n + 1][i], log[..n][i], states[..n + 1][i + 1])
    {
      assert happens(states[i], log[i], states[i + 1]);
    }
  }
}
