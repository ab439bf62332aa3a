/** Sequences of states in which each follows from the one before it, for any kind of state, event
    and transition. */
module Chains {

  /** Every state follows from the one before it by the event between them. */
  ghost predicate IsChain<S(!new), E(!new)>(start: S, moves: (S, E, S) -> bool, events: seq<E>, states: seq<S>) {
    && |states| == |events| + 1 && states[0] == start
    && forall i :: 0 <= i < |events| ==> moves(states[i], events[i], states[i + 1])
  }

  lemma ExtendChain<S(!new), E(!new)>(start: S, moves: (S, E, S) -> bool, events: seq<E>, states: seq<S>, e: E, s': S)
    requires IsChain(start, moves, events, states) && moves(states[|events|], e, s')
    ensures IsChain(start, moves, events + [e], states + [s'])
  {
    var events', states' := events + [e], states + [s'];
    forall i | 0 <= i < |events'|
      ensures moves(states'[i], events'[i], states'[i + 1])
    {
      assert states'[i] == states[i];
      assert i < |events| ==> events'[i] == events[i] && states'[i + 1] == states[i + 1];
    }
  }

  lemma CutChain<S(!new), E(!new)>(start: S, moves: (S, E, S) -> bool, events: seq<E>, states: seq<S>)
    requires IsChain(start, moves, events, states) && events != []
    ensures var n := |events| - 1;
            IsChain(start, moves, events[..n], states[..n + 1]) && moves(states[n], events[n], states[n + 1])
  {
  }

  /** How often a property comes to hold along the states. */
  function Rises<S>(states: seq<S>, has: S -> bool): nat {
    if |states| < 2 then 0
    else
      var n := |states| - 1;
      Rises(states[..n], has) + if !has(states[n - 1]) && has(states[n]) then 1 else 0
  }

  lemma RisesMore<S>(states: seq<S>, s': S, has: S -> bool)
    requires states != []
    ensures Rises(states + [s'], has)
            == Rises(states, has) + if !has(states[|states| - 1]) && has(s') then 1 else 0
  {
    assert (states + [s'])[..|states|] == states;
  }

  /** The calls applied one after the other. */
  function Fold<S, A>(s: S, f: (S, A) -> S, calls: seq<A>): S {
    if calls == [] then s else f(Fold(s, f, calls[..|calls| - 1]), calls[|calls| - 1])
  }

  lemma {:induction false} ChainIsFold<S, A>(states: seq<S>, f: (S, A) -> S, calls: seq<A>)
    requires |states| == |calls| + 1
    requires forall i :: 0 <= i < |calls| ==> states[i + 1] == f(states[i], calls[i])
    ensures states[|calls|] == Fold(states[0], f, calls)
    decreases |calls|
  {
    if calls != [] {
      var n := |calls| - 1;
      ChainIsFold(states[..n + 1], f, calls[..n]);
      assert states[n + 1] == f(states[n], calls[n]);
    }
  }
}
