/**
 * `FiniteAutomaton.epsilon_closure`: the states reachable from a given set
 * by zero or more epsilon moves, found with a worklist.
 *
 * `ReachSet` is the specification: the reachable states, as paths. The
 * lemmas show it is the least epsilon-closed superset of its argument, and
 * therefore extensive, closed, idempotent and monotone; the method computes
 * exactly it.
 */
module Closure {
  import opened Names
  import opened Automata

  type EpsilonMap = map<State, set<State>>

  /** Every state some epsilon move leads to. */
  function EpsTargets(eps: EpsilonMap): set<State> {
    set s, t | s in eps && t in eps[s] :: t
  }

  /** A non-empty sequence of states, each an epsilon successor of the one before. */
  ghost predicate IsEpsPath(eps: EpsilonMap, p: seq<State>) {
    |p| > 0 && forall i :: 0 <= i < |p| - 1 ==> p[i + 1] in EpsSuccessors(eps, p[i])
  }

  ghost predicate Reachable(eps: EpsilonMap, from: set<State>, x: State) {
    exists p :: IsEpsPath(eps, p) && p[0] in from && p[|p| - 1] == x
  }

  /** The epsilon closure of `from`. */
  ghost function ReachSet(eps: EpsilonMap, from: set<State>): set<State> {
    set x | x in from + EpsTargets(eps) && Reachable(eps, from, x)
  }

  /** `epsilon_transitions.get(state, [])`: a missing key means no epsilon move. */
  function EpsSuccessors(eps: EpsilonMap, x: State): set<State> {
    if x in eps then eps[x] else {}
  }

  /** No epsilon move leaves `r`. */
  ghost predicate Closed(eps: EpsilonMap, r: set<State>) {
    forall s {:trigger EpsSuccessors(eps, s)} :: s in r ==> EpsSuccessors(eps, s) <= r
  }

  lemma ReachableStep(eps: EpsilonMap, from: set<State>, x: State, y: State)
    requires Reachable(eps, from, x) && x in eps && y in eps[x]
    ensures Reachable(eps, from, y)
  {
    var p :| IsEpsPath(eps, p) && p[0] in from && p[|p| - 1] == x;
    assert IsEpsPath(eps, p + [y]);
  }

  /** A path that starts inside a closed set stays inside it. */
  lemma {:induction false} PathStaysInClosed(eps: EpsilonMap, r: set<State>, p: seq<State>)
    requires Closed(eps, r) && IsEpsPath(eps, p) && p[0] in r
    ensures p[|p| - 1] in r
    decreases |p|
  {
    if |p| > 1 {
      var init := p[..|p| - 1];
      assert IsEpsPath(eps, init);
      PathStaysInClosed(eps, r, init);
      assert p[|p| - 1] in EpsSuccessors(eps, p[|p| - 2]);
    }
  }

  /** Every input state is in its closure. */
  lemma ReachSetExtensive(eps: EpsilonMap, from: set<State>)
    ensures from <= ReachSet(eps, from)
  {
    forall x | x in from
      ensures x in ReachSet(eps, from)
    {
      assert IsEpsPath(eps, [x]);
    }
  }

  /** The closure admits no epsilon move out of it. */
  lemma ReachSetClosed(eps: EpsilonMap, from: set<State>)
    ensures Closed(eps, ReachSet(eps, from))
  {
    forall x, y | x in ReachSet(eps, from) && y in EpsSuccessors(eps, x)
      ensures y in ReachSet(eps, from)
    {
      ReachableStep(eps, from, x, y);
    }
  }

  /** The closure lies inside every closed superset of the input: it is the least one. */
  lemma ReachSetLeast(eps: EpsilonMap, from: set<State>, r: set<State>)
    requires Closed(eps, r) && from <= r
    ensures ReachSet(eps, from) <= r
  {
    forall x | x in ReachSet(eps, from)
      ensures x in r
    {
      var p :| IsEpsPath(eps, p) && p[0] in from && p[|p| - 1] == x;
      PathStaysInClosed(eps, r, p);
    }
  }

  /** Closing twice adds nothing. */
  lemma ReachSetIdempotent(eps: EpsilonMap, from: set<State>)
    ensures ReachSet(eps, ReachSet(eps, from)) == ReachSet(eps, from)
  {
    var r := ReachSet(eps, from);
    ReachSetExtensive(eps, r);
    ReachSetClosed(eps, from);
    ReachSetLeast(eps, r, r);
  }

  /** A larger input has a larger closure. */
  lemma ReachSetMonotone(eps: EpsilonMap, from: set<State>, more: set<State>)
    requires from <= more
    ensures ReachSet(eps, from) <= ReachSet(eps, more)
  {
    ReachSetExtensive(eps, more);
    ReachSetClosed(eps, more);
    ReachSetLeast(eps, from, ReachSet(eps, more));
  }

  /** With the default empty epsilon map (lab2.py:104) the closure is the input itself. */
  lemma ReachSetWithoutEpsilon(from: set<State>)
    ensures ReachSet(map[], from) == from
  {
    ReachSetExtensive(map[], from);
    ReachSetLeast(map[], from, from);
  }

  /** The closure holds only input states and epsilon targets. */
  lemma ReachSetBounded(eps: EpsilonMap, from: set<State>)
    ensures ReachSet(eps, from) <= from + EpsTargets(eps)
  {
  }

  /** Python's `list(states)` for a set: its members in some order, each once. */
  method ListOf(s: set<State>) returns (xs: seq<State>)
    ensures forall x :: x in xs <==> x in s
    ensures |xs| == |s|
  {
    xs := [];
    var remaining := s;
    while remaining != {}
      invariant remaining <= s
      invariant forall x :: x in xs <==> x in s - remaining
      invariant |xs| == |s - remaining|
    {
      var x :| x in remaining;
      xs := xs + [x];
      remaining := remaining - {x};
      assert s - remaining == (s - (remaining + {x})) + {x};
    }
  }

  /** Popping the last element of a stack leaves the rest in order. */
  lemma LastSplit<T>(s: seq<T>)
    requires |s| > 0
    ensures s == s[..|s| - 1] + [s[|s| - 1]]
    ensures forall x :: x in s ==> x in s[..|s| - 1] || x == s[|s| - 1]
  {
  }

  /** A proper subset is smaller (used for the worklist termination measures). */
  lemma ProperSubsetSmaller<T>(a: set<T>, b: set<T>)
    requires a < b
    ensures |a| < |b|
  {
    assert b == a + (b - a);
    var x :| x in b - a;
    assert a <= b - {x};
  }

  /** A closed superset of the input made of reachable states is the closure. */
  lemma ClosedReachableIsReachSet(eps: EpsilonMap, from: set<State>, r: set<State>)
    requires from <= r <= from + EpsTargets(eps)
    requires AllReachable(eps, from, r) && Closed(eps, r)
    ensures r == ReachSet(eps, from)
  {
    ReachSetLeast(eps, from, r);
  }

  ghost predicate AllReachable(eps: EpsilonMap, from: set<State>, r: set<State>) {
    forall x :: x in r ==> Reachable(eps, from, x)
  }

  /**
   * The inner loop of `epsilon_closure` (lab2.py:165-168): every epsilon
   * successor of `state` not yet in the closure joins it and is pushed.
   */
  method PushNewTargets(eps: EpsilonMap, ghost from: set<State>, state: State,
                        closure0: set<State>, work0: seq<State>)
    returns (closure: set<State>, work: seq<State>)
    requires state in closure0 && AllReachable(eps, from, closure0)
    ensures closure0 <= closure
    ensures EpsSuccessors(eps, state) <= closure <= closure0 + EpsSuccessors(eps, state)
    ensures AllReachable(eps, from, closure)
    ensures |work| >= |work0| && work[..|work0|] == work0
    ensures forall x :: x in work ==> x in work0 || x in closure - closure0
    ensures forall x :: x in closure - closure0 ==> x in work
    ensures closure == closure0 ==> work == work0
  {
    closure, work := closure0, work0;
    var targets := EpsSuccessors(eps, state);
    var remaining := targets;
    while remaining != {}
      invariant remaining <= targets
      invariant closure0 <= closure <= closure0 + (targets - remaining)
      invariant targets - remaining <= closure
      invariant AllReachable(eps, from, closure)
      invariant |work| >= |work0| && work[..|work0|] == work0
      invariant forall x :: x in work ==> x in work0 || x in closure - closure0
      invariant forall x :: x in closure - closure0 ==> x in work
      invariant closure == closure0 ==> work == work0
    {
      var target :| target in remaining;
      remaining := remaining - {target};
      if target !in closure {
        ReachableStep(eps, from, state, target);
        closure := closure + {target};
        work := work + [target];
      }
    }
  }

  /**
   * The invariant of the outer loop of `epsilon_closure`: the closure holds
   * the input, only reachable states, and every state whose epsilon moves
   * have not been followed yet is still on the worklist.
   */
  ghost predicate WorklistInvariant(eps: EpsilonMap, from: set<State>, closure: set<State>, work: seq<State>) {
    && from <= closure <= from + EpsTargets(eps)
    && (forall x :: x in work ==> x in closure)
    && AllReachable(eps, from, closure)
    && forall x {:trigger EpsSuccessors(eps, x)} ::
         x in closure && x !in work ==> EpsSuccessors(eps, x) <= closure
  }

  /**
   * Popping `state` and pushing its new epsilon successors keeps the
   * invariant, and either grows the closure or shortens the worklist.
   */
  lemma PushKeepsInvariant(eps: EpsilonMap, from: set<State>, state: State,
                           before: set<State>, rest: seq<State>,
                           closure: set<State>, work: seq<State>)
    requires WorklistInvariant(eps, from, before, rest + [state])
    requires before <= closure
    requires EpsSuccessors(eps, state) <= closure <= before + EpsSuccessors(eps, state)
    requires AllReachable(eps, from, closure)
    requires |work| >= |rest| && work[..|rest|] == rest
    requires forall x :: x in work ==> x in rest || x in closure - before
    requires forall x :: x in closure - before ==> x in work
    requires closure == before ==> work == rest
    ensures WorklistInvariant(eps, from, closure, work)
    ensures closure == before ==> |work| < |rest + [state]|
    ensures closure != before ==>
      |from + EpsTargets(eps) - closure| < |from + EpsTargets(eps) - before|
  {
    var universe := from + EpsTargets(eps);
    assert EpsSuccessors(eps, state) <= EpsTargets(eps);
    forall x | x in rest
      ensures x in work
    {
      var i :| 0 <= i < |rest| && rest[i] == x;
      assert work[i] == x;
    }
    forall x | x in closure && x !in work
      ensures EpsSuccessors(eps, x) <= closure
    {
      if x != state {
        assert x in before && x !in rest + [state];
      }
    }
    if closure != before {
      ProperSubsetSmaller(universe - closure, universe - before);
    }
  }

  /** `epsilon_closure` (lab2.py:160-169). */
  method EpsilonClosure(fa: FiniteAutomaton, states: set<State>) returns (closure: set<State>)
    ensures closure == ReachSet(fa.epsilon, states)
  {
    var eps := fa.epsilon;
    closure := states;
    var unprocessed := ListOf(states);
    forall x | x in closure
      ensures Reachable(eps, states, x)
    {
      assert IsEpsPath(eps, [x]);
    }
    while unprocessed != []
      invariant WorklistInvariant(eps, states, closure, unprocessed)
      decreases |states + EpsTargets(eps) - closure|, |unprocessed|
    {
      LastSplit(unprocessed);
      var state := unprocessed[|unprocessed| - 1];
      ghost var before := closure;
      unprocessed := unprocessed[..|unprocessed| - 1];
      ghost var rest := unprocessed;
      closure, unprocessed := PushNewTargets(eps, states, state, closure, unprocessed);
      PushKeepsInvariant(eps, states, state, before, rest, closure, unprocessed);
    }
    ClosedReachableIsReachSet(eps, states, closure);
  }
}
