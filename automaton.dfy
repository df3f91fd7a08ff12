/**
 * The `FiniteAutomaton` class of lab2.py as the determinizer reads it: a
 * flat transition table keyed by `(state, symbol)` pairs, an epsilon map
 * from a state to the states it moves to silently, a start state and a set
 * of final states. Nothing here changes an automaton once it is built.
 */
module Automata {
  import opened Names

  type Table = map<(State, Symbol), set<State>>

  datatype FiniteAutomaton = FiniteAutomaton(
    states: set<State>,
    alphabet: set<Symbol>,
    transitions: Table,
    start: State,
    finals: set<State>,
    epsilon: map<State, set<State>>)

  /** `transitions.get((s, a), [])`: a missing key means no successor. */
  function Successors(fa: FiniteAutomaton, s: State, a: Symbol): set<State> {
    if (s, a) in fa.transitions then fa.transitions[(s, a)] else {}
  }

  /** `is_deterministic` (lab2.py:153-158). */
  predicate IsDeterministic(fa: FiniteAutomaton) {
    forall s, a :: s in fa.states && a in fa.alphabet ==> |Successors(fa, s, a)| <= 1
  }

  /**
   * The automaton is not deterministic exactly when some recorded pair of
   * `states` x `alphabet` has two or more successors; a pair with no key
   * never counts against it.
   */
  lemma NondeterminismWitness(fa: FiniteAutomaton)
    ensures !IsDeterministic(fa) <==>
      exists s, a :: s in fa.states && a in fa.alphabet &&
        (s, a) in fa.transitions && |fa.transitions[(s, a)]| > 1
  {
    if !IsDeterministic(fa) {
      var s, a :| s in fa.states && a in fa.alphabet && |Successors(fa, s, a)| > 1;
      assert (s, a) in fa.transitions;
    }
  }

  /** Entries for pairs outside `states` x `alphabet` never affect the answer. */
  lemma DeterminismIgnoresOtherPairs(fa: FiniteAutomaton, s: State, a: Symbol, succ: set<State>)
    requires s !in fa.states || a !in fa.alphabet
    ensures IsDeterministic(fa.(transitions := fa.transitions[(s, a) := succ])) == IsDeterministic(fa)
  {
    var fb := fa.(transitions := fa.transitions[(s, a) := succ]);
    assert forall t, b :: t in fa.states && b in fa.alphabet ==> Successors(fb, t, b) == Successors(fa, t, b);
  }

  /** The targets recorded anywhere in the table. */
  function TransitionTargets(fa: FiniteAutomaton): set<State> {
    set k, t | k in fa.transitions && t in fa.transitions[k] :: t
  }

  /** The union, over every member of `c`, of its successors on `a` (lab2.py:189-191). */
  function Move(fa: FiniteAutomaton, c: set<State>, a: Symbol): set<State> {
    set s, t | s in c && t in Successors(fa, s, a) :: t
  }

  /**
   * The union is empty exactly when no member has a successor on `a`, so a
   * member with no key for `a` contributes nothing and raises no error; every
   * state in it is a recorded target.
   */
  lemma MoveProperties(fa: FiniteAutomaton, c: set<State>, a: Symbol)
    ensures Move(fa, c, a) == {} <==> forall s :: s in c ==> Successors(fa, s, a) == {}
    ensures Move(fa, c, a) <= TransitionTargets(fa)
  {
    if Move(fa, c, a) != {} {
      var t :| t in Move(fa, c, a);
      var s :| s in c && t in Successors(fa, s, a);
    }
    forall t | t in Move(fa, c, a)
      ensures t in TransitionTargets(fa)
    {
      var s :| s in c && t in Successors(fa, s, a);
      assert (s, a) in fa.transitions;
    }
  }

  /** Taking the union member by member: the move of a union is the union of the moves. */
  lemma MoveUnion(fa: FiniteAutomaton, c: set<State>, d: set<State>, a: Symbol)
    ensures Move(fa, c + d, a) == Move(fa, c, a) + Move(fa, d, a)
  {
  }

  /** `for state in current_state: next_state |= ...` (lab2.py:189-191). */
  method UnionOfMoves(fa: FiniteAutomaton, c: set<State>, a: Symbol) returns (next: set<State>)
    ensures next == Move(fa, c, a)
  {
    next := {};
    var remaining := c;
    while remaining != {}
      invariant remaining <= c
      invariant next == Move(fa, c - remaining, a)
    {
      var s :| s in remaining;
      MoveUnion(fa, c - remaining, {s}, a);
      next := next + Successors(fa, s, a);
      remaining := remaining - {s};
      assert c - remaining == (c - (remaining + {s})) + {s};
    }
    assert c - remaining == c;
  }
}
