/**
 * `FiniteAutomaton.to_dfa`: the powerset (subset) construction over the
 * flat `(state, symbol)` table, with a last-in-first-out worklist of
 * composite states, a visited set, and the empty string dropped from the
 * working alphabet.
 *
 * A composite state is the SET of automaton states it stands for, so two
 * composites with the same members are the same key wherever the source
 * compares them (the visited guard and the worklist membership test).
 */
module SubsetConstruction {
  import opened Names
  import opened Automata
  import opened Closure

  type Composite = set<State>
  type CompositeTable = map<(Composite, Symbol), Composite>

  /**
   * An element of the `states` field the construction builds: it gathers
   * the plain members of every transition source and, beside them, the final
   * composites themselves.
   */
  datatype StateEntry = Plain(name: State) | Whole(members: Composite)

  /** The automaton `to_dfa` builds; `finals` is a list and may repeat a composite. */
  datatype SubsetAutomaton = SubsetAutomaton(
    states: set<StateEntry>,
    alphabet: set<Symbol>,
    transitions: CompositeTable,
    start: Composite,
    finals: seq<Composite>,
    epsilon: EpsilonMap)

  /** `to_dfa` either returns the automaton itself or a new one. */
  datatype Determinized = Unchanged(original: FiniteAutomaton) | Constructed(dfa: SubsetAutomaton)

  /** `set(self.alphabet) - {""}` (lab2.py:179). */
  function WorkingAlphabet(fa: FiniteAutomaton): set<Symbol> {
    fa.alphabet - {""}
  }

  /** The composite reached from `c` on `a`: the closure of the union of the members' moves. */
  ghost function Step(fa: FiniteAutomaton, c: Composite, a: Symbol): Composite {
    ReachSet(fa.epsilon, Move(fa, c, a))
  }

  /** Every state a composite can hold: the start state, transition and epsilon targets. */
  function Universe(fa: FiniteAutomaton): set<State> {
    {fa.start} + TransitionTargets(fa) + EpsTargets(fa.epsilon)
  }

  ghost function Subsets(u: set<State>): set<Composite> {
    set c: Composite | c <= u
  }

  /** `any(state in self.final_states for state in c)` (lab2.py:197). */
  predicate HasFinal(fa: FiniteAutomaton, c: Composite) {
    c * fa.finals != {}
  }

  /** The `states` field of the result (lab2.py:201), taken literally. */
  function StatesField(t: CompositeTable, finals: seq<Composite>): set<StateEntry> {
    (set k, s | k in t && s in k.0 :: Plain(s)) + (set c | c in finals :: Whole(c))
  }

  ghost predicate IsTarget(t: CompositeTable, c: Composite) {
    exists k :: k in t && t[k] == c
  }

  /** Adding keys to a table keeps every old target a target. */
  lemma TargetsGrow(t0: CompositeTable, t: CompositeTable)
    requires t0.Keys <= t.Keys
    requires forall k :: k in t0 ==> t[k] == t0[k]
    ensures forall c :: IsTarget(t0, c) ==> IsTarget(t, c)
  {
    forall c | IsTarget(t0, c)
      ensures IsTarget(t, c)
    {
      var k :| k in t0 && t0[k] == c;
      assert t[k] == c;
    }
  }

  /** `c` is the target of an entry of `t` that `t0` does not have. */
  ghost predicate NewTarget(t0: CompositeTable, t: CompositeTable, c: Composite) {
    exists k :: k in t && k !in t0 && t[k] == c
  }

  /** A new target is a target. */
  lemma NewTargetIsTarget(t0: CompositeTable, t: CompositeTable)
    ensures forall c :: NewTarget(t0, t, c) ==> IsTarget(t, c)
  {
    forall c | NewTarget(t0, t, c)
      ensures IsTarget(t, c)
    {
      var k :| k in t && k !in t0 && t[k] == c;
    }
  }

  /** Every recorded transition is a non-empty step on a working symbol. */
  ghost predicate Recorded(fa: FiniteAutomaton, t: CompositeTable) {
    forall k :: k in t ==>
      k.1 in WorkingAlphabet(fa) && Move(fa, k.0, k.1) != {} && t[k] == Step(fa, k.0, k.1)
  }

  /**
   * The composite a step reaches holds every state the move reaches, admits
   * no epsilon move out of it, and never leaves the universe.
   */
  lemma StepProperties(fa: FiniteAutomaton, c: Composite, a: Symbol)
    ensures Move(fa, c, a) <= Step(fa, c, a)
    ensures Closed(fa.epsilon, Step(fa, c, a))
    ensures Step(fa, c, a) <= Universe(fa)
  {
    ReachSetExtensive(fa.epsilon, Move(fa, c, a));
    ReachSetClosed(fa.epsilon, Move(fa, c, a));
    MoveProperties(fa, c, a);
    ReachSetBounded(fa.epsilon, Move(fa, c, a));
  }

  /** The start composite stays in the universe too. */
  lemma StartInUniverse(fa: FiniteAutomaton)
    ensures ReachSet(fa.epsilon, {fa.start}) <= Universe(fa)
  {
    ReachSetBounded(fa.epsilon, {fa.start});
  }

  /**
   * What expanding `current` does: the old entries stay; the new ones are
   * exactly the non-empty steps from `current` on every working symbol; each
   * new target is on the worklist, and it is listed as final when it holds a
   * final state; nothing else joins either list.
   */
  ghost predicate ExpandsTo(fa: FiniteAutomaton, current: Composite,
                            t0: CompositeTable, pending0: seq<Composite>, finals0: seq<Composite>,
                            t: CompositeTable, pending: seq<Composite>, finals: seq<Composite>)
  {
    && t0.Keys <= t.Keys
    && (forall k :: k in t0 ==> t[k] == t0[k])
    && (forall k :: k in t && k !in t0 ==>
          k.0 == current && k.1 in WorkingAlphabet(fa) && Move(fa, current, k.1) != {} &&
          t[k] == Step(fa, current, k.1))
    && (forall a :: a in WorkingAlphabet(fa) && Move(fa, current, a) != {} ==> (current, a) in t)
    && (forall c :: c in pending0 ==> c in pending)
    && (forall c :: c in pending ==> c in pending0 || NewTarget(t0, t, c))
    && (forall k :: k in t && k !in t0 ==> t[k] in pending)
    && (forall c :: c in finals0 ==> c in finals)
    && (forall c :: c in finals ==> c in finals0 || (NewTarget(t0, t, c) && HasFinal(fa, c)))
    && (forall k :: k in t && k !in t0 && HasFinal(fa, t[k]) ==> t[k] in finals)
  }

  /**
   * The body of the `for symbol in alphabet` loop of `to_dfa`
   * (lab2.py:188-198) for one composite `current` that has not been
   * expanded before.
   */
  method Expand(fa: FiniteAutomaton, current: Composite,
                t0: CompositeTable, pending0: seq<Composite>, finals0: seq<Composite>)
    returns (t: CompositeTable, pending: seq<Composite>, finals: seq<Composite>)
    requires forall k :: k in t0 ==> k.0 != current
    ensures ExpandsTo(fa, current, t0, pending0, finals0, t, pending, finals)
  {
    t, pending, finals := t0, pending0, finals0;
    var alphabet := WorkingAlphabet(fa);
    var remaining := alphabet;
    while remaining != {}
      invariant remaining <= alphabet
      invariant t0.Keys <= t.Keys
      invariant forall k :: k in t0 ==> t[k] == t0[k]
      invariant forall k :: k in t && k !in t0 ==>
        k.0 == current && k.1 in alphabet - remaining && Move(fa, current, k.1) != {} &&
        t[k] == Step(fa, current, k.1)
      invariant forall a :: a in alphabet - remaining && Move(fa, current, a) != {} ==> (current, a) in t
      invariant forall c :: c in pending0 ==> c in pending
      invariant forall c :: c in pending ==> c in pending0 || NewTarget(t0, t, c)
      invariant forall k :: k in t && k !in t0 ==> t[k] in pending
      invariant forall c :: c in finals0 ==> c in finals
      invariant forall c :: c in finals ==> c in finals0 || (NewTarget(t0, t, c) && HasFinal(fa, c))
      invariant forall k :: k in t && k !in t0 && HasFinal(fa, t[k]) ==> t[k] in finals
    {
      var symbol :| symbol in remaining;
      remaining := remaining - {symbol};
      var next := UnionOfMoves(fa, current, symbol);
      if next != {} {
        var nextClosure := EpsilonClosure(fa, next);
        ghost var before := t;
        t := t[(current, symbol) := nextClosure];
        TargetsGrow(before, t);
        assert (current, symbol) in t && t[(current, symbol)] == nextClosure;
        if nextClosure !in pending {
          pending := pending + [nextClosure];
        }
        if HasFinal(fa, nextClosure) {
          finals := finals + [nextClosure];
        }
      }
    }
  }

  /** The invariant of the worklist loop of `to_dfa` (lab2.py:182-198). */
  ghost predicate LoopInvariant(fa: FiniteAutomaton, start: Composite, t: CompositeTable,
                                unmarked: seq<Composite>, finals: seq<Composite>,
                                visited: set<Composite>)
  {
    && Recorded(fa, t)
    && (forall k :: k in t ==> k.0 in visited)
    && (forall c, a :: c in visited && a in WorkingAlphabet(fa) && Move(fa, c, a) != {} ==> (c, a) in t)
    && (forall c :: c in visited ==> c <= Universe(fa))
    && (forall c :: c in unmarked ==> c <= Universe(fa))
    && (forall k :: k in t ==> t[k] in visited || t[k] in unmarked)
    && (start in visited || start in unmarked)
    && (forall c :: c in unmarked ==> c == start || IsTarget(t, c))
    && (forall c :: c in visited ==> c == start || IsTarget(t, c))
    && (forall c :: c in finals ==> IsTarget(t, c) && HasFinal(fa, c))
    && (forall k :: k in t && HasFinal(fa, t[k]) ==> t[k] in finals)
  }

  /** A visited composite popped again changes nothing. */
  lemma SkipKeepsInvariant(fa: FiniteAutomaton, start: Composite, t: CompositeTable,
                           unmarked: seq<Composite>, finals: seq<Composite>, visited: set<Composite>)
    requires |unmarked| > 0 && unmarked[|unmarked| - 1] in visited
    requires LoopInvariant(fa, start, t, unmarked, finals, visited)
    ensures LoopInvariant(fa, start, t, unmarked[..|unmarked| - 1], finals, visited)
  {
    LastSplit(unmarked);
  }

  /** Expanding a new composite keeps the invariant. */
  lemma ExpandKeepsInvariant(fa: FiniteAutomaton, start: Composite,
                             t0: CompositeTable, unmarked0: seq<Composite>, finals0: seq<Composite>,
                             visited0: set<Composite>, current: Composite,
                             t: CompositeTable, pending: seq<Composite>, finals: seq<Composite>)
    requires |unmarked0| > 0 && current == unmarked0[|unmarked0| - 1] && current !in visited0
    requires LoopInvariant(fa, start, t0, unmarked0, finals0, visited0)
    requires ExpandsTo(fa, current, t0, unmarked0[..|unmarked0| - 1], finals0, t, pending, finals)
    ensures LoopInvariant(fa, start, t, pending, finals, visited0 + {current})
  {
    LastSplit(unmarked0);
    var rest := unmarked0[..|unmarked0| - 1];
    var visited := visited0 + {current};
    forall k | k in t
      ensures t[k] <= Universe(fa)
    {
      StepProperties(fa, k.0, k.1);
    }
    TargetsGrow(t0, t);
    NewTargetIsTarget(t0, t);
    forall k | k in t
      ensures t[k] in visited || t[k] in pending
    {
      if k in t0 {
        assert t0[k] in visited0 || t0[k] in unmarked0;
        if t0[k] !in visited0 && t0[k] != current {
          assert t0[k] in rest;
        }
      }
    }
    forall c | c in pending
      ensures c <= Universe(fa)
    {
      if c !in rest {
        var k :| k in t && k !in t0 && t[k] == c;
      }
    }
    assert start in visited || start in rest || start == current;
  }

  /** The start composite and every transition target admit no epsilon move out of them. */
  lemma CompositesAreClosed(fa: FiniteAutomaton, t: CompositeTable, cs: seq<Composite>)
    requires Recorded(fa, t)
    requires forall c :: c in cs ==> c == ReachSet(fa.epsilon, {fa.start}) || IsTarget(t, c)
    ensures forall c :: c in cs ==> Closed(fa.epsilon, c)
  {
    forall c | c in cs
      ensures Closed(fa.epsilon, c)
    {
      if c == ReachSet(fa.epsilon, {fa.start}) {
        ReachSetClosed(fa.epsilon, {fa.start});
      } else {
        var k :| k in t && t[k] == c;
        StepProperties(fa, k.0, k.1);
      }
    }
  }

  /**
   * `cs` is a chain of steps along `syms`: each composite is the step of
   * the one before on a working symbol whose move is non-empty, which is
   * how lab2.py:188-196 discovers composites.
   */
  ghost predicate IsStepChain(fa: FiniteAutomaton, cs: seq<Composite>, syms: seq<Symbol>) {
    && |cs| == |syms| + 1
    && forall i :: 0 <= i < |syms| ==>
         syms[i] in WorkingAlphabet(fa) && Move(fa, cs[i], syms[i]) != {} &&
         cs[i + 1] == Step(fa, cs[i], syms[i])
  }

  /** `c` is reached from `start` by a chain of steps. */
  ghost predicate Discovered(fa: FiniteAutomaton, start: Composite, c: Composite) {
    exists cs, syms :: IsStepChain(fa, cs, syms) && cs[0] == start && cs[|cs| - 1] == c
  }

  /** The start is discovered by the empty chain. */
  lemma DiscoveredStart(fa: FiniteAutomaton, start: Composite)
    ensures Discovered(fa, start, start)
  {
    assert IsStepChain(fa, [start], []);
  }

  /** A non-empty step from a discovered composite is discovered. */
  lemma DiscoveredStep(fa: FiniteAutomaton, start: Composite, c: Composite, a: Symbol)
    requires Discovered(fa, start, c)
    requires a in WorkingAlphabet(fa) && Move(fa, c, a) != {}
    ensures Discovered(fa, start, Step(fa, c, a))
  {
    var cs, syms :| IsStepChain(fa, cs, syms) && cs[0] == start && cs[|cs| - 1] == c;
    var longer, along := cs + [Step(fa, c, a)], syms + [a];
    forall i | 0 <= i < |along|
      ensures along[i] in WorkingAlphabet(fa) && Move(fa, longer[i], along[i]) != {} &&
              longer[i + 1] == Step(fa, longer[i], along[i])
    {
      if i < |syms| {
        assert longer[i] == cs[i] && longer[i + 1] == cs[i + 1] && along[i] == syms[i];
      }
    }
    assert IsStepChain(fa, longer, along);
  }

  /**
   * The other direction: when the start is expanded, every non-empty step of
   * an expanded composite is recorded, and every target is expanded, then
   * every composite reached by a chain of steps is expanded.
   */
  lemma {:induction false} DiscoveredIsExpanded(fa: FiniteAutomaton, start: Composite, t: CompositeTable,
                                                expanded: seq<Composite>, c: Composite)
    requires start in expanded
    requires Recorded(fa, t)
    requires forall d, a :: d in expanded && a in WorkingAlphabet(fa) && Move(fa, d, a) != {} ==> (d, a) in t
    requires forall d :: IsTarget(t, d) ==> d in expanded
    requires Discovered(fa, start, c)
    ensures c in expanded
  {
    var cs, syms :| IsStepChain(fa, cs, syms) && cs[0] == start && cs[|cs| - 1] == c;
    ChainInExpanded(fa, t, expanded, cs, syms, |cs| - 1);
  }

  lemma {:induction false} ChainInExpanded(fa: FiniteAutomaton, t: CompositeTable, expanded: seq<Composite>,
                                           cs: seq<Composite>, syms: seq<Symbol>, n: nat)
    requires IsStepChain(fa, cs, syms) && n < |cs| && cs[0] in expanded
    requires Recorded(fa, t)
    requires forall d, a :: d in expanded && a in WorkingAlphabet(fa) && Move(fa, d, a) != {} ==> (d, a) in t
    requires forall d :: IsTarget(t, d) ==> d in expanded
    ensures cs[n] in expanded
  {
    if n > 0 {
      ChainInExpanded(fa, t, expanded, cs, syms, n - 1);
      var k := (cs[n - 1], syms[n - 1]);
      assert k in t && t[k] == cs[n];
    }
  }

  ghost predicate AllDiscovered(fa: FiniteAutomaton, start: Composite, visited: set<Composite>) {
    forall c :: c in visited ==> Discovered(fa, start, c)
  }

  /**
   * A composite popped from the worklist is the start or a target of a
   * visited composite, so it is discovered.
   */
  lemma PoppedIsDiscovered(fa: FiniteAutomaton, start: Composite, t: CompositeTable,
                           unmarked: seq<Composite>, visited: set<Composite>, current: Composite)
    requires Recorded(fa, t)
    requires forall k :: k in t ==> k.0 in visited
    requires forall c :: c in unmarked ==> c == start || IsTarget(t, c)
    requires current in unmarked
    requires AllDiscovered(fa, start, visited)
    ensures Discovered(fa, start, current)
  {
    if current == start {
      DiscoveredStart(fa, start);
    } else {
      var k :| k in t && t[k] == current;
      DiscoveredStep(fa, start, k.0, k.1);
    }
  }

  /** The ghost record of expanded composites lists the visited set, each once. */
  ghost predicate ExpandedOnce(expanded: seq<Composite>, visited: set<Composite>) {
    && (forall i, j :: 0 <= i < j < |expanded| ==> expanded[i] != expanded[j])
    && (forall c :: c in expanded <==> c in visited)
  }

  /** Marking a new composite of the universe as visited leaves fewer subsets unvisited. */
  lemma MarkMakesProgress(u: set<State>, visited0: set<Composite>, expanded0: seq<Composite>,
                          current: Composite)
    requires current <= u && current !in visited0
    requires ExpandedOnce(expanded0, visited0)
    ensures ExpandedOnce(expanded0 + [current], visited0 + {current})
    ensures |Subsets(u) - (visited0 + {current})| < |Subsets(u) - visited0|
  {
    assert current in Subsets(u);
    ProperSubsetSmaller(Subsets(u) - (visited0 + {current}), Subsets(u) - visited0);
  }

  /**
   * One iteration of the worklist loop of `to_dfa` (lab2.py:184-198): pop
   * the last composite; skip it if visited, else mark and expand it. Either
   * the visited set grows by a subset of the universe or the worklist shrinks.
   */
  method Visit(fa: FiniteAutomaton, start: Composite,
               t0: CompositeTable, unmarked0: seq<Composite>, finals0: seq<Composite>,
               visited0: set<Composite>, ghost expanded0: seq<Composite>)
    returns (t: CompositeTable, unmarked: seq<Composite>, finals: seq<Composite>,
             visited: set<Composite>, ghost expanded: seq<Composite>)
    requires unmarked0 != []
    requires LoopInvariant(fa, start, t0, unmarked0, finals0, visited0)
    requires ExpandedOnce(expanded0, visited0)
    requires AllDiscovered(fa, start, visited0)
    ensures LoopInvariant(fa, start, t, unmarked, finals, visited)
    ensures ExpandedOnce(expanded, visited)
    ensures AllDiscovered(fa, start, visited)
    ensures || |Subsets(Universe(fa)) - visited| < |Subsets(Universe(fa)) - visited0|
            || (visited == visited0 && |unmarked| < |unmarked0|)
  {
    var current := unmarked0[|unmarked0| - 1];
    LastSplit(unmarked0);
    unmarked := unmarked0[..|unmarked0| - 1];
    if current in visited0 {
      SkipKeepsInvariant(fa, start, t0, unmarked0, finals0, visited0);
      t, finals, visited, expanded := t0, finals0, visited0, expanded0;
      return;
    }
    visited := visited0 + {current};
    expanded := expanded0 + [current];
    MarkMakesProgress(Universe(fa), visited0, expanded0, current);
    PoppedIsDiscovered(fa, start, t0, unmarked0, visited0, current);
    t, unmarked, finals := Expand(fa, current, t0, unmarked, finals0);
    ExpandKeepsInvariant(fa, start, t0, unmarked0, finals0, visited0, current, t, unmarked, finals);
  }

  /**
   * The worklist loop of `to_dfa` (lab2.py:176-198), from the start
   * composite: the table it records, the final composites it lists, and
   * (as a ghost) the composites it expands, in order.
   */
  method Explore(fa: FiniteAutomaton, start: Composite)
    returns (transitions: CompositeTable, finals: seq<Composite>, ghost expanded: seq<Composite>)
    requires start == ReachSet(fa.epsilon, {fa.start})
    ensures Recorded(fa, transitions)
    ensures forall i, j :: 0 <= i < j < |expanded| ==> expanded[i] != expanded[j]
    ensures forall c :: c in expanded <==> c == start || IsTarget(transitions, c)
    ensures forall k :: k in transitions ==> k.0 in expanded
    ensures forall c, a :: c in expanded && a in WorkingAlphabet(fa) && Move(fa, c, a) != {} ==>
      (c, a) in transitions
    ensures forall c :: c in finals ==> IsTarget(transitions, c) && HasFinal(fa, c)
    ensures forall k :: k in transitions && HasFinal(fa, transitions[k]) ==> transitions[k] in finals
    ensures forall c :: c in expanded ==> Discovered(fa, start, c)
  {
    expanded := [];
    transitions := map[];
    var unmarked := [start];
    finals := [];
    var visited: set<Composite> := {};
    StartInUniverse(fa);
    while unmarked != []
      invariant LoopInvariant(fa, start, transitions, unmarked, finals, visited)
      invariant ExpandedOnce(expanded, visited)
      invariant AllDiscovered(fa, start, visited)
      decreases |Subsets(Universe(fa)) - visited|, |unmarked|
    {
      transitions, unmarked, finals, visited, expanded :=
        Visit(fa, start, transitions, unmarked, finals, visited, expanded);
    }
  }

  /** `FiniteAutomaton.to_dfa` (lab2.py:171-207). */
  method ToDfa(fa: FiniteAutomaton) returns (res: Determinized, ghost expanded: seq<Composite>)
    ensures IsDeterministic(fa) <==> res.Unchanged?
    ensures res.Unchanged? ==> res.original == fa
    ensures res.Constructed? ==>
      var d := res.dfa;
      && d.start == ReachSet(fa.epsilon, {fa.start})
      && d.alphabet == fa.alphabet
      && d.epsilon == fa.epsilon
      && d.states == StatesField(d.transitions, d.finals)
      // every recorded transition (C, a) -> C' has a != "" and C' the closure of the non-empty move
      && (forall k :: k in d.transitions ==>
            k.1 in fa.alphabet && k.1 != "" && Move(fa, k.0, k.1) != {} &&
            d.transitions[k] == ReachSet(fa.epsilon, Move(fa, k.0, k.1)))
      // the expanded composites are the start and the transition targets, each expanded once
      && (forall i, j :: 0 <= i < j < |expanded| ==> expanded[i] != expanded[j])
      && (forall c :: c in expanded <==> c == d.start || IsTarget(d.transitions, c))
      && (forall k :: k in d.transitions ==> k.0 in expanded)
      // and each is reached from the start by a chain of recorded steps
      && (forall c :: c in expanded ==> Discovered(fa, d.start, c))
      && (forall c :: c in expanded ==> Closed(fa.epsilon, c))
      && (forall c, a :: c in expanded && a in fa.alphabet && a != "" && Move(fa, c, a) != {} ==>
            (c, a) in d.transitions)
      // final composites are exactly the transition targets holding a final state
      && (forall c :: c in d.finals ==> IsTarget(d.transitions, c) && HasFinal(fa, c))
      && (forall k :: k in d.transitions && HasFinal(fa, d.transitions[k]) ==> d.transitions[k] in d.finals)
  {
    expanded := [];
    if IsDeterministic(fa) {
      return Unchanged(fa), expanded;
    }
    var start := EpsilonClosure(fa, {fa.start});
    var transitions, finals;
    transitions, finals, expanded := Explore(fa, start);
    CompositesAreClosed(fa, transitions, expanded);
    res := Constructed(SubsetAutomaton(StatesField(transitions, finals), fa.alphabet, transitions,
                                       start, finals, fa.epsilon));
  }

  /** The automaton `main` builds (lab2.py:213-229); it has no epsilon moves. */
  function DemoAutomaton(): FiniteAutomaton {
    FiniteAutomaton(
      {"q0", "q1", "q2", "q3"},
      {"a", "b", "c"},
      map[("q1", "b") := {"q1"}, ("q1", "a") := {"q2"}, ("q3", "c") := {"q3"}, ("q0", "a") := {"q1", "q0"}],
      "q0",
      {"q3"},
      map[])
  }

  /** `is_deterministic` is False for it: "q0" has two successors on "a". */
  lemma DemoIsNotDeterministic()
    ensures !IsDeterministic(DemoAutomaton())
  {
    var fa := DemoAutomaton();
    assert Successors(fa, "q0", "a") == {"q1", "q0"};
    assert "q0" != "q1";
    assert |Successors(fa, "q0", "a")| == 2;
  }

  /** Its start composite is {q0}, and {q0} goes to {q0, q1} on "a". */
  lemma DemoFirstSteps()
    ensures ReachSet(DemoAutomaton().epsilon, {DemoAutomaton().start}) == {"q0"}
    ensures Step(DemoAutomaton(), {"q0"}, "a") == {"q0", "q1"}
  {
    var fa := DemoAutomaton();
    ReachSetWithoutEpsilon({"q0"});
    DemoMoveOnA();
    ReachSetWithoutEpsilon({"q0", "q1"});
  }

  /** Only "q0" moves on "a" from {q0}, to both "q0" and "q1". */
  lemma DemoMoveOnA()
    ensures Move(DemoAutomaton(), {"q0"}, "a") == {"q0", "q1"}
  {
    var fa := DemoAutomaton();
    var succ := Successors(fa, "q0", "a");
    assert succ == {"q1", "q0"};
    forall t | t in Move(fa, {"q0"}, "a")
      ensures t in succ
    {
      var s :| s in {"q0"} && t in Successors(fa, s, "a");
    }
    forall t | t in succ
      ensures t in Move(fa, {"q0"}, "a")
    {
    }
  }
}
