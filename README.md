# Grammar to NFA to DFA, modelled in Dafny

This project models the core of `lab2.py`, a small formal-language toolkit
with two classes:

- `Grammar` checks that a grammar is right-linear (`is_regular`) and builds
  an automaton from it (`to_ndfa`).
- `FiniteAutomaton` tells whether it is deterministic (`is_deterministic`),
  computes epsilon closures (`epsilon_closure`) and determinizes itself by
  the subset construction (`to_dfa`).

Each core file follows the form of the code it models:

- `names.dfy` (module `Names`): state and symbol names. It also holds the
  state names `f"q{i}"` and the substring test `"S" in state` that decides
  which states are final.
- `grammar.dfy` (module `Grammars`): the `Grammar` value and `is_regular`.
  `is_regular` is a read-only loop with an early return, modelled as a
  recursive function plus an if-and-only-if lemma. The file also holds the
  corrected regularity check described under Findings.
- `ndfa.dfy` (module `NfaBuilder`): `to_ndfa` as a method with its three
  loops. It fills the nested table `transitions[src][symbol]` step by step.
  The method is proved equal to a function, `Table`, whose edges and rows
  are characterised exactly by lemmas.
- `automaton.dfy` (module `Automata`): the `FiniteAutomaton` value with its
  flat `(state, symbol)` table, `is_deterministic`, and the union of the
  members' successors.
- `closure.dfy` (module `Closure`): `epsilon_closure` as a worklist method.
  It is proved equal to the set of states reachable by epsilon paths. That
  set is shown to be the least epsilon-closed superset of the input, so it
  is extensive, closed, idempotent and monotone.
- `dfa.dfy` (module `SubsetConstruction`): `to_dfa` as a method with its
  last-in-first-out worklist, visited set and final list. It is proved to
  record exactly the closed successor composites of every expanded
  composite, to expand each composite once, and to expand exactly the
  composites reachable from the start composite by a chain of steps.

Modelling choices:

- A composite state is a `set<State>`, so two composites with the same
  members are the same key. The source compares tuples built from Python
  sets at lab2.py:185 and lab2.py:195, and this is the identity it relies on.
- `epsilon_closure` takes a set and returns a set. The source returns
  `tuple(closure)` (lab2.py:169), whose order is Python's set iteration
  order.
- All collections the source iterates over (sets, dict keys, the alphabet)
  are taken in an arbitrary order (`:|`). Every proved property holds for
  every order.
- Productions are sequences of symbols. A production given as a Python
  `str` is the sequence of its one-character symbols (`FromString`). Such a
  production can never contain the marker `"eps"`.
- `to_ndfa` calls `non_terminals.index(...)`, which raises on an unknown
  symbol. The model makes the absence of that error a precondition,
  `Buildable`: every length-2 and length-3 production names known symbols
  at the positions the builder reads.
- Where a description of the system disagrees with the code, the model
  follows the code:
  - a grammar with no productions yields an automaton with an EMPTY state
    set, with start state "q0" outside it (lab2.py:48-49);
  - `to_ndfa`'s final-state set is always empty, because no "q<i>" name
    contains "S" (lab2.py:79-81).

## Model

| member | source | states |
|---|---|---|
| Names.DecimalString | lab2.py:49 | the spelling of `i` in `f"q{i}"` is non-empty, all digits, at least two digits from 10 on, and starts with '0' only for 0 |
| Names.ParseDecimalString | lab2.py:49 | reading the decimal spelling of `n` back gives `n` |
| Names.StateName | lab2.py:49 | `f"q{i}"` is "q" followed by at least one digit |
| Names.StateNameInjective | lab2.py:48-49 | distinct production indexes get distinct state names |
| Names.StateNameIsInitialIffZero | lab2.py:44-49 | the name of index `i` is the initial state "q0" iff `i` is 0 |
| Names.StateNameHasNoS | lab2.py:79-81 | no "q<i>" name contains "S", so the final-state test never succeeds |
| Grammars.StringPairIsRegularIff | lab2.py:31-38 | a two-character `str` production passes `is_regular` exactly when its first character is a non-terminal or the start symbol and its second is a terminal; the "eps" alternative never applies |
| Grammars.StringProductionHasNoEps | lab2.py:36 | no symbol of a `str` production equals "eps" |
| Grammars.RegularFromIff | lab2.py:23-39 | the production loop returns True iff no remaining production meets one of the three rejection conditions |
| Grammars.IsRegularIff | lab2.py:22-39 | `is_regular` is False exactly when some production is longer than 3, or has length 3 with element 1 not a non-terminal or element 2 not a terminal, or has length 2 with element 0 neither a non-terminal nor the start symbol or element 1 neither a terminal nor "eps"; it is True for no productions or only productions of length 0 or 1 |
| Grammars.RightLinearIsBuildable | lab2.py:65-71 | a grammar passing the corrected check (element 0 of a length-2 or length-3 production the start symbol or a non-terminal; element 1 of a length-3 production a terminal, element 2 a non-terminal) has every symbol `to_ndfa` looks up |
| Grammars.RightLinearAgreesOffLengthThree | lab2.py:22-39 | without length-3 productions, the corrected check and `is_regular` agree |
| Grammars.IsRegularSwapsLengthThreePositions | lab2.py:26-30 | `is_regular` accepts `S A a`, which `to_ndfa` cannot build, and rejects `S a A`, which is right-linear and buildable |
| Grammars.IsRegularIgnoresLengthThreeHead | lab2.py:26-30 | `is_regular` accepts the length-3 production `B A A` with `B` unknown, which `to_ndfa` cannot build and the corrected check rejects; with head `S` both accept it |
| NfaBuilder.IndexOf | lab2.py:57 | `list.index` returns the first position holding the symbol |
| NfaBuilder.AddProductionRows | lab2.py:53-76 | one production adds its source state's row for length 2 or 3, keeps all other rows, and leaves no empty cell |
| NfaBuilder.AddProductionEdges | lab2.py:53-76 | one production adds exactly its own edge (to "q0" for `A t` with `t` not "eps"; to B's state for `A t B`) and removes none |
| NfaBuilder.TableEdges | lab2.py:52-76 | after the loop, an edge `src -sym-> dst` is in the table iff some production contributes it |
| NfaBuilder.TableRows | lab2.py:52-76 | after the loop, a row exists iff it is the source state of some length-2 or length-3 production; an "eps" production creates an empty row |
| NfaBuilder.TableCellsNonEmpty | lab2.py:59-64 | every symbol cell of every row holds at least one state |
| NfaBuilder.StateNamesCount | lab2.py:48-49 | there are exactly n states for n productions, and "q0" is among them iff n > 0 |
| NfaBuilder.AddProductionInPlace | lab2.py:53-76 | the in-place nested dictionary updates for one production yield the table `AddProduction` describes |
| NfaBuilder.ToNdfa | lab2.py:41-85 | states are exactly "q0".."q{n-1}", the start is "q0", the alphabet is the terminals, the table is the one characterised by `TableEdges` and `TableRows`, there are no final states and no epsilon moves |
| Automata.NondeterminismWitness | lab2.py:153-158 | `is_deterministic` is False iff some pair of `states` x `alphabet` has a recorded entry with two or more successors; a missing key counts as zero |
| Automata.DeterminismIgnoresOtherPairs | lab2.py:153-158 | entries for pairs outside `states` x `alphabet` never change the answer |
| Automata.MoveProperties | lab2.py:189-192 | the union of the members' successors is empty iff no member has a successor, and holds only recorded targets |
| Automata.MoveUnion | lab2.py:190-191 | the union over a union of composites is the union of the unions |
| Automata.UnionOfMoves | lab2.py:189-191 | the loop computes the union of every member's successors on the symbol |
| Closure.ReachSetExtensive | lab2.py:161 | every input state is in its closure |
| Closure.ReachSetClosed | lab2.py:163-168 | no epsilon move leaves the closure |
| Closure.ReachSetLeast | lab2.py:160-169 | the closure lies inside every epsilon-closed superset of the input: it holds only reachable states |
| Closure.ReachSetIdempotent | lab2.py:160-169 | closing a closure changes nothing |
| Closure.ReachSetMonotone | lab2.py:160-169 | a larger input has a larger closure |
| Closure.ReachSetWithoutEpsilon | lab2.py:104 | with the default empty epsilon map the closure is the input |
| Closure.ReachSetBounded | lab2.py:165-167 | the closure holds only input states and epsilon targets |
| Closure.ListOf | lab2.py:162 | `list(states)` holds each member of the set exactly once |
| Closure.PushNewTargets | lab2.py:165-168 | the inner loop adds every epsilon successor of the popped state to the closure, pushes exactly the newly added ones, and adds only reachable states |
| Closure.PushKeepsInvariant | lab2.py:163-168 | one iteration keeps the invariant (only reachable states, every state off the worklist has its successors inside) and either grows the closure or shortens the worklist |
| Closure.EpsilonClosure | lab2.py:160-169 | the result is exactly the set of states reachable from the input by zero or more epsilon moves |
| SubsetConstruction.StepProperties | lab2.py:189-194 | the target composite holds the whole union, admits no epsilon move out of it, and stays inside the finite universe of states |
| SubsetConstruction.StartInUniverse | lab2.py:175 | the start composite stays inside the universe of states |
| SubsetConstruction.TargetsGrow | lab2.py:194 | recording a new transition keeps every old target a target |
| SubsetConstruction.Expand | lab2.py:188-198 | expanding a new composite keeps old entries and records exactly the non-empty steps on every symbol other than ""; each target is pushed if not already pending; each target holding a final state is appended to the final list; nothing but these new targets joins either list |
| SubsetConstruction.SkipKeepsInvariant | lab2.py:184-186 | popping a visited composite keeps the loop invariant |
| SubsetConstruction.ExpandKeepsInvariant | lab2.py:184-198 | marking and expanding a new composite keeps the loop invariant |
| SubsetConstruction.DiscoveredStart | lab2.py:175-177 | the start composite is reached from itself by the empty chain of steps |
| SubsetConstruction.DiscoveredStep | lab2.py:188-196 | a non-empty step on a working symbol from a reachable composite is reachable |
| SubsetConstruction.PoppedIsDiscovered | lab2.py:184-187 | every composite popped from the worklist is reachable from the start by a chain of steps |
| SubsetConstruction.DiscoveredIsExpanded | lab2.py:182-198 | when the start is expanded, every non-empty step of an expanded composite is recorded and every target is expanded, every composite reachable from the start is expanded |
| SubsetConstruction.ChainInExpanded | lab2.py:182-198 | every composite along a chain of steps from an expanded start is expanded |
| SubsetConstruction.MarkMakesProgress | lab2.py:185-187 | marking a new composite leaves fewer unvisited subsets of the universe, and keeps the expanded list free of repeats |
| SubsetConstruction.Visit | lab2.py:184-198 | one iteration keeps the invariant, keeps every visited composite reachable from the start, and grows the visited set or shortens the worklist |
| SubsetConstruction.Explore | lab2.py:176-198 | the loop ends with every transition a non-empty closed step; each expanded composite is the start or a target, is reachable from the start by a chain of non-empty steps, and is expanded once; every non-empty step from an expanded composite is recorded; the final list holds exactly the targets that contain a final state |
| SubsetConstruction.CompositesAreClosed | lab2.py:175-194 | the start composite and every target admit no epsilon move out of them |
| SubsetConstruction.ToDfa | lab2.py:171-207 | a deterministic automaton is returned unchanged; otherwise the result has the start closure, the copied alphabet and epsilon map, the literal `states` field, and the table and final list `Explore` states: every key's source and every target is expanded, every expanded composite is reachable from the start (so, with `DiscoveredIsExpanded`, the expanded composites are exactly the reachable ones) and epsilon-closed |
| SubsetConstruction.DemoIsNotDeterministic | lab2.py:213-229 | the demo automaton of `main` is not deterministic |
| SubsetConstruction.DemoFirstSteps | lab2.py:213-229 | for the demo automaton, the start composite is {q0} and {q0} goes to {q0, q1} on "a" |
| SubsetConstruction.DemoMoveOnA | lab2.py:216 | for the demo automaton, the union of {q0}'s successors on "a" is {q0, q1} |

## Left out

- `to_graphviz` (lab2.py:134-151) and its commented-out predecessor: rendering through the external graphviz library. It also draws the fixed `original_set` (lab2.py:105-111) instead of the automaton.
- `main` (lab2.py:210-239): demo data, printing and file output. Only its automaton is kept, as `DemoAutomaton`.
- `__str__` (lab2.py:18-20): display formatting only.
- Python set iteration order, and the order of members inside a composite tuple. Composites are sets, and every loop over a set picks its elements in an arbitrary order.
- The order of the worklist and of the final list. `Expand` and `Explore` state which composites those lists hold, not their order. Appending is modelled, but the contracts speak of membership.
- Composition of the two halves. `to_ndfa` builds a nested table `transitions[src][symbol]`, while `is_deterministic` and `to_dfa` read a flat table keyed by `(state, symbol)`. An automaton built by `to_ndfa` is therefore always judged deterministic and returned as it is. The two shapes are modelled separately, and no grammar-to-DFA claim is made.
- Language equivalence between the automata, and acceptance of strings: the source neither computes nor promises these.
- Idempotence of `to_dfa` on its own output: the output's table values are tuples, so `is_deterministic` would measure tuple lengths.
- The `states` field of `to_dfa`'s result: it mixes plain states with final composites, and is stated literally (`StatesField`), not as the set of composites.
- NfaBuilder.ToNdfa: requires `Buildable`, because the source raises from `non_terminals.index` on an unknown symbol and the model does not represent that exception.

## Findings

| source | as written | input that shows it | evidently intended | confidence | as-written member | corrected member |
|---|---|---|---|---|---|---|
| lab2.py:26-30 | a length-3 production is accepted when element 1 is a non-terminal and element 2 a terminal (positions swapped) | non-terminals `S, A`, terminal `a`: `S A a` is accepted but `to_ndfa` raises on it; `S a A` is rejected though `to_ndfa` builds it | element 1 a terminal and element 2 a non-terminal, as `to_ndfa` reads them at lab2.py:71-76 | not executed | Grammars.IsRegularSwapsLengthThreePositions | Grammars.RightLinearIsBuildable |
| lab2.py:26-30 | element 0 of a length-3 production is never tested | non-terminals `S, A`, terminals `a, A`: `B A A` is accepted although `B` is unknown, and `to_ndfa` raises looking it up at lab2.py:69 | element 0 the start symbol or a non-terminal, as lab2.py:66-70 reads it and as the length-2 test at lab2.py:33-34 already demands | not executed | Grammars.IsRegularIgnoresLengthThreeHead | Grammars.RightLinearIsBuildable |
