/**
 * `Grammar.to_ndfa`: one state "q<i>" per production, and a nested
 * transition table `transitions[src][symbol]` (a set of states) filled from
 * the length-2 and length-3 productions.
 *
 * The source state of a production is "q0" when its left symbol is the
 * start symbol and otherwise "q<k>" with k the left symbol's first position
 * in `non_terminals`. So the first non-terminal shares the name "q0" with
 * the initial state, and a state named by a non-terminal position need not
 * be among the allocated states when there are more non-terminals than
 * productions.
 */
module NfaBuilder {
  import opened Names
  import opened Grammars

  type Row = map<Symbol, set<State>>
  type NestedTable = map<State, Row>

  /** The automaton `to_ndfa` returns, with its nested transition table. */
  datatype NestedAutomaton = NestedAutomaton(
    states: set<State>,
    alphabet: seq<Symbol>,
    transitions: NestedTable,
    start: State,
    finals: set<State>,
    epsilon: map<State, set<State>>)

  /** Python's `list.index`: the first position of `x` in `xs`. */
  function IndexOf(xs: seq<Symbol>, x: Symbol): (k: nat)
    requires x in xs
    ensures k < |xs| && xs[k] == x
    ensures forall j :: 0 <= j < k ==> xs[j] != x
  {
    if xs[0] == x then 0 else 1 + IndexOf(xs[1..], x)
  }

  /** The state a production leaves from (lab2.py:54-58 and 66-70). */
  function SourceState(g: Grammar, p: Production): State
    requires |p| >= 1 && (p[0] == g.startSymbol || p[0] in g.nonTerminals)
  {
    if p[0] == g.startSymbol then Initial else StateName(IndexOf(g.nonTerminals, p[0]))
  }

  /** The state a length-3 production enters (lab2.py:71). */
  function TargetState(g: Grammar, p: Production): State
    requires |p| >= 3 && p[2] in g.nonTerminals
  {
    StateName(IndexOf(g.nonTerminals, p[2]))
  }

  predicate HasEdge(t: NestedTable, src: State, sym: Symbol, dst: State) {
    src in t && sym in t[src] && dst in t[src][sym]
  }

  /** Every symbol key of every row holds at least one state. */
  predicate CellsNonEmpty(t: NestedTable) {
    forall src, sym :: src in t && sym in t[src] ==> t[src][sym] != {}
  }

  /**
   * The edge a production contributes: `A t` with `t` other than "eps" goes
   * back to "q0", `A t B` goes to B's state; nothing else adds an edge.
   */
  predicate Produces(g: Grammar, p: Production, src: State, sym: Symbol, dst: State)
    requires Resolves(g, p)
  {
    || (|p| == 2 && p[1] != Eps && src == SourceState(g, p) && sym == p[1] && dst == Initial)
    || (|p| == 3 && src == SourceState(g, p) && sym == p[1] && dst == TargetState(g, p))
  }

  /** The rows a production makes sure exist: its source state's, for length 2 or 3. */
  function RowsOf(g: Grammar, p: Production): set<State>
    requires Resolves(g, p)
  {
    if |p| == 2 || |p| == 3 then {SourceState(g, p)} else {}
  }

  /** One iteration of the production loop of `to_ndfa` (lab2.py:52-76). */
  function AddProduction(g: Grammar, t: NestedTable, p: Production): NestedTable
    requires Resolves(g, p)
  {
    if |p| == 2 then
      var src := SourceState(g, p);
      var row := if src in t then t[src] else map[];
      if p[1] != Eps then
        var cell := if p[1] in row then row[p[1]] else {};
        t[src := row[p[1] := cell + {Initial}]]
      else
        t[src := row]
    else if |p| == 3 then
      var src := SourceState(g, p);
      var row := if src in t then t[src] else map[];
      var cell := if p[1] in row then row[p[1]] else {};
      t[src := row[p[1] := cell + {TargetState(g, p)}]]
    else
      t
  }

  /**
   * A production adds its source state's row (for length 2 or 3) and keeps
   * every other row; no cell it touches is left empty.
   */
  lemma AddProductionRows(g: Grammar, t: NestedTable, p: Production)
    requires Resolves(g, p)
    ensures AddProduction(g, t, p).Keys == t.Keys + RowsOf(g, p)
    ensures CellsNonEmpty(t) ==> CellsNonEmpty(AddProduction(g, t, p))
  {
  }

  /** A production adds exactly its own edge, if any, and removes none. */
  lemma AddProductionEdges(g: Grammar, t: NestedTable, p: Production, src: State, sym: Symbol, dst: State)
    requires Resolves(g, p)
    ensures HasEdge(AddProduction(g, t, p), src, sym, dst) <==>
      HasEdge(t, src, sym, dst) || Produces(g, p, src, sym, dst)
  {
  }

  predicate AllResolve(g: Grammar, ps: seq<Production>) {
    forall i :: 0 <= i < |ps| ==> Resolves(g, ps[i])
  }

  /** The table after the production loop has run over `ps`. */
  function Table(g: Grammar, ps: seq<Production>): NestedTable
    requires AllResolve(g, ps)
  {
    if ps == [] then map[] else AddProduction(g, Table(g, ps[..|ps| - 1]), ps[|ps| - 1])
  }

  /**
   * The table holds exactly the edges that some production contributes:
   * edges are only ever added, and "eps" and over-long productions add none.
   */
  lemma {:induction false} TableEdges(g: Grammar, ps: seq<Production>, src: State, sym: Symbol, dst: State)
    requires AllResolve(g, ps)
    ensures HasEdge(Table(g, ps), src, sym, dst) <==>
      exists i :: 0 <= i < |ps| && Produces(g, ps[i], src, sym, dst)
  {
    if ps != [] {
      var init := ps[..|ps| - 1];
      TableEdges(g, init, src, sym, dst);
      AddProductionEdges(g, Table(g, init), ps[|ps| - 1], src, sym, dst);
      assert forall i :: 0 <= i < |init| ==> init[i] == ps[i];
      if HasEdge(Table(g, ps), src, sym, dst) && !Produces(g, ps[|ps| - 1], src, sym, dst) {
        var i :| 0 <= i < |init| && Produces(g, init[i], src, sym, dst);
        assert Produces(g, ps[i], src, sym, dst);
      }
    }
  }

  /** A row exists exactly for the source state of some length-2 or length-3 production. */
  lemma {:induction false} TableRows(g: Grammar, ps: seq<Production>, src: State)
    requires AllResolve(g, ps)
    ensures src in Table(g, ps) <==> exists i :: 0 <= i < |ps| && src in RowsOf(g, ps[i])
  {
    if ps != [] {
      var init := ps[..|ps| - 1];
      TableRows(g, init, src);
      AddProductionRows(g, Table(g, init), ps[|ps| - 1]);
      assert forall i :: 0 <= i < |init| ==> init[i] == ps[i];
      if src in Table(g, ps) && src !in RowsOf(g, ps[|ps| - 1]) {
        var i :| 0 <= i < |init| && src in RowsOf(g, init[i]);
        assert src in RowsOf(g, ps[i]);
      }
    }
  }

  /** No cell of the table is ever an empty set: cells are created only to be filled. */
  lemma {:induction false} TableCellsNonEmpty(g: Grammar, ps: seq<Production>)
    requires AllResolve(g, ps)
    ensures CellsNonEmpty(Table(g, ps))
  {
    if ps != [] {
      var init := ps[..|ps| - 1];
      TableCellsNonEmpty(g, init);
      AddProductionRows(g, Table(g, init), ps[|ps| - 1]);
    }
  }

  /** The allocated state names "q0" .. "q<n-1>". */
  function StateNames(n: nat): set<State> {
    set i | 0 <= i < n :: StateName(i)
  }

  /** There is one state per production, and "q0" is among them iff there is a production. */
  lemma {:induction false} StateNamesCount(n: nat)
    ensures |StateNames(n)| == n
    ensures Initial in StateNames(n) <==> n > 0
  {
    if n == 0 {
      assert StateNames(0) == {};
    } else {
      StateNamesCount(n - 1);
      assert StateNames(n) == StateNames(n - 1) + {StateName(n - 1)};
      if StateName(n - 1) in StateNames(n - 1) {
        var j :| 0 <= j < n - 1 && StateName(j) == StateName(n - 1);
        StateNameInjective(j, n - 1);
      }
      StateNameIsInitialIffZero(0);
      assert StateName(0) in StateNames(n);
    }
  }

  /** The body of the production loop of `to_ndfa`, updating the table (lab2.py:53-76). */
  method AddProductionInPlace(g: Grammar, before: NestedTable, p: Production) returns (transitions: NestedTable)
    requires Resolves(g, p)
    ensures transitions == AddProduction(g, before, p)
  {
    transitions := before;
    if |p| == 2 {
      var src := SourceState(g, p);
      ghost var row: Row := if src in before then before[src] else map[];
      if src !in transitions {
        transitions := transitions[src := map[]];
      }
      assert transitions == before[src := row];
      if p[1] != Eps {
        ghost var cell := if p[1] in row then row[p[1]] else {};
        if p[1] !in transitions[src] {
          transitions := transitions[src := transitions[src][p[1] := {}]];
        }
        assert transitions[src] == row[p[1] := cell];
        transitions := transitions[src := transitions[src][p[1] := transitions[src][p[1]] + {Initial}]];
        assert transitions[src] == row[p[1] := cell + {Initial}];
      }
    } else if |p| == 3 {
      var src := SourceState(g, p);
      var dst := TargetState(g, p);
      ghost var row: Row := if src in before then before[src] else map[];
      ghost var cell := if p[1] in row then row[p[1]] else {};
      if src !in transitions {
        transitions := transitions[src := map[]];
      }
      assert transitions == before[src := row];
      if p[1] !in transitions[src] {
        transitions := transitions[src := transitions[src][p[1] := {}]];
      }
      assert transitions[src] == row[p[1] := cell];
      transitions := transitions[src := transitions[src][p[1] := transitions[src][p[1]] + {dst}]];
      assert transitions[src] == row[p[1] := cell + {dst}];
    }
  }

  /** `Grammar.to_ndfa` (lab2.py:41-85). */
  method ToNdfa(g: Grammar) returns (nfa: NestedAutomaton)
    requires Buildable(g)
    ensures nfa.states == StateNames(|g.productions|)
    ensures nfa.start == Initial
    ensures nfa.alphabet == g.terminals
    ensures nfa.transitions == Table(g, g.productions)
    ensures nfa.finals == {}
    ensures nfa.epsilon == map[]
  {
    var states: set<State> := {};
    var transitions: NestedTable := map[];
    var finals: set<State> := {};

    var i := 0;
    while i < |g.productions|
      invariant 0 <= i <= |g.productions|
      invariant states == StateNames(i)
    {
      states := states + {StateName(i)};
      i := i + 1;
    }

    var k := 0;
    while k < |g.productions|
      invariant 0 <= k <= |g.productions|
      invariant transitions == Table(g, g.productions[..k])
    {
      transitions := AddProductionInPlace(g, transitions, g.productions[k]);
      assert g.productions[..k + 1][..k] == g.productions[..k];
      k := k + 1;
    }
    assert g.productions[..k] == g.productions;

    var remaining := states;
    while remaining != {}
      invariant remaining <= states
      invariant finals == set s | s in states - remaining && ContainsSubstring(s, "S")
    {
      var s :| s in remaining;
      if ContainsSubstring(s, "S") {
        finals := finals + {s};
      }
      remaining := remaining - {s};
    }
    forall s | s in states
      ensures !ContainsSubstring(s, "S")
    {
      var j :| 0 <= j < |g.productions| && s == StateName(j);
      StateNameHasNoS(j);
    }

    nfa := NestedAutomaton(states, g.terminals, transitions, Initial, finals, map[]);
  }
}
