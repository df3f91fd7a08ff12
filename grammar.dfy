/**
 * The `Grammar` class of lab2.py: non-terminals, terminals, productions and
 * a start symbol, never changed after construction, and its regularity
 * check `is_regular`.
 *
 * A production is a sequence of symbols. The source also accepts a Python
 * `str` as a production; indexing a `str` yields one-character strings, so
 * such a production is the sequence of its characters (`FromString`), and
 * none of its symbols can ever equal the three-character marker "eps".
 */
module Grammars {
  import opened Names

  type Production = seq<Symbol>

  datatype Grammar = Grammar(
    nonTerminals: seq<Symbol>,
    terminals: seq<Symbol>,
    productions: seq<Production>,
    startSymbol: Symbol)

  /** The epsilon marker compared against at lab2.py:36 and lab2.py:61. */
  const Eps: Symbol := "eps"

  /** A production given as a Python `str`: one symbol per character. */
  function FromString(s: string): Production {
    seq(|s|, i requires 0 <= i < |s| => [s[i]])
  }

  /** No symbol of a `str` production is the epsilon marker. */
  lemma StringProductionHasNoEps(s: string)
    ensures forall i :: 0 <= i < |s| ==> FromString(s)[i] != Eps
  {
    forall i | 0 <= i < |s|
      ensures FromString(s)[i] != Eps
    {
      assert |FromString(s)[i]| == 1;
    }
  }

  /**
   * A two-character `str` production passes the length-2 test of
   * `is_regular` exactly when its first character is a non-terminal or the
   * start symbol and its second a terminal: the "eps" alternative can never
   * apply to it.
   */
  lemma StringPairIsRegularIff(g: Grammar, s: string)
    requires |s| == 2
    ensures !Violates(g, FromString(s)) <==>
      ([s[0]] in g.nonTerminals || [s[0]] == g.startSymbol) && [s[1]] in g.terminals
  {
    StringProductionHasNoEps(s);
    assert FromString(s)[0] == [s[0]] && FromString(s)[1] == [s[1]];
  }

  /**
   * The three conditions under which `is_regular` returns False for one
   * production, in the order it tests them.
   */
  predicate Violates(g: Grammar, p: Production) {
    || |p| > 3
    || (|p| == 3 && (p[1] !in g.nonTerminals || p[2] !in g.terminals))
    || (|p| == 2 &&
         ((p[0] !in g.nonTerminals && p[0] != g.startSymbol) ||
          (p[1] !in g.terminals && p[1] != Eps)))
  }

  /** The loop of `is_regular` over the productions still to inspect. */
  function RegularFrom(g: Grammar, ps: seq<Production>): bool
  {
    if ps == [] then true
    else if Violates(g, ps[0]) then false
    else RegularFrom(g, ps[1..])
  }

  function IsRegular(g: Grammar): bool {
    RegularFrom(g, g.productions)
  }

  /** The loop returns True exactly when no remaining production violates the shape. */
  lemma {:induction false} RegularFromIff(g: Grammar, ps: seq<Production>)
    ensures RegularFrom(g, ps) <==> forall i :: 0 <= i < |ps| ==> !Violates(g, ps[i])
  {
    if ps != [] {
      RegularFromIff(g, ps[1..]);
      assert forall i :: 1 <= i < |ps| ==> ps[i] == ps[1..][i - 1];
    }
  }

  /**
   * `is_regular` is False exactly when some production violates the shape;
   * in particular it is True for an empty production list and for
   * productions of length 0 or 1.
   */
  lemma IsRegularIff(g: Grammar)
    ensures IsRegular(g) <==>
      forall i :: 0 <= i < |g.productions| ==> !Violates(g, g.productions[i])
    ensures (forall i :: 0 <= i < |g.productions| ==> |g.productions[i]| <= 1) ==> IsRegular(g)
  {
    RegularFromIff(g, g.productions);
  }

  /**
   * What `to_ndfa` needs of one production so that none of its
   * `non_terminals.index(...)` lookups raises: the left symbol of a length-2
   * or length-3 production is the start symbol or a non-terminal, and the
   * right symbol of a length-3 production is a non-terminal.
   */
  predicate Resolves(g: Grammar, p: Production) {
    (|p| == 2 || |p| == 3) ==>
      (p[0] == g.startSymbol || p[0] in g.nonTerminals) &&
      (|p| == 3 ==> p[2] in g.nonTerminals)
  }

  predicate Buildable(g: Grammar) {
    forall i :: 0 <= i < |g.productions| ==> Resolves(g, g.productions[i])
  }

  /**
   * The right-linear shape that `to_ndfa` reads: `A t` with `t` a terminal
   * or "eps", and `A t B` with `t` a terminal and `B` a non-terminal, where
   * `A` is the start symbol or a non-terminal.
   */
  predicate RightLinearProduction(g: Grammar, p: Production) {
    && |p| <= 3
    && (|p| == 3 ==>
         (p[0] == g.startSymbol || p[0] in g.nonTerminals) &&
         p[1] in g.terminals && p[2] in g.nonTerminals)
    && (|p| == 2 ==>
         (p[0] == g.startSymbol || p[0] in g.nonTerminals) &&
         (p[1] in g.terminals || p[1] == Eps))
  }

  /**
   * The corrected regularity check: the length-3 positions in the order the
   * builder reads them, and element 0 of a length-3 production checked as
   * well, since the builder looks it up too.
   */
  predicate IsRightLinear(g: Grammar) {
    forall i :: 0 <= i < |g.productions| ==> RightLinearProduction(g, g.productions[i])
  }

  /** A grammar that passes the corrected check can always be built. */
  lemma RightLinearIsBuildable(g: Grammar)
    ensures IsRightLinear(g) ==> Buildable(g)
  {
  }

  /** The correction changes only the length-3 case: without one, both checks agree. */
  lemma RightLinearAgreesOffLengthThree(g: Grammar)
    requires forall i :: 0 <= i < |g.productions| ==> |g.productions[i]| != 3
    ensures IsRightLinear(g) <==> IsRegular(g)
  {
    IsRegularIff(g);
    assert forall i :: 0 <= i < |g.productions| ==>
      (RightLinearProduction(g, g.productions[i]) <==> !Violates(g, g.productions[i]));
  }

  /**
   * As written, `is_regular` tests element 1 of a length-3 production
   * against the non-terminals and element 2 against the terminals, the
   * reverse of how `to_ndfa` reads it. So it accepts `S A a`, which the
   * builder cannot resolve, and rejects `S a A`, which it can.
   */
  lemma IsRegularSwapsLengthThreePositions()
    ensures var swapped := Grammar(["S", "A"], ["a"], [["S", "A", "a"]], "S");
      IsRegular(swapped) && !Buildable(swapped)
    ensures var intended := Grammar(["S", "A"], ["a"], [["S", "a", "A"]], "S");
      !IsRegular(intended) && IsRightLinear(intended) && Buildable(intended)
  {
    var swapped := Grammar(["S", "A"], ["a"], [["S", "A", "a"]], "S");
    assert !Resolves(swapped, swapped.productions[0]);
    var intended := Grammar(["S", "A"], ["a"], [["S", "a", "A"]], "S");
    assert Violates(intended, intended.productions[0]);
  }

  /**
   * As written, `is_regular` never tests element 0 of a length-3
   * production, which `to_ndfa` looks up. With "A" both a terminal and a
   * non-terminal, so that the swapped positions do not matter, it accepts
   * `B A A` with `B` unknown, which the builder cannot resolve; the
   * corrected check rejects it and accepts `S A A`.
   */
  lemma IsRegularIgnoresLengthThreeHead()
    ensures var unknownHead := Grammar(["S", "A"], ["a", "A"], [["B", "A", "A"]], "S");
      IsRegular(unknownHead) && !Buildable(unknownHead) && !IsRightLinear(unknownHead)
    ensures var knownHead := Grammar(["S", "A"], ["a", "A"], [["S", "A", "A"]], "S");
      IsRegular(knownHead) && IsRightLinear(knownHead) && Buildable(knownHead)
  {
    var unknownHead := Grammar(["S", "A"], ["a", "A"], [["B", "A", "A"]], "S");
    assert "B" !in unknownHead.nonTerminals;
    assert !Resolves(unknownHead, unknownHead.productions[0]);
    var knownHead := Grammar(["S", "A"], ["a", "A"], [["S", "A", "A"]], "S");
    assert RightLinearProduction(knownHead, knownHead.productions[0]);
  }
}
