/**
 * State and symbol names shared by the grammar, the automaton builder and
 * the determinizer. Every name in lab2.py is a Python `str`; here it is a
 * `string`. The builder names its states "q" followed by the decimal
 * spelling of an index (`f"q{i}"`), and marks a state final when its name
 * contains the substring "S"; both are defined here.
 */
module Names {

  type State = string
  type Symbol = string

  /** The builder's initial state (lab2.py:44). */
  const Initial: State := "q0"

  predicate IsDigit(c: char) {
    '0' <= c <= '9'
  }

  function DigitChar(d: nat): (c: char)
    requires d < 10
    ensures IsDigit(c)
  {
    ('0' as int + d) as char
  }

  function DigitValue(c: char): (d: nat)
    requires IsDigit(c)
    ensures d < 10
  {
    c as int - '0' as int
  }

  /** Python's `str(n)` for a natural number: its decimal spelling. */
  function DecimalString(n: nat): (r: string)
    ensures |r| >= 1
    ensures forall i :: 0 <= i < |r| ==> IsDigit(r[i])
    ensures n >= 10 ==> |r| >= 2
    ensures r[0] == '0' ==> n == 0
    decreases n
  {
    if n < 10 then [DigitChar(n)] else DecimalString(n / 10) + [DigitChar(n % 10)]
  }

  /** Reads a string of decimal digits back as a number. */
  function ParseDecimal(s: string): nat
    requires forall i :: 0 <= i < |s| ==> IsDigit(s[i])
  {
    if s == [] then 0 else 10 * ParseDecimal(s[..|s| - 1]) + DigitValue(s[|s| - 1])
  }

  /** Reading back the decimal spelling of `n` gives `n`. */
  lemma {:induction false} ParseDecimalString(n: nat)
    ensures ParseDecimal(DecimalString(n)) == n
    decreases n
  {
    var r := DecimalString(n);
    if n < 10 {
      assert r[..0] == [];
    } else {
      var prefix := DecimalString(n / 10);
      assert r[..|r| - 1] == prefix;
      ParseDecimalString(n / 10);
    }
  }

  /** The name `f"q{i}"` the builder gives to state number `i`. */
  function StateName(i: nat): (r: State)
    ensures |r| >= 2 && r[0] == 'q'
    ensures forall k :: 1 <= k < |r| ==> IsDigit(r[k])
  {
    "q" + DecimalString(i)
  }

  /** Distinct indexes give distinct state names. */
  lemma StateNameInjective(i: nat, j: nat)
    ensures StateName(i) == StateName(j) ==> i == j
  {
    if StateName(i) == StateName(j) {
      assert DecimalString(i) == StateName(i)[1..];
      assert DecimalString(j) == StateName(j)[1..];
      ParseDecimalString(i);
      ParseDecimalString(j);
    }
  }

  /** Only index 0 is named like the initial state "q0". */
  lemma StateNameIsInitialIffZero(i: nat)
    ensures StateName(i) == Initial <==> i == 0
  {
    if i == 0 {
      assert DecimalString(0) == "0";
    } else {
      assert DecimalString(i) == StateName(i)[1..];
    }
  }

  /** Python's `pat in s` on strings: `pat` occurs as a contiguous substring. */
  predicate ContainsSubstring(s: string, pat: string) {
    exists k :: 0 <= k <= |s| - |pat| && OccursAt(s, pat, k)
  }

  predicate OccursAt(s: string, pat: string, k: int) {
    0 <= k <= |s| - |pat| && s[k..k + |pat|] == pat
  }

  /** No state name "q<digits>" contains "S" (why the builder marks no state final). */
  lemma StateNameHasNoS(i: nat)
    ensures !ContainsSubstring(StateName(i), "S")
  {
    var r := StateName(i);
    forall k | 0 <= k <= |r| - 1
      ensures !OccursAt(r, "S", k)
    {
      assert r[k..k + 1][0] == r[k];
    }
  }
}
