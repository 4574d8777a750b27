/** Decimal numerals, as the compiler's `addInt` writes them and its digit loops read them. */
module Decimal {

  predicate IsDigit(c: char) { '0' <= c <= '9' }

  function DigitChar(d: nat): (c: char)
    requires d < 10
    ensures IsDigit(c) && DigitValue(c) == d
  {
    ('0' as int + d) as char
  }

  function DigitValue(c: char): (d: nat)
    requires IsDigit(c)
    ensures d < 10
  {
    c as int - '0' as int
  }

  function Numeral(n: nat): (s: string)
    ensures s != "" && forall i | 0 <= i < |s| :: IsDigit(s[i])
  {
    if n < 10 then [DigitChar(n)] else Numeral(n / 10) + [DigitChar(n % 10)]
  }

  /** The index past the run of digits that starts at `j`. */
  function DigitsEnd(s: string, j: nat): (e: nat)
    requires j <= |s|
    ensures j <= e <= |s|
    decreases |s| - j
  {
    if j < |s| && IsDigit(s[j]) then DigitsEnd(s, j + 1) else j
  }

  /** What a digit loop that starts at `j` with `count` accumulates. */
  function DigitsValue(s: string, j: nat, count: nat): nat
    requires j <= |s|
    decreases |s| - j
  {
    if j < |s| && IsDigit(s[j])
    then DigitsValue(s, j + 1, count * 10 + DigitValue(s[j]))
    else count
  }

  /** The loop `while j < s.len and s[j] in {'0'..'9'}` of the name parsers. */
  method ReadDigits(s: string, start: nat, seed: nat) returns (j: nat, count: nat)
    requires start <= |s|
    ensures j == DigitsEnd(s, start) && count == DigitsValue(s, start, seed)
  {
    j, count := start, seed;
    while j < |s| && IsDigit(s[j])
      invariant start <= j <= |s|
      invariant DigitsEnd(s, j) == DigitsEnd(s, start)
      invariant DigitsValue(s, j, count) == DigitsValue(s, start, seed)
    {
      count := count * 10 + DigitValue(s[j]);
      j := j + 1;
    }
  }

  lemma {:induction false} DigitsOfRun(s: string, j: nat, run: string, count: nat)
    requires j + |run| <= |s| && s[j..j + |run|] == run
    requires forall i | 0 <= i < |run| :: IsDigit(run[i])
    ensures DigitsEnd(s, j) == DigitsEnd(s, j + |run|)
    ensures DigitsValue(s, j, count) == DigitsValue(s, j + |run|, DigitsValue(run, 0, count))
    decreases |run|
  {
    if run != "" {
      var last := run[|run| - 1];
      var front := run[..|run| - 1];
      assert s[j..j + |front|] == front;
      assert s[j + |front|] == last by { assert s[j..j + |run|][|front|] == last; }
      DigitsOfRun(s, j, front, count);
      assert run[0..|front|] == front;
      DigitsOfRun(run, 0, front, count);
    }
  }

  /** A numeral inside a text, followed by no further digit, reads back as its number. */
  lemma {:induction false} NumeralReadsBack(s: string, j: nat, n: nat)
    requires j + |Numeral(n)| <= |s| && s[j..j + |Numeral(n)|] == Numeral(n)
    requires j + |Numeral(n)| < |s| ==> !IsDigit(s[j + |Numeral(n)|])
    ensures DigitsEnd(s, j) == j + |Numeral(n)|
    ensures DigitsValue(s, j, 0) == n
  {
    DigitsOfRun(s, j, Numeral(n), 0);
    NumeralValue(n);
  }

  lemma {:induction false} NumeralValue(n: nat)
    ensures DigitsValue(Numeral(n), 0, 0) == n
  {
    if n < 10 {
      assert DigitsValue(Numeral(n), 1, n) == n;
    } else {
      var front, s := Numeral(n / 10), Numeral(n);
      assert s[0..|front|] == front;
      DigitsOfRun(s, 0, front, 0);
      NumeralValue(n / 10);
      assert s[|front|] == DigitChar(n % 10);
      assert DigitsValue(s, |front| + 1, n) == n;
    }
  }

  lemma NumeralInjective(a: nat, b: nat)
    requires Numeral(a) == Numeral(b)
    ensures a == b
  {
    NumeralValue(a);
    NumeralValue(b);
  }
}
