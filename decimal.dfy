/** Decimal numerals as Java's `Integer.parseInt` and string concatenation handle them. */
module Decimal {

  predicate IsDigit(c: char) { '0' <= c <= '9' }

  predicate AllDigits(s: string) { forall i :: 0 <= i < |s| ==> IsDigit(s[i]) }

  /** A numeral matching `[1-9]\d*`: positive, without a leading zero. */
  predicate IsPositiveNumeral(s: string) { |s| >= 1 && '1' <= s[0] <= '9' && AllDigits(s) }

  function DigitValue(c: char): (d: nat)
    requires IsDigit(c)
    ensures d < 10
  {
    c as int - '0' as int
  }

  function DigitChar(d: nat): (c: char)
    requires d < 10
    ensures IsDigit(c) && DigitValue(c) == d
  {
    ('0' as int + d) as char
  }

  /** The value of a decimal numeral (the 32-bit overflow of `parseInt` is not modelled). */
  function ParseNat(s: string): nat
    requires AllDigits(s)
    decreases |s|
  {
    if s == [] then 0 else 10 * ParseNat(s[..|s| - 1]) + DigitValue(s[|s| - 1])
  }

  /** The decimal rendering of a natural number. */
  function NatToString(n: nat): (s: string)
    ensures |s| >= 1 && AllDigits(s)
    decreases n
  {
    if n < 10 then [DigitChar(n)] else NatToString(n / 10) + [DigitChar(n % 10)]
  }

  /** The decimal rendering of an integer, with a leading `-` when negative. */
  function IntToString(i: int): (s: string)
    ensures i >= 0 ==> s == NatToString(i)
    ensures i < 0 ==> |s| >= 2 && s[0] == '-' && AllDigits(s[1..])
  {
    if i < 0 then "-" + NatToString(-i) else NatToString(i)
  }

  /** Parsing the rendering of `n` gives `n` back. */
  lemma {:induction false} ParseNatToString(n: nat)
    ensures ParseNat(NatToString(n)) == n
  {
    if n >= 10 {
      var s := NatToString(n);
      ParseNatToString(n / 10);
      assert s[..|s| - 1] == NatToString(n / 10);
    }
  }

  /** The rendering of a positive number has no leading zero. */
  lemma {:induction false} NatToStringPositive(n: nat)
    requires n >= 1
    ensures IsPositiveNumeral(NatToString(n))
  {
    if n >= 10 {
      NatToStringPositive(n / 10);
    }
  }

  /** A positive numeral is the rendering of its own value. */
  lemma {:induction false} NatToStringParse(s: string)
    requires IsPositiveNumeral(s)
    ensures ParseNat(s) >= 1 && NatToString(ParseNat(s)) == s
    decreases |s|
  {
    var init := s[..|s| - 1];
    if |s| > 1 {
      assert IsPositiveNumeral(init);
      NatToStringParse(init);
      var n := ParseNat(s);
      assert n / 10 == ParseNat(init) && n % 10 == DigitValue(s[|s| - 1]);
      assert NatToString(n) == NatToString(ParseNat(init)) + [DigitChar(DigitValue(s[|s| - 1]))];
      assert s == init + [s[|s| - 1]];
    } else {
      assert init == [];
      assert s == [s[0]];
    }
  }
}
