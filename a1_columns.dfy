/**
 * The column letters of A1 notation: bijective base 26, where A is column 0,
 * Z is 25, AA is 26, ZZ is 701 and AAA is 702.
 *
 * The library converts in two steps, and this module keeps them:
 * a column is split into a letter count k and a remainder v < 26^k after
 * skipping the 26 + 26^2 + ... + 26^(k-1) columns that have fewer letters
 * (`columnToA1`); decoding adds 1 + 26 + ... + 26^(k-1) back and subtracts one
 * (`columnFromA1`). The members ending in `AsWritten` model the code as it
 * stands, with its defects; the others are the intended codec.
 */
module A1Columns {
  import opened Common

  predicate IsLetter(c: char) { 'A' <= c <= 'Z' || 'a' <= c <= 'z' }

  predicate IsUpper(c: char) { 'A' <= c <= 'Z' }

  predicate AllLetters(s: string) { forall i :: 0 <= i < |s| ==> IsLetter(s[i]) }

  predicate AllUpper(s: string) { forall i :: 0 <= i < |s| ==> IsUpper(s[i]) }

  /** The position of a letter in the alphabet, case-insensitively (A = 0). */
  function LetterValue(c: char): (d: nat)
    requires IsLetter(c)
    ensures d < 26
  {
    if 'a' <= c then c as int - 'a' as int else c as int - 'A' as int
  }

  /** The upper-case letter at position `d`. */
  function Letter(d: nat): (c: char)
    requires d < 26
    ensures IsUpper(c) && LetterValue(c) == d
  {
    ('A' as int + d) as char
  }

  function Pow26(k: nat): (p: nat)
    ensures p >= 1
  {
    if k == 0 then 1 else 26 * Pow26(k - 1)
  }

  /** The value of the base-26 numeral "11...1" with k ones: 1 + 26 + ... + 26^(k-1). */
  function Ones(k: nat): nat
  {
    if k == 0 then 0 else 26 * Ones(k - 1) + 1
  }

  /** The value of a base-26 digit sequence, most significant digit first. */
  function Base26Value(ds: seq<nat>): nat
  {
    if ds == [] then 0 else 26 * Base26Value(ds[..|ds| - 1]) + ds[|ds| - 1]
  }

  predicate AllBase26(ds: seq<nat>) { forall i :: 0 <= i < |ds| ==> ds[i] < 26 }

  /** The k base-26 digits of v, most significant first, zero-padded on the left. */
  function FixedDigits(v: nat, k: nat): (ds: seq<nat>)
    ensures |ds| == k && AllBase26(ds)
  {
    if k == 0 then [] else FixedDigits(v / 26, k - 1) + [v % 26]
  }

  /** The digit values of a string of letters. */
  function LetterDigits(s: string): (ds: seq<nat>)
    requires AllLetters(s)
    ensures |ds| == |s| && AllBase26(ds)
  {
    seq(|s|, i requires 0 <= i < |s| => LetterValue(s[i]))
  }

  /** The upper-case letters of a digit sequence. */
  function DigitLetters(ds: seq<nat>): (s: string)
    requires AllBase26(ds)
    ensures |s| == |ds| && AllUpper(s)
  {
    seq(|ds|, i requires 0 <= i < |ds| => Letter(ds[i]))
  }

  /**
   * The loop of `columnToA1`: while `col >= 26^k`, take `26^k` off and count one
   * more letter. Returns the letter count and what is left of the column.
   */
  function SplitColumn(col: nat, k: nat): (kv: (nat, nat))
    requires k >= 1
    decreases col
  {
    if col >= Pow26(k) then SplitColumn(col - Pow26(k), k + 1) else (k, col)
  }

  /** The intended `columnToA1`: the upper-case A1 letters of a zero-based column. */
  function ColumnToA1(col: nat): (s: string)
    ensures |s| >= 1 && AllUpper(s)
  {
    var (k, v) := SplitColumn(col, 1);
    SplitColumnBounds(col, 1);
    DigitLetters(FixedDigits(v, k))
  }

  /**
   * The intended `columnFromA1`: the zero-based column of a string of letters
   * (-1 for ""). The strings of k letters name the block of 26^k columns that
   * follows the columns of fewer letters.
   */
  function ColumnFromA1(s: string): (c: int)
    requires AllLetters(s)
    ensures Ones(|s|) - 1 <= c < Ones(|s| + 1) - 1
  {
    Base26Bound(LetterDigits(s));
    OnesStep(|s|);
    Base26Value(LetterDigits(s)) + Ones(|s|) - 1
  }

  // ---------------------------------------------------------------------------
  // Arithmetic facts behind the codec

  lemma {:induction false} OnesStep(k: nat)
    ensures Ones(k + 1) == Ones(k) + Pow26(k)
  {
    if k > 0 {
      OnesStep(k - 1);
    }
  }

  lemma {:induction false} OnesMonotone(j: nat, k: nat)
    requires j <= k
    ensures Ones(j) <= Ones(k)
    decreases k - j
  {
    if j < k {
      OnesMonotone(j, k - 1);
    }
  }

  /** The split keeps the column: col + Ones(k) == v + Ones(k'), and v fits k' digits. */
  lemma {:induction false} SplitColumnBounds(col: nat, k: nat)
    requires k >= 1
    ensures SplitColumn(col, k).0 >= k
    ensures SplitColumn(col, k).1 < Pow26(SplitColumn(col, k).0)
    ensures col + Ones(k) == SplitColumn(col, k).1 + Ones(SplitColumn(col, k).0)
    decreases col
  {
    if col >= Pow26(k) {
      SplitColumnBounds(col - Pow26(k), k + 1);
      OnesStep(k);
    }
  }

  /** The split is the only one: a v below 26^k' with col + Ones(k) == v + Ones(k') is found. */
  lemma {:induction false} SplitColumnUnique(col: nat, k: nat, k': nat, v: nat)
    requires 1 <= k <= k' && v < Pow26(k')
    requires col + Ones(k) == v + Ones(k')
    ensures SplitColumn(col, k) == (k', v)
    decreases k' - k
  {
    if k < k' {
      OnesStep(k);
      OnesMonotone(k + 1, k');
      assert col >= Pow26(k);
      SplitColumnUnique(col - Pow26(k), k + 1, k', v);
    }
  }

  lemma {:induction false} Base26Bound(ds: seq<nat>)
    requires AllBase26(ds)
    ensures Base26Value(ds) < Pow26(|ds|)
  {
    if ds != [] {
      Base26Bound(ds[..|ds| - 1]);
    }
  }

  /** Fixed-width digits and their value are inverse to each other. */
  lemma {:induction false} FixedDigitsValue(v: nat, k: nat)
    requires v < Pow26(k)
    ensures Base26Value(FixedDigits(v, k)) == v
  {
    if k > 0 {
      FixedDigitsValue(v / 26, k - 1);
      var ds := FixedDigits(v, k);
      assert ds[..|ds| - 1] == FixedDigits(v / 26, k - 1);
    }
  }

  lemma {:induction false} DigitsOfValue(ds: seq<nat>)
    requires AllBase26(ds)
    ensures FixedDigits(Base26Value(ds), |ds|) == ds
  {
    if ds != [] {
      var init := ds[..|ds| - 1];
      DigitsOfValue(init);
      var v := Base26Value(ds);
      assert v / 26 == Base26Value(init) && v % 26 == ds[|ds| - 1];
      assert ds == init + [ds[|ds| - 1]];
    }
  }

  lemma {:induction false} LettersOfDigits(ds: seq<nat>)
    requires AllBase26(ds)
    ensures LetterDigits(DigitLetters(ds)) == ds
  {
  }

  lemma {:induction false} DigitsOfLetters(s: string)
    requires AllUpper(s)
    ensures DigitLetters(LetterDigits(s)) == s
  {
    assert AllLetters(s);
    var t := DigitLetters(LetterDigits(s));
    forall i | 0 <= i < |s| ensures t[i] == s[i] {
      assert Letter(LetterValue(s[i])) == s[i];
    }
  }

  // ---------------------------------------------------------------------------
  // The intended codec is a bijection between columns and non-empty upper-case strings

  /** Decoding the letters of a column gives the column back. */
  lemma {:induction false} ColumnRoundTrip(col: nat)
    ensures AllLetters(ColumnToA1(col)) && ColumnFromA1(ColumnToA1(col)) == col
  {
    var (k, v) := SplitColumn(col, 1);
    SplitColumnBounds(col, 1);
    FixedDigitsValue(v, k);
    LettersOfDigits(FixedDigits(v, k));
    assert Ones(1) == 1;
  }

  /** Every non-empty upper-case string is the A1 rendering of the column it decodes to. */
  lemma {:induction false} LettersRoundTrip(s: string)
    requires |s| >= 1 && AllUpper(s)
    ensures ColumnFromA1(s) >= 0 && ColumnToA1(ColumnFromA1(s)) == s
  {
    assert AllLetters(s);
    var ds := LetterDigits(s);
    var v := Base26Value(ds);
    Base26Bound(ds);
    OnesMonotone(1, |s|);
    assert Ones(1) == 1;
    var col := v + Ones(|s|) - 1;
    SplitColumnUnique(col, 1, |s|, v);
    DigitsOfValue(ds);
    DigitsOfLetters(s);
  }

  /** Case does not matter when decoding. */
  lemma {:induction false} ColumnFromA1IgnoresCase(s: string, t: string)
    requires AllLetters(s) && AllLetters(t) && |s| == |t|
    requires forall i :: 0 <= i < |s| ==> LetterValue(s[i]) == LetterValue(t[i])
    ensures ColumnFromA1(s) == ColumnFromA1(t)
  {
    assert LetterDigits(s) == LetterDigits(t);
  }

  /** The boundaries named in the class documentation. */
  lemma {:induction false} ColumnExamples()
    ensures ColumnToA1(0) == "A" && ColumnToA1(25) == "Z"
    ensures ColumnToA1(26) == "AA" && ColumnToA1(51) == "AZ" && ColumnToA1(52) == "BA"
    ensures ColumnToA1(701) == "ZZ" && ColumnToA1(702) == "AAA"
  {
    assert Pow26(1) == 26 && Pow26(2) == 676 && Pow26(3) == 17576;
    assert SplitColumn(0, 1) == (1, 0);
    assert SplitColumn(25, 1) == (1, 25);
    assert SplitColumn(26, 1) == SplitColumn(0, 2) == (2, 0);
    assert SplitColumn(51, 1) == SplitColumn(25, 2) == (2, 25);
    assert SplitColumn(52, 1) == SplitColumn(26, 2) == (2, 26);
    assert SplitColumn(701, 1) == SplitColumn(675, 2) == (2, 675);
    assert SplitColumn(702, 1) == SplitColumn(676, 2) == SplitColumn(0, 3) == (3, 0);
    assert FixedDigits(0, 1) == [0];
    assert FixedDigits(25, 1) == [25];
    assert FixedDigits(0, 2) == [0, 0];
    assert FixedDigits(25, 2) == [0, 25];
    assert FixedDigits(26, 2) == [1, 0];
    assert FixedDigits(675, 2) == [25, 25];
    assert FixedDigits(0, 3) == [0, 0, 0];
  }

  // ---------------------------------------------------------------------------
  // The helpers as written

  /** Java's `Character.digit(ch, 26)`: 0-9, then a-p or A-P for 10-25. */
  function Base26DigitValue(ch: char): (d: Option<nat>)
    ensures d.Some? ==> d.value < 26
  {
    if '0' <= ch <= '9' then Some(ch as int - '0' as int)
    else if 'A' <= ch <= 'P' then Some(ch as int - 'A' as int + 10)
    else if 'a' <= ch <= 'p' then Some(ch as int - 'a' as int + 10)
    else None
  }

  /**
   * Java's `Integer.parseInt(s, 26)` on a string without a sign; None for the
   * `NumberFormatException` it throws on the empty string or a non-digit.
   */
  function ParseBase26(s: string): (r: Option<nat>)
    ensures r.Some? <==> s != [] && forall i :: 0 <= i < |s| ==> Base26DigitValue(s[i]).Some?
    decreases |s|
  {
    if s == [] then None
    else
      var d := Base26DigitValue(s[|s| - 1]);
      if d.None? then None
      else if |s| == 1 then d
      else
        var init := ParseBase26(s[..|s| - 1]);
        assert forall i :: 0 <= i < |s| - 1 ==> s[..|s| - 1][i] == s[i];
        if init.None? then None else Some(26 * init.value + d.value)
  }

  /** A numeral of k copies of one digit d has the value d * (1 + 26 + ... + 26^(k-1)). */
  lemma {:induction false} ParseBase26Repeated(c: char, k: nat)
    requires k >= 1 && Base26DigitValue(c).Some?
    ensures ParseBase26(seq(k, _ => c)) == Some(Base26DigitValue(c).value * Ones(k))
  {
    var d := Base26DigitValue(c).value;
    var s := seq(k, _ => c);
    if k == 1 {
      assert Ones(1) == 1;
    } else {
      ParseBase26Repeated(c, k - 1);
      assert s[..k - 1] == seq(k - 1, _ => c);
      ScaleStep(d, Ones(k - 1));
    }
  }

  lemma {:induction false} ScaleStep(d: int, o: int)
    ensures 26 * (d * o) + d == d * (26 * o + 1)
  {
    assert d * (26 * o + 1) == d * (26 * o) + d;
    assert d * (26 * o) == 26 * (d * o);
  }

  /**
   * `charToBase26` as written: after subtracting 10 it tests the range A..J,
   * so only K..T are shifted by a further 7.
   */
  function CharToBase26AsWritten(input: char): (ch: char)
    requires IsLetter(input)
    ensures LetterValue(input) >= 20 ==> Base26DigitValue(ch) == Some(LetterValue(input))
    ensures LetterValue(input) < 20 ==> Base26DigitValue(ch) != Some(LetterValue(input))
  {
    var upper := if 'a' <= input <= 'z' then input as int - 32 else input as int;
    var shifted := upper - 10;
    (if 'A' as int <= shifted <= 'J' as int then shifted - 7 else shifted) as char
  }

  /** `charToBase26` with the range test it needs, '7'..'@': the base-26 digit of the letter. */
  function CharToBase26(input: char): (ch: char)
    requires IsLetter(input)
    ensures Base26DigitValue(ch) == Some(LetterValue(input))
  {
    var upper := if 'a' <= input <= 'z' then input as int - 32 else input as int;
    var shifted := upper - 10;
    (if '7' as int <= shifted <= '@' as int then shifted - 7 else shifted) as char
  }

  /**
   * `columnFromA1` as written: every digit is taken from `col.charAt(0)`, and
   * the digits come from `charToBase26` as written. None stands for the
   * `NumberFormatException` that `parseInt` throws on a non-digit. The result
   * depends only on the first letter and the length.
   */
  function ColumnFromA1AsWritten(col: string): (r: Option<int>)
    requires AllLetters(col)
    ensures col != [] && Base26DigitValue(CharToBase26AsWritten(col[0])).None? ==> r == None
    ensures col != [] && Base26DigitValue(CharToBase26AsWritten(col[0])).Some? ==>
      r == Some((Base26DigitValue(CharToBase26AsWritten(col[0])).value + 1) * Ones(|col|) - 1)
  {
    if col == [] then Some(-1)
    else
      var c := CharToBase26AsWritten(col[0]);
      var k := |col|;
      ParseRepeated(c, k);
      ParseRepeated('1', k);
      var v := ParseBase26(seq(k, _ => c));
      var add := ParseBase26(seq(k, _ => '1'));
      if v.None? || add.None? then None
      else
        AddBlock(Base26DigitValue(c).value, Ones(k));
        Some(v.value + add.value - 1)
  }

  /** What `parseInt` makes of k copies of one character. */
  lemma {:induction false} ParseRepeated(c: char, k: nat)
    requires k >= 1
    ensures Base26DigitValue(c).None? ==> ParseBase26(seq(k, _ => c)) == None
    ensures Base26DigitValue(c).Some? ==> ParseBase26(seq(k, _ => c)) == Some(Base26DigitValue(c).value * Ones(k))
  {
    if Base26DigitValue(c).Some? {
      ParseBase26Repeated(c, k);
    } else {
      assert seq(k, _ => c)[k - 1] == c;
    }
  }

  lemma {:induction false} AddBlock(d: int, o: int)
    ensures d * o + 1 * o == (d + 1) * o
  {
  }

  /** The digit `Integer.toString(v, 26)` writes for d: 0-9, then a-p. */
  function JavaDigit(d: nat): (ch: char)
    requires d < 26
    ensures Base26DigitValue(ch) == Some(d)
    ensures '0' <= ch <= '9' || 'a' <= ch <= 'p'
    ensures '0' <= ch <= '9' <==> d < 10
  {
    if d < 10 then ('0' as int + d) as char else ('a' as int + d - 10) as char
  }

  /**
   * Java's `Integer.toString(v, 26)` for v >= 0: lower-case digits without a
   * leading zero, which `Integer.parseInt(s, 26)` reads back as v.
   */
  function JavaBase26String(v: nat): (s: string)
    ensures |s| >= 1 && (v >= 1 ==> s[0] != '0')
    ensures forall i :: 0 <= i < |s| ==> '0' <= s[i] <= '9' || 'a' <= s[i] <= 'p'
    ensures ParseBase26(s) == Some(v)
    decreases v
  {
    var ch := JavaDigit(v % 26);
    if v < 26 then [ch]
    else
      var init := JavaBase26String(v / 26);
      var s := init + [ch];
      assert s[..|s| - 1] == init;
      s
  }

  /** The `while` loop of `columnToA1`: zeros in front of `text` up to k characters. */
  function Pad(text: string, k: nat): (p: string)
    ensures |p| == if |text| < k then k else |text|
  {
    if |text| < k then seq(k - |text|, _ => '0') + text else text
  }

  /** The Java digits of a digit sequence. */
  function JavaDigits(ds: seq<nat>): (s: string)
    requires AllBase26(ds)
    ensures |s| == |ds|
  {
    seq(|ds|, i requires 0 <= i < |ds| => JavaDigit(ds[i]))
  }

  lemma {:induction false} ZeroDigits(k: nat)
    ensures FixedDigits(0, k) == seq(k, _ => 0)
  {
    if k > 0 {
      ZeroDigits(k - 1);
    }
  }

  /**
   * `Integer.toString(v, 26)` padded with zeros to k places is the Java rendering
   * of the k base-26 digits of v.
   */
  lemma {:induction false} JavaDigitsPadded(v: nat, k: nat)
    requires k >= 1 && v < Pow26(k)
    ensures |JavaBase26String(v)| <= k
    ensures Pad(JavaBase26String(v), k) == JavaDigits(FixedDigits(v, k))
    decreases k
  {
    if v < 26 {
      PaddedDigit(v, k);
    } else {
      assert k >= 2;
      JavaDigitsPadded(v / 26, k - 1);
      PaddedStep(v, k);
    }
  }

  lemma {:induction false} PaddedDigit(v: nat, k: nat)
    requires 1 <= k && v < 26
    ensures |JavaBase26String(v)| <= k
    ensures Pad(JavaBase26String(v), k) == JavaDigits(FixedDigits(v, k))
  {
    var t := JavaBase26String(v);
    var ds := FixedDigits(v, k);
    assert t == [JavaDigit(v)];
    ZeroDigits(k - 1);
    assert ds == FixedDigits(0, k - 1) + [v];
    var p := Pad(t, k);
    forall i | 0 <= i < k
      ensures p[i] == JavaDigits(ds)[i]
    {
      if i < k - 1 {
        assert p[i] == '0' && ds[i] == 0;
      } else {
        assert p[i] == JavaDigit(v) && ds[i] == v;
      }
    }
  }

  lemma {:induction false} PaddedStep(v: nat, k: nat)
    requires 2 <= k && 26 <= v
    requires |JavaBase26String(v / 26)| <= k - 1
    requires Pad(JavaBase26String(v / 26), k - 1) == JavaDigits(FixedDigits(v / 26, k - 1))
    ensures |JavaBase26String(v)| <= k
    ensures Pad(JavaBase26String(v), k) == JavaDigits(FixedDigits(v, k))
  {
    var t := JavaBase26String(v);
    var init := JavaBase26String(v / 26);
    var ch := JavaDigit(v % 26);
    assert t == init + [ch];
    var ds0 := FixedDigits(v / 26, k - 1);
    assert FixedDigits(v, k) == ds0 + [v % 26];
    JavaDigitsSnoc(ds0, v % 26);
    PadSnoc(init, ch, k);
  }

  lemma {:induction false} JavaDigitsSnoc(ds: seq<nat>, d: nat)
    requires AllBase26(ds) && d < 26
    ensures AllBase26(ds + [d]) && JavaDigits(ds + [d]) == JavaDigits(ds) + [JavaDigit(d)]
  {
  }

  lemma {:induction false} PadSnoc(text: string, ch: char, k: nat)
    requires 1 <= k && |text| <= k - 1
    ensures Pad(text + [ch], k) == Pad(text, k - 1) + [ch]
  {
    if |text| < k - 1 {
      assert Pad(text + [ch], k) == seq(k - 1 - |text|, _ => '0') + text + [ch];
    }
  }

  /**
   * `charFromBase26` as written: adds 7 to a decimal digit, then 10 to
   * everything. Decimal digits become the right upper-case letters; the digits
   * a-p become the right letters in lower case.
   */
  function CharFromBase26AsWritten(input: char): (ch: char)
    requires '0' <= input <= '9' || 'a' <= input <= 'p'
    ensures IsLetter(ch) && Base26DigitValue(input) == Some(LetterValue(ch))
    ensures IsUpper(ch) <==> '0' <= input <= '9'
  {
    var shifted := if '0' <= input <= '9' then input as int + 7 else input as int;
    (shifted + 10) as char
  }

  /**
   * `columnToA1` as written: the right letters, but those from K on, which
   * `Integer.toString` writes as the digits a-p, stay lower-case.
   */
  function ColumnToA1AsWritten(col: nat): (s: string)
    ensures |s| == |ColumnToA1(col)|
    ensures forall i :: 0 <= i < |s| ==> IsLetter(s[i]) && LetterValue(s[i]) == LetterValue(ColumnToA1(col)[i])
    ensures forall i :: 0 <= i < |s| ==> (IsUpper(s[i]) <==> LetterValue(s[i]) < 10)
  {
    var (k, v) := SplitColumn(col, 1);
    SplitColumnBounds(col, 1);
    var padded := Pad(JavaBase26String(v), k);
    JavaDigitsPadded(v, k);
    seq(|padded|, i requires 0 <= i < |padded| => CharFromBase26AsWritten(padded[i]))
  }

  /** As written, A decodes to 7 and I to no digit at all, where 0 and 8 are meant. */
  lemma {:induction false} CharToBase26AsWrittenWrong()
    ensures CharToBase26AsWritten('A') == '7' && Base26DigitValue(CharToBase26('A')) == Some(0)
    ensures Base26DigitValue(CharToBase26AsWritten('I')) == None
    ensures Base26DigitValue(CharToBase26AsWritten('J')) == None
    ensures Base26DigitValue(CharToBase26AsWritten('K')) == None
  {
  }

  /** As written, "A" is column 7, "I" throws, and BA and BB are the same column. */
  lemma {:induction false} ColumnFromA1AsWrittenWrong()
    ensures ColumnFromA1AsWritten("A") == Some(7) && ColumnFromA1("A") == 0
    ensures ColumnFromA1AsWritten("I") == None
    ensures ColumnFromA1AsWritten("BA") == ColumnFromA1AsWritten("BB") == Some(242)
    ensures ColumnFromA1("BA") == 52 && ColumnFromA1("BB") == 53
  {
    assert CharToBase26AsWritten('A') == '7';
    assert CharToBase26AsWritten('B') == '8';
    assert CharToBase26AsWritten('I') == '?';
    assert ParseBase26("7") == Some(7);
    assert ParseBase26("1") == Some(1);
    var bb := seq(2, _ => CharToBase26AsWritten('B'));
    assert bb == "88";
    assert ParseBase26("88") == Some(216);
    var ones := seq(2, _ => '1');
    assert ones == "11";
    assert ParseBase26("11") == Some(27);
    assert LetterDigits("BA") == [1, 0];
    assert LetterDigits("BB") == [1, 1];
    assert LetterDigits("A") == [0];
  }

  /** As written, column 10 is rendered "k" where "K" is meant. */
  lemma {:induction false} ColumnToA1AsWrittenWrong()
    ensures ColumnToA1AsWritten(10) == "k" && ColumnToA1(10) == "K"
  {
    assert SplitColumn(10, 1) == (1, 10);
    assert JavaBase26String(10) == "a";
    assert CharFromBase26AsWritten('a') == 'k';
    var out := ColumnToA1AsWritten(10);
    assert |out| == 1 && out[0] == 'k';
    assert FixedDigits(10, 1) == [10];
  }

  /** A non-empty string of letters names a real column. */
  lemma {:induction false} ColumnFromA1NonNegative(s: string)
    requires AllLetters(s) && |s| >= 1
    ensures ColumnFromA1(s) >= 0
  {
    OnesMonotone(1, |s|);
    assert Ones(1) == 1;
  }
}
