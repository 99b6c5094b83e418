/**
 * An immutable reference to one cell of a table: a zero-based (row, column)
 * pair, or the error reference `#REF!` with row and column -1. It has a
 * row-first and a column-first order, equality and a hash, and the two
 * spreadsheet notations A1 (column letters, then the 1-based row) and R1C1.
 */
module CellReferences {
  import opened Common
  import opened Decimal
  import opened A1Columns

  datatype RefValue = RefValue(row: int, column: int)

  /** What the factories can build: non-negative coordinates, or the (-1, -1) sentinel. */
  type CellRef = r: RefValue | (r.row >= 0 && r.column >= 0) || (r.row == -1 && r.column == -1)
    witness RefValue(-1, -1)

  /** `REF_ERROR`, the reference `#REF!`. */
  const RefError: CellRef := RefValue(-1, -1)

  const IntMin: int := -0x8000_0000
  const IntMax: int := 0x7fff_ffff

  /** `isRefError()`: set by the private constructor when both coordinates are -1, so only `REF_ERROR` has it. */
  predicate IsRefError(ref: RefValue)
    ensures IsRefError(ref) <==> ref == RefError
  {
    ref.row == -1 && ref.column == -1
  }

  /** `of(row, col)`: zero-based coordinates, negative ones rejected. */
  function Of(row: int, col: int): (r: Result<CellRef>)
    ensures r.Err? <==> row < 0 || col < 0
    ensures r.Ok? ==> GetRow(r.value) == row && GetColumn(r.value) == col && !IsRefError(r.value)
  {
    if row < 0 || col < 0 then
      Result<CellRef>.Err(IllegalArgument("Relative or negative cell references are not allowed: Row "
        + IntToString(row) + ", column " + IntToString(col)))
    else
      Ok(RefValue(row, col))
  }

  /** `getRow()`: the zero-based row, -1 for the error reference. */
  function GetRow(ref: CellRef): (r: int)
    ensures IsRefError(ref) ==> r == -1
    ensures !IsRefError(ref) ==> r >= 0
  {
    ref.row
  }

  /** `getColumn()`: the zero-based column, -1 for the error reference. */
  function GetColumn(ref: CellRef): (c: int)
    ensures IsRefError(ref) ==> c == -1
    ensures !IsRefError(ref) ==> c >= 0
  {
    ref.column
  }

  /** `transpose()`: row and column swapped; the error reference stays the error reference. */
  function Transpose(ref: CellRef): (t: CellRef)
    ensures GetRow(t) == GetColumn(ref) && GetColumn(t) == GetRow(ref)
    ensures IsRefError(t) <==> IsRefError(ref)
  {
    RefValue(ref.column, ref.row)
  }

  /** `toString()`: "row, column", or `#REF!`. */
  function ToString(ref: CellRef): (s: string)
    ensures IsRefError(ref) <==> s == "#REF!"
  {
    if IsRefError(ref) then "#REF!"
    else
      var s := IntToString(ref.row) + ", " + IntToString(ref.column);
      assert s[0] == IntToString(ref.row)[0];
      s
  }

  /** (r1, c1) comes strictly before (r2, c2) when the first coordinate decides first. */
  predicate LexLess(a1: int, a2: int, b1: int, b2: int) { a1 < b1 || (a1 == b1 && a2 < b2) }

  /**
   * `compareTo`: the error reference is below every valid one (by the extreme
   * values `Integer.MIN_VALUE` and `MAX_VALUE`), and valid ones compare by the
   * difference of their rows, then of their columns.
   */
  function CompareTo(a: CellRef, b: CellRef): (r: int)
    ensures IsRefError(a) && IsRefError(b) ==> r == 0
    ensures IsRefError(a) && !IsRefError(b) ==> r == IntMin
    ensures !IsRefError(a) && IsRefError(b) ==> r == IntMax
    ensures !IsRefError(a) && !IsRefError(b) ==>
      (r < 0 <==> LexLess(a.row, a.column, b.row, b.column)) &&
      (r > 0 <==> LexLess(b.row, b.column, a.row, a.column))
  {
    if IsRefError(a) && IsRefError(b) then 0
    else if IsRefError(a) && !IsRefError(b) then IntMin
    else if !IsRefError(a) && IsRefError(b) then IntMax
    else if a.row != b.row then a.row - b.row
    else if a.column != b.column then a.column - b.column
    else 0
  }

  /** `compareTransposed` and `TRANSPOSED_COMPARE`: the same, columns first. */
  function CompareTransposed(a: CellRef, b: CellRef): (r: int)
    ensures IsRefError(a) && IsRefError(b) ==> r == 0
    ensures IsRefError(a) && !IsRefError(b) ==> r == IntMin
    ensures !IsRefError(a) && IsRefError(b) ==> r == IntMax
    ensures !IsRefError(a) && !IsRefError(b) ==>
      (r < 0 <==> LexLess(a.column, a.row, b.column, b.row)) &&
      (r > 0 <==> LexLess(b.column, b.row, a.column, a.row))
  {
    if IsRefError(a) && IsRefError(b) then 0
    else if IsRefError(a) && !IsRefError(b) then IntMin
    else if !IsRefError(a) && IsRefError(b) then IntMax
    else if a.column != b.column then a.column - b.column
    else if a.row != b.row then a.row - b.row
    else 0
  }

  /** `equals`: both the error reference, or both valid with the same coordinates. */
  function Equals(a: CellRef, b: CellRef): (eq: bool)
    ensures eq <==> a == b
  {
    if IsRefError(b) && IsRefError(a) then true
    else if IsRefError(b) != IsRefError(a) then false
    else b.row == a.row && b.column == a.column
  }

  /**
   * `hashCode`, as the unsigned value of its 32 bits: `0xffffffff` for the
   * error reference, else the low 16 bits of the row above the low 16 bits of
   * the column (`& 0xffff` is Euclidean `% 0x1_0000` on two's complement).
   */
  function HashCode(ref: CellRef): (h: nat)
    ensures h < 0x1_0000_0000
    ensures IsRefError(ref) ==> h == 0xffff_ffff
  {
    if IsRefError(ref) then 0xffff_ffff
    else (ref.row % 0x1_0000) * 0x1_0000 + ref.column % 0x1_0000
  }

  function Sign(x: int): int { if x < 0 then -1 else if x == 0 then 0 else 1 }

  /** Both orders are antisymmetric in sign. */
  lemma {:induction false} CompareAntisymmetric(a: CellRef, b: CellRef)
    ensures Sign(CompareTo(a, b)) == -Sign(CompareTo(b, a))
    ensures Sign(CompareTransposed(a, b)) == -Sign(CompareTransposed(b, a))
  {
  }

  /** Both orders are transitive. */
  lemma {:induction false} CompareTransitive(a: CellRef, b: CellRef, c: CellRef)
    ensures CompareTo(a, b) < 0 && CompareTo(b, c) < 0 ==> CompareTo(a, c) < 0
    ensures CompareTransposed(a, b) < 0 && CompareTransposed(b, c) < 0 ==> CompareTransposed(a, c) < 0
  {
  }

  /** The error reference is below every valid reference, in both orders. */
  lemma {:induction false} RefErrorIsLeast(v: CellRef)
    requires !IsRefError(v)
    ensures CompareTo(RefError, v) < 0 && CompareTo(v, RefError) > 0
    ensures CompareTransposed(RefError, v) < 0 && CompareTransposed(v, RefError) > 0
    ensures Equals(RefError, RefError) && !Equals(RefError, v)
  {
  }

  /** The column-first order is the row-first order of the transposed references. */
  lemma {:induction false} CompareTransposedIsTransposedCompare(a: CellRef, b: CellRef)
    ensures CompareTransposed(a, b) == CompareTo(Transpose(a), Transpose(b))
  {
  }

  /** `equals` agrees with both orders. */
  lemma {:induction false} EqualsMatchesCompare(a: CellRef, b: CellRef)
    ensures Equals(a, b) <==> CompareTo(a, b) == 0
    ensures Equals(a, b) <==> CompareTransposed(a, b) == 0
  {
  }

  /** Equal references hash alike. */
  lemma {:induction false} HashRespectsEquals(a: CellRef, b: CellRef)
    requires Equals(a, b)
    ensures HashCode(a) == HashCode(b)
  {
  }

  /** Below 2^16 in both coordinates, distinct valid references hash apart. */
  lemma {:induction false} HashInjectiveOnSmall(a: CellRef, b: CellRef)
    requires !IsRefError(a) && !IsRefError(b)
    requires a.row < 0x1_0000 && a.column < 0x1_0000 && b.row < 0x1_0000 && b.column < 0x1_0000
    requires HashCode(a) == HashCode(b)
    ensures Equals(a, b)
  {
    var h := HashCode(a);
    assert a.row == h / 0x1_0000 == b.row;
  }

  /** The error reference transposes to itself and renders as `#REF!` everywhere. */
  lemma {:induction false} RefErrorRendering()
    ensures Transpose(RefError) == RefError
    ensures ToString(RefError) == "#REF!" && ToA1Notation(RefError) == "#REF!"
    ensures ToR1C1Notation(RefError) == "#REF!"
    ensures HashCode(RefError) == 0xffff_ffff
  {
  }

  // ---------------------------------------------------------------------------
  // R1C1 notation

  predicate IsR(c: char) { c == 'R' || c == 'r' }

  predicate IsC(c: char) { c == 'C' || c == 'c' }

  /** The first `C` (either case) at or after position `i`, or |s| if there is none. */
  function FindC(s: string, i: nat): (j: nat)
    requires i <= |s|
    ensures i <= j <= |s| && (j < |s| ==> IsC(s[j]))
    ensures forall k :: i <= k < j ==> !IsC(s[k])
    decreases |s| - i
  {
    if i == |s| || IsC(s[i]) then i else FindC(s, i + 1)
  }

  /**
   * `^R([1-9]\d*)C([1-9]\d*)$`, case-insensitively. Neither number can hold a
   * C, so the C that separates them is the first one.
   */
  predicate IsStrictR1C1(s: string)
    ensures IsStrictR1C1(s) ==> IsLenientR1C1(s)
  {
    |s| >= 1 && IsR(s[0]) &&
    var j := FindC(s, 1);
    j < |s| && IsPositiveNumeral(s[1..j]) && IsPositiveNumeral(s[j + 1..])
  }

  /** `-?\d+` */
  predicate IsSignedNumeral(t: string)
  {
    (|t| >= 1 && AllDigits(t)) || (|t| >= 2 && t[0] == '-' && AllDigits(t[1..]))
  }

  /** `(-?\d+|\[-?\d+\])?` */
  predicate IsLenientPart(t: string)
  {
    t == [] || IsSignedNumeral(t) ||
    (|t| >= 2 && t[0] == '[' && t[|t| - 1] == ']' && IsSignedNumeral(t[1..|t| - 1]))
  }

  /** `^R(-?\d+|\[-?\d+\])?C(-?\d+|\[-?\d+\])?$`, case-insensitively: relative forms too. */
  predicate IsLenientR1C1(s: string)
    ensures IsLenientR1C1(s) ==> |s| >= 2 && IsR(s[0])
  {
    |s| >= 1 && IsR(s[0]) &&
    var j := FindC(s, 1);
    j < |s| && IsLenientPart(s[1..j]) && IsLenientPart(s[j + 1..])
  }

  /** `ofR1C1Notation`, intended: the 1-based numbers are made zero-based. */
  function OfR1C1Notation(r1c1n: string): (r: Result<CellRef>)
    ensures r.Ok? <==> IsStrictR1C1(r1c1n)
    ensures r.Ok? ==> !IsRefError(r.value)
  {
    if !IsStrictR1C1(r1c1n) then
      if IsLenientR1C1(r1c1n) then
        Result<CellRef>.Err(IllegalArgument("Relative or negative cell references are not allowed: " + r1c1n))
      else
        Result<CellRef>.Err(IllegalArgument("Invalid R1C1 notation: " + r1c1n))
    else
      var j := FindC(r1c1n, 1);
      NatToStringParse(r1c1n[1..j]);
      NatToStringParse(r1c1n[j + 1..]);
      Ok(RefValue(ParseNat(r1c1n[1..j]) - 1, ParseNat(r1c1n[j + 1..]) - 1))
  }

  /**
   * `ofR1C1Notation` as written: the parsed 1-based numbers are stored
   * unchanged, so it refuses what the intended one refuses, with the same
   * message, and accepts the rest one row down and one column right.
   */
  function OfR1C1NotationAsWritten(r1c1n: string): (r: Result<CellRef>)
    ensures r.Err? <==> OfR1C1Notation(r1c1n).Err?
    ensures r.Err? ==> r == OfR1C1Notation(r1c1n)
    ensures r.Ok? ==> OfR1C1Notation(r1c1n).value == RefValue(r.value.row - 1, r.value.column - 1)
  {
    if !IsStrictR1C1(r1c1n) then
      if IsLenientR1C1(r1c1n) then
        Result<CellRef>.Err(IllegalArgument("Relative or negative cell references are not allowed: " + r1c1n))
      else
        Result<CellRef>.Err(IllegalArgument("Invalid R1C1 notation: " + r1c1n))
    else
      var j := FindC(r1c1n, 1);
      Ok(RefValue(ParseNat(r1c1n[1..j]), ParseNat(r1c1n[j + 1..])))
  }

  /** `toR1C1Notation`: "R" row+1 "C" column+1, or `#REF!` for the error reference only. */
  function ToR1C1Notation(ref: CellRef): (s: string)
    ensures s == "#REF!" <==> IsRefError(ref)
  {
    if IsRefError(ref) then "#REF!"
    else
      var s := "R" + NatToString(ref.row + 1) + "C" + NatToString(ref.column + 1);
      assert s[0] == 'R';
      s
  }

  function AsciiUpper(c: char): char
  {
    if 'a' <= c <= 'z' then (c as int - 32) as char else c
  }

  function UpperString(s: string): (u: string)
    ensures |u| == |s|
  {
    seq(|s|, i requires 0 <= i < |s| => AsciiUpper(s[i]))
  }

  lemma {:induction false} UpperConcat(x: string, y: string)
    ensures UpperString(x + y) == UpperString(x) + UpperString(y)
  {
  }

  lemma {:induction false} SplitR1C1(a: string, b: string)
    requires IsPositiveNumeral(a) && IsPositiveNumeral(b)
    ensures var s := "R" + a + "C" + b;
      FindC(s, 1) == |a| + 1 && s[1..|a| + 1] == a && s[|a| + 2..] == b
  {
    var s := "R" + a + "C" + b;
    assert forall k :: 1 <= k < |a| + 1 ==> s[k] == a[k - 1];
    assert s[|a| + 1] == 'C';
    FindCIs(s, 1, |a| + 1);
    assert s[1..|a| + 1] == a;
    assert s[|a| + 2..] == b;
  }

  lemma {:induction false} FindCIs(s: string, i: nat, j: nat)
    requires i <= j < |s| && IsC(s[j])
    requires forall k :: i <= k < j ==> !IsC(s[k])
    ensures FindC(s, i) == j
    decreases j - i
  {
    if i < j {
      FindCIs(s, i + 1, j);
    }
  }

  /** The R1C1 rendering of a valid reference matches the strict pattern and parses back. */
  lemma {:induction false} R1C1RoundTrip(ref: CellRef)
    requires !IsRefError(ref)
    ensures IsStrictR1C1(ToR1C1Notation(ref))
    ensures OfR1C1Notation(ToR1C1Notation(ref)) == Ok(ref)
  {
    var a := NatToString(ref.row + 1);
    var b := NatToString(ref.column + 1);
    NatToStringPositive(ref.row + 1);
    NatToStringPositive(ref.column + 1);
    SplitR1C1(a, b);
    ParseNatToString(ref.row + 1);
    ParseNatToString(ref.column + 1);
  }

  /**
   * Only renderings are accepted: a string that parses is, up to the case of
   * R and C, the rendering of the reference it parses to.
   */
  lemma {:induction false} R1C1OnlyRenderings(s: string)
    requires OfR1C1Notation(s).Ok?
    ensures ToR1C1Notation(OfR1C1Notation(s).value) == UpperString(s)
  {
    var j := FindC(s, 1);
    var a, b := s[1..j], s[j + 1..];
    R1C1Shape(s);
    var ref := OfR1C1Notation(s).value;
    assert ref == RefValue(ParseNat(a) - 1, ParseNat(b) - 1);
    assert NatToString(ref.row + 1) == a by {
      NatToStringParse(a);
    }
    assert NatToString(ref.column + 1) == b by {
      NatToStringParse(b);
    }
  }

  /** A strict R1C1 string upper-cases to `R`, its row digits, `C` and its column digits. */
  lemma {:induction false} R1C1Shape(s: string)
    requires IsStrictR1C1(s)
    ensures var j := FindC(s, 1); UpperString(s) == "R" + s[1..j] + "C" + s[j + 1..]
  {
    var j := FindC(s, 1);
    var a, b := s[1..j], s[j + 1..];
    var r, c := s[..1], s[j..j + 1];
    assert s == r + a + c + b;
    assert UpperString(r) == "R" && UpperString(c) == "C";
    UpperDigits(a);
    UpperDigits(b);
    UpperConcat(r + a + c, b);
    UpperConcat(r + a, c);
    UpperConcat(r, a);
  }

  /** A relative reference is refused with its own message. */
  lemma {:induction false} R1C1RelativeMessage()
    ensures OfR1C1Notation("R[1]C1") ==
      Err(IllegalArgument("Relative or negative cell references are not allowed: R[1]C1"))
  {
    var s := "R[1]C1";
    RelativeShape();
    assert OfR1C1Notation(s) == Err(IllegalArgument("Relative or negative cell references are not allowed: " + s));
    assert "Relative or negative cell references are not allowed: " + s == "Relative or negative cell references are not allowed: R[1]C1";
  }

  /** `R[1]C1` matches the lenient pattern only. */
  lemma {:induction false} RelativeShape()
    ensures !IsStrictR1C1("R[1]C1") && IsLenientR1C1("R[1]C1")
  {
    var s := "R[1]C1";
    FindCIs(s, 1, 4);
    var a, b := s[1..4], s[5..];
    assert a == "[1]" && b == "1";
    assert !IsPositiveNumeral(a);
    assert IsLenientPart(a) by {
      assert a[1..|a| - 1] == "1";
      assert IsSignedNumeral("1");
    }
    assert IsLenientPart(b) by {
      assert IsSignedNumeral(b);
    }
  }

  /** A zero or negative number is refused with the same message. */
  lemma {:induction false} R1C1NegativeMessage()
    ensures OfR1C1Notation("R0C-2") ==
      Err(IllegalArgument("Relative or negative cell references are not allowed: R0C-2"))
  {
    var s := "R0C-2";
    NegativeShape();
    assert OfR1C1Notation(s) == Err(IllegalArgument("Relative or negative cell references are not allowed: " + s));
    assert "Relative or negative cell references are not allowed: " + s == "Relative or negative cell references are not allowed: R0C-2";
  }

  /** `R0C-2` matches the lenient pattern only. */
  lemma {:induction false} NegativeShape()
    ensures !IsStrictR1C1("R0C-2") && IsLenientR1C1("R0C-2")
  {
    var s := "R0C-2";
    FindCIs(s, 1, 2);
    var a, b := s[1..2], s[3..];
    assert a == "0" && b == "-2";
    assert !IsPositiveNumeral(a);
    assert IsLenientPart(a) by {
      assert IsSignedNumeral(a);
    }
    assert IsLenientPart(b) by {
      assert b[1..] == "2";
      assert IsSignedNumeral(b);
    }
  }


  /** Both numbers are optional in the lenient pattern, so `RC` is a relative reference. */
  lemma {:induction false} R1C1BareMessage()
    ensures OfR1C1Notation("RC") ==
      Err(IllegalArgument("Relative or negative cell references are not allowed: RC"))
  {
    var s := "RC";
    FindCIs(s, 1, 1);
    assert s[1..1] == "" && s[2..] == "";
    assert !IsStrictR1C1(s) && IsLenientR1C1(s);
    assert OfR1C1Notation(s) == Err(IllegalArgument("Relative or negative cell references are not allowed: " + s));
    assert "Relative or negative cell references are not allowed: " + s == "Relative or negative cell references are not allowed: RC";
  }

  /** Anything else is invalid. */
  lemma {:induction false} R1C1InvalidMessage()
    ensures OfR1C1Notation("A1") == Err(IllegalArgument("Invalid R1C1 notation: A1"))
  {
    assert !IsStrictR1C1("A1") && !IsLenientR1C1("A1");
    assert OfR1C1Notation("A1") == Err(IllegalArgument("Invalid R1C1 notation: " + "A1"));
    assert "Invalid R1C1 notation: " + "A1" == "Invalid R1C1 notation: A1";
  }

  /** Lower case is accepted and the numbers are made zero-based. */
  lemma {:induction false} R1C1LowerCase()
    ensures OfR1C1Notation("r3c2") == Ok(RefValue(2, 1))
  {
    var s := "r3c2";
    FindCIs(s, 1, 2);
    assert s[1..2] == "3" && s[3..] == "2";
  }

  /** As written, R1C1 parses to row 1, column 1, and renders back as R2C2. */
  lemma {:induction false} OfR1C1NotationAsWrittenWrong()
    ensures OfR1C1NotationAsWritten("R1C1") == Ok(RefValue(1, 1))
    ensures ToR1C1Notation(OfR1C1NotationAsWritten("R1C1").value) == "R2C2"
    ensures OfR1C1Notation("R1C1") == Ok(RefValue(0, 0))
  {
    var s := "R1C1";
    assert FindC(s, 1) == 2 by { FindCIs(s, 1, 2); }
    assert s[1..2] == "1" && s[3..] == "1";
  }

  // ---------------------------------------------------------------------------
  // A1 notation

  /** The first position at or after `i` that does not hold a letter, or |s|. */
  function LettersEnd(s: string, i: nat): (j: nat)
    requires i <= |s|
    ensures i <= j <= |s| && (j < |s| ==> !IsLetter(s[j]))
    ensures forall k :: i <= k < j ==> IsLetter(s[k])
    decreases |s| - i
  {
    if i == |s| || !IsLetter(s[i]) then i else LettersEnd(s, i + 1)
  }

  /**
   * `^\$?([A-Za-z]+)\$?([1-9]\d*)$`: the letters and the row numeral. Letters,
   * `$` and digits are disjoint, so each part is the longest run of its kind.
   */
  function MatchA1(s: string): (m: Option<(string, string)>)
    ensures m.Some? ==> |m.value.0| >= 1 && AllLetters(m.value.0) && IsPositiveNumeral(m.value.1)
  {
    var i := if |s| > 0 && s[0] == '$' then 1 else 0;
    var j := LettersEnd(s, i);
    var k := if j < |s| && s[j] == '$' then j + 1 else j;
    if i < j && IsPositiveNumeral(s[k..]) then Some((s[i..j], s[k..])) else None
  }

  /** `ofA1Notation`, intended: the row is made zero-based, the letters decoded as bijective base 26. */
  function OfA1Notation(a1n: string): (r: Result<CellRef>)
    ensures r.Ok? <==> MatchA1(a1n).Some?
    ensures r.Ok? ==> !IsRefError(r.value)
  {
    match MatchA1(a1n)
    case None => Err(IllegalArgument("Invalid A1 notation: " + a1n))
    case Some((letters, digits)) =>
      NatToStringParse(digits);
      ColumnFromA1NonNegative(letters);
      Ok(RefValue(ParseNat(digits) - 1, ColumnFromA1(letters)))
  }

  /**
   * `ofA1Notation` as written: the row is stored 1-based, and the column comes
   * from `columnFromA1` as written, which may throw `NumberFormatException`.
   */
  function OfA1NotationAsWritten(a1n: string): (r: Result<RefValue>)
    ensures OfA1Notation(a1n).Err? ==> r == Err(OfA1Notation(a1n).error)
    ensures r.Ok? ==> OfA1Notation(a1n).Ok? && r.value.row == OfA1Notation(a1n).value.row + 1
  {
    match MatchA1(a1n)
    case None => Err(IllegalArgument("Invalid A1 notation: " + a1n))
    case Some((letters, digits)) =>
      match ColumnFromA1AsWritten(letters)
      case None => Err(NumberFormat)
      case Some(c) => Ok(RefValue(ParseNat(digits), c))
  }

  /** `toA1Notation`: the column letters, then row+1, or `#REF!`. */
  function ToA1Notation(ref: CellRef): (s: string)
    ensures s == "#REF!" <==> IsRefError(ref)
  {
    if IsRefError(ref) then "#REF!"
    else
      var letters := ColumnToA1(ref.column);
      var s := letters + NatToString(ref.row + 1);
      assert s[0] == letters[0] && IsUpper(s[0]);
      s
  }

  /** A string without its `$` markers, upper-cased. */
  function Normalized(s: string): string
  {
    if s == [] then [] else (if s[0] == '$' then [] else [AsciiUpper(s[0])]) + Normalized(s[1..])
  }

  lemma {:induction false} NormalizedConcat(a: string, b: string)
    ensures Normalized(a + b) == Normalized(a) + Normalized(b)
  {
    if a == [] {
      assert a + b == b;
    } else {
      assert (a + b)[0] == a[0];
      assert (a + b)[1..] == a[1..] + b;
      NormalizedConcat(a[1..], b);
    }
  }

  lemma {:induction false} NormalizedPlain(s: string)
    requires forall i :: 0 <= i < |s| ==> s[i] != '$'
    ensures Normalized(s) == UpperString(s)
  {
    if s != [] {
      NormalizedPlain(s[1..]);
      assert UpperString(s) == [AsciiUpper(s[0])] + UpperString(s[1..]);
    }
  }

  lemma {:induction false} UpperLetters(s: string)
    requires AllLetters(s)
    ensures AllLetters(UpperString(s)) && AllUpper(UpperString(s))
    ensures forall i :: 0 <= i < |s| ==> LetterValue(UpperString(s)[i]) == LetterValue(s[i])
  {
  }

  lemma {:induction false} UpperDigits(s: string)
    requires AllDigits(s)
    ensures UpperString(s) == s
  {
  }

  /**
   * Every string of the A1 shape matches: an optional `$`, letters, an optional
   * `$` and a row numeral match as those letters and that numeral.
   */
  lemma {:induction false} MatchA1Parts(pre: string, l: string, mid: string, d: string)
    requires IsMarker(pre) && IsMarker(mid)
    requires |l| >= 1 && AllLetters(l) && IsPositiveNumeral(d)
    ensures MatchA1(pre + l + mid + d) == Some((l, d))
  {
    var s := pre + l + mid + d;
    var i, j, k := |pre|, |pre| + |l|, |pre| + |l| + |mid|;
    assert s[i] == l[0];
    assert (if |s| > 0 && s[0] == '$' then 1 else 0) == i;
    forall t | i <= t < j
      ensures IsLetter(s[t])
    {
      assert s[t] == l[t - i];
    }
    assert s[j] == if mid == [] then d[0] else '$';
    LettersEndIs(s, i, j);
    assert s[k] == d[0];
    assert (if j < |s| && s[j] == '$' then j + 1 else j) == k;
    assert s[i..j] == l && s[k..] == d;
  }

  /** The A1 rendering of a valid reference parses back to it. */
  lemma {:induction false} A1RoundTrip(ref: CellRef)
    requires !IsRefError(ref)
    ensures OfA1Notation(ToA1Notation(ref)) == Ok(ref)
  {
    var l := ColumnToA1(ref.column);
    var d := NatToString(ref.row + 1);
    NatToStringPositive(ref.row + 1);
    ColumnRoundTrip(ref.column);
    assert |l| >= 1;
    MatchA1Parts([], l, [], d);
    assert [] + l + [] + d == l + d;
    ParseNatToString(ref.row + 1);
  }

  lemma {:induction false} LettersEndIs(s: string, i: nat, j: nat)
    requires i <= j <= |s| && (j < |s| ==> !IsLetter(s[j]))
    requires forall k :: i <= k < j ==> IsLetter(s[k])
    ensures LettersEnd(s, i) == j
    decreases j - i
  {
    if i < j {
      LettersEndIs(s, i + 1, j);
    }
  }

  predicate IsMarker(m: string) { m == [] || m == "$" }

  predicate NoMarker(s: string) { forall i :: 0 <= i < |s| ==> s[i] != '$' }

  lemma {:induction false} NormalizedParts(pre: string, x: string, mid: string, y: string)
    requires IsMarker(pre) && IsMarker(mid) && NoMarker(x) && NoMarker(y)
    ensures Normalized(pre + x + mid + y) == UpperString(x) + UpperString(y)
  {
    MarkerVanishes(pre);
    MarkerVanishes(mid);
    NormalizedPlain(x);
    NormalizedPlain(y);
    NormalizedConcat(pre, x);
    assert Normalized(pre + x) == UpperString(x);
    NormalizedConcat(pre + x, mid);
    assert Normalized(pre + x + mid) == UpperString(x);
    NormalizedConcat(pre + x + mid, y);
  }

  lemma {:induction false} MarkerVanishes(m: string)
    requires IsMarker(m)
    ensures Normalized(m) == []
  {
    if m == "$" {
      assert m[1..] == [];
    }
  }

  /** What a match leaves out of the string: at most a leading `$` and a `$` before the row. */
  lemma {:induction false} MatchA1Normalized(s: string)
    requires MatchA1(s).Some?
    ensures Normalized(s) == UpperString(MatchA1(s).value.0) + MatchA1(s).value.1
  {
    var i := if |s| > 0 && s[0] == '$' then 1 else 0;
    var j := LettersEnd(s, i);
    var k := if j < |s| && s[j] == '$' then j + 1 else j;
    var letters, digits := s[i..j], s[k..];
    assert MatchA1(s).value == (letters, digits);
    var pre, mid := s[..i], s[j..k];
    assert IsMarker(pre) by {
      if i == 1 { assert pre == [s[0]]; }
    }
    assert IsMarker(mid) by {
      if k == j + 1 { assert mid == [s[j]]; }
    }
    assert NoMarker(letters) by {
      assert forall t :: 0 <= t < |letters| ==> IsLetter(letters[t]);
    }
    assert NoMarker(digits) by {
      assert AllDigits(digits);
    }
    assert s == pre + letters + mid + digits;
    NormalizedParts(pre, letters, mid, digits);
    UpperDigits(digits);
  }

  /**
   * Only renderings are accepted: a string that parses is, without its `$`
   * markers and up to case, the rendering of the reference it parses to.
   */
  lemma {:induction false} A1OnlyRenderings(s: string)
    requires OfA1Notation(s).Ok?
    ensures ToA1Notation(OfA1Notation(s).value) == Normalized(s)
  {
    var letters, digits := MatchA1(s).value.0, MatchA1(s).value.1;
    MatchA1Normalized(s);
    UpperLetters(letters);
    var up := UpperString(letters);
    ColumnFromA1IgnoresCase(letters, up);
    LettersRoundTrip(up);
    NatToStringParse(digits);
  }

  /** The first and last one-letter columns. */
  lemma {:induction false} A1SingleLetters()
    ensures OfA1Notation("A1") == Ok(RefValue(0, 0))
    ensures OfA1Notation("Z1") == Ok(RefValue(0, 25))
  {
    assert LettersEnd("A1", 0) == 1;
    assert "A1"[0..1] == "A" && "A1"[1..] == "1";
    assert LetterDigits("A") == [0];
    assert LettersEnd("Z1", 0) == 1;
    assert "Z1"[0..1] == "Z" && "Z1"[1..] == "1";
    assert LetterDigits("Z") == [25];
  }

  /** The first two-letter column comes right after Z. */
  lemma {:induction false} A1TwoLetters()
    ensures OfA1Notation("AA1") == Ok(RefValue(0, 26))
  {
    assert LettersEnd("AA1", 0) == 2;
    assert "AA1"[0..2] == "AA" && "AA1"[2..] == "1";
    assert LetterDigits("AA") == [0, 0];
    assert Base26Value([0, 0]) == 0;
    assert Ones(2) == 27 by { assert Ones(1) == 1; }
  }

  /** `$` markers and lower case are accepted. */
  lemma {:induction false} A1Absolute()
    ensures OfA1Notation("$b$3") == Ok(RefValue(2, 1))
  {
    var s := "$b$3";
    LettersEndIs(s, 1, 2);
    assert s[1..2] == "b" && s[3..] == "3";
    assert LetterDigits("b") == [1];
  }

  /** A leading zero, a missing row and letters after the row are refused. */
  lemma {:induction false} A1Refused()
    ensures OfA1Notation("A01") == Err(IllegalArgument("Invalid A1 notation: A01"))
    ensures OfA1Notation("A") == Err(IllegalArgument("Invalid A1 notation: A"))
    ensures OfA1Notation("1A") == Err(IllegalArgument("Invalid A1 notation: 1A"))
  {
    assert LettersEnd("A01", 0) == 1;
    assert "A01"[1..] == "01";
    assert LettersEnd("A", 0) == 1;
    assert "A"[1..] == "";
    assert LettersEnd("1A", 0) == 0;
    assert OfA1Notation("A01") == Err(IllegalArgument("Invalid A1 notation: " + "A01"));
    assert "Invalid A1 notation: " + "A01" == "Invalid A1 notation: A01";
    assert OfA1Notation("A") == Err(IllegalArgument("Invalid A1 notation: " + "A"));
    assert "Invalid A1 notation: " + "A" == "Invalid A1 notation: A";
    assert OfA1Notation("1A") == Err(IllegalArgument("Invalid A1 notation: " + "1A"));
    assert "Invalid A1 notation: " + "1A" == "Invalid A1 notation: 1A";
  }

  /** As written, A1 is row 1, column 7 rather than row 0, column 0. */
  lemma {:induction false} OfA1NotationAsWrittenWrong()
    ensures OfA1NotationAsWritten("A1") == Ok(RefValue(1, 7))
    ensures OfA1NotationAsWritten("I1") == Err(NumberFormat)
    ensures OfA1Notation("A1") == Ok(RefValue(0, 0))
  {
    MatchA1Parts([], "A", [], "1");
    assert [] + "A" + [] + "1" == "A1";
    MatchA1Parts([], "I", [], "1");
    assert [] + "I" + [] + "1" == "I1";
    assert LetterDigits("A") == [0];
    ColumnFromA1AsWrittenWrong();
  }
}
