/**
 * Reading CSV text, field by field, as the pattern
 * `(?:\A|\G)(?:"((?:[^"]|"")+?)"|([^",\r\n]*?))(\r\n|\r|\n|,|\z)` matches it:
 * every match starts where the previous one ended, holds one field, quoted
 * or not, and ends with the field's terminator.
 */
module CsvScanner {
  import opened Common

  /** What ends a field: a comma, a line break (CRLF, CR or LF) or the end of the text. */
  datatype Term = Comma | LineBreak | End

  /** One match: the decoded field, its terminator and where the next match starts. */
  datatype Field = Field(value: string, term: Term, next: nat)

  /** A character an unquoted field may hold. */
  predicate Plain(c: char)
  {
    c != '"' && c != ',' && c != '\r' && c != '\n'
  }

  /** `(\r\n|\r|\n|,|\z)` at position `j`: the terminator found there and its length. */
  function Terminator(s: string, j: nat): (r: Option<(Term, nat)>)
    requires j <= |s|
    ensures r.Some? <==> j == |s| || (!Plain(s[j]) && s[j] != '"')
    ensures r.Some? ==> j + r.value.1 <= |s|
    ensures r.Some? ==> (r.value.0 == End <==> r.value.1 == 0) && (r.value.0 == End <==> j == |s|)
    ensures r.Some? && j < |s| ==> (r.value.0 == Comma <==> s[j] == ',')
    ensures r.Some? && j < |s| ==> (r.value.0 == LineBreak <==> s[j] == '\r' || s[j] == '\n')
    ensures r.Some? && r.value.0 == Comma ==> r.value.1 == 1
    ensures r.Some? && r.value.0 == LineBreak ==>
      r.value.1 == if s[j] == '\r' && j + 1 < |s| && s[j + 1] == '\n' then 2 else 1
  {
    if j == |s| then Some((End, 0))
    else if s[j] == '\r' && j + 1 < |s| && s[j + 1] == '\n' then Some((LineBreak, 2))
    else if s[j] == '\r' || s[j] == '\n' then Some((LineBreak, 1))
    else if s[j] == ',' then Some((Comma, 1))
    else None
  }

  /**
   * The rest of a quoted field from position `i`, `acc` holding what is
   * decoded so far. The lazy `+?` closes the field at the first quote that
   * follows at least one unit and is itself followed by a terminator; short
   * of that, a quote must be the first of a doubled pair, which decodes to
   * one quote. No closing quote means no match.
   */
  function QuotedFrom(s: string, i: nat, acc: string): (r: Option<Field>)
    requires i <= |s|
    ensures r.Some? ==> i < r.value.next <= |s| && |r.value.value| >= 1
    ensures r.Some? && r.value.term == End ==> r.value.next == |s|
    decreases |s| - i
  {
    if i == |s| then None
    else if s[i] == '"' then
      if |acc| >= 1 && Terminator(s, i + 1).Some? then
        Some(Field(acc, Terminator(s, i + 1).value.0, i + 1 + Terminator(s, i + 1).value.1))
      else if i + 1 < |s| && s[i + 1] == '"' then QuotedFrom(s, i + 2, acc + "\"")
      else None
    else QuotedFrom(s, i + 1, acc + [s[i]])
  }

  /** `[^",\r\n]*` from `i`: where the run of plain characters stops. */
  function UnquotedEnd(s: string, i: nat): (j: nat)
    requires i <= |s|
    ensures i <= j <= |s| && (j < |s| ==> !Plain(s[j]))
    decreases |s| - i
  {
    if i == |s| || !Plain(s[i]) then i else UnquotedEnd(s, i + 1)
  }

  /**
   * The match at `at`, or `None` when the pattern cannot match there. A field
   * that opens with a quote can only be a quoted field; any other field is
   * the longest run of plain characters, which must end at a terminator.
   */
  function MatchField(s: string, at: nat): (r: Option<Field>)
    requires at <= |s|
    ensures r.Some? ==> at <= r.value.next <= |s|
    ensures r.Some? && r.value.term == End ==> r.value.next == |s|
    ensures r.Some? && r.value.term != End ==> at < r.value.next
  {
    if at < |s| && s[at] == '"' then QuotedFrom(s, at + 1, [])
    else
      var j := UnquotedEnd(s, at);
      match Terminator(s, j)
      case None => None
      case Some((t, n)) => Some(Field(s[at..j], t, j + n))
  }

  /**
   * Where the scan stops: the finished rows, the current row, the end of the
   * last comma- or line-terminated match, and whether the end of the text was
   * reached.
   */
  datatype Scan = Scan(done: seq<seq<string>>, row: seq<string>, at: nat, complete: bool)

  /**
   * The matching loop from position `at`: each field joins the current row;
   * a comma continues the row, a line break closes it and opens a new one,
   * and the end of the text stops. A position where nothing matches stops
   * the scan short.
   */
  function Tokenize(s: string, at: nat, done: seq<seq<string>>, row: seq<string>): (r: Scan)
    requires at <= |s|
    ensures r.at <= |s|
    ensures |r.done| >= |done| && r.done[..|done|] == done
    decreases |s| - at
  {
    match MatchField(s, at)
    case None => Scan(done, row, at, false)
    case Some(f) =>
      if f.term == End then Scan(done, row + [f.value], at, true)
      else if f.term == Comma then Tokenize(s, f.next, done, row + [f.value])
      else
        var r := Tokenize(s, f.next, done + [row + [f.value]], []);
        assert r.done[..|done|] == r.done[..|done| + 1][..|done|];
        r
  }

  /** The last row is dropped when it is empty or a single empty field: a text ending in a line break. */
  function Close(done: seq<seq<string>>, row: seq<string>): (rows: seq<seq<string>>)
    ensures rows == done || rows == done + [row]
    ensures rows == done <==> row == [] || row == [""]
  {
    if row == [] || row == [""] then done else done + [row]
  }

  /** The rows of the whole text, or the rows read before the scan stopped and the text left from there. */
  datatype ParseResult = Parsed(rows: seq<seq<string>>) | Unparsed(rows: seq<seq<string>>, remainder: string)

  function Parse(s: string): (p: ParseResult)
    ensures p.Unparsed? ==> |p.remainder| >= 1
  {
    var sc := Tokenize(s, 0, [], []);
    var rows := Close(sc.done, sc.row);
    if sc.complete then Parsed(rows)
    else
      assert sc.at < |s| by { TokenizeStopsEarly(s, 0, [], []); }
      Unparsed(rows, s[sc.at..])
  }

  /** A scan that stops short stops at a position before the end of the text. */
  lemma {:induction false} TokenizeStopsEarly(s: string, at: nat, done: seq<seq<string>>, row: seq<string>)
    requires at <= |s|
    ensures !Tokenize(s, at, done, row).complete ==> Tokenize(s, at, done, row).at < |s|
    decreases |s| - at
  {
    var m := MatchField(s, at);
    if m.Some? && m.value.term != End {
      if m.value.term == Comma {
        TokenizeStopsEarly(s, m.value.next, done, row + [m.value.value]);
      } else {
        TokenizeStopsEarly(s, m.value.next, done + [row + [m.value.value]], []);
      }
    } else if m.None? {
      assert UnquotedEnd(s, |s|) == |s|;
    }
  }

  /** Text without quotes always reads to the end: every field is unquoted and ends at a terminator. */
  lemma {:induction false} TokenizeWithoutQuotes(s: string, at: nat, done: seq<seq<string>>, row: seq<string>)
    requires at <= |s| && '"' !in s
    ensures Tokenize(s, at, done, row).complete
    decreases |s| - at
  {
    var j := UnquotedEnd(s, at);
    assert j < |s| ==> s[j] != '"';
    assert Terminator(s, j).Some?;
    var m := MatchField(s, at);
    assert m.Some?;
    if m.value.term == Comma {
      TokenizeWithoutQuotes(s, m.value.next, done, row + [m.value.value]);
    } else if m.value.term == LineBreak {
      TokenizeWithoutQuotes(s, m.value.next, done + [row + [m.value.value]], []);
    }
  }

  lemma {:induction false} WithoutQuotesParses(s: string)
    requires '"' !in s
    ensures Parse(s).Parsed?
  {
    TokenizeWithoutQuotes(s, 0, [], []);
  }

  /** An unquoted field is the run of plain characters up to the terminator that ends it. */
  lemma {:induction false} PlainField(s: string, at: nat, j: nat)
    requires at <= j <= |s| && Terminator(s, j).Some?
    requires forall k :: at <= k < j ==> Plain(s[k])
    ensures MatchField(s, at) == Some(Field(s[at..j], Terminator(s, j).value.0, j + Terminator(s, j).value.1))
  {
    PlainRun(s, at, j);
  }

  /** A run of plain characters that stops at `j` is where `[^",\r\n]*` stops. */
  lemma {:induction false} PlainRun(s: string, i: nat, j: nat)
    requires i <= j <= |s| && (j == |s| || !Plain(s[j]))
    requires forall k :: i <= k < j ==> Plain(s[k])
    ensures UnquotedEnd(s, i) == j
    decreases j - i
  {
    if i < j {
      PlainRun(s, i + 1, j);
    }
  }

  /** One step of the scan, for a field that ends with a comma. */
  lemma {:induction false} AfterComma(s: string, at: nat, done: seq<seq<string>>, row: seq<string>, value: string, next: nat, row': seq<string>)
    requires at <= |s| && MatchField(s, at) == Some(Field(value, Comma, next)) && row' == row + [value]
    ensures Tokenize(s, at, done, row) == Tokenize(s, next, done, row')
  {
  }

  /** One step of the scan, for a field that ends with a line break. */
  lemma {:induction false} AfterLineBreak(s: string, at: nat, done: seq<seq<string>>, row: seq<string>, value: string, next: nat,
                        done': seq<seq<string>>)
    requires at <= |s| && MatchField(s, at) == Some(Field(value, LineBreak, next)) && done' == done + [row + [value]]
    ensures Tokenize(s, at, done, row) == Tokenize(s, next, done', [])
  {
  }

  /** The last step of a scan that reaches the end. */
  lemma {:induction false} AtEnd(s: string, at: nat, done: seq<seq<string>>, row: seq<string>, value: string, row': seq<string>)
    requires at <= |s| && MatchField(s, at) == Some(Field(value, End, |s|)) && row' == row + [value]
    ensures Tokenize(s, at, done, row) == Scan(done, row', at, true)
  {
  }

  /** A scan stops short where nothing matches. */
  lemma {:induction false} Stuck(s: string, at: nat, done: seq<seq<string>>, row: seq<string>)
    requires at <= |s| && MatchField(s, at).None?
    ensures Tokenize(s, at, done, row) == Scan(done, row, at, false)
  {
  }

  /** A trailing line break adds nothing: `a,b` followed by LF reads as the single row `a,b`. */
  lemma {:induction false} TrailingLineBreakExample()
    ensures Parse("a,b\n") == Parsed([["a", "b"]])
  {
    var s := "a,b\n";
    assert Terminator(s, 1) == Some((Comma, 1));
    PlainField(s, 0, 1);
    assert s[0..1] == "a";
    assert MatchField(s, 0) == Some(Field("a", Comma, 2));
    assert Terminator(s, 3) == Some((LineBreak, 1));
    PlainField(s, 2, 3);
    assert s[2..3] == "b";
    assert MatchField(s, 2) == Some(Field("b", LineBreak, 4));
    PlainField(s, 4, 4);
    assert s[4..4] == "";
    assert MatchField(s, 4) == Some(Field("", End, 4));
    AfterComma(s, 0, [], [], "a", 2, ["a"]);
    assert ["a"] + ["b"] == ["a", "b"];
    AfterLineBreak(s, 2, [], ["a"], "b", 4, [["a", "b"]]);
    AtEnd(s, 4, [["a", "b"]], [], "", [""]);
  }

  lemma {:induction false} NoLineBreakExample()
    ensures Parse("a,b") == Parsed([["a", "b"]])
  {
    var s := "a,b";
    assert Terminator(s, 1) == Some((Comma, 1));
    PlainField(s, 0, 1);
    assert s[0..1] == "a";
    assert MatchField(s, 0) == Some(Field("a", Comma, 2));
    PlainField(s, 2, 3);
    assert s[2..3] == "b";
    assert MatchField(s, 2) == Some(Field("b", End, 3));
    AfterComma(s, 0, [], [], "a", 2, ["a"]);
    AtEnd(s, 2, [], ["a"], "b", ["a", "b"]);
    assert Tokenize(s, 0, [], []) == Scan([], ["a", "b"], 2, true);
    assert Close([], ["a", "b"]) == [["a", "b"]];
  }

  /** The empty text reads as no rows at all. */
  lemma {:induction false} EmptyTextExample()
    ensures Parse("") == Parsed([])
  {
    PlainField("", 0, 0);
  }

  /** A quoted field needs at least one character, so `""` does not read. */
  lemma {:induction false} EmptyQuotedFieldExample()
    ensures Parse("\"\"") == Unparsed([], "\"\"")
  {
    var s := "\"\"";
    assert QuotedFrom(s, 2, []) == None;
    assert MatchField(s, 0) == None;
  }

  /** CRLF, CR and LF each end a row. */
  lemma {:induction false} LineBreaksExample()
    ensures Parse("a\r\nb\rc\nd") == Parsed([["a"], ["b"], ["c"], ["d"]])
  {
    var s := "a\r\nb\rc\nd";
    LineBreaksMatches(s);
    FourLinesParse(s);
  }

  /** The four matches of the text above: one field per line, each line break of a different kind. */
  lemma {:induction false} LineBreaksMatches(s: string)
    requires s == "a\r\nb\rc\nd"
    ensures |s| == 8
    ensures MatchField(s, 0) == Some(Field("a", LineBreak, 3)) && MatchField(s, 3) == Some(Field("b", LineBreak, 5))
    ensures MatchField(s, 5) == Some(Field("c", LineBreak, 7)) && MatchField(s, 7) == Some(Field("d", End, 8))
  {
    assert Terminator(s, 1) == Some((LineBreak, 2));
    PlainField(s, 0, 1);
    assert s[0..1] == "a";
    assert Terminator(s, 4) == Some((LineBreak, 1));
    PlainField(s, 3, 4);
    assert s[3..4] == "b";
    assert Terminator(s, 6) == Some((LineBreak, 1));
    PlainField(s, 5, 6);
    assert s[5..6] == "c";
    PlainField(s, 7, 8);
    assert s[7..8] == "d";
  }

  /** Three fields that each end a line and a last one that ends the text: four rows of one cell. */
  lemma {:induction false} FourLinesParse(s: string)
    requires |s| == 8
    requires MatchField(s, 0) == Some(Field("a", LineBreak, 3)) && MatchField(s, 3) == Some(Field("b", LineBreak, 5))
    requires MatchField(s, 5) == Some(Field("c", LineBreak, 7)) && MatchField(s, 7) == Some(Field("d", End, 8))
    ensures Parse(s) == Parsed([["a"], ["b"], ["c"], ["d"]])
  {
    var none: seq<string> := [];
    assert none + ["a"] == ["a"] && none + ["b"] == ["b"] && none + ["c"] == ["c"];
    AfterLineBreak(s, 0, [], [], "a", 3, [["a"]]);
    assert [["a"]] + [["b"]] == [["a"], ["b"]];
    AfterLineBreak(s, 3, [["a"]], [], "b", 5, [["a"], ["b"]]);
    assert [["a"], ["b"]] + [["c"]] == [["a"], ["b"], ["c"]];
    AfterLineBreak(s, 5, [["a"], ["b"]], [], "c", 7, [["a"], ["b"], ["c"]]);
    AtEnd(s, 7, [["a"], ["b"], ["c"]], [], "d", ["d"]);
    assert Tokenize(s, 0, [], []) == Scan([["a"], ["b"], ["c"]], ["d"], 7, true);
    assert Close([["a"], ["b"], ["c"]], ["d"]) == [["a"], ["b"], ["c"], ["d"]];
  }


  /** Quoted fields may hold commas, and a doubled quote inside reads as one quote. */
  lemma {:induction false} QuotedFieldsExample()
    ensures Parse("\"a,b\",\"x\"\"y\"") == Parsed([["a,b", "x\"y"]])
  {
    var s := "\"a,b\",\"x\"\"y\"";
    assert |s| == 12;
    assert Terminator(s, 5) == Some((Comma, 1));
    assert QuotedFrom(s, 4, "a,b") == Some(Field("a,b", Comma, 6));
    assert "a," + [s[3]] == "a,b";
    assert QuotedFrom(s, 3, "a,") == Some(Field("a,b", Comma, 6));
    assert "a" + [s[2]] == "a,";
    assert QuotedFrom(s, 2, "a") == Some(Field("a,b", Comma, 6));
    assert [] + [s[1]] == "a";
    assert QuotedFrom(s, 1, []) == Some(Field("a,b", Comma, 6));
    assert MatchField(s, 0) == Some(Field("a,b", Comma, 6));
    assert QuotedFrom(s, 11, "x\"y") == Some(Field("x\"y", End, 12));
    assert "x\"" + [s[10]] == "x\"y";
    assert QuotedFrom(s, 10, "x\"") == Some(Field("x\"y", End, 12));
    assert Terminator(s, 9) == None;
    assert "x" + "\"" == "x\"";
    assert QuotedFrom(s, 8, "x") == Some(Field("x\"y", End, 12));
    assert [] + [s[7]] == "x";
    assert QuotedFrom(s, 7, []) == Some(Field("x\"y", End, 12));
    assert MatchField(s, 6) == Some(Field("x\"y", End, 12));
    AfterComma(s, 0, [], [], "a,b", 6, ["a,b"]);
    AtEnd(s, 6, [], ["a,b"], "x\"y", ["a,b", "x\"y"]);
    assert Tokenize(s, 0, [], []) == Scan([], ["a,b", "x\"y"], 6, true);
    assert Close([], ["a,b", "x\"y"]) == [["a,b", "x\"y"]];
  }

  /**
   * A quote inside an unquoted field stops the scan; the rows so far, the
   * current one included, and the text from the start of the failing field
   * come back.
   */
  lemma {:induction false} StrayQuoteExample()
    ensures Parse("x\ny,a\"b") == Unparsed([["x"], ["y"]], "a\"b")
  {
    var s := "x\ny,a\"b";
    assert Terminator(s, 1) == Some((LineBreak, 1));
    PlainField(s, 0, 1);
    assert s[0..1] == "x";
    assert Terminator(s, 3) == Some((Comma, 1));
    PlainField(s, 2, 3);
    assert s[2..3] == "y";
    assert UnquotedEnd(s, 4) == 5;
    assert MatchField(s, 4) == None;
    var none: seq<string> := [];
    assert none + ["x"] == ["x"];
    AfterLineBreak(s, 0, [], [], "x", 2, [["x"]]);
    AfterComma(s, 2, [["x"]], [], "y", 4, ["y"]);
    assert Tokenize(s, 0, [], []) == Scan([["x"]], ["y"], 4, false);
    assert Close([["x"]], ["y"]) == [["x"], ["y"]];
    assert s[4..] == "a\"b";
  }
}
