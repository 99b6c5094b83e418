/**
 * `CSVParser.fromString`: the matching loop over a text, the rule for the
 * last row, and the table built from the rows; and the round trip from a
 * table to its text and back.
 */
module CsvParser {
  import opened Common
  import opened TextTables
  import opened CsvWriter
  import opened CsvScanner

  /** What `fromString` produces: the table, or the table read so far and the text it could not read. */
  datatype Reading = Read(table: TextTable) | Unreadable(table: TextTable, remainder: string)

  /** Rows of strings as the collection constructor receives them: no null among them. */
  function Present(rows: seq<seq<string>>): (source: seq<seq<Option<string>>>)
    ensures Cells(source) == rows
  {
    var source := seq(|rows|, i requires 0 <= i < |rows| => seq(|rows[i]|, k requires 0 <= k < |rows[i]| => Some(rows[i][k])));
    assert forall i :: 0 <= i < |rows| ==> CellRow(source[i]) == rows[i];
    source
  }

  /**
   * The matching loop of `fromString(content)`. `items` holds the finished
   * rows followed by the current one, as the Java list does, and `at` is the
   * end of the last match that ended in a comma or a line break. Each pass is
   * one `match.find()`; the loop stops at the end of the text or where nothing
   * matches, and the result is the scanner's state at that point.
   */
  method ScanText(content: string) returns (items: seq<seq<string>>, at: nat, complete: bool)
    ensures |items| >= 1 && at <= |content|
    ensures Tokenize(content, 0, [], []) == Scan(items[..|items| - 1], items[|items| - 1], at, complete)
  {
    items := [[]];
    at := 0;
    complete := false;
    var scanning := true;
    while scanning
      invariant at <= |content| && |items| >= 1 && (scanning ==> !complete)
      invariant scanning ==> Tokenize(content, at, items[..|items| - 1], items[|items| - 1]) == Tokenize(content, 0, [], [])
      invariant !scanning ==> Tokenize(content, 0, [], []) == Scan(items[..|items| - 1], items[|items| - 1], at, complete)
      decreases scanning, |content| - at
    {
      ghost var done, row := items[..|items| - 1], items[|items| - 1];
      var m := MatchField(content, at);
      if m.None? {
        Stuck(content, at, done, row);
        scanning := false;
      } else {
        var f := m.value;
        items := items[|items| - 1 := items[|items| - 1] + [f.value]];
        assert items[..|items| - 1] == done && items[|items| - 1] == row + [f.value];
        if f.term == End {
          AtEnd(content, at, done, row, f.value, row + [f.value]);
          scanning := false;
          complete := true;
        } else {
          if f.term == LineBreak {
            AfterLineBreak(content, at, done, row, f.value, f.next, done + [row + [f.value]]);
            items := items + [[]];
            assert items[..|items| - 1] == done + [row + [f.value]];
          } else {
            AfterComma(content, at, done, row, f.value, f.next, row + [f.value]);
          }
          at := f.next;
        }
      }
    }
  }

  /**
   * The rows `fromString(content)` builds its table from: those the loop found,
   * the last one dropped when it is empty or a single empty field, and where
   * and whether the matching stopped short of the end.
   */
  method ReadRows(content: string) returns (rows: seq<seq<string>>, at: nat, complete: bool)
    ensures at <= |content|
    ensures rows == Parse(content).rows
    ensures complete <==> Parse(content).Parsed?
    ensures !complete ==> content[at..] == Parse(content).remainder
  {
    var items;
    items, at, complete := ScanText(content);
    var row := items[|items| - 1];
    if |row| == 0 || (|row| == 1 && row[0] == "") {
      items := items[..|items| - 1];
    }
    rows := items;
  }

  /**
   * `fromString(content)` as documented: the table of the rows read, or, when
   * the matching stops short of the end, the `CSVParseException` carrying that
   * table and the text not read.
   */
  method FromString(content: string) returns (r: Reading)
    ensures r.Read? <==> Parse(content).Parsed?
    ensures r.Unreadable? ==> r.remainder == Parse(content).remainder
    ensures fresh(r.table) && r.table.Valid()
    ensures r.table.width == MaxWidth(Parse(content).rows)
    ensures r.table.items == PadRows(Parse(content).rows, r.table.width)
  {
    var rows, at, complete := ReadRows(content);
    var table := new TextTable.FromCollection(Present(rows));
    if !complete {
      return Unreadable(table, content[at..]);
    }
    return Read(table);
  }

  /**
   * `fromString(content)` as written. It throws only when `hitEnd()` is false,
   * but `find` fails only after trying every later start, which sets `hitEnd`;
   * so the exception is never thrown, and text that does not read gives the
   * table of the rows read before it, with nothing to say the rest was lost.
   */
  method FromStringAsWritten(content: string) returns (table: TextTable)
    ensures fresh(table) && table.Valid()
    ensures table.width == MaxWidth(Parse(content).rows)
    ensures table.items == PadRows(Parse(content).rows, table.width)
  {
    var rows, at, complete := ReadRows(content);
    table := new TextTable.FromCollection(Present(rows));
  }

  /**
   * A quote inside an unquoted field: as documented, the text after the last
   * comma is reported as unread; as written, the same table comes back as if
   * the text had ended there.
   */
  method StrayQuoteSwallowed() returns (asWritten: TextTable, documented: Reading)
    ensures asWritten.items == [["x"], ["y"]] && asWritten.width == 1
    ensures documented.Unreadable? && documented.remainder == "a\"b"
    ensures documented.table.items == asWritten.items
  {
    var text := "x\ny,a\"b";
    StrayQuoteExample();
    RectangularPadded([["x"], ["y"]], 1);
    asWritten := FromStringAsWritten(text);
    documented := FromString(text);
  }

  // ---------------------------------------------------------------------------
  // Reading back what the writer writes

  /** What may follow a field the writer wrote: nothing, a comma or a line feed. */
  predicate Follows(tail: string)
  {
    tail == [] || tail[0] == ',' || tail[0] == '\n'
  }

  function TailTerm(tail: string): Term
  {
    if tail == [] then End else if tail[0] == ',' then Comma else LineBreak
  }

  function TailLength(tail: string): nat
  {
    if tail == [] then 0 else 1
  }

  /** What follows a field, found at `j`, ends it as the writer meant. */
  lemma {:induction false} TerminatorAt(s: string, j: nat, tail: string)
    requires j + |tail| == |s| && Follows(tail) && (tail != [] ==> s[j] == tail[0])
    ensures Terminator(s, j) == Some((TailTerm(tail), TailLength(tail)))
  {
  }

  /** The closing quote of a quoted field, then what follows it. */
  lemma {:induction false} QuotedClose(s: string, pre: string, acc: string, tail: string)
    requires s == pre + ("\"" + tail) && Follows(tail) && |acc| >= 1
    ensures QuotedFrom(s, |pre|, acc) == Some(Field(acc, TailTerm(tail), |s| - |tail| + TailLength(tail)))
  {
    var j := |pre| + 1;
    assert s[|pre|] == '"';
    if tail != [] {
      assert s[j] == tail[0];
    }
    TerminatorAt(s, j, tail);
  }

  /** A doubled quote inside a quoted field reads as one quote. */
  lemma {:induction false} QuotedPair(s: string, pre: string, acc: string, rest: string)
    requires s == pre + ("\"\"" + rest)
    ensures |pre| + 2 <= |s| && QuotedFrom(s, |pre|, acc) == QuotedFrom(s, |pre| + 2, acc + "\"")
  {
    assert s[|pre|] == '"' && s[|pre| + 1] == '"';
  }

  /** Any other character inside a quoted field reads as itself. */
  lemma {:induction false} QuotedChar(s: string, pre: string, acc: string, ch: char, rest: string)
    requires s == pre + ([ch] + rest) && ch != '"'
    ensures |pre| + 1 <= |s| && QuotedFrom(s, |pre|, acc) == QuotedFrom(s, |pre| + 1, acc + [ch])
  {
    assert s[|pre|] == ch;
  }

  /** A quote at the head of a cell is written doubled, then the rest of the cell. */
  lemma {:induction false} PairSplit(s: string, pre: string, c: string, tail: string)
    requires c != [] && c[0] == '"' && s == pre + (DoubleQuotes(c) + ("\"" + tail))
    ensures s == pre + ("\"\"" + (DoubleQuotes(c[1..]) + ("\"" + tail)))
    ensures s == (pre + "\"\"") + (DoubleQuotes(c[1..]) + ("\"" + tail))
  {
    var d, r := DoubleQuotes(c[1..]), "\"" + tail;
    assert DoubleQuotes(c) == "\"\"" + d;
    assert "\"\"" + (d + r) == ("\"\"" + d) + r;
    assert pre + ("\"\"" + (d + r)) == (pre + "\"\"") + (d + r);
  }

  /** Any other character at the head of a cell is written as itself, then the rest of the cell. */
  lemma {:induction false} CharSplit(s: string, pre: string, c: string, tail: string)
    requires c != [] && c[0] != '"' && s == pre + (DoubleQuotes(c) + ("\"" + tail))
    ensures s == pre + ([c[0]] + (DoubleQuotes(c[1..]) + ("\"" + tail)))
    ensures s == (pre + [c[0]]) + (DoubleQuotes(c[1..]) + ("\"" + tail))
  {
    var d, r := DoubleQuotes(c[1..]), "\"" + tail;
    assert DoubleQuotes(c) == [c[0]] + d;
    assert [c[0]] + (d + r) == ([c[0]] + d) + r;
    assert pre + ([c[0]] + (d + r)) == (pre + [c[0]]) + (d + r);
  }

  /** The body of a quoted field, its quotes doubled, reads back as the cell. */
  lemma {:induction false} QuotedBody(s: string, pre: string, acc: string, c: string, tail: string)
    requires s == pre + (DoubleQuotes(c) + ("\"" + tail)) && Follows(tail)
    requires |acc| + |c| >= 1
    ensures QuotedFrom(s, |pre|, acc) == Some(Field(acc + c, TailTerm(tail), |s| - |tail| + TailLength(tail)))
    decreases |c|
  {
    if c == [] {
      assert DoubleQuotes(c) == [];
      QuotedClose(s, pre, acc, tail);
      assert acc + c == acc;
    } else if c[0] == '"' {
      PairSplit(s, pre, c, tail);
      QuotedPair(s, pre, acc, DoubleQuotes(c[1..]) + ("\"" + tail));
      QuotedBody(s, pre + "\"\"", acc + "\"", c[1..], tail);
      assert acc + "\"" + c[1..] == acc + c;
    } else {
      CharSplit(s, pre, c, tail);
      QuotedChar(s, pre, acc, c[0], DoubleQuotes(c[1..]) + ("\"" + tail));
      QuotedBody(s, pre + [c[0]], acc + [c[0]], c[1..], tail);
      assert acc + [c[0]] + c[1..] == acc + c;
    }
  }

  /** A cell as the writer escapes it reads back as the same cell, ended by what follows it. */
  lemma {:induction false} FieldScan(s: string, pre: string, cell: string, tail: string)
    requires s == pre + (Escape(cell) + tail) && Follows(tail)
    ensures MatchField(s, |pre|) == Some(Field(cell, TailTerm(tail), |s| - |tail| + TailLength(tail)))
  {
    if NeedsQuotes(cell) {
      assert Escape(cell) + tail == "\"" + (DoubleQuotes(cell) + ("\"" + tail));
      QuotedFieldScan(s, pre, cell, tail);
    } else {
      PlainFieldScan(s, pre, cell, tail);
    }
  }

  lemma {:induction false} QuotedFieldScan(s: string, pre: string, cell: string, tail: string)
    requires NeedsQuotes(cell) && Follows(tail)
    requires s == pre + ("\"" + (DoubleQuotes(cell) + ("\"" + tail)))
    ensures MatchField(s, |pre|) == Some(Field(cell, TailTerm(tail), |s| - |tail| + TailLength(tail)))
  {
    assert |cell| >= 1;
    assert s[|pre|] == '"';
    assert s == (pre + "\"") + (DoubleQuotes(cell) + ("\"" + tail));
    var none: string := [];
    QuotedBody(s, pre + "\"", none, cell, tail);
    assert none + cell == cell;
  }

  lemma {:induction false} PlainFieldScan(s: string, pre: string, cell: string, tail: string)
    requires !NeedsQuotes(cell) && Follows(tail)
    requires s == pre + (cell + tail)
    ensures MatchField(s, |pre|) == Some(Field(cell, TailTerm(tail), |s| - |tail| + TailLength(tail)))
  {
    var at, j := |pre|, |pre| + |cell|;
    NoSpecial(cell);
    forall k | at <= k < j
      ensures Plain(s[k])
    {
      assert s[k] == cell[k - at];
    }
    if tail != [] {
      assert s[j] == tail[0];
    }
    TerminatorAt(s, j, tail);
    PlainField(s, at, j);
    assert s[at..j] == cell;
  }

  /** A cell the writer leaves unquoted holds no special character. */
  lemma {:induction false} NoSpecial(cell: string)
    requires !NeedsQuotes(cell)
    ensures forall k :: 0 <= k < |cell| ==> !Special(cell[k])
    decreases |cell|
  {
    if cell != [] {
      NoSpecial(cell[1..]);
      assert forall k :: 1 <= k < |cell| ==> cell[k] == cell[1..][k - 1];
    }
  }

  /** Items joined by a separator: the first, the separator, then the rest joined. */
  lemma {:induction false} JoinCons(items: seq<string>, sep: string)
    requires |items| >= 2
    ensures Join(items, sep) == items[0] + sep + Join(items[1..], sep)
  {
    assert items[1..][1..] == items[2..];
  }

  lemma {:induction false} LineSingle(cells: seq<string>)
    requires |cells| == 1
    ensures CsvLine(cells) == Escape(cells[0])
  {
    assert EscapeAll(cells) == [Escape(cells[0])] + EscapeAll(cells[1..]);
  }

  /** A line of several cells: the first cell escaped, a comma, then the line of the rest. */
  lemma {:induction false} LineCons(cells: seq<string>)
    requires |cells| >= 2
    ensures CsvLine(cells) == Escape(cells[0]) + "," + CsvLine(cells[1..])
  {
    assert EscapeAll(cells) == [Escape(cells[0])] + EscapeAll(cells[1..]);
    JoinCons(EscapeAll(cells), ",");
    assert EscapeAll(cells)[1..] == EscapeAll(cells[1..]);
  }

  lemma {:induction false} TextSingle(rows: seq<seq<string>>)
    requires |rows| == 1
    ensures CsvText(rows) == CsvLine(rows[0])
  {
    assert CsvLines(rows) == [CsvLine(rows[0])] + CsvLines(rows[1..]);
  }

  /** A text of several rows: the first row's line, a line feed, then the text of the rest. */
  lemma {:induction false} TextCons(rows: seq<seq<string>>)
    requires |rows| >= 2
    ensures CsvText(rows) == CsvLine(rows[0]) + "\n" + CsvText(rows[1..])
  {
    assert CsvLines(rows) == [CsvLine(rows[0])] + CsvLines(rows[1..]);
    JoinCons(CsvLines(rows), "\n");
    assert CsvLines(rows)[1..] == CsvLines(rows[1..]);
  }

  /** What follows a line in the text: nothing after the last line, else a line feed and the later lines. */
  function RestText(rows: seq<seq<string>>): string
  {
    if rows == [] then "" else "\n" + CsvText(rows)
  }

  /** A text of lines is the first line, followed by what follows it. */
  lemma {:induction false} TextLine(rows: seq<seq<string>>)
    requires |rows| >= 1
    ensures CsvText(rows) == CsvLine(rows[0]) + RestText(rows[1..])
  {
    if |rows| == 1 {
      TextSingle(rows);
      assert CsvLine(rows[0]) + [] == CsvLine(rows[0]);
    } else {
      TextCons(rows);
      assert CsvLine(rows[0]) + "\n" + CsvText(rows[1..]) == CsvLine(rows[0]) + ("\n" + CsvText(rows[1..]));
    }
  }


  /**
   * Reading from `at` finds the cells `cells` one match at a time, commas
   * between them, and then, after a line break each, the rows `rows`; the
   * last match ends the text.
   */
  predicate Reads(s: string, at: nat, cells: seq<string>, rows: seq<seq<string>>)
    requires at <= |s|
    decreases |s| - at
  {
    |cells| >= 1 &&
    match MatchField(s, at)
    case None => false
    case Some(f) =>
      f.value == cells[0] &&
      if |cells| > 1 then f.term == Comma && Reads(s, f.next, cells[1..], rows)
      else if rows == [] then f.term == End
      else f.term == LineBreak && |rows[0]| >= 1 && Reads(s, f.next, rows[0], rows[1..])
  }

  /** A field ended by a comma, then the rest of the line: the line's cells. */
  lemma {:induction false} ReadsComma(s: string, at: nat, next: nat, cells: seq<string>, rows: seq<seq<string>>)
    requires at <= |s| && next <= |s| && |cells| >= 2
    requires MatchField(s, at) == Some(Field(cells[0], Comma, next)) && Reads(s, next, cells[1..], rows)
    ensures Reads(s, at, cells, rows)
  {
  }

  /** A field ended by a line break, then the next rows: the last cell of the line, then those rows. */
  lemma {:induction false} ReadsLineBreak(s: string, at: nat, next: nat, cell: string, rows: seq<seq<string>>)
    requires at <= |s| && next <= |s| && |rows| >= 1 && |rows[0]| >= 1
    requires MatchField(s, at) == Some(Field(cell, LineBreak, next)) && Reads(s, next, rows[0], rows[1..])
    ensures Reads(s, at, [cell], rows)
  {
  }

  /** A field ended by the end of the text: the last cell. */
  lemma {:induction false} ReadsEnd(s: string, at: nat, cell: string)
    requires at <= |s| && MatchField(s, at) == Some(Field(cell, End, |s|))
    ensures Reads(s, at, [cell], [])
  {
  }

  /** The first of several cells on a line, then a comma, then the rest of the line. */
  lemma {:induction false} CommaSplit(s: string, pre: string, cells: seq<string>, tail: string)
    requires |cells| >= 2 && s == pre + (CsvLine(cells) + tail)
    ensures s == pre + (Escape(cells[0]) + ("," + (CsvLine(cells[1..]) + tail)))
    ensures s == (pre + Escape(cells[0]) + ",") + (CsvLine(cells[1..]) + tail)
  {
    LineCons(cells);
    assert s == (pre + Escape(cells[0]) + ",") + (CsvLine(cells[1..]) + tail);
  }

  /** The last cell of a line, then a line feed, then the next line and what follows it. */
  lemma {:induction false} LineBreakSplit(s: string, pre: string, cell: string, rows: seq<seq<string>>)
    requires |rows| >= 1 && s == pre + (CsvLine([cell]) + RestText(rows))
    ensures s == pre + (Escape(cell) + ("\n" + CsvText(rows)))
    ensures s == (pre + Escape(cell) + "\n") + (CsvLine(rows[0]) + RestText(rows[1..]))
  {
    LineSingle([cell]);
    TextLine(rows);
    assert s == (pre + Escape(cell) + "\n") + CsvText(rows);
  }

  /** A cell followed by a comma, after `pre`: the match there ends in the comma. */
  lemma {:induction false} CommaField(s: string, pre: string, cell: string, more: string)
    requires s == pre + (Escape(cell) + ("," + more))
    ensures MatchField(s, |pre|) == Some(Field(cell, Comma, |pre + Escape(cell) + ","|))
  {
    var tail := "," + more;
    assert tail[0] == ',';
    FieldScan(s, pre, cell, tail);
  }

  /** A cell followed by a line feed, after `pre`: the match there ends in the line break. */
  lemma {:induction false} LineBreakField(s: string, pre: string, cell: string, more: string)
    requires s == pre + (Escape(cell) + ("\n" + more))
    ensures MatchField(s, |pre|) == Some(Field(cell, LineBreak, |pre + Escape(cell) + "\n"|))
  {
    var tail := "\n" + more;
    assert tail[0] == '\n';
    FieldScan(s, pre, cell, tail);
  }

  /** The last cell of the text: its match ends the text. */
  lemma {:induction false} EndStep(s: string, pre: string, cell: string)
    requires s == pre + (CsvLine([cell]) + RestText([]))
    ensures MatchField(s, |pre|) == Some(Field(cell, End, |s|))
  {
    LineSingle([cell]);
    assert s == pre + (Escape(cell) + []);
    FieldScan(s, pre, cell, []);
  }

  /** The writer's text of a line and the lines after it, placed after `pre`, reads as those cells and rows. */
  lemma {:induction false} TextReads(s: string, pre: string, cells: seq<string>, rows: seq<seq<string>>)
    requires |cells| >= 1 && forall i :: 0 <= i < |rows| ==> |rows[i]| >= 1
    requires s == pre + (CsvLine(cells) + RestText(rows))
    ensures Reads(s, |pre|, cells, rows)
    decreases |rows|, |cells|
  {
    if |cells| >= 2 {
      var pre' := pre + Escape(cells[0]) + ",";
      CommaSplit(s, pre, cells, RestText(rows));
      CommaField(s, pre, cells[0], CsvLine(cells[1..]) + RestText(rows));
      TextReads(s, pre', cells[1..], rows);
      ReadsComma(s, |pre|, |pre'|, cells, rows);
    } else if rows == [] {
      assert cells == [cells[0]];
      EndStep(s, pre, cells[0]);
      ReadsEnd(s, |pre|, cells[0]);
    } else {
      assert cells == [cells[0]];
      var pre' := pre + Escape(cells[0]) + "\n";
      LineBreakSplit(s, pre, cells[0], rows);
      LineBreakField(s, pre, cells[0], CsvText(rows));
      TextReads(s, pre', rows[0], rows[1..]);
      ReadsLineBreak(s, |pre|, |pre'|, cells[0], rows);
    }
  }

  /** What `Reads` describes is what the matching loop collects: the current row completed, then the rows. */
  lemma {:induction false} ReadsTokenize(s: string, at: nat, done: seq<seq<string>>, row: seq<string>,
                                         cells: seq<string>, rows: seq<seq<string>>)
    requires at <= |s| && Reads(s, at, cells, rows)
    ensures Tokenize(s, at, done, row).complete
    ensures Tokenize(s, at, done, row).done + [Tokenize(s, at, done, row).row] == done + [row + cells] + rows
    decreases |s| - at
  {
    var f := MatchField(s, at).value;
    if |cells| > 1 {
      ReadsTokenize(s, f.next, done, row + [cells[0]], cells[1..], rows);
      assert row + [cells[0]] + cells[1..] == row + cells;
    } else if rows == [] {
      assert cells == [cells[0]];
    } else {
      ReadsTokenize(s, f.next, done + [row + [cells[0]]], [], rows[0], rows[1..]);
      assert cells == [cells[0]] && [] + rows[0] == rows[0];
      assert done + [row + [cells[0]]] + [rows[0]] + rows[1..] == done + [row + cells] + rows;
    }
  }

  /**
   * The text of rows that each hold a cell reads back as the same rows,
   * unless the last row is a single empty cell: its line is empty and reads
   * as a blank last line, which is dropped.
   */
  lemma {:induction false} ParseCsvText(rows: seq<seq<string>>)
    requires forall i :: 0 <= i < |rows| ==> |rows[i]| >= 1
    requires |rows| >= 1 ==> rows[|rows| - 1] != [""]
    ensures Parse(CsvText(rows)) == Parsed(rows)
  {
    if |rows| == 0 {
      assert CsvText(rows) == "";
      EmptyTextExample();
    } else {
      var start: string := [];
      TextLine(rows);
      assert CsvText(rows) == start + (CsvLine(rows[0]) + RestText(rows[1..]));
      TextReads(CsvText(rows), start, rows[0], rows[1..]);
      ParseReads(CsvText(rows), rows);
    }
  }

  /** A text that reads as some rows, the last not blank, parses to exactly those rows. */
  lemma {:induction false} ParseReads(s: string, rows: seq<seq<string>>)
    requires |rows| >= 1 && Reads(s, 0, rows[0], rows[1..])
    requires rows[|rows| - 1] != [] && rows[|rows| - 1] != [""]
    ensures Parse(s) == Parsed(rows)
  {
    ReadsTokenize(s, 0, [], [], rows[0], rows[1..]);
    var sc := Tokenize(s, 0, [], []);
    var none: seq<seq<string>> := [];
    var empty: seq<string> := [];
    assert empty + rows[0] == rows[0] && [rows[0]] + rows[1..] == rows;
    assert none + [empty + rows[0]] + rows[1..] == rows;
    assert sc.row == rows[|rows| - 1] && sc.done == rows[..|rows| - 1];
  }

  // ---------------------------------------------------------------------------
  // The round trip of a table

  /**
   * A table at least one column wide whose last row is not a single empty
   * cell is written as text that reads back as its rows, and the table built
   * from them has the same rows and width.
   */
  lemma {:induction false} TableTextRoundTrip(rows: seq<seq<string>>, w: nat)
    requires Rectangular(rows, w) && w >= 1
    requires |rows| >= 1 ==> rows[|rows| - 1] != [""]
    ensures Parse(Serialize(GridSheet(rows, w), "")) == Parsed(rows)
    ensures PadRows(rows, MaxWidth(rows)) == rows
    ensures |rows| >= 1 ==> MaxWidth(rows) == w
  {
    GridSheetText(rows, w, "");
    ParseCsvText(rows);
    RectangularPadded(rows, w);
  }

  /** `fromString(toString(table))` gives back the table's rows and, when it has rows, its width. */
  method RoundTrip(t: TextTable) returns (r: Reading)
    requires t.Valid() && t.width >= 1
    requires |t.items| >= 1 ==> t.items[|t.items| - 1] != [""]
    ensures r.Read? && r.table.items == t.items
    ensures |t.items| >= 1 ==> r.table.width == t.width
  {
    var text := ToStringDefault(TableSheet(t));
    TableTextRoundTrip(t.items, t.width);
    r := FromString(text);
  }

  /** A last row of a single empty cell is written as a trailing line feed, which reads as nothing. */
  lemma {:induction false} BlankLastRowLost()
    ensures CsvText([["a", "b"], [""]]) == "a,b\n"
    ensures Parse(CsvText([["a", "b"], [""]])) == Parsed([["a", "b"]])
  {
    var rows := [["a", "b"], [""]];
    TextCons(rows);
    assert rows[1..] == [[""]];
    TextSingle(rows[1..]);
    LineSingle([""]);
    LineCons(["a", "b"]);
    assert ["a", "b"][1..] == ["b"];
    LineSingle(["b"]);
    assert !NeedsQuotes("a") && !NeedsQuotes("b") && !NeedsQuotes("");
    assert CsvText(rows) == "a,b\n";
    TrailingLineBreakExample();
  }
}
