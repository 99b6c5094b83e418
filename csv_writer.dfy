/**
 * Writing a table as CSV text: cells separated by commas, rows by a single
 * LF, and a cell quoted, with its quotes doubled, when it holds a quote,
 * a comma, LF or CR.
 */
module CsvWriter {
  import opened Common
  import opened TextTables

  /**
   * A table as the writer sees it: its height and width and, per position,
   * whether a cell exists there and what `get` returns (`None` for `null`).
   */
  datatype Sheet = Sheet(height: nat, width: nat, cellExists: (nat, nat) -> bool, get: (nat, nat) -> Option<string>)

  /** A rectangle of strings as a sheet: every cell inside the bounds exists and none is null. */
  function GridSheet(rows: seq<seq<string>>, w: nat): Sheet
  {
    Sheet(|rows|, w,
      (r: nat, c: nat) => r < |rows| && c < w,
      (r: nat, c: nat) => if r < |rows| && c < |rows[r]| then Some(rows[r][c]) else None)
  }

  /** The contents of a `TextTable` as a sheet. */
  function TableSheet(t: TextTable): Sheet
    reads t
  {
    GridSheet(t.items, t.width)
  }

  /** A character that makes the writer quote a cell: a quote, a comma, a line feed or a carriage return. */
  predicate Special(c: char)
  {
    c == '"' || c == ',' || c == '\n' || c == '\r'
  }

  /** Whether a cell holds a character that makes the writer quote it. */
  predicate NeedsQuotes(cell: string)
    decreases |cell|
  {
    cell != [] && (Special(cell[0]) || NeedsQuotes(cell[1..]))
  }

  /** The test is the writer's four `contains` checks, one per special character. */
  lemma {:induction false} NeedsQuotesContains(cell: string)
    ensures NeedsQuotes(cell) <==> '"' in cell || ',' in cell || '\n' in cell || '\r' in cell
    decreases |cell|
  {
    if cell != [] {
      NeedsQuotesContains(cell[1..]);
      assert cell == [cell[0]] + cell[1..];
    }
  }

  /** `cell.replaceAll("\"", "\"\"")`: every quote doubled. */
  function DoubleQuotes(cell: string): (d: string)
    ensures |d| >= |cell|
    decreases |cell|
  {
    if cell == [] then []
    else (if cell[0] == '"' then "\"\"" else [cell[0]]) + DoubleQuotes(cell[1..])
  }

  /** A cell as written: verbatim, or in quotes with its quotes doubled when it needs them. */
  function Escape(cell: string): (e: string)
    ensures !NeedsQuotes(cell) ==> e == cell
    ensures NeedsQuotes(cell) ==> |e| >= 3 && e[0] == '"' && e[|e| - 1] == '"'
  {
    if NeedsQuotes(cell) then "\"" + DoubleQuotes(cell) + "\"" else cell
  }

  function Commas(n: nat): (s: string)
    ensures |s| == n
  {
    seq(n, _ => ',')
  }

  /** The text written for a cell that exists: its escaped value, or `nullText` for null. */
  function CellOut(cell: Option<string>, nullText: string): string
  {
    if cell.None? then nullText else Escape(cell.value)
  }

  /**
   * What row `r` writes from column `c` on, the commas so far reaching column
   * `lastCol`: before each existing cell, commas up to its column, then its text.
   */
  function RowFrom(t: Sheet, r: nat, c: nat, lastCol: nat, nullText: string): string
    requires lastCol <= c
    decreases t.width - c
  {
    if c >= t.width then ""
    else if t.cellExists(r, c) then
      Commas(c - lastCol) + CellOut(t.get(r, c), nullText) + RowFrom(t, r, c + 1, c, nullText)
    else RowFrom(t, r, c + 1, lastCol, nullText)
  }

  /** The rows from `r` on, each but the very first preceded by a line feed. */
  function RowsFrom(t: Sheet, r: nat, nullText: string): string
    decreases t.height - r
  {
    if r >= t.height then ""
    else (if r != 0 then "\n" else "") + RowFrom(t, r, 0, 0, nullText) + RowsFrom(t, r + 1, nullText)
  }

  /** The whole text, with `nullText` written for every null cell. */
  function Serialize(t: Sheet, nullText: string): string
  {
    RowsFrom(t, 0, nullText)
  }

  lemma {:induction false} CommasStep(n: nat)
    ensures "," + Commas(n) == Commas(n + 1)
  {
  }

  lemma {:induction false} RowFromExisting(t: Sheet, r: nat, c: nat, lastCol: nat, nullText: string)
    requires lastCol <= c < t.width && t.cellExists(r, c)
    ensures RowFrom(t, r, c, lastCol, nullText) ==
      Commas(c - lastCol) + CellOut(t.get(r, c), nullText) + RowFrom(t, r, c + 1, c, nullText)
  {
  }

  lemma {:induction false} RowFromMissing(t: Sheet, r: nat, c: nat, lastCol: nat, nullText: string)
    requires lastCol <= c < t.width && !t.cellExists(r, c)
    ensures RowFrom(t, r, c, lastCol, nullText) == RowFrom(t, r, c + 1, lastCol, nullText)
  {
  }

  lemma {:induction false} CommaStep(line: string, k: nat)
    ensures line + Commas(k) + "," == line + Commas(k + 1)
  {
    assert Commas(k) + "," == Commas(k + 1);
  }

  /** Writing the commas and the text of an existing cell moves the row on to the next column. */
  lemma {:induction false} CellStep(t: Sheet, r: nat, c: nat, lastCol: nat, nullText: string, line: string, total: string)
    requires lastCol <= c < t.width && t.cellExists(r, c)
    requires line + RowFrom(t, r, c, lastCol, nullText) == total
    ensures line + Commas(c - lastCol) + CellOut(t.get(r, c), nullText) + RowFrom(t, r, c + 1, c, nullText) == total
  {
    RowFromExisting(t, r, c, lastCol, nullText);
  }

  /** The inner loops of `toString(table, def)`: the text of row `r`. */
  method WriteRow(t: Sheet, r: nat, nullText: string) returns (line: string)
    ensures line == RowFrom(t, r, 0, 0, nullText)
  {
    ghost var total := RowFrom(t, r, 0, 0, nullText);
    line := "";
    var lastCol := 0;
    var c := 0;
    while c < t.width
      invariant lastCol <= c
      invariant line + RowFrom(t, r, c, lastCol, nullText) == total
    {
      if t.cellExists(r, c) {
        ghost var line0, lastCol0 := line, lastCol;
        CellStep(t, r, c, lastCol, nullText, line, total);
        while lastCol < c
          invariant lastCol0 <= lastCol <= c
          invariant line == line0 + Commas(lastCol - lastCol0)
        {
          CommaStep(line0, lastCol - lastCol0);
          line := line + ",";
          lastCol := lastCol + 1;
        }
        var obj := t.get(r, c);
        if obj.Some? {
          var cell := obj.value;
          if NeedsQuotes(cell) {
            cell := "\"" + DoubleQuotes(cell) + "\"";
          }
          line := line + cell;
        } else {
          line := line + nullText;
        }
      } else {
        RowFromMissing(t, r, c, lastCol, nullText);
      }
      c := c + 1;
    }
  }

  /** The rows from `r` on: a line feed unless `r` is the first row, row `r`, then the later rows. */
  lemma {:induction false} RowsFromStep(t: Sheet, r: nat, nullText: string)
    requires r < t.height
    ensures RowsFrom(t, r, nullText) ==
      (if r != 0 then "\n" else "") + RowFrom(t, r, 0, 0, nullText) + RowsFrom(t, r + 1, nullText)
  {
  }

  /** Text written so far, a separator and a line, then the rest. */
  lemma {:induction false} AppendStep(out: string, sep: string, line: string, rest: string)
    ensures out + (sep + line + rest) == out + sep + line + rest
  {
  }

  /** The loops of `toString(table, def)`, writing `nullText` for each null cell. */
  method WriteSheet(t: Sheet, nullText: string) returns (out: string)
    ensures out == Serialize(t, nullText)
  {
    ghost var total := Serialize(t, nullText);
    out := "";
    var r := 0;
    while r < t.height
      invariant out + RowsFrom(t, r, nullText) == total
    {
      ghost var out0, sep := out, if r != 0 then "\n" else "";
      RowsFromStep(t, r, nullText);
      if r != 0 {
        out := out + "\n";
      }
      assert out == out0 + sep;
      var line := WriteRow(t, r, nullText);
      out := out + line;
      AppendStep(out0, sep, line, RowsFrom(t, r + 1, nullText));
      r := r + 1;
    }
  }

  /** `toString(table, def)` as written: `def` is never used and a null cell writes nothing. */
  method ToStringAsWritten(t: Sheet, def: string) returns (out: string)
    ensures out == Serialize(t, "")
  {
    out := WriteSheet(t, "");
  }

  /** `toString(table, def)` as documented: a null cell is written as the value `def`. */
  method ToString(t: Sheet, def: string) returns (out: string)
    ensures out == Serialize(t, Escape(def))
  {
    out := WriteSheet(t, Escape(def));
  }

  /** `toString(table)`: nulls become the empty string, so both readings agree. */
  method ToStringDefault(t: Sheet) returns (out: string)
    ensures out == Serialize(t, "")
  {
    out := ToString(t, "");
  }

  /** A sheet of one null cell. */
  function NullCellSheet(): Sheet
  {
    Sheet(1, 1, (r: nat, c: nat) => true, (r: nat, c: nat) => None)
  }

  /** As written, `def` does not reach the output: the null cell writes nothing instead of `x`. */
  lemma {:induction false} ToStringAsWrittenIgnoresDefault()
    ensures Serialize(NullCellSheet(), "") == ""
    ensures Serialize(NullCellSheet(), Escape("x")) == "x"
  {
    var t := NullCellSheet();
    assert RowFrom(t, 0, 1, 0, "") == "" && RowFrom(t, 0, 1, 0, "x") == "";
    assert RowFrom(t, 0, 0, 0, "") == "";
    assert RowFrom(t, 0, 0, 0, "x") == "x";
    assert !NeedsQuotes("x");
  }

  // ---------------------------------------------------------------------------
  // The layout of the text

  /** Items joined by `sep`: none before the first or after the last. */
  function Join(items: seq<string>, sep: string): string
  {
    if |items| == 0 then "" else items[0] + Separated(items[1..], sep)
  }

  /** Every item preceded by `sep`. */
  function Separated(items: seq<string>, sep: string): string
  {
    if |items| == 0 then "" else sep + items[0] + Separated(items[1..], sep)
  }

  /** Every cell escaped. */
  function EscapeAll(cells: seq<string>): (e: seq<string>)
    ensures |e| == |cells|
  {
    if cells == [] then [] else [Escape(cells[0])] + EscapeAll(cells[1..])
  }

  /** The line a row of cells is written as. */
  function CsvLine(row: seq<string>): string
  {
    Join(EscapeAll(row), ",")
  }

  /** The line of every row. */
  function CsvLines(rows: seq<seq<string>>): (lines: seq<string>)
    ensures |lines| == |rows|
  {
    if rows == [] then [] else [CsvLine(rows[0])] + CsvLines(rows[1..])
  }

  /** The text a grid of cells is written as. */
  function CsvText(rows: seq<seq<string>>): string
  {
    Join(CsvLines(rows), "\n")
  }

  /** Columns from `c` on with no existing cell write nothing, so there are no trailing commas. */
  lemma {:induction false} TrailingMissingCellsWriteNothing(t: Sheet, r: nat, c: nat, lastCol: nat, nullText: string)
    requires lastCol <= c
    requires forall k: nat :: c <= k < t.width ==> !t.cellExists(r, k)
    ensures RowFrom(t, r, c, lastCol, nullText) == ""
    decreases t.width - c
  {
    if c < t.width {
      TrailingMissingCellsWriteNothing(t, r, c + 1, lastCol, nullText);
    }
  }

  /** A row all of whose cells exist writes one comma before each cell after column `c - 1`. */
  lemma {:induction false} FullRowFrom(t: Sheet, r: nat, c: nat, cells: seq<string>, nullText: string)
    requires 1 <= c <= t.width == |cells|
    requires forall k: nat :: k < t.width ==> t.cellExists(r, k) && t.get(r, k) == Some(cells[k])
    ensures RowFrom(t, r, c, c - 1, nullText) == Separated(EscapeAll(cells[c..]), ",")
    decreases t.width - c
  {
    if c < t.width {
      FullRowFrom(t, r, c + 1, cells, nullText);
      assert cells[c..][1..] == cells[c + 1..];
      assert EscapeAll(cells[c..]) == [Escape(cells[c])] + EscapeAll(cells[c + 1..]);
      assert Commas(1) == ",";
      RowFromExisting(t, r, c, c - 1, nullText);
    }
  }

  /**
   * A full row of width at least 1 writes its escaped cells with exactly one
   * comma between neighbours.
   */
  lemma {:induction false} FullRowJoins(t: Sheet, r: nat, cells: seq<string>, nullText: string)
    requires 1 <= t.width == |cells|
    requires forall k: nat :: k < t.width ==> t.cellExists(r, k) && t.get(r, k) == Some(cells[k])
    ensures RowFrom(t, r, 0, 0, nullText) == CsvLine(cells)
  {
    var rest := Separated(EscapeAll(cells[1..]), ",");
    FullRowFrom(t, r, 1, cells, nullText);
    RowFromExisting(t, r, 0, 0, nullText);
    assert t.get(r, 0) == Some(cells[0]);
    assert Commas(0) == "";
    assert RowFrom(t, r, 0, 0, nullText) == Escape(cells[0]) + rest;
    assert EscapeAll(cells) == [Escape(cells[0])] + EscapeAll(cells[1..]);
    assert EscapeAll(cells)[1..] == EscapeAll(cells[1..]);
    assert CsvLine(cells) == Escape(cells[0]) + rest;
  }

  /** The text of every row from `r` on. */
  function RowTexts(t: Sheet, r: nat, nullText: string): (lines: seq<string>)
    decreases t.height - r
  {
    if r >= t.height then [] else [RowFrom(t, r, 0, 0, nullText)] + RowTexts(t, r + 1, nullText)
  }

  /** Rows from `r >= 1` on are each preceded by one line feed. */
  lemma {:induction false} RowsFromSeparated(t: Sheet, r: nat, nullText: string)
    requires 1 <= r
    ensures RowsFrom(t, r, nullText) == Separated(RowTexts(t, r, nullText), "\n")
    decreases t.height - r
  {
    if r < t.height {
      RowsFromSeparated(t, r + 1, nullText);
      assert RowTexts(t, r, nullText)[1..] == RowTexts(t, r + 1, nullText);
    }
  }

  /** The rows are joined by single line feeds, with none before the first or after the last. */
  lemma {:induction false} SerializeJoinsRows(t: Sheet, nullText: string)
    ensures Serialize(t, nullText) == Join(RowTexts(t, 0, nullText), "\n")
  {
    if t.height > 0 {
      RowsFromSeparated(t, 1, nullText);
      assert RowTexts(t, 0, nullText)[1..] == RowTexts(t, 1, nullText);
    }
  }

  /** The rows of a rectangle from `r` on are written as their lines. */
  lemma {:induction false} GridRowTexts(rows: seq<seq<string>>, w: nat, r: nat, nullText: string)
    requires Rectangular(rows, w) && w >= 1 && r <= |rows|
    ensures RowTexts(GridSheet(rows, w), r, nullText) == CsvLines(rows[r..])
    decreases |rows| - r
  {
    if r < |rows| {
      GridRowTexts(rows, w, r + 1, nullText);
      FullRowJoins(GridSheet(rows, w), r, rows[r], nullText);
      assert rows[r..][1..] == rows[r + 1..];
    }
  }

  /** A rectangle at least one column wide is written as its lines joined by line feeds. */
  lemma {:induction false} GridSheetText(rows: seq<seq<string>>, w: nat, nullText: string)
    requires Rectangular(rows, w) && w >= 1
    ensures Serialize(GridSheet(rows, w), nullText) == CsvText(rows)
  {
    SerializeJoinsRows(GridSheet(rows, w), nullText);
    GridRowTexts(rows, w, 0, nullText);
    assert rows[0..] == rows;
  }
}
