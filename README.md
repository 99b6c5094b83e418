# SimpleTable in Dafny

A model of the core of SimpleTable, a small Java library with three parts:

- `TextTable`, an always-rectangular grid of strings that grows in place.
- `CellReference`, an immutable (row, column) value. It has an error reference `#REF!`, two orders, equality and a hash, and the A1 and R1C1 spreadsheet notations.
- `CSVParser`, which reads CSV text into a `TextTable` and writes a table out as CSV.

The model has eight modules, one per file:

- `Common` (common.dfy): option, result and error values.
- `Decimal` (decimal.dfy): decimal numerals.
- `A1Columns` (a1_columns.dfy): bijective base-26 column letters, with the Java helpers as written beside them.
- `CellReferences` (cell_reference.dfy): `CellReference` as a datatype with functions and lemmas.
- `TextTables` (text_table.dfy): `TextTable` as a class whose `items` and `width` fields the methods update under the invariant `Valid()` (every row has `width` cells). Each method says what the new state is, in terms of value-level functions over grids whose properties are proved as lemmas.
- `CsvWriter` (csv_writer.dfy): `toString` as loop methods proved equal to a function `Serialize`. The writer sees an abstract table, `Sheet`: height, width, `cellExists` and `get`, with a null cell as `None`.
- `CsvScanner` (csv_scanner.dfy): the matching pattern of `fromString`, written as a scanner over the field grammar. The grammar follows rules 5 to 7 of section 2 of RFC 4180. It also accepts ragged rows and CR, LF and CRLF as line breaks.
- `CsvParser` (csv_parser.dfy): the `fromString` loop proved against the scanner, and the round trip from a table to text and back.

Where the code and its documentation disagree, the model keeps the code as written next to a corrected version. Each such case is listed under Findings. The rest of the model uses the corrected versions:

- the A1 and R1C1 parsers subtract 1 from the row and column they read;
- the column codec is the documented bijective base 26 in upper case;
- `cellExists` uses strict bounds;
- `toString(table, def)` writes `def` for a null cell;
- `fromString` reports the text it cannot read, as its `@throws` clause documents.

The class's own documentation fixes the zero-based reading. `of` says the top left cell is row 0, column 0 (src/main/java/net/nixill/tables/CellReference.java:65). The A1 and R1C1 parsers say that cell is A1 and R1C1 (src/main/java/net/nixill/tables/CellReference.java:90 and :116). `getRow` says the top row is row 0 (src/main/java/net/nixill/tables/CellReference.java:154).

## Model

| member | source | states |
|---|---|---|
| A1Columns.ColumnToA1 | src/main/java/net/nixill/tables/CellReference.java:423-442 | the letters of a column are never empty and all upper case |
| A1Columns.ColumnFromA1 | src/main/java/net/nixill/tables/CellReference.java:375-395 | k letters decode to a column in the block of 26^k columns after all columns of fewer letters, and the empty string to -1 |
| A1Columns.ColumnRoundTrip | src/main/java/net/nixill/tables/CellReference.java:375-395 | decoding the letters `columnToA1` gives for any column yields that column again |
| A1Columns.LettersRoundTrip | src/main/java/net/nixill/tables/CellReference.java:423-442 | every non-empty upper-case letter string is the rendering of the column it decodes to, so the codec is a bijection |
| A1Columns.ColumnFromA1IgnoresCase | src/main/java/net/nixill/tables/CellReference.java:403-406 | letters that differ only in case decode to the same column |
| A1Columns.ColumnFromA1NonNegative | src/main/java/net/nixill/tables/CellReference.java:394 | non-empty letters decode to a column of at least 0 |
| A1Columns.ColumnExamples | src/main/java/net/nixill/tables/CellReference.java:85-88 | A is 0, Z is 25, AA is 26, AZ is 51, BA is 52, ZZ is 701 and AAA is 702 |
| A1Columns.SplitColumnBounds | src/main/java/net/nixill/tables/CellReference.java:424-427 | the digit-count loop stops at the first k for which the rest is below 26^k, and the rest plus the columns of fewer letters is the column |
| A1Columns.FixedDigitsValue | src/main/java/net/nixill/tables/CellReference.java:429-433 | the base-26 digits padded to k places have the value they were taken from |
| A1Columns.CharToBase26 | src/main/java/net/nixill/tables/CellReference.java:403-415 | corrected: a letter becomes the base-26 digit of its position in the alphabet, in either case |
| A1Columns.CharToBase26AsWrittenWrong | src/main/java/net/nixill/tables/CellReference.java:408-411 | as written, A becomes the digit 7, and I, J and K become characters that are not base-26 digits |
| A1Columns.CharToBase26AsWritten | src/main/java/net/nixill/tables/CellReference.java:403-415 | as written, only the letters U to Z become their right base-26 digit; every letter before U maps to something else |
| A1Columns.ColumnFromA1AsWritten | src/main/java/net/nixill/tables/CellReference.java:375-395 | as written, the result depends only on the first letter and the length: (d + 1)(1 + 26 + ... + 26^(k-1)) - 1 for first-letter digit d, and `NumberFormatException` when that letter gives no digit |
| A1Columns.ParseBase26 | src/main/java/net/nixill/tables/CellReference.java:394 | `Integer.parseInt(s, 26)` succeeds exactly on a non-empty string of radix-26 digits |
| A1Columns.ParseBase26Repeated | src/main/java/net/nixill/tables/CellReference.java:385-391 | k copies of the digit d read as d(1 + 26 + ... + 26^(k-1)) |
| A1Columns.JavaDigit | src/main/java/net/nixill/tables/CellReference.java:429 | the digit `Integer.toString` writes reads back as its value, and is a decimal digit exactly below 10, else one of a-p |
| A1Columns.JavaBase26String | src/main/java/net/nixill/tables/CellReference.java:429 | `Integer.toString(v, 26)` is non-empty, has no leading zero, uses only 0-9 and a-p, and `parseInt` reads it back as v |
| A1Columns.JavaDigitsPadded | src/main/java/net/nixill/tables/CellReference.java:429-433 | that text, padded with zeros to k places, is the Java digits of the k base-26 digits of v |
| A1Columns.CharFromBase26AsWritten | src/main/java/net/nixill/tables/CellReference.java:450-458 | as written, each digit becomes the letter of its value, upper-case exactly for the decimal digits |
| A1Columns.ColumnToA1AsWritten | src/main/java/net/nixill/tables/CellReference.java:423-442 | as written, the same letters as the corrected `columnToA1`, but upper-case only for A to J |
| A1Columns.ColumnFromA1AsWrittenWrong | src/main/java/net/nixill/tables/CellReference.java:385-391 | as written, A decodes to 7, I throws, and BA and BB both decode to 242; corrected, they decode to 0, 52 and 53 |
| A1Columns.ColumnToA1AsWrittenWrong | src/main/java/net/nixill/tables/CellReference.java:429 | as written, column 10 renders as lower-case k; corrected, it renders as K |
| Decimal.ParseNatToString | src/main/java/net/nixill/tables/CellReference.java:342 | reading the decimal text of a number gives back the number |
| Decimal.NatToStringParse | src/main/java/net/nixill/tables/CellReference.java:107 | a numeral without a leading zero is the decimal text of its value, which is at least 1 |
| Decimal.NatToStringPositive | src/main/java/net/nixill/tables/CellReference.java:365 | the text of a positive number is a numeral without a leading zero |
| CellReferences.Of | src/main/java/net/nixill/tables/CellReference.java:72-79 | fails exactly when a coordinate is negative; otherwise keeps both coordinates and is not the error reference |
| CellReferences.IsRefError | src/main/java/net/nixill/tables/CellReference.java:184-186 | holds exactly for the error reference `REF_ERROR` |
| CellReferences.GetRow | src/main/java/net/nixill/tables/CellReference.java:161-163 | -1 for the error reference, else a row of at least 0 |
| CellReferences.GetColumn | src/main/java/net/nixill/tables/CellReference.java:175-177 | -1 for the error reference, else a column of at least 0 |
| CellReferences.Transpose | src/main/java/net/nixill/tables/CellReference.java:193-195 | swaps row and column and is the error reference exactly when its argument is |
| CellReferences.ToString | src/main/java/net/nixill/tables/CellReference.java:206-212 | the text is `#REF!` exactly for the error reference |
| CellReferences.CompareTo | src/main/java/net/nixill/tables/CellReference.java:227-245 | two error references compare as 0, an error reference is Integer.MIN_VALUE or MAX_VALUE against a valid one, and valid ones compare by (row, column) in both signs |
| CellReferences.CompareTransposed | src/main/java/net/nixill/tables/CellReference.java:260-278 | the same sentinel results, with valid references ordered by (column, row) |
| CellReferences.Equals | src/main/java/net/nixill/tables/CellReference.java:288-310 | two references are equal exactly when they have the same row and column |
| CellReferences.HashCode | src/main/java/net/nixill/tables/CellReference.java:317-326 | a 32-bit value, all ones for the error reference |
| CellReferences.CompareAntisymmetric | src/main/java/net/nixill/tables/CellReference.java:227-245 | swapping the arguments flips the sign of both orders |
| CellReferences.CompareTransitive | src/main/java/net/nixill/tables/CellReference.java:260-278 | both orders are transitive |
| CellReferences.RefErrorIsLeast | src/main/java/net/nixill/tables/CellReference.java:230-235 | the error reference is below every valid reference in both orders, in both argument positions, and equal only to itself |
| CellReferences.CompareTransposedIsTransposedCompare | src/main/java/net/nixill/tables/CellReference.java:31-50 | the column-first order is the row-first order of the transposed references |
| CellReferences.EqualsMatchesCompare | src/main/java/net/nixill/tables/CellReference.java:288-310 | equality holds exactly when either order returns 0 |
| CellReferences.HashRespectsEquals | src/main/java/net/nixill/tables/CellReference.java:317-326 | equal references hash alike |
| CellReferences.HashInjectiveOnSmall | src/main/java/net/nixill/tables/CellReference.java:322-325 | when row and column are below 2^16, distinct valid references hash apart |
| CellReferences.RefErrorRendering | src/main/java/net/nixill/tables/CellReference.java:26 | the error reference transposes to itself, renders as `#REF!` in all three renderings and hashes to all ones |
| CellReferences.OfR1C1Notation | src/main/java/net/nixill/tables/CellReference.java:124-149 | corrected: succeeds exactly on the strict pattern, case-insensitively, and never yields the error reference |
| CellReferences.IsStrictR1C1 | src/main/java/net/nixill/tables/CellReference.java:133 | every text the strict pattern accepts the lenient one accepts too, so a failed strict match is what picks the message |
| CellReferences.IsLenientR1C1 | src/main/java/net/nixill/tables/CellReference.java:134 | a lenient match is at least two characters long and starts with R or r |
| CellReferences.OfR1C1NotationAsWritten | src/main/java/net/nixill/tables/CellReference.java:124-149 | as written: refuses what the corrected parser refuses, with the same message; accepts the rest one row down and one column right of the corrected result |
| CellReferences.ToR1C1Notation | src/main/java/net/nixill/tables/CellReference.java:338-344 | the text is `#REF!` exactly for the error reference; R1C1RoundTrip and R1C1OnlyRenderings pin down the rest |
| CellReferences.R1C1RoundTrip | src/main/java/net/nixill/tables/CellReference.java:338-344 | the R1C1 text of a valid reference matches the strict pattern and parses back to that reference |
| CellReferences.R1C1OnlyRenderings | src/main/java/net/nixill/tables/CellReference.java:133 | every accepted text is, upper-cased, the R1C1 text of what it parses to |
| CellReferences.R1C1RelativeMessage | src/main/java/net/nixill/tables/CellReference.java:134-139 | a bracketed relative reference is refused with the relative-or-negative message |
| CellReferences.R1C1NegativeMessage | src/main/java/net/nixill/tables/CellReference.java:134-139 | a zero or negative number is refused with the relative-or-negative message |
| CellReferences.R1C1BareMessage | src/main/java/net/nixill/tables/CellReference.java:134-139 | `RC` with both numbers missing matches only the lenient pattern and gets its message |
| CellReferences.R1C1InvalidMessage | src/main/java/net/nixill/tables/CellReference.java:140-141 | text matching neither pattern is refused as invalid R1C1 notation |
| CellReferences.R1C1LowerCase | src/main/java/net/nixill/tables/CellReference.java:133 | lower-case `r3c2` is accepted as row 2, column 1 |
| CellReferences.OfR1C1NotationAsWrittenWrong | src/main/java/net/nixill/tables/CellReference.java:145-148 | as written, R1C1 is stored as (1, 1), which renders back as R2C2; corrected, it is (0, 0) |
| CellReferences.MatchA1 | src/main/java/net/nixill/tables/CellReference.java:100 | a match gives non-empty letters and a numeral without a leading zero |
| CellReferences.MatchA1Parts | src/main/java/net/nixill/tables/CellReference.java:100 | conversely, an optional `$`, non-empty letters, an optional `$` and a numeral without a leading zero always match, as those letters and that numeral |
| CellReferences.OfA1Notation | src/main/java/net/nixill/tables/CellReference.java:97-110 | corrected: succeeds exactly when the pattern matches, and never yields the error reference |
| CellReferences.OfA1NotationAsWritten | src/main/java/net/nixill/tables/CellReference.java:97-110 | as written: refuses what the corrected parser refuses, with the same message; when it accepts, the row is one more than the corrected one |
| CellReferences.ToA1Notation | src/main/java/net/nixill/tables/CellReference.java:361-367 | the text is `#REF!` exactly for the error reference; A1RoundTrip and A1OnlyRenderings pin down the rest |
| CellReferences.A1RoundTrip | src/main/java/net/nixill/tables/CellReference.java:361-367 | the A1 text of a valid reference parses back to that reference |
| CellReferences.MatchA1Normalized | src/main/java/net/nixill/tables/CellReference.java:100 | a matching text without its `$` markers, upper-cased, is its letters followed by its row numeral |
| CellReferences.A1OnlyRenderings | src/main/java/net/nixill/tables/CellReference.java:97-110 | every accepted text is, without markers and upper-cased, the A1 text of what it parses to |
| CellReferences.A1SingleLetters | src/main/java/net/nixill/tables/CellReference.java:106-109 | A1 is (0, 0) and Z1 is (0, 25) |
| CellReferences.A1TwoLetters | src/main/java/net/nixill/tables/CellReference.java:106-109 | AA1 is column 26, right after Z |
| CellReferences.A1Absolute | src/main/java/net/nixill/tables/CellReference.java:100 | `$b$3` is accepted as row 2, column 1 |
| CellReferences.A1Refused | src/main/java/net/nixill/tables/CellReference.java:102-104 | a leading zero, a missing row number and a row before the letters are each refused with the invalid-A1 message |
| CellReferences.OfA1NotationAsWrittenWrong | src/main/java/net/nixill/tables/CellReference.java:106-109 | as written, A1 is row 1, column 7, and I1 throws; corrected, A1 is (0, 0) |
| TextTables.MaxWidth | src/main/java/net/nixill/tables/TextTable.java:59 | no row is longer than the result, which is 0 without rows and otherwise the length of some row |
| TextTables.MaxWidthAppend | src/main/java/net/nixill/tables/TextTable.java:59 | one more row makes the width the larger of the old width and that row's length |
| TextTables.TotalCellsRectangular | src/main/java/net/nixill/tables/TextTable.java:113-123 | a rectangle of width w holds w times its height cells |
| TextTables.PadRowsRectangular | src/main/java/net/nixill/tables/TextTable.java:62-66 | padding to the longest row gives a rectangle of that width, keeps every cell of every row and adds only empty cells |
| TextTables.RectangularPadded | src/main/java/net/nixill/tables/TextTable.java:47-67 | a rectangle has its width as longest row, and padding it changes nothing |
| TextTables.InsertColumnShifts | src/main/java/net/nixill/tables/TextTable.java:309-316 | inserting a column keeps the rectangle one wider: cells left of it stay, the new cell holds the value or empty, and the cells to its right move one column right |
| TextTables.ResizedKeepsCells | src/main/java/net/nixill/tables/TextTable.java:336-358 | growing gives the larger height and the new width, keeps every old cell and makes every new cell empty |
| TextTables.ResizedIdempotent | src/main/java/net/nixill/tables/TextTable.java:336-358 | growing a second time to the same bounds changes nothing |
| TextTables.ResizedPadded | src/main/java/net/nixill/tables/TextTable.java:339-345 | widening the rows first does not change what growing gives |
| TextTables.CopyRow | src/main/java/net/nixill/tables/TextTable.java:49-57 | the copied row has the source's length and holds each value, null as empty |
| TextTables.PadRowTo | src/main/java/net/nixill/tables/TextTable.java:62-66 | the row comes back `w` cells long, its own cells first and empty cells after them |
| TextTables.TextTable.constructor | src/main/java/net/nixill/tables/TextTable.java:15 | an empty table of no rows and width 0 |
| TextTables.TextTable.Sized | src/main/java/net/nixill/tables/TextTable.java:29-37 | `h` rows of `w` empty cells, width `w` |
| TextTables.TextTable.OfSize | src/main/java/net/nixill/tables/TextTable.java:24-38 | refuses exactly the negative sizes, with the source's message; otherwise `h` rows of `w` empty cells |
| TextTables.TextTable.FromCollection | src/main/java/net/nixill/tables/TextTable.java:47-67 | the source rows in order with nulls as empty, the width that of the longest row, every row padded to it |
| TextTables.TextTable.CopyRows | src/main/java/net/nixill/tables/TextTable.java:48-60 | the first loop copies every row in order and finds the longest row's length |
| TextTables.TextTable.PadToWidth | src/main/java/net/nixill/tables/TextTable.java:62-66 | every row padded with empty cells to the width, which is unchanged, leaving a rectangle |
| TextTables.TextTable.Size | src/main/java/net/nixill/tables/TextTable.java:113-115 | the number of cells in all rows together |
| TextTables.TextTable.Area | src/main/java/net/nixill/tables/TextTable.java:121-123 | again the number of cells, equal to `size` |
| TextTables.TextTable.Height | src/main/java/net/nixill/tables/TextTable.java:102-104 | the number of rows: exactly the rows below it are ones `getRow` returns |
| TextTables.TextTable.Get | src/main/java/net/nixill/tables/TextTable.java:153-163 | succeeds exactly inside the strict bounds and returns that cell; fails with an index error otherwise |
| TextTables.TextTable.CellExistsAsWritten | src/main/java/net/nixill/tables/TextTable.java:131-145 | as written: true exactly for rows 0 to `height` and columns 0 to `width`, both ends included; so true for every cell `get` returns, and otherwise only one past the last row or column |
| TextTables.TextTable.CellExists | src/main/java/net/nixill/tables/TextTable.java:131-145 | corrected: true exactly when `get` succeeds |
| TextTables.TextTable.GetRow | src/main/java/net/nixill/tables/TextTable.java:170-176 | succeeds exactly for a row inside the table, as many cells as the width, each the cell `get` returns |
| TextTables.TextTable.GetColumn | src/main/java/net/nixill/tables/TextTable.java:183-195 | succeeds exactly for a column inside the table, one cell per row in order, each the cell `get` returns |
| TextTables.TextTable.Set | src/main/java/net/nixill/tables/TextTable.java:205-219 | refuses null first, then out-of-bounds positions, leaving the table as it was; otherwise returns the old cell, stores the new one, changes no other cell and keeps the rectangle |
| TextTables.TextTable.Resize | src/main/java/net/nixill/tables/TextTable.java:336-358 | the width becomes the larger of the old and `w`, and the rows are the old ones grown to `h` and padded to that width |
| TextTables.TextTable.AddEmptyRows | src/main/java/net/nixill/tables/TextTable.java:348-356 | appends rows of `width` empty cells until there are `h`, keeping the rectangle |
| TextTables.TextTable.AddRow | src/main/java/net/nixill/tables/TextTable.java:241-269 | refuses an out-of-range row index, then, unless the table is 0 by 0, a row wider than the table, leaving the table as it was; otherwise a 0 by 0 table takes the row's width and the padded row is inserted at the index, the rectangle kept |
| TextTables.TextTable.AddRowAtEnd | src/main/java/net/nixill/tables/TextTable.java:232-234 | the same insertion after the last row |
| TextTables.TextTable.AddBlankRow | src/main/java/net/nixill/tables/TextTable.java:224-226 | appends a row of empty cells, width unchanged |
| TextTables.TextTable.AddColumn | src/main/java/net/nixill/tables/TextTable.java:287-320 | refuses an out-of-range column index, then, unless the table is 0 by 0, a column taller than the table, leaving the table as it was; otherwise a 0 by 0 table first gets one empty row per value, the column is inserted at the index with empty cells past the values, and the width grows by one |
| TextTables.TextTable.InsertCells | src/main/java/net/nixill/tables/TextTable.java:309-316 | the two insertion loops put value `r`, or the empty string past the values, at the column in row `r` |
| TextTables.TextTable.AddColumnAtEnd | src/main/java/net/nixill/tables/TextTable.java:283-285 | the same insertion after the last column |
| TextTables.TextTable.AddBlankColumn | src/main/java/net/nixill/tables/TextTable.java:279-281 | appends an empty cell to every row, width one more |
| TextTables.CellExistsAsWrittenWrong | src/main/java/net/nixill/tables/TextTable.java:133 | as written, a cell is reported at row `height` and at column `width`; at both, `get` fails and the corrected test says no |
| CsvWriter.NeedsQuotesContains | src/main/java/net/nixill/tables/csv/CSVParser.java:165 | a cell is quoted exactly when it contains a quote, a comma, LF or CR |
| CsvWriter.Escape | src/main/java/net/nixill/tables/csv/CSVParser.java:164-167 | a cell that needs no quotes is written as it is; one that does is written in quotes |
| CsvWriter.WriteRow | src/main/java/net/nixill/tables/csv/CSVParser.java:152-171 | the column loop writes the row's text: commas up to each existing cell, then its text |
| CsvWriter.WriteSheet | src/main/java/net/nixill/tables/csv/CSVParser.java:140-174 | the row loop writes the rows of the sheet, each after the first preceded by a line feed |
| CsvWriter.ToStringAsWritten | src/main/java/net/nixill/tables/csv/CSVParser.java:139-175 | as written, a null cell writes nothing whatever `def` is |
| CsvWriter.ToString | src/main/java/net/nixill/tables/csv/CSVParser.java:130-139 | corrected: a null cell writes `def`, escaped like any cell |
| CsvWriter.ToStringDefault | src/main/java/net/nixill/tables/csv/CSVParser.java:126-128 | `toString(table)` writes the empty string for nulls, so it is the same under both readings |
| CsvWriter.ToStringAsWrittenIgnoresDefault | src/main/java/net/nixill/tables/csv/CSVParser.java:161-169 | a sheet of one null cell writes nothing as written, and `x` when `def` is `x` |
| CsvWriter.TrailingMissingCellsWriteNothing | src/main/java/net/nixill/tables/csv/CSVParser.java:154-158 | columns with no existing cell after the last one write nothing, so no trailing commas |
| CsvWriter.FullRowJoins | src/main/java/net/nixill/tables/csv/CSVParser.java:152-168 | a row whose cells all exist writes its escaped cells joined by single commas |
| CsvWriter.SerializeJoinsRows | src/main/java/net/nixill/tables/csv/CSVParser.java:143-149 | the rows are joined by single line feeds, none before the first or after the last |
| CsvWriter.GridSheetText | src/main/java/net/nixill/tables/csv/CSVParser.java:139-175 | a rectangle at least one column wide is written as each row's line, joined by line feeds |
| CsvScanner.Terminator | src/main/java/net/nixill/tables/csv/CSVParser.java:66 | finds a terminator exactly at the end or before a character that is neither plain nor a quote; CRLF counts as one line break |
| CsvScanner.QuotedFrom | src/main/java/net/nixill/tables/csv/CSVParser.java:83 | a quoted field ends after the opening position, inside the text, and holds at least one character |
| CsvScanner.MatchField | src/main/java/net/nixill/tables/csv/CSVParser.java:80-84 | a match ends inside the text, at the end for the end terminator and past its start otherwise |
| CsvScanner.Tokenize | src/main/java/net/nixill/tables/csv/CSVParser.java:78-100 | the finished rows only grow, keeping the earlier ones, and the stop position is inside the text |
| CsvScanner.Close | src/main/java/net/nixill/tables/csv/CSVParser.java:104-106 | the last row is dropped exactly when it is empty or one empty field |
| CsvScanner.Parse | src/main/java/net/nixill/tables/csv/CSVParser.java:110-113 | a failed read always leaves some text unread |
| CsvScanner.TokenizeStopsEarly | src/main/java/net/nixill/tables/csv/CSVParser.java:99 | a scan that does not reach the end stops before the end of the text |
| CsvScanner.WithoutQuotesParses | src/main/java/net/nixill/tables/csv/CSVParser.java:66 | a text without quotes is always read to the end |
| CsvScanner.TrailingLineBreakExample | src/main/java/net/nixill/tables/csv/CSVParser.java:104-106 | `a,b` followed by LF reads as the one row `a,b` |
| CsvScanner.NoLineBreakExample | src/main/java/net/nixill/tables/csv/CSVParser.java:104-106 | `a,b` reads as the one row `a,b` |
| CsvScanner.EmptyTextExample | src/main/java/net/nixill/tables/csv/CSVParser.java:104-106 | the empty text reads as no rows |
| CsvScanner.EmptyQuotedFieldExample | src/main/java/net/nixill/tables/csv/CSVParser.java:66 | the empty quoted field does not match, so the text is not read |
| CsvScanner.LineBreaksExample | src/main/java/net/nixill/tables/csv/CSVParser.java:86-97 | CRLF, CR and LF each end a row |
| CsvScanner.QuotedFieldsExample | src/main/java/net/nixill/tables/csv/CSVParser.java:83 | a quoted field may hold a comma, and a doubled quote reads as one quote |
| CsvScanner.StrayQuoteExample | src/main/java/net/nixill/tables/csv/CSVParser.java:99-113 | a quote inside an unquoted field stops the read; the table keeps every field read so far, the unfinished row included, and the unread text starts after the last field that matched |
| CsvParser.ScanText | src/main/java/net/nixill/tables/csv/CSVParser.java:66-100 | the loop's rows, current row, last position and completion are the scanner's |
| CsvParser.FromString | src/main/java/net/nixill/tables/csv/CSVParser.java:52-116 | reads exactly when the scanner reads to the end, reports the unread text otherwise, and builds the table as the collection constructor does from the rows with a blank last row dropped |
| CsvParser.ReadRows | src/main/java/net/nixill/tables/csv/CSVParser.java:66-106 | the rows are the scanner's with a blank last row dropped; the read is complete exactly when the scanner reaches the end, and otherwise the text from the stop position is the scanner's remainder |
| CsvParser.FromStringAsWritten | src/main/java/net/nixill/tables/csv/CSVParser.java:108-115 | as written: always a table, built from the rows read, whether or not the whole text was read |
| CsvParser.StrayQuoteSwallowed | src/main/java/net/nixill/tables/csv/CSVParser.java:110-113 | for `x` LF `y,a"b`, the code as written returns the table of rows `x` and `y`, which the documented reading reports as not read past `a"b` |
| CsvParser.FieldScan | src/main/java/net/nixill/tables/csv/CSVParser.java:80-84 | a cell as the writer escapes it reads back as the same cell, ended by the comma, line feed or end that follows |
| CsvParser.QuotedBody | src/main/java/net/nixill/tables/csv/CSVParser.java:166 | the body of a quoted cell, its quotes doubled, reads back as the cell |
| CsvParser.NoSpecial | src/main/java/net/nixill/tables/csv/CSVParser.java:165 | a cell the writer leaves unquoted holds no quote, comma, CR or LF |
| CsvParser.ParseCsvText | src/main/java/net/nixill/tables/csv/CSVParser.java:104-106 | the text of rows that each hold a cell reads back as those rows, unless the last row is one empty cell |
| CsvParser.TableTextRoundTrip | src/main/java/net/nixill/tables/csv/CSVParser.java:17 | a table at least one column wide whose last row is not one empty cell is written as text that reads back as its rows, and building a table from them changes neither rows nor width |
| CsvParser.RoundTrip | src/main/java/net/nixill/tables/csv/CSVParser.java:126-128 | reading back the text of such a table succeeds and has the same rows and, when there are rows, the same width |
| CsvParser.BlankLastRowLost | src/main/java/net/nixill/tables/csv/CSVParser.java:146-149 | a last row of one empty cell is written as a trailing line feed and read back as nothing |

## Left out

- `fromFile` and `toFile` are file and stream I/O. `toFile` repeats the `toString` algorithm over a writer, so only `toString` is modelled.
- The Java regex engine is not modelled. The pattern of `fromString` is a hand-written scanner (`CsvScanner.MatchField`), and so are the A1 and R1C1 patterns (`CellReferences.MatchA1`, `CellReferences.IsStrictR1C1` and `CellReferences.IsLenientR1C1`).
- CsvParser.FromString: this follows the documented `@throws CSVParseException`: when the matching stops short of the end, it reports the text not read. As written, the code never throws. It throws only when `hitEnd()` is false. A failed `find` has tried every later start, which sets `hitEnd`, and a match ended by `\z` has hit the end. So `fromString` returns the partial table silently. That behaviour is `CsvParser.FromStringAsWritten` and is listed under Findings.
- The unused `rowSize` counter of `fromString` is not modelled.
- `ITable` is not modelled beyond `CsvWriter.Sheet`, the abstract table the writer reads.
- The `TextTable(ITable)` copy constructor is not modelled. It depends on a foreign table implementation.
- `CSVParseException` carries the partial table and the unread text, which is what `CsvParser.Reading.Unreadable` holds.
- Integers are unbounded. Java `int` overflow is not modelled in `Integer.parseInt` of long numerals (which Java rejects with `NumberFormatException`), in `width * height`, or in the subtractions of the two orders.
- CellReferences.CompareTo and CellReferences.CompareTransposed: both state the sign of the result and the two sentinel values, not the exact difference returned for valid references.
- CellReferences.HashCode: the 32-bit hash is modelled as an unsigned number below 2^32, with the error hash as 0xffffffff. Its packing is proved injective only when both coordinates are below 2^16.
- CellReferences.ToString: the contract states only that `#REF!` is the error reference's text; the `row, column` text of a valid reference is not restated.
- `Math.pow` in `columnToA1` works on doubles; the model uses integer powers of 26.
- Null checks are not modelled: `Objects.requireNonNull`, null lists, and null elements in the lists given to `addRow` and `addColumn`. Values are `seq<string>`. `set` refusing a null value is modelled.
- `Object.toString()` on generic cells is not modelled; the writer's sheet holds strings.
- The varargs overloads of `addRow` and `addColumn` take the same list as the `List` overloads, so `AddRow`, `AddRowAtEnd`, `AddColumn` and `AddColumnAtEnd` cover them.
- The messages of `IndexOutOfBoundsException` hold the numbers involved; the model keeps only the kind of error. The `IllegalArgumentException` messages are kept.
- `width()` only returns the field, so the model reads `width` directly.
- CsvWriter.ToString: the corrected writer escapes `def` like a cell value, so that the text reads back as `def`. The documentation does not say whether `def` is written raw.
- CsvParser.TableTextRoundTrip and CsvParser.RoundTrip exclude tables of width 0 and tables whose last row is one empty cell. Such tables do not survive the round trip: a row of no cells is written as an empty line, and a last line that is empty is dropped on reading (`CsvParser.BlankLastRowLost`).

## Findings

| source | as written | input that shows it | evidently intended | confidence | as-written member | corrected member |
|---|---|---|---|---|---|---|
| src/main/java/net/nixill/tables/TextTable.java:133-138 | `cellExists` tests `row > height` and `col > width` | row = height, column 0; or row 0, column = width | the strict bounds `get` uses, as in `row >= height` | not executed | TextTables.TextTable.CellExistsAsWritten, TextTables.CellExistsAsWrittenWrong | TextTables.TextTable.CellExists |
| src/main/java/net/nixill/tables/CellReference.java:106-109 | `ofA1Notation` stores the 1-based row number as it is | `A1` gives row 1 | row 0, since the top left cell is A1 | not executed | CellReferences.OfA1NotationAsWritten, CellReferences.OfA1NotationAsWrittenWrong | CellReferences.OfA1Notation, CellReferences.A1RoundTrip |
| src/main/java/net/nixill/tables/CellReference.java:145-148 | `ofR1C1Notation` stores both 1-based numbers as they are | `R1C1` gives (1, 1), which renders back as `R2C2` | (0, 0), since the top left cell is R1C1 | not executed | CellReferences.OfR1C1NotationAsWritten, CellReferences.OfR1C1NotationAsWrittenWrong | CellReferences.OfR1C1Notation, CellReferences.R1C1RoundTrip |
| src/main/java/net/nixill/tables/CellReference.java:386 | `columnFromA1` reads `charAt(0)` in every iteration | `BA` and `BB` both decode to 242 | `charAt(i)`, so that BA is 52 and BB is 53 | not executed | A1Columns.ColumnFromA1AsWritten, A1Columns.ColumnFromA1AsWrittenWrong | A1Columns.ColumnFromA1, A1Columns.ColumnRoundTrip |
| src/main/java/net/nixill/tables/CellReference.java:408-411 | `charToBase26` shifts by 7 for `A` to `J` after subtracting 10 | `A` becomes `7`, and `I` becomes `?`, which is not a base-26 digit | the shift for the characters `7` to `@`, so that A to J become 0 to 9 | not executed | A1Columns.CharToBase26AsWritten, A1Columns.CharToBase26AsWrittenWrong | A1Columns.CharToBase26 |
| src/main/java/net/nixill/tables/CellReference.java:429 | `columnToA1` formats with `Integer.toString(col, 26)`, whose digits above 9 are lower-case | column 10 renders as `k` | upper-case letters, `K` | not executed | A1Columns.ColumnToA1AsWritten, A1Columns.ColumnToA1AsWrittenWrong | A1Columns.ColumnToA1, A1Columns.LettersRoundTrip |
| src/main/java/net/nixill/tables/csv/CSVParser.java:161-169 | `toString(table, def)` never uses `def`; a null cell writes nothing | one null cell with `def` = `x` is written as the empty text | `def` written for each null cell, as documented | not executed | CsvWriter.ToStringAsWritten, CsvWriter.ToStringAsWrittenIgnoresDefault | CsvWriter.ToString |
| src/main/java/net/nixill/tables/csv/CSVParser.java:110-113 | `fromString` throws only when `hitEnd()` is false, which it never is after the loop | `x` LF `y,a"b`: the table of rows `x` and `y` comes back, and `a"b` is dropped silently | the `CSVParseException` its documentation promises, with the rows read and the text not read | not executed | CsvParser.FromStringAsWritten, CsvParser.StrayQuoteSwallowed | CsvParser.FromString |
