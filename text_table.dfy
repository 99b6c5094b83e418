/**
 * A table of strings that is always rectangular: `items` holds the rows, top
 * to bottom, and every row has exactly `width` cells. Rows and columns are
 * inserted, cells overwritten and the table grown in place.
 */
module TextTables {
  import opened Common

  // ---------------------------------------------------------------------------
  // Grids as values: the specification of the table's operations

  /** `n` empty cells. */
  function EmptyCells(n: nat): (b: seq<string>)
    ensures |b| == n && forall k :: 0 <= k < n ==> b[k] == ""
  {
    seq(n, _ => "")
  }

  /** `n` rows without cells. */
  function EmptyRows(n: nat): (rows: seq<seq<string>>)
    ensures |rows| == n && forall i :: 0 <= i < n ==> rows[i] == []
  {
    seq(n, _ => [])
  }

  /** Every row has exactly `w` cells. */
  predicate Rectangular(rows: seq<seq<string>>, w: nat)
  {
    forall i :: 0 <= i < |rows| ==> |rows[i]| == w
  }

  /** A row right-padded with empty cells to at least `w` cells; never truncated. */
  function PadRow(row: seq<string>, w: nat): (p: seq<string>)
    ensures |p| == if |row| >= w then |row| else w
    ensures p[..|row|] == row
    ensures forall k :: |row| <= k < |p| ==> p[k] == ""
  {
    if |row| >= w then row else row + EmptyCells(w - |row|)
  }

  /** Every row padded to at least `w` cells. */
  function PadRows(rows: seq<seq<string>>, w: nat): (p: seq<seq<string>>)
    ensures |p| == |rows|
  {
    seq(|rows|, i requires 0 <= i < |rows| => PadRow(rows[i], w))
  }

  /** A source cell as the collection constructor stores it: `null` becomes "". */
  function OrEmpty(cell: Option<string>): string
  {
    if cell.None? then "" else cell.value
  }

  /** The source rows with their nulls replaced, in order and unpadded. */
  function Cells(source: seq<seq<Option<string>>>): (rows: seq<seq<string>>)
    ensures |rows| == |source|
    ensures forall i :: 0 <= i < |source| ==> rows[i] == CellRow(source[i])
  {
    seq(|source|, i requires 0 <= i < |source| => CellRow(source[i]))
  }

  /** One source row with its nulls replaced. */
  function CellRow(source: seq<Option<string>>): (row: seq<string>)
    ensures |row| == |source|
    ensures forall k :: 0 <= k < |source| ==> row[k] == OrEmpty(source[k])
  {
    seq(|source|, k requires 0 <= k < |source| => OrEmpty(source[k]))
  }

  /** The length of the longest row, 0 when there is none. */
  function MaxWidth(rows: seq<seq<string>>): (m: nat)
    ensures forall i :: 0 <= i < |rows| ==> |rows[i]| <= m
    ensures |rows| == 0 ==> m == 0
    ensures |rows| > 0 ==> exists i :: 0 <= i < |rows| && |rows[i]| == m
    decreases |rows|
  {
    if |rows| == 0 then 0
    else
      var before := MaxWidth(rows[..|rows| - 1]);
      var last := |rows[|rows| - 1]|;
      if before >= last then before else last
  }

  /** The longest row after one more row is the longer of the two. */
  lemma {:induction false} MaxWidthAppend(rows: seq<seq<string>>, row: seq<string>)
    ensures MaxWidth(rows + [row]) == Max(MaxWidth(rows), |row|)
  {
    assert (rows + [row])[..|rows|] == rows;
  }

  /** `s` with `x` inserted at index `i`: earlier items stay, later ones move up by one. */
  function InsertAt<T>(s: seq<T>, i: nat, x: T): (t: seq<T>)
    requires i <= |s|
    ensures |t| == |s| + 1 && t[i] == x
    ensures forall k :: 0 <= k < i ==> t[k] == s[k]
    ensures forall k :: i < k < |t| ==> t[k] == s[k - 1]
  {
    s[..i] + [x] + s[i..]
  }

  /** Every row with a cell inserted at column `j`: `values[r]` in row `r`, "" past the end of `values`. */
  function InsertColumn(rows: seq<seq<string>>, j: nat, values: seq<string>): seq<seq<string>>
    requires forall i :: 0 <= i < |rows| ==> j <= |rows[i]|
  {
    seq(|rows|, i requires 0 <= i < |rows| =>
      InsertAt(rows[i], j, if i < |values| then values[i] else ""))
  }

  /** The grid grown to at least `h` rows, every row padded to `w` cells. */
  function Resized(rows: seq<seq<string>>, h: int, w: nat): seq<seq<string>>
  {
    var n: nat := if h > |rows| then h else |rows|;
    seq(n, i requires 0 <= i < n => if i < |rows| then PadRow(rows[i], w) else EmptyCells(w))
  }

  /** The cells of column `c`, top to bottom. */
  function Column(rows: seq<seq<string>>, c: nat): seq<string>
    requires forall i :: 0 <= i < |rows| ==> c < |rows[i]|
  {
    seq(|rows|, i requires 0 <= i < |rows| => rows[i][c])
  }

  /** The number of cells in all rows together. */
  function TotalCells(rows: seq<seq<string>>): nat
    decreases |rows|
  {
    if |rows| == 0 then 0 else TotalCells(rows[..|rows| - 1]) + |rows[|rows| - 1]|
  }

  /** In a rectangle the number of cells is the width times the height. */
  lemma {:induction false} TotalCellsRectangular(rows: seq<seq<string>>, w: nat)
    requires Rectangular(rows, w)
    ensures TotalCells(rows) == w * |rows|
    decreases |rows|
  {
    if |rows| > 0 {
      var init := rows[..|rows| - 1];
      assert Rectangular(init, w);
      TotalCellsRectangular(init, w);
    }
  }

  /**
   * Padding to the longest row gives a rectangle of that width that keeps
   * every row in order, keeps every cell and adds only empty cells.
   */
  lemma {:induction false} PadRowsRectangular(rows: seq<seq<string>>)
    ensures Rectangular(PadRows(rows, MaxWidth(rows)), MaxWidth(rows))
    ensures forall i :: 0 <= i < |rows| ==> PadRows(rows, MaxWidth(rows))[i][..|rows[i]|] == rows[i]
    ensures forall i, k :: 0 <= i < |rows| && |rows[i]| <= k < MaxWidth(rows) ==>
      PadRows(rows, MaxWidth(rows))[i][k] == ""
  {
  }

  /** A rectangle is already padded: its longest row is `w` wide when it has rows, and padding changes nothing. */
  lemma {:induction false} RectangularPadded(rows: seq<seq<string>>, w: nat)
    requires Rectangular(rows, w)
    ensures |rows| >= 1 ==> MaxWidth(rows) == w
    ensures PadRows(rows, MaxWidth(rows)) == rows
  {
    var m := MaxWidth(rows);
    if |rows| >= 1 {
      assert |rows[0]| <= m;
      var i :| 0 <= i < |rows| && |rows[i]| == m;
    }
    forall i | 0 <= i < |rows|
      ensures PadRows(rows, m)[i] == rows[i]
    {
      assert |rows[i]| >= m;
    }
  }

  /**
   * Inserting a column keeps the rectangle, one cell wider: cells left of `j`
   * stay, the new cell is at `j`, and cells from `j` on move right by one.
   */
  lemma {:induction false} InsertColumnShifts(rows: seq<seq<string>>, w: nat, j: nat, values: seq<string>)
    requires Rectangular(rows, w) && j <= w
    ensures Rectangular(InsertColumn(rows, j, values), w + 1)
    ensures forall i, k :: 0 <= i < |rows| && 0 <= k < j ==> InsertColumn(rows, j, values)[i][k] == rows[i][k]
    ensures forall i :: 0 <= i < |rows| ==>
      InsertColumn(rows, j, values)[i][j] == if i < |values| then values[i] else ""
    ensures forall i, k :: 0 <= i < |rows| && j < k <= w ==>
      InsertColumn(rows, j, values)[i][k] == rows[i][k - 1]
  {
  }

  /**
   * Growing only grows: the height is the larger of the two, the rectangle
   * has the new width, old cells keep their values and new cells are empty.
   */
  lemma {:induction false} ResizedKeepsCells(rows: seq<seq<string>>, w0: nat, h: int, w: nat)
    requires Rectangular(rows, w0) && w0 <= w
    ensures Rectangular(Resized(rows, h, w), w)
    ensures |Resized(rows, h, w)| == Max(|rows|, h)
    ensures forall i, k :: 0 <= i < |rows| && 0 <= k < w0 ==> Resized(rows, h, w)[i][k] == rows[i][k]
    ensures forall i, k :: 0 <= i < |Resized(rows, h, w)| && 0 <= k < w && (i >= |rows| || k >= w0) ==>
      Resized(rows, h, w)[i][k] == ""
  {
    var g := Resized(rows, h, w);
    forall i | 0 <= i < |rows|
      ensures g[i] == PadRow(rows[i], w) && |rows[i]| == w0
    {
    }
    forall i, k | 0 <= i < |g| && 0 <= k < w && (i >= |rows| || k >= w0)
      ensures g[i][k] == ""
    {
      if i < |rows| {
        assert g[i] == PadRow(rows[i], w) && |rows[i]| == w0;
      } else {
        assert g[i] == EmptyCells(w);
      }
    }
  }

  /** Growing a second time to the same bounds changes nothing. */
  lemma {:induction false} ResizedIdempotent(rows: seq<seq<string>>, w0: nat, h: int, w: nat)
    requires Rectangular(rows, w0) && w0 <= w
    ensures Resized(Resized(rows, h, w), h, w) == Resized(rows, h, w)
  {
    ResizedKeepsCells(rows, w0, h, w);
    var once := Resized(rows, h, w);
    var twice := Resized(once, h, w);
    assert |twice| == |once|;
    forall i | 0 <= i < |once|
      ensures twice[i] == once[i]
    {
      assert |once[i]| == w;
    }
  }

  /** Padding every row to the new width first does not change what growing gives. */
  lemma {:induction false} ResizedPadded(rows: seq<seq<string>>, w0: nat, h: int, w: nat)
    requires Rectangular(rows, w0) && w0 <= w
    ensures Resized(PadRows(rows, w), h, w) == Resized(rows, h, w)
  {
    var padded := PadRows(rows, w);
    forall i | 0 <= i < |rows|
      ensures PadRow(padded[i], w) == PadRow(rows[i], w)
    {
      assert |padded[i]| == w;
    }
  }

  // ---------------------------------------------------------------------------
  // The table

  /** The inner loop of the collection constructor: one source row with its nulls replaced by "". */
  method CopyRow(source: seq<Option<string>>) returns (row: seq<string>)
    ensures row == CellRow(source)
  {
    row := [];
    var k := 0;
    while k < |source|
      invariant 0 <= k <= |source| && |row| == k
      invariant forall j :: 0 <= j < k ==> row[j] == OrEmpty(source[j])
    {
      row := row + [OrEmpty(source[k])];
      k := k + 1;
    }
  }

  /** The padding loops of the collection constructor and of `resize`: "" appended up to `w` cells. */
  method PadRowTo(row: seq<string>, w: nat) returns (p: seq<string>)
    requires |row| <= w
    ensures |p| == w && p[..|row|] == row
    ensures forall k :: |row| <= k < w ==> p[k] == ""
  {
    p := row;
    var c := |row|;
    while c < w
      invariant |row| <= c <= w && |p| == c && p[..|row|] == row
      invariant forall k :: |row| <= k < c ==> p[k] == ""
    {
      p := p + [""];
      c := c + 1;
    }
  }

  class TextTable {
    var items: seq<seq<string>>
    var width: nat

    /** The class invariant: the table is rectangular. */
    ghost predicate Valid()
      reads this
    {
      Rectangular(items, width)
    }

    /** `TextTable()`: no rows and no columns. */
    constructor ()
      ensures Valid() && items == [] && width == 0
    {
      items := [];
      width := 0;
    }

    /** `TextTable(h, w)` once both sizes are known to be non-negative: `h` rows of `w` empty cells. */
    constructor Sized(h: nat, w: nat)
      ensures Valid() && width == w && items == seq(h, _ => EmptyCells(w))
    {
      items := [];
      width := 0;
      new;
      var r := 0;
      while r < h
        invariant 0 <= r <= h && items == seq(r, _ => EmptyCells(w))
      {
        var row := PadRowTo([], w);
        assert row == EmptyCells(w);
        items := items + [row];
        r := r + 1;
      }
      width := w;
    }

    /** `TextTable(h, w)`: negative sizes are refused. */
    static method OfSize(h: int, w: int) returns (r: Result<TextTable>)
      ensures r.Err? <==> h < 0 || w < 0
      ensures r.Err? ==> r.error == IllegalArgument("Sizes of tables must be positive.")
      ensures r.Ok? ==> fresh(r.value) && r.value.Valid() && r.value.width == w
      ensures r.Ok? ==> r.value.items == seq(h, _ => EmptyCells(w))
    {
      if h < 0 || w < 0 {
        return Err(IllegalArgument("Sizes of tables must be positive."));
      }
      var t := new TextTable.Sized(h, w);
      return Ok(t);
    }

    /**
     * `TextTable(Collection)`: the source rows in order, nulls as "", the width
     * that of the longest row, and every shorter row padded with "".
     */
    constructor FromCollection(source: seq<seq<Option<string>>>)
      ensures Valid()
      ensures width == MaxWidth(Cells(source))
      ensures items == PadRows(Cells(source), width)
    {
      var rows, w := CopyRows(source);
      items := rows;
      width := w;
      new;
      PadToWidth();
    }

    /** The collection constructor's first loop: the rows copied in order, the width that of the longest. */
    static method CopyRows(source: seq<seq<Option<string>>>) returns (rows: seq<seq<string>>, w: nat)
      ensures rows == Cells(source) && w == MaxWidth(rows)
    {
      ghost var cells := Cells(source);
      rows := [];
      w := 0;
      var i := 0;
      while i < |source|
        invariant 0 <= i <= |source|
        invariant rows == cells[..i]
        invariant w == MaxWidth(rows)
      {
        var row := CopyRow(source[i]);
        assert row == cells[i];
        MaxWidthAppend(rows, row);
        w := Max(w, |row|);
        assert cells[..i + 1] == cells[..i] + [row];
        rows := rows + [row];
        i := i + 1;
      }
      assert rows == cells;
    }

    /** The collection constructor's last loop: every row padded with "" to `width` cells. */
    method PadToWidth()
      requires forall i :: 0 <= i < |items| ==> |items[i]| <= width
      modifies this
      ensures Valid() && width == old(width)
      ensures items == PadRows(old(items), width)
    {
      ghost var rows := items;
      var r := 0;
      while r < |items|
        invariant 0 <= r <= |items| == |rows| && width == old(width)
        invariant forall t :: 0 <= t < r ==> items[t] == PadRow(rows[t], width)
        invariant forall t :: r <= t < |items| ==> items[t] == rows[t]
      {
        var row := PadRowTo(items[r], width);
        assert row == PadRow(rows[r], width);
        items := items[r := row];
        r := r + 1;
      }
      assert items == PadRows(rows, width);
    }


    /** `height()`: the number of rows, which bounds the rows `getRow` accepts. */
    function Height(): (h: nat)
      reads this
      ensures Valid() ==> forall row: int :: GetRow(row).Ok? <==> 0 <= row < h
    {
      |items|
    }

    /** `size()`: the number of cells the table holds. */
    function Size(): (n: nat)
      reads this
      requires Valid()
      ensures n == TotalCells(items)
    {
      TotalCellsRectangular(items, width);
      width * |items|
    }

    /** `area()`: columns times rows, which for a rectangle is again the number of cells. */
    function Area(): (n: nat)
      reads this
      requires Valid()
      ensures n == TotalCells(items) && n == Size()
    {
      TotalCellsRectangular(items, width);
      width * |items|
    }

    /** `get(row, col)`: strict bounds on both coordinates. */
    function Get(row: int, col: int): (r: Result<string>)
      reads this
      requires Valid()
      ensures r.Ok? <==> 0 <= row < |items| && 0 <= col < width
      ensures r.Err? ==> r.error == IndexOutOfBounds
      ensures r.Ok? ==> r.value == items[row][col]
    {
      if row < 0 || row >= |items| then Err(IndexOutOfBounds)
      else if col < 0 || col >= width then Err(IndexOutOfBounds)
      else Ok(items[row][col])
    }

    /** `cellExists` as written: both upper bounds are inclusive. */
    function CellExistsAsWritten(row: int, col: int): (r: bool)
      reads this
      requires Valid()
      ensures r <==> 0 <= row <= |items| && 0 <= col <= width
      ensures Get(row, col).Ok? ==> r
      ensures r && Get(row, col).Err? ==> row == |items| || col == width
    {
      if row < 0 || row > |items| then false
      else if col < 0 || col > width then false
      else true
    }

    /** `cellExists`, corrected: a cell exists exactly when `get` returns it. */
    function CellExists(row: int, col: int): (r: bool)
      reads this
      requires Valid()
      ensures r <==> Get(row, col).Ok?
    {
      if row < 0 || row >= |items| then false
      else if col < 0 || col >= width then false
      else true
    }

    /** `getRow(row)`: a copy of the row, `width` cells that `get` also returns. */
    function GetRow(row: int): (r: Result<seq<string>>)
      reads this
      requires Valid()
      ensures r.Ok? <==> 0 <= row < |items|
      ensures r.Err? ==> r.error == IndexOutOfBounds
      ensures r.Ok? ==> |r.value| == width && forall c :: 0 <= c < width ==> Get(row, c) == Ok(r.value[c])
    {
      if row < 0 || row >= |items| then Err(IndexOutOfBounds) else Ok(items[row])
    }

    /** `getColumn(col)`: a new list of the column's `height()` cells, top to bottom. */
    method GetColumn(col: int) returns (r: Result<seq<string>>)
      requires Valid()
      ensures r.Ok? <==> 0 <= col < width
      ensures r.Err? ==> r.error == IndexOutOfBounds
      ensures r.Ok? ==> |r.value| == |items| && forall i :: 0 <= i < |items| ==> Get(i, col) == Ok(r.value[i])
    {
      if col < 0 || col >= width {
        return Err(IndexOutOfBounds);
      }
      var out: seq<string> := [];
      var i := 0;
      while i < |items|
        invariant 0 <= i <= |items| && |out| == i
        invariant forall t :: 0 <= t < i ==> out[t] == items[t][col]
      {
        out := out + [items[i][col]];
        i := i + 1;
      }
      return Ok(out);
    }

    /**
     * `set(row, col, value)`: a null value is refused before the bounds are
     * checked; otherwise the previous value is returned and only that cell changes.
     */
    method Set(row: int, col: int, value: Option<string>) returns (r: Result<string>)
      requires Valid()
      modifies this
      ensures Valid() && width == old(width) && |items| == old(|items|)
      ensures value.None? ==> r == Err(NullPointer)
      ensures value.Some? ==> (r.Ok? <==> 0 <= row < |items| && 0 <= col < width)
      ensures value.Some? && r.Err? ==> r.error == IndexOutOfBounds
      ensures r.Err? ==> items == old(items)
      ensures r.Ok? ==> r == old(Get(row, col)) && Get(row, col) == Ok(value.value)
      ensures r.Ok? ==> forall i, c :: (i != row || c != col) ==> Get(i, c) == old(Get(i, c))
    {
      if value.None? {
        return Err(NullPointer);
      }
      if row < 0 || row >= |items| {
        return Err(IndexOutOfBounds);
      }
      if col < 0 || col >= width {
        return Err(IndexOutOfBounds);
      }
      r := Ok(items[row][col]);
      items := items[row := items[row][col := value.value]];
    }

    /**
     * `resize(h, w)`: grows the table to at least `h` rows and `w` columns,
     * padding existing rows first and then appending empty rows.
     */
    method Resize(h: int, w: int)
      requires Valid()
      modifies this
      ensures Valid()
      ensures width == Max(old(width), w)
      ensures items == Resized(old(items), h, width)
    {
      if width < w {
        width := w;
        PadToWidth();
        ResizedPadded(old(items), old(width), h, w);
      }
      AddEmptyRows(h);
    }

    /** The second half of `resize`: rows of `width` empty cells appended until there are `h`. */
    method AddEmptyRows(h: int)
      requires Valid()
      modifies this
      ensures Valid() && width == old(width)
      ensures items == Resized(old(items), h, width)
    {
      ghost var rows := items;
      if |items| < h {
        var r := |items|;
        while r < h
          invariant |rows| <= r <= h && |items| == r && width == old(width)
          invariant items[..|rows|] == rows
          invariant forall i :: |rows| <= i < r ==> items[i] == EmptyCells(width)
        {
          var row := PadRowTo([], width);
          assert row == EmptyCells(width);
          items := items + [row];
          r := r + 1;
        }
      }
      forall i | 0 <= i < |rows|
        ensures items[i] == rows[i] == PadRow(rows[i], width)
      {
        assert items[..|rows|][i] == items[i];
      }
      assert items == Resized(rows, h, width);
    }

    /**
     * `addRow(row, values)`: inserts the values, padded with "" to the width,
     * as row `row`. A table without rows or columns first takes the width of
     * the values; otherwise a row wider than the table is refused.
     */
    method AddRow(row: int, values: seq<string>) returns (r: Outcome)
      requires Valid()
      modifies this
      ensures Valid()
      ensures r.Failed? <==>
        row < 0 || row > old(|items|) || (|values| > old(width) && !(old(width) == 0 && old(|items|) == 0))
      ensures (row < 0 || row > old(|items|)) ==> r == Failed(IndexOutOfBounds)
      ensures r.Failed? && 0 <= row <= old(|items|) ==>
        r == Failed(IllegalArgument("Row width exceeds table width."))
      ensures r.Failed? ==> items == old(items) && width == old(width)
      ensures r.Done? ==> width == if old(width) == 0 && old(|items|) == 0 then |values| else old(width)
      ensures r.Done? ==> items == InsertAt(old(items), row, PadRow(values, width))
    {
      if row < 0 || row > |items| {
        return Failed(IndexOutOfBounds);
      }
      if width == 0 && |items| == 0 {
        Resize(0, |values|);
      }
      if |values| > width {
        return Failed(IllegalArgument("Row width exceeds table width."));
      }
      var list := PadRowTo(values, width);
      assert list == PadRow(values, width);
      items := items[..row] + [list] + items[row..];
      return Done;
    }

    /** `addRow(values)`: the same at the bottom of the table. */
    method AddRowAtEnd(values: seq<string>) returns (r: Outcome)
      requires Valid()
      modifies this
      ensures Valid()
      ensures r.Failed? <==> |values| > old(width) && !(old(width) == 0 && old(|items|) == 0)
      ensures r.Failed? ==> items == old(items) && width == old(width)
      ensures r.Done? ==> width == if old(width) == 0 && old(|items|) == 0 then |values| else old(width)
      ensures r.Done? ==> items == old(items) + [PadRow(values, width)]
    {
      r := AddRow(|items|, values);
      assert r.Done? ==> InsertAt(old(items), |old(items)|, PadRow(values, width)) == old(items) + [PadRow(values, width)];
    }

    /** `addRow()`: a row of empty cells at the bottom. */
    method AddBlankRow()
      requires Valid()
      modifies this
      ensures Valid() && width == old(width)
      ensures items == old(items) + [EmptyCells(width)]
    {
      var _ := AddRowAtEnd([]);
    }

    /**
     * `addColumn(col, values)`: inserts `values[r]` at column `col` of every
     * row `r`, and "" in the rows past the end of the values. A table without
     * rows or columns first takes as many rows as there are values; otherwise
     * a column taller than the table is refused.
     */
    method AddColumn(col: int, values: seq<string>) returns (r: Outcome)
      requires Valid()
      modifies this
      ensures Valid()
      ensures r.Failed? <==>
        col < 0 || col > old(width) || (|values| > old(|items|) && !(old(width) == 0 && old(|items|) == 0))
      ensures (col < 0 || col > old(width)) ==> r == Failed(IndexOutOfBounds)
      ensures r.Failed? && 0 <= col <= old(width) ==>
        r == Failed(IllegalArgument("Column height exceeds table height."))
      ensures r.Failed? ==> items == old(items) && width == old(width)
      ensures r.Done? ==> width == old(width) + 1
      ensures r.Done? ==> (items ==
        InsertColumn(if old(width) == 0 && old(|items|) == 0 then EmptyRows(|values|) else old(items), col, values))
    {
      if col < 0 || col > width {
        return Failed(IndexOutOfBounds);
      }
      if width == 0 && |items| == 0 {
        Resize(|values|, 0);
        assert items == EmptyRows(|values|);
      }
      if |values| > |items| {
        return Failed(IllegalArgument("Column height exceeds table height."));
      }
      InsertColumnShifts(items, width, col, values);
      InsertCells(col, values);
      width := width + 1;
      return Done;
    }

    /** The two loops of `addColumn(col, values)`: a cell inserted at `col` in every row. */
    method InsertCells(col: nat, values: seq<string>)
      requires Valid() && col <= width && |values| <= |items|
      modifies this
      ensures width == old(width)
      ensures items == InsertColumn(old(items), col, values)
    {
      ghost var base := items;
      var i := 0;
      while i < |values|
        invariant 0 <= i <= |values| <= |items| == |base| && Rectangular(base, width) && width == old(width)
        invariant forall t :: 0 <= t < i ==> items[t] == InsertAt(base[t], col, values[t])
        invariant forall t :: i <= t < |items| ==> items[t] == base[t]
      {
        items := items[i := InsertAt(items[i], col, values[i])];
        i := i + 1;
      }
      i := |values|;
      while i < |items|
        invariant |values| <= i <= |items| == |base| && width == old(width)
        invariant forall t :: 0 <= t < |values| ==> items[t] == InsertAt(base[t], col, values[t])
        invariant forall t :: |values| <= t < i ==> items[t] == InsertAt(base[t], col, "")
        invariant forall t :: i <= t < |items| ==> items[t] == base[t]
      {
        items := items[i := InsertAt(items[i], col, "")];
        i := i + 1;
      }
    }

    /** `addColumn(values)`: the same at the right edge of the table. */
    method AddColumnAtEnd(values: seq<string>) returns (r: Outcome)
      requires Valid()
      modifies this
      ensures Valid()
      ensures r.Failed? <==> |values| > old(|items|) && !(old(width) == 0 && old(|items|) == 0)
      ensures r.Failed? ==> items == old(items) && width == old(width)
      ensures r.Done? ==> width == old(width) + 1
      ensures r.Done? && old(width) == 0 && old(|items|) == 0 ==>
        items == seq(|values|, i requires 0 <= i < |values| => [values[i]])
      ensures r.Done? && !(old(width) == 0 && old(|items|) == 0) ==>
        |items| == old(|items|) &&
        forall i :: 0 <= i < |items| ==> items[i] == old(items)[i] + [if i < |values| then values[i] else ""]
    {
      r := AddColumn(width, values);
      if r.Done? && old(width) == 0 && old(|items|) == 0 {
        forall i | 0 <= i < |values|
          ensures items[i] == [values[i]]
        {
          assert items[i] == InsertAt(EmptyRows(|values|)[i], 0, values[i]);
        }
      }
      if r.Done? {
        ghost var base := if old(width) == 0 && old(|items|) == 0 then EmptyRows(|values|) else old(items);
        forall i | 0 <= i < |items|
          ensures items[i] == base[i] + [if i < |values| then values[i] else ""]
        {
          assert |base[i]| == old(width);
        }
      }
    }

    /** `addColumn()`: a column of empty cells at the right edge. */
    method AddBlankColumn()
      requires Valid()
      modifies this
      ensures Valid() && width == old(width) + 1 && |items| == old(|items|)
      ensures forall i :: 0 <= i < |items| ==> items[i] == old(items)[i] + [""]
    {
      var _ := AddColumnAtEnd([]);
    }
  }

  /**
   * Against a valid table, the inclusive bounds report a cell one row past the
   * bottom and one column past the right edge, both of which `get` refuses.
   */
  lemma {:induction false} CellExistsAsWrittenWrong(t: TextTable)
    requires t.Valid()
    ensures t.CellExistsAsWritten(t.Height(), 0)
    ensures t.Get(t.Height(), 0).Err? && !t.CellExists(t.Height(), 0)
    ensures t.CellExistsAsWritten(0, t.width)
    ensures t.Get(0, t.width).Err? && !t.CellExists(0, t.width)
  {
  }
}
