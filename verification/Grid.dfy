/** The terminal grid: its rows moved, blanked and overwritten in place. */
module Grids {
  import opened Options
  import opened Cells
  import opened GridValues
  import opened GridResize
  import opened Reflow
  import opened ReflowCursor

  class Grid {
    var cols: nat
    var rows: nat
    var lines: seq<Row>
    var scrollback: seq<Row>
    var limit: nat

    function Value(): GridV
      reads this
    {
      GridV(cols, rows, lines, scrollback, limit)
    }

    constructor (cols: nat, rows: nat)
      ensures Value() == BlankGrid(cols, rows)
    {
      this.cols, this.rows := cols, rows;
      lines, scrollback, limit := Fill(rows, BlankRow(cols)), [], DEFAULT_SCROLLBACK_LIMIT;
    }

    // ----- Scrollback -----

    method TrimScrollback()
      modifies this`scrollback
      ensures scrollback == Recent(old(scrollback), limit)
    {
      while |scrollback| > limit
        invariant |scrollback| <= |old(scrollback)|
        invariant scrollback == old(scrollback)[|old(scrollback)| - |scrollback|..]
        invariant |old(scrollback)| <= limit ==> scrollback == old(scrollback)
        invariant |old(scrollback)| > limit ==> |scrollback| >= limit
      {
        scrollback := scrollback[1..];
      }
    }

    method SetScrollbackLimit(limit: nat)
      modifies this`limit, this`scrollback
      ensures Value() == old(Value()).(limit := limit, scrollback := Recent(old(scrollback), limit))
    {
      this.limit := limit;
      TrimScrollback();
    }

    method PushScrollback(row: Row)
      modifies this`scrollback
      ensures scrollback == Recent(old(scrollback) + [row], limit)
    {
      scrollback := scrollback + [row];
      TrimScrollback();
    }

    method PopScrollback() returns (row: Option<Row>)
      modifies this`scrollback
      ensures row.None? <==> old(scrollback) == []
      ensures row.None? ==> scrollback == old(scrollback)
      ensures row.Some? ==> old(scrollback) == scrollback + [row.value]
    {
      if scrollback == [] { return None; }
      row := Some(scrollback[|scrollback| - 1]);
      scrollback := scrollback[..|scrollback| - 1];
    }

    // ----- Rows -----

    /** Rows `[from, to)` blank. */
    method BlankRows(from: nat, to: nat)
      requires from <= to <= |lines|
      modifies this`lines
      ensures |lines| == |old(lines)|
      ensures forall i :: 0 <= i < |lines| ==> lines[i] == if from <= i < to then BlankRow(cols) else old(lines)[i]
    {
      for i := from to to
        invariant |lines| == |old(lines)|
        invariant forall k :: 0 <= k < |lines| ==> lines[k] == if from <= k < i then BlankRow(cols) else old(lines)[k]
      {
        lines := lines[i := BlankRow(cols)];
      }
    }

    method ScrollUp(top: nat, bottom: nat, count: nat)
      requires Value().Valid() && bottom <= rows
      modifies this
      ensures Value() == ScrolledUp(old(Value()), top, bottom, count)
    {
      hide AllWide, RotatedLeft, RotatedRight, ShiftLeft, ShiftRight;
      if bottom <= top { return; }
      var n := Min(count, bottom - top);
      if n == 0 {
        IsShiftLeft(lines, top, bottom, 0, BlankRow(cols), lines);
        assert scrollback + lines[..0] == scrollback;
        return;
      }
      if top == 0 {
        PushTopRows(n);
      }
      ghost var before := lines;
      lines := RotatedLeft(lines, top, bottom, n);
      BlankRows(bottom - n, bottom);
      RotatedLeftBlanked(old(lines), before, top, bottom, n, BlankRow(cols), lines);
    }

    /** The top `n` rows go to the scrollback one by one, blank rows taking their place. */
    method PushTopRows(n: nat)
      requires Value().Valid() && n <= rows
      modifies this`lines, this`scrollback
      ensures |lines| == |old(lines)|
      ensures forall i :: n <= i < |lines| ==> lines[i] == old(lines)[i]
      ensures scrollback == Recent(old(scrollback) + old(lines)[..n], limit)
    {
      hide AllWide, Recent;
      RecentAll(scrollback, limit);
      assert lines[..0] == [];
      for i := 0 to n
        invariant |lines| == |old(lines)|
        invariant forall k :: i <= k < |lines| ==> lines[k] == old(lines)[k]
        invariant scrollback == Recent(old(scrollback) + old(lines)[..i], limit)
      {
        RecentStep(old(scrollback), old(lines), i, limit);
        PushScrollback(lines[i]);
        lines := lines[i := BlankRow(cols)];
      }
    }

    method ScrollDown(top: nat, bottom: nat, count: nat)
      requires Value().Valid() && bottom <= rows
      modifies this`lines
      ensures Value() == ScrolledDown(old(Value()), top, bottom, count)
    {
      hide AllWide, RotatedLeft, RotatedRight, ShiftLeft, ShiftRight;
      if bottom <= top { return; }
      var n := Min(count, bottom - top);
      if n == 0 {
        IsShiftRight(lines, top, bottom, 0, BlankRow(cols), lines);
        return;
      }
      lines := RotatedRight(lines, top, bottom, n);
      BlankRows(top, top + n);
      RotatedRightBlanked(old(lines), top, bottom, n, BlankRow(cols), lines);
    }

    method InsertLines(row: nat, count: nat, top: nat, bottom: nat)
      requires Value().Valid() && bottom <= rows
      modifies this`lines
      ensures Value() == LinesInserted(old(Value()), row, count, top, bottom)
    {
      hide AllWide, ShiftLeft, ShiftRight;
      if row < top || row >= bottom { return; }
      var n := Min(count, bottom - row);
      for i := bottom - n downto row
        invariant |lines| == rows
        invariant forall k :: i + n <= k < bottom ==> lines[k] == old(lines)[k - n]
        invariant forall k :: 0 <= k < i + n || bottom <= k < rows ==> lines[k] == old(lines)[k]
      {
        lines := lines[i + n := lines[i]];
      }
      ghost var moved := lines;
      BlankRows(row, row + n);
      MovedRightBlanked(old(lines), moved, row, bottom, n, BlankRow(cols), lines);
    }

    method DeleteLines(row: nat, count: nat, top: nat, bottom: nat)
      requires Value().Valid() && bottom <= rows
      modifies this`lines
      ensures Value() == LinesDeleted(old(Value()), row, count, top, bottom)
    {
      hide AllWide, ShiftLeft, ShiftRight;
      if row < top || row >= bottom { return; }
      var n := Min(count, bottom - row);
      for i := row to bottom - n
        invariant |lines| == rows
        invariant forall k :: row <= k < i ==> lines[k] == old(lines)[k + n]
        invariant forall k :: 0 <= k < row || i <= k < rows ==> lines[k] == old(lines)[k]
      {
        lines := lines[i := lines[i + n]];
      }
      ghost var moved := lines;
      BlankRows(bottom - n, bottom);
      MovedLeftBlanked(old(lines), moved, row, bottom, n, BlankRow(cols), lines);
    }

    method ClearRow(row: nat)
      requires Value().Valid() && row < rows
      modifies this`lines
      ensures Value() == RowCleared(old(Value()), row)
    {
      BlankSpan(row, 0, cols);
      assert lines[row].cells == BlankRow(cols).cells;
      SetFlag(row, false);
    }

    // ----- Cells -----

    function Cell(row: nat, col: nat): Cell
      requires Value().Valid() && rows >= 1 && cols >= 1
      reads this
    {
      CellAt(Value(), row, col)
    }

    method SetCell(row: nat, col: nat, cell: Cell)
      requires Value().Valid() && rows >= 1 && cols >= 1
      modifies this`lines
      ensures Value() == WithCell(old(Value()), row, col, cell)
    {
      var n := Min(row, rows - 1);
      lines := lines[n := lines[n].(cells := lines[n].cells[Min(col, cols - 1) := cell])];
    }

    method SetFlag(row: nat, continuation: bool)
      requires Value().Valid() && rows >= 1
      modifies this`lines
      ensures Value() == WithFlag(old(Value()), row, continuation)
    {
      var n := Min(row, rows - 1);
      lines := lines[n := lines[n].(continuation := continuation)];
    }

    method PutCell(row: nat, col: nat, cell: Cell)
      requires Value().Valid() && row < rows && col < cols
      modifies this`lines
      ensures Value() == WithCells(old(Value()), row, old(lines)[row].cells[col := cell])
    {
      SetCell(row, col, cell);
    }

    /** Cells `[from, to)` of a row blank. */
    method BlankSpan(row: nat, from: nat, to: nat)
      requires Value().Valid() && row < rows && from <= to <= cols
      modifies this`lines
      ensures Value() == WithCells(old(Value()), row, Spliced(old(lines)[row].cells, Fill(cols, BLANK), from, to))
    {
      SameCells(Value(), row);
      SpliceNothing(lines[row].cells, Fill(cols, BLANK), from);
      for c := from to to
        invariant Value().Valid()
        invariant Value() == WithCells(old(Value()), row, Spliced(old(lines)[row].cells, Fill(cols, BLANK), from, c))
      {
        SpliceStep(old(lines)[row].cells, Fill(cols, BLANK), from, c);
        PutCell(row, c, BLANK);
      }
    }

    /** Cells `[from, to)` of a row copied from row `src`. */
    method CopySpan(row: nat, src: nat, from: nat, to: nat)
      requires Value().Valid() && row < rows && src < rows && row != src && from <= to <= cols
      modifies this`lines
      ensures Value() == WithCells(old(Value()), row, Spliced(old(lines)[row].cells, old(lines)[src].cells, from, to))
    {
      SameCells(Value(), row);
      SpliceNothing(lines[row].cells, lines[src].cells, from);
      for c := from to to
        invariant Value().Valid()
        invariant Value() == WithCells(old(Value()), row,
                                       Spliced(old(lines)[row].cells, old(lines)[src].cells, from, c))
      {
        SpliceStep(old(lines)[row].cells, old(lines)[src].cells, from, c);
        PutCell(row, c, lines[src].cells[c]);
      }
    }

    method ClearRegion(top: nat, left: nat, bottom: nat, right: nat)
      requires Value().Valid() && rows >= 1 && cols >= 1
      modifies this`lines
      ensures Value() == RegionCleared(old(Value()), top, left, bottom, right)
    {
      var last, edge := Min(bottom, rows - 1), Min(right, cols - 1);
      for r := top to Max(top, last + 1)
        invariant r <= rows || r == top
        invariant Value().Valid()
        invariant forall i :: 0 <= i < rows ==>
          lines[i] == if top <= i < r then old(lines)[i].(cells := ClearedSpan(old(lines)[i].cells, left, edge))
                      else old(lines)[i]
      {
        ClearSpan(r, left, edge);
      }
    }

    method ClearSpan(row: nat, left: nat, right: nat)
      requires Value().Valid() && row < rows && right < cols
      modifies this`lines
      ensures Value() == WithCells(old(Value()), row, ClearedSpan(old(lines)[row].cells, left, right))
    {
      hide ClearedSpan, Spliced;
      SameCells(Value(), row);
      if left > 0 && left <= right && lines[row].cells[left].width == 0 {
        PutCell(row, left - 1, BLANK);
      }
      if right + 1 < cols && lines[row].cells[right].width == 2 {
        PutCell(row, right + 1, BLANK);
      }
      BlankSpan(row, Min(left, right + 1), right + 1);
      ClearedInSteps(old(lines)[row].cells, left, right);
    }

    method EraseChars(row: nat, col: nat, count: nat)
      requires Value().Valid()
      modifies this`lines
      ensures Value() == CharsErased(old(Value()), row, col, count)
    {
      hide ErasedSpan, Spliced;
      if row >= rows || col >= cols { return; }
      SameCells(Value(), row);
      var end := Min(col + count, cols);
      if col > 0 && lines[row].cells[col].width == 0 {
        PutCell(row, col - 1, BLANK);
      }
      if end < cols && end > col && lines[row].cells[end - 1].width == 2 {
        PutCell(row, end, BLANK);
      }
      BlankSpan(row, col, end);
      ErasedInSteps(old(lines)[row].cells, col, end);
    }

    method InsertCellsBounded(row: nat, col: nat, count: nat, right: nat)
      requires Value().Valid() && row < rows
      modifies this`lines
      ensures Value() == CellsInserted(old(Value()), row, col, count, right)
    {
      var bound := Min(right, cols);
      if col >= bound { return; }
      var n := Min(count, bound - col);
      var cells := lines[row].cells;
      for i := bound downto col + n
        invariant |cells| == cols
        invariant forall k :: 0 <= k < cols ==> cells[k] == old(lines)[row].cells[if i <= k < bound then k - n else k]
      {
        cells := cells[i := cells[i - n]];
      }
      for i := col to col + n
        invariant |cells| == cols
        invariant forall k :: 0 <= k < cols ==>
          cells[k] == if col <= k < i then BLANK else old(lines)[row].cells[if col + n <= k < bound then k - n else k]
      {
        cells := cells[i := BLANK];
      }
      IsShiftRight(old(lines)[row].cells, col, bound, n, BLANK, cells);
      lines := lines[row := lines[row].(cells := cells)];
    }

    method DeleteCellsBounded(row: nat, col: nat, count: nat, right: nat)
      requires Value().Valid() && row < rows
      modifies this`lines
      ensures Value() == CellsDeleted(old(Value()), row, col, count, right)
    {
      var bound := Min(right, cols);
      if col >= bound { return; }
      var n := Min(count, bound - col);
      var cells := lines[row].cells;
      for i := col to bound - n
        invariant |cells| == cols
        invariant forall k :: 0 <= k < cols ==> cells[k] == old(lines)[row].cells[if col <= k < i then k + n else k]
      {
        cells := cells[i := cells[i + n]];
      }
      for i := bound - n to bound
        invariant |cells| == cols
        invariant forall k :: 0 <= k < cols ==>
          cells[k] == if bound - n <= k < i then BLANK
                      else old(lines)[row].cells[if col <= k < bound - n then k + n else k]
      {
        cells := cells[i := BLANK];
      }
      IsShiftLeft(old(lines)[row].cells, col, bound, n, BLANK, cells);
      lines := lines[row := lines[row].(cells := cells)];
    }

    // ----- Rectangles -----

    method ScrollUpRegion(top: nat, bottom: nat, left: nat, right: nat, count: nat)
      requires Value().Valid() && bottom <= rows
      modifies this`lines
      ensures Value() == RegionUp(old(Value()), top, bottom, left, right, count)
    {
      hide Spliced;
      if bottom <= top || right <= left { return; }
      var n, bound := Min(count, bottom - top), Max(left, Min(right, cols));
      if n == 0 || left >= cols {
        RegionUpByNothing(Value(), top, bottom, left, right, count);
        return;
      }
      ghost var was := Value();
      for r := top to bottom - n
        invariant Value().Valid() && Value() == was.(lines := lines)
        invariant forall i :: 0 <= i < rows ==>
                    lines[i] == if i < r then RowUp(was, top, bottom, left, bound, n, i) else was.lines[i]
      {
        CopySpan(r, r + n, left, bound);
      }
      for r := bottom - n to bottom
        invariant Value().Valid() && Value() == was.(lines := lines)
        invariant forall i :: 0 <= i < rows ==>
                    lines[i] == if i < r then RowUp(was, top, bottom, left, bound, n, i) else was.lines[i]
      {
        BlankSpan(r, left, bound);
      }
      assert lines == RegionUp(was, top, bottom, left, right, count).lines;
    }

    method ScrollDownRegion(top: nat, bottom: nat, left: nat, right: nat, count: nat)
      requires Value().Valid() && bottom <= rows
      modifies this`lines
      ensures Value() == RegionDown(old(Value()), top, bottom, left, right, count)
    {
      hide Spliced;
      if bottom <= top || right <= left { return; }
      var n, bound := Min(count, bottom - top), Max(left, Min(right, cols));
      if n == 0 || left >= cols {
        RegionDownByNothing(Value(), top, bottom, left, right, count);
        return;
      }
      ghost var was := Value();
      for r := bottom - n downto top
        invariant Value().Valid() && Value() == was.(lines := lines)
        invariant forall i :: 0 <= i < rows ==>
          lines[i] == if r + n <= i then RowDown(was, top, bottom, left, bound, n, i) else was.lines[i]
      {
        CopySpan(r + n, r, left, bound);
      }
      for r := top to top + n
        invariant Value().Valid() && Value() == was.(lines := lines)
        invariant forall i :: 0 <= i < rows ==>
          lines[i] == if i < r || top + n <= i then RowDown(was, top, bottom, left, bound, n, i) else was.lines[i]
      {
        BlankSpan(r, left, bound);
      }
      assert lines == RegionDown(was, top, bottom, left, right, count).lines;
    }

    // ----- Resize -----

    method Resize(newCols: nat, newRows: nat) returns (delta: int)
      requires Value().Valid() && (newCols != cols ==> newCols >= 1)
      modifies this
      ensures Value() == Resized(old(Value()), newCols, newRows)
      ensures delta == CursorDelta(old(Value()), newCols, newRows, None)
    {
      delta := ResizeWithCursor(newCols, newRows, None);
    }

    method ResizeWithCursor(newCols: nat, newRows: nat, cursor: Option<(nat, nat)>) returns (delta: int)
      requires Value().Valid() && (newCols != cols ==> newCols >= 1)
      modifies this
      ensures Value() == Resized(old(Value()), newCols, newRows)
      ensures delta == CursorDelta(old(Value()), newCols, newRows, cursor)
    {
      hide AllWide, Reversed, Recent, Dropped, Recovered, History, WithColumns, ColumnDelta, RowDelta, WithRows;
      NoColumnChange(Value(), newRows, cursor);
      if newCols == cols && newRows == rows {
        SameSizeIsNothing(Value());
        return 0;
      }
      delta := 0;
      if newCols != cols {
        delta := ChangeColumns(newCols, newRows, cursor);
      }
      ghost var c := Value();
      ColumnsWide(old(Value()), newCols, newRows);
      RowsUnfold(c, newRows);
      if newRows > |lines| {
        var n := Grow(newRows);
        delta := delta + n;
      } else if newRows < |lines| {
        var n := Shrink(newRows);
        delta := delta - n;
      }
      cols, rows := newCols, newRows;
    }

    /** Scrollback and viewport are reflowed together and split again. */
    method ChangeColumns(newCols: nat, newRows: nat, cursor: Option<(nat, nat)>) returns (delta: int)
      requires newCols != cols && newCols >= 1
      modifies this
      ensures Value() == WithColumns(old(Value()), newCols, newRows)
      ensures delta == ColumnDelta(old(Value()), newCols, newRows, cursor)
    {
      hide AllWide, Reflowed, CursorRow, Recent;
      var all := scrollback + lines;
      var abs := if cursor.Some? then Some(|scrollback| + cursor.value.0) else None;
      var reflowed, to := ReflowLines(all, cols, newCols, abs, if cursor.Some? then cursor.value.1 else 0);
      var above := |reflowed| - Min(|reflowed|, newRows);
      scrollback, lines := reflowed[..above], reflowed[above..];
      TrimScrollback();
      delta := 0;
      if to.Some? && cursor.Some? {
        delta := SatSub(to.value, above) - cursor.value.0;
      }
      cols := newCols;
    }

    /** Rows are popped off the scrollback one by one; blank rows fill up. */
    method Grow(newRows: nat) returns (taken: nat)
      requires newRows >= |lines| && AllWide(scrollback, cols)
      modifies this`lines, this`scrollback
      ensures taken == Recovered(old(Value()), newRows)
      ensures Value().(rows := newRows) == WithRows(old(Value()), newRows)
    {
      hide Reversed;
      taken := Min(newRows - |lines|, |scrollback|);
      var newLines: seq<Row> := [];
      ghost var was := scrollback;
      NothingPopped(was);
      for i := 0 to taken
        invariant scrollback == was[..|was| - i] && newLines == Reversed(was[|was| - i..])
        invariant lines == old(lines) && AllWide(scrollback, cols)
      {
        var row := PopScrollback();
        PoppedStep(was, i);
        assert FitCells(row.value.cells, cols) == row.value.cells;
        newLines := newLines + [FitRow(row.value, cols)];
      }
      newLines := newLines + lines;
      ghost var before := newLines;
      assert before + Fill(0, BlankRow(cols)) == before;
      while |newLines| < newRows
        invariant |before| <= |newLines| <= newRows && scrollback == was[..|was| - taken]
        invariant newLines == before + Fill(|newLines| - |before|, BlankRow(cols))
      {
        FillStep(before, |newLines| - |before|, BlankRow(cols));
        newLines := newLines + [BlankRow(cols)];
      }
      lines := newLines;
    }

    /** A blank row at the bottom goes; otherwise the top row goes to the scrollback. */
    method Shrink(newRows: nat) returns (up: nat)
      requires newRows <= |lines| && |scrollback| <= limit
      modifies this`lines, this`scrollback
      ensures up == Pushed(old(lines), newRows)
      ensures scrollback == Recent(old(scrollback) + old(lines)[..up], limit)
      ensures lines == old(lines)[up..|old(lines)| - Dropped(old(lines), newRows)]
    {
      hide Recent, TrailingBlank, IsTextBlank;
      ghost var was := lines;
      ghost var down: nat := 0;
      up := 0;
      RecentAll(scrollback, limit);
      assert lines[..0] == [];
      for i := 0 to |lines| - newRows
        invariant up + down == i && down == Min(TrailingBlank(was), i)
        invariant lines == was[up..|was| - down]
        invariant scrollback == Recent(old(scrollback) + was[..up], limit)
      {
        if IsTextBlank(lines[|lines| - 1]) {
          lines := lines[..|lines| - 1];
          down := down + 1;
        } else {
          RecentStep(old(scrollback), was, up, limit);
          PushScrollback(lines[0]);
          lines := lines[1..];
          up := up + 1;
        }
      }
    }
  }

  // ----- Steps -----

  function RotatedLeft<T>(s: seq<T>, top: nat, bottom: nat, n: nat): (r: seq<T>)
    requires top + n <= bottom <= |s|
    ensures |r| == |s|
  {
    s[..top] + s[top + n..bottom] + s[top..top + n] + s[bottom..]
  }

  function RotatedRight<T>(s: seq<T>, top: nat, bottom: nat, n: nat): (r: seq<T>)
    requires top + n <= bottom <= |s|
    ensures |r| == |s|
  {
    s[..top] + s[bottom - n..bottom] + s[top..bottom - n] + s[bottom..]
  }

  /** A rotation whose wrapped places are then blanked is a shift; those places do not
      matter before it. */
  lemma RotatedLeftBlanked<T>(was: seq<T>, before: seq<T>, top: nat, bottom: nat, n: nat, x: T, after: seq<T>)
    requires top + n <= bottom <= |was| == |before| == |after|
    requires forall i :: 0 <= i < |was| && !(top <= i < top + n) ==> before[i] == was[i]
    requires forall i :: 0 <= i < |after| ==>
               after[i] == if bottom - n <= i < bottom then x else RotatedLeft(before, top, bottom, n)[i]
    ensures after == ShiftLeft(was, top, bottom, n, x)
  {
    hide ShiftLeft;
    forall i | 0 <= i < |was|
      ensures after[i] == if top <= i < bottom - n then was[i + n] else if bottom - n <= i < bottom then x else was[i]
    {
    }
    IsShiftLeft(was, top, bottom, n, x, after);
  }

  lemma RotatedRightBlanked<T>(was: seq<T>, top: nat, bottom: nat, n: nat, x: T, after: seq<T>)
    requires top + n <= bottom <= |was| == |after|
    requires forall i :: 0 <= i < |after| ==>
               after[i] == if top <= i < top + n then x else RotatedRight(was, top, bottom, n)[i]
    ensures after == ShiftRight(was, top, bottom, n, x)
  {
    hide ShiftRight;
    forall i | 0 <= i < |was|
      ensures after[i] == if top + n <= i < bottom then was[i - n] else if top <= i < top + n then x else was[i]
    {
    }
    IsShiftRight(was, top, bottom, n, x, after);
  }

  lemma RecentAll<T>(s: seq<T>, limit: nat)
    requires |s| <= limit
    ensures Recent(s + [], limit) == s
  {
  }

  lemma RecentStep<T>(s: seq<T>, rows: seq<T>, i: nat, limit: nat)
    requires i < |rows|
    ensures Recent(Recent(s + rows[..i], limit) + [rows[i]], limit) == Recent(s + rows[..i + 1], limit)
  {
    RecentTwice(s + rows[..i], [rows[i]], limit);
    assert s + rows[..i] + [rows[i]] == s + rows[..i + 1];
  }

  lemma PoppedStep<T>(was: seq<T>, i: nat)
    requires i < |was|
    ensures Reversed(was[|was| - i..]) + [was[|was| - i - 1]] == Reversed(was[|was| - i - 1..])
    ensures was[..|was| - i][..|was| - i - 1] == was[..|was| - i - 1]
  {
  }

  lemma NothingPopped<T>(was: seq<T>)
    ensures Reversed(was[|was|..]) == [] && was[..|was|] == was
  {
  }

  lemma FillStep<T>(before: seq<T>, n: nat, x: T)
    ensures before + Fill(n, x) + [x] == before + Fill(n + 1, x)
  {
  }

  lemma NoColumnChange(g: GridV, newRows: nat, cursor: Option<(nat, nat)>)
    requires g.Valid()
    ensures WithColumns(g, g.cols, newRows) == g && ColumnDelta(g, g.cols, newRows, cursor) == 0
    ensures RowDelta(g, g.rows) == 0
  {
  }

  lemma RowsUnfold(c: GridV, newRows: nat)
    ensures newRows == |c.lines| ==> WithRows(c, newRows) == c.(rows := newRows) && RowDelta(c, newRows) == 0
    ensures newRows > |c.lines| ==> RowDelta(c, newRows) == Recovered(c, newRows)
    ensures newRows < |c.lines| ==>
              var up := Pushed(c.lines, newRows);
              && RowDelta(c, newRows) == 0 - up
              && WithRows(c, newRows) == c.(rows := newRows,
                                            scrollback := Recent(c.scrollback + c.lines[..up], c.limit),
                                            lines := c.lines[up..|c.lines| - Dropped(c.lines, newRows)])
  {
    hide Dropped, Recent;
    if newRows == |c.lines| {
      assert c.scrollback[..|c.scrollback|] == c.scrollback;
      assert Reversed(c.scrollback[|c.scrollback|..]) + c.lines + Fill(0, BlankRow(c.cols)) == c.lines;
    }
  }

  lemma MovedRightBlanked<T>(was: seq<T>, moved: seq<T>, top: nat, bottom: nat, n: nat, x: T, after: seq<T>)
    requires top + n <= bottom <= |was| == |moved| == |after|
    requires forall k :: top + n <= k < bottom ==> moved[k] == was[k - n]
    requires forall k :: 0 <= k < top + n || bottom <= k < |was| ==> moved[k] == was[k]
    requires forall i :: 0 <= i < |after| ==> after[i] == if top <= i < top + n then x else moved[i]
    ensures after == ShiftRight(was, top, bottom, n, x)
  {
    IsShiftRight(was, top, bottom, n, x, after);
  }

  lemma MovedLeftBlanked<T>(was: seq<T>, moved: seq<T>, top: nat, bottom: nat, n: nat, x: T, after: seq<T>)
    requires top + n <= bottom <= |was| == |moved| == |after|
    requires forall k :: top <= k < bottom - n ==> moved[k] == was[k + n]
    requires forall k :: 0 <= k < top || bottom - n <= k < |was| ==> moved[k] == was[k]
    requires forall i :: 0 <= i < |after| ==> after[i] == if bottom - n <= i < bottom then x else moved[i]
    ensures after == ShiftLeft(was, top, bottom, n, x)
  {
    IsShiftLeft(was, top, bottom, n, x, after);
  }

  lemma SpliceStep<T>(cells: seq<T>, src: seq<T>, from: nat, c: nat)
    requires from <= c < |cells| && c < |src|
    ensures Spliced(cells, src, from, c)[c := src[c]] == Spliced(cells, src, from, c + 1)
  {
  }

  lemma SpliceNothing<T>(cells: seq<T>, src: seq<T>, from: nat)
    requires from <= |cells| && from <= |src|
    ensures Spliced(cells, src, from, from) == cells
  {
  }

  lemma SameCells(g: GridV, row: nat)
    requires g.Valid() && row < g.rows
    ensures WithCells(g, row, g.lines[row].cells) == g
  {
    assert g.lines[row := g.lines[row]] == g.lines;
  }

  lemma ClearedInSteps(cells: seq<Cell>, left: nat, right: nat)
    requires right < |cells|
    ensures var a := if left > 0 && left <= right && cells[left].width == 0 then cells[left - 1 := BLANK] else cells;
            var b := if right + 1 < |cells| && a[right].width == 2 then a[right + 1 := BLANK] else a;
            Spliced(b, Fill(|cells|, BLANK), Min(left, right + 1), right + 1) == ClearedSpan(cells, left, right)
  {
    hide Spliced, ErasedSpan, ClearedSpan;
    if left <= right {
      ErasedInSteps(cells, left, right + 1);
      SpansAgree(cells, left, right);
    } else {
      NothingCleared(cells, left, right);
      var b := if right + 1 < |cells| && cells[right].width == 2 then cells[right + 1 := BLANK] else cells;
      SpliceNothing(b, Fill(|cells|, BLANK), right + 1);
    }
  }

  lemma SpansAgree(cells: seq<Cell>, left: nat, right: nat)
    requires left <= right < |cells|
    ensures ErasedSpan(cells, left, right + 1) == ClearedSpan(cells, left, right)
  {
  }

  lemma NothingCleared(cells: seq<Cell>, left: nat, right: nat)
    requires right < |cells| && left > right
    ensures ClearedSpan(cells, left, right)
         == if right + 1 < |cells| && cells[right].width == 2 then cells[right + 1 := BLANK] else cells
  {
  }

  lemma ErasedInSteps(cells: seq<Cell>, col: nat, end: nat)
    requires col <= end <= |cells| && col < |cells|
    ensures var a := if col > 0 && cells[col].width == 0 then cells[col - 1 := BLANK] else cells;
            var b := if end < |cells| && end > col && a[end - 1].width == 2 then a[end := BLANK] else a;
            Spliced(b, Fill(|cells|, BLANK), col, end) == ErasedSpan(cells, col, end)
  {
    hide Spliced;
    var a := if col > 0 && cells[col].width == 0 then cells[col - 1 := BLANK] else cells;
    var b := if end < |cells| && end > col && a[end - 1].width == 2 then a[end := BLANK] else a;
    var r, span := Spliced(b, Fill(|cells|, BLANK), col, end), ErasedSpan(cells, col, end);
    forall i: nat | i < |cells|
      ensures r[i] == span[i]
    {
      SplicedAt(b, Fill(|cells|, BLANK), col, end, i);
    }
  }

  lemma SplicedAt<T>(cells: seq<T>, src: seq<T>, left: nat, right: nat, i: nat)
    requires left <= right <= |cells| && right <= |src| && i < |cells|
    ensures Spliced(cells, src, left, right)[i] == if left <= i < right then src[i] else cells[i]
  {
  }

  lemma RegionUpByNothing(g: GridV, top: nat, bottom: nat, left: nat, right: nat, count: nat)
    requires g.Valid() && top < bottom <= g.rows && left < right
    requires count == 0 || left >= g.cols
    ensures RegionUp(g, top, bottom, left, right, count) == g
  {
    if left < g.cols {
      forall i | 0 <= i < g.rows
        ensures RowUp(g, top, bottom, left, Min(right, g.cols), 0, i) == g.lines[i]
      {
        assert Spliced(g.lines[i].cells, g.lines[i].cells, left, Min(right, g.cols)) == g.lines[i].cells;
      }
      assert RegionUp(g, top, bottom, left, right, count).lines == g.lines;
    }
  }

  lemma RegionDownByNothing(g: GridV, top: nat, bottom: nat, left: nat, right: nat, count: nat)
    requires g.Valid() && top < bottom <= g.rows && left < right
    requires count == 0 || left >= g.cols
    ensures RegionDown(g, top, bottom, left, right, count) == g
  {
    if left < g.cols {
      forall i | 0 <= i < g.rows
        ensures RowDown(g, top, bottom, left, Min(right, g.cols), 0, i) == g.lines[i]
      {
        assert Spliced(g.lines[i].cells, g.lines[i].cells, left, Min(right, g.cols)) == g.lines[i].cells;
      }
      assert RegionDown(g, top, bottom, left, right, count).lines == g.lines;
    }
  }
}
