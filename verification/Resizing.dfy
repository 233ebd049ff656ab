/** A resize of the screen: the cursor stays with its row and its cell, and what becomes of the rest. */
module Resizing {
  import opened Options
  import opened Cells
  import opened GridValues
  import opened Reflow
  import opened ReflowCursor
  import opened GridResize
  import opened ScreenState
  import opened ScreenModes

  lemma ResizedCursor(s: ScreenV, newCols: nat, newRows: nat)
    requires Safe(s) && newCols >= 1 && newRows >= 1
    ensures var r := SizeChanged(s, newCols, newRows);
            var n := s.cursor.row + CursorDelta(s.grid, newCols, newRows, Some((s.cursor.row, s.cursor.col)));
            && r.cursor.row == (if n < 0 then 0 else if n >= newRows then newRows - 1 else n)
            && r.cursor.col == Min(s.cursor.col, newCols - 1)
            && r.cursor.visible == s.cursor.visible && r.cursor.shape == s.cursor.shape
            && r.grid == Resized(s.grid, newCols, newRows)
  {
    hide Resized, CursorDelta, Safe;
  }

  /** A higher screen of the same width: the cursor stays on its row, which goes down by as many
      rows as come back from the scrollback. */
  lemma CursorStaysWhenHigher(s: ScreenV, newRows: nat)
    requires Safe(s) && newRows >= s.grid.rows
    ensures var r := SizeChanged(s, s.grid.cols, newRows);
            && r.cursor.row == s.cursor.row + Min(newRows - s.grid.rows, |s.grid.scrollback|) < newRows
            && r.grid.Valid() && r.grid.rows == newRows && r.grid.lines[r.cursor.row] == s.grid.lines[s.cursor.row]
            && r.cursor.col == Min(s.cursor.col, s.grid.cols - 1)
  {
    hide AllWide, Resized, Tight;
    ResizedCursor(s, s.grid.cols, newRows);
    ResizedShape(s.grid, s.grid.cols, newRows);
    CursorFollowsRows(s.grid, newRows, s.cursor.row);
  }

  /** A lower one: it stays on its row too, up by as many rows as went to the scrollback, unless
      its row is one of those, or one of the blank rows dropped at the bottom. */
  lemma CursorStaysWhenLower(s: ScreenV, newRows: nat)
    requires Safe(s) && 1 <= newRows < s.grid.rows
    ensures var r := SizeChanged(s, s.grid.cols, newRows);
            var (up, down) := (Pushed(s.grid.lines, newRows), Dropped(s.grid.lines, newRows));
            && r.grid.Valid() && r.grid.rows == newRows && r.cursor.row < newRows
            && r.cursor.col == Min(s.cursor.col, s.grid.cols - 1)
            && if s.cursor.row < up then r.cursor.row == 0
               else if s.cursor.row >= s.grid.rows - down then r.cursor.row == newRows - 1
               else r.cursor.row == s.cursor.row - up && r.grid.lines[r.cursor.row] == s.grid.lines[s.cursor.row]
  {
    hide AllWide, Resized, Tight, Dropped;
    ResizedCursor(s, s.grid.cols, newRows);
    ResizedShape(s.grid, s.grid.cols, newRows);
    CursorFollowsRows(s.grid, newRows, s.cursor.row);
  }

  /** Another width: the cursor's row is that of the same logical line that keeps its cell, or the
      top one if that is above the screen; the column is only cut. */
  lemma CursorStaysWithItsCell(s: ScreenV, newCols: nat, newRows: nat)
    requires Safe(s) && s.cursor.col < s.grid.cols && newCols != s.grid.cols && newCols >= 1 && newRows >= 1
    ensures var r := SizeChanged(s, newCols, newRows);
            var (all, at) := (Reflowed(History(s.grid), newCols), |s.grid.scrollback| + s.cursor.row);
            var (to, above) := (CursorRow(History(s.grid), s.grid.cols, newCols, at, s.cursor.col),
                                SatSub(|all|, newRows));
            && CursorKept(History(s.grid), s.grid.cols, newCols, at, s.cursor.col, all, to)
            && LandsOn(all, to, above, r.grid.lines, r.cursor.row)
            && r.cursor.col == Min(s.cursor.col, newCols - 1)
  {
    hide AllWide, Resized, Tight, Reflowed, CursorRow, CursorKept, CursorDelta;
    ResizedCursor(s, newCols, newRows);
    ResizedShape(s.grid, newCols, newRows);
    CursorFollowsColumns(s.grid, newCols, newRows, s.cursor.row, s.cursor.col);
  }

  /** A region that was the whole screen still is; another one is cut. */
  ghost predicate Cut(from: nat, to: nat, size: nat, newFrom: nat, newTo: nat, newSize: nat) {
    if from == 0 && to == size then newFrom == 0 && newTo == newSize
    else newTo == Min(to, newSize) && newFrom == Min(from, SatSub(newTo, 1))
  }

  /** Everything else: the other grid is resized on its own, the regions are cut, tab stops stay
      and new columns have one every eight, the saved cursor is cut, no wrap is pending. */
  lemma RestOfResize(s: ScreenV, newCols: nat, newRows: nat)
    requires Safe(s) && newCols >= 1 && newRows >= 1
    ensures var r := SizeChanged(s, newCols, newRows);
            && r.alt == Resized(s.alt, newCols, newRows) && r.altCursor == s.altCursor && !r.pendingWrap
            && Cut(s.top, s.bottom, s.grid.rows, r.top, r.bottom, newRows)
            && Cut(s.left, s.right, s.grid.cols, r.left, r.right, newCols)
            && |r.tabStops| == newCols
            && (forall c :: 0 <= c < newCols ==>
                  r.tabStops[c] == if c < s.grid.cols then s.tabStops[c] else c > 0 && c % 8 == 0)
            && (s.savedCursor.None? ==> r.savedCursor.None?)
            && (s.savedCursor.Some? ==>
                  && r.savedCursor.Some?
                  && r.savedCursor.value.row == Min(s.savedCursor.value.row, newRows - 1)
                  && r.savedCursor.value.col == Min(s.savedCursor.value.col, newCols - 1)
                  && r.savedCursor.value == s.savedCursor.value.(row := r.savedCursor.value.row,
                                                                 col := r.savedCursor.value.col))
            && r.modes == s.modes && r.pen == s.pen && r.damage == s.damage
  {
    hide Resized, CursorDelta, AllWide;
  }

  /** Twenty-four rows of text but for the blank ones, a cursor four rows above the last that is
      not: four rows go up, and the cursor with its own. */
  lemma FourRowsUp(s: ScreenV)
    requires Safe(s) && s.grid.rows == 24 && s.cursor.row == 20 && !IsTextBlank(s.grid.lines[23])
    ensures SizeChanged(s, s.grid.cols, 20).cursor.row == 16
  {
    hide AllWide, Resized, IsTextBlank, SizeChanged;
    assert TrailingBlank(s.grid.lines) == 0;
    CursorStaysWhenLower(s, 20);
  }
}
