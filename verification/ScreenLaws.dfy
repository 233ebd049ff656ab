/** What the screen operations promise each other: what is undone, confined or spared. */
module ScreenLaws {
  import opened Options
  import opened Utf8
  import opened Cells
  import opened GridValues
  import opened ScreenState
  import opened ScreenEdits
  import opened ScreenModes

  // ----- Saved cursor -----

  /** DECRC brings back what DECSC saved, whatever became of the grid, cursor, pen, character
      sets, margins and modes in between. */
  lemma SavedIsRestored(s: ScreenV, now: ScreenV)
    requires Safe(s) && Safe(now) && now.savedCursor == CursorSaved(s).savedCursor
    ensures var r := CursorRestored(now);
            && r.pen == s.pen && r.g0 == s.g0 && r.g1 == s.g1 && r.activeCharset == s.activeCharset
            && r.modes == now.modes.(origin := s.modes.origin) && r.pendingWrap == s.pendingWrap && r.grid == now.grid
            && (s.cursor.row < now.grid.rows ==> r.cursor.row == s.cursor.row)
            && (s.cursor.col < now.grid.cols ==> r.cursor.col == s.cursor.col)
  {
    hide AllWide;
  }

  // ----- Positions -----

  /** Without origin mode every cell of the screen can be reached; with it exactly those
      inside the margins. */
  lemma PositionsReached(s: ScreenV, row: nat, col: nat)
    requires Safe(s)
    ensures !s.modes.origin ==>
              ((exists y: nat, x: nat :: Reaches(s, y, x, row, col)) <==> row < s.grid.rows && col < s.grid.cols)
    ensures s.modes.origin ==>
              ((exists y: nat, x: nat :: Reaches(s, y, x, row, col)) <==>
                s.top <= row < s.bottom && s.left <= col < s.right)
  {
    hide AllWide;
    if s.modes.origin && s.top <= row < s.bottom && s.left <= col < s.right {
      assert Reaches(s, row - s.top + 1, col - s.left + 1, row, col);
    }
    if !s.modes.origin && row < s.grid.rows && col < s.grid.cols {
      assert Reaches(s, row + 1, col + 1, row, col);
    }
  }

  /** The 1-based position (`y`, `x`) puts the cursor at (`row`, `col`). */
  predicate Reaches(s: ScreenV, y: nat, x: nat, row: nat, col: nat)
    requires Safe(s)
  {
    Positioned(s, y, x).cursor.row == row && Positioned(s, y, x).cursor.col == col
  }

  /** Vertical moves from inside the scroll region stay inside it, and move by the count if
      there is room. */
  lemma MovesStayInRegion(s: ScreenV, count: nat)
    requires Safe(s) && s.top <= s.cursor.row < s.bottom
    ensures var up, down := MovedUp(s, count).cursor.row, MovedDown(s, count).cursor.row;
            && s.top <= up <= s.cursor.row <= down < s.bottom
            && (s.cursor.row >= s.top + count <==> up + count == s.cursor.row)
            && (s.cursor.row + count < s.bottom <==> down == s.cursor.row + count)
  {
    hide AllWide;
  }

  /** Exactly the regions of two rows or more can be set; any other request leaves the region. */
  lemma RegionsThatCanBeSet(s: ScreenV, from: nat, to: nat)
    requires Safe(s) && 1 <= from <= s.grid.rows && 1 <= to
    ensures var r := RegionSet(s, from, to);
            (r.top, r.bottom) == if from < Min(to, s.grid.rows) then (from - 1, Min(to, s.grid.rows))
                                 else (s.top, s.bottom)
  {
    hide AllWide;
  }

  // ----- Selective erase -----

  /** A selective erase changes no protected cell and no continuation flag. */
  ghost predicate Spares(g: GridV, r: GridV) {
    && |r.lines| == |g.lines|
    && forall i: nat :: i < |g.lines| ==> SparesRow(g.lines[i], r.lines[i])
  }

  ghost predicate SparesRow(a: Row, b: Row) {
    && |b.cells| == |a.cells| && b.continuation == a.continuation
    && forall c: nat :: c < |a.cells| ==>
         b.cells[c] == a.cells[c] || (!a.cells[c].attrs.protected && b.cells[c] == BLANK)
  }

  lemma SpanSpares(row: Row, left: nat, right: nat)
    requires right < |row.cells|
    ensures SparesRow(row, row.(cells := SpanErased(row.cells, left, right, true)))
  {
  }

  lemma RowsSpare(g: GridV, from: nat, to: nat)
    requires g.Valid() && g.cols >= 1
    ensures Spares(g, RowsErased(g, from, to, true))
  {
    hide SparesRow, SpanErased;
    forall i: nat | i < g.rows
      ensures SparesRow(g.lines[i], RowsErased(g, from, to, true).lines[i])
    {
      SpanSpares(g.lines[i], 0, g.cols - 1);
      SameRowSpares(g.lines[i]);
    }
  }

  lemma SameRowSpares(row: Row)
    ensures SparesRow(row, row)
  {
  }

  lemma CursorRowSpares(g: GridV, row: nat, left: nat, right: nat)
    requires g.Valid() && g.cols >= 1 && row < g.rows
    ensures Spares(g, CursorRowErased(g, row, left, right, true))
  {
    hide SparesRow, SpanErased;
    forall i: nat | i < g.rows
      ensures SparesRow(g.lines[i], CursorRowErased(g, row, left, right, true).lines[i])
    {
      SpanSpares(g.lines[i], left, Min(right, g.cols - 1));
      SameRowSpares(g.lines[i]);
    }
  }

  lemma SparingTwice(a: GridV, b: GridV, c: GridV)
    requires Spares(a, b) && Spares(b, c)
    ensures Spares(a, c)
  {
    hide SparesRow;
    forall i: nat | i < |a.lines|
      ensures SparesRow(a.lines[i], c.lines[i])
    {
      RowSparedTwice(a.lines[i], b.lines[i], c.lines[i]);
    }
  }

  lemma RowSparedTwice(a: Row, b: Row, c: Row)
    requires SparesRow(a, b) && SparesRow(b, c)
    ensures SparesRow(a, c)
  {
  }

  /** DECSED and DECSEL spare protected cells; the ordinary erases blank whole rows with
      their flags. */
  lemma SelectiveErasesSpare(s: ScreenV, mode: EraseDisplay, line: EraseLine)
    requires Safe(s)
    ensures Spares(s.grid, DisplayErased(s, mode, true).grid)
    ensures Spares(s.grid, LineErased(s, line, true).grid)
    ensures DisplayErased(s, All, false).grid.lines == Fill(s.grid.rows, BlankRow(s.grid.cols))
  {
    hide Spares, RowsErased, CursorRowErased, AllWide;
    var g, row := s.grid, s.cursor.row;
    CursorRowSpares(g, row, s.cursor.col, g.cols - 1);
    CursorRowSpares(g, row, 0, s.cursor.col);
    var a := CursorRowErased(g, row, s.cursor.col, g.cols - 1, true);
    RowsSpare(a, row + 1, g.rows);
    SparingTwice(g, a, RowsErased(a, row + 1, g.rows, true));
    var b := RowsErased(g, 0, row, true);
    RowsSpare(g, 0, row);
    CursorRowSpares(b, row, 0, s.cursor.col);
    SparingTwice(g, b, CursorRowErased(b, row, 0, s.cursor.col, true));
    RowsSpare(g, 0, g.rows);
    RowsSpare(g, row, row + 1);
    SameGridSpares(g);
    AllRowsBlank(g);
    ScrollbackOnly(s);
  }

  lemma ScrollbackOnly(s: ScreenV)
    requires Safe(s)
    ensures DisplayErased(s, Scrollback, true).grid.lines == s.grid.lines
    ensures Spares(s.grid, DisplayErased(s, Scrollback, true).grid)
  {
    hide AllWide, SparesRow;
    SameGridSpares(s.grid);
  }

  lemma SameGridSpares(g: GridV)
    ensures Spares(g, g)
  {
  }

  lemma AllRowsBlank(g: GridV)
    requires g.Valid() && g.cols >= 1
    ensures RowsErased(g, 0, g.rows, false).lines == Fill(g.rows, BlankRow(g.cols))
  {
  }
}
