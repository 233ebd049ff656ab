/** The terminal screen: the state behind its methods, each of which does to the fields
    what the value functions say. */
module Screens {
  import opened Options
  import opened Utf8
  import opened Cells
  import opened GridValues
  import opened GridResize
  import opened Grids
  import opened ScreenState
  import opened ScreenEdits
  import opened ScreenModes

  class Screen {
    var grid: Grid
    var altGrid: Grid
    var cursor: Cursor
    var altCursor: Cursor
    var savedCursor: Option<SavedCursor>
    var modes: Modes
    var top: nat
    var bottom: nat
    var left: nat
    var right: nat
    var pen: Pen
    var tabStops: seq<bool>
    var g0: Charset
    var g1: Charset
    var activeCharset: nat
    var pendingWrap: bool
    var lastChar: Option<Scalar>
    var sgrStack: seq<Pen>
    var savedModes: Option<Modes>
    var hyperlink: Option<seq<Byte>>
    var boldIsBright: bool
    var damage: seq<DamageRegion>
    var damageMode: DamageMode

    function Value(): ScreenV
      reads this, grid, altGrid
    {
      ScreenV(grid.Value(), altGrid.Value(), cursor, altCursor, savedCursor, modes, top, bottom, left, right, pen,
              tabStops, g0, g1, activeCharset, pendingWrap, lastChar, sgrStack, savedModes, hyperlink, boldIsBright,
              damage, damageMode)
    }

    /** The grids the screen owns. */
    ghost function Grids(): set<Grid>
      reads this
    {
      {grid, altGrid}
    }

    ghost predicate Valid()
      reads this, grid, altGrid
    {
      grid != altGrid && Safe(Value())
    }

    constructor (cols: nat, rows: nat)
      requires cols >= 1 && rows >= 1
      ensures Valid() && fresh(grid) && fresh(altGrid) && Value() == NewScreen(cols, rows)
    {
      grid := new Grid(cols, rows);
      altGrid := new Grid(cols, rows);
      cursor, altCursor, savedCursor, modes := HOME_CURSOR, HOME_CURSOR, None, DEFAULT_MODES;
      top, bottom, left, right := 0, rows, 0, cols;
      pen, sgrStack, savedModes, hyperlink, boldIsBright := DEFAULT_PEN, [], None, None, false;
      tabStops := DefaultStops(cols);
      g0, g1, activeCharset := Ascii, Ascii, 0;
      pendingWrap, lastChar := false, None;
      damage, damageMode := [], CellMode;
    }

    // ----- Damage -----

    method RecordDamage(row: nat, colStart: nat, colEnd: nat)
      requires Valid()
      modifies this`damage
      ensures Value() == Damaged(old(Value()), row, colStart, colEnd) && Valid()
    {
      hide AllWide;
      if row >= grid.rows { return; }
      match damageMode {
        case CellMode => damage := damage + [DamageRegion(row, colStart, Min(colEnd, grid.cols))];
        case RowMode => damage := damage + [DamageRegion(row, 0, grid.cols)];
        case ScreenMode => damage := damage + [DamageRegion(0, 0, grid.cols)];
        case ScrollMode => damage := damage + [DamageRegion(row, colStart, Min(colEnd, grid.cols))];
      }
    }

    method RecordScrollDamage(from: nat, to: nat)
      requires Valid() && from <= to
      modifies this`damage
      ensures Value() == RowsDamaged(old(Value()), from, to) && Valid()
    {
      hide AllWide;
      for r := from to to
        invariant damage == old(damage) + WholeRows(grid.cols, from, r)
      {
        damage := damage + [DamageRegion(r, 0, grid.cols)];
      }
    }

    method RecordFullDamage()
      modifies this`damage
      ensures Value() == Redrawn(old(Value()))
      ensures old(Valid()) ==> Valid()
    {
      hide AllWide;
      for r := 0 to grid.rows
        invariant damage == old(damage) + WholeRows(grid.cols, 0, r)
      {
        damage := damage + [DamageRegion(r, 0, grid.cols)];
      }
    }

    // ----- Cursor -----

    method CarriageReturn()
      requires Valid()
      modifies this`cursor, this`pendingWrap
      ensures Value() == CarriageReturned(old(Value())) && Valid()
    {
      hide AllWide;
      if HasMargins(Value()) && cursor.col >= left {
        cursor := cursor.(col := left);
      } else {
        cursor := cursor.(col := 0);
      }
      pendingWrap := false;
    }

    method Backspace()
      requires Valid()
      modifies this`cursor, this`pendingWrap
      ensures Value() == Backspaced(old(Value())) && Valid()
    {
      hide AllWide;
      if cursor.col > 0 {
        cursor := cursor.(col := cursor.col - 1);
        pendingWrap := false;
      } else if modes.reverseWrap && modes.autowrap && cursor.row > 0 {
        cursor := cursor.(row := cursor.row - 1);
        cursor := cursor.(col := SatSub(grid.cols, 1));
        pendingWrap := false;
      }
    }

    method CursorUp(count: nat)
      requires Valid()
      modifies this`cursor, this`pendingWrap
      ensures Value() == MovedUp(old(Value()), count) && Valid()
    {
      hide AllWide;
      var limit := if top <= cursor.row < bottom then top else 0;
      cursor := cursor.(row := Max(SatSub(cursor.row, count), limit));
      pendingWrap := false;
    }

    method CursorDown(count: nat)
      requires Valid()
      modifies this`cursor, this`pendingWrap
      ensures Value() == MovedDown(old(Value()), count) && Valid()
    {
      hide AllWide;
      var limit := if top <= cursor.row < bottom then SatSub(bottom, 1) else SatSub(grid.rows, 1);
      cursor := cursor.(row := Min(cursor.row + count, limit));
      pendingWrap := false;
    }

    method CursorLeft(count: nat)
      requires Valid()
      modifies this`cursor, this`pendingWrap
      ensures Value() == MovedLeft(old(Value()), count) && Valid()
    {
      hide AllWide;
      cursor := cursor.(col := SatSub(cursor.col, count));
      pendingWrap := false;
    }

    method CursorRight(count: nat)
      requires Valid()
      modifies this`cursor, this`pendingWrap
      ensures Value() == MovedRight(old(Value()), count) && Valid()
    {
      hide AllWide;
      cursor := cursor.(col := Min(cursor.col + count, SatSub(grid.cols, 1)));
      pendingWrap := false;
    }

    method CursorPosition(row: nat, col: nat)
      requires Valid()
      modifies this`cursor, this`pendingWrap
      ensures Value() == Positioned(old(Value()), row, col) && Valid()
    {
      hide AllWide;
      var y, x := SatSub(row, 1), SatSub(col, 1);
      if modes.origin {
        cursor := cursor.(row := Min(top + y, SatSub(bottom, 1)));
        cursor := cursor.(col := Min(left + x, SatSub(right, 1)));
      } else {
        cursor := cursor.(row := Min(y, SatSub(grid.rows, 1)));
        cursor := cursor.(col := Min(x, SatSub(grid.cols, 1)));
      }
      pendingWrap := false;
    }

    method Home()
      requires Valid()
      modifies this`cursor, this`pendingWrap
      ensures Value() == Homed(old(Value())) && Valid()
    {
      hide AllWide;
      if modes.origin {
        cursor := cursor.(row := top, col := left);
      } else {
        cursor := cursor.(row := 0, col := 0);
      }
      pendingWrap := false;
    }

    // ----- Tab stops -----

    /** The next stop after the cursor, or the last column. */
    method Tab()
      requires Valid()
      modifies this`cursor, this`pendingWrap
      ensures Value() == MovedTo(old(Value()), old(cursor.row), NextStop(tabStops, old(cursor.col) + 1)) && Valid()
      ensures cursor.row == old(cursor.row)
    {
      hide AllWide;
      var c := cursor.col + 1;
      pendingWrap := false;
      while c < grid.cols
        invariant cursor == old(cursor) && !pendingWrap
        invariant NextStop(tabStops, c) == NextStop(tabStops, old(cursor.col) + 1)
      {
        if tabStops[c] {
          cursor := cursor.(col := c);
          return;
        }
        c := c + 1;
      }
      cursor := cursor.(col := SatSub(grid.cols, 1));
    }

    method TabForward(count: nat)
      requires Valid()
      modifies this`cursor, this`pendingWrap
      ensures Value() == TabbedForward(old(Value()), count) && Valid()
    {
      hide Safe, NextStop, MovedTo, AllWide;
      for i := 0 to count
        invariant Valid()
        invariant TabbedForward(Value(), count - i) == TabbedForward(old(Value()), count)
      {
        Tab();
      }
    }

    method TabBackward(count: nat)
      requires Valid()
      modifies this`cursor, this`pendingWrap
      ensures Value() == TabbedBackward(old(Value()), count) && Valid()
    {
      hide Safe, AllWide;
      BackwardForgetsPending(Value(), count);
      SetPendingWrap(false);
      for i := 0 to count
        invariant Valid() && !pendingWrap
        invariant TabbedBackward(Value(), count - i) == TabbedBackward(old(Value()), count)
      {
        if cursor.col == 0 {
          NoStopBefore(Value(), count - i);
          break;
        }
        PreviousTab();
      }
    }

    /** The last stop before the cursor, or column 0. */
    method PreviousTab()
      requires Valid() && !pendingWrap
      modifies this`cursor
      ensures Value() == MovedTo(old(Value()), old(cursor.row), PreviousStop(tabStops, old(cursor.col))) && Valid()
      ensures cursor.row == old(cursor.row)
    {
      hide AllWide;
      var c := cursor.col;
      while c > 0 && !(c - 1 < |tabStops| && tabStops[c - 1])
        invariant 0 <= c <= cursor.col && cursor == old(cursor)
        invariant PreviousStop(tabStops, c) == PreviousStop(tabStops, cursor.col)
      {
        c := c - 1;
      }
      cursor := cursor.(col := if c > 0 then c - 1 else 0);
    }

    method SetTabStop()
      requires Valid()
      modifies this`tabStops
      ensures Value() == StopSet(old(Value()), true) && Valid()
    {
      hide AllWide;
      if cursor.col < |tabStops| {
        tabStops := tabStops[cursor.col := true];
      }
    }

    method ClearTabStop()
      requires Valid()
      modifies this`tabStops
      ensures Value() == StopSet(old(Value()), false) && Valid()
    {
      hide AllWide;
      if cursor.col < |tabStops| {
        tabStops := tabStops[cursor.col := false];
      }
    }

    method ClearAllTabStops()
      requires Valid()
      modifies this`tabStops
      ensures Value() == StopsCleared(old(Value())) && Valid()
    {
      hide AllWide;
      for i := 0 to |tabStops|
        invariant |tabStops| == |old(tabStops)|
        invariant forall k :: 0 <= k < i ==> !tabStops[k]
      {
        tabStops := tabStops[i := false];
      }
      assert tabStops == Fill(|old(tabStops)|, false);
    }

    // ----- Lines -----

    method Linefeed()
      requires Valid()
      modifies this`cursor, this`pendingWrap, this`damage, grid
      ensures Value() == LineFed(old(Value())) && Valid()
    {
      hide Descended, AllWide;
      Descend();
      if modes.newline {
        cursor := cursor.(col := 0);
      }
    }

    method Descend()
      requires Valid()
      modifies this`cursor, this`pendingWrap, this`damage, grid
      ensures Value() == Descended(old(Value())) && Valid()
    {
      hide RegionUp, ScrolledUp, WholeRows, AllWide;
      pendingWrap := false;
      if cursor.row + 1 == bottom {
        RecordScrollDamage(top, bottom);
        if HasMargins(Value()) && InMargins(Value()) {
          grid.ScrollUpRegion(top, bottom, left, right, 1);
        } else {
          grid.ScrollUp(top, bottom, 1);
        }
      } else if cursor.row + 1 < grid.rows {
        cursor := cursor.(row := cursor.row + 1);
      }
    }

    method ReverseIndex()
      requires Valid()
      modifies this`cursor, this`pendingWrap, grid
      ensures Value() == ReverseIndexed(old(Value())) && Valid()
    {
      hide RegionDown, ScrolledDown, AllWide;
      if cursor.row == top {
        if HasMargins(Value()) && InMargins(Value()) {
          grid.ScrollDownRegion(top, bottom, left, right, 1);
        } else {
          grid.ScrollDown(top, bottom, 1);
        }
      } else if cursor.row > 0 {
        cursor := cursor.(row := cursor.row - 1);
      }
      pendingWrap := false;
    }

    method ScrollUp(count: nat)
      requires Valid()
      modifies this`damage, grid
      ensures Value() == RegionScrolledUp(old(Value()), count) && Valid()
    {
      hide RegionUp, ScrolledUp, WholeRows, AllWide;
      RecordScrollDamage(top, bottom);
      if HasMargins(Value()) {
        grid.ScrollUpRegion(top, bottom, left, right, count);
      } else {
        grid.ScrollUp(top, bottom, count);
      }
    }

    method ScrollDown(count: nat)
      requires Valid()
      modifies this`damage, grid
      ensures Value() == RegionScrolledDown(old(Value()), count) && Valid()
    {
      hide RegionDown, ScrolledDown, WholeRows, AllWide;
      RecordScrollDamage(top, bottom);
      if HasMargins(Value()) {
        grid.ScrollDownRegion(top, bottom, left, right, count);
      } else {
        grid.ScrollDown(top, bottom, count);
      }
    }

    method InsertLines(count: nat)
      requires Valid()
      modifies this`cursor, this`pendingWrap, grid
      ensures Value() == LinesOpened(old(Value()), count) && Valid()
    {
      hide LinesInserted, AllWide;
      var row := cursor.row;
      if top <= row < bottom {
        grid.InsertLines(row, count, top, bottom);
      }
      cursor := cursor.(col := 0);
      pendingWrap := false;
    }

    method DeleteLines(count: nat)
      requires Valid()
      modifies this`cursor, this`pendingWrap, grid
      ensures Value() == LinesRemoved(old(Value()), count) && Valid()
    {
      hide LinesDeleted, AllWide;
      var row := cursor.row;
      if top <= row < bottom {
        grid.DeleteLines(row, count, top, bottom);
      }
      cursor := cursor.(col := 0);
      pendingWrap := false;
    }

    // ----- Characters -----

    method InsertChars(count: nat)
      requires Valid()
      modifies this`damage, this`pendingWrap, grid
      ensures Value() == CharsOpened(old(Value()), count) && Valid()
    {
      hide CellsInserted, AllWide;
      var edge, row := RightEdge(Value()), cursor.row;
      RecordDamage(row, cursor.col, edge);
      grid.InsertCellsBounded(row, cursor.col, count, edge);
      pendingWrap := false;
    }

    method DeleteChars(count: nat)
      requires Valid()
      modifies this`damage, this`pendingWrap, grid
      ensures Value() == CharsRemoved(old(Value()), count) && Valid()
    {
      hide CellsDeleted, AllWide;
      var edge, row := RightEdge(Value()), cursor.row;
      RecordDamage(row, cursor.col, edge);
      grid.DeleteCellsBounded(row, cursor.col, count, edge);
      pendingWrap := false;
    }

    method EraseChars(count: nat)
      requires Valid()
      modifies this`damage, this`pendingWrap, grid
      ensures Value() == CharsBlanked(old(Value()), count) && Valid()
    {
      hide CharsErased, AllWide;
      var row, col := cursor.row, cursor.col;
      RecordDamage(row, col, Min(col + count, grid.cols));
      grid.EraseChars(row, col, count);
      pendingWrap := false;
    }

    // ----- Erasing -----

    /** Cells `left` to `right` of a row; a selective erase skips protected cells. */
    method ClearSpanImpl(row: nat, from: nat, to: nat, selective: bool)
      requires Valid() && row < grid.rows
      modifies grid
      ensures Value() == old(Value()).(grid := CursorRowErased(old(grid.Value()), row, from, to, selective)) && Valid()
    {
      hide RegionCleared, AllWide;
      if selective {
        SelectiveClear(row, from, Min(to, SatSub(grid.cols, 1)));
      } else {
        OneRowCleared(grid.Value(), row, from, to);
        grid.ClearRegion(row, from, row, to);
      }
    }

    method SelectiveClear(row: nat, from: nat, to: nat)
      requires Valid() && row < grid.rows && to < grid.cols
      modifies grid
      ensures Value() == old(Value()).(grid := WithCells(old(grid.Value()), row,
                                                         SpanErased(old(grid.lines[row].cells), from, to, true)))
      ensures Valid()
    {
      ghost var g, cells := grid.Value(), grid.lines[row].cells;
      SameCells(g, row);
      PartlyNone(cells, from);
      for c := from to Max(from, to + 1)
        invariant c == from || c <= to + 1
        invariant grid.Value() == WithCells(g, row, Partly(cells, from, c))
      {
        var cell := grid.Cell(row, c);
        PartlyStep(cells, from, c);
        if !cell.attrs.protected {
          grid.PutCell(row, c, BLANK);
        }
      }
      assert Partly(cells, from, Max(from, to + 1)) == SpanErased(cells, from, to, true);
    }

    method ClearRowImpl(row: nat, selective: bool)
      requires Valid() && row < grid.rows
      modifies grid
      ensures Value() == old(Value()).(grid := RowsErased(old(grid.Value()), row, row + 1, selective)) && Valid()
    {
      hide SpanErased;
      if selective {
        SelectiveClear(row, 0, grid.cols - 1);
        assert grid.lines == RowsErased(old(grid.Value()), row, row + 1, selective).lines;
      } else {
        grid.ClearRow(row);
        assert grid.lines == RowsErased(old(grid.Value()), row, row + 1, selective).lines;
      }
    }

    method EraseDisplay(mode: EraseDisplay, selective: bool)
      requires Valid()
      modifies this`damage, grid
      ensures Value() == DisplayErased(old(Value()), mode, selective) && Valid()
    {
      hide Safe, CursorRowErased, RowsErased, EachDamaged, Damaged, AllWide;
      match mode {
        case Below => EraseBelow(selective);
        case Above => EraseAbove(selective);
        case All => EraseRows(0, grid.rows, selective);
        case Scrollback => EraseScrollback();
      }
    }

    method EraseBelow(selective: bool)
      requires Valid()
      modifies this`damage, grid
      ensures Value() == DisplayErased(old(Value()), Below, selective) && Valid()
    {
      hide CursorRowErased, RowsErased, EachDamaged, Damaged, AllWide;
      RecordDamage(cursor.row, cursor.col, grid.cols);
      RecordEach(cursor.row + 1, grid.rows);
      ClearSpanImpl(cursor.row, cursor.col, grid.cols - 1, selective);
      ClearRows(cursor.row + 1, grid.rows, selective);
    }

    method EraseAbove(selective: bool)
      requires Valid()
      modifies this`damage, grid
      ensures Value() == DisplayErased(old(Value()), Above, selective) && Valid()
    {
      hide CursorRowErased, RowsErased, EachDamaged, Damaged, AllWide;
      EraseRows(0, cursor.row, selective);
      RecordDamage(cursor.row, 0, cursor.col + 1);
      GridApart(EachDamaged(old(Value()), 0, cursor.row), grid.Value(), cursor.row, 0, cursor.col + 1);
      ClearSpanImpl(cursor.row, 0, cursor.col, selective);
    }

    method EraseScrollback()
      requires Valid()
      modifies grid
      ensures Value() == DisplayErased(old(Value()), Scrollback, false) && Valid()
    {
      hide AllWide;
      ghost var was := grid.Value();
      while |grid.scrollback| > 0
        invariant grid.Value() == was.(scrollback := grid.scrollback)
        decreases |grid.scrollback|
      {
        var row := grid.PopScrollback();
      }
    }

    /** Rows `[from, to)` recorded one by one. */
    method RecordEach(from: nat, to: nat)
      requires Valid() && from <= to <= grid.rows
      modifies this`damage
      ensures Value() == EachDamaged(old(Value()), from, to) && Valid()
    {
      hide Safe, AllWide;
      NoneDamaged(Value(), from);
      for r := from to to
        invariant Valid() && Value() == EachDamaged(old(Value()), from, r)
      {
        EachStep(old(Value()), from, r);
        RecordDamage(r, 0, grid.cols);
      }
    }

    method ClearRows(from: nat, to: nat, selective: bool)
      requires Valid() && from <= to <= grid.rows
      modifies grid
      ensures Value() == old(Value()).(grid := RowsErased(old(grid.Value()), from, to, selective)) && Valid()
    {
      hide RowsErased, AllWide;
      NoneErased(grid.Value(), from, selective);
      for r := from to to
        invariant Valid() && Value() == old(Value()).(grid := RowsErased(old(grid.Value()), from, r, selective))
      {
        ErasedStep(old(grid.Value()), from, r, selective);
        ClearRowImpl(r, selective);
      }
    }

    /** Rows `[from, to)` recorded and cleared in turn. */
    method EraseRows(from: nat, to: nat, selective: bool)
      requires Valid() && from <= to <= grid.rows
      modifies this`damage, grid
      ensures Value() == WithGrid(EachDamaged(old(Value()), from, to),
                                  RowsErased(old(grid.Value()), from, to, selective))
      ensures Valid()
    {
      hide RowsErased, EachDamaged, Damaged, AllWide;
      NoneErased(grid.Value(), from, selective);
      NoneDamaged(Value(), from);
      for r := from to to
        invariant Valid()
        invariant Value() == WithGrid(EachDamaged(old(Value()), from, r),
                                      RowsErased(old(grid.Value()), from, r, selective))
      {
        EachStep(old(Value()), from, r);
        GridApart(EachDamaged(old(Value()), from, r), grid.Value(), r, 0, grid.cols);
        RecordDamage(r, 0, grid.cols);
        ErasedStep(old(grid.Value()), from, r, selective);
        ClearRowImpl(r, selective);
      }
    }

    method EraseLine(mode: EraseLine, selective: bool)
      requires Valid()
      modifies this`damage, grid
      ensures Value() == LineErased(old(Value()), mode, selective) && Valid()
    {
      hide CursorRowErased, RowsErased, Damaged, AllWide;
      var row := cursor.row;
      match mode {
        case ToRight =>
          RecordDamage(row, cursor.col, grid.cols);
          ClearSpanImpl(row, cursor.col, grid.cols - 1, selective);
        case ToLeft =>
          RecordDamage(row, 0, cursor.col + 1);
          ClearSpanImpl(row, 0, cursor.col, selective);
        case WholeLine =>
          RecordDamage(row, 0, grid.cols);
          ClearRowImpl(row, selective);
      }
    }

    // ----- Printing -----

    method WriteChar(c: Scalar)
      requires Valid()
      modifies this`cursor, this`pendingWrap, this`damage, this`lastChar, grid
      ensures Value() == CharWritten(old(Value()), c) && Valid()
    {
      hide AfterPending, AfterFit, AfterInsert, Put, Advanced, CharWidth, MappedChar, Safe, AllWide;
      var m := MappedChar(Value(), c);
      Note(m);
      var width := CharWidth(m);
      if width == 0 { return; }
      TakePendingWrap();
      MakeRoom(width);
      ShiftForInsert(width);
      PutChar(m, width);
      Advance(width);
    }

    method Note(c: Scalar)
      requires Valid()
      modifies this`lastChar
      ensures Value() == Noted(old(Value()), c) && Valid()
    {
      hide AllWide;
      lastChar := Some(c);
    }

    method SetContinuation(continuation: bool)
      requires Valid()
      modifies grid
      ensures Value() == Flagged(old(Value()), continuation) && Valid()
    {
      hide AllWide;
      grid.SetFlag(cursor.row, continuation);
    }

    method TakePendingWrap()
      requires Valid()
      modifies this`cursor, this`pendingWrap, this`damage, grid
      ensures Value() == AfterPending(old(Value())) && Valid()
    {
      hide Safe, Flagged, CarriageReturned, LineFed, RightEdge, AllWide;
      if pendingWrap {
        if modes.autowrap {
          SetContinuation(false);
          CarriageReturn();
          Linefeed();
          SetContinuation(true);
        } else {
          StayAtEdge();
        }
      }
    }

    method StayAtEdge()
      requires Valid()
      modifies this`cursor, this`pendingWrap
      ensures Value() == MovedTo(old(Value()), old(cursor.row), RightEdge(old(Value())) - 1) && Valid()
      ensures cursor.row == old(cursor.row)
    {
      hide AllWide;
      MoveTo(cursor.row, RightEdge(Value()) - 1);
    }

    method MoveTo(row: nat, col: nat)
      requires Valid() && row < grid.rows && col < grid.cols
      modifies this`cursor, this`pendingWrap
      ensures Value() == MovedTo(old(Value()), row, col) && Valid()
    {
      hide AllWide;
      cursor, pendingWrap := cursor.(row := row, col := col), false;
    }

    /** A wide character without room leaves a padding cell and goes to the next line. The
        guard for a column past the edge is left out: margins lie within the width. */
    method MakeRoom(width: nat)
      requires Valid()
      modifies this`cursor, this`pendingWrap, this`damage, grid
      ensures Value() == AfterFit(old(Value()), width) && Valid()
    {
      hide Flagged, CarriageReturned, LineFed, RightEdge, Padded, AllWide;
      if NoRoom(Value(), width) {
        if modes.autowrap {
          Pad();
          CarriageReturn();
          Linefeed();
          SetContinuation(true);
        } else {
          cursor := cursor.(col := SatSub(RightEdge(Value()), 2));
        }
      }
    }

    method Pad()
      requires Valid()
      modifies grid
      ensures Value() == Padded(old(Value())) && Valid()
    {
      var row, col := cursor.row, cursor.col;
      if col < grid.cols {
        var cell := grid.Cell(row, col);
        grid.PutCell(row, col, cell.(c := SPACE, width := 1));
      }
    }

    method ShiftForInsert(width: nat)
      requires Valid()
      modifies grid
      ensures Value() == AfterInsert(old(Value()), width) && Valid()
    {
      hide CellsInserted, AllWide;
      if modes.insert {
        grid.InsertCellsBounded(cursor.row, cursor.col, width, RightEdge(Value()));
      }
    }

    method PutChar(c: Scalar, width: nat)
      requires Valid()
      modifies this`damage, grid
      ensures Value() == Put(old(Value()), c, width) && Valid()
    {
      hide Written, Damaged, Glyph, AllWide;
      var row, col := cursor.row, cursor.col;
      if col < grid.cols {
        WriteGlyph(row, col, Glyph(Value(), c, width));
      }
      RecordDamage(row, col, col + width);
    }

    method WriteGlyph(row: nat, col: nat, glyph: Cell)
      requires Valid() && row < grid.rows && col < grid.cols
      modifies grid
      ensures Value() == old(Value()).(grid := WithCells(old(grid.Value()), row,
                                                         Written(old(grid.lines[row].cells), col, glyph)))
      ensures Valid()
    {
      hide Unfragmented;
      ClearFragments(row, col, glyph.width);
      grid.PutCell(row, col, glyph);
      if glyph.width == 2 && col + 1 < grid.cols {
        grid.PutCell(row, col + 1, glyph.(c := SPACE, width := 0));
      }
    }

    method ClearFragments(row: nat, col: nat, width: nat)
      requires Valid() && row < grid.rows && col < grid.cols
      modifies grid
      ensures Value() == old(Value()).(grid := WithCells(old(grid.Value()), row,
                                                         Unfragmented(old(grid.lines[row].cells), col, width)))
      ensures Valid()
    {
      hide HalfSpaced;
      ClearOtherHalf(row, col);
      if width == 2 && col + 2 < grid.cols && grid.lines[row].cells[col + 1].width == 2 {
        grid.PutCell(row, col + 2, Spaced(grid.lines[row].cells[col + 2]));
      }
    }

    method ClearOtherHalf(row: nat, col: nat)
      requires Valid() && row < grid.rows && col < grid.cols
      modifies grid
      ensures Value() == old(Value()).(grid := WithCells(old(grid.Value()), row,
                                                         HalfSpaced(old(grid.lines[row].cells), col)))
      ensures Valid()
    {
      SameCells(grid.Value(), row);
      var existing := grid.lines[row].cells[col].width;
      if existing == 2 && col + 1 < grid.cols {
        grid.PutCell(row, col + 1, Spaced(grid.lines[row].cells[col + 1]));
      }
      if existing == 0 && col > 0 && grid.lines[row].cells[col - 1].width == 2 {
        grid.PutCell(row, col - 1, Spaced(grid.lines[row].cells[col - 1]));
      }
    }

    method Advance(width: nat)
      requires Valid()
      modifies this`cursor, this`pendingWrap
      ensures Value() == Advanced(old(Value()), width) && Valid()
    {
      hide AllWide;
      var newCol, edge := cursor.col + width, RightEdge(Value());
      if newCol >= edge {
        if modes.autowrap {
          cursor, pendingWrap := cursor.(col := edge - 1), true;
        } else {
          cursor := cursor.(col := edge - 1);
        }
      } else {
        cursor := cursor.(col := newCol);
      }
    }

    /** REP. */
    method Repeat(c: Scalar, count: nat)
      requires Valid()
      modifies this`cursor, this`pendingWrap, this`damage, this`lastChar, grid
      ensures Value() == Repeated(old(Value()), c, count) && Valid()
    {
      hide Safe, CharWritten, AllWide;
      for i := 0 to count
        invariant Valid()
        invariant Repeated(Value(), c, count - i) == Repeated(old(Value()), c, count)
      {
        WriteChar(c);
      }
    }

    // ----- Rectangles -----

    method StampRect(top: nat, left: nat, bottom: nat, right: nat, c: Scalar, pen: Pen)
      requires Valid() && bottom <= grid.rows && right <= grid.cols
      modifies grid
      ensures Value() == old(Value()).(grid := RectStamped(old(grid.Value()), top, left, bottom, right, c, pen))
              && Valid()
    {
      hide CellsStamped, AllWide;
      NoneStamped(grid.Value(), top, left, right, c, pen);
      for r := top to Max(top, bottom)
        invariant r == top || r <= bottom
        invariant Valid()
        invariant Value() == old(Value()).(grid := RectStamped(old(grid.Value()), top, left, r, right, c, pen))
      {
        StampStep(old(grid.Value()), top, left, r, right, c, pen);
        StampSpan(r, left, right, c, pen);
      }
      StampedTo(old(grid.Value()), top, left, bottom, right, c, pen);
    }

    method StampSpan(row: nat, from: nat, to: nat, c: Scalar, pen: Pen)
      requires Valid() && row < grid.rows && to <= grid.cols
      modifies grid
      ensures Value() == old(Value()).(grid := WithCells(old(grid.Value()), row,
                                                         CellsStamped(old(grid.lines[row].cells), from, to, c, pen)))
      ensures Valid()
    {
      ghost var g, cells := grid.Value(), grid.lines[row].cells;
      SameCells(g, row);
      NoCellStamped(cells, from, c, pen);
      for i := from to Max(from, to)
        invariant i == from || i <= to
        invariant grid.Value() == WithCells(g, row, CellsStamped(cells, from, i, c, pen))
      {
        CellStampStep(cells, from, i, c, pen);
        grid.PutCell(row, i, Stamped(grid.Cell(row, i), c, pen));
      }
      if to < from {
        assert CellsStamped(cells, from, to, c, pen) == cells;
      }
    }

    /** DECALN. */
    method Align()
      requires Valid()
      modifies this`cursor, this`pendingWrap, this`top, this`bottom, grid
      ensures Value() == Aligned(old(Value())) && Valid()
    {
      hide RectStamped, AllWide;
      StampRect(0, 0, grid.rows, grid.cols, 0x45, DEFAULT_PEN);
      ResetRegion();
      MoveTo(0, 0);
    }

    method ResetRegion()
      requires Valid()
      modifies this`top, this`bottom
      ensures Value() == old(Value()).(top := 0, bottom := grid.rows) && Valid()
    {
      hide AllWide;
      top, bottom := 0, grid.rows;
    }

    /** DECFRA. */
    method FillRect(c: Scalar, top: nat, left: nat, bottom: nat, right: nat)
      requires Valid()
      modifies grid
      ensures Value() == RectFilled(old(Value()), c, top, left, bottom, right) && Valid()
    {
      hide AllWide;
      var t, l := Min(SatSub(top, 1), SatSub(grid.rows, 1)), Min(SatSub(left, 1), SatSub(grid.cols, 1));
      StampedTo(grid.Value(), t, l, bottom, Min(right, grid.cols), c, pen);
      StampRect(t, l, Min(bottom, grid.rows), Min(right, grid.cols), c, pen);
    }

    /** DECSERA. */
    method SelectiveEraseRect(top: nat, left: nat, bottom: nat, right: nat)
      requires Valid()
      modifies grid
      ensures Value() == RectErased(old(Value()), top, left, bottom, right) && Valid()
    {
      hide SpanErased;
      var t, l := Min(SatSub(top, 1), SatSub(grid.rows, 1)), Min(SatSub(left, 1), SatSub(grid.cols, 1));
      var b, e := Min(bottom, grid.rows), Min(right, grid.cols);
      ghost var g := grid.Value();
      if l < e {
        for r := t to Max(t, b)
          invariant r == t || r <= b
          invariant Valid() && grid.Value() == g.(lines := grid.lines)
          invariant forall i :: 0 <= i < g.rows ==>
            grid.lines[i] == if t <= i < r then SelectivelyErased(g, i, l, e - 1) else g.lines[i]
        {
          SelectiveClear(r, l, e - 1);
        }
      }
      assert grid.lines == RectErased(old(Value()), top, left, bottom, right).grid.lines;
    }

    /** DECCRA: through a buffer, so that the rectangles may overlap. */
    method CopyRect(top: nat, left: nat, bottom: nat, right: nat, toTop: nat, toLeft: nat)
      requires Valid()
      modifies grid
      ensures Value() == RectCopied(old(Value()), top, left, bottom, right, toTop, toLeft) && Valid()
    {
      hide Pasted, Gathered, AllWide;
      var rows, cols := grid.rows, grid.cols;
      var st, sl := Min(SatSub(top, 1), SatSub(rows, 1)), Min(SatSub(left, 1), SatSub(cols, 1));
      var dt, dl := Min(SatSub(toTop, 1), SatSub(rows, 1)), Min(SatSub(toLeft, 1), SatSub(cols, 1));
      var h, w := SatSub(Min(bottom, rows), st), SatSub(Min(right, cols), sl);
      if h == 0 || w == 0 { return; }
      var buf := Gather(st, sl, h, w);
      PasteBuffer(buf, st, sl, h, w, dt, dl);
    }

    /** The rectangle row by row in one buffer; it lies in the grid. */
    method Gather(st: nat, sl: nat, h: nat, w: nat) returns (buf: seq<Cell>)
      requires Valid() && st + h <= grid.rows && sl + w <= grid.cols
      ensures buf == Gathered(grid.Value(), st, sl, h, w)
    {
      buf := [];
      for r := 0 to h
        invariant buf == Gathered(grid.Value(), st, sl, r, w)
      {
        ghost var before := buf;
        for c := 0 to w
          invariant buf == before + grid.lines[st + r].cells[sl..sl + c]
        {
          GatherStep(before, grid.lines[st + r].cells, sl, c);
          buf := buf + [grid.Cell(st + r, sl + c)];
        }
      }
    }

    method PasteBuffer(buf: seq<Cell>, st: nat, sl: nat, h: nat, w: nat, dt: nat, dl: nat)
      requires Valid() && st + h <= grid.rows && sl + w <= grid.cols
      requires buf == Gathered(grid.Value(), st, sl, h, w)
      modifies grid
      ensures Value() == old(Value()).(grid := Pasted(old(grid.Value()), st, sl, h, w, dt, dl)) && Valid()
    {
      hide PastedRow, Gathered;
      ghost var g := grid.Value();
      NothingPasted(g, st, sl, w, dt, dl);
      for dr := 0 to h
        invariant Valid() && Value() == old(Value()).(grid := Pasted(g, st, sl, dr, w, dt, dl))
      {
        PasteStep(g, st, sl, dr, w, dt, dl);
        if dt + dr < grid.rows {
          PasteRow(buf, g, st, sl, h, w, dt, dl, dr);
        }
      }
    }

    method PasteRow(buf: seq<Cell>, ghost g: GridV, st: nat, sl: nat, h: nat, w: nat, dt: nat, dl: nat, dr: nat)
      requires Valid() && g.Valid() && grid.Value().SameShape(g)
      requires st + h <= g.rows && sl + w <= g.cols && dr < h && dt + dr < g.rows
      requires buf == Gathered(g, st, sl, h, w)
      requires grid.lines[dt + dr] == g.lines[dt + dr]
      modifies grid
      ensures Value() == old(Value()).(grid := WithCells(old(grid.Value()), dt + dr,
                                                         PastedRow(g, st, sl, dr + 1, w, dt, dl, dt + dr).cells))
      ensures Valid()
    {
      hide Gathered;
      var row := dt + dr;
      ghost var now, cells, src := grid.Value(), grid.lines[dt + dr].cells, g.lines[st + dr].cells;
      SameCells(now, row);
      assert Partial(cells, src, sl, dl, 0) == cells;
      for dc := 0 to w
        invariant Valid() && Value() == old(Value()).(grid := grid.Value())
        invariant grid.Value() == WithCells(now, row, Partial(cells, src, sl, dl, dc))
      {
        GatheredAt(g, st, sl, h, w, dr, dc);
        if dl + dc < grid.cols {
          grid.PutCell(row, dl + dc, buf[dr * w + dc]);
        }
        PartialStep(cells, src, sl, dl, dc);
      }
      assert Partial(cells, src, sl, dl, w) == PastedRow(g, st, sl, dr + 1, w, dt, dl, row).cells;
    }

    // ----- Saved state -----

    method SaveCursor()
      requires Valid()
      modifies this`savedCursor
      ensures Value() == CursorSaved(old(Value())) && Valid()
    {
      hide AllWide;
      savedCursor := Some(SavedCursor(cursor.row, cursor.col, pen.attrs, pen.fg, pen.bg, g0, g1, activeCharset,
                                      modes.origin, pendingWrap));
    }

    method RestoreCursor()
      modifies this`cursor, this`pen, this`g0, this`g1, this`activeCharset, this`modes, this`pendingWrap
      ensures Value() == Restored(old(Value()))
      ensures old(Valid()) ==> Valid()
    {
      hide AllWide, Safe;
      match savedCursor {
        case Some(v) =>
          PlaceCursor(Min(v.row, SatSub(grid.rows, 1)), Min(v.col, SatSub(grid.cols, 1)));
          SetPen(Pen(v.attrs, v.fg, v.bg));
          SetCharsets(v.g0, v.g1, v.activeCharset);
          SetModes(modes.(origin := v.originMode));
          SetPendingWrap(v.pendingWrap);
        case None =>
          PlaceCursor(0, 0);
          SetPen(DEFAULT_PEN);
          SetPendingWrap(false);
      }
    }

    method PlaceCursor(row: nat, col: nat)
      modifies this`cursor
      ensures Value() == old(Value()).(cursor := old(cursor).(row := row, col := col))
    {
      cursor := cursor.(row := row, col := col);
    }

    method PushSgr()
      requires Valid()
      modifies this`sgrStack
      ensures Value() == old(Value()).(sgrStack := old(sgrStack) + [pen]) && Valid()
    {
      hide AllWide;
      sgrStack := sgrStack + [pen];
    }

    method SaveDecModes()
      requires Valid()
      modifies this`savedModes
      ensures Value() == old(Value()).(savedModes := Some(modes)) && Valid()
    {
      hide AllWide;
      savedModes := Some(modes);
    }

    // ----- Margins -----

    method SetScrollRegion(from: nat, to: nat)
      requires Valid()
      modifies this`top, this`bottom, this`cursor, this`pendingWrap
      ensures Value() == RegionSet(old(Value()), from, to) && Valid()
    {
      hide Homed, AllWide;
      var first, last := if from == 0 then 1 else from, if to == 0 then grid.rows else to;
      first := Min(first - 1, SatSub(grid.rows, 1));
      last := Min(last, grid.rows);
      if last > first + 1 {
        top, bottom := first, last;
      }
      Home();
    }

    method SetLeftRightMargin(from: nat, to: nat)
      requires Valid()
      modifies this`left, this`right, this`cursor, this`pendingWrap
      ensures Value() == MarginsSet(old(Value()), from, to) && Valid()
    {
      hide Homed, AllWide;
      if !modes.leftRightMargin { return; }
      var first, last := if from == 0 then 1 else from, if to == 0 then grid.cols else to;
      first := Min(first - 1, SatSub(grid.cols, 1));
      last := Min(last, grid.cols);
      if last > first + 1 {
        left, right := first, last;
      }
      Home();
    }

    // ----- Alternate screen -----

    method EnterAltScreen(save: bool)
      requires Valid()
      modifies this, grid, altGrid
      ensures Value() == AltEntered(old(Value()), save) && Valid() && Grids() == old(Grids())
    {
      hide Redrawn, Safe, Tight, AllCleared, AllWide, CursorTaken;
      if modes.altScreen { return; }
      SafeGrids(Value());
      SetModes(modes.(altScreen := true));
      if save {
        SaveCursor();
      }
      SwapScreens();
      ClearAll();
      ResetCursor();
      RecordFullDamage();
    }

    /** The other screen's cursor may be off the screen, as a resize can leave it. */
    method LeaveAltScreen(restore: bool)
      requires Valid()
      modifies this
      ensures Value() == AltLeft(old(Value()), restore) && Grids() == old(Grids())
      ensures restore || !old(modes.altScreen) || old(Docked(Value())) ==> Valid()
    {
      hide Redrawn, Restored, Safe, Tight, AllWide, ScreenModes.Swapped;
      if !modes.altScreen { return; }
      ShowMain();
      if restore {
        RestoreCursor();
      }
      RecordFullDamage();
    }

    method ShowMain()
      modifies this`grid, this`altGrid, this`cursor, this`altCursor, this`modes, this`pendingWrap
      ensures Value() == ScreenModes.Swapped(old(Value())) && grid == old(altGrid) && altGrid == old(grid)
    {
      SetModes(modes.(altScreen := false));
      SwapScreens();
      SetPendingWrap(false);
    }

    method SwapScreens()
      modifies this`grid, this`altGrid, this`cursor, this`altCursor
      ensures grid == old(altGrid) && altGrid == old(grid)
      ensures Value() == old(Value()).(grid := old(altGrid.Value()), alt := old(grid.Value()),
                                       cursor := old(altCursor), altCursor := old(cursor))
    {
      hide AllWide;
      cursor, altCursor := altCursor, cursor;
      grid, altGrid := altGrid, grid;
    }

    /** Every row of the grid blank. */
    method ClearAll()
      requires grid != altGrid && grid.Value().Valid()
      modifies grid
      ensures grid.Value().Valid() && Value() == old(Value()).(grid := AllCleared(old(grid.Value())))
    {
      for r := 0 to grid.rows
        invariant grid.Value().Valid() && Value() == old(Value()).(grid := grid.Value())
        invariant grid.Value() == old(grid.Value()).(lines := grid.lines)
        invariant forall i :: 0 <= i < r ==> grid.lines[i] == BlankRow(grid.cols)
      {
        grid.ClearRow(r);
      }
      assert grid.lines == Fill(grid.rows, BlankRow(grid.cols));
    }

    // ----- Resets -----

    method SetModes(modes: Modes)
      modifies this`modes
      ensures Value() == old(Value()).(modes := modes)
      ensures old(Valid()) ==> Valid()
    {
      hide AllWide;
      this.modes := modes;
    }

    method SetPen(pen: Pen)
      modifies this`pen
      ensures Value() == old(Value()).(pen := pen)
      ensures old(Valid()) ==> Valid()
    {
      hide AllWide;
      this.pen := pen;
    }

    method SetCharsets(g0: Charset, g1: Charset, active: nat)
      modifies this`g0, this`g1, this`activeCharset
      ensures Value() == old(Value()).(g0 := g0, g1 := g1, activeCharset := active)
      ensures old(Valid()) ==> Valid()
    {
      hide AllWide;
      this.g0, this.g1, activeCharset := g0, g1, active;
    }

    method SetPendingWrap(pending: bool)
      modifies this`pendingWrap
      ensures Value() == old(Value()).(pendingWrap := pending)
      ensures old(Valid()) ==> Valid()
    {
      hide AllWide;
      pendingWrap := pending;
    }

    method ForgetSaved()
      requires Valid()
      modifies this`savedCursor
      ensures Value() == old(Value()).(savedCursor := None) && Valid()
    {
      hide AllWide;
      savedCursor := None;
    }

    method ShowCursor()
      requires Valid()
      modifies this`cursor
      ensures Value() == old(Value()).(cursor := old(cursor).(visible := true, shape := Block)) && Valid()
    {
      hide AllWide;
      cursor := cursor.(visible := true, shape := Block);
    }

    method ResetCursor()
      modifies this`cursor, this`pendingWrap
      ensures Value() == old(Value()).(cursor := HOME_CURSOR, pendingWrap := false)
      ensures old(Valid()) ==> Valid()
    {
      hide AllWide;
      cursor := HOME_CURSOR;
      pendingWrap := false;
    }

    method ResetSides()
      requires Valid()
      modifies this`left, this`right
      ensures Value() == old(Value()).(left := 0, right := grid.cols) && Valid()
    {
      hide AllWide;
      left, right := 0, grid.cols;
    }

    method RenewGrids()
      requires Valid()
      modifies this`grid, this`altGrid, this`altCursor
      ensures fresh(Grids())
      ensures Value() == old(Value()).(grid := BlankGrid(old(grid.cols), old(grid.rows)), altCursor := HOME_CURSOR,
                                       alt := BlankGrid(old(grid.cols), old(grid.rows))) && Valid()
    {
      hide AllWide;
      var cols, rows := grid.cols, grid.rows;
      grid := new Grid(cols, rows);
      altGrid := new Grid(cols, rows);
      altCursor := HOME_CURSOR;
    }

    method ResetStops()
      requires Valid()
      modifies this`tabStops, this`lastChar
      ensures Value() == old(Value()).(tabStops := DefaultStops(grid.cols), lastChar := None) && Valid()
    {
      hide DefaultStops, AllWide;
      tabStops, lastChar := DefaultStops(grid.cols), None;
    }

    method ForgetLinks()
      requires Valid()
      modifies this`hyperlink, this`boldIsBright
      ensures Value() == old(Value()).(hyperlink := None, boldIsBright := false) && Valid()
    {
      hide AllWide;
      hyperlink, boldIsBright := None, false;
    }

    method ForgetStacks()
      requires Valid()
      modifies this`sgrStack, this`savedModes
      ensures Value() == old(Value()).(sgrStack := [], savedModes := None) && Valid()
    {
      hide AllWide;
      sgrStack, savedModes := [], None;
    }

    method ForgetDamage()
      requires Valid()
      modifies this`damage, this`damageMode
      ensures Value() == old(Value()).(damage := [], damageMode := CellMode) && Valid()
    {
      hide AllWide;
      damage, damageMode := [], CellMode;
    }

    /** Modes, pen, character sets, saved cursor and margins. */
    method ResetDrawing()
      requires Valid()
      modifies this`modes, this`pen, this`g0, this`g1, this`activeCharset, this`savedCursor, this`top, this`bottom,
               this`left, this`right
      ensures Value() == old(Value()).(modes := DEFAULT_MODES, pen := DEFAULT_PEN, g0 := Ascii, g1 := Ascii,
                                       activeCharset := 0, savedCursor := None, top := 0, bottom := grid.rows,
                                       left := 0, right := grid.cols)
      ensures Valid()
    {
      hide Safe, AllWide;
      SetModes(DEFAULT_MODES);
      SetPen(DEFAULT_PEN);
      SetCharsets(Ascii, Ascii, 0);
      ForgetSaved();
      ResetRegion();
      ResetSides();
    }

    /** Everything else a new screen starts without. */
    method ForgetOutput()
      requires Valid()
      modifies this`tabStops, this`lastChar, this`hyperlink, this`boldIsBright, this`sgrStack, this`savedModes,
               this`damage, this`damageMode
      ensures Value() == old(Value()).(tabStops := DefaultStops(grid.cols), lastChar := None, hyperlink := None,
                                       boldIsBright := false, sgrStack := [], savedModes := None, damage := [],
                                       damageMode := CellMode) && Valid()
    {
      hide Safe, AllWide, DefaultStops;
      ResetStops();
      ForgetLinks();
      ForgetStacks();
      ForgetDamage();
    }

    method SoftReset()
      requires Valid()
      modifies this
      ensures grid == old(grid) && altGrid == old(altGrid)
      ensures Value() == ScreenModes.SoftReset(old(Value())) && Valid()
    {
      hide Safe, AllWide;
      ResetDrawing();
      SetPendingWrap(false);
      ShowCursor();
    }

    /** RIS: everything anew at the same size. */
    method Reset()
      requires Valid()
      modifies this
      ensures Value() == FullReset(old(Value())) && Valid() && fresh(Grids())
    {
      hide Safe, AllWide, DefaultStops;
      RenewGrids();
      ResetCursor();
      ResetDrawing();
      ForgetOutput();
    }

    // ----- Resize -----

    /** The other screen's cursor must have its row at the new size: it is not clamped. */
    method Resize(newCols: nat, newRows: nat)
      requires Valid() && newCols >= 1 && newRows >= 1
      modifies this, grid, altGrid
      ensures grid == old(grid) && altGrid == old(altGrid) && Value() == SizeChanged(old(Value()), newCols, newRows)
      ensures Valid()
    {
      hide Resized, CursorDelta, StopsResized, Safe, Refit, AllWide;
      var oldRows, oldCols := grid.rows, grid.cols;
      ResizeKeepsSafe(Value(), newCols, newRows);
      var delta := ResizeGrids(newCols, newRows);
      var row := if cursor.row + delta < 0 then 0 else cursor.row + delta;
      RefitRegion(oldRows, newRows);
      RefitMargins(oldCols, newCols);
      ClampCursor(row, newRows, newCols);
      ResizeTabStops(newCols);
    }

    method ResizeGrids(newCols: nat, newRows: nat) returns (delta: int)
      requires Valid() && newCols >= 1
      modifies grid, altGrid
      ensures Value() == old(Value()).(grid := Resized(old(grid.Value()), newCols, newRows),
                                       alt := Resized(old(altGrid.Value()), newCols, newRows))
      ensures delta == CursorDelta(old(grid.Value()), newCols, newRows, Some((cursor.row, cursor.col)))
    {
      hide Resized, CursorDelta, AllWide;
      delta := grid.ResizeWithCursor(newCols, newRows, Some((cursor.row, cursor.col)));
      var ignored := altGrid.Resize(newCols, newRows);
    }

    method RefitRegion(oldRows: nat, newRows: nat)
      modifies this`top, this`bottom
      ensures var (t, b) := Refit(old(top), old(bottom), oldRows, newRows);
              Value() == old(Value()).(top := t, bottom := b)
    {
      hide Refit, AllWide;
      var t, b := RefitBounds(top, bottom, oldRows, newRows);
      top, bottom := t, b;
    }

    method RefitMargins(oldCols: nat, newCols: nat)
      modifies this`left, this`right
      ensures var (l, r) := Refit(old(left), old(right), oldCols, newCols);
              Value() == old(Value()).(left := l, right := r)
    {
      hide Refit, AllWide;
      var l, r := RefitBounds(left, right, oldCols, newCols);
      left, right := l, r;
    }

    method ClampCursor(row: nat, newRows: nat, newCols: nat)
      modifies this`cursor, this`savedCursor, this`pendingWrap
      ensures Value() == old(Value()).(
        cursor := old(cursor).(row := Min(row, SatSub(newRows, 1)), col := Min(old(cursor.col), SatSub(newCols, 1))),
        savedCursor := SavedClamped(old(savedCursor), newCols, newRows), pendingWrap := false)
    {
      hide AllWide;
      cursor := cursor.(row := Min(row, SatSub(newRows, 1)), col := Min(cursor.col, SatSub(newCols, 1)));
      if savedCursor.Some? {
        savedCursor := Some(savedCursor.value.(row := Min(savedCursor.value.row, SatSub(newRows, 1)),
                                               col := Min(savedCursor.value.col, SatSub(newCols, 1))));
      }
      pendingWrap := false;
    }

    method RefitBounds(from: nat, to: nat, size: nat, newSize: nat) returns (a: nat, b: nat)
      ensures (a, b) == Refit(from, to, size, newSize)
    {
      if from == 0 && to == size {
        return 0, newSize;
      }
      b := Min(to, newSize);
      a := Min(from, SatSub(b, 1));
      if b == 0 {
        b := newSize;
      }
    }

    method ResizeTabStops(newCols: nat)
      modifies this`tabStops
      ensures Value() == old(Value()).(tabStops := StopsResized(old(tabStops), newCols))
    {
      var oldLen := |tabStops|;
      tabStops := if newCols <= oldLen then tabStops[..newCols] else tabStops + Fill(newCols - oldLen, false);
      for c := Min(oldLen, newCols) to newCols
        invariant |tabStops| == newCols
        invariant forall k :: 0 <= k < c ==> tabStops[k] == StopsResized(old(tabStops), newCols)[k]
        invariant forall k :: c <= k < newCols ==> !tabStops[k]
      {
        if c % DEFAULT_TAB_INTERVAL == 0 && c > 0 {
          tabStops := tabStops[c := true];
        }
      }
      assert tabStops == StopsResized(old(tabStops), newCols);
    }
  }

  // ----- Steps -----

  lemma BackwardForgetsPending(s: ScreenV, count: nat)
    requires Safe(s)
    ensures TabbedBackward(s.(pendingWrap := false), count) == TabbedBackward(s, count)
  {
  }

  lemma NoStopBefore(s: ScreenV, count: nat)
    requires Safe(s) && s.cursor.col == 0 && !s.pendingWrap
    ensures TabbedBackward(s, count) == s
  {
    if count > 0 {
      assert MovedTo(s, s.cursor.row, 0) == s;
      NoStopBefore(s, count - 1);
    }
  }

  /** Unprotected cells `[from, c)` blank. */
  function Partly(cells: seq<Cell>, from: nat, c: nat): (r: seq<Cell>)
    ensures |r| == |cells|
  {
    seq(|cells|, i requires 0 <= i < |cells| => if from <= i < c && !cells[i].attrs.protected then BLANK else cells[i])
  }

  lemma PartlyNone(cells: seq<Cell>, from: nat)
    ensures Partly(cells, from, from) == cells
  {
  }

  lemma PartlyStep(cells: seq<Cell>, from: nat, c: nat)
    requires from <= c < |cells|
    ensures Partly(cells, from, c + 1)
         == if cells[c].attrs.protected then Partly(cells, from, c) else Partly(cells, from, c)[c := BLANK]
    ensures Partly(cells, from, c)[c] == cells[c]
  {
  }

  lemma OneRowCleared(g: GridV, row: nat, left: nat, right: nat)
    requires g.Valid() && g.cols >= 1 && row < g.rows
    ensures RegionCleared(g, row, left, row, right)
      == WithCells(g, row, ClearedSpan(g.lines[row].cells, left, Min(right, g.cols - 1)))
  {
    hide ClearedSpan;
    assert RegionCleared(g, row, left, row, right).lines
      == WithCells(g, row, ClearedSpan(g.lines[row].cells, left, Min(right, g.cols - 1))).lines;
  }

  lemma NoneDamaged(s: ScreenV, from: nat)
    requires Safe(s) && from <= s.grid.rows
    ensures EachDamaged(s, from, from) == s
  {
    assert EachDamaged(s, from, from).damage == s.damage;
  }

  lemma EachStep(s: ScreenV, from: nat, r: nat)
    requires Safe(s) && from <= r < s.grid.rows
    ensures EachDamaged(s, from, r + 1) == Damaged(EachDamaged(s, from, r), r, 0, s.grid.cols)
  {
    assert RegionsFor(s, from, r + 1) == RegionsFor(s, from, r) + [RegionFor(s, r, 0, s.grid.cols)];
    assert s.damage + (RegionsFor(s, from, r) + [RegionFor(s, r, 0, s.grid.cols)])
      == s.damage + RegionsFor(s, from, r) + [RegionFor(s, r, 0, s.grid.cols)];
  }

  /** Recording does not look at the cells. */
  lemma GridApart(s: ScreenV, g: GridV, row: nat, colStart: nat, colEnd: nat)
    requires Safe(s) && g.Valid() && g.SameShape(s.grid)
    ensures Damaged(WithGrid(s, g), row, colStart, colEnd) == WithGrid(Damaged(s, row, colStart, colEnd), g)
  {
  }

  lemma NoneErased(g: GridV, from: nat, selective: bool)
    requires g.Valid() && g.cols >= 1
    ensures RowsErased(g, from, from, selective) == g
  {
    assert RowsErased(g, from, from, selective).lines == g.lines;
  }

  lemma ErasedStep(g: GridV, from: nat, r: nat, selective: bool)
    requires g.Valid() && g.cols >= 1 && from <= r < g.rows
    ensures RowsErased(g, from, r + 1, selective) == RowsErased(RowsErased(g, from, r, selective), r, r + 1, selective)
  {
    hide RowErased;
    assert RowsErased(g, from, r + 1, selective).lines
        == RowsErased(RowsErased(g, from, r, selective), r, r + 1, selective).lines;
  }

  lemma NoCellStamped(cells: seq<Cell>, from: nat, c: Scalar, pen: Pen)
    ensures CellsStamped(cells, from, from, c, pen) == cells
  {
  }

  lemma CellStampStep(cells: seq<Cell>, from: nat, i: nat, c: Scalar, pen: Pen)
    requires from <= i < |cells|
    ensures CellsStamped(cells, from, i, c, pen)[i] == cells[i]
    ensures CellsStamped(cells, from, i + 1, c, pen)
         == CellsStamped(cells, from, i, c, pen)[i := Stamped(cells[i], c, pen)]
  {
  }

  lemma NoneStamped(g: GridV, top: nat, left: nat, right: nat, c: Scalar, pen: Pen)
    requires g.Valid()
    ensures RectStamped(g, top, left, top, right, c, pen) == g
  {
    assert RectStamped(g, top, left, top, right, c, pen).lines == g.lines;
  }

  lemma StampStep(g: GridV, top: nat, left: nat, r: nat, right: nat, c: Scalar, pen: Pen)
    requires g.Valid() && top <= r < g.rows
    ensures var s := RectStamped(g, top, left, r, right, c, pen);
            && s.lines[r] == g.lines[r]
            && RectStamped(g, top, left, r + 1, right, c, pen)
               == WithCells(s, r, CellsStamped(s.lines[r].cells, left, right, c, pen))
  {
    hide CellsStamped;
    var s := RectStamped(g, top, left, r, right, c, pen);
    assert RectStamped(g, top, left, r + 1, right, c, pen).lines
           == WithCells(s, r, CellsStamped(s.lines[r].cells, left, right, c, pen)).lines;
  }

  /** A bottom above the top stamps nothing, one beyond the grid everything below. */
  lemma StampedTo(g: GridV, top: nat, left: nat, bottom: nat, right: nat, c: Scalar, pen: Pen)
    requires g.Valid()
    ensures RectStamped(g, top, left, bottom, right, c, pen)
            == RectStamped(g, top, left, Min(bottom, g.rows), right, c, pen)
    ensures bottom <= top ==>
              RectStamped(g, top, left, bottom, right, c, pen) == RectStamped(g, top, left, top, right, c, pen)
  {
    hide CellsStamped;
    assert RectStamped(g, top, left, bottom, right, c, pen).lines
      == RectStamped(g, top, left, Min(bottom, g.rows), right, c, pen).lines;
    if bottom <= top {
      assert RectStamped(g, top, left, bottom, right, c, pen).lines
             == RectStamped(g, top, left, top, right, c, pen).lines;
    }
  }

  /** The first `h` rows of a rectangle, one after the other. */
  function Gathered(g: GridV, st: nat, sl: nat, h: nat, w: nat): seq<Cell>
    requires g.Valid() && st + h <= g.rows && sl + w <= g.cols
  {
    if h == 0 then [] else Gathered(g, st, sl, h - 1, w) + g.lines[st + h - 1].cells[sl..sl + w]
  }

  lemma {:induction false} GatheredAt(g: GridV, st: nat, sl: nat, h: nat, w: nat, i: nat, j: nat)
    requires g.Valid() && st + h <= g.rows && sl + w <= g.cols && i < h && j < w
    ensures |Gathered(g, st, sl, h, w)| == h * w
    ensures i * w + j < h * w && Gathered(g, st, sl, h, w)[i * w + j] == g.lines[st + i].cells[sl + j]
    decreases h
  {
    assert h * w == (h - 1) * w + w;
    if h > 1 {
      GatheredAt(g, st, sl, h - 1, w, if i < h - 1 then i else 0, j);
    }
  }

  lemma GatherStep(before: seq<Cell>, cells: seq<Cell>, sl: nat, c: nat)
    requires sl + c < |cells|
    ensures before + cells[sl..sl + c] + [cells[sl + c]] == before + cells[sl..sl + c + 1]
    ensures before + cells[sl..sl] == before
  {
  }

  /** `cells` with the first `n` of the pasted cells that fit. */
  function Partial(cells: seq<Cell>, src: seq<Cell>, sl: nat, dl: nat, n: nat): (r: seq<Cell>)
    requires sl + n <= |src|
    ensures |r| == |cells|
  {
    seq(|cells|, c requires 0 <= c < |cells| => if dl <= c < dl + n then src[sl + (c - dl)] else cells[c])
  }

  lemma PartialStep(cells: seq<Cell>, src: seq<Cell>, sl: nat, dl: nat, n: nat)
    requires sl + n < |src|
    ensures Partial(cells, src, sl, dl, n + 1)
      == if dl + n < |cells| then Partial(cells, src, sl, dl, n)[dl + n := src[sl + n]]
         else Partial(cells, src, sl, dl, n)
  {
  }

  lemma NothingPasted(g: GridV, st: nat, sl: nat, w: nat, dt: nat, dl: nat)
    requires g.Valid() && st <= g.rows && sl + w <= g.cols
    ensures Pasted(g, st, sl, 0, w, dt, dl) == g
  {
    assert Pasted(g, st, sl, 0, w, dt, dl).lines == g.lines;
  }

  lemma PasteStep(g: GridV, st: nat, sl: nat, dr: nat, w: nat, dt: nat, dl: nat)
    requires g.Valid() && st + dr < g.rows && sl + w <= g.cols
    ensures var p := Pasted(g, st, sl, dr, w, dt, dl);
            && (dt + dr >= g.rows ==> Pasted(g, st, sl, dr + 1, w, dt, dl) == p)
            && (dt + dr < g.rows ==> p.lines[dt + dr] == g.lines[dt + dr]
                                     && Pasted(g, st, sl, dr + 1, w, dt, dl)
                                        == WithCells(p, dt + dr,
                                                     PastedRow(g, st, sl, dr + 1, w, dt, dl, dt + dr).cells))
  {
    var p, q := Pasted(g, st, sl, dr, w, dt, dl), Pasted(g, st, sl, dr + 1, w, dt, dl);
    forall i | 0 <= i < g.rows && i != dt + dr
      ensures p.lines[i] == q.lines[i]
    {
      assert PastedRow(g, st, sl, dr + 1, w, dt, dl, i) == PastedRow(g, st, sl, dr, w, dt, dl, i) by {
        if dt <= i < dt + dr {
          assert PastedRow(g, st, sl, dr + 1, w, dt, dl, i).cells == PastedRow(g, st, sl, dr, w, dt, dl, i).cells;
        }
      }
    }
    if dt + dr < g.rows {
      assert q.lines == WithCells(p, dt + dr, PastedRow(g, st, sl, dr + 1, w, dt, dl, dt + dr).cells).lines;
    } else {
      assert p.lines == q.lines;
    }
  }
}
