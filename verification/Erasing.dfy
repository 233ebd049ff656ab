/** What the erasing operations blank, cell by cell, and what they leave alone. */
module Erasing {
  import opened Options
  import opened Cells
  import opened GridValues
  import opened ScreenState
  import opened ScreenEdits

  /** A cell inside the span: a selective erase spares it if it is protected. */
  function Erased(cell: Cell, selective: bool): Cell {
    if selective && cell.attrs.protected then cell else BLANK
  }

  /** The other half of a wide character cut at either end of columns `[left, right)`. */
  predicate HalfCut(cells: seq<Cell>, left: nat, right: nat, c: nat) {
    || (c + 1 == left < right && left < |cells| && cells[left].width == 0)
    || (c == right && 0 < right <= |cells| && cells[right - 1].width == 2)
  }

  /** Columns `[left, right)` of a row erased, and nothing else but a cut half. */
  ghost predicate SpanBlanked(before: Row, after: Row, left: nat, right: nat, selective: bool) {
    && |after.cells| == |before.cells| && after.continuation == before.continuation
    && forall c: nat :: c < |before.cells| ==>
         after.cells[c] == if left <= c < right then Erased(before.cells[c], selective)
                           else if !selective && HalfCut(before.cells, left, right, c) then BLANK
                           else before.cells[c]
  }

  /** A whole row erased; an ordinary erase also ends its continuation. */
  ghost predicate RowBlanked(before: Row, after: Row, selective: bool) {
    && |after.cells| == |before.cells| && after.continuation == (selective && before.continuation)
    && forall c: nat :: c < |before.cells| ==> after.cells[c] == Erased(before.cells[c], selective)
  }

  /** Only rows of the grid, and the damage, can differ. */
  ghost predicate OnlyRows(s: ScreenV, r: ScreenV) {
    && r == s.(grid := r.grid, damage := r.damage)
    && r.grid == s.grid.(lines := r.grid.lines) && |r.grid.lines| == |s.grid.lines|
  }

  lemma SpanErasedBlanks(row: Row, left: nat, right: nat, selective: bool)
    requires right < |row.cells| && (left <= right || right + 1 == |row.cells|)
    ensures SpanBlanked(row, row.(cells := SpanErased(row.cells, left, right, selective)), left, right + 1, selective)
  {
  }

  lemma RowErasedBlanks(row: Row, selective: bool)
    requires row.cells != []
    ensures RowBlanked(row, RowErased(row, selective), selective)
  {
  }

  /** ED below: from the cursor to the end of its row, and every row below it. */
  ghost predicate BelowErased(s: ScreenV, r: ScreenV, selective: bool)
    requires Safe(s)
  {
    var row := s.cursor.row;
    && OnlyRows(s, r)
    && (forall i: nat :: i < row ==> r.grid.lines[i] == s.grid.lines[i])
    && SpanBlanked(s.grid.lines[row], r.grid.lines[row], s.cursor.col, s.grid.cols, selective)
    && (forall i: nat :: row < i < s.grid.rows ==>
          RowBlanked(s.grid.lines[i], r.grid.lines[i], selective))
  }

  lemma EraseBelow(s: ScreenV, selective: bool)
    requires Safe(s)
    ensures BelowErased(s, DisplayErased(s, Below, selective), selective)
  {
    hide SpanErased, RowErased, SpanBlanked, RowBlanked, RegionFor, RegionsFor, Tight;
    var (row, g) := (s.cursor.row, s.grid);
    SpanErasedBlanks(g.lines[row], s.cursor.col, g.cols - 1, selective);
    forall i: nat | row < i < g.rows
      ensures RowBlanked(g.lines[i], DisplayErased(s, Below, selective).grid.lines[i], selective)
    {
      RowErasedBlanks(g.lines[i], selective);
    }
  }

  /** ED above: every row above the cursor, and its own up to the cursor. */
  ghost predicate AboveErased(s: ScreenV, r: ScreenV, selective: bool)
    requires Safe(s)
  {
    var row := s.cursor.row;
    && OnlyRows(s, r)
    && (forall i: nat :: i < row ==> RowBlanked(s.grid.lines[i], r.grid.lines[i], selective))
    && SpanBlanked(s.grid.lines[row], r.grid.lines[row], 0, Min(s.cursor.col, s.grid.cols - 1) + 1, selective)
    && (forall i: nat :: row < i < s.grid.rows ==> r.grid.lines[i] == s.grid.lines[i])
  }

  lemma EraseAbove(s: ScreenV, selective: bool)
    requires Safe(s)
    ensures AboveErased(s, DisplayErased(s, Above, selective), selective)
  {
    hide SpanErased, RowErased, SpanBlanked, RowBlanked, RegionFor, RegionsFor, Tight;
    var (row, g) := (s.cursor.row, s.grid);
    SpanErasedBlanks(g.lines[row], 0, Min(s.cursor.col, g.cols - 1), selective);
    forall i: nat | i < row
      ensures RowBlanked(g.lines[i], DisplayErased(s, Above, selective).grid.lines[i], selective)
    {
      RowErasedBlanks(g.lines[i], selective);
    }
  }

  /** ED of the whole screen, wherever the cursor is; the scrollback stays. */
  ghost predicate AllErased(s: ScreenV, r: ScreenV, selective: bool)
    requires Safe(s)
  {
    && OnlyRows(s, r)
    && (forall i: nat :: i < s.grid.rows ==> RowBlanked(s.grid.lines[i], r.grid.lines[i], selective))
  }

  lemma EraseAll(s: ScreenV, selective: bool)
    requires Safe(s)
    ensures AllErased(s, DisplayErased(s, All, selective), selective)
  {
    hide RowErased, RowBlanked, RegionFor, RegionsFor, Tight;
    forall i: nat | i < s.grid.rows
      ensures RowBlanked(s.grid.lines[i], DisplayErased(s, All, selective).grid.lines[i], selective)
    {
      RowErasedBlanks(s.grid.lines[i], selective);
    }
  }

  /** ED of the scrollback: it alone, protected or not. */
  lemma EraseScrollback(s: ScreenV, selective: bool)
    requires Safe(s)
    ensures DisplayErased(s, Scrollback, selective) == s.(grid := s.grid.(scrollback := []))
  {
    hide AllWide, Tight;
  }

  /** Only the cursor's row, and the damage, can differ. */
  ghost predicate OnlyCursorRow(s: ScreenV, r: ScreenV) {
    OnlyRows(s, r) && forall i: nat :: i < |s.grid.lines| && i != s.cursor.row ==> r.grid.lines[i] == s.grid.lines[i]
  }

  /** EL to the right: from the cursor on. */
  ghost predicate RightErased(s: ScreenV, r: ScreenV, selective: bool)
    requires Safe(s)
  {
    && OnlyCursorRow(s, r)
    && SpanBlanked(s.grid.lines[s.cursor.row], r.grid.lines[s.cursor.row], s.cursor.col, s.grid.cols, selective)
  }

  lemma EraseToRight(s: ScreenV, selective: bool)
    requires Safe(s)
    ensures RightErased(s, LineErased(s, ToRight, selective), selective)
  {
    hide SpanErased, SpanBlanked, RegionFor, Tight;
    SpanErasedBlanks(s.grid.lines[s.cursor.row], s.cursor.col, s.grid.cols - 1, selective);
  }

  /** EL to the left: up to the cursor, which is in it. */
  ghost predicate LeftErased(s: ScreenV, r: ScreenV, selective: bool)
    requires Safe(s)
  {
    && OnlyCursorRow(s, r)
    && SpanBlanked(s.grid.lines[s.cursor.row], r.grid.lines[s.cursor.row], 0,
                   Min(s.cursor.col, s.grid.cols - 1) + 1, selective)
  }

  lemma EraseToLeft(s: ScreenV, selective: bool)
    requires Safe(s)
    ensures LeftErased(s, LineErased(s, ToLeft, selective), selective)
  {
    hide SpanErased, SpanBlanked, RegionFor, Tight;
    SpanErasedBlanks(s.grid.lines[s.cursor.row], 0, Min(s.cursor.col, s.grid.cols - 1), selective);
  }

  /** EL of the whole line. */
  ghost predicate LineBlanked(s: ScreenV, r: ScreenV, selective: bool)
    requires Safe(s)
  {
    && OnlyCursorRow(s, r)
    && RowBlanked(s.grid.lines[s.cursor.row], r.grid.lines[s.cursor.row], selective)
  }

  lemma EraseWholeLine(s: ScreenV, selective: bool)
    requires Safe(s)
    ensures LineBlanked(s, LineErased(s, WholeLine, selective), selective)
  {
    hide RowErased, RowBlanked, RegionFor, Tight;
    RowErasedBlanks(s.grid.lines[s.cursor.row], selective);
  }
}
