/** Wide characters stay whole: every head keeps its tail under erasing and printing. */
module WideCells {
  import opened Options
  import opened Utf8
  import opened Cells
  import opened GridValues
  import opened ScreenState
  import opened ScreenEdits

  ghost predicate AllPaired(g: GridV) {
    forall i :: 0 <= i < |g.lines| ==> Paired(g.lines[i].cells)
  }

  // ----- One row -----

  /** What each cell becomes when a glyph is written at `col`. */
  lemma WrittenAt(cells: seq<Cell>, col: nat, glyph: Cell, i: nat)
    requires Paired(cells) && col < |cells| && i < |cells| && 1 <= glyph.width <= 2
    ensures Written(cells, col, glyph)[i] ==
            if i == col then glyph
            else if i == col + 1 && glyph.width == 2 then glyph.(c := SPACE, width := 0)
            else if i == col + 1 && cells[col].width == 2 then Spaced(cells[i])
            else if i == col + 2 && glyph.width == 2 && cells[col + 1].width == 2 then Spaced(cells[i])
            else if i + 1 == col && cells[col].width == 0 then Spaced(cells[i])
            else cells[i]
  {
  }

  /** The condition of pairing at one place. */
  predicate PairedAt(cells: seq<Cell>, i: nat)
    requires i < |cells|
  {
    && (cells[i].width == 2 ==> i + 1 < |cells| && cells[i + 1].width == 0)
    && (cells[i].width == 0 ==> i > 0 && cells[i - 1].width == 2)
  }

  lemma PairAt(cells: seq<Cell>, i: nat)
    requires Paired(cells) && i < |cells|
    ensures PairedAt(cells, i)
  {
  }

  lemma PairsEverywhere(cells: seq<Cell>)
    requires forall i: nat :: i < |cells| ==> PairedAt(cells, i)
    ensures Paired(cells)
  {
    forall i | 0 <= i < |cells| && cells[i].width == 2
      ensures i + 1 < |cells| && cells[i + 1].width == 0
    {
      assert PairedAt(cells, i);
    }
    forall i | 0 <= i < |cells| && cells[i].width == 0
      ensures i > 0 && cells[i - 1].width == 2
    {
      assert PairedAt(cells, i);
    }
  }

  lemma WritingKeepsPairs(cells: seq<Cell>, col: nat, glyph: Cell)
    requires Paired(cells) && col < |cells| && 1 <= glyph.width <= 2 && (glyph.width == 2 ==> col + 1 < |cells|)
    ensures Paired(Written(cells, col, glyph))
  {
    hide Written;
    var r := Written(cells, col, glyph);
    forall i: nat | i < |r|
      ensures PairedAt(r, i)
    {
      WrittenAt(cells, col, glyph, i);
      PairAt(cells, i);
      PairAt(cells, col);
      if col + 1 < |cells| {
        PairAt(cells, col + 1);
      }
      if i + 1 < |r| {
        WrittenAt(cells, col, glyph, i + 1);
      }
      if i > 0 {
        WrittenAt(cells, col, glyph, i - 1);
      }
    }
    PairsEverywhere(r);
  }

  // ----- Grid operations -----

  lemma RowPaired(g: GridV, row: nat, cells: seq<Cell>)
    requires g.Valid() && row < g.rows && |cells| == g.cols && AllPaired(g) && Paired(cells)
    ensures AllPaired(WithCells(g, row, cells))
  {
    hide Paired;
  }

  lemma ClearingRegionKeepsPairs(g: GridV, top: nat, left: nat, bottom: nat, right: nat)
    requires g.Valid() && g.rows >= 1 && g.cols >= 1 && AllPaired(g) && left <= right && left < g.cols
    ensures AllPaired(RegionCleared(g, top, left, bottom, right))
  {
    hide ClearedSpan, Paired;
    forall i | 0 <= i < g.rows
      ensures Paired(RegionCleared(g, top, left, bottom, right).lines[i].cells)
    {
      ClearingKeepsPairs(g.lines[i].cells, left, Min(right, g.cols - 1));
    }
  }

  lemma ErasingCharsKeepsPairs(g: GridV, row: nat, col: nat, count: nat)
    requires g.Valid() && AllPaired(g) && count >= 1
    ensures AllPaired(CharsErased(g, row, col, count))
  {
    hide ErasedSpan, Paired;
    if row < g.rows && col < g.cols {
      ErasingKeepsPairs(g.lines[row].cells, col, Min(col + count, g.cols));
      RowPaired(g, row, ErasedSpan(g.lines[row].cells, col, Min(col + count, g.cols)));
    }
  }

  lemma ScrollingKeepsPairs(g: GridV, top: nat, bottom: nat, count: nat)
    requires g.Valid() && bottom <= g.rows && AllPaired(g)
    ensures AllPaired(ScrolledUp(g, top, bottom, count))
  {
    hide Paired, ShiftLeft, Recent;
    BlanksArePaired(g.cols);
    if top < bottom {
      forall i: nat | i < g.rows
        ensures Paired(ScrolledUp(g, top, bottom, count).lines[i].cells)
      {
        ShiftLeftAt(g.lines, top, bottom, Min(count, bottom - top), BlankRow(g.cols), i);
      }
    }
  }

  // ----- Printing -----

  lemma LineFeedKeepsPairs(s: ScreenV)
    requires Safe(s) && AllPaired(s.grid) && !HasMargins(s)
    ensures AllPaired(LineFed(s).grid)
  {
    hide AllPaired, ScrolledUp, WholeRows;
    ScrollingKeepsPairs(s.grid, s.top, s.bottom, 1);
  }

  lemma FlagKeepsPairs(s: ScreenV, continuation: bool)
    requires Safe(s) && AllPaired(s.grid)
    ensures AllPaired(Flagged(s, continuation).grid)
  {
    hide Paired;
  }

  lemma WrappingKeepsPairs(s: ScreenV)
    requires Safe(s) && AllPaired(s.grid) && !HasMargins(s)
    ensures AllPaired(WrappedOn(s).grid)
  {
    hide AllPaired, LineFed, Flagged;
    LineFeedKeepsPairs(CarriageReturned(s));
    FlagKeepsPairs(LineFed(CarriageReturned(s)), true);
  }

  /** Going on to the next line from the last column, without margins. */
  lemma WrappedCursor(s: ScreenV)
    requires Safe(s) && !HasMargins(s)
    ensures var r := WrappedOn(s);
            && r.cursor.col == 0 && r.modes == s.modes && !HasMargins(r) && !r.pendingWrap
            && r.cursor.row == if s.cursor.row + 1 != s.bottom && s.cursor.row + 1 < s.grid.rows then s.cursor.row + 1
                               else s.cursor.row
  {
    hide ScrolledUp, WholeRows, AllWide;
  }

  /** Without margins or a wrap to pad, a character is written where it fits. */
  lemma PreparedFits(s: ScreenV, width: nat)
    requires Tight(s) && !HasMargins(s) && !s.modes.insert && s.grid.cols >= 2 && 1 <= width <= 2
    ensures var t := Prepared(s, width);
            Safe(t) && t.cursor.col < t.grid.cols && (width == 2 ==> t.cursor.col + 1 < t.grid.cols)
  {
    hide WrappedOn, AllWide, Padded, Flagged;
    FlaggedCursor(s, false);
    WrappedCursor(Flagged(s, false));
    var t := AfterPending(s);
    PaddedMargins(t);
    WrappedCursor(Padded(t));
  }

  lemma FlaggedCursor(s: ScreenV, continuation: bool)
    requires Safe(s)
    ensures var r := Flagged(s, continuation);
            r.cursor == s.cursor && r.modes == s.modes && HasMargins(r) == HasMargins(s) && r.bottom == s.bottom
  {
    hide AllWide;
  }

  /** The cells a printed character leaves. */
  lemma PrintedGrid(s: ScreenV, c: Scalar, width: nat)
    requires Safe(s)
    ensures var t := Prepared(s, width);
            t.cursor.col < t.grid.cols ==>
              Printed(s, c, width).grid
              == WithCells(t.grid, t.cursor.row,
                           Written(t.grid.lines[t.cursor.row].cells, t.cursor.col, Glyph(t, c, width)))
  {
    hide Prepared, Written, AllWide;
  }

  /** Printing this wide character first pads the last column, over the tail of another. */
  predicate PadsTail(s: ScreenV, width: nat)
    requires Safe(s)
  {
    && width == 2 && s.modes.autowrap && !s.pendingWrap && s.cursor.col == s.grid.cols - 1
    && s.grid.lines[s.cursor.row].cells[s.cursor.col].width == 0
  }

  lemma PaddingKeepsPairs(s: ScreenV)
    requires Safe(s) && AllPaired(s.grid) && s.cursor.col == s.grid.cols - 1
    requires s.grid.lines[s.cursor.row].cells[s.cursor.col].width != 0
    ensures AllPaired(Padded(s).grid)
  {
    var cells := s.grid.lines[s.cursor.row].cells;
    PairAt(cells, s.cursor.col);
    var padded := cells[s.cursor.col := Spaced(cells[s.cursor.col])];
    forall i: nat | i < |padded|
      ensures PairedAt(padded, i)
    {
      PairAt(cells, i);
    }
    PairsEverywhere(padded);
    RowPaired(s.grid, s.cursor.row, padded);
  }

  lemma PreparingKeepsPairs(s: ScreenV, width: nat)
    requires Tight(s) && !HasMargins(s) && !s.modes.insert && s.grid.cols >= 2 && 1 <= width <= 2
    requires AllPaired(s.grid) && !PadsTail(s, width)
    ensures AllPaired(Prepared(s, width).grid)
  {
    hide WrappedOn, AllWide, Padded, Flagged, AllPaired;
    FlagKeepsPairs(s, false);
    FlaggedCursor(s, false);
    WrappedCursor(Flagged(s, false));
    WrappingKeepsPairs(Flagged(s, false));
    var t := AfterPending(s);
    if NoRoom(t, width) && t.modes.autowrap {
      PaddingKeepsPairs(t);
      PaddedMargins(t);
      WrappedCursor(Padded(t));
      WrappingKeepsPairs(Padded(t));
    }
  }

  lemma PaddedMargins(s: ScreenV)
    requires Safe(s)
    ensures HasMargins(Padded(s)) == HasMargins(s) && Padded(s).modes == s.modes
  {
  }

  /** Printing keeps wide characters whole, unless it pads over a tail. */
  lemma PrintingKeepsPairs(s: ScreenV, c: Scalar)
    requires Tight(s) && !HasMargins(s) && !s.modes.insert && s.grid.cols >= 2 && AllPaired(s.grid)
    requires !PadsTail(s, CharWidth(MappedChar(s, c)))
    ensures AllPaired(CharWritten(s, c).grid)
  {
    hide Prepared, Printed, Written, AllPaired, AllWide, CharWidth, MappedChar, Paired;
    var m := MappedChar(s, c);
    var width, s1 := CharWidth(m), Noted(s, m);
    if width > 0 {
      PreparedFits(s1, width);
      PreparingKeepsPairs(s1, width);
      PrintedGrid(s1, m, width);
      var t := Prepared(s1, width);
      OneRowOf(t.grid, t.cursor.row);
      WritingKeepsPairs(t.grid.lines[t.cursor.row].cells, t.cursor.col, Glyph(t, m, width));
      RowPaired(t.grid, t.cursor.row, Written(t.grid.lines[t.cursor.row].cells, t.cursor.col, Glyph(t, m, width)));
    }
  }

  lemma OneRowOf(g: GridV, row: nat)
    requires g.Valid() && row < g.rows && AllPaired(g)
    ensures |g.lines[row].cells| == g.cols && Paired(g.lines[row].cells)
  {
  }

  // ----- Padding over a tail -----

  /** The padded row stays on the screen, out of reach of the character written next. */
  predicate PaddedRowStays(s: ScreenV) {
    if s.cursor.row + 1 == s.bottom then s.bottom >= s.top + 2
    else s.cursor.row + 1 < s.grid.rows || s.grid.cols >= 4
  }

  /** The cells of row `i` after going on to the next line. */
  lemma WrappedCells(s: ScreenV, i: nat)
    requires Safe(s) && !HasMargins(s) && i < s.grid.rows
    ensures WrappedOn(s).grid.lines[i].cells
      == if s.cursor.row + 1 == s.bottom && s.top <= i < s.bottom
         then if i + 1 == s.bottom then Fill(s.grid.cols, BLANK) else s.grid.lines[i + 1].cells
         else s.grid.lines[i].cells
  {
    hide WholeRows, AllWide, ShiftLeft, Recent;
    if s.cursor.row + 1 == s.bottom {
      ShiftLeftAt(s.grid.lines, s.top, s.bottom, 1, BlankRow(s.grid.cols), i);
    }
  }

  /** The rows after a wide character was padded in the last column and written at the left. */
  lemma PaddedAndWritten(s: ScreenV, c: Scalar, i: nat)
    requires Tight(s) && !HasMargins(s) && !s.modes.insert && s.grid.cols >= 2 && PadsTail(s, 2) && i < s.grid.rows
    ensures var p, q := Padded(s), WrappedOn(Padded(s));
            && Safe(q) && q.cursor.row < s.grid.rows && Printed(s, c, 2).grid.Valid()
            && Printed(s, c, 2).grid.rows == s.grid.rows
            && Printed(s, c, 2).grid.lines[i].cells
               == if i == q.cursor.row then Written(q.grid.lines[i].cells, 0, Glyph(q, c, 2)) else q.grid.lines[i].cells
  {
    hide WrappedOn, AllWide, Padded, Written, Printed;
    PaddedMargins(s);
    WrappedCursor(Padded(s));
    assert Prepared(s, 2) == WrappedOn(Padded(s));
    PrintedGrid(s, c, 2);
  }

  /** A head in the last column but one whose tail is gone. */
  predicate Tailless(cells: seq<Cell>) {
    |cells| >= 2 && cells[|cells| - 2].width == 2 && cells[|cells| - 1].width == 1
  }

  lemma PaddedIsTailless(s: ScreenV)
    requires Tight(s) && s.grid.cols >= 2 && AllPaired(s.grid) && PadsTail(s, 2)
    ensures Tailless(Padded(s).grid.lines[s.cursor.row].cells)
    ensures forall i :: 0 <= i < s.grid.rows && i != s.cursor.row ==> Padded(s).grid.lines[i] == s.grid.lines[i]
    ensures Padded(s).cursor == s.cursor && Padded(s).top == s.top && Padded(s).bottom == s.bottom
  {
    PairAt(s.grid.lines[s.cursor.row].cells, s.cursor.col);
  }

  lemma TaillessUnpaired(g: GridV, i: nat)
    requires i < |g.lines| && Tailless(g.lines[i].cells)
    ensures !AllPaired(g)
  {
    var cells := g.lines[i].cells;
    assert cells[|cells| - 2].width == 2 && cells[|cells| - 1].width != 0;
  }

  /** Writing at the left of a wide enough row does not mend its right end. */
  lemma StillTailless(cells: seq<Cell>, padded: seq<Cell>, glyph: Cell)
    requires |cells| >= 4 && Paired(cells) && cells[|cells| - 1].width == 0 && glyph.width == 2
    requires padded == cells[|cells| - 1 := Spaced(cells[|cells| - 1])]
    ensures Tailless(Written(padded, 0, glyph))
  {
    PairAt(cells, |cells| - 1);
    PairAt(cells, 1);
    PairAt(cells, 0);
  }

  /** Writing at the left of a narrow row overwrites the head that lost its tail. */
  lemma Mended(cells: seq<Cell>, padded: seq<Cell>, glyph: Cell)
    requires 2 <= |cells| < 4 && Paired(cells) && cells[|cells| - 1].width == 0 && glyph.width == 2
    requires padded == cells[|cells| - 1 := Spaced(cells[|cells| - 1])]
    ensures Paired(Written(padded, 0, glyph))
  {
    PairAt(cells, |cells| - 1);
    PairAt(cells, 0);
  }

  /** Padding over a tail: wide characters stay whole all the same exactly when the row
      leaves the screen at once, or is so narrow that the head is overwritten too. */
  lemma PaddingOverATail(s: ScreenV, c: Scalar)
    requires Tight(s) && !HasMargins(s) && !s.modes.insert && s.grid.cols >= 2 && AllPaired(s.grid)
    requires PadsTail(s, CharWidth(MappedChar(s, c)))
    ensures AllPaired(CharWritten(s, c).grid) <==> !PaddedRowStays(s)
  {
    hide WrappedOn, AllWide, Padded, Written, Printed, AllPaired, Tailless, CharWidth, MappedChar, Paired;
    var m := MappedChar(s, c);
    var s1 := Noted(s, m);
    var p, q, r := Padded(s1), WrappedOn(Padded(s1)), Printed(s1, m, 2).grid;
    PaddedMargins(s1);
    WrappedCursor(p);
    PaddedIsTailless(s1);
    if PaddedRowStays(s) {
      var i := if s.cursor.row + 1 == s.bottom then s.cursor.row - 1 else s.cursor.row;
      WrappedCells(p, i);
      PaddedAndWritten(s1, m, i);
      if i == q.cursor.row {
        PaddedCells(s1);
        OneRowOf(s.grid, i);
        StillTailless(s.grid.lines[i].cells, p.grid.lines[i].cells, Glyph(q, m, 2));
      }
      TaillessUnpaired(r, i);
    } else {
      forall i: nat | i < s.grid.rows
        ensures Paired(r.lines[i].cells)
      {
        WrappedCells(p, i);
        PaddedAndWritten(s1, m, i);
        OneRowOf(s.grid, i);
        PaddedCells(s1);
        if i == s.cursor.row {
          if s.cursor.row + 1 == s.bottom {
            BlanksArePaired(s.grid.cols);
            WritingKeepsPairs(Fill(s.grid.cols, BLANK), 0, Glyph(q, m, 2));
          } else {
            Mended(s.grid.lines[i].cells, p.grid.lines[i].cells, Glyph(q, m, 2));
          }
        }
      }
      RowsPaired(r);
    }
  }

  lemma PaddedCells(s: ScreenV)
    requires Tight(s) && s.cursor.col == s.grid.cols - 1
    ensures var cells := s.grid.lines[s.cursor.row].cells;
            |cells| == s.grid.cols
            && Padded(s).grid.lines[s.cursor.row].cells == cells[s.cursor.col := Spaced(cells[s.cursor.col])]
  {
  }

  lemma RowsPaired(g: GridV)
    requires forall i: nat :: i < |g.lines| ==> Paired(g.lines[i].cells)
    ensures AllPaired(g)
  {
    hide Paired;
  }

  /** Printing keeps wide characters whole exactly when it does not pad over a tail in a row
      that stays. */
  lemma WideCharactersStayWhole(s: ScreenV, c: Scalar)
    requires Tight(s) && !HasMargins(s) && !s.modes.insert && s.grid.cols >= 2 && AllPaired(s.grid)
    ensures AllPaired(CharWritten(s, c).grid) <==> !(PadsTail(s, CharWidth(MappedChar(s, c))) && PaddedRowStays(s))
  {
    hide CharWritten, AllPaired, AllWide, CharWidth, MappedChar;
    if PadsTail(s, CharWidth(MappedChar(s, c))) {
      PaddingOverATail(s, c);
    } else {
      PrintingKeepsPairs(s, c);
    }
  }
}
