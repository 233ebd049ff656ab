/** In cell mode every cell that changes is reported, with the exceptions the code has. */
module CellDamage {
  import opened Options
  import opened Utf8
  import opened Cells
  import opened GridValues
  import opened ScreenState
  import opened ScreenEdits
  import opened DamageSoundness

  predicate Covers(d: DamageRegion, row: nat, col: nat) {
    d.row == row && d.colStart <= col < d.colEnd
  }

  /** From `s` to `r`: the damage only grows, and each cell that changed is covered by the new part. */
  ghost predicate CellSound(s: ScreenV, r: ScreenV)
    requires s.grid.Valid() && r.grid.Valid() && r.grid.cols == s.grid.cols && r.grid.rows == s.grid.rows
  {
    && s.damage <= r.damage
    && forall i: nat, c: nat ::
         i < s.grid.rows && c < s.grid.cols && r.grid.lines[i].cells[c] != s.grid.lines[i].cells[c] ==>
           exists d :: d in r.damage[|s.damage|..] && Covers(d, i, c)
  }

  /** Whole rows cover their cells, so what is reported by rows is reported by cells. */
  lemma RowsCoverCells(s: ScreenV, r: ScreenV)
    requires s.grid.Valid() && r.grid.Valid() && r.grid.cols == s.grid.cols && r.grid.rows == s.grid.rows
    requires Sound(s, r)
    ensures CellSound(s, r)
  {
    forall i: nat, c: nat | i < s.grid.rows && c < s.grid.cols && r.grid.lines[i].cells[c] != s.grid.lines[i].cells[c]
      ensures exists d :: d in r.damage[|s.damage|..] && Covers(d, i, c)
    {
      Unfolded(s, r, -1, i);
      assert Covers(DamageRegion(i, 0, s.grid.cols), i, c);
    }
  }

  /** A scroll and a line feed are reported in every mode. */
  lemma ScrollsAreReported(s: ScreenV, count: nat)
    requires Safe(s)
    ensures CellSound(s, RegionScrolledUp(s, count)) && CellSound(s, RegionScrolledDown(s, count))
    ensures CellSound(s, LineFed(s))
  {
    hide AllWide, RegionScrolledUp, RegionScrolledDown, LineFed, CellSound, Sound, Tight;
    ScrollUpSound(s, count);
    ScrollDownSound(s, count);
    LineFeedSound(s);
    RowsCoverCells(s, RegionScrolledUp(s, count));
    RowsCoverCells(s, RegionScrolledDown(s, count));
    RowsCoverCells(s, LineFed(s));
  }

  // ----- One row, one region -----

  /** An edit of one row with one region is reported exactly when no cell changes outside it. */
  lemma RowEdit(s: ScreenV, r: ScreenV, row: nat, cells: seq<Cell>, from: nat, to: nat)
    requires s.grid.Valid() && row < s.grid.rows && |cells| == s.grid.cols
    requires r.grid == WithCells(s.grid, row, cells) && r.damage == s.damage + [DamageRegion(row, from, to)]
    ensures CellSound(s, r) <==>
            forall c: nat :: c < s.grid.cols && cells[c] != s.grid.lines[row].cells[c] ==> from <= c < to
  {
    var d := DamageRegion(row, from, to);
    assert r.damage[|s.damage|..] == [d];
    if CellSound(s, r) {
      forall c: nat | c < s.grid.cols && cells[c] != s.grid.lines[row].cells[c]
        ensures from <= c < to
      {
        assert r.grid.lines[row].cells[c] == cells[c];
      }
    }
    if forall c: nat :: c < s.grid.cols && cells[c] != s.grid.lines[row].cells[c] ==> from <= c < to {
      forall i: nat, c: nat |
        i < s.grid.rows && c < s.grid.cols && r.grid.lines[i].cells[c] != s.grid.lines[i].cells[c]
        ensures exists d :: d in r.damage[|s.damage|..] && Covers(d, i, c)
      {
        assert Covers(d, i, c);
      }
    }
  }

  /** The head of a wide character before a cleared span that begins with its tail. */
  predicate HeadLost(cells: seq<Cell>, col: nat) {
    0 < col < |cells| && cells[col].width == 0 && cells[col - 1] != BLANK
  }

  /** The tail of a wide character after a cleared span that ends with its head. */
  predicate TailLost(cells: seq<Cell>, end: nat) {
    0 < end < |cells| && cells[end - 1].width == 2 && cells[end] != BLANK
  }

  lemma InsertCharsReported(s: ScreenV, count: nat)
    requires Safe(s) && s.damageMode == CellMode
    ensures CellSound(s, CharsOpened(s, count))
  {
    hide CellSound, Tight, RightEdge;
    var (row, col, bound) := (s.cursor.row, s.cursor.col, RightEdge(s));
    var cells := CellsInserted(s.grid, row, col, count, bound).lines[row].cells;
    RowEdit(s, CharsOpened(s, count), row, cells, col, bound);
  }

  lemma DeleteCharsReported(s: ScreenV, count: nat)
    requires Safe(s) && s.damageMode == CellMode
    ensures CellSound(s, CharsRemoved(s, count))
  {
    hide CellSound, Tight, RightEdge;
    var (row, col, bound) := (s.cursor.row, s.cursor.col, RightEdge(s));
    var cells := CellsDeleted(s.grid, row, col, count, bound).lines[row].cells;
    RowEdit(s, CharsRemoved(s, count), row, cells, col, bound);
  }

  lemma ErasedReported(cells: seq<Cell>, col: nat, end: nat)
    requires col < |cells| && col <= end <= |cells|
    ensures (forall c: nat :: c < |cells| && ErasedSpan(cells, col, end)[c] != cells[c] ==> col <= c < end) <==>
            !HeadLost(cells, col) && (col < end ==> !TailLost(cells, end))
  {
    var after := ErasedSpan(cells, col, end);
    if HeadLost(cells, col) {
      assert after[col - 1] == BLANK;
    }
    if col < end && TailLost(cells, end) {
      assert after[end] == BLANK;
    }
  }

  /** ECH is reported exactly when it cuts no wide character at either end, or its other half is blank. */
  lemma EraseCharsReported(s: ScreenV, count: nat)
    requires Safe(s) && s.damageMode == CellMode
    ensures var (cells, col, end) :=
              (s.grid.lines[s.cursor.row].cells, s.cursor.col, Min(s.cursor.col + count, s.grid.cols));
            CellSound(s, CharsBlanked(s, count)) <==> !HeadLost(cells, col) && (col < end ==> !TailLost(cells, end))
  {
    hide CellSound, Tight, ErasedSpan;
    var (row, col, end) := (s.cursor.row, s.cursor.col, Min(s.cursor.col + count, s.grid.cols));
    var cells := s.grid.lines[row].cells;
    RowEdit(s, CharsBlanked(s, count), row, if col < s.grid.cols then ErasedSpan(cells, col, end) else cells, col, end);
    if col < s.grid.cols {
      ErasedReported(cells, col, end);
    }
  }

  /** EL to the right is, exactly when it does not begin with a tail whose head is not blank. */
  lemma EraseToRightReported(s: ScreenV)
    requires Safe(s) && s.damageMode == CellMode
    ensures CellSound(s, LineErased(s, ToRight, false)) <==> !HeadLost(s.grid.lines[s.cursor.row].cells, s.cursor.col)
  {
    hide CellSound, Tight;
    var (row, col, cols) := (s.cursor.row, s.cursor.col, s.grid.cols);
    var cells := s.grid.lines[row].cells;
    var after := ClearedSpan(cells, col, cols - 1);
    RowEdit(s, LineErased(s, ToRight, false), row, after, col, cols);
    if HeadLost(cells, col) {
      assert after[col - 1] == BLANK;
    }
  }

  /** EL to the left is, exactly when it does not end with a head whose tail is not blank. */
  lemma EraseToLeftReported(s: ScreenV)
    requires Safe(s) && s.damageMode == CellMode
    ensures CellSound(s, LineErased(s, ToLeft, false)) <==>
            !TailLost(s.grid.lines[s.cursor.row].cells, Min(s.cursor.col, s.grid.cols - 1) + 1)
  {
    hide CellSound, Tight;
    var (row, col, cols) := (s.cursor.row, s.cursor.col, s.grid.cols);
    var cells := s.grid.lines[row].cells;
    var end := Min(col, cols - 1);
    var after := ClearedSpan(cells, 0, end);
    RowEdit(s, LineErased(s, ToLeft, false), row, after, 0, Min(col + 1, cols));
    if TailLost(cells, end + 1) {
      assert after[end + 1] == BLANK;
    }
  }

  // ----- Printing in place -----

  /** No other half of a wide character outside `width` columns is made a space. */
  predicate HalvesStay(cells: seq<Cell>, col: nat, width: nat)
    requires col < |cells|
  {
    && !(cells[col].width == 0 && col > 0 && cells[col - 1].width == 2)
    && !(width == 1 && cells[col].width == 2 && col + 1 < |cells| && Spaced(cells[col + 1]) != cells[col + 1])
    && !(width == 2 && cells[col].width != 2 && col + 2 < |cells| && cells[col + 1].width == 2
         && Spaced(cells[col + 2]) != cells[col + 2])
  }

  lemma HalvesReported(cells: seq<Cell>, col: nat, glyph: Cell)
    requires col < |cells| && 1 <= glyph.width <= 2
    ensures (forall c: nat :: c < |cells| && Written(cells, col, glyph)[c] != cells[c] ==> col <= c < col + glyph.width)
            <==> HalvesStay(cells, col, glyph.width)
  {
    var after := Written(cells, col, glyph);
    if cells[col].width == 0 && col > 0 && cells[col - 1].width == 2 {
      assert after[col - 1] != cells[col - 1];
    }
    if glyph.width == 1 && cells[col].width == 2 && col + 1 < |cells| {
      assert after[col + 1] == Spaced(cells[col + 1]);
    }
    if glyph.width == 2 && cells[col].width != 2 && col + 2 < |cells| && cells[col + 1].width == 2 {
      assert after[col + 2] == Spaced(cells[col + 2]);
    }
  }

  /** Inserting shifts the rest of the row by the width: only a row that repeats itself stays. */
  predicate ShiftStays(cells: seq<Cell>, col: nat, width: nat, bound: nat)
    requires bound <= |cells|
  {
    forall c: nat :: col + width <= c < bound ==> CellBefore(cells, c, width)
  }

  predicate CellBefore(cells: seq<Cell>, c: nat, width: nat)
    requires width <= c < |cells|
  {
    cells[c] == cells[c - width]
  }

  lemma InsertedReported(cells: seq<Cell>, col: nat, glyph: Cell, bound: nat)
    requires 1 <= glyph.width <= 2 && col + glyph.width <= bound <= |cells|
    ensures var after := Written(ShiftRight(cells, col, bound, glyph.width, BLANK), col, glyph);
            (forall c: nat :: c < |cells| && after[c] != cells[c] ==> col <= c < col + glyph.width)
            <==> ShiftStays(cells, col, glyph.width, bound)
  {
    var n := glyph.width;
    var base := ShiftRight(cells, col, bound, n, BLANK);
    var after := Written(base, col, glyph);
    assert Unfragmented(base, col, n) == base;
    forall c: nat | col + n <= c < bound
      ensures after[c] == cells[c] <==> CellBefore(cells, c, n)
    {
      assert after[c] == base[c] == cells[c - n];
    }
  }

  /** The cells of the cursor's row once a character is put there. */
  function Placed(s: ScreenV, c: Scalar, width: nat): (cells: seq<Cell>)
    requires Safe(s) && s.cursor.col < s.grid.cols
    ensures |cells| == s.grid.cols
  {
    var (row, col) := (s.cursor.row, s.cursor.col);
    var base := if s.modes.insert then CellsInserted(s.grid, row, col, width, RightEdge(s)) else s.grid;
    Written(base.lines[row].cells, col, Glyph(s, c, width))
  }

  lemma PlacedGrid(s: ScreenV, c: Scalar, width: nat)
    requires Safe(s) && s.damageMode == CellMode && !s.pendingWrap && !NoRoom(s, width) && s.cursor.col < s.grid.cols
    ensures var r, col := Printed(s, c, width), s.cursor.col;
            && r.grid == WithCells(s.grid, s.cursor.row, Placed(s, c, width))
            && r.damage == s.damage + [DamageRegion(s.cursor.row, col, Min(col + width, s.grid.cols))]
  {
    hide AllWide, Tight, Written, WrappedOn, Padded, ShiftRight;
  }

  /** A character that needs neither a wrap nor room is reported exactly when it spaces no half
      outside its columns; in insert mode, when the shifted part of the row repeats itself. */
  lemma PlacingIsReported(s: ScreenV, c: Scalar)
    requires Safe(s) && s.damageMode == CellMode && !s.pendingWrap && s.cursor.col < s.grid.cols
    requires !NoRoom(s, CharWidth(MappedChar(s, c)))
    ensures var (cells, col, width) := (s.grid.lines[s.cursor.row].cells, s.cursor.col, CharWidth(MappedChar(s, c)));
            CellSound(s, CharWritten(s, c)) <==>
            || width == 0
            || if s.modes.insert && col < RightEdge(s) then ShiftStays(cells, col, width, RightEdge(s))
               else HalvesStay(cells, col, width)
  {
    hide CellSound, Tight, Printed, CharWidth, MappedChar, RightEdge, Written, ShiftRight, HalvesStay, ShiftStays,
      Placed;
    var m := MappedChar(s, c);
    var (s1, width) := (Noted(s, m), CharWidth(m));
    var (row, col) := (s.cursor.row, s.cursor.col);
    NotedRoom(s, m, width);
    if width == 0 {
      UnchangedSound(s, s1);
    } else {
      PlacedGrid(s1, m, width);
      RowEdit(s, Printed(s1, m, width), row, Placed(s1, m, width), col, Min(col + width, s.grid.cols));
      PlacedReported(s1, m, width);
    }
  }

  lemma NotedRoom(s: ScreenV, c: Scalar, width: nat)
    requires Safe(s)
    ensures RightEdge(Noted(s, c)) == RightEdge(s) && (NoRoom(Noted(s, c), width) <==> NoRoom(s, width))
  {
    hide AllWide, Tight;
  }

  lemma PlacedReported(s: ScreenV, c: Scalar, width: nat)
    requires Safe(s) && !NoRoom(s, width) && 1 <= width <= 2 && s.cursor.col < s.grid.cols
    ensures var (cells, col, after) := (s.grid.lines[s.cursor.row].cells, s.cursor.col, Placed(s, c, width));
            (forall k: nat :: k < s.grid.cols && after[k] != cells[k] ==> col <= k < Min(col + width, s.grid.cols)) <==>
            if s.modes.insert && col < RightEdge(s) then ShiftStays(cells, col, width, RightEdge(s))
            else HalvesStay(cells, col, width)
  {
    hide Tight, Written, ShiftRight, HalvesStay, ShiftStays;
    var cells := s.grid.lines[s.cursor.row].cells;
    if s.modes.insert && s.cursor.col < RightEdge(s) {
      InsertedReported(cells, s.cursor.col, Glyph(s, c, width), RightEdge(s));
    } else {
      HalvesReported(cells, s.cursor.col, Glyph(s, c, width));
    }
  }

  lemma UnchangedSound(s: ScreenV, r: ScreenV)
    requires s.grid.Valid() && r.grid == s.grid && r.damage == s.damage
    ensures CellSound(s, r)
  {
  }
}
