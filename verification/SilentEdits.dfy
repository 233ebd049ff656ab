/** Edits that record no damage: what they change is reported exactly when they change nothing. */
module SilentEdits {
  import opened Options
  import opened Utf8
  import opened Cells
  import opened GridValues
  import opened GridLaws
  import opened ScreenState
  import opened ScreenEdits
  import opened ScreenModes
  import opened DamageSoundness

  /** Neither lines opened or removed, RI, DECALN nor a rectangle operation records damage. */
  lemma NothingRecorded(s: ScreenV, count: nat, c: Scalar, top: nat, left: nat, bottom: nat, right: nat, row: nat,
                        col: nat)
    requires Safe(s)
    ensures LinesOpened(s, count).damage == LinesRemoved(s, count).damage == ReverseIndexed(s).damage == s.damage
    ensures Aligned(s).damage == RectFilled(s, c, top, left, bottom, right).damage == s.damage
    ensures RectErased(s, top, left, bottom, right).damage == RectCopied(s, top, left, bottom, right, row, col).damage
         == s.damage
  {
    hide AllWide, Safe, Tight, ShiftLeft, ShiftRight, RectStamped, Pasted, SelectivelyErased;
  }

  /** Rows `[top, bottom)`, columns `[left, right)` are blank. */
  ghost predicate BlankSpan(g: GridV, top: nat, bottom: nat, left: nat, right: nat)
    requires g.Valid() && bottom <= g.rows && right <= g.cols
  {
    forall i: nat, c: nat :: top <= i < bottom && left <= c < right ==> g.lines[i].cells[c] == BLANK
  }

  ghost predicate SameCells(g: GridV, h: GridV)
    requires g.Valid() && h.Valid() && h.cols == g.cols && h.rows == g.rows
  {
    forall i: nat, c: nat :: i < g.rows && c < g.cols ==> h.lines[i].cells[c] == g.lines[i].cells[c]
  }

  /** Without a record, an edit is reported exactly when no cell changed. */
  lemma SilentSound(s: ScreenV, r: ScreenV)
    requires Safe(s) && Safe(r) && r.grid.cols == s.grid.cols && r.grid.rows == s.grid.rows && r.damage == s.damage
    ensures Sound(s, r) <==> SameCells(s.grid, r.grid)
  {
    assert r.damage[|s.damage|..] == [];
    if Sound(s, r) {
      forall i: nat, c: nat | i < s.grid.rows && c < s.grid.cols
        ensures r.grid.lines[i].cells[c] == s.grid.lines[i].cells[c]
      {
        if r.grid.lines[i].cells != s.grid.lines[i].cells {
          Unfolded(s, r, -1, i);
        }
      }
    }
    if SameCells(s.grid, r.grid) {
      forall i: nat | i < s.grid.rows
        ensures r.grid.lines[i].cells == s.grid.lines[i].cells
      {
        assert forall c: nat :: c < s.grid.cols ==> r.grid.lines[i].cells[c] == s.grid.lines[i].cells[c];
      }
      SameCellsSound(s, r);
    }
  }

  // ----- Shifts of rows -----

  /** The cell at (`i`, `c`) once columns `[left, right)` of rows `[top, bottom)` have moved down by `n`. */
  function CellDown(g: GridV, top: nat, bottom: nat, left: nat, right: nat, n: nat, i: nat, c: nat): Cell
    requires g.Valid() && bottom <= g.rows && right <= g.cols && i < g.rows && c < g.cols
  {
    if !(top <= i < bottom && left <= c < right) then g.lines[i].cells[c]
    else if i >= top + n then g.lines[i - n].cells[c] else BLANK
  }

  function CellUp(g: GridV, top: nat, bottom: nat, left: nat, right: nat, n: nat, i: nat, c: nat): Cell
    requires g.Valid() && bottom <= g.rows && right <= g.cols && i < g.rows && c < g.cols
  {
    if !(top <= i < bottom && left <= c < right) then g.lines[i].cells[c]
    else if i + n < bottom then g.lines[i + n].cells[c] else BLANK
  }

  ghost predicate MovedDownBy(g: GridV, h: GridV, top: nat, bottom: nat, left: nat, right: nat, n: nat)
    requires g.Valid() && h.Valid() && h.SameShape(g) && bottom <= g.rows && right <= g.cols
  {
    forall i: nat, c: nat :: i < g.rows && c < g.cols ==>
      h.lines[i].cells[c] == CellDown(g, top, bottom, left, right, n, i, c)
  }

  ghost predicate MovedUpBy(g: GridV, h: GridV, top: nat, bottom: nat, left: nat, right: nat, n: nat)
    requires g.Valid() && h.Valid() && h.SameShape(g) && bottom <= g.rows && right <= g.cols
  {
    forall i: nat, c: nat :: i < g.rows && c < g.cols ==>
      h.lines[i].cells[c] == CellUp(g, top, bottom, left, right, n, i, c)
  }

  /** Blanks come in at the top: if nothing changes, every cell below is blank too. */
  lemma {:induction false} BlankFromTop(g: GridV, h: GridV, top: nat, bottom: nat, left: nat, right: nat, n: nat,
                                        i: nat, c: nat)
    requires g.Valid() && h.Valid() && h.SameShape(g) && top + n <= bottom <= g.rows && right <= g.cols && n > 0
    requires MovedDownBy(g, h, top, bottom, left, right, n) && SameCells(g, h) && top <= i < bottom && left <= c < right
    ensures g.lines[i].cells[c] == BLANK
    decreases i
  {
    assert h.lines[i].cells[c] == g.lines[i].cells[c];
    if i >= top + n {
      BlankFromTop(g, h, top, bottom, left, right, n, i - n, c);
    }
  }

  lemma {:induction false} BlankFromBottom(g: GridV, h: GridV, top: nat, bottom: nat, left: nat, right: nat, n: nat,
                                           i: nat, c: nat)
    requires g.Valid() && h.Valid() && h.SameShape(g) && top + n <= bottom <= g.rows && right <= g.cols && n > 0
    requires MovedUpBy(g, h, top, bottom, left, right, n) && SameCells(g, h) && top <= i < bottom && left <= c < right
    ensures g.lines[i].cells[c] == BLANK
    decreases bottom - i
  {
    assert h.lines[i].cells[c] == g.lines[i].cells[c];
    if i + n < bottom {
      BlankFromBottom(g, h, top, bottom, left, right, n, i + n, c);
    }
  }

  lemma MovingDownFixes(g: GridV, h: GridV, top: nat, bottom: nat, left: nat, right: nat, n: nat)
    requires g.Valid() && h.Valid() && h.SameShape(g) && top + n <= bottom <= g.rows && right <= g.cols
    requires MovedDownBy(g, h, top, bottom, left, right, n)
    ensures SameCells(g, h) <==> n == 0 || BlankSpan(g, top, bottom, left, right)
  {
    if SameCells(g, h) && n > 0 {
      forall i: nat, c: nat | top <= i < bottom && left <= c < right
        ensures g.lines[i].cells[c] == BLANK
      {
        BlankFromTop(g, h, top, bottom, left, right, n, i, c);
      }
    }
  }

  lemma MovingUpFixes(g: GridV, h: GridV, top: nat, bottom: nat, left: nat, right: nat, n: nat)
    requires g.Valid() && h.Valid() && h.SameShape(g) && top + n <= bottom <= g.rows && right <= g.cols
    requires MovedUpBy(g, h, top, bottom, left, right, n)
    ensures SameCells(g, h) <==> n == 0 || BlankSpan(g, top, bottom, left, right)
  {
    if SameCells(g, h) && n > 0 {
      forall i: nat, c: nat | top <= i < bottom && left <= c < right
        ensures g.lines[i].cells[c] == BLANK
      {
        BlankFromBottom(g, h, top, bottom, left, right, n, i, c);
      }
    }
  }

  lemma RowsMoveDown(g: GridV, top: nat, bottom: nat, n: nat)
    requires g.Valid() && top + n <= bottom <= g.rows
    ensures var h := g.(lines := ShiftRight(g.lines, top, bottom, n, BlankRow(g.cols)));
            h.Valid() && MovedDownBy(g, h, top, bottom, 0, g.cols, n)
  {
  }

  lemma RowsMoveUp(g: GridV, top: nat, bottom: nat, n: nat)
    requires g.Valid() && top + n <= bottom <= g.rows
    ensures var h := g.(lines := ShiftLeft(g.lines, top, bottom, n, BlankRow(g.cols)));
            h.Valid() && MovedUpBy(g, h, top, bottom, 0, g.cols, n)
  {
  }

  /** IL is reported exactly when it opens no line or moves only blank ones. */
  lemma InsertLinesReported(s: ScreenV, count: nat)
    requires Safe(s)
    ensures Sound(s, LinesOpened(s, count)) <==>
            || count == 0 || !(s.top <= s.cursor.row < s.bottom)
            || BlankSpan(s.grid, s.cursor.row, s.bottom, 0, s.grid.cols)
  {
    hide AllWide, ShiftRight, Sound;
    var r := LinesOpened(s, count);
    SilentSound(s, r);
    if s.top <= s.cursor.row < s.bottom {
      var n := Min(count, s.bottom - s.cursor.row);
      RowsMoveDown(s.grid, s.cursor.row, s.bottom, n);
      MovingDownFixes(s.grid, r.grid, s.cursor.row, s.bottom, 0, s.grid.cols, n);
    }
  }

  lemma DeleteLinesReported(s: ScreenV, count: nat)
    requires Safe(s)
    ensures Sound(s, LinesRemoved(s, count)) <==>
            || count == 0 || !(s.top <= s.cursor.row < s.bottom)
            || BlankSpan(s.grid, s.cursor.row, s.bottom, 0, s.grid.cols)
  {
    hide AllWide, ShiftLeft, Sound;
    var r := LinesRemoved(s, count);
    SilentSound(s, r);
    if s.top <= s.cursor.row < s.bottom {
      var n := Min(count, s.bottom - s.cursor.row);
      RowsMoveUp(s.grid, s.cursor.row, s.bottom, n);
      MovingUpFixes(s.grid, r.grid, s.cursor.row, s.bottom, 0, s.grid.cols, n);
    }
  }

  lemma RegionMovesDown(g: GridV, top: nat, bottom: nat, left: nat, right: nat)
    requires g.Valid() && top < bottom <= g.rows && left < right <= g.cols
    ensures MovedDownBy(g, RegionDown(g, top, bottom, left, right, 1), top, bottom, left, right, 1)
  {
    hide RegionDown;
    var h := RegionDown(g, top, bottom, left, right, 1);
    forall i: nat, c: nat | i < g.rows && c < g.cols
      ensures h.lines[i].cells[c] == CellDown(g, top, bottom, left, right, 1, i, c)
    {
      RegionDownAt(g, top, bottom, left, right, 1, i, c);
    }
  }

  /** RI is reported exactly when it only moves the cursor, or scrolls only blank cells. */
  lemma ReverseIndexReported(s: ScreenV)
    requires Safe(s)
    ensures var within := HasMargins(s) && InMargins(s);
            Sound(s, ReverseIndexed(s)) <==>
            || s.cursor.row != s.top
            || BlankSpan(s.grid, s.top, s.bottom, if within then s.left else 0, if within then s.right else s.grid.cols)
  {
    hide AllWide, ShiftRight, RegionDown, Sound;
    var r := ReverseIndexed(s);
    SilentSound(s, r);
    if s.cursor.row == s.top {
      if HasMargins(s) && InMargins(s) {
        RegionMovesDown(s.grid, s.top, s.bottom, s.left, s.right);
        MovingDownFixes(s.grid, r.grid, s.top, s.bottom, s.left, s.right, 1);
      } else {
        RowsMoveDown(s.grid, s.top, s.bottom, 1);
        MovingDownFixes(s.grid, r.grid, s.top, s.bottom, 0, s.grid.cols, 1);
      }
    }
  }

  // ----- Rectangles -----

  /** The cell already shows the character in that pen. */
  predicate Shows(cell: Cell, c: Scalar, pen: Pen) {
    cell.c == c && cell.width == 1 && cell.fg == pen.fg && cell.bg == pen.bg && cell.attrs == pen.attrs
  }

  lemma StampFixes(g: GridV, top: nat, left: nat, bottom: nat, right: nat, ch: Scalar, pen: Pen)
    requires g.Valid() && bottom <= g.rows && right <= g.cols
    ensures SameCells(g, RectStamped(g, top, left, bottom, right, ch, pen)) <==>
            forall i: nat, c: nat :: top <= i < bottom && left <= c < right ==> Shows(g.lines[i].cells[c], ch, pen)
  {
    var h := RectStamped(g, top, left, bottom, right, ch, pen);
    forall i: nat, c: nat | i < g.rows && c < g.cols
      ensures h.lines[i].cells[c] == g.lines[i].cells[c] <==>
              (top <= i < bottom && left <= c < right ==> Shows(g.lines[i].cells[c], ch, pen))
    {
    }
  }

  /** DECALN is reported exactly when the test pattern is there already. */
  lemma AlignReported(s: ScreenV)
    requires Safe(s)
    ensures Sound(s, Aligned(s)) <==>
            forall i: nat, c: nat :: 0 <= i < s.grid.rows && 0 <= c < s.grid.cols ==>
              Shows(s.grid.lines[i].cells[c], 0x45, DEFAULT_PEN)
  {
    hide Sound, RectStamped, SameCells;
    SilentSound(s, Aligned(s));
    StampFixes(s.grid, 0, 0, s.grid.rows, s.grid.cols, 0x45, DEFAULT_PEN);
  }

  /** Rows below the screen are not stamped. */
  lemma StampedInside(g: GridV, top: nat, left: nat, bottom: nat, right: nat, ch: Scalar, pen: Pen)
    requires g.Valid()
    ensures RectStamped(g, top, left, bottom, right, ch, pen)
            == RectStamped(g, top, left, Min(bottom, g.rows), right, ch, pen)
  {
    hide CellsStamped;
    var (a, b) := (RectStamped(g, top, left, bottom, right, ch, pen),
                   RectStamped(g, top, left, Min(bottom, g.rows), right, ch, pen));
    assert a.lines == b.lines;
  }

  /** DECFRA is reported exactly when every cell of the rectangle shows its character already. */
  lemma FillReported(s: ScreenV, ch: Scalar, top: nat, left: nat, bottom: nat, right: nat)
    requires Safe(s)
    ensures Sound(s, RectFilled(s, ch, top, left, bottom, right)) <==>
            forall i: nat, c: nat ::
              && Origin0(top, s.grid.rows) <= i < Min(bottom, s.grid.rows)
              && Origin0(left, s.grid.cols) <= c < Min(right, s.grid.cols) ==>
              Shows(s.grid.lines[i].cells[c], ch, s.pen)
  {
    hide Sound, RectStamped, SameCells;
    SilentSound(s, RectFilled(s, ch, top, left, bottom, right));
    var (t, l) := (Origin0(top, s.grid.rows), Origin0(left, s.grid.cols));
    StampedInside(s.grid, t, l, bottom, Min(right, s.grid.cols), ch, s.pen);
    StampFixes(s.grid, t, l, Min(bottom, s.grid.rows), Min(right, s.grid.cols), ch, s.pen);
  }

  /** DECSERA is reported exactly when every cell of the rectangle is protected or blank. */
  lemma SelectiveEraseReported(s: ScreenV, top: nat, left: nat, bottom: nat, right: nat)
    requires Safe(s)
    ensures Sound(s, RectErased(s, top, left, bottom, right)) <==>
            forall i: nat, c: nat ::
              && Origin0(top, s.grid.rows) <= i < Min(bottom, s.grid.rows)
              && Origin0(left, s.grid.cols) <= c < Min(right, s.grid.cols) ==>
              s.grid.lines[i].cells[c].attrs.protected || s.grid.lines[i].cells[c] == BLANK
  {
    hide Sound;
    var (g, h) := (s.grid, RectErased(s, top, left, bottom, right).grid);
    SilentSound(s, RectErased(s, top, left, bottom, right));
    forall i: nat, c: nat | i < g.rows && c < g.cols
      ensures h.lines[i].cells[c] == g.lines[i].cells[c] <==>
              (Origin0(top, g.rows) <= i < bottom && Origin0(left, g.cols) <= c < Min(right, g.cols) ==>
                 g.lines[i].cells[c].attrs.protected || g.lines[i].cells[c] == BLANK)
    {
    }
  }

  /** What is copied from (`st`, `sl`) is at (`dt`, `dl`) already, `i` rows and `c` columns in. */
  predicate CopiedAt(g: GridV, st: nat, sl: nat, dt: nat, dl: nat, i: nat, c: nat)
    requires g.Valid() && st + i < g.rows && sl + c < g.cols && dt + i < g.rows && dl + c < g.cols
  {
    g.lines[dt + i].cells[dl + c] == g.lines[st + i].cells[sl + c]
  }

  /** A rectangle of `h` by `w`, as far as it fits at its target, is there already. */
  ghost predicate CopiedAlready(g: GridV, st: nat, sl: nat, h: nat, w: nat, dt: nat, dl: nat)
    requires g.Valid() && st + h <= g.rows && sl + w <= g.cols
  {
    forall i: nat, c: nat :: i < h && c < w && dt + i < g.rows && dl + c < g.cols ==> CopiedAt(g, st, sl, dt, dl, i, c)
  }

  lemma PastedCell(g: GridV, st: nat, sl: nat, h: nat, w: nat, dt: nat, dl: nat, i: nat, c: nat)
    requires g.Valid() && st + h <= g.rows && sl + w <= g.cols && i < g.rows && c < g.cols
    ensures Pasted(g, st, sl, h, w, dt, dl).lines[i].cells[c] ==
            if dt <= i < dt + h && dl <= c < dl + w then g.lines[st + (i - dt)].cells[sl + (c - dl)]
              else g.lines[i].cells[c]
  {
  }

  lemma PasteFixes(g: GridV, st: nat, sl: nat, h: nat, w: nat, dt: nat, dl: nat)
    requires g.Valid() && st + h <= g.rows && sl + w <= g.cols
    ensures SameCells(g, Pasted(g, st, sl, h, w, dt, dl)) <==> CopiedAlready(g, st, sl, h, w, dt, dl)
  {
    hide Pasted;
    var r := Pasted(g, st, sl, h, w, dt, dl);
    if SameCells(g, r) {
      forall i: nat, c: nat | i < h && c < w && dt + i < g.rows && dl + c < g.cols
        ensures CopiedAt(g, st, sl, dt, dl, i, c)
      {
        PastedCell(g, st, sl, h, w, dt, dl, dt + i, dl + c);
        assert r.lines[dt + i].cells[dl + c] == g.lines[dt + i].cells[dl + c];
      }
    } else {
      var i: nat, c: nat :| i < g.rows && c < g.cols && r.lines[i].cells[c] != g.lines[i].cells[c];
      PastedCell(g, st, sl, h, w, dt, dl, i, c);
      assert !CopiedAt(g, st, sl, dt, dl, i - dt, c - dl);
    }
  }

  /** DECCRA is reported exactly when what is copied is at its target already. */
  lemma CopyReported(s: ScreenV, top: nat, left: nat, bottom: nat, right: nat, toTop: nat, toLeft: nat)
    requires Safe(s)
    ensures var (st, sl) := (Origin0(top, s.grid.rows), Origin0(left, s.grid.cols));
            Sound(s, RectCopied(s, top, left, bottom, right, toTop, toLeft)) <==>
            CopiedAlready(s.grid, st, sl, SatSub(Min(bottom, s.grid.rows), st), SatSub(Min(right, s.grid.cols), sl),
                          Origin0(toTop, s.grid.rows), Origin0(toLeft, s.grid.cols))
  {
    hide Sound, AllWide, Pasted, CopiedAt;
    var (g, r) := (s.grid, RectCopied(s, top, left, bottom, right, toTop, toLeft));
    var (st, sl) := (Origin0(top, g.rows), Origin0(left, g.cols));
    var (h, w) := (SatSub(Min(bottom, g.rows), st), SatSub(Min(right, g.cols), sl));
    SilentSound(s, r);
    if h > 0 && w > 0 {
      PasteFixes(g, st, sl, h, w, Origin0(toTop, g.rows), Origin0(toLeft, g.cols));
    }
  }

  lemma ResetForgets(s: ScreenV)
    requires Safe(s) && s.damage != []
    ensures !Sound(s, FullReset(s))
  {
    assert |s.damage| > |FullReset(s).damage|;
  }

  /** RIS drops what was recorded: it is reported exactly on a blank screen with nothing pending. */
  lemma ResetReported(s: ScreenV)
    requires Safe(s)
    ensures Sound(s, FullReset(s)) <==> s.damage == [] && BlankSpan(s.grid, 0, s.grid.rows, 0, s.grid.cols)
  {
    hide Sound;
    if s.damage == [] {
      SilentSound(s, FullReset(s));
    } else {
      ResetForgets(s);
    }
  }
}
