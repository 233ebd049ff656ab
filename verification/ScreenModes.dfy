/** Saved cursors, margins, the alternate screen, resets and resizing. */
module ScreenModes {
  import opened Options
  import opened Utf8
  import opened Cells
  import opened GridValues
  import opened GridResize
  import opened ScreenState
  import opened ScreenEdits

  // ----- Saved cursor -----

  function CursorTaken(s: ScreenV): SavedCursor {
    SavedCursor(s.cursor.row, s.cursor.col, s.pen.attrs, s.pen.fg, s.pen.bg, s.g0, s.g1, s.activeCharset,
                s.modes.origin, s.pendingWrap)
  }

  function CursorSaved(s: ScreenV): (r: ScreenV)
    requires Safe(s)
    ensures Keeps(s, r)
  {
    s.(savedCursor := Some(CursorTaken(s)))
  }

  /** The saved state, its position clamped; home with a default pen if none was saved. */
  function Restored(s: ScreenV): (r: ScreenV)
    ensures Safe(s) ==> Keeps(s, r)
  {
    match s.savedCursor
    case None => s.(cursor := s.cursor.(row := 0, col := 0), pen := DEFAULT_PEN, pendingWrap := false)
    case Some(v) =>
      s.(cursor := s.cursor.(row := Min(v.row, SatSub(s.grid.rows, 1)), col := Min(v.col, SatSub(s.grid.cols, 1))),
         pen := Pen(v.attrs, v.fg, v.bg), g0 := v.g0, g1 := v.g1, activeCharset := v.activeCharset,
         modes := s.modes.(origin := v.originMode), pendingWrap := v.pendingWrap)
  }

  function CursorRestored(s: ScreenV): (r: ScreenV)
    requires Safe(s)
    ensures Keeps(s, r)
  {
    Restored(s)
  }

  // ----- Margins -----

  /** 1-based bounds, 0 for the default, made 0-based; too small a region is refused. */
  function Bounds(from: nat, to: nat, size: nat): (r: Option<(nat, nat)>)
    requires size >= 1
    ensures r.Some? ==> r.value.0 + 2 <= r.value.1 <= size
  {
    var (a, b) := (Origin0(from, size), if to == 0 then size else Min(to, size));
    if b > a + 1 then Some((a, b)) else None
  }

  function RegionSet(s: ScreenV, top: nat, bottom: nat): (r: ScreenV)
    requires Safe(s)
    ensures Keeps(s, r)
  {
    var b := Bounds(top, bottom, s.grid.rows);
    Homed(if b.Some? then s.(top := b.value.0, bottom := b.value.1) else s)
  }

  function MarginsSet(s: ScreenV, left: nat, right: nat): (r: ScreenV)
    requires Safe(s)
    ensures Keeps(s, r)
  {
    var b := Bounds(left, right, s.grid.cols);
    if !s.modes.leftRightMargin then s
    else Homed(if b.Some? then s.(left := b.value.0, right := b.value.1) else s)
  }

  // ----- Alternate screen -----

  function AllCleared(g: GridV): (r: GridV)
    requires g.Valid()
    ensures r.Valid() && r.SameShape(g)
  {
    g.(lines := Fill(g.rows, BlankRow(g.cols)))
  }

  /** Every row damaged. */
  function Redrawn(s: ScreenV): (r: ScreenV)
    ensures Safe(s) ==> Keeps(s, r)
  {
    s.(damage := s.damage + WholeRows(s.grid.cols, 0, s.grid.rows))
  }

  function AltEntered(s: ScreenV, save: bool): (r: ScreenV)
    requires Safe(s)
    ensures Keeps(s, r)
  {
    if s.modes.altScreen then s
    else
      var s1 := s.(modes := s.modes.(altScreen := true));
      var s2 := if save then CursorSaved(s1) else s1;
      Redrawn(s2.(grid := AllCleared(s.alt), alt := s.grid, cursor := HOME_CURSOR, altCursor := s.cursor,
                  pendingWrap := false))
  }

  /** The other screen in place of this one. */
  function Swapped(s: ScreenV): (r: ScreenV)
    ensures Settled(s) ==> Keeps(s, r)
  {
    s.(grid := s.alt, alt := s.grid, cursor := s.altCursor, altCursor := s.cursor, pendingWrap := false,
       modes := s.modes.(altScreen := false))
  }

  /** Leaving does not look at the other screen's cursor: it may be off the screen, and then
      the screen is safe only if the saved one takes its place. */
  function AltLeft(s: ScreenV, restore: bool): (r: ScreenV)
    requires Safe(s)
    ensures restore || !s.modes.altScreen || Docked(s) ==> Keeps(s, r)
  {
    if !s.modes.altScreen then s
    else if restore then Redrawn(Restored(Swapped(s)))
    else Redrawn(Swapped(s))
  }

  // ----- Resets -----

  function SoftReset(s: ScreenV): (r: ScreenV)
    requires Safe(s)
    ensures Keeps(s, r)
  {
    s.(modes := DEFAULT_MODES, pen := DEFAULT_PEN, g0 := Ascii, g1 := Ascii, activeCharset := 0, savedCursor := None,
       pendingWrap := false, cursor := s.cursor.(visible := true, shape := Block),
       top := 0, bottom := s.grid.rows, left := 0, right := s.grid.cols)
  }

  function FullReset(s: ScreenV): (r: ScreenV)
    requires Safe(s)
    ensures Keeps(s, r)
  {
    NewScreen(s.grid.cols, s.grid.rows)
  }

  // ----- Resize -----

  /** A region follows the size if it was the whole, and is cut to it otherwise. */
  function Refit(from: nat, to: nat, size: nat, newSize: nat): (nat, nat) {
    if from == 0 && to == size then (0, newSize)
    else
      var b := Min(to, newSize);
      (Min(from, SatSub(b, 1)), if b == 0 then newSize else b)
  }

  function StopsResized(stops: seq<bool>, cols: nat): (r: seq<bool>)
    ensures |r| == cols
  {
    seq(cols, c requires 0 <= c < cols => if c < |stops| then stops[c] else c % DEFAULT_TAB_INTERVAL == 0 && c > 0)
  }

  function SavedClamped(v: Option<SavedCursor>, cols: nat, rows: nat): Option<SavedCursor> {
    if v.None? then None
    else Some(v.value.(row := Min(v.value.row, SatSub(rows, 1)), col := Min(v.value.col, SatSub(cols, 1))))
  }

  /** The cursor goes with its line by the grid's delta, then both coordinates are clamped.
      The cursor of the other screen is left alone. */
  function SizeChanged(s: ScreenV, newCols: nat, newRows: nat): ScreenV
    requires Safe(s) && newCols >= 1
  {
    var delta := CursorDelta(s.grid, newCols, newRows, Some((s.cursor.row, s.cursor.col)));
    var row: nat := if s.cursor.row + delta < 0 then 0 else s.cursor.row + delta;
    var (top, bottom) := Refit(s.top, s.bottom, s.grid.rows, newRows);
    var (left, right) := Refit(s.left, s.right, s.grid.cols, newCols);
    s.(grid := Resized(s.grid, newCols, newRows), alt := Resized(s.alt, newCols, newRows),
       cursor := s.cursor.(row := Min(row, SatSub(newRows, 1)), col := Min(s.cursor.col, newCols - 1)),
       top := top, bottom := bottom, left := left, right := right,
       savedCursor := SavedClamped(s.savedCursor, newCols, newRows),
       tabStops := StopsResized(s.tabStops, newCols), pendingWrap := false)
  }

  /** A resize keeps the screen safe; the other screen's cursor stays where it was. */
  lemma ResizeKeepsSafe(s: ScreenV, newCols: nat, newRows: nat)
    requires Safe(s) && newCols >= 1 && newRows >= 1
    ensures Safe(SizeChanged(s, newCols, newRows))
    ensures Docked(SizeChanged(s, newCols, newRows)) <==> s.altCursor.row < newRows
    ensures var r := SizeChanged(s, newCols, newRows);
            && r.grid.cols == newCols && r.grid.rows == newRows
            && r.cursor.row < newRows && r.cursor.col < newCols
  {
    hide Resized, CursorDelta;
    ResizedShape(s.grid, newCols, newRows);
    ResizedShape(s.alt, newCols, newRows);
  }

  /** And keeps both cursors on the screen exactly when the other one's column is there too. */
  lemma ResizeKeepsTight(s: ScreenV, newCols: nat, newRows: nat)
    requires Tight(s) && newCols >= 1 && newRows >= 1
    ensures Tight(SizeChanged(s, newCols, newRows)) <==> s.altCursor.row < newRows && s.altCursor.col < newCols
  {
    hide Resized, CursorDelta, Safe;
    ResizeKeepsSafe(s, newCols, newRows);
  }

  /** A resize while the alternate screen shows, then back. With the cursor restored the main
      screen is safe whatever the size. Without, its cursor is where it was, so it is safe
      exactly when the row is still there: a resize does not clamp it. */
  lemma LeavingAfterResize(s: ScreenV, newCols: nat, newRows: nat, restore: bool)
    requires Safe(s) && s.modes.altScreen && newCols >= 1 && newRows >= 1
    ensures Safe(SizeChanged(s, newCols, newRows))
    ensures var r := AltLeft(SizeChanged(s, newCols, newRows), restore);
            && r.grid.cols == newCols && r.grid.rows == newRows
            && (Safe(r) <==> restore || s.altCursor.row < newRows)
            && (r.cursor.row < newRows <==> restore || s.altCursor.row < newRows)
            && (r.cursor.col < newCols <==> restore || s.altCursor.col < newCols)
            && (!restore ==> r.cursor == s.altCursor)
  {
    hide Resized, CursorDelta, AllWide;
    ResizeKeepsSafe(s, newCols, newRows);
  }

  // ----- Width switching -----

  /** DECCOLM: 132 or 80 columns, if allowed; the screen is erased and the region reset. */
  function WidthSwitched(s: ScreenV, wide: bool): (r: ScreenV)
    requires Safe(s)
    ensures Safe(r) && r.grid.rows == s.grid.rows && (Docked(s) ==> Docked(r)) && (Tight(s) ==> r == s)
  {
    if !s.modes.allowDeccolm then s
    else
      var cols := if wide then 132 else 80;
      ResizeKeepsSafe(s, cols, s.grid.rows);
      MovedHome(DisplayErased(SizeChanged(s, cols, s.grid.rows), All, false))
  }

  function MovedHome(s: ScreenV): (r: ScreenV)
    requires Safe(s)
    ensures Keeps(s, r)
  {
    MovedTo(s, 0, 0).(top := 0, bottom := s.grid.rows)
  }
}
