/** The state of a terminal screen: two grids, a cursor, margins, modes and the pen. */
module ScreenState {
  import opened Options
  import opened Utf8
  import opened Cells
  import opened GridValues

  const DEFAULT_TAB_INTERVAL: nat := 8

  datatype CursorShape = Block | Underline | Bar

  datatype Cursor = Cursor(row: nat, col: nat, visible: bool, shape: CursorShape)

  const HOME_CURSOR := Cursor(0, 0, true, Block)

  datatype Charset = Ascii | DecSpecialGraphics | Uk

  datatype SavedCursor = SavedCursor(row: nat, col: nat, attrs: CellAttrs, fg: Color, bg: Color,
                                     g0: Charset, g1: Charset, activeCharset: nat, originMode: bool, pendingWrap: bool)

  datatype MouseMode = NoMouse | X10 | Normal | ButtonEvent | AnyEvent

  datatype Modes = Modes(applicationCursorKeys: bool, applicationKeypad: bool, autowrap: bool, origin: bool,
                         insert: bool, newline: bool, altScreen: bool, bracketedPaste: bool, focusTracking: bool,
                         mouseTracking: MouseMode, mouseSgr: bool, keyboardMode: Byte, allowDeccolm: bool,
                         leftRightMargin: bool, reverseWrap: bool)

  const DEFAULT_MODES := Modes(false, false, true, false, false, false, false, false, false, NoMouse,
                               false, 0, false, false, false)

  /** Cells `[colStart, colEnd)` of a row have changed. */
  datatype DamageRegion = DamageRegion(row: nat, colStart: nat, colEnd: nat)

  datatype DamageMode = CellMode | RowMode | ScreenMode | ScrollMode

  datatype EraseDisplay = Below | Above | All | Scrollback

  datatype EraseLine = ToRight | ToLeft | WholeLine

  /** What a cell is written with besides its character. */
  datatype Pen = Pen(attrs: CellAttrs, fg: Color, bg: Color)

  const DEFAULT_PEN := Pen(DEFAULT_ATTRS, DefaultColor, DefaultColor)

  datatype ScreenV = ScreenV(
    grid: GridV, alt: GridV, cursor: Cursor, altCursor: Cursor, savedCursor: Option<SavedCursor>, modes: Modes,
    top: nat, bottom: nat, left: nat, right: nat, pen: Pen, tabStops: seq<bool>,
    g0: Charset, g1: Charset, activeCharset: nat, pendingWrap: bool, lastChar: Option<Scalar>,
    sgrStack: seq<Pen>, savedModes: Option<Modes>, hyperlink: Option<seq<Byte>>, boldIsBright: bool,
    damage: seq<DamageRegion>, damageMode: DamageMode)

  /** What keeps every index of the screen's code in range. */
  ghost predicate Safe(s: ScreenV) {
    && s.grid.Valid() && s.alt.Valid()
    && s.alt.cols == s.grid.cols >= 1 && s.alt.rows == s.grid.rows >= 1
    && s.cursor.row < s.grid.rows
    && s.top < s.bottom <= s.grid.rows && s.left < s.right <= s.grid.cols
    && |s.tabStops| == s.grid.cols
  }

  lemma SafeGrids(s: ScreenV)
    requires Safe(s)
    ensures s.grid.Valid() && s.alt.Valid()
  {
  }

  /** The cursor of the other screen, which only leaving it reads, has a row as well. */
  ghost predicate Docked(s: ScreenV) {
    s.altCursor.row < s.grid.rows
  }

  ghost predicate Settled(s: ScreenV) {
    Safe(s) && Docked(s)
  }

  /** Besides, both cursors are on the screen, and the width cannot be switched. */
  ghost predicate Tight(s: ScreenV) {
    && Settled(s) && s.cursor.col < s.grid.cols && s.altCursor.col < s.grid.cols
    && !s.modes.allowDeccolm && (s.savedModes.Some? ==> !s.savedModes.value.allowDeccolm)
  }

  /** What almost every operation keeps. */
  ghost predicate Keeps(s: ScreenV, r: ScreenV) {
    && Safe(r) && r.grid.cols == s.grid.cols && r.grid.rows == s.grid.rows
    && (Docked(s) ==> Docked(r)) && (Tight(s) ==> Tight(r))
  }

  function DefaultStops(cols: nat): (stops: seq<bool>)
    ensures |stops| == cols
  {
    seq(cols, c => c > 0 && c % DEFAULT_TAB_INTERVAL == 0)
  }

  function NewScreen(cols: nat, rows: nat): ScreenV {
    ScreenV(BlankGrid(cols, rows), BlankGrid(cols, rows), HOME_CURSOR, HOME_CURSOR, None, DEFAULT_MODES,
            0, rows, 0, cols, DEFAULT_PEN, DefaultStops(cols), Ascii, Ascii, 0, false, None, [], None, None,
            false, [], CellMode)
  }

  lemma NewScreenTight(cols: nat, rows: nat)
    requires cols >= 1 && rows >= 1
    ensures Tight(NewScreen(cols, rows))
  {
  }

  // ----- Damage -----

  /** The region recorded for a change of cells, by mode. */
  function RegionFor(s: ScreenV, row: nat, colStart: nat, colEnd: nat): DamageRegion {
    match s.damageMode
    case CellMode => DamageRegion(row, colStart, Min(colEnd, s.grid.cols))
    case RowMode => DamageRegion(row, 0, s.grid.cols)
    case ScreenMode => DamageRegion(0, 0, s.grid.cols)
    case ScrollMode => DamageRegion(row, colStart, Min(colEnd, s.grid.cols))
  }

  function Damaged(s: ScreenV, row: nat, colStart: nat, colEnd: nat): (r: ScreenV)
    requires Safe(s)
    ensures Keeps(s, r)
  {
    if row >= s.grid.rows then s else s.(damage := s.damage + [RegionFor(s, row, colStart, colEnd)])
  }

  /** The regions of the whole rows `[from, to)`. */
  function WholeRows(cols: nat, from: nat, to: nat): seq<DamageRegion>
    requires from <= to
  {
    seq(to - from, i requires 0 <= i < to - from => DamageRegion(from + i, 0, cols))
  }

  function RowsDamaged(s: ScreenV, from: nat, to: nat): (r: ScreenV)
    requires Safe(s) && from <= to
    ensures Keeps(s, r)
  {
    s.(damage := s.damage + WholeRows(s.grid.cols, from, to))
  }

  // ----- Margins -----

  predicate HasMargins(s: ScreenV) {
    s.modes.leftRightMargin && (s.left != 0 || s.right != s.grid.cols)
  }

  /** The right edge for output, exclusive. */
  function RightEdge(s: ScreenV): (e: nat)
    requires Safe(s)
    ensures 1 <= e <= s.grid.cols
  {
    if HasMargins(s) then s.right else s.grid.cols
  }

  predicate InMargins(s: ScreenV) {
    !HasMargins(s) || s.left <= s.cursor.col < s.right
  }

  // ----- Cursor -----

  function MovedTo(s: ScreenV, row: nat, col: nat): (r: ScreenV)
    requires Safe(s) && row < s.grid.rows && (Tight(s) ==> col < s.grid.cols)
    ensures Keeps(s, r)
  {
    s.(cursor := s.cursor.(row := row, col := col), pendingWrap := false)
  }

  function CarriageReturned(s: ScreenV): (r: ScreenV)
    requires Safe(s)
    ensures Keeps(s, r) && r.cursor.col < s.grid.cols
  {
    MovedTo(s, s.cursor.row, if HasMargins(s) && s.cursor.col >= s.left then s.left else 0)
  }

  function Backspaced(s: ScreenV): (r: ScreenV)
    requires Safe(s)
    ensures Keeps(s, r)
  {
    if s.cursor.col > 0 then MovedTo(s, s.cursor.row, s.cursor.col - 1)
    else if s.modes.reverseWrap && s.modes.autowrap && s.cursor.row > 0 then
      MovedTo(s, s.cursor.row - 1, s.grid.cols - 1)
    else s
  }

  function MovedUp(s: ScreenV, count: nat): (r: ScreenV)
    requires Safe(s)
    ensures Keeps(s, r)
  {
    var limit := if s.top <= s.cursor.row < s.bottom then s.top else 0;
    MovedTo(s, Max(SatSub(s.cursor.row, count), limit), s.cursor.col)
  }

  function MovedDown(s: ScreenV, count: nat): (r: ScreenV)
    requires Safe(s)
    ensures Keeps(s, r)
  {
    var limit := if s.top <= s.cursor.row < s.bottom then s.bottom - 1 else s.grid.rows - 1;
    MovedTo(s, Min(s.cursor.row + count, limit), s.cursor.col)
  }

  function MovedLeft(s: ScreenV, count: nat): (r: ScreenV)
    requires Safe(s)
    ensures Keeps(s, r)
  {
    MovedTo(s, s.cursor.row, SatSub(s.cursor.col, count))
  }

  function MovedRight(s: ScreenV, count: nat): (r: ScreenV)
    requires Safe(s)
    ensures Keeps(s, r)
  {
    MovedTo(s, s.cursor.row, Min(s.cursor.col + count, s.grid.cols - 1))
  }

  /** A 1-based position, clamped; in origin mode relative to the margins. */
  function Positioned(s: ScreenV, row: nat, col: nat): (r: ScreenV)
    requires Safe(s)
    ensures Keeps(s, r)
  {
    var (y, x) := (SatSub(row, 1), SatSub(col, 1));
    if s.modes.origin then MovedTo(s, Min(s.top + y, s.bottom - 1), Min(s.left + x, s.right - 1))
    else MovedTo(s, Min(y, s.grid.rows - 1), Min(x, s.grid.cols - 1))
  }

  function Homed(s: ScreenV): (r: ScreenV)
    requires Safe(s)
    ensures Keeps(s, r)
  {
    if s.modes.origin then MovedTo(s, s.top, s.left) else MovedTo(s, 0, 0)
  }

  // ----- Tab stops -----

  /** The first stop at or after `from`, or the last column. */
  function NextStop(stops: seq<bool>, from: nat): (c: nat)
    requires stops != []
    ensures c < |stops|
    ensures from <= c ==> stops[c] || c == |stops| - 1
    ensures c < from ==> c == |stops| - 1
    ensures forall k :: from <= k < c ==> !stops[k]
    decreases SatSub(|stops|, from)
  {
    if from >= |stops| then |stops| - 1 else if stops[from] then from else NextStop(stops, from + 1)
  }

  /** The last stop before `to`, or column 0. */
  function PreviousStop(stops: seq<bool>, to: nat): (c: nat)
    ensures c <= to && (to > 0 ==> c < to)
    ensures c > 0 ==> c < |stops| && stops[c]
    ensures forall k :: c < k < to && k < |stops| ==> !stops[k]
  {
    if to == 0 then 0 else if to - 1 < |stops| && stops[to - 1] then to - 1 else PreviousStop(stops, to - 1)
  }

  function TabbedForward(s: ScreenV, count: nat): (r: ScreenV)
    requires Safe(s)
    ensures Keeps(s, r)
    decreases count
  {
    if count == 0 then s else TabbedForward(MovedTo(s, s.cursor.row, NextStop(s.tabStops, s.cursor.col + 1)), count - 1)
  }

  function TabbedBackward(s: ScreenV, count: nat): (r: ScreenV)
    requires Safe(s)
    ensures Keeps(s, r)
    decreases count
  {
    if count == 0 then s.(pendingWrap := false)
    else TabbedBackward(MovedTo(s, s.cursor.row, PreviousStop(s.tabStops, s.cursor.col)), count - 1)
  }

  function StopSet(s: ScreenV, stop: bool): (r: ScreenV)
    requires Safe(s)
    ensures Keeps(s, r)
  {
    if s.cursor.col < |s.tabStops| then s.(tabStops := s.tabStops[s.cursor.col := stop]) else s
  }

  function StopsCleared(s: ScreenV): (r: ScreenV)
    requires Safe(s)
    ensures Keeps(s, r)
  {
    s.(tabStops := Fill(|s.tabStops|, false))
  }
}
