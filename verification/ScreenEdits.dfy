/** What output, scrolling, erasing and the rectangle operations make of a screen. */
module ScreenEdits {
  import opened Options
  import opened Utf8
  import opened Cells
  import opened GridValues
  import opened ScreenState

  function WithGrid(s: ScreenV, grid: GridV): (r: ScreenV)
    requires Safe(s) && grid.Valid() && grid.SameShape(s.grid)
    ensures Keeps(s, r)
  {
    s.(grid := grid)
  }

  // ----- Lines -----

  /** Down one row, or the region up one at its last row. */
  function Descended(s: ScreenV): (r: ScreenV)
    requires Safe(s)
    ensures Keeps(s, r)
  {
    var s1 := s.(pendingWrap := false);
    if s.cursor.row + 1 == s.bottom then
      WithGrid(RowsDamaged(s1, s.top, s.bottom),
               if HasMargins(s) && InMargins(s) then RegionUp(s.grid, s.top, s.bottom, s.left, s.right, 1)
               else ScrolledUp(s.grid, s.top, s.bottom, 1))
    else if s.cursor.row + 1 < s.grid.rows then MovedTo(s, s.cursor.row + 1, s.cursor.col)
    else s1
  }

  function LineFed(s: ScreenV): (r: ScreenV)
    requires Safe(s)
    ensures Keeps(s, r)
  {
    var d := Descended(s);
    if s.modes.newline then d.(cursor := d.cursor.(col := 0)) else d
  }

  function ReverseIndexed(s: ScreenV): (r: ScreenV)
    requires Safe(s)
    ensures Keeps(s, r)
  {
    var s1 := s.(pendingWrap := false);
    if s.cursor.row == s.top then
      if HasMargins(s) && InMargins(s) then WithGrid(s1, RegionDown(s.grid, s.top, s.bottom, s.left, s.right, 1))
      else WithGrid(s1, ScrolledDown(s.grid, s.top, s.bottom, 1))
    else if s.cursor.row > 0 then MovedTo(s, s.cursor.row - 1, s.cursor.col)
    else s1
  }

  function RegionScrolledUp(s: ScreenV, count: nat): (r: ScreenV)
    requires Safe(s)
    ensures Keeps(s, r)
  {
    WithGrid(RowsDamaged(s, s.top, s.bottom),
             if HasMargins(s) then RegionUp(s.grid, s.top, s.bottom, s.left, s.right, count)
             else ScrolledUp(s.grid, s.top, s.bottom, count))
  }

  function RegionScrolledDown(s: ScreenV, count: nat): (r: ScreenV)
    requires Safe(s)
    ensures Keeps(s, r)
  {
    WithGrid(RowsDamaged(s, s.top, s.bottom),
             if HasMargins(s) then RegionDown(s.grid, s.top, s.bottom, s.left, s.right, count)
             else ScrolledDown(s.grid, s.top, s.bottom, count))
  }

  function LinesOpened(s: ScreenV, count: nat): (r: ScreenV)
    requires Safe(s)
    ensures Keeps(s, r)
  {
    MovedTo(WithGrid(s, if s.top <= s.cursor.row < s.bottom
                        then LinesInserted(s.grid, s.cursor.row, count, s.top, s.bottom) else s.grid),
            s.cursor.row, 0)
  }

  function LinesRemoved(s: ScreenV, count: nat): (r: ScreenV)
    requires Safe(s)
    ensures Keeps(s, r)
  {
    MovedTo(WithGrid(s, if s.top <= s.cursor.row < s.bottom
                        then LinesDeleted(s.grid, s.cursor.row, count, s.top, s.bottom) else s.grid),
            s.cursor.row, 0)
  }

  // ----- Characters -----

  function CharsOpened(s: ScreenV, count: nat): (r: ScreenV)
    requires Safe(s)
    ensures Keeps(s, r)
  {
    WithGrid(Damaged(s, s.cursor.row, s.cursor.col, RightEdge(s)),
             CellsInserted(s.grid, s.cursor.row, s.cursor.col, count, RightEdge(s))).(pendingWrap := false)
  }

  function CharsRemoved(s: ScreenV, count: nat): (r: ScreenV)
    requires Safe(s)
    ensures Keeps(s, r)
  {
    WithGrid(Damaged(s, s.cursor.row, s.cursor.col, RightEdge(s)),
             CellsDeleted(s.grid, s.cursor.row, s.cursor.col, count, RightEdge(s))).(pendingWrap := false)
  }

  function CharsBlanked(s: ScreenV, count: nat): (r: ScreenV)
    requires Safe(s)
    ensures Keeps(s, r)
  {
    WithGrid(Damaged(s, s.cursor.row, s.cursor.col, Min(s.cursor.col + count, s.grid.cols)),
             CharsErased(s.grid, s.cursor.row, s.cursor.col, count)).(pendingWrap := false)
  }

  // ----- Erasing -----

  /** Cells `left` to `right` inclusive erased; a selective erase spares protected cells. */
  function SpanErased(cells: seq<Cell>, left: nat, right: nat, selective: bool): (r: seq<Cell>)
    requires right < |cells|
    ensures |r| == |cells|
  {
    if !selective then ClearedSpan(cells, left, right)
    else seq(|cells|, c requires 0 <= c < |cells| =>
           if left <= c <= right && !cells[c].attrs.protected then BLANK else cells[c])
  }

  /** A whole row erased; a selective erase also keeps its continuation flag. */
  function RowErased(row: Row, selective: bool): (r: Row)
    requires row.cells != []
    ensures |r.cells| == |row.cells|
  {
    if selective then row.(cells := SpanErased(row.cells, 0, |row.cells| - 1, true)) else BlankRow(|row.cells|)
  }

  function CursorRowErased(g: GridV, row: nat, left: nat, right: nat, selective: bool): (r: GridV)
    requires g.Valid() && g.cols >= 1 && row < g.rows
    ensures r.Valid() && r.SameShape(g)
  {
    WithCells(g, row, SpanErased(g.lines[row].cells, left, Min(right, g.cols - 1), selective))
  }

  /** Rows `[from, to)` erased. */
  function RowsErased(g: GridV, from: nat, to: nat, selective: bool): (r: GridV)
    requires g.Valid() && g.cols >= 1
    ensures r.Valid() && r.SameShape(g)
  {
    g.(lines := seq(g.rows, i requires 0 <= i < g.rows =>
         if from <= i < to then RowErased(g.lines[i], selective) else g.lines[i]))
  }

  function DisplayErased(s: ScreenV, mode: EraseDisplay, selective: bool): (r: ScreenV)
    requires Safe(s)
    ensures Keeps(s, r)
  {
    var (row, col, g) := (s.cursor.row, s.cursor.col, s.grid);
    match mode
    case Below =>
      WithGrid(EachDamaged(Damaged(s, row, col, g.cols), row + 1, g.rows),
               RowsErased(CursorRowErased(g, row, col, g.cols - 1, selective), row + 1, g.rows, selective))
    case Above =>
      WithGrid(Damaged(EachDamaged(s, 0, row), row, 0, col + 1),
               CursorRowErased(RowsErased(g, 0, row, selective), row, 0, col, selective))
    case All => WithGrid(EachDamaged(s, 0, g.rows), RowsErased(g, 0, g.rows, selective))
    case Scrollback => WithGrid(s, g.(scrollback := []))
  }

  /** Rows `[from, to)` damaged one by one, as the mode says. */
  function EachDamaged(s: ScreenV, from: nat, to: nat): (r: ScreenV)
    requires Safe(s) && from <= to <= s.grid.rows
    ensures Keeps(s, r) && r == s.(damage := r.damage)
  {
    s.(damage := s.damage + RegionsFor(s, from, to))
  }

  function RegionsFor(s: ScreenV, from: nat, to: nat): seq<DamageRegion>
    requires from <= to
  {
    seq(to - from, i requires 0 <= i < to - from => RegionFor(s, from + i, 0, s.grid.cols))
  }

  function LineErased(s: ScreenV, mode: EraseLine, selective: bool): (r: ScreenV)
    requires Safe(s)
    ensures Keeps(s, r)
  {
    var (row, col, g) := (s.cursor.row, s.cursor.col, s.grid);
    match mode
    case ToRight => WithGrid(Damaged(s, row, col, g.cols), CursorRowErased(g, row, col, g.cols - 1, selective))
    case ToLeft => WithGrid(Damaged(s, row, 0, col + 1), CursorRowErased(g, row, 0, col, selective))
    case WholeLine => WithGrid(Damaged(s, row, 0, g.cols), RowsErased(g, row, row + 1, selective))
  }

  // ----- Rectangles -----

  /** A cell of the screen test pattern, or of a filled rectangle; its hyperlink stays. */
  function Stamped(cell: Cell, c: Scalar, pen: Pen): Cell {
    cell.(c := c, width := 1, fg := pen.fg, bg := pen.bg, attrs := pen.attrs)
  }

  /** Rows `[top, bottom)`, columns `[left, right)` stamped. */
  function RectStamped(g: GridV, top: nat, left: nat, bottom: nat, right: nat, c: Scalar, pen: Pen): (r: GridV)
    requires g.Valid()
    ensures r.Valid() && r.SameShape(g)
  {
    g.(lines := seq(g.rows, i requires 0 <= i < g.rows =>
         if top <= i < bottom then g.lines[i].(cells := CellsStamped(g.lines[i].cells, left, right, c, pen))
           else g.lines[i]))
  }

  function CellsStamped(cells: seq<Cell>, left: nat, right: nat, c: Scalar, pen: Pen): (r: seq<Cell>)
    ensures |r| == |cells|
  {
    seq(|cells|, i requires 0 <= i < |cells| => if left <= i < right then Stamped(cells[i], c, pen) else cells[i])
  }

  function Aligned(s: ScreenV): (r: ScreenV)
    requires Safe(s)
    ensures Keeps(s, r)
  {
    var stamped := WithGrid(s, RectStamped(s.grid, 0, 0, s.grid.rows, s.grid.cols, 0x45, DEFAULT_PEN));
    MovedTo(stamped.(top := 0, bottom := s.grid.rows), 0, 0)
  }

  /** A 1-based coordinate made 0-based and clamped. */
  function Origin0(x: nat, size: nat): nat
    requires size >= 1
  {
    Min(SatSub(x, 1), size - 1)
  }

  function RectFilled(s: ScreenV, c: Scalar, top: nat, left: nat, bottom: nat, right: nat): (r: ScreenV)
    requires Safe(s)
    ensures Keeps(s, r)
  {
    WithGrid(s, RectStamped(s.grid, Origin0(top, s.grid.rows), Origin0(left, s.grid.cols),
                            bottom, Min(right, s.grid.cols), c, s.pen))
  }

  function RectErased(s: ScreenV, top: nat, left: nat, bottom: nat, right: nat): (r: ScreenV)
    requires Safe(s)
    ensures Keeps(s, r)
  {
    var (t, l, e) := (Origin0(top, s.grid.rows), Origin0(left, s.grid.cols), Min(right, s.grid.cols));
    WithGrid(s, s.grid.(lines := seq(s.grid.rows, i requires 0 <= i < s.grid.rows =>
      if t <= i < bottom && l < e then SelectivelyErased(s.grid, i, l, e - 1) else s.grid.lines[i])))
  }

  function SelectivelyErased(g: GridV, row: nat, left: nat, right: nat): (r: Row)
    requires g.Valid() && row < g.rows && right < g.cols
    ensures |r.cells| == g.cols
  {
    g.lines[row].(cells := SpanErased(g.lines[row].cells, left, right, true))
  }

  /** The rectangle at (`st`, `sl`), `h` by `w`, pasted at (`dt`, `dl`); what does not fit is lost. */
  function Pasted(g: GridV, st: nat, sl: nat, h: nat, w: nat, dt: nat, dl: nat): (r: GridV)
    requires g.Valid() && st + h <= g.rows && sl + w <= g.cols
    ensures r.Valid() && r.SameShape(g)
  {
    g.(lines := seq(g.rows, i requires 0 <= i < g.rows => PastedRow(g, st, sl, h, w, dt, dl, i)))
  }

  function PastedRow(g: GridV, st: nat, sl: nat, h: nat, w: nat, dt: nat, dl: nat, i: nat): (r: Row)
    requires g.Valid() && st + h <= g.rows && sl + w <= g.cols && i < g.rows
    ensures |r.cells| == g.cols
  {
    if !(dt <= i < dt + h) then g.lines[i]
    else
      var src := g.lines[st + (i - dt)].cells;
      g.lines[i].(cells := seq(g.cols, c requires 0 <= c < g.cols =>
                    if dl <= c < dl + w then src[sl + (c - dl)] else g.lines[i].cells[c]))
  }

  function RectCopied(s: ScreenV, top: nat, left: nat, bottom: nat, right: nat, toTop: nat, toLeft: nat): (r: ScreenV)
    requires Safe(s)
    ensures Keeps(s, r)
  {
    var (st, sl) := (Origin0(top, s.grid.rows), Origin0(left, s.grid.cols));
    var h := SatSub(Min(bottom, s.grid.rows), st);
    var w := SatSub(Min(right, s.grid.cols), sl);
    if h == 0 || w == 0 then s
    else WithGrid(s, Pasted(s.grid, st, sl, h, w, Origin0(toTop, s.grid.rows), Origin0(toLeft, s.grid.cols)))
  }

  // ----- Printing -----

  function Mapped(charset: Charset, c: Scalar): Scalar {
    if charset != DecSpecialGraphics then c
    else match c
      case 0x6A => 0x2518
      case 0x6B => 0x2510
      case 0x6C => 0x250C
      case 0x6D => 0x2514
      case 0x6E => 0x253C
      case 0x71 => 0x2500
      case 0x74 => 0x251C
      case 0x75 => 0x2524
      case 0x76 => 0x2534
      case 0x77 => 0x252C
      case 0x78 => 0x2502
      case 0x61 => 0x2592
      case _ => c
  }

  function MappedChar(s: ScreenV, c: Scalar): Scalar {
    if c <= 0x7E then Mapped(if s.activeCharset == 1 then s.g1 else s.g0, c) else c
  }

  predicate IsZeroWidth(c: Scalar) {
    || c in {0x200B, 0x200C, 0x200D, 0xFEFF, 0x2060, 0x2061, 0x2062, 0x2063, 0x2064, 0x180E}
    || 0x0300 <= c <= 0x036F || 0x1AB0 <= c <= 0x1AFF || 0x1DC0 <= c <= 0x1DFF || 0x20D0 <= c <= 0x20FF
    || 0xFE20 <= c <= 0xFE2F
  }

  predicate IsWide(c: Scalar) {
    || 0x1100 <= c <= 0x115F || 0x2329 <= c <= 0x232A || 0x2E80 <= c <= 0x303E || 0x3040 <= c <= 0x33BF
    || 0x3400 <= c <= 0x4DBF || 0x4E00 <= c <= 0x9FFF || 0xA000 <= c <= 0xA4CF || 0xAC00 <= c <= 0xD7A3
    || 0xF900 <= c <= 0xFAFF || 0xFE10 <= c <= 0xFE19 || 0xFE30 <= c <= 0xFE6F || 0xFF01 <= c <= 0xFF60
    || 0xFFE0 <= c <= 0xFFE6 || 0x1F000 <= c <= 0x1F9FF || 0x20000 <= c <= 0x2FA1F || 0x30000 <= c <= 0x3134F
  }

  function CharWidth(c: Scalar): (w: nat)
    ensures w <= 2
  {
    if c < 0x7F then if c >= 0x20 then 1 else 0
    else if IsZeroWidth(c) then 0
    else if IsWide(c) then 2
    else if c <= 0x9F then 0
    else 1
  }

  /** The foreground a cell is written with: bold may brighten the first eight colours. */
  function EffectiveFg(s: ScreenV): Color {
    if s.boldIsBright && s.pen.attrs.bold && s.pen.fg.Indexed? && s.pen.fg.index < 8
    then Indexed(s.pen.fg.index + 8) else s.pen.fg
  }

  function Glyph(s: ScreenV, c: Scalar, width: nat): Cell {
    Cell(c, width, EffectiveFg(s), s.pen.bg, s.pen.attrs, s.hyperlink)
  }

  /** What is left of half a wide character: a space in the same colours. */
  function Spaced(cell: Cell): Cell {
    cell.(c := SPACE, width := 1)
  }

  function Flagged(s: ScreenV, continuation: bool): (r: ScreenV)
    requires Safe(s)
    ensures Keeps(s, r)
  {
    WithGrid(s, WithFlag(s.grid, s.cursor.row, continuation))
  }

  /** On to the next line, which continues this one. */
  function WrappedOn(s: ScreenV): (r: ScreenV)
    requires Safe(s)
    ensures Keeps(s, r)
  {
    Flagged(LineFed(CarriageReturned(s)), true)
  }

  /** A pending wrap is carried out, or forgotten. */
  function AfterPending(s: ScreenV): (r: ScreenV)
    requires Safe(s)
    ensures Keeps(s, r) && r.modes == s.modes && !r.pendingWrap
  {
    if !s.pendingWrap then s
    else if s.modes.autowrap then WrappedOn(Flagged(s, false))
    else MovedTo(s, s.cursor.row, RightEdge(s) - 1)
  }

  /** A wide character has no room left on the line. */
  predicate NoRoom(s: ScreenV, width: nat)
    requires Safe(s)
  {
    width == 2 && s.cursor.col >= RightEdge(s) - 1
  }

  /** The cell at the cursor becomes a space before a wide character goes to the next line. */
  function Padded(s: ScreenV): (r: ScreenV)
    requires Safe(s)
    ensures Keeps(s, r)
  {
    if s.cursor.col >= s.grid.cols then s
    else
      var cells := s.grid.lines[s.cursor.row].cells;
      WithGrid(s, WithCells(s.grid, s.cursor.row, cells[s.cursor.col := Spaced(cells[s.cursor.col])]))
  }

  function AfterFit(s: ScreenV, width: nat): (r: ScreenV)
    requires Safe(s)
    ensures Keeps(s, r)
  {
    if !NoRoom(s, width) then s
    else if s.modes.autowrap then WrappedOn(Padded(s))
    else s.(cursor := s.cursor.(col := SatSub(RightEdge(s), 2)))
  }

  function AfterInsert(s: ScreenV, width: nat): (r: ScreenV)
    requires Safe(s)
    ensures Keeps(s, r)
  {
    if s.modes.insert then WithGrid(s, CellsInserted(s.grid, s.cursor.row, s.cursor.col, width, RightEdge(s))) else s
  }

  /** The other half of a wide character at `col` becomes a space. */
  function HalfSpaced(cells: seq<Cell>, col: nat): (r: seq<Cell>)
    requires col < |cells|
    ensures |r| == |cells|
  {
    if cells[col].width == 2 && col + 1 < |cells| then cells[col + 1 := Spaced(cells[col + 1])]
    else if cells[col].width == 0 && col > 0 && cells[col - 1].width == 2 then cells[col - 1 := Spaced(cells[col - 1])]
    else cells
  }

  /** The other halves of wide characters about to be overwritten become spaces. */
  function Unfragmented(cells: seq<Cell>, col: nat, width: nat): (r: seq<Cell>)
    requires col < |cells|
    ensures |r| == |cells|
  {
    var b := HalfSpaced(cells, col);
    if width == 2 && col + 2 < |cells| && b[col + 1].width == 2 then b[col + 2 := Spaced(b[col + 2])] else b
  }

  function Written(cells: seq<Cell>, col: nat, glyph: Cell): (r: seq<Cell>)
    requires col < |cells|
    ensures |r| == |cells|
  {
    var a := Unfragmented(cells, col, glyph.width)[col := glyph];
    if glyph.width == 2 && col + 1 < |cells| then a[col + 1 := glyph.(c := SPACE, width := 0)] else a
  }

  function Put(s: ScreenV, c: Scalar, width: nat): (r: ScreenV)
    requires Safe(s)
    ensures Keeps(s, r)
  {
    var (row, col) := (s.cursor.row, s.cursor.col);
    var s1 := if col >= s.grid.cols then s
              else WithGrid(s, WithCells(s.grid, row, Written(s.grid.lines[row].cells, col, Glyph(s, c, width))));
    Damaged(s1, row, col, col + width)
  }

  function Advanced(s: ScreenV, width: nat): (r: ScreenV)
    requires Safe(s)
    ensures Keeps(s, r)
  {
    if s.cursor.col + width < RightEdge(s) then s.(cursor := s.cursor.(col := s.cursor.col + width))
    else s.(cursor := s.cursor.(col := RightEdge(s) - 1), pendingWrap := s.pendingWrap || s.modes.autowrap)
  }

  /** Where and on what the character is written: after wrapping, and shifting in insert mode. */
  function Prepared(s: ScreenV, width: nat): (r: ScreenV)
    requires Safe(s)
    ensures Keeps(s, r)
  {
    AfterInsert(AfterFit(AfterPending(s), width), width)
  }

  /** A character of `width` columns written where the cursor is, or wraps to. */
  function Printed(s: ScreenV, c: Scalar, width: nat): (r: ScreenV)
    requires Safe(s)
    ensures Keeps(s, r)
  {
    Advanced(Put(Prepared(s, width), c, width), width)
  }

  /** The character REP repeats. */
  function Noted(s: ScreenV, c: Scalar): (r: ScreenV)
    requires Safe(s)
    ensures Keeps(s, r)
  {
    s.(lastChar := Some(c))
  }

  function CharWritten(s: ScreenV, c: Scalar): (r: ScreenV)
    requires Safe(s)
    ensures Keeps(s, r)
  {
    var m := MappedChar(s, c);
    var s1 := Noted(s, m);
    if CharWidth(m) == 0 then s1 else Printed(s1, m, CharWidth(m))
  }

  /** REP: the last character again, `count` times. */
  function Repeated(s: ScreenV, c: Scalar, count: nat): (r: ScreenV)
    requires Safe(s)
    ensures Keeps(s, r)
    decreases count
  {
    if count == 0 then s else Repeated(CharWritten(s, c), c, count - 1)
  }
}
