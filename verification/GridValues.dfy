/** The terminal grid as a value, and what each grid operation makes of it. */
module GridValues {
  import opened Options
  import opened Cells

  const DEFAULT_SCROLLBACK_LIMIT: nat := 10000

  datatype GridV = GridV(cols: nat, rows: nat, lines: seq<Row>, scrollback: seq<Row>, limit: nat) {
    /** A matrix of `rows` by `cols` cells, and a scrollback as wide within its limit. */
    ghost predicate Valid() {
      && |lines| == rows && AllWide(lines, cols)
      && |scrollback| <= limit && AllWide(scrollback, cols)
    }

    predicate SameShape(other: GridV) {
      cols == other.cols && rows == other.rows && limit == other.limit
    }
  }

  function BlankGrid(cols: nat, rows: nat): (g: GridV)
    ensures g.Valid()
  {
    GridV(cols, rows, Fill(rows, BlankRow(cols)), [], DEFAULT_SCROLLBACK_LIMIT)
  }

  /** The newest `limit` rows: what is left after popping from the front. */
  function Recent<T>(rows: seq<T>, limit: nat): (r: seq<T>)
    ensures |r| <= limit && |r| <= |rows|
  {
    if |rows| <= limit then rows else rows[|rows| - limit..]
  }

  lemma RecentTwice<T>(a: seq<T>, b: seq<T>, limit: nat)
    ensures Recent(Recent(a, limit) + b, limit) == Recent(a + b, limit)
  {
  }

  // ----- Rows -----

  /** Region `[top, bottom)` up by `count`; rows leaving the top of the screen go to the scrollback. */
  function ScrolledUp(g: GridV, top: nat, bottom: nat, count: nat): (r: GridV)
    requires g.Valid() && bottom <= g.rows
    ensures r.Valid() && r.SameShape(g)
  {
    if bottom <= top then g
    else
      var n := Min(count, bottom - top);
      g.(lines := ShiftLeft(g.lines, top, bottom, n, BlankRow(g.cols)),
         scrollback := if top == 0 then Recent(g.scrollback + g.lines[..n], g.limit) else g.scrollback)
  }

  function ScrolledDown(g: GridV, top: nat, bottom: nat, count: nat): (r: GridV)
    requires g.Valid() && bottom <= g.rows
    ensures r.Valid() && r.SameShape(g)
  {
    if bottom <= top then g
    else g.(lines := ShiftRight(g.lines, top, bottom, Min(count, bottom - top), BlankRow(g.cols)))
  }

  function LinesInserted(g: GridV, row: nat, count: nat, top: nat, bottom: nat): (r: GridV)
    requires g.Valid() && bottom <= g.rows
    ensures r.Valid() && r.SameShape(g)
  {
    if row < top || row >= bottom then g else ScrolledDown(g, row, bottom, count)
  }

  /** As a scroll of `[row, bottom)`, but nothing goes to the scrollback. */
  function LinesDeleted(g: GridV, row: nat, count: nat, top: nat, bottom: nat): (r: GridV)
    requires g.Valid() && bottom <= g.rows
    ensures r.Valid() && r.SameShape(g)
  {
    if row < top || row >= bottom then g
    else g.(lines := ShiftLeft(g.lines, row, bottom, Min(count, bottom - row), BlankRow(g.cols)))
  }

  function RowCleared(g: GridV, row: nat): (r: GridV)
    requires g.Valid() && row < g.rows
    ensures r.Valid() && r.SameShape(g)
  {
    g.(lines := g.lines[row := BlankRow(g.cols)])
  }

  // ----- Cells -----

  function CellAt(g: GridV, row: nat, col: nat): Cell
    requires g.Valid() && g.rows >= 1 && g.cols >= 1
  {
    g.lines[Min(row, g.rows - 1)].cells[Min(col, g.cols - 1)]
  }

  function WithCells(g: GridV, row: nat, cells: seq<Cell>): (r: GridV)
    requires g.Valid() && row < g.rows && |cells| == g.cols
    ensures r.Valid() && r.SameShape(g)
  {
    g.(lines := g.lines[row := g.lines[row].(cells := cells)])
  }

  function WithCell(g: GridV, row: nat, col: nat, cell: Cell): (r: GridV)
    requires g.Valid() && g.rows >= 1 && g.cols >= 1
    ensures r.Valid() && r.SameShape(g)
  {
    var n := Min(row, g.rows - 1);
    WithCells(g, n, g.lines[n].cells[Min(col, g.cols - 1) := cell])
  }

  function WithFlag(g: GridV, row: nat, continuation: bool): (r: GridV)
    requires g.Valid() && g.rows >= 1
    ensures r.Valid() && r.SameShape(g)
  {
    var n := Min(row, g.rows - 1);
    g.(lines := g.lines[n := g.lines[n].(continuation := continuation)])
  }

  /** Rows `top` to `bottom` inclusive, columns `left` to `right` inclusive, blank. */
  function RegionCleared(g: GridV, top: nat, left: nat, bottom: nat, right: nat): (r: GridV)
    requires g.Valid() && g.rows >= 1 && g.cols >= 1
    ensures r.Valid() && r.SameShape(g)
  {
    g.(lines := seq(g.rows, i requires 0 <= i < g.rows =>
         if top <= i <= bottom then g.lines[i].(cells := ClearedSpan(g.lines[i].cells, left, Min(right, g.cols - 1)))
         else g.lines[i]))
  }

  function CharsErased(g: GridV, row: nat, col: nat, count: nat): (r: GridV)
    requires g.Valid()
    ensures r.Valid() && r.SameShape(g)
  {
    if row >= g.rows || col >= g.cols then g
    else WithCells(g, row, ErasedSpan(g.lines[row].cells, col, Min(col + count, g.cols)))
  }

  function CellsInserted(g: GridV, row: nat, col: nat, count: nat, right: nat): (r: GridV)
    requires g.Valid() && row < g.rows
    ensures r.Valid() && r.SameShape(g)
  {
    var bound := Min(right, g.cols);
    if col >= bound then g
    else WithCells(g, row, ShiftRight(g.lines[row].cells, col, bound, Min(count, bound - col), BLANK))
  }

  function CellsDeleted(g: GridV, row: nat, col: nat, count: nat, right: nat): (r: GridV)
    requires g.Valid() && row < g.rows
    ensures r.Valid() && r.SameShape(g)
  {
    var bound := Min(right, g.cols);
    if col >= bound then g
    else WithCells(g, row, ShiftLeft(g.lines[row].cells, col, bound, Min(count, bound - col), BLANK))
  }

  // ----- Rectangles -----

  /** Row `r` with its columns `[left, right)` taken from row `src`, or blank if there is none. */
  function SpanFrom(g: GridV, r: nat, src: Option<nat>, left: nat, right: nat): (row: Row)
    requires g.Valid() && r < g.rows && (src.Some? ==> src.value < g.rows) && left <= right <= g.cols
    ensures |row.cells| == g.cols
  {
    g.lines[r].(cells := Spliced(g.lines[r].cells,
                                 if src.Some? then g.lines[src.value].cells else Fill(g.cols, BLANK), left, right))
  }

  /** What row `i` becomes when columns `[left, right)` of rows `[top, bottom)` move up by `n`. */
  function RowUp(g: GridV, top: nat, bottom: nat, left: nat, right: nat, n: nat, i: nat): (row: Row)
    requires g.Valid() && bottom <= g.rows && left <= right <= g.cols && i < g.rows
    ensures |row.cells| == g.cols
  {
    if !(top <= i < bottom) then g.lines[i]
    else SpanFrom(g, i, if i + n < bottom then Some(i + n) else None, left, right)
  }

  function RowDown(g: GridV, top: nat, bottom: nat, left: nat, right: nat, n: nat, i: nat): (row: Row)
    requires g.Valid() && bottom <= g.rows && left <= right <= g.cols && i < g.rows
    ensures |row.cells| == g.cols
  {
    if !(top <= i < bottom) then g.lines[i]
    else SpanFrom(g, i, if i >= top + n then Some(i - n) else None, left, right)
  }

  function RegionUp(g: GridV, top: nat, bottom: nat, left: nat, right: nat, count: nat): (r: GridV)
    requires g.Valid() && bottom <= g.rows
    ensures r.Valid() && r.SameShape(g)
  {
    var bound := Min(right, g.cols);
    if bottom <= top || bound <= left then g
    else g.(lines := seq(g.rows, i requires 0 <= i < g.rows =>
              RowUp(g, top, bottom, left, bound, Min(count, bottom - top), i)))
  }

  function RegionDown(g: GridV, top: nat, bottom: nat, left: nat, right: nat, count: nat): (r: GridV)
    requires g.Valid() && bottom <= g.rows
    ensures r.Valid() && r.SameShape(g)
  {
    var bound := Min(right, g.cols);
    if bottom <= top || bound <= left then g
    else g.(lines := seq(g.rows, i requires 0 <= i < g.rows =>
              RowDown(g, top, bottom, left, bound, Min(count, bottom - top), i)))
  }
}
