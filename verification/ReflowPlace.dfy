/** Where in its logical line a cursor is after a reflow, in the content or behind it. */
module ReflowPlace {
  import opened Options
  import opened Cells
  import opened Reflow
  import opened ReflowCursor

  /** Row `k` of the line at its new width holds the offset, or is the last row if none does; a
      line of one row stays one. */
  ghost predicate InPlace(line: seq<Row>, off: nat, newCols: nat, k: nat)
    requires line != [] && newCols >= 1
  {
    var last := |ReflowLine(line, newCols)| - 1;
    && k <= last
    && (|line| == 1 ==> k == 0)
    && (|line| >= 2 ==> k * newCols <= off && (k == last || off < (k + 1) * newCols))
  }

  lemma QuotientHolds(off: nat, cols: nat, k: nat)
    requires cols >= 1 && k <= off / cols
    ensures k * cols <= off < (off / cols + 1) * cols
  {
    var q := off / cols;
    assert off == q * cols + off % cols && (q + 1) * cols == q * cols + cols;
    TimesMonotone(k, q, cols);
  }

  lemma LinePlace(line: seq<Row>, oldCols: nat, newCols: nat, r: nat, col: nat)
    requires line != [] && newCols >= 1
    ensures InPlace(line, r * oldCols + col, newCols, LineCursor(line, oldCols, newCols, r, col))
  {
    hide Wrapped, Content;
    LineReflow(line, newCols);
    QuotientHolds(r * oldCols + col, newCols, LineCursor(line, oldCols, newCols, r, col));
  }

  /** Rows of a list that begins with one whole line. */
  lemma PlaceInFirst(a: seq<Row>, b: seq<Row>, n: nat)
    requires a != [] && (forall k :: 1 <= k < |a| ==> a[k].continuation) && (b != [] ==> !b[0].continuation)
    requires n < |a + b|
    ensures RowInLine(a + b, n) == if n < |a| then n else RowInLine(b, n - |a|)
  {
    hide LineEnd;
    FirstLine(a, b);
  }

  /** Row `n` of `after` has that place in the line of row `at` of `rows`. */
  ghost predicate PlaceKept(rows: seq<Row>, oldCols: nat, newCols: nat, at: nat, col: nat, after: seq<Row>, n: nat)
    requires at < |rows| && newCols >= 1
  {
    && n < |after| && LineOf(rows, at) < |LogicalLines(rows)| && LogicalLines(rows)[LineOf(rows, at)] != []
    && InPlace(LogicalLines(rows)[LineOf(rows, at)], RowInLine(rows, at) * oldCols + col, newCols, RowInLine(after, n))
  }

  /** The cursor of a whole history. */
  lemma {:induction false} CursorPlace(rows: seq<Row>, oldCols: nat, newCols: nat, at: nat, col: nat)
    requires AllWide(rows, oldCols) && newCols >= 1 && at < |rows| && col < oldCols
    ensures PlaceKept(rows, oldCols, newCols, at, col, Reflowed(rows, newCols),
                      CursorRow(rows, oldCols, newCols, at, col))
    decreases |rows|
  {
    hide LineCursor, ReflowLine, Content, LineEnd, LogicalLines, Reflowed, CursorRow, LineOf, RowInLine, AllWide,
      InPlace, CursorKept;
    var e := LineEnd(rows);
    var line, rest := rows[..e], rows[e..];
    var a, b := ReflowLine(line, newCols), Reflowed(rest, newCols);
    UnfoldAt(rows, oldCols, newCols, at, col);
    LineReflow(line, newCols);
    PartsAreWide(rows, oldCols, e, at);
    if e < |rows| {
      ReflowedFirstFlag(rest, newCols);
    }
    NoRows(newCols);
    if at < e {
      LinePlace(line, oldCols, newCols, at, col);
      LineCursorKeepsCell(line, oldCols, newCols, at, col);
    } else {
      CursorPlace(rest, oldCols, newCols, at - e, col);
    }
    PlaceInFirst(a, b, CursorRow(rows, oldCols, newCols, at, col));
  }
}
