/** The cursor through a reflow, and the loops that carry the reflow out. */
module ReflowCursor {
  import opened Options
  import opened Utf8
  import opened Cells
  import opened Reflow

  // ----- Where a row stands -----

  /** The logical line that holds row `at`. */
  function LineOf(rows: seq<Row>, at: nat): nat
    requires at < |rows|
    decreases |rows|
  {
    if at < LineEnd(rows) then 0 else 1 + LineOf(rows[LineEnd(rows)..], at - LineEnd(rows))
  }

  /** How far into its line row `at` stands. */
  function RowInLine(rows: seq<Row>, at: nat): nat
    requires at < |rows|
    decreases |rows|
  {
    if at < LineEnd(rows) then at else RowInLine(rows[LineEnd(rows)..], at - LineEnd(rows))
  }

  /** The row of a reflowed line for a cursor `r` rows and `col` columns into it: the one
      its offset falls in, or the last. */
  function LineCursor(line: seq<Row>, oldCols: nat, newCols: nat, r: nat, col: nat): nat
    requires line != [] && newCols >= 1
  {
    if |line| == 1 then 0
    else Min((r * oldCols + col) / newCols, SatSub(|Wrapped(Content(line), newCols, true)|, 1))
  }

  function CursorRow(rows: seq<Row>, oldCols: nat, newCols: nat, at: nat, col: nat): nat
    requires at < |rows| && newCols >= 1
    decreases |rows|
  {
    var e := LineEnd(rows);
    if at < e then LineCursor(rows[..e], oldCols, newCols, at, col)
    else |ReflowLine(rows[..e], newCols)| + CursorRow(rows[e..], oldCols, newCols, at - e, col)
  }

  // ----- Cells keep their place -----

  lemma DivideStep(off: nat, cols: nat)
    requires cols >= 1 && off >= cols
    ensures off / cols == (off - cols) / cols + 1 && off % cols == (off - cols) % cols
  {
    var k := off - cols;
    assert k == k / cols * cols + k % cols;
    assert off == (k / cols + 1) * cols + k % cols;
    DivideIs(off, cols, k / cols + 1, k % cols);
  }

  lemma TimesMonotone(a: nat, b: nat, c: nat)
    requires a <= b
    ensures a * c <= b * c
  {
    assert b * c == a * c + (b - a) * c;
  }

  lemma DivideIs(off: nat, cols: nat, q: nat, m: nat)
    requires cols >= 1 && off == q * cols + m && m < cols
    ensures off / cols == q && off % cols == m
  {
    var p := off / cols;
    assert off == p * cols + off % cols;
    assert (p + 1) * cols == p * cols + cols && (q + 1) * cols == q * cols + cols;
    if p < q {
      TimesMonotone(p + 1, q, cols);
    } else if p > q {
      TimesMonotone(q + 1, p, cols);
    }
  }

  lemma {:induction false} WrappedAt(cells: seq<Cell>, cols: nat, first: bool, off: nat)
    requires cols >= 1 && off < |cells|
    ensures off / cols < |Wrapped(cells, cols, first)|
    ensures |Wrapped(cells, cols, first)[off / cols].cells| == cols
    ensures Wrapped(cells, cols, first)[off / cols].cells[off % cols] == cells[off]
    decreases |cells|
  {
    hide FitCells;
    if off < cols {
      DivideIs(off, cols, 0, off);
      FitAt(cells, cols, off);
    } else {
      DivideStep(off, cols);
      WrappedAt(cells[cols..], cols, false, off - cols);
      var tail := Wrapped(cells[cols..], cols, false);
      assert Wrapped(cells, cols, first)[off / cols] == tail[(off - cols) / cols];
    }
  }

  lemma {:induction false} JoinedAt(line: seq<Row>, cols: nat, r: nat, col: nat)
    requires AllWide(line, cols) && r < |line| && col < cols
    ensures r * cols + col < |Joined(line)| && Joined(line)[r * cols + col] == line[r].cells[col]
  {
    if r > 0 {
      JoinedAt(line[1..], cols, r - 1, col);
      assert r * cols == (r - 1) * cols + cols;
    }
  }

  /** What the row the cursor lands on owes to the cell it was on: a one-row line keeps it
      if the column still exists, a longer line at the offset modulo the new width if the
      offset lies in the content. */
  ghost predicate KeepsCell(line: seq<Row>, off: nat, cell: Cell, row: Row, col: nat, newCols: nat)
    requires newCols >= 1
  {
    && |row.cells| == newCols
    && (|line| == 1 && col < newCols ==> row.cells[col] == cell)
    && (|line| >= 2 && off < |Content(line)| ==> row.cells[off % newCols] == cell)
  }

  lemma LineCursorKeepsCell(line: seq<Row>, oldCols: nat, newCols: nat, r: nat, col: nat)
    requires line != [] && AllWide(line, oldCols) && newCols >= 1 && r < |line| && col < oldCols
    ensures var n, after := LineCursor(line, oldCols, newCols, r, col), ReflowLine(line, newCols);
            n < |after| && KeepsCell(line, r * oldCols + col, line[r].cells[col], after[n], col, newCols)
  {
    hide Wrapped, Joined, ContentLen;
    LineReflow(line, newCols);
    if |line| >= 2 {
      var off := r * oldCols + col;
      JoinedAt(line, oldCols, r, col);
      WrappedShape(Content(line), newCols, true);
      if off < |Content(line)| {
        WrappedAt(Content(line), newCols, true, off);
      }
    }
  }

  /** Rows of a list that begins with one whole line. */
  lemma FirstLineRows(a: seq<Row>, b: seq<Row>, n: nat)
    requires a != [] && (forall k :: 1 <= k < |a| ==> a[k].continuation) && (b != [] ==> !b[0].continuation)
    requires n < |a + b|
    ensures LineOf(a + b, n) == if n < |a| then 0 else 1 + LineOf(b, n - |a|)
  {
    hide LineEnd;
    FirstLine(a, b);
  }

  /** Row `n` of `after` stands in the same logical line as row `at` of `rows`, and keeps
      the cell at `col` as far as `KeepsCell` says. */
  ghost predicate CursorKept(rows: seq<Row>, oldCols: nat, newCols: nat, at: nat, col: nat, after: seq<Row>, n: nat)
    requires at < |rows| && newCols >= 1
  {
    && n < |after| && LineOf(after, n) == LineOf(rows, at) < |LogicalLines(rows)|
    && col < |rows[at].cells|
    && KeepsCell(LogicalLines(rows)[LineOf(rows, at)], RowInLine(rows, at) * oldCols + col,
                 rows[at].cells[col], after[n], col, newCols)
  }

  /** The cursor survives reflow, from anywhere in rows of equal width. */
  lemma {:induction false} CursorSurvives(rows: seq<Row>, oldCols: nat, newCols: nat, at: nat, col: nat)
    requires AllWide(rows, oldCols) && newCols >= 1 && at < |rows| && col < oldCols
    ensures CursorKept(rows, oldCols, newCols, at, col, Reflowed(rows, newCols),
                       CursorRow(rows, oldCols, newCols, at, col))
    decreases |rows|
  {
    hide LineCursor, ReflowLine, Content, KeepsCell, LineEnd, LogicalLines, Reflowed, CursorRow, LineOf, RowInLine,
      AllWide;
    var e := LineEnd(rows);
    var line, rest := rows[..e], rows[e..];
    var a, b := ReflowLine(line, newCols), Reflowed(rest, newCols);
    UnfoldAt(rows, oldCols, newCols, at, col);
    LineReflow(line, newCols);
    PartsAreWide(rows, oldCols, e, at);
    if e < |rows| {
      ReflowedFirstFlag(rest, newCols);
    }
    NoRows(newCols);
    if at < e {
      LineCursorKeepsCell(line, oldCols, newCols, at, col);
    } else {
      CursorSurvives(rest, oldCols, newCols, at - e, col);
    }
    FirstLineRows(a, b, CursorRow(rows, oldCols, newCols, at, col));
  }

  lemma PartsAreWide(rows: seq<Row>, cols: nat, e: nat, at: nat)
    requires AllWide(rows, cols) && e <= |rows| && at < |rows|
    ensures AllWide(rows[..e], cols) && AllWide(rows[e..], cols) && |rows[at].cells| == cols
  {
  }

  lemma UnfoldAt(rows: seq<Row>, oldCols: nat, newCols: nat, at: nat, col: nat)
    requires at < |rows| && newCols >= 1
    ensures var e := LineEnd(rows);
            var line, rest := rows[..e], rows[e..];
            && LogicalLines(rows) == [line] + LogicalLines(rest)
            && Reflowed(rows, newCols) == ReflowLine(line, newCols) + Reflowed(rest, newCols)
            && (at < e ==> LineOf(rows, at) == 0 && RowInLine(rows, at) == at
                           && CursorRow(rows, oldCols, newCols, at, col) == LineCursor(line, oldCols, newCols, at, col))
            && (at >= e ==> LineOf(rows, at) == 1 + LineOf(rest, at - e)
                            && RowInLine(rows, at) == RowInLine(rest, at - e)
                            && CursorRow(rows, oldCols, newCols, at, col)
                               == |ReflowLine(line, newCols)| + CursorRow(rest, oldCols, newCols, at - e, col))
  {
    hide LineCursor, ReflowLine, LineEnd;
  }

  // ----- The loops -----

  /** Where the cursor goes, if it stands in the rows at all. */
  function CursorAfter(rows: seq<Row>, oldCols: nat, newCols: nat, at: Option<nat>, col: nat): Option<nat>
    requires newCols >= 1
  {
    if at.None? || at.value >= |rows| then None else Some(CursorRow(rows, oldCols, newCols, at.value, col))
  }

  method JoinRows(line: seq<Row>) returns (cells: seq<Cell>)
    ensures cells == Joined(line)
  {
    cells := [];
    for i := 0 to |line|
      invariant cells + Joined(line[i..]) == Joined(line)
    {
      assert line[i..][1..] == line[i + 1..];
      assert cells + (line[i].cells + Joined(line[i + 1..])) == cells + line[i].cells + Joined(line[i + 1..]);
      cells := cells + line[i].cells;
    }
    assert line[|line|..] == [];
  }

  method TrimmedLen(cells: seq<Cell>) returns (len: nat)
    ensures len == ContentLen(cells)
  {
    len := |cells|;
    while len > 0 && cells[len - 1] == BLANK
      invariant len <= |cells| && ContentLen(cells[..len]) == ContentLen(cells)
    {
      assert cells[..len][..len - 1] == cells[..len - 1];
      len := len - 1;
    }
  }

  /** One output row: `width` blanks overwritten by what is left of the cells. */
  method FillRow(cells: seq<Cell>, start: nat, width: nat, continuation: bool) returns (row: Row)
    requires start <= |cells|
    ensures row == Row(FitCells(cells[start..Min(start + width, |cells|)], width), continuation)
  {
    row := BlankRow(width).(continuation := continuation);
    var end := Min(start + width, |cells|);
    for j := 0 to end - start
      invariant |row.cells| == width && row.continuation == continuation
      invariant forall k :: 0 <= k < width ==> row.cells[k] == if k < j then cells[start + k] else BLANK
    {
      row := row.(cells := row.cells[j := cells[start + j]]);
    }
    assert row.cells == FitCells(cells[start..end], width);
  }

  /** The split of trimmed cells, and the row the offset falls in, if it falls in any. */
  method WrapCells(cells: seq<Cell>, contentLen: nat, cols: nat, offset: Option<nat>)
    returns (out: seq<Row>, cursor: Option<nat>)
    requires cols >= 1 && contentLen == ContentLen(cells) && contentLen > 0
    ensures out == Wrapped(cells[..contentLen], cols, true)
    ensures cursor == if offset.Some? && offset.value < |out| * cols then Some(offset.value / cols) else None
  {
    hide ContentLen, Wrapped, FitCells;
    out, cursor := [], None;
    var start := 0;
    var content := cells[..contentLen];
    assert content[0..] == content;
    while start < contentLen
      invariant start == |out| * cols
      invariant start < contentLen ==> out + Wrapped(content[start..], cols, out == []) == Wrapped(content, cols, true)
      invariant start >= contentLen ==> out == Wrapped(content, cols, true)
      invariant cursor == if offset.Some? && offset.value < start then Some(offset.value / cols) else None
      decreases contentLen - start
    {
      var row := FillRow(cells, start, cols, out != []);
      SameRow(cells, contentLen, start, cols);
      NextRow(content, start, cols, out);
      if offset.Some? && start <= offset.value < start + cols {
        DivideIs(offset.value, cols, |out|, offset.value - start);
        cursor := Some(|out|);
      }
      assert (|out| + 1) * cols == start + cols;
      out := out + [row];
      start := start + cols;
    }
  }

  /** Cells after the content are blanks, so taking them or padding is the same. */
  lemma SameRow(cells: seq<Cell>, contentLen: nat, start: nat, cols: nat)
    requires contentLen <= |cells| && start < contentLen && forall i :: contentLen <= i < |cells| ==> cells[i] == BLANK
    ensures FitCells(cells[start..Min(start + cols, |cells|)], cols)
            == FitCells(cells[..contentLen][start..Min(start + cols, contentLen)], cols)
  {
    hide FitCells;
    var end := Min(start + cols, contentLen);
    assert cells[..contentLen][start..end] == cells[start..end];
    var a, b := FitCells(cells[start..Min(start + cols, |cells|)], cols), FitCells(cells[start..end], cols);
    forall k | 0 <= k < cols
      ensures a[k] == b[k]
    {
      FitAt(cells[start..Min(start + cols, |cells|)], cols, k);
      FitAt(cells[start..end], cols, k);
    }
  }

  lemma FitAt(cells: seq<Cell>, cols: nat, k: nat)
    requires k < cols
    ensures FitCells(cells, cols)[k] == if k < |cells| then cells[k] else BLANK
  {
  }

  lemma NextRow(content: seq<Cell>, start: nat, cols: nat, out: seq<Row>)
    requires cols >= 1 && start < |content|
    requires out + Wrapped(content[start..], cols, out == []) == Wrapped(content, cols, true)
    ensures var row := Row(FitCells(content[start..Min(start + cols, |content|)], cols), out != []);
            && (start + cols < |content| ==>
                  out + [row] + Wrapped(content[start + cols..], cols, false) == Wrapped(content, cols, true))
            && (start + cols >= |content| ==> out + [row] == Wrapped(content, cols, true))
  {
    var rest := content[start..];
    if start + cols < |content| {
      assert rest[cols..] == content[start + cols..];
      assert FitCells(content[start..start + cols], cols) == rest[..cols];
    } else {
      assert content[start..|content|] == rest;
    }
  }

  /** One logical line reflowed, and the cursor's row in it. */
  method ReflowOne(line: seq<Row>, oldCols: nat, newCols: nat, at: Option<nat>, col: nat)
    returns (out: seq<Row>, cursor: Option<nat>)
    requires line != [] && newCols >= 1 && (at.Some? ==> at.value < |line|)
    ensures out == ReflowLine(line, newCols)
    ensures cursor == if at.None? then None else Some(LineCursor(line, oldCols, newCols, at.value, col))
  {
    hide Wrapped, Joined, ContentLen;
    if |line| == 1 {
      out := [FitRow(line[0], newCols)];
      return out, if at.Some? then Some(0) else None;
    }
    var offset := if at.Some? then Some(at.value * oldCols + col) else None;
    var cells := JoinRows(line);
    var contentLen := TrimmedLen(cells);
    if contentLen == 0 {
      out := [BlankRow(newCols)];
      NothingWrapped(newCols);
      assert Content(line) == [];
      cursor := if at.Some? then Some(0) else None;
    } else {
      out, cursor := WrapCells(cells, contentLen, newCols, offset);
      WrappedShape(Content(line), newCols, true);
      if at.Some? {
        LastOrInside(offset.value, |out|, newCols);
        if cursor.None? {
          cursor := Some(|out| - 1);
        }
      }
    }
  }

  lemma NothingWrapped(cols: nat)
    requires cols >= 1
    ensures Wrapped([], cols, true) == [BlankRow(cols)]
  {
    assert FitCells([], cols) == Fill(cols, BLANK);
  }

  lemma LastOrInside(off: nat, n: nat, cols: nat)
    requires cols >= 1 && n >= 1
    ensures off < n * cols ==> off / cols <= n - 1
    ensures off >= n * cols ==> off / cols >= n
  {
    var q := off / cols;
    assert off == q * cols + off % cols;
    assert (q + 1) * cols == q * cols + cols;
    if q < n {
      TimesMonotone(q + 1, n, cols);
    } else {
      TimesMonotone(n, q, cols);
    }
  }

  /** The end of the logical line that starts at `start`. */
  method FindLineEnd(rows: seq<Row>, start: nat) returns (i: nat)
    requires start < |rows|
    ensures start < i <= |rows| && i == start + LineEnd(rows[start..])
  {
    i := start + 1;
    while i < |rows| && rows[i].continuation
      invariant start < i <= |rows| && forall k :: start < k < i ==> rows[k].continuation
    {
      i := i + 1;
    }
    LineEndIs(rows[start..], i - start);
  }

  /** Line by line: the result is the reflow of all the rows, and the cursor is tracked. */
  method ReflowLines(rows: seq<Row>, oldCols: nat, newCols: nat, cursorAbsRow: Option<nat>, cursorCol: nat)
    returns (result: seq<Row>, newCursorRow: Option<nat>)
    requires newCols >= 1
    ensures result == Reflowed(rows, newCols)
    ensures newCursorRow == CursorAfter(rows, oldCols, newCols, cursorAbsRow, cursorCol)
  {
    hide Reflowed, CursorRow, ReflowLine, LineCursor, LineEnd;
    result, newCursorRow := [], None;
    var i := 0;
    assert rows[0..] == rows;
    while i < |rows|
      invariant 0 <= i <= |rows|
      invariant result + Reflowed(rows[i..], newCols) == Reflowed(rows, newCols)
      invariant cursorAbsRow.None? || cursorAbsRow.value >= |rows| ==> newCursorRow.None?
      invariant cursorAbsRow.Some? && cursorAbsRow.value < |rows| ==>
                  var final := CursorRow(rows, oldCols, newCols, cursorAbsRow.value, cursorCol);
                  if cursorAbsRow.value < i then newCursorRow == Some(final)
                  else newCursorRow.None?
                       && final == |result| + CursorRow(rows[i..], oldCols, newCols, cursorAbsRow.value - i, cursorCol)
    {
      var start := i;
      i := FindLineEnd(rows, start);
      var here := if cursorAbsRow.Some? && start <= cursorAbsRow.value < i then Some(cursorAbsRow.value - start)
          else None;
      OneLine(rows, start, newCols);
      if cursorAbsRow.Some? && start <= cursorAbsRow.value < |rows| {
        OneLineCursor(rows, start, oldCols, newCols, cursorAbsRow.value, cursorCol);
      }
      var out, cursor := ReflowOne(rows[start..i], oldCols, newCols, here, cursorCol);
      if cursor.Some? {
        newCursorRow := Some(|result| + cursor.value);
      }
      assert result + (out + Reflowed(rows[i..], newCols)) == result + out + Reflowed(rows[i..], newCols);
      result := result + out;
    }
    assert rows[|rows|..] == [];
    NoRows(newCols);
  }

  lemma NoRows(cols: nat)
    requires cols >= 1
    ensures Reflowed([], cols) == []
  {
  }

  lemma OneLine(rows: seq<Row>, start: nat, newCols: nat)
    requires start < |rows| && newCols >= 1
    ensures var e := start + LineEnd(rows[start..]);
            Reflowed(rows[start..], newCols) == ReflowLine(rows[start..e], newCols) + Reflowed(rows[e..], newCols)
  {
    hide ReflowLine, LineEnd;
    var e := start + LineEnd(rows[start..]);
    assert rows[start..][..e - start] == rows[start..e] && rows[start..][e - start..] == rows[e..];
  }

  lemma OneLineCursor(rows: seq<Row>, start: nat, oldCols: nat, newCols: nat, at: nat, col: nat)
    requires start <= at < |rows| && newCols >= 1
    ensures var e := start + LineEnd(rows[start..]);
            CursorRow(rows[start..], oldCols, newCols, at - start, col)
            == if at < e then LineCursor(rows[start..e], oldCols, newCols, at - start, col)
               else |ReflowLine(rows[start..e], newCols)| + CursorRow(rows[e..], oldCols, newCols, at - e, col)
  {
    hide ReflowLine, LineCursor, LineEnd;
    var e := start + LineEnd(rows[start..]);
    assert rows[start..][..e - start] == rows[start..e] && rows[start..][e - start..] == rows[e..];
  }
}
