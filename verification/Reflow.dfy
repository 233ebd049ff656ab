/** Reflow: rows are joined into logical lines, trimmed, and split at a new width. */
module Reflow {
  import opened Options
  import opened Utf8
  import opened Cells

  // ----- Logical lines -----

  /** Where the first logical line ends: at the next row that continues nothing. */
  function LineEnd(rows: seq<Row>): (e: nat)
    requires rows != []
    ensures 1 <= e <= |rows|
    ensures forall k :: 1 <= k < e ==> rows[k].continuation
    ensures e < |rows| ==> !rows[e].continuation
  {
    if |rows| == 1 || !rows[1].continuation then 1
    else
      var e := 1 + LineEnd(rows[1..]);
      assert forall k :: 2 <= k < e ==> rows[k] == rows[1..][k - 1];
      e
  }

  function LogicalLines(rows: seq<Row>): seq<seq<Row>>
    decreases |rows|
  {
    if rows == [] then [] else [rows[..LineEnd(rows)]] + LogicalLines(rows[LineEnd(rows)..])
  }

  /** The cells of a line in one sequence. */
  function Joined(line: seq<Row>): seq<Cell> {
    if line == [] then [] else line[0].cells + Joined(line[1..])
  }

  /** The length without trailing default cells. */
  function ContentLen(cells: seq<Cell>): (n: nat)
    ensures n <= |cells|
    ensures n > 0 ==> cells[n - 1] != BLANK
    ensures forall i :: n <= i < |cells| ==> cells[i] == BLANK
  {
    if cells != [] && cells[|cells| - 1] == BLANK then ContentLen(cells[..|cells| - 1]) else |cells|
  }

  function Trim(cells: seq<Cell>): seq<Cell> {
    cells[..ContentLen(cells)]
  }

  function Content(line: seq<Row>): seq<Cell> {
    Trim(Joined(line))
  }

  /** A line split at `cols`, its last row padded; every row but the first continues. */
  function Wrapped(cells: seq<Cell>, cols: nat, first: bool): seq<Row>
    requires cols >= 1
    decreases |cells|
  {
    if |cells| <= cols then [Row(FitCells(cells, cols), !first)]
    else [Row(cells[..cols], !first)] + Wrapped(cells[cols..], cols, false)
  }

  /** One row is cut or padded; more are joined, trimmed and split anew. */
  function ReflowLine(line: seq<Row>, cols: nat): (r: seq<Row>)
    requires line != [] && cols >= 1
  {
    if |line| == 1 then [FitRow(line[0], cols)] else Wrapped(Content(line), cols, true)
  }

  function Reflowed(rows: seq<Row>, cols: nat): seq<Row>
    requires cols >= 1
    decreases |rows|
  {
    if rows == [] then []
    else ReflowLine(rows[..LineEnd(rows)], cols) + Reflowed(rows[LineEnd(rows)..], cols)
  }

  // ----- Trimming -----

  lemma ContentLenIs(cells: seq<Cell>, n: nat)
    requires n <= |cells| && (n > 0 ==> cells[n - 1] != BLANK)
    requires forall i :: n <= i < |cells| ==> cells[i] == BLANK
    ensures ContentLen(cells) == n && Trim(cells) == cells[..n]
  {
  }

  /** Fitting to a width keeps the content exactly when the content fits. */
  lemma FittingKeepsContent(cells: seq<Cell>, cols: nat)
    ensures Trim(FitCells(cells, cols)) == Trim(cells) <==> ContentLen(cells) <= cols
  {
    var n, fitted := ContentLen(cells), FitCells(cells, cols);
    if n <= cols {
      ContentLenIs(fitted, n);
      assert fitted[..n] == cells[..n];
    } else {
      assert |Trim(fitted)| <= cols < |Trim(cells)|;
    }
  }

  lemma TrimTwice(cells: seq<Cell>)
    ensures ContentLen(Trim(cells)) == |Trim(cells)| && Trim(Trim(cells)) == Trim(cells)
  {
    ContentLenIs(Trim(cells), |Trim(cells)|);
  }

  // ----- One line -----

  lemma JoinedSingle(row: Row)
    ensures Joined([row]) == row.cells
  {
    assert [row][1..] == [];
    assert row.cells + [] == row.cells;
  }

  /** The shape of a split line: its rows, their flags, and its cells with blanks after them. */
  lemma {:induction false} WrappedShape(cells: seq<Cell>, cols: nat, first: bool)
    requires cols >= 1
    ensures var r := Wrapped(cells, cols, first);
            && r != [] && AllWide(r, cols)
            && r[0].continuation == !first && (forall k :: 1 <= k < |r| ==> r[k].continuation)
            && (|r| == 1 <==> |cells| <= cols)
    decreases |cells|
  {
    if |cells| > cols {
      WrappedShape(cells[cols..], cols, false);
    }
  }

  lemma {:induction false} WrappedCells(cells: seq<Cell>, cols: nat, first: bool) returns (pad: nat)
    requires cols >= 1
    ensures Joined(Wrapped(cells, cols, first)) == cells + Fill(pad, BLANK)
    decreases |cells|
  {
    if |cells| <= cols {
      pad := cols - |cells|;
      JoinedSingle(Row(FitCells(cells, cols), !first));
      if |cells| == cols {
        assert cells + Fill(0, BLANK) == cells == cells[..cols];
      }
    } else {
      pad := WrappedCells(cells[cols..], cols, false);
      var head, tail := Row(cells[..cols], !first), Wrapped(cells[cols..], cols, false);
      assert ([head] + tail)[1..] == tail;
      assert cells[..cols] + (cells[cols..] + Fill(pad, BLANK)) == cells + Fill(pad, BLANK);
    }
  }

  /** Splitting keeps the content of trimmed cells. */
  lemma WrappedContent(cells: seq<Cell>, cols: nat, first: bool)
    requires cols >= 1 && ContentLen(cells) == |cells|
    ensures Content(Wrapped(cells, cols, first)) == cells
  {
    hide Wrapped, Joined, FitCells;
    var pad := WrappedCells(cells, cols, first);
    ContentLenIs(cells + Fill(pad, BLANK), |cells|);
    assert (cells + Fill(pad, BLANK))[..|cells|] == cells;
  }

  /** A reflowed line: every row is `cols` wide, one row is that row cut or padded, and a
      line of two or more rows keeps its cells up to trailing default cells. */
  lemma LineReflow(line: seq<Row>, cols: nat)
    requires line != [] && cols >= 1
    ensures var r := ReflowLine(line, cols);
            && r != [] && AllWide(r, cols)
            && (r[0].continuation ==> line[0].continuation) && (forall k :: 1 <= k < |r| ==> r[k].continuation)
            && (|line| == 1 ==> r == [Row(FitCells(line[0].cells, cols), line[0].continuation)])
            && (|line| >= 2 ==> Content(r) == Content(line) && (|r| == 1 <==> |Content(line)| <= cols))
  {
    hide Wrapped, Joined, ContentLen;
    if |line| >= 2 {
      TrimTwice(Joined(line));
      WrappedShape(Content(line), cols, true);
      WrappedContent(Content(line), cols, true);
    }
  }

  // ----- All lines -----

  lemma {:induction false} ReflowedFirstFlag(rows: seq<Row>, cols: nat)
    requires cols >= 1 && rows != []
    ensures Reflowed(rows, cols) != [] && (Reflowed(rows, cols)[0].continuation ==> rows[0].continuation)
  {
    hide ReflowLine, LineEnd;
    LineReflow(rows[..LineEnd(rows)], cols);
  }

  /** The lines of a list that begins with one whole line. */
  lemma FirstLine(a: seq<Row>, b: seq<Row>)
    requires a != [] && (forall k :: 1 <= k < |a| ==> a[k].continuation) && (b != [] ==> !b[0].continuation)
    ensures LineEnd(a + b) == |a| && (a + b)[..|a|] == a && (a + b)[|a|..] == b
    ensures LogicalLines(a + b) == [a] + LogicalLines(b)
  {
    hide LogicalLines;
    assert (a + b)[..|a|] == a && (a + b)[|a|..] == b;
    LineEndIs(a + b, |a|);
    LinesUnfold(a + b);
  }

  lemma LinesUnfold(rows: seq<Row>)
    requires rows != []
    ensures LogicalLines(rows) == [rows[..LineEnd(rows)]] + LogicalLines(rows[LineEnd(rows)..])
  {
  }

  lemma LineEndIs(rows: seq<Row>, e: nat)
    requires 1 <= e <= |rows| && (forall k :: 1 <= k < e ==> rows[k].continuation)
    requires e < |rows| ==> !rows[e].continuation
    ensures LineEnd(rows) == e
  {
  }

  /** Reflow keeps the number and order of logical lines, and each becomes its own reflow. */
  lemma {:induction false} ReflowKeepsLines(rows: seq<Row>, cols: nat)
    requires cols >= 1
    ensures var before, after := LogicalLines(rows), LogicalLines(Reflowed(rows, cols));
            |after| == |before|
            && forall i :: 0 <= i < |before| ==> before[i] != [] && after[i] == ReflowLine(before[i], cols)
    decreases |rows|
  {
    hide ReflowLine, LineEnd;
    if rows != [] {
      var e := LineEnd(rows);
      var a, b := ReflowLine(rows[..e], cols), Reflowed(rows[e..], cols);
      LineReflow(rows[..e], cols);
      if e < |rows| {
        ReflowedFirstFlag(rows[e..], cols);
      }
      FirstLine(a, b);
      ReflowKeepsLines(rows[e..], cols);
    }
  }

  lemma {:induction false} ReflowedWide(rows: seq<Row>, cols: nat)
    requires cols >= 1
    ensures AllWide(Reflowed(rows, cols), cols)
    decreases |rows|
  {
    hide ReflowLine, LineEnd;
    if rows != [] {
      LineReflow(rows[..LineEnd(rows)], cols);
      ReflowedWide(rows[LineEnd(rows)..], cols);
    }
  }

  /** Reflow keeps content: for any rows and any width of at least one, the logical lines
      stay in number and order, a line of two or more rows keeps its cells up to trailing
      default cells, a line of one row is that row cut or padded, and every row that
      comes out is exactly as wide as asked. */
  lemma ReflowKeepsContent(rows: seq<Row>, cols: nat, i: nat)
    requires cols >= 1 && i < |LogicalLines(rows)|
    ensures AllWide(Reflowed(rows, cols), cols)
    ensures |LogicalLines(Reflowed(rows, cols))| == |LogicalLines(rows)|
    ensures var before, after := LogicalLines(rows)[i], LogicalLines(Reflowed(rows, cols))[i];
            && before != [] && after != []
            && (|before| >= 2 ==> Content(after) == Content(before))
            && (|before| == 1 ==> after == [FitRow(before[0], cols)])
  {
    hide LogicalLines, Reflowed, ReflowLine, Content;
    ReflowKeepsLines(rows, cols);
    ReflowedWide(rows, cols);
    LineReflow(LogicalLines(rows)[i], cols);
  }

  // ----- There and back -----

  /** Whether a line survives a stay at width `mid` between two at width `cols`. */
  predicate Survives(line: seq<Row>, cols: nat, mid: nat) {
    if |line| == 1 then |Content(line)| <= mid
    else |Content(line)| > mid || |Content(line)| <= cols
  }

  /** One line there and back: the content is the same exactly when a one-row line fits the
      width between, and a longer one either needs two rows there or fits one row here. */
  lemma LineRoundTrip(line: seq<Row>, cols: nat, mid: nat)
    requires line != [] && AllWide(line, cols) && cols >= 1 && mid >= 1
    ensures ReflowLine(line, mid) != []
    ensures Content(ReflowLine(ReflowLine(line, mid), cols)) == Content(line) <==> Survives(line, cols, mid)
  {
    hide Wrapped, FitCells, ContentLen, ReflowLine, Joined;
    var there := ReflowLine(line, mid);
    LineReflow(line, mid);
    LineReflow(there, cols);
    if |there| == 1 {
      assert there == [there[0]];
      var fitted := there[0].cells;
      JoinedSingle(there[0]);
      JoinedSingle(Row(FitCells(fitted, cols), there[0].continuation));
      FittingKeepsContent(fitted, cols);
      if |line| == 1 {
        assert line == [line[0]];
        JoinedSingle(line[0]);
        OneRowRoundTrip(line[0].cells, cols, mid);
      }
    }
  }

  /** Padding and cutting a row back, or cutting and padding it. */
  lemma OneRowRoundTrip(cells: seq<Cell>, cols: nat, mid: nat)
    requires |cells| == cols
    ensures Trim(FitCells(FitCells(cells, mid), cols)) == Trim(cells) <==> ContentLen(cells) <= mid
  {
    FittingKeepsContent(cells, mid);
    FittingKeepsContent(FitCells(cells, mid), cols);
    if mid >= cols {
      assert FitCells(FitCells(cells, mid), cols) == cells;
    }
  }

  /** Reflow round trip: going from width `cols` to `mid` and back gives the same number of
      logical lines, and the `i`-th has its old content exactly when it survives. */
  lemma ReflowRoundTrip(rows: seq<Row>, cols: nat, mid: nat, i: nat)
    requires cols >= 1 && mid >= 1 && AllWide(rows, cols) && i < |LogicalLines(rows)|
    ensures var back := LogicalLines(Reflowed(Reflowed(rows, mid), cols));
            && |back| == |LogicalLines(rows)|
            && (Content(back[i]) == Content(LogicalLines(rows)[i]) <==> Survives(LogicalLines(rows)[i], cols, mid))
  {
    hide LogicalLines, Reflowed, ReflowLine, Content;
    ReflowKeepsLines(rows, mid);
    ReflowKeepsLines(Reflowed(rows, mid), cols);
    LinesAreWide(rows, cols, i);
    LineRoundTrip(LogicalLines(rows)[i], cols, mid);
  }

  lemma {:induction false} LinesAreWide(rows: seq<Row>, cols: nat, i: nat)
    requires AllWide(rows, cols) && i < |LogicalLines(rows)|
    ensures LogicalLines(rows)[i] != [] && AllWide(LogicalLines(rows)[i], cols)
    decreases |rows|
  {
    hide LineEnd;
    var e := LineEnd(rows);
    if i > 0 {
      LinesAreWide(rows[e..], cols, i - 1);
    }
  }
}
