/** Resizing a grid: what becomes of the rows, the scrollback and the cursor. */
module GridResize {
  import opened Options
  import opened Cells
  import opened GridValues
  import opened Reflow
  import opened ReflowCursor

  function Reversed<T>(s: seq<T>): (r: seq<T>)
    ensures |r| == |s| && forall i :: 0 <= i < |s| ==> r[i] == s[|s| - 1 - i]
  {
    seq(|s|, i requires 0 <= i < |s| => s[|s| - 1 - i])
  }

  /** All rows, oldest first. */
  function History(g: GridV): seq<Row> {
    g.scrollback + g.lines
  }

  // ----- Columns -----

  /** After a change of width the last `newRows` reflowed rows are the viewport. */
  function WithColumns(g: GridV, newCols: nat, newRows: nat): GridV
    requires newCols != g.cols ==> newCols >= 1
  {
    if newCols == g.cols then g
    else
      var all := Reflowed(History(g), newCols);
      var n := |all| - Min(|all|, newRows);
      g.(cols := newCols, lines := all[n..], scrollback := Recent(all[..n], g.limit))
  }

  /** How far the row of a cursor at (`row`, `col`) of the viewport moves. */
  function ColumnDelta(g: GridV, newCols: nat, newRows: nat, cursor: Option<(nat, nat)>): int
    requires newCols != g.cols ==> newCols >= 1
  {
    if newCols == g.cols || cursor.None? then 0
    else
      var n := CursorAfter(History(g), g.cols, newCols, Some(|g.scrollback| + cursor.value.0), cursor.value.1);
      if n.None? then 0 else SatSub(n.value, SatSub(|Reflowed(History(g), newCols)|, newRows)) - cursor.value.0
  }

  // ----- Rows -----

  function TrailingBlank(lines: seq<Row>): (n: nat)
    ensures n <= |lines|
    ensures forall i :: |lines| - n <= i < |lines| ==> IsTextBlank(lines[i])
    ensures n < |lines| ==> !IsTextBlank(lines[|lines| - n - 1])
  {
    if lines == [] || !IsTextBlank(lines[|lines| - 1]) then 0 else 1 + TrailingBlank(lines[..|lines| - 1])
  }

  /** How many rows a shrinking viewport drops at the bottom; the others go up. */
  function Dropped(lines: seq<Row>, newRows: nat): nat
    requires newRows <= |lines|
  {
    Min(TrailingBlank(lines), |lines| - newRows)
  }

  function Pushed(lines: seq<Row>, newRows: nat): nat
    requires newRows <= |lines|
  {
    |lines| - newRows - Dropped(lines, newRows)
  }

  function Recovered(g: GridV, newRows: nat): (n: nat)
    ensures n <= |g.scrollback|
  {
    Min(SatSub(newRows, |g.lines|), |g.scrollback|)
  }

  /** Rows recovered from the scrollback come back newest first. */
  function WithRows(g: GridV, newRows: nat): (r: GridV)
    ensures |r.lines| == newRows
  {
    if newRows >= |g.lines| then
      var n, have := Recovered(g, newRows), |g.scrollback|;
      g.(rows := newRows, scrollback := g.scrollback[..have - n],
         lines := Reversed(g.scrollback[have - n..]) + g.lines + Fill(newRows - |g.lines| - n, BlankRow(g.cols)))
    else
      var up, down := Pushed(g.lines, newRows), Dropped(g.lines, newRows);
      g.(rows := newRows, scrollback := Recent(g.scrollback + g.lines[..up], g.limit),
         lines := g.lines[up..|g.lines| - down])
  }

  function RowDelta(g: GridV, newRows: nat): int {
    if newRows >= |g.lines| then Recovered(g, newRows) else 0 - Pushed(g.lines, newRows)
  }

  function Resized(g: GridV, newCols: nat, newRows: nat): GridV
    requires newCols != g.cols ==> newCols >= 1
  {
    WithRows(WithColumns(g, newCols, newRows), newRows)
  }

  function CursorDelta(g: GridV, newCols: nat, newRows: nat, cursor: Option<(nat, nat)>): int
    requires newCols != g.cols ==> newCols >= 1
  {
    ColumnDelta(g, newCols, newRows, cursor) + RowDelta(WithColumns(g, newCols, newRows), newRows)
  }

  // ----- Shape -----

  lemma ColumnsWide(g: GridV, newCols: nat, newRows: nat)
    requires g.Valid() && (newCols != g.cols ==> newCols >= 1)
    ensures var r := WithColumns(g, newCols, newRows);
            AllWide(r.lines, newCols) && AllWide(r.scrollback, newCols) && |r.scrollback| <= r.limit
              && r.cols == newCols
  {
    hide Reflowed;
    if newCols != g.cols {
      ReflowedWide(History(g), newCols);
    }
  }

  lemma RowsWide(g: GridV, newRows: nat)
    requires AllWide(g.lines, g.cols) && AllWide(g.scrollback, g.cols) && |g.scrollback| <= g.limit
    ensures WithRows(g, newRows).Valid()
  {
    hide TrailingBlank;
  }

  /** The result has exactly the new shape, and stays within the scrollback limit. */
  lemma ResizedShape(g: GridV, newCols: nat, newRows: nat)
    requires g.Valid() && (newCols != g.cols ==> newCols >= 1)
    ensures var r := Resized(g, newCols, newRows);
            r.Valid() && r.cols == newCols && r.rows == newRows && r.limit == g.limit
  {
    hide WithColumns, WithRows;
    ColumnsWide(g, newCols, newRows);
    RowsWide(WithColumns(g, newCols, newRows), newRows);
    assert WithRows(WithColumns(g, newCols, newRows), newRows).Valid();
    ShapeOf(g, newCols, newRows);
  }

  lemma ShapeOf(g: GridV, newCols: nat, newRows: nat)
    requires newCols != g.cols ==> newCols >= 1
    ensures var r := Resized(g, newCols, newRows); r.cols == newCols && r.rows == newRows && r.limit == g.limit
  {
    hide Reflowed;
  }

  lemma SameSizeIsNothing(g: GridV)
    requires g.Valid()
    ensures Resized(g, g.cols, g.rows) == g
  {
    assert g.scrollback[|g.scrollback|..] == [];
    assert Reversed(g.scrollback[|g.scrollback|..]) + g.lines + Fill(0, BlankRow(g.cols)) == g.lines;
  }

  // ----- History -----

  /** A change of width: the history is the newest part of the reflowed history, blank rows
      after it if it does not fill the viewport; only what is beyond the limit is lost. */
  lemma ColumnChangeKeepsHistory(g: GridV, newCols: nat, newRows: nat) returns (lost: nat)
    requires g.Valid() && newCols != g.cols && newCols >= 1
    ensures var all, r := Reflowed(History(g), newCols), Resized(g, newCols, newRows);
            var padded := all + Fill(SatSub(newRows, |all|), BlankRow(newCols));
            && lost <= |padded| && History(r) == padded[lost..]
            && (lost > 0 ==> |r.scrollback| == r.limit)
  {
    hide Reflowed, AllWide, Resized, Recent;
    var all := Reflowed(History(g), newCols);
    var n := SatSub(|all|, newRows);
    lost := SatSub(n, g.limit);
    ColumnParts(g, newCols, newRows);
    RecentPart(all, n, g.limit);
    PaddedPart(Recent(all[..n], g.limit), all, n, lost, Fill(SatSub(newRows, |all|), BlankRow(newCols)));
  }

  /** With the width the height needs nothing but blank rows. */
  lemma ColumnParts(g: GridV, newCols: nat, newRows: nat)
    requires newCols != g.cols && newCols >= 1
    ensures var all, r := Reflowed(History(g), newCols), Resized(g, newCols, newRows);
            && r.scrollback == Recent(all[..SatSub(|all|, newRows)], g.limit)
            && r.lines == all[SatSub(|all|, newRows)..] + Fill(SatSub(newRows, |all|), BlankRow(newCols))
            && r.limit == g.limit
    ensures RowDelta(WithColumns(g, newCols, newRows), newRows) == 0
  {
    hide Reflowed, WithRows, Recent, RowDelta;
    var all, c := Reflowed(History(g), newCols), WithColumns(g, newCols, newRows);
    if |all| < newRows {
      NothingRecent(all, g.limit);
    }
    RowsFilled(c, newRows);
  }

  lemma NothingRecent<T>(all: seq<T>, limit: nat)
    ensures Recent(all[..0], limit) == []
  {
  }

  lemma RowsFilled(c: GridV, newRows: nat)
    requires |c.lines| <= newRows && (|c.lines| < newRows ==> c.scrollback == [])
    ensures WithRows(c, newRows) == c.(rows := newRows, lines := c.lines + Fill(newRows - |c.lines|, BlankRow(c.cols)))
    ensures RowDelta(c, newRows) == 0
  {
    hide Reversed, IsTextBlank, TrailingBlank, Pushed, Dropped, Recent;
    assert Recovered(c, newRows) == 0;
    assert c.scrollback[|c.scrollback|..] == [] && c.scrollback[..|c.scrollback|] == c.scrollback;
    NothingReversed<Row>();
    assert [] + c.lines == c.lines;
  }

  lemma NothingReversed<T>()
    ensures Reversed<T>([]) == []
  {
  }

  lemma PaddedPart<T>(sb: seq<T>, all: seq<T>, n: nat, lost: nat, pad: seq<T>)
    requires lost <= n <= |all| && sb + all[n..] == all[lost..]
    ensures sb + (all[n..] + pad) == (all + pad)[lost..]
  {
    assert sb + (all[n..] + pad) == sb + all[n..] + pad;
  }

  lemma RecentPart<T>(all: seq<T>, n: nat, limit: nat)
    requires n <= |all|
    ensures Recent(all[..n], limit) + all[n..] == all[SatSub(n, limit)..]
    ensures SatSub(n, limit) > 0 ==> |Recent(all[..n], limit)| == limit
  {
  }

  /** A lower viewport: only blank rows at the bottom, and rows beyond the limit, are lost;
      the rows that stay end in one that is not blank if any row went up. */
  lemma ShrinkingConserves(g: GridV, newRows: nat) returns (lost: nat)
    requires g.Valid() && newRows < g.rows
    ensures var r := Resized(g, g.cols, newRows);
            var kept := |History(g)| - Dropped(g.lines, newRows);
            && lost <= kept && History(r) == History(g)[lost..kept]
            && (lost > 0 ==> |r.scrollback| == g.limit)
            && (forall i :: kept <= i < |History(g)| ==> IsTextBlank(History(g)[i]))
            && (Pushed(g.lines, newRows) > 0 && newRows > 0 ==> !IsTextBlank(r.lines[newRows - 1]))
  {
    hide TrailingBlank, AllWide, IsTextBlank, Recent;
    var up, down, h := Pushed(g.lines, newRows), Dropped(g.lines, newRows), History(g);
    lost := SatSub(|g.scrollback| + up, g.limit);
    ShrinkParts(g.scrollback, g.lines, up, down, g.limit);
    forall i | |h| - down <= i < |h|
      ensures IsTextBlank(h[i])
    {
      assert h[i] == g.lines[i - |g.scrollback|];
    }
  }

  lemma ShrinkParts<T>(above: seq<T>, lines: seq<T>, up: nat, down: nat, limit: nat)
    requires up + down <= |lines|
    ensures SatSub(|above| + up, limit) <= |above + lines| - down
    ensures Recent(above + lines[..up], limit) + lines[up..|lines| - down]
      == (above + lines)[SatSub(|above| + up, limit)..|above + lines| - down]
    ensures SatSub(|above| + up, limit) > 0 ==> |Recent(above + lines[..up], limit)| == limit
  {
    var all := (above + lines)[..|above + lines| - down];
    var n := |above| + up;
    assert all[..n] == above + lines[..up];
    assert all[n..] == lines[up..|lines| - down];
    RecentPart(all, n, limit);
    assert all[SatSub(n, limit)..] == (above + lines)[SatSub(n, limit)..|above + lines| - down];
  }

  lemma ReversedKeepsRows<T>(s: seq<T>)
    ensures multiset(Reversed(s)) == multiset(s)
    decreases |s|
  {
    if s != [] {
      var n := |s| - 1;
      ReversedKeepsRows(s[..n]);
      assert Reversed(s) == [s[n]] + Reversed(s[..n]);
      assert s == s[..n] + [s[n]];
    } else {
      assert Reversed(s) == s;
    }
  }

  /** The rows a higher viewport takes back from the scrollback. */
  function Tail(g: GridV, newRows: nat): seq<Row> {
    g.scrollback[|g.scrollback| - Recovered(g, newRows)..]
  }

  function Added(g: GridV, newRows: nat): nat
    requires newRows >= |g.lines|
  {
    newRows - |g.lines| - Recovered(g, newRows)
  }

  lemma GrownHistory(g: GridV, newRows: nat)
    requires g.Valid() && newRows >= g.rows
    ensures var rest, r := g.scrollback[..|g.scrollback| - Recovered(g, newRows)], Resized(g, g.cols, newRows);
            && History(g) == rest + Tail(g, newRows) + g.lines
            && History(r) == rest + Reversed(Tail(g, newRows)) + g.lines + Fill(Added(g, newRows), BlankRow(g.cols))
            && (Added(g, newRows) > 0 ==> r.scrollback == [])
  {
    hide AllWide, Reversed;
    var n := Recovered(g, newRows);
    var rest := g.scrollback[..|g.scrollback| - n];
    assert g.scrollback == rest + Tail(g, newRows);
    assert rest + (Reversed(Tail(g, newRows)) + g.lines + Fill(Added(g, newRows), BlankRow(g.cols)))
      == rest + Reversed(Tail(g, newRows)) + g.lines + Fill(Added(g, newRows), BlankRow(g.cols));
  }

  /** A higher viewport loses no row: blank rows are added only when the scrollback is used up. */
  lemma GrowingConserves(g: GridV, newRows: nat)
    requires g.Valid() && newRows >= g.rows
    ensures var r := Resized(g, g.cols, newRows);
            && multiset(History(r)) == multiset(History(g)) + multiset(Fill(Added(g, newRows), BlankRow(g.cols)))
            && (Added(g, newRows) > 0 ==> r.scrollback == [])
  {
    hide Reversed, Recovered, Tail, Resized, History, Added;
    GrownHistory(g, newRows);
    ReversedKeepsRows(Tail(g, newRows));
  }

  lemma OrderOf<T>(a: seq<T>, b: seq<T>, c: seq<T>, d: seq<T>)
    ensures a + Reversed(b) + c + d == a + b + c + d <==> forall i :: 0 <= i < |b| ==> b[i] == b[|b| - 1 - i]
  {
    var x, y := a + Reversed(b) + c + d, a + b + c + d;
    if forall i :: 0 <= i < |b| ==> b[i] == b[|b| - 1 - i] {
      assert Reversed(b) == b;
    }
    if x == y {
      forall i | 0 <= i < |b|
        ensures b[i] == b[|b| - 1 - i]
      {
        assert x[|a| + i] == Reversed(b)[i];
        assert y[|a| + i] == b[i];
      }
    }
  }

  /** The order of the rows survives exactly when the recovered ones read the same both ways. */
  lemma GrowingKeepsOrder(g: GridV, newRows: nat)
    requires g.Valid() && newRows >= g.rows
    ensures var t := Tail(g, newRows);
            History(Resized(g, g.cols, newRows)) == History(g) + Fill(Added(g, newRows), BlankRow(g.cols))
            <==> forall i :: 0 <= i < |t| ==> t[i] == t[|t| - 1 - i]
  {
    hide Reversed, Recovered, Tail, Resized, History, Added;
    GrownHistory(g, newRows);
    OrderOf(g.scrollback[..|g.scrollback| - Recovered(g, newRows)], Tail(g, newRows), g.lines,
            Fill(Added(g, newRows), BlankRow(g.cols)));
  }

  lemma GrowingByOneKeepsOrder(g: GridV, newRows: nat)
    requires g.Valid() && newRows >= g.rows && (newRows <= g.rows + 1 || |g.scrollback| <= 1)
    ensures History(Resized(g, g.cols, newRows)) == History(g) + Fill(Added(g, newRows), BlankRow(g.cols))
  {
    hide Resized, History, Added, Reversed;
    GrowingKeepsOrder(g, newRows);
  }

  /** Two different rows recovered at once change places. */
  lemma GrowingByTwoReorders(a: Row, b: Row, line: Row)
    requires |a.cells| == |b.cells| == |line.cells| && a != b
    ensures var g := GridV(|line.cells|, 1, [line], [a, b], DEFAULT_SCROLLBACK_LIMIT);
            g.Valid() && Resized(g, g.cols, 3).lines == [b, a, line] && Resized(g, g.cols, 3).scrollback == []
  {
    var g := GridV(|line.cells|, 1, [line], [a, b], DEFAULT_SCROLLBACK_LIMIT);
    assert g.scrollback[0..] == [a, b] && Reversed([a, b]) == [b, a];
    assert WithRows(g, 3).lines == [b, a] + [line] + Fill(0, BlankRow(g.cols));
  }

  // ----- The cursor -----

  /** A change of height moves the cursor with its row, unless that row is dropped or leaves. */
  lemma CursorFollowsRows(g: GridV, newRows: nat, row: nat)
    requires g.Valid() && row < g.rows
    ensures var n := row + RowDelta(g, newRows);
            0 <= n < newRows ==> Resized(g, g.cols, newRows).lines[n] == g.lines[row]
    ensures newRows >= g.rows ==> 0 <= row + RowDelta(g, newRows) < newRows
    ensures newRows < g.rows ==>
              (row + RowDelta(g, newRows) < 0 <==> row < Pushed(g.lines, newRows))
              && (row + RowDelta(g, newRows) >= newRows <==> row >= g.rows - Dropped(g.lines, newRows))
  {
    hide TrailingBlank, AllWide;
    var n := row + RowDelta(g, newRows);
    if newRows >= g.rows {
      assert Resized(g, g.cols, newRows).lines[n] == g.lines[row];
    } else if 0 <= n < newRows {
      assert Resized(g, g.cols, newRows).lines[n] == g.lines[Pushed(g.lines, newRows) + n];
    }
  }

  /** Row `n` of the viewport is row `to` of all rows, or the top one if that is above it. */
  ghost predicate LandsOn(all: seq<Row>, to: nat, above: nat, lines: seq<Row>, n: int) {
    && 0 <= n < |lines| && to < |all|
    && (if to >= above then n == to - above && lines[n] == all[to] else n == 0)
  }

  /** A change of width moves the cursor to the row that keeps its cell, or to the top row
      when that one is above the viewport. */
  lemma CursorFollowsColumns(g: GridV, newCols: nat, newRows: nat, row: nat, col: nat)
    requires g.Valid() && newCols != g.cols && newCols >= 1 && newRows >= 1 && row < g.rows && col < g.cols
    ensures var all, at := Reflowed(History(g), newCols), |g.scrollback| + row;
            var r, n := Resized(g, newCols, newRows), row + CursorDelta(g, newCols, newRows, Some((row, col)));
            var to, above := CursorRow(History(g), g.cols, newCols, at, col), SatSub(|all|, newRows);
            && CursorKept(History(g), g.cols, newCols, at, col, all, to)
            && LandsOn(all, to, above, r.lines, n)
  {
    hide Reflowed, AllWide, CursorRow, CursorKept, Resized, WithColumns, RowDelta, Recent;
    var all, at := Reflowed(History(g), newCols), |g.scrollback| + row;
    var to := CursorRow(History(g), g.cols, newCols, at, col);
    HistoryWide(g);
    CursorSurvives(History(g), g.cols, newCols, at, col);
    KeptIsInside(History(g), g.cols, newCols, at, col, all, to);
    ColumnParts(g, newCols, newRows);
  }

  lemma HistoryWide(g: GridV)
    requires g.Valid()
    ensures AllWide(History(g), g.cols)
  {
  }

  lemma KeptIsInside(rows: seq<Row>, oldCols: nat, newCols: nat, at: nat, col: nat, after: seq<Row>, n: nat)
    requires at < |rows| && newCols >= 1 && CursorKept(rows, oldCols, newCols, at, col, after, n)
    ensures n < |after|
  {
  }
}
