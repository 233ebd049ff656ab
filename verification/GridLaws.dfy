/** What grid operations keep, undo and leave alone. */
module GridLaws {
  import opened Options
  import opened Cells
  import opened GridValues
  import opened GridResize

  /** Scrolling the whole screen up only moves the window: the history grows by blank rows
      at its end, and loses rows at its front only at the scrollback limit. */
  lemma ScrollingConservesHistory(g: GridV, count: nat) returns (lost: nat)
    requires g.Valid()
    ensures var r, all := ScrolledUp(g, 0, g.rows, count), History(g) + Fill(Min(count, g.rows), BlankRow(g.cols));
            && lost == SatSub(|g.scrollback| + Min(count, g.rows), g.limit) <= |all| && History(r) == all[lost..]
            && (lost > 0 ==> |r.scrollback| == g.limit)
  {
    hide AllWide;
    var n := Min(count, g.rows);
    var all := History(g) + Fill(n, BlankRow(g.cols));
    lost := SatSub(|g.scrollback| + n, g.limit);
    if g.rows == 0 {
      assert all == History(g);
      assert all[0..] == all;
    } else {
      assert g.scrollback + g.lines[..n] == all[..|g.scrollback| + n];
      RecentPart(all, |g.scrollback| + n, g.limit);
      assert ShiftLeft(g.lines, 0, g.rows, n, BlankRow(g.cols)) == all[|g.scrollback| + n..];
    }
  }

  /** Shifting right and back restores all but the last `n` places. */
  lemma ShiftBack<T>(s: seq<T>, a: nat, b: nat, n: nat, x: T)
    requires a + n <= b <= |s|
    ensures ShiftLeft(ShiftRight(s, a, b, n, x), a, b, n, x) == s[..b - n] + Fill(n, x) + s[b..]
  {
    var r := ShiftRight(s, a, b, n, x);
    assert r[..a] == s[..a];
    assert r[a + n..b] == s[a..b - n];
    assert r[b..] == s[b..];
    assert s[..a] + s[a..b - n] == s[..b - n];
  }

  /** DL undoes IL, but for the lines pushed out of the region. */
  lemma DeletingUndoesInserting(g: GridV, row: nat, count: nat, top: nat, bottom: nat)
    requires g.Valid() && top <= row < bottom <= g.rows
    ensures var n := Min(count, bottom - row);
            LinesDeleted(LinesInserted(g, row, count, top, bottom), row, count, top, bottom)
            == g.(lines := g.lines[..bottom - n] + Fill(n, BlankRow(g.cols)) + g.lines[bottom..])
  {
    hide ShiftLeft, ShiftRight, AllWide;
    ShiftBack(g.lines, row, bottom, Min(count, bottom - row), BlankRow(g.cols));
  }

  /** DCH undoes ICH, but for the cells pushed past the bound. */
  lemma DeletingCellsUndoesInserting(g: GridV, row: nat, col: nat, count: nat, right: nat)
    requires g.Valid() && row < g.rows && col < right <= g.cols
    ensures var n, cells := Min(count, right - col), g.lines[row].cells;
            CellsDeleted(CellsInserted(g, row, col, count, right), row, col, count, right).lines[row].cells
            == cells[..right - n] + Fill(n, BLANK) + cells[right..]
  {
    hide ShiftLeft, ShiftRight;
    ShiftBack(g.lines[row].cells, col, right, Min(count, right - col), BLANK);
  }

  /** Cell by cell: a rectangle scrolled up, and nothing outside it. */
  lemma RegionUpAt(g: GridV, top: nat, bottom: nat, left: nat, right: nat, count: nat, i: nat, c: nat)
    requires g.Valid() && top < bottom <= g.rows && left < right && i < g.rows && c < g.cols
    ensures var r, n := RegionUp(g, top, bottom, left, right, count), Min(count, bottom - top);
            && r.lines[i].continuation == g.lines[i].continuation
            && r.lines[i].cells[c] == if !(top <= i < bottom && left <= c < right) then g.lines[i].cells[c]
                                      else if i + n < bottom then g.lines[i + n].cells[c] else BLANK
  {
  }

  lemma RegionDownAt(g: GridV, top: nat, bottom: nat, left: nat, right: nat, count: nat, i: nat, c: nat)
    requires g.Valid() && top < bottom <= g.rows && left < right && i < g.rows && c < g.cols
    ensures var r, n := RegionDown(g, top, bottom, left, right, count), Min(count, bottom - top);
            && r.lines[i].continuation == g.lines[i].continuation
            && r.lines[i].cells[c] == if !(top <= i < bottom && left <= c < right) then g.lines[i].cells[c]
                                      else if i >= top + n then g.lines[i - n].cells[c] else BLANK
  {
  }
}
