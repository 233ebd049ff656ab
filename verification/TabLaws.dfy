/** What the choices of a tab mean: when a pane can be split, which is nearest, what is on top. */
module TabLaws {
  import opened Options
  import opened Layout
  import opened LayoutEdits
  import opened LayoutTemplates
  import opened Focus
  import opened TabState

  // ----- Splitting -----

  function Extent(r: Rect, direction: SplitDirection): nat {
    if direction == Vertical then r.cols else r.rows
  }

  function LeastExtent(direction: SplitDirection): nat {
    if direction == Vertical then MIN_PANE_COLS else MIN_PANE_ROWS
  }

  /** There is room for two exactly when both halves of the split would have the least size. */
  lemma RoomIsForBoth(r: Rect, direction: SplitDirection)
    ensures var (a, b) := (FirstRect(direction, 0.5, r), SecondRect(direction, 0.5, r));
            HasRoom(r, direction) <==> Extent(a, direction) >= LeastExtent(direction)
                                       && Extent(b, direction) >= LeastExtent(direction)
  {
    var n := Extent(r, direction);
    if n >= 1 {
      HalfIsHalf(n);
    }
  }

  /** Half a size, one more for the first if it is odd. */
  lemma HalfIsHalf(total: nat)
    requires total >= 1
    ensures total >= 2 ==> FirstShare(total, 0.5) == (total + 1) / 2
    ensures total == 1 ==> FirstShare(total, 0.5) == 0
  {
    var x := total as real * 0.5;
    assert x + 0.5 == (total + 1) as real / 2.0;
    HalfFloor(total + 1);
  }

  lemma HalfFloor(n: nat)
    ensures (n as real / 2.0).Floor == n / 2
  {
    var k := n / 2;
    assert n == 2 * k || n == 2 * k + 1;
    assert k as real <= n as real / 2.0 < (k + 1) as real;
  }

  /** The axis along which the largest pane is split is that of its longer side. */
  lemma SplitsLongerSide(r: Rect)
    ensures var along := LongSide(r);
            var across := if along == Vertical then Horizontal else Vertical;
            Extent(r, along) >= Extent(r, across) && (r.cols == r.rows ==> along == Vertical)
  {
  }

  // ----- Nearness -----

  /** A rectangle moved by (`x`, `y`). */
  function Shifted(r: Rect, x: nat, y: nat): Rect {
    r.(col := r.col + x, row := r.row + y)
  }

  /** The distance behind directional focus is a distance: the same both ways, none to itself, never
      longer than by way of a third; and it counts the steps between the centres, twice. */
  lemma NearnessIsADistance(a: Rect, b: Rect, c: Rect, x: nat, y: nat)
    ensures Distance(a, b) == Distance(b, a) && Distance(a, a) == 0
    ensures Distance(a, c) <= Distance(a, b) + Distance(b, c)
    ensures Distance(a, Shifted(a, x, y)) == 2 * x + 2 * y
    ensures Distance(Shifted(a, x, y), Shifted(b, x, y)) == Distance(a, b)
    ensures a.cols == b.cols + 2 * x && b.col == a.col + x && a.rows == b.rows + 2 * y && b.row == a.row + y ==>
              Distance(a, b) == 0
  {
  }

  // ----- The z-order -----

  /** A floating pane leaves its place: the others keep their order, and raised it is on top of them,
      lowered below. */
  lemma LeavesItsPlace(fs: seq<FloatingPane>, id: PaneId)
    returns (below: seq<FloatingPane>, fp: FloatingPane, above: seq<FloatingPane>)
    requires id in FloatIds(fs)
    ensures fp.pane.id == id && fs == below + [fp] + above && id !in FloatIds(below)
    ensures WithoutFloat(fs, id) == below + above
    ensures ToFront(fs, id) == below + above + [fp] && ToBack(fs, id) == [fp] + below + above
  {
    hide FloatIds;
    var i := FloatIndex(fs, id).value;
    below, fp, above := fs[..i], fs[i], fs[i + 1..];
    FirstFloat(fs, id);
  }

  lemma {:induction false} FirstFloat(fs: seq<FloatingPane>, id: PaneId)
    requires id in FloatIds(fs)
    ensures FloatIndex(fs, id).Some? && id !in FloatIds(fs[..FloatIndex(fs, id).value])
  {
    hide FloatIds;
    FloatIdsFirst(fs);
    if fs[0].pane.id == id {
      assert fs[..0] == [];
    } else {
      FirstFloat(fs[1..], id);
      var i := FloatIndex(fs[1..], id).value;
      assert fs[..i + 1] == [fs[0]] + fs[1..][..i];
      FloatIdsPrepend(fs[1..][..i], fs[0]);
    }
  }

  lemma FloatIdsFirst(fs: seq<FloatingPane>)
    ensures FloatIds([]) == []
    ensures fs != [] ==> FloatIds(fs) == [fs[0].pane.id] + FloatIds(fs[1..])
  {
  }

  /** What is not floating changes nothing. */
  lemma StaysInPlace(fs: seq<FloatingPane>, id: PaneId)
    requires id !in FloatIds(fs)
    ensures WithoutFloat(fs, id) == ToFront(fs, id) == ToBack(fs, id) == fs
  {
  }

  // ----- Templates -----

  /** Renaming leaf after leaf moves no rectangle, whatever the names. */
  lemma {:induction false} RenamedRects(t: LayoutNode, paneIds: seq<PaneId>, n: nat, r: Rect)
    requires n <= |PaneIds(t)| && n <= |paneIds|
    ensures var t' := Renamed(t, PaneIds(t), paneIds, n);
            && |PaneIds(t')| == |PaneIds(t)|
            && forall i :: 0 <= i < |PaneIds(t)| ==> Positions(t', r)[i].rect == Positions(t, r)[i].rect
  {
    if n > 0 {
      var ids := PaneIds(t);
      RenamedRects(t, paneIds, n - 1, r);
      var before := Renamed(t, ids, paneIds, n - 1);
      if ids[n - 1] in PaneIds(before) {
        RenameIds(before, ids[n - 1], paneIds[n - 1]);
        RenamePositions(before, ids[n - 1], paneIds[n - 1], r);
      } else {
        ReplaceLeafIsAnEdit(before, ids[n - 1], paneIds[n - 1]);
      }
    }
  }

  /** With as many panes as leaves the tab has exactly the rectangles of the template. */
  lemma TemplateRects(template: LayoutNode, paneIds: seq<PaneId>, r: Rect)
    requires |paneIds| == |PaneIds(template)|
    ensures var t := AppliedTree(template, paneIds);
            && |PaneIds(t)| == |paneIds|
            && forall i :: 0 <= i < |paneIds| ==> Positions(t, r)[i].rect == Positions(template, r)[i].rect
  {
    RenamedRects(template, paneIds, |paneIds|, r);
    AppliedUnpruned(template, paneIds);
  }

  /** A new pane split off the last leaf. */
  lemma LastSplit(t: LayoutNode, last: PaneId, x: PaneId, r: Rect)
    requires PaneIds(t)[|PaneIds(t)| - 1] == last && Distinct(PaneIds(t))
    ensures var (n, t') := (|PaneIds(t)| - 1, SplitNode(t, last, x, Vertical).0);
            && PaneIds(t') == PaneIds(t) + [x]
            && forall i :: 0 <= i < n ==> Positions(t', r)[i] == Positions(t, r)[i]
  {
    hide PaneIds, Positions, SplitNode;
    var (ids, n) := (PaneIds(t), |PaneIds(t)| - 1);
    SplitIds(t, last, x, Vertical);
    FirstIndexUnique(ids, last, n);
    var a, b := SplitIsLocal(t, last, x, Vertical, r);
    assert ids[..n] + [last] == ids;
  }

  /** Extra panes share the rectangle of the last leaf; the others keep theirs. */
  lemma {:induction false} ChainedRects(t: LayoutNode, last: PaneId, extras: seq<PaneId>, r: Rect)
    requires PaneIds(t)[|PaneIds(t)| - 1] == last && Distinct(PaneIds(t) + extras)
    ensures var (n, t') := (|PaneIds(t)| - 1, ChainSplits(t, last, extras));
            && |PaneIds(t')| == n + 1 + |extras|
            && forall i :: 0 <= i < n ==> Positions(t', r)[i] == Positions(t, r)[i]
    decreases |extras|
  {
    hide PaneIds, Positions, SplitNode, Distinct;
    if extras != [] {
      var t' := SplitNode(t, last, extras[0], Vertical).0;
      DistinctParts(PaneIds(t), extras);
      LastSplit(t, last, extras[0], r);
      assert PaneIds(t') + extras[1..] == PaneIds(t) + extras;
      ChainedRects(t', extras[0], extras[1..], r);
    }
  }

  /** With more panes than leaves, apart from the template's own names: all but the last of the
      template's rectangles are as they are in it. */
  lemma TemplateRectsExtended(template: LayoutNode, paneIds: seq<PaneId>, r: Rect)
    requires |paneIds| > |PaneIds(template)| && Distinct(paneIds)
    requires Distinct(PaneIds(template)) && forall x :: x in PaneIds(template) ==> x !in paneIds
    ensures var (n, t) := (|PaneIds(template)| - 1, AppliedTree(template, paneIds));
            && |PaneIds(t)| == |paneIds|
            && forall i :: 0 <= i < n ==> Positions(t, r)[i].rect == Positions(template, r)[i].rect
  {
    hide PaneIds, Positions, Renamed, ChainSplits, Distinct;
    var n := |PaneIds(template)|;
    var t := Renamed(template, PaneIds(template), paneIds, n);
    AppliedUnpruned(template, paneIds);
    RenamedRects(template, paneIds, n, r);
    RenamedInOrder(template, paneIds, n);
    assert PaneIds(template)[n..] == [];
    assert PaneIds(t) == paneIds[..n];
    TakeDrop(paneIds, n);
    ChainedRects(t, paneIds[n - 1], paneIds[n..], r);
  }
}
