/** How much room a split gives each side, and what changing a ratio does to a pane. */
module LayoutShares {
  import opened Options
  import opened Layout
  import opened LayoutEdits
  import opened LayoutEngines

  // ----- One split -----

  /** The nearest whole number to `exact`, halves up, as far as it and the rest are at least one. */
  predicate Nearest(total: nat, exact: real, n: nat) {
    if exact < 1.0 then n == 1
    else if exact > total as real - 1.0 then n == total - 1
    else exact - 0.5 < n as real <= exact + 0.5
  }

  /** So much of the total a ratio gives the first side. */
  lemma ShareIsNearest(total: nat, ratio: real)
    requires total >= 2
    ensures Nearest(total, total as real * ratio, FirstShare(total, ratio))
  {
    var exact := total as real * ratio;
    if exact >= 1.0 {
      RoundedIsNear(exact);
      if exact > (total - 1) as real {
        AtLeast((exact + 0.5).Floor, total - 1, exact + 0.5);
      } else {
        AtMost((exact + 0.5).Floor, total - 1, exact + 0.5);
      }
    } else if exact >= 0.5 {
      AtMost((exact + 0.5).Floor, 1, exact + 0.5);
    }
  }

  lemma RoundedIsNear(x: real)
    requires x >= 0.5
    ensures x - 0.5 < RoundToNat(x) as real <= x + 0.5
  {
  }

  lemma AtLeast(floor: int, n: int, x: real)
    requires floor == x.Floor && x >= n as real
    ensures floor >= n
  {
  }

  lemma AtMost(floor: int, n: int, x: real)
    requires floor == x.Floor && x < n as real + 1.0
    ensures floor <= n
  {
  }

  lemma RoundingGrows(x: real, y: real)
    requires x <= y
    ensures RoundToNat(x) <= RoundToNat(y)
  {
  }

  lemma ProductGrows(total: real, a: real, b: real, x: real, y: real)
    requires total >= 0.0 && a <= b && x == total * a && y == total * b
    ensures x <= y
  {
    assert y - x == total * (b - a);
  }

  lemma ShareOfProduct(total: nat, ratio: real, x: real)
    requires x == total as real * ratio
    ensures FirstShare(total, ratio) == Min(Max(RoundToNat(x), 1), SatSub(total, 1))
  {
    hide RoundToNat;
  }

  /** A larger ratio never gives the first side less. */
  lemma ShareGrowsWithRatio(total: nat, a: real, b: real)
    requires a <= b
    ensures FirstShare(total, a) <= FirstShare(total, b)
  {
    hide RoundToNat, FirstShare;
    var x, y := total as real * a, total as real * b;
    ProductGrows(total as real, a, b, x, y);
    RoundingGrows(x, y);
    ShareOfProduct(total, a, x);
    ShareOfProduct(total, b, y);
  }

  lemma NextProduct(total: nat, ratio: real)
    ensures var (x, y) := (total as real * ratio, (total + 1) as real * ratio);
            && y == x + ratio
            && (ratio <= 0.0 ==> x <= 0.0 && y <= 0.0)
            && (ratio >= 1.0 ==> x >= total as real && y >= total as real + 1.0)
  {
    Distributed(total as real, ratio);
    assert (total + 1) as real == total as real + 1.0;
    if ratio <= 0.0 {
      NotPositive(total, ratio);
    }
    if ratio >= 1.0 {
      AtLeastWhole(total as real, ratio);
    }
  }

  lemma AtLeastWhole(n: real, ratio: real)
    requires n >= 0.0 && ratio >= 1.0
    ensures n * ratio >= n
  {
    assert n * (ratio - 1.0) >= 0.0;
    assert n * ratio == n * (ratio - 1.0) + n;
  }

  lemma Distributed(n: real, ratio: real)
    ensures (n + 1.0) * ratio == n * ratio + ratio
  {
  }

  lemma NotPositive(total: nat, ratio: real)
    requires ratio <= 0.0
    ensures total as real * ratio <= 0.0
  {
    ProductGrows(total as real, ratio, 0.0, total as real * ratio, 0.0);
  }

  /** Linear arithmetic over the products. */
  lemma NearestNext(total: nat, ratio: real, x: real, y: real, n: nat, m: nat)
    requires total >= 2 && y == x + ratio && Nearest(total, x, n) && Nearest(total + 1, y, m)
    requires ratio <= 0.0 ==> x <= 0.0 && y <= 0.0
    requires ratio >= 1.0 ==> x >= total as real && y >= total as real + 1.0
    ensures n <= m <= n + 1
  {
    if ratio <= 0.0 {
      assert n == m == 1;
    } else if ratio >= 1.0 {
      assert n == total - 1 && m == total;
    } else if x < 1.0 {
      assert m as real <= 2.5;
    } else if y > total as real {
      assert n as real > total as real - 1.5;
    } else {
      assert n as real - m as real < 1.0;
    }
  }

  lemma SmallShares(total: nat, ratio: real)
    requires total < 2
    ensures FirstShare(total, ratio) == 0 && FirstShare(2, ratio) == 1
  {
    hide RoundToNat;
  }

  /** Nor does more room give either side less. */
  lemma SharesGrowByOne(total: nat, ratio: real)
    ensures FirstShare(total, ratio) <= FirstShare(total + 1, ratio)
    ensures total - FirstShare(total, ratio) <= total + 1 - FirstShare(total + 1, ratio)
  {
    hide FirstShare, Nearest;
    if total < 2 {
      SmallShares(total, ratio);
      SmallShares(0, ratio);
      SmallShares(1, ratio);
    } else {
      ShareIsNearest(total, ratio);
      ShareIsNearest(total + 1, ratio);
      NextProduct(total, ratio);
      var (x, y) := (total as real * ratio, (total + 1) as real * ratio);
      NearestNext(total, ratio, x, y, FirstShare(total, ratio), FirstShare(total + 1, ratio));
    }
  }

  lemma {:induction false} SharesGrow(a: nat, b: nat, ratio: real)
    requires a <= b
    ensures FirstShare(a, ratio) <= FirstShare(b, ratio)
    ensures a - FirstShare(a, ratio) <= b - FirstShare(b, ratio)
    decreases b - a
  {
    hide FirstShare;
    if a < b {
      SharesGrowByOne(a, ratio);
      SharesGrow(a + 1, b, ratio);
    }
  }

  /** A vertical split puts its sides next to each other, a horizontal one below each other. */
  lemma SidesOfSplit(direction: SplitDirection, ratio: real, r: Rect)
    ensures var (a, b) := (FirstRect(direction, ratio, r), SecondRect(direction, ratio, r));
            if direction.Vertical?
            then && a.row == b.row == r.row && a.rows == b.rows == r.rows
                 && a.col == r.col && b.col == a.col + a.cols && a.cols + b.cols == r.cols
                 && a.cols == FirstShare(r.cols, ratio)
            else && a.col == b.col == r.col && a.cols == b.cols == r.cols
                 && a.row == r.row && b.row == a.row + a.rows && a.rows + b.rows == r.rows
                 && a.rows == FirstShare(r.rows, ratio)
  {
    hide RoundToNat;
  }

  // ----- The whole tree -----

  /** More room never makes a pane smaller, and room along one axis leaves the other alone. */
  lemma {:induction false} RoomGrows(t: LayoutNode, r: Rect, q: Rect, i: nat)
    requires i < |PaneIds(t)| && r.cols <= q.cols && r.rows <= q.rows
    ensures var (a, b) := (Positions(t, r)[i].rect, Positions(t, q)[i].rect);
            && a.cols <= b.cols && a.rows <= b.rows
            && (r.cols == q.cols ==> a.cols == b.cols) && (r.rows == q.rows ==> a.rows == b.rows)
  {
    hide FirstShare;
    match t
    case Leaf(_) =>
    case Split(direction, ratio, first, second) =>
      SharesGrow(r.cols, q.cols, ratio);
      SharesGrow(r.rows, q.rows, ratio);
      var n := |PaneIds(first)|;
      if i < n {
        RoomGrows(first, FirstRect(direction, ratio, r), FirstRect(direction, ratio, q), i);
      } else {
        RoomGrows(second, SecondRect(direction, ratio, r), SecondRect(direction, ratio, q), i - n);
      }
  }

  function Along(axis: SplitDirection, r: Rect): nat {
    if axis.Vertical? then r.cols else r.rows
  }

  function Across(axis: SplitDirection, r: Rect): nat {
    if axis.Vertical? then r.rows else r.cols
  }

  /** The ratios the engine itself sets. */
  predicate InBounds(ratio: real) {
    0.1 <= ratio <= 0.9
  }

  /** Every ratio of the tree is one the engine sets. */
  predicate RatiosInBounds(t: LayoutNode) {
    t.Split? ==> InBounds(t.ratio) && RatiosInBounds(t.first) && RatiosInBounds(t.second)
  }

  /** Growing a pane never makes it smaller along the axis, and changes nothing across it. */
  lemma {:induction false} GrowingNeverShrinks(t: LayoutNode, target: PaneId, axis: SplitDirection, delta: real,
                                                r: Rect)
    requires target in PaneIds(t) && RatiosInBounds(t) && delta >= 0.0
    ensures PaneIds(AdjustRatio(t, target, axis, delta).0) == PaneIds(t)
    ensures var (i, t') := (FirstIndex(PaneIds(t), target), AdjustRatio(t, target, axis, delta).0);
            var (a, b) := (Positions(t, r)[i].rect, Positions(t', r)[i].rect);
            Along(axis, a) <= Along(axis, b) && Across(axis, a) == Across(axis, b)
  {
    hide FirstShare;
    AdjustKeepsIds(t, target, axis, delta);
    match t
    case Leaf(_) =>
    case Split(direction, ratio, first, second) =>
      var n := |PaneIds(first)|;
      FirstIndexConcat(PaneIds(first), PaneIds(second), target);
      if direction == axis {
        GrownSide(t, target, axis, delta, r);
      } else if target in PaneIds(first) {
        AdjustKeepsIds(first, target, axis, delta);
        GrowingNeverShrinks(first, target, axis, delta, FirstRect(direction, ratio, r));
      } else {
        AdjustKeepsIds(second, target, axis, delta);
        GrowingNeverShrinks(second, target, axis, delta, SecondRect(direction, ratio, r));
      }
  }

  lemma GrownSide(t: LayoutNode, target: PaneId, axis: SplitDirection, delta: real, r: Rect)
    requires t.Split? && t.direction == axis && target in PaneIds(t) && InBounds(t.ratio) && delta >= 0.0
    ensures AdjustRatio(t, target, axis, delta).0.Split?
    ensures PaneIds(AdjustRatio(t, target, axis, delta).0) == PaneIds(t)
    ensures var (i, t') := (FirstIndex(PaneIds(t), target), AdjustRatio(t, target, axis, delta).0);
            var (a, b) := (Positions(t, r)[i].rect, Positions(t', r)[i].rect);
            Along(axis, a) <= Along(axis, b) && Across(axis, a) == Across(axis, b)
  {
    hide FirstShare;
    var t' := AdjustRatio(t, target, axis, delta).0;
    var n := |PaneIds(t.first)|;
    FirstIndexConcat(PaneIds(t.first), PaneIds(t.second), target);
    if target in PaneIds(t.first) {
      var i := FirstIndex(PaneIds(t.first), target);
      ShareGrowsWithRatio(Along(axis, r), t.ratio, t'.ratio);
      RoomGrows(t.first, FirstRect(axis, t.ratio, r), FirstRect(axis, t'.ratio, r), i);
    } else {
      var i := FirstIndex(PaneIds(t.second), target);
      ShareGrowsWithRatio(Along(axis, r), t'.ratio, t.ratio);
      RoomGrows(t.second, SecondRect(axis, t.ratio, r), SecondRect(axis, t'.ratio, r), i);
    }
  }

  /** Outside those bounds it can: a pane that a template gives 95 of 100 columns has 90 after
      it was grown by nothing. */
  lemma GrowingCanShrink()
    ensures var t := Split(Vertical, 0.95, Leaf(0), Leaf(1));
            && Positions(t, Rect(0, 0, 100, 1))[0].rect.cols == 95
            && Positions(AdjustRatio(t, 0, Vertical, 0.0).0, Rect(0, 0, 100, 1))[0].rect.cols == 90
  {
    ShareIsNearest(100, 0.95);
    ShareIsNearest(100, 0.9);
  }

  /** Splitting keeps the bounds, and so does every change of a ratio. */
  lemma {:induction false} EditsKeepBounds(t: LayoutNode, target: PaneId, newPane: PaneId, d: SplitDirection,
                                            delta: real)
    requires RatiosInBounds(t)
    ensures RatiosInBounds(SplitNode(t, target, newPane, d).0) && RatiosInBounds(AdjustRatio(t, target, d, delta).0)
  {
    if t.Split? {
      EditsKeepBounds(t.first, target, newPane, d, delta);
      EditsKeepBounds(t.second, target, newPane, d, delta);
    }
  }

  /** Two panes side by side on 100 columns, the left one grown by a quarter: 75 and 25. */
  lemma QuarterMore()
    ensures var t := Split(Vertical, 0.5, Leaf(0), Leaf(1));
            Positions(AdjustRatio(t, 0, Vertical, 0.25).0, Rect(0, 0, 100, 1))
            == [Placement(0, Rect(0, 0, 75, 1)), Placement(1, Rect(75, 0, 25, 1))]
  {
    hide FirstShare;
    ShareIsNearest(100, 0.75);
  }
}
