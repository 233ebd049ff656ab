/** Directional focus: which pane lies next to which in a tiling. */
module Focus {
  import opened Options
  import opened Layout

  datatype FocusDirection = Up | Down | Left | Right

  predicate RangesOverlap(aStart: nat, aEnd: nat, bStart: nat, bEnd: nat) {
    aStart < bEnd && bStart < aEnd
  }

  /** `p` lies wholly beyond that edge of `a` and overlaps it on the other axis. */
  predicate IsCandidate(direction: FocusDirection, a: Rect, p: Rect) {
    match direction
    case Up => p.row + p.rows <= a.row && RangesOverlap(p.col, p.col + p.cols, a.col, a.col + a.cols)
    case Down => p.row >= a.row + a.rows && RangesOverlap(p.col, p.col + p.cols, a.col, a.col + a.cols)
    case Left => p.col + p.cols <= a.col && RangesOverlap(p.row, p.row + p.rows, a.row, a.row + a.rows)
    case Right => p.col >= a.col + a.cols && RangesOverlap(p.row, p.row + p.rows, a.row, a.row + a.rows)
  }

  function AbsDiff(a: nat, b: nat): nat {
    if a <= b then b - a else a - b
  }

  /** The distance between the doubled centres. */
  function Distance(a: Rect, p: Rect): nat {
    AbsDiff(a.col * 2 + a.cols, p.col * 2 + p.cols) + AbsDiff(a.row * 2 + a.rows, p.row * 2 + p.rows)
  }

  /** `found` is the first nearest candidate among the first `n` entries. */
  ghost predicate IsNearest(ps: seq<Placement>, n: nat, active: PaneId, a: Rect, direction: FocusDirection,
                            found: Option<nat>)
    requires n <= |ps|
  {
    match found
    case None => forall j :: 0 <= j < n && ps[j].id != active ==> !IsCandidate(direction, a, ps[j].rect)
    case Some(i) =>
      && i < n && ps[i].id != active && IsCandidate(direction, a, ps[i].rect)
      && (forall j :: 0 <= j < n && ps[j].id != active && IsCandidate(direction, a, ps[j].rect) ==>
            Distance(a, ps[i].rect) <= Distance(a, ps[j].rect))
      && (forall j :: 0 <= j < i && ps[j].id != active && IsCandidate(direction, a, ps[j].rect) ==>
            Distance(a, ps[i].rect) < Distance(a, ps[j].rect))
  }

  /** The scan over the position list, keeping the best candidate so far. */
  method FindNearest(ps: seq<Placement>, active: PaneId, a: Rect, direction: FocusDirection)
    returns (best: Option<nat>)
    ensures IsNearest(ps, |ps|, active, a, direction, best)
  {
    best := None;
    for i := 0 to |ps|
      invariant IsNearest(ps, i, active, a, direction, best)
    {
      if ps[i].id != active && IsCandidate(direction, a, ps[i].rect) {
        if best.None? || Distance(a, ps[i].rect) < Distance(a, ps[best.value].rect) {
          best := Some(i);
        }
      }
    }
  }

  predicate TouchesEdge(direction: FocusDirection, a: Rect, area: Rect) {
    match direction
    case Up => a.row == area.row
    case Down => a.row + a.rows == area.row + area.rows
    case Left => a.col == area.col
    case Right => a.col + a.cols == area.col + area.cols
  }

  ghost predicate AllNonEmpty(ps: seq<Placement>) {
    forall i :: 0 <= i < |ps| ==> ps[i].rect.cols >= 1 && ps[i].rect.rows >= 1
  }

  /** A cell just outside that edge of `a`. */
  ghost function CellBeyond(direction: FocusDirection, a: Rect): (int, int) {
    match direction
    case Up => (a.col, a.row - 1)
    case Down => (a.col, a.row + a.rows)
    case Left => (a.col - 1, a.row)
    case Right => (a.col + a.cols, a.row)
  }

  /** The cell of `a` on its edge, next to the one beyond. */
  ghost function CellInside(direction: FocusDirection, a: Rect): (int, int) {
    match direction
    case Up => (a.col, a.row)
    case Down => (a.col, a.row + a.rows - 1)
    case Left => (a.col, a.row)
    case Right => (a.col + a.cols - 1, a.row)
  }

  /** A pane that holds the cell beyond the edge but not the one inside is a candidate. */
  lemma HoldsCellBeyond(direction: FocusDirection, a: Rect, p: Rect)
    requires a.cols >= 1 && a.rows >= 1
    requires var (x, y) := CellBeyond(direction, a); x >= 0 && y >= 0 && Contains(p, x, y)
    requires var (x, y) := CellInside(direction, a); !Contains(p, x, y)
    ensures IsCandidate(direction, a, p)
  {
  }

  /** In a tiling without empty rectangles there is a pane to move to exactly when the
      active one does not touch that edge of the area. */
  lemma NeighbourUnlessAtEdge(t: LayoutNode, area: Rect, k: nat, direction: FocusDirection)
    requires k < |PaneIds(t)| && AllNonEmpty(Positions(t, area))
    ensures (exists j :: 0 <= j < |PaneIds(t)| && j != k
                         && IsCandidate(direction, Positions(t, area)[k].rect, Positions(t, area)[j].rect))
            <==> !TouchesEdge(direction, Positions(t, area)[k].rect, area)
  {
    var ps := Positions(t, area);
    var a := ps[k].rect;
    if TouchesEdge(direction, a, area) {
      forall j | 0 <= j < |ps|
        ensures !IsCandidate(direction, a, ps[j].rect)
      {
        PositionsInside(t, area, j);
      }
    } else {
      PositionsInside(t, area, k);
      var (x, y) := CellBeyond(direction, a);
      var (u, v) := CellInside(direction, a);
      assert Contains(area, x, y) && Contains(a, u, v);
      Tiling(t, area, x, y);
      var j := CoverWitness(ps, x, y);
      assert !Contains(ps[j].rect, u, v) by {
        if Contains(ps[j].rect, u, v) && j != k {
          PositionsDisjoint(t, area, if j < k then j else k, if j < k then k else j, u, v);
        }
      }
      HoldsCellBeyond(direction, a, ps[j].rect);
    }
  }

  /** Without that condition focus can be stuck away from the edge: in a tab of no
      columns, two stacked panes overlap nowhere. */
  lemma EmptyPanesBlockFocus()
    ensures var t, area := Split(Horizontal, 0.5, Leaf(0), Leaf(1)), Rect(0, 0, 0, 2);
            && !TouchesEdge(Down, Positions(t, area)[0].rect, area)
            && !IsCandidate(Down, Positions(t, area)[0].rect, Positions(t, area)[1].rect)
  {
    var t, area := Split(Horizontal, 0.5, Leaf(0), Leaf(1)), Rect(0, 0, 0, 2);
    assert FirstShare(2, 0.5) == 1;
    assert Positions(t, area) == [Placement(0, Rect(0, 0, 0, 1)), Placement(1, Rect(0, 1, 0, 1))];
  }
}
