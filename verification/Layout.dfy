/** The binary tree of pane arrangements, and the engine that owns it.

    A Rust tree of boxes has one owner for every node, so the in-place edits of
    the tree are functions from a tree to the edited tree; the engine that holds
    the root is a class. */
module Layout {
  import opened Options

  type PaneId = nat

  /** `u32::MAX`, which `swap_leaves` uses as a stand-in leaf. */
  const SENTINEL: PaneId := 0xFFFF_FFFF

  datatype SplitDirection = Horizontal | Vertical

  datatype LayoutNode =
    | Leaf(id: PaneId)
    | Split(direction: SplitDirection, ratio: real, first: LayoutNode, second: LayoutNode)

  datatype Rect = Rect(col: nat, row: nat, cols: nat, rows: nat)

  datatype Placement = Placement(id: PaneId, rect: Rect)

  // ----- Reading the tree -----

  function PaneIds(t: LayoutNode): (ids: seq<PaneId>)
    ensures |ids| >= 1
  {
    match t
    case Leaf(id) => [id]
    case Split(_, _, first, second) => PaneIds(first) + PaneIds(second)
  }

  function Count(t: LayoutNode): (n: nat)
    ensures n == |PaneIds(t)|
  {
    match t
    case Leaf(_) => 1
    case Split(_, _, first, second) => Count(first) + Count(second)
  }

  ghost predicate Distinct<T>(s: seq<T>) {
    forall i, j :: 0 <= i < j < |s| ==> s[i] != s[j]
  }

  /** `x.round() as usize`: halves round away from zero, negatives saturate at 0. */
  function RoundToNat(x: real): nat {
    if x < 0.5 then 0 else (x + 0.5).Floor
  }

  /** How much of `total` the first child of a split gets. */
  function FirstShare(total: nat, ratio: real): (n: nat)
    ensures n <= total
    ensures total >= 2 ==> 1 <= n < total
  {
    Min(Max(RoundToNat(total as real * ratio), 1), SatSub(total, 1))
  }

  function FirstRect(direction: SplitDirection, ratio: real, r: Rect): Rect {
    match direction
    case Horizontal => r.(rows := FirstShare(r.rows, ratio))
    case Vertical => r.(cols := FirstShare(r.cols, ratio))
  }

  function SecondRect(direction: SplitDirection, ratio: real, r: Rect): Rect {
    match direction
    case Horizontal =>
      var n := FirstShare(r.rows, ratio);
      r.(row := r.row + n, rows := r.rows - n)
    case Vertical =>
      var n := FirstShare(r.cols, ratio);
      r.(col := r.col + n, cols := r.cols - n)
  }

  /** The recursion of the program, which appends to an output vector. */
  function ComputePositionsInner(t: LayoutNode, r: Rect, out: seq<Placement>): (res: seq<Placement>)
    ensures res == out + Positions(t, r)
  {
    match t
    case Leaf(id) => out + [Placement(id, r)]
    case Split(direction, ratio, first, second) =>
      var out1 := ComputePositionsInner(first, FirstRect(direction, ratio, r), out);
      ComputePositionsInner(second, SecondRect(direction, ratio, r), out1)
  }

  function Positions(t: LayoutNode, r: Rect): (ps: seq<Placement>)
    ensures |ps| == |PaneIds(t)|
  {
    match t
    case Leaf(id) => [Placement(id, r)]
    case Split(direction, ratio, first, second) =>
      Positions(first, FirstRect(direction, ratio, r)) + Positions(second, SecondRect(direction, ratio, r))
  }

  // ----- Tiling -----

  predicate Contains(r: Rect, x: nat, y: nat) {
    r.col <= x < r.col + r.cols && r.row <= y < r.row + r.rows
  }

  /** How many of the rectangles hold the cell (x, y). */
  ghost function Cover(ps: seq<Placement>, x: nat, y: nat): nat {
    if ps == [] then 0
    else (if Contains(ps[0].rect, x, y) then 1 else 0) + Cover(ps[1..], x, y)
  }

  lemma {:induction false} CoverConcat(a: seq<Placement>, b: seq<Placement>, x: nat, y: nat)
    ensures Cover(a + b, x, y) == Cover(a, x, y) + Cover(b, x, y)
  {
    if a == [] {
      assert a + b == b;
    } else {
      assert (a + b)[1..] == a[1..] + b;
      CoverConcat(a[1..], b, x, y);
    }
  }

  lemma {:induction false} CoverAtLeast(ps: seq<Placement>, i: nat, x: nat, y: nat)
    requires i < |ps| && Contains(ps[i].rect, x, y)
    ensures Cover(ps, x, y) >= 1
  {
    if i > 0 {
      CoverAtLeast(ps[1..], i - 1, x, y);
    }
  }

  /** Every cell of the area lies in exactly one rectangle, and no other cell in any. */
  lemma {:induction false} Tiling(t: LayoutNode, r: Rect, x: nat, y: nat)
    ensures Cover(Positions(t, r), x, y) == if Contains(r, x, y) then 1 else 0
  {
    match t
    case Leaf(id) =>
      assert Cover([Placement(id, r)][1..], x, y) == 0;
    case Split(direction, ratio, first, second) =>
      var r1, r2 := FirstRect(direction, ratio, r), SecondRect(direction, ratio, r);
      Tiling(first, r1, x, y);
      Tiling(second, r2, x, y);
      CoverConcat(Positions(first, r1), Positions(second, r2), x, y);
  }

  lemma {:induction false} CoverTwice(ps: seq<Placement>, i: nat, j: nat, x: nat, y: nat)
    requires i < j < |ps|
    requires Contains(ps[i].rect, x, y) && Contains(ps[j].rect, x, y)
    ensures Cover(ps, x, y) >= 2
  {
    if i == 0 {
      CoverAtLeast(ps[1..], j - 1, x, y);
    } else {
      CoverTwice(ps[1..], i - 1, j - 1, x, y);
    }
  }

  lemma {:induction false} CoverWitness(ps: seq<Placement>, x: nat, y: nat) returns (i: nat)
    requires Cover(ps, x, y) >= 1
    ensures i < |ps| && Contains(ps[i].rect, x, y)
  {
    if Contains(ps[0].rect, x, y) {
      i := 0;
    } else {
      i := CoverWitness(ps[1..], x, y);
      i := i + 1;
    }
  }

  /** Pairwise disjoint: no cell lies in two of the rectangles. */
  lemma {:induction false} PositionsDisjoint(t: LayoutNode, r: Rect, i: nat, j: nat, x: nat, y: nat)
    requires i < j < |PaneIds(t)|
    ensures !(Contains(Positions(t, r)[i].rect, x, y) && Contains(Positions(t, r)[j].rect, x, y))
  {
    if Contains(Positions(t, r)[i].rect, x, y) && Contains(Positions(t, r)[j].rect, x, y) {
      CoverTwice(Positions(t, r), i, j, x, y);
      Tiling(t, r, x, y);
    }
  }

  /** Every rectangle lies inside the area. */
  lemma {:induction false} PositionsInside(t: LayoutNode, r: Rect, i: nat)
    requires i < |PaneIds(t)|
    ensures var p := Positions(t, r)[i].rect;
            && r.col <= p.col && p.col + p.cols <= r.col + r.cols
            && r.row <= p.row && p.row + p.rows <= r.row + r.rows
  {
    match t
    case Leaf(_) =>
    case Split(direction, ratio, first, second) =>
      var n := |PaneIds(first)|;
      if i < n {
        PositionsInside(first, FirstRect(direction, ratio, r), i);
      } else {
        PositionsInside(second, SecondRect(direction, ratio, r), i - n);
      }
  }

  // ----- Editing the tree -----

  function SplitNode(t: LayoutNode, target: PaneId, newPane: PaneId, direction: SplitDirection)
    : (res: (LayoutNode, bool))
  {
    match t
    case Leaf(id) =>
      if id == target then (Split(direction, 0.5, Leaf(target), Leaf(newPane)), true) else (t, false)
    case Split(d, ratio, first, second) =>
      var (first', done) := SplitNode(first, target, newPane, direction);
      if done then (Split(d, ratio, first', second), true)
      else
        var (second', done2) := SplitNode(second, target, newPane, direction);
        (Split(d, ratio, first', second'), done2)
  }

  datatype RemoveResult = NotFound | Removed | Replaced(replacement: LayoutNode)

  /** The tree as the removal leaves it, and what the caller is told to do. */
  function RemoveNode(t: LayoutNode, target: PaneId): (LayoutNode, RemoveResult) {
    match t
    case Leaf(id) => (t, if id == target then Removed else NotFound)
    case Split(d, ratio, first, second) =>
      var (first', res1) := RemoveNode(first, target);
      match res1
      case Removed => (Split(d, ratio, first', second), Replaced(second))
      case Replaced(replacement) => (Split(d, ratio, replacement, second), NotFound)
      case NotFound =>
        var (second', res2) := RemoveNode(second, target);
        match res2
        case Removed => (Split(d, ratio, first', second'), Replaced(first'))
        case Replaced(replacement) => (Split(d, ratio, first', replacement), NotFound)
        case NotFound => (Split(d, ratio, first', second'), NotFound)
  }

  function ReplaceLeaf(t: LayoutNode, oldId: PaneId, newId: PaneId): (LayoutNode, bool) {
    match t
    case Leaf(id) => if id == oldId then (Leaf(newId), true) else (t, false)
    case Split(d, ratio, first, second) =>
      var (first', done) := ReplaceLeaf(first, oldId, newId);
      if done then (Split(d, ratio, first', second), true)
      else
        var (second', done2) := ReplaceLeaf(second, oldId, newId);
        (Split(d, ratio, first', second'), done2)
  }

  function SwapLeaves(t: LayoutNode, a: PaneId, b: PaneId): (LayoutNode, bool) {
    var (t1, foundA) := ReplaceLeaf(t, a, SENTINEL);
    if !foundA then (t1, false)
    else
      var (t2, foundB) := ReplaceLeaf(t1, b, a);
      if !foundB then (ReplaceLeaf(t2, SENTINEL, a).0, false)
      else (ReplaceLeaf(t2, SENTINEL, b).0, true)
  }

  function ClampRatio(x: real): real {
    if x < 0.1 then 0.1 else if x > 0.9 then 0.9 else x
  }

  function AdjustRatio(t: LayoutNode, target: PaneId, axis: SplitDirection, delta: real): (LayoutNode, bool) {
    match t
    case Leaf(_) => (t, false)
    case Split(d, ratio, first, second) =>
      var inFirst, inSecond := target in PaneIds(first), target in PaneIds(second);
      if !inFirst && !inSecond then (t, false)
      else if d == axis then
        (Split(d, ClampRatio(if inFirst then ratio + delta else ratio - delta), first, second), true)
      else if inFirst then
        var (first', done) := AdjustRatio(first, target, axis, delta);
        (Split(d, ratio, first', second), done)
      else
        var (second', done) := AdjustRatio(second, target, axis, delta);
        (Split(d, ratio, first, second'), done)
  }

  // ----- Paths: one notion of "edit here, leave the rest alone" -----

  /** A path names a subtree: true steps into the first child, false into the second. */
  ghost predicate IsPath(t: LayoutNode, p: seq<bool>) {
    p == [] || (t.Split? && IsPath(if p[0] then t.first else t.second, p[1..]))
  }

  ghost function SubtreeAt(t: LayoutNode, p: seq<bool>): LayoutNode
    requires IsPath(t, p)
  {
    if p == [] then t else SubtreeAt(if p[0] then t.first else t.second, p[1..])
  }

  ghost function RectAt(t: LayoutNode, p: seq<bool>, r: Rect): Rect
    requires IsPath(t, p)
  {
    if p == [] then r
    else if p[0] then RectAt(t.first, p[1..], FirstRect(t.direction, t.ratio, r))
    else RectAt(t.second, p[1..], SecondRect(t.direction, t.ratio, r))
  }

  ghost function PutAt(t: LayoutNode, p: seq<bool>, n: LayoutNode): LayoutNode
    requires IsPath(t, p)
  {
    if p == [] then n
    else if p[0] then t.(first := PutAt(t.first, p[1..], n))
    else t.(second := PutAt(t.second, p[1..], n))
  }

  /** The rectangles listed before those of the subtree at `p`. */
  ghost function Before(t: LayoutNode, p: seq<bool>, r: Rect): seq<Placement>
    requires IsPath(t, p)
  {
    if p == [] then []
    else if p[0] then Before(t.first, p[1..], FirstRect(t.direction, t.ratio, r))
    else Positions(t.first, FirstRect(t.direction, t.ratio, r))
         + Before(t.second, p[1..], SecondRect(t.direction, t.ratio, r))
  }

  /** The rectangles listed after those of the subtree at `p`. */
  ghost function After(t: LayoutNode, p: seq<bool>, r: Rect): seq<Placement>
    requires IsPath(t, p)
  {
    if p == [] then []
    else if p[0] then After(t.first, p[1..], FirstRect(t.direction, t.ratio, r))
                      + Positions(t.second, SecondRect(t.direction, t.ratio, r))
    else After(t.second, p[1..], SecondRect(t.direction, t.ratio, r))
  }

  /** An edit at `p` changes the rectangles of that subtree and no others. */
  lemma {:induction false} EditIsLocal(t: LayoutNode, p: seq<bool>, n: LayoutNode, r: Rect)
    requires IsPath(t, p)
    ensures Positions(t, r) == Before(t, p, r) + Positions(SubtreeAt(t, p), RectAt(t, p, r)) + After(t, p, r)
    ensures Positions(PutAt(t, p, n), r) == Before(t, p, r) + Positions(n, RectAt(t, p, r)) + After(t, p, r)
  {
    if p != [] {
      var q, r1, r2 := p[1..], FirstRect(t.direction, t.ratio, r), SecondRect(t.direction, t.ratio, r);
      var here := RectAt(t, p, r);
      if p[0] {
        EditIsLocal(t.first, q, n, r1);
        var before, after, other := Before(t.first, q, r1), After(t.first, q, r1), Positions(t.second, r2);
        AppendLast(before, Positions(SubtreeAt(t, p), here), after, other);
        AppendLast(before, Positions(n, here), after, other);
      } else {
        EditIsLocal(t.second, q, n, r2);
        var before, after, other := Before(t.second, q, r2), After(t.second, q, r2), Positions(t.first, r1);
        AppendFirst(other, before, Positions(SubtreeAt(t, p), here), after);
        AppendFirst(other, before, Positions(n, here), after);
      }
    }
  }

  lemma AppendLast<T>(a: seq<T>, b: seq<T>, c: seq<T>, d: seq<T>)
    ensures (a + b + c) + d == a + b + (c + d)
  {
  }

  lemma AppendFirst<T>(a: seq<T>, b: seq<T>, c: seq<T>, d: seq<T>)
    ensures a + (b + c + d) == (a + b) + c + d
  {
  }

  /** The path to the leftmost leaf called `target`. */
  ghost function PathTo(t: LayoutNode, target: PaneId): (p: seq<bool>)
    requires target in PaneIds(t)
    ensures IsPath(t, p) && SubtreeAt(t, p) == Leaf(target)
  {
    if t.Leaf? then []
    else if target in PaneIds(t.first) then
      var p := [true] + PathTo(t.first, target);
      assert p[1..] == PathTo(t.first, target);
      p
    else
      var p := [false] + PathTo(t.second, target);
      assert p[1..] == PathTo(t.second, target);
      p
  }

  /** The id list of a placement list. */
  ghost function Ids(ps: seq<Placement>): (ids: seq<PaneId>)
    ensures |ids| == |ps| && forall i :: 0 <= i < |ps| ==> ids[i] == ps[i].id
  {
    seq(|ps|, i requires 0 <= i < |ps| => ps[i].id)
  }

  const ANY_RECT := Rect(0, 0, 0, 0)

  /** The rectangles are listed in the order of the leaves. */
  lemma {:induction false} IdsOfPositions(t: LayoutNode, r: Rect)
    ensures Ids(Positions(t, r)) == PaneIds(t)
  {
    match t
    case Leaf(_) =>
    case Split(direction, ratio, first, second) =>
      var r1, r2 := FirstRect(direction, ratio, r), SecondRect(direction, ratio, r);
      IdsOfPositions(first, r1);
      IdsOfPositions(second, r2);
      IdsConcat(Positions(first, r1), Positions(second, r2));
  }

  lemma IdsConcat(a: seq<Placement>, b: seq<Placement>)
    ensures Ids(a + b) == Ids(a) + Ids(b)
  {
  }

  lemma EditIds(t: LayoutNode, p: seq<bool>, n: LayoutNode)
    requires IsPath(t, p)
    ensures PaneIds(t) == Ids(Before(t, p, ANY_RECT)) + PaneIds(SubtreeAt(t, p)) + Ids(After(t, p, ANY_RECT))
    ensures PaneIds(PutAt(t, p, n)) == Ids(Before(t, p, ANY_RECT)) + PaneIds(n) + Ids(After(t, p, ANY_RECT))
  {
    EditIsLocal(t, p, n, ANY_RECT);
    var before, after := Before(t, p, ANY_RECT), After(t, p, ANY_RECT);
    EditIdsOf(t, before, SubtreeAt(t, p), after, RectAt(t, p, ANY_RECT));
    EditIdsOf(PutAt(t, p, n), before, n, after, RectAt(t, p, ANY_RECT));
  }

  lemma EditIdsOf(t: LayoutNode, before: seq<Placement>, n: LayoutNode, after: seq<Placement>, r: Rect)
    requires Positions(t, ANY_RECT) == before + Positions(n, r) + after
    ensures PaneIds(t) == Ids(before) + PaneIds(n) + Ids(after)
  {
    IdsOfPositions(t, ANY_RECT);
    IdsOfPositions(n, r);
    IdsConcat(before + Positions(n, r), after);
    IdsConcat(before, Positions(n, r));
  }
}
