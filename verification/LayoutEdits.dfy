/** What each edit of the layout tree does to the list of leaves and to the
    rectangles on the screen. */
module LayoutEdits {
  import opened Options
  import opened Layout

  // ----- Leaf lists -----

  /** Where `x` first occurs in `s`. */
  ghost function FirstIndex<T>(s: seq<T>, x: T): (i: nat)
    requires x in s
    ensures i < |s| && s[i] == x && x !in s[..i]
  {
    if s[0] == x then 0
    else
      assert s == [s[0]] + s[1..];
      var i := 1 + FirstIndex(s[1..], x);
      assert s[..i] == [s[0]] + s[1..][..i - 1];
      i
  }

  lemma FirstIndexUnique<T>(s: seq<T>, x: T, j: nat)
    requires j < |s| && s[j] == x && x !in s[..j]
    ensures FirstIndex(s, x) == j
  {
  }

  lemma FirstIndexConcat<T>(a: seq<T>, b: seq<T>, x: T)
    requires x in a + b
    ensures FirstIndex(a + b, x) == if x in a then FirstIndex(a, x) else |a| + FirstIndex(b, x)
  {
    if x in a {
      var i := FirstIndex(a, x);
      assert (a + b)[..i] == a[..i];
      FirstIndexUnique(a + b, x, i);
    } else {
      var i := FirstIndex(b, x);
      assert (a + b)[..|a| + i] == a + b[..i];
      FirstIndexUnique(a + b, x, |a| + i);
    }
  }

  // ----- Splitting -----

  ghost function NewSplit(target: PaneId, newPane: PaneId, direction: SplitDirection): LayoutNode {
    Split(direction, 0.5, Leaf(target), Leaf(newPane))
  }

  /** `split` finds its target exactly when it is a leaf, and edits the leftmost such leaf only. */
  lemma {:induction false} SplitIsAnEdit(t: LayoutNode, target: PaneId, newPane: PaneId, direction: SplitDirection)
    ensures SplitNode(t, target, newPane, direction).1 <==> target in PaneIds(t)
    ensures target !in PaneIds(t) ==> SplitNode(t, target, newPane, direction).0 == t
    ensures target in PaneIds(t) ==>
              SplitNode(t, target, newPane, direction).0
              == PutAt(t, PathTo(t, target), NewSplit(target, newPane, direction))
  {
    if t.Split? {
      SplitIsAnEdit(t.first, target, newPane, direction);
      SplitIsAnEdit(t.second, target, newPane, direction);
    }
  }

  /** `a` and `b` are disjoint and together are exactly `r`. */
  ghost predicate TwoTile(a: Rect, b: Rect, r: Rect) {
    forall x: nat, y: nat ::
      && (Contains(r, x, y) <==> Contains(a, x, y) || Contains(b, x, y))
      && !(Contains(a, x, y) && Contains(b, x, y))
  }

  lemma {:induction false} PathToIsLeftmost(t: LayoutNode, target: PaneId, r: Rect)
    requires target in PaneIds(t)
    ensures |Before(t, PathTo(t, target), r)| == FirstIndex(PaneIds(t), target)
  {
    if t.Split? {
      FirstIndexConcat(PaneIds(t.first), PaneIds(t.second), target);
      if target in PaneIds(t.first) {
        PathToIsLeftmost(t.first, target, FirstRect(t.direction, t.ratio, r));
        assert PathTo(t, target)[1..] == PathTo(t.first, target);
      } else {
        PathToIsLeftmost(t.second, target, SecondRect(t.direction, t.ratio, r));
        assert PathTo(t, target)[1..] == PathTo(t.second, target);
      }
    }
  }

  /** Putting `n` in the place of a leaf replaces that one entry of the position list. */
  lemma LeafEdit(t: LayoutNode, target: PaneId, n: LayoutNode, r: Rect) returns (here: Rect)
    requires target in PaneIds(t)
    ensures var i, ps := FirstIndex(PaneIds(t), target), Positions(t, r);
            && ps[i] == Placement(target, here)
            && Positions(PutAt(t, PathTo(t, target), n), r) == ps[..i] + Positions(n, here) + ps[i + 1..]
  {
    var p := PathTo(t, target);
    EditIsLocal(t, p, n, r);
    PathToIsLeftmost(t, target, r);
    here := RectAt(t, p, r);
    ReplaceMiddle(Before(t, p, r), Placement(target, here), After(t, p, r));
  }

  lemma ReplaceMiddle<T>(before: seq<T>, x: T, after: seq<T>)
    ensures var s := before + [x] + after;
            s[|before|] == x && s[..|before|] == before && s[|before| + 1..] == after
  {
  }

  /** The same on the list of leaves. */
  lemma LeafEditIds(t: LayoutNode, target: PaneId, n: LayoutNode)
    requires target in PaneIds(t)
    ensures var i, ids := FirstIndex(PaneIds(t), target), PaneIds(t);
            PaneIds(PutAt(t, PathTo(t, target), n)) == ids[..i] + PaneIds(n) + ids[i + 1..]
  {
    var p := PathTo(t, target);
    EditIds(t, p, n);
    PathToIsLeftmost(t, target, ANY_RECT);
    ReplaceMiddle(Ids(Before(t, p, ANY_RECT)), target, Ids(After(t, p, ANY_RECT)));
  }

  /** One entry of the position list becomes two that tile it, and nothing else changes. */
  lemma SplitIsLocal(t: LayoutNode, target: PaneId, newPane: PaneId, direction: SplitDirection, r: Rect)
    returns (a: Rect, b: Rect)
    requires target in PaneIds(t)
    ensures var i, ps := FirstIndex(PaneIds(t), target), Positions(t, r);
            && ps[i].id == target
            && Positions(SplitNode(t, target, newPane, direction).0, r)
               == ps[..i] + [Placement(target, a), Placement(newPane, b)] + ps[i + 1..]
            && TwoTile(a, b, ps[i].rect)
            && (direction == Vertical && ps[i].rect.cols >= 4 ==> a.cols >= 2 && b.cols >= 2)
            && (direction == Horizontal && ps[i].rect.rows >= 4 ==> a.rows >= 2 && b.rows >= 2)
  {
    var n := NewSplit(target, newPane, direction);
    SplitIsAnEdit(t, target, newPane, direction);
    var here := LeafEdit(t, target, n, r);
    a, b := FirstRect(direction, 0.5, here), SecondRect(direction, 0.5, here);
    assert Positions(n, here) == [Placement(target, a), Placement(newPane, b)];
  }

  lemma SplitIds(t: LayoutNode, target: PaneId, newPane: PaneId, direction: SplitDirection)
    requires target in PaneIds(t)
    ensures var i, ids := FirstIndex(PaneIds(t), target), PaneIds(t);
            PaneIds(SplitNode(t, target, newPane, direction).0) == ids[..i] + [target, newPane] + ids[i + 1..]
  {
    var n := NewSplit(target, newPane, direction);
    SplitIsAnEdit(t, target, newPane, direction);
    LeafEditIds(t, target, n);
    assert PaneIds(n) == [target, newPane];
  }

  // ----- Renaming -----

  lemma {:induction false} ReplaceLeafIsAnEdit(t: LayoutNode, oldId: PaneId, newId: PaneId)
    ensures ReplaceLeaf(t, oldId, newId).1 <==> oldId in PaneIds(t)
    ensures oldId !in PaneIds(t) ==> ReplaceLeaf(t, oldId, newId).0 == t
    ensures oldId in PaneIds(t) ==> ReplaceLeaf(t, oldId, newId).0 == PutAt(t, PathTo(t, oldId), Leaf(newId))
  {
    if t.Split? {
      ReplaceLeafIsAnEdit(t.first, oldId, newId);
      ReplaceLeafIsAnEdit(t.second, oldId, newId);
    }
  }

  /** Renaming touches the first occurrence in the leaf list. */
  lemma RenameIds(t: LayoutNode, oldId: PaneId, newId: PaneId)
    requires oldId in PaneIds(t)
    ensures PaneIds(ReplaceLeaf(t, oldId, newId).0) == PaneIds(t)[FirstIndex(PaneIds(t), oldId) := newId]
  {
    ReplaceLeafIsAnEdit(t, oldId, newId);
    LeafEditIds(t, oldId, Leaf(newId));
    UpdateAsConcat(PaneIds(t), FirstIndex(PaneIds(t), oldId), newId);
  }

  /** Renaming moves no rectangle. */
  lemma RenamePositions(t: LayoutNode, oldId: PaneId, newId: PaneId, r: Rect)
    requires oldId in PaneIds(t)
    ensures var i, ps := FirstIndex(PaneIds(t), oldId), Positions(t, r);
            Positions(ReplaceLeaf(t, oldId, newId).0, r) == ps[i := Placement(newId, ps[i].rect)]
  {
    ReplaceLeafIsAnEdit(t, oldId, newId);
    var here := LeafEdit(t, oldId, Leaf(newId), r);
    UpdateAsConcat(Positions(t, r), FirstIndex(PaneIds(t), oldId), Placement(newId, here));
  }

  lemma UpdateAsConcat<T>(s: seq<T>, i: nat, x: T)
    requires i < |s|
    ensures s[..i] + [x] + s[i + 1..] == s[i := x]
  {
  }

  ghost function SwapIds(s: seq<PaneId>, a: PaneId, b: PaneId): (r: seq<PaneId>)
    ensures |r| == |s|
  {
    seq(|s|, i requires 0 <= i < |s| => if s[i] == a then b else if s[i] == b then a else s[i])
  }

  /** The three renamings of a swap, on the list of leaves. */
  lemma SwapByUpdates(ids: seq<PaneId>, a: PaneId, b: PaneId)
    requires Distinct(ids) && SENTINEL !in ids && a in ids && b in ids && a != b && b != SENTINEL
    ensures var i, j := FirstIndex(ids, a), FirstIndex(ids, b);
            var ids1, ids2 := ids[i := SENTINEL], ids[i := SENTINEL][j := a];
            && i != j && b in ids1 && FirstIndex(ids1, b) == j
            && SENTINEL in ids2 && FirstIndex(ids2, SENTINEL) == i
            && ids2[i := b] == SwapIds(ids, a, b)
  {
    var i, j := FirstIndex(ids, a), FirstIndex(ids, b);
    var ids1, ids2 := ids[i := SENTINEL], ids[i := SENTINEL][j := a];
    assert ids1[j] == b && ids2[i] == SENTINEL;
    FirstIndexUnique(ids1, b, j);
    FirstIndexUnique(ids2, SENTINEL, i);
  }

  /** With distinct leaves, none of them the stand-in, a swap succeeds exactly when
      both are leaves and differ, and leaves the tree as it was when it fails. */
  lemma SwapSucceeds(t: LayoutNode, a: PaneId, b: PaneId)
    requires Distinct(PaneIds(t)) && SENTINEL !in PaneIds(t) && b != SENTINEL
    ensures SwapLeaves(t, a, b).1 <==> a in PaneIds(t) && b in PaneIds(t) && a != b
    ensures !SwapLeaves(t, a, b).1 ==> SwapLeaves(t, a, b).0 == t
  {
    var ids := PaneIds(t);
    ReplaceLeafIsAnEdit(t, a, SENTINEL);
    if a in ids {
      RenameIds(t, a, SENTINEL);
      var t1 := ReplaceLeaf(t, a, SENTINEL).0;
      ReplaceLeafIsAnEdit(t1, b, a);
      RenameBack(t, a);
      if b in ids && b != a {
        SwapByUpdates(ids, a, b);
      }
    }
  }

  /** A successful swap exchanges the two names and moves no rectangle. */
  lemma SwapExchanges(t: LayoutNode, a: PaneId, b: PaneId, r: Rect)
    requires Distinct(PaneIds(t)) && SENTINEL !in PaneIds(t) && b != SENTINEL
    requires a in PaneIds(t) && b in PaneIds(t) && a != b
    ensures PaneIds(SwapLeaves(t, a, b).0) == SwapIds(PaneIds(t), a, b)
    ensures |Positions(SwapLeaves(t, a, b).0, r)| == |Positions(t, r)|
    ensures forall i :: 0 <= i < |Positions(t, r)| ==>
              Positions(SwapLeaves(t, a, b).0, r)[i].rect == Positions(t, r)[i].rect
  {
    SwapSucceeds(t, a, b);
    SwapByUpdates(PaneIds(t), a, b);
    var t1 := ReplaceLeaf(t, a, SENTINEL).0;
    RenameIds(t, a, SENTINEL);
    RenamePositions(t, a, SENTINEL, r);
    var t2 := ReplaceLeaf(t1, b, a).0;
    RenameIds(t1, b, a);
    RenamePositions(t1, b, a, r);
    RenameIds(t2, SENTINEL, b);
    RenamePositions(t2, SENTINEL, b, r);
  }

  /** Renaming a leaf to an unused name and back restores the tree. */
  lemma {:induction false} RenameBack(t: LayoutNode, a: PaneId)
    requires a in PaneIds(t) && SENTINEL !in PaneIds(t)
    ensures ReplaceLeaf(ReplaceLeaf(t, a, SENTINEL).0, SENTINEL, a).0 == t
  {
    if t.Split? {
      ReplaceLeafIsAnEdit(t.first, a, SENTINEL);
      if a in PaneIds(t.first) {
        RenameBack(t.first, a);
        RenameIds(t.first, a, SENTINEL);
        var first' := ReplaceLeaf(t.first, a, SENTINEL).0;
        assert PaneIds(first')[FirstIndex(PaneIds(t.first), a)] == SENTINEL;
        ReplaceLeafIsAnEdit(first', SENTINEL, a);
      } else {
        RenameBack(t.second, a);
        ReplaceLeafIsAnEdit(t.first, SENTINEL, a);
      }
    }
  }

  // ----- Removing -----

  /** The subtree that stays when the leaf at the end of `p` goes. */
  ghost function SiblingAt(t: LayoutNode, p: seq<bool>): LayoutNode
    requires IsPath(t, p) && p != []
    decreases p
  {
    if |p| == 1 then (if p[0] then t.second else t.first)
    else SiblingAt(if p[0] then t.first else t.second, p[1..])
  }

  lemma {:induction false} ParentPath(t: LayoutNode, p: seq<bool>)
    requires IsPath(t, p) && p != []
    ensures IsPath(t, p[..|p| - 1])
    ensures var parent := SubtreeAt(t, p[..|p| - 1]);
            && parent.Split?
            && SubtreeAt(t, p) == (if p[|p| - 1] then parent.first else parent.second)
            && SiblingAt(t, p) == (if p[|p| - 1] then parent.second else parent.first)
  {
    if |p| > 1 {
      ParentPath(if p[0] then t.first else t.second, p[1..]);
      assert p[1..][..|p| - 2] == p[..|p| - 1][1..];
    }
  }

  ghost function RemovedTree(t: LayoutNode, target: PaneId): LayoutNode {
    var (t', res) := RemoveNode(t, target);
    if res.Replaced? then res.replacement else t'
  }

  lemma {:induction false} RemoveAbsent(t: LayoutNode, target: PaneId)
    requires target !in PaneIds(t)
    ensures RemoveNode(t, target) == (t, NotFound)
  {
    if t.Split? {
      RemoveAbsent(t.first, target);
      RemoveAbsent(t.second, target);
    }
  }

  lemma DistinctParts<T>(a: seq<T>, b: seq<T>)
    requires Distinct(a + b)
    ensures Distinct(a) && Distinct(b) && forall x :: x in a ==> x !in b
  {
    var s := a + b;
    assert forall i :: 0 <= i < |a| ==> s[i] == a[i];
    forall i, j | 0 <= i < |a| && 0 <= j < |b|
      ensures a[i] != b[j]
    {
      assert s[i] != s[|a| + j];
    }
    forall i, j | 0 <= i < j < |b|
      ensures b[i] != b[j]
    {
      assert s[|a| + i] != s[|a| + j];
    }
  }

  /** On distinct leaves a removal puts the sibling of the leaf in the place of their split. */
  lemma {:induction false} RemoveIsAnEdit(t: LayoutNode, target: PaneId)
    requires Distinct(PaneIds(t)) && target in PaneIds(t)
    ensures t.Leaf? <==> RemoveNode(t, target).1 == Removed
    ensures t.Split? ==>
              var p := PathTo(t, target);
              p != [] && IsPath(t, p[..|p| - 1]) && RemovedTree(t, target) == PutAt(t, p[..|p| - 1], SiblingAt(t, p))
  {
    if t.Split? {
      var p := PathTo(t, target);
      var first, second := PaneIds(t.first), PaneIds(t.second);
      DistinctParts(first, second);
      ParentPath(t, p);
      if target in first {
        assert target !in second;
        assert p[1..] == PathTo(t.first, target);
        RemoveIsAnEdit(t.first, target);
        if t.first.Split? {
          RemoveAbsent(t.second, target);
          assert p[1..][..|p| - 2] == p[..|p| - 1][1..];
        }
      } else {
        assert p[1..] == PathTo(t.second, target);
        RemoveAbsent(t.first, target);
        RemoveIsAnEdit(t.second, target);
        if t.second.Split? {
          assert p[1..][..|p| - 2] == p[..|p| - 1][1..];
        }
      }
    }
  }

  /** A removal leaves the rectangles before and after those of the parent split as
      they are, and the sibling takes over the parent's rectangle. */
  lemma RemoveIsLocal(t: LayoutNode, target: PaneId, r: Rect)
    returns (before: seq<Placement>, after: seq<Placement>, parent: LayoutNode, sibling: LayoutNode, hole: Rect)
    requires Distinct(PaneIds(t)) && target in PaneIds(t) && t.Split?
    ensures parent.Split?
    ensures (parent.first == Leaf(target) && parent.second == sibling)
         || (parent.first == sibling && parent.second == Leaf(target))
    ensures Positions(t, r) == before + Positions(parent, hole) + after
    ensures Positions(RemovedTree(t, target), r) == before + Positions(sibling, hole) + after
  {
    var p := PathTo(t, target);
    RemoveIsAnEdit(t, target);
    ParentPath(t, p);
    var q := p[..|p| - 1];
    parent, sibling, hole := SubtreeAt(t, q), SiblingAt(t, p), RectAt(t, q, r);
    before, after := Before(t, q, r), After(t, q, r);
    EditIsLocal(t, q, sibling, r);
  }

  /** A removal deletes exactly the one id and keeps the order of the rest. */
  lemma RemoveDeletes(t: LayoutNode, target: PaneId) returns (i: nat)
    requires Distinct(PaneIds(t)) && target in PaneIds(t) && t.Split?
    ensures i < |PaneIds(t)| && PaneIds(t)[i] == target
    ensures PaneIds(RemovedTree(t, target)) == PaneIds(t)[..i] + PaneIds(t)[i + 1..]
  {
    var before, after, parent, sibling, hole := RemoveIsLocal(t, target, ANY_RECT);
    EditIdsOf(t, before, parent, after, hole);
    EditIdsOf(RemovedTree(t, target), before, sibling, after, hole);
    i := DeleteAround(Ids(before), target, PaneIds(sibling), Ids(after), parent.first == Leaf(target));
  }

  lemma DeleteAround(b: seq<PaneId>, x: PaneId, kept: seq<PaneId>, a: seq<PaneId>, front: bool) returns (i: nat)
    ensures var s := b + (if front then [x] + kept else kept + [x]) + a;
            i < |s| && s[i] == x && s[..i] + s[i + 1..] == b + kept + a
  {
    i := if front then |b| else |b| + |kept|;
  }

  /** What the engine is told distinguishes the three cases on distinct leaves. */
  lemma RemoveReports(t: LayoutNode, target: PaneId)
    requires Distinct(PaneIds(t))
    ensures RemoveNode(t, target).1 == Removed <==> t == Leaf(target)
    ensures RemoveNode(t, target).1 == NotFound ==> RemoveNode(t, target).0 == RemovedTree(t, target)
    ensures target !in PaneIds(t) ==> RemovedTree(t, target) == t
    ensures t != Leaf(target) ==> target !in PaneIds(RemovedTree(t, target))
  {
    if target in PaneIds(t) {
      RemoveIsAnEdit(t, target);
      if t.Split? {
        var i := RemoveDeletes(t, target);
      }
    } else {
      RemoveAbsent(t, target);
    }
  }
}
