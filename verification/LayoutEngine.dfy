/** The layout engine: the object that owns the tree. */
module LayoutEngines {
  import opened Options
  import opened Layout
  import opened LayoutEdits
  import opened LayoutTemplates

  function RootIds(root: Option<LayoutNode>): seq<PaneId> {
    match root
    case None => []
    case Some(t) => PaneIds(t)
  }

  function RootPositions(root: Option<LayoutNode>, cols: nat, rows: nat): seq<Placement> {
    match root
    case None => []
    case Some(t) => Positions(t, Rect(0, 0, cols, rows))
  }

  /** `s` without its first `x`. */
  ghost function Without<T>(s: seq<T>, x: T): seq<T> {
    if x in s then s[..FirstIndex(s, x)] + s[FirstIndex(s, x) + 1..] else s
  }

  class LayoutEngine {
    var root: Option<LayoutNode>

    constructor ()
      ensures root == None
    {
      root := None;
    }

    /** An empty layout gets its root; otherwise the last pane is split. */
    method AddPane(id: PaneId)
      modifies this
      ensures Distinct(old(RootIds(root))) ==> RootIds(root) == old(RootIds(root)) + [id]
      ensures old(root) == None ==> root == Some(Leaf(id))
      ensures old(root).Some? ==>
                var t := old(root).value;
                root == Some(SplitNode(t, PaneIds(t)[|PaneIds(t)| - 1], id, Vertical).0)
    {
      match root
      case None =>
        root := Some(Leaf(id));
      case Some(t) =>
        var ids := PaneIds(t);
        var last := ids[|ids| - 1];
        var done := SplitPane(last, id, Vertical);
        if Distinct(ids) {
          SplitLast(t, id);
        }
    }

    method SplitPane(target: PaneId, newPane: PaneId, direction: SplitDirection) returns (ok: bool)
      modifies this
      ensures ok <==> target in old(RootIds(root))
      ensures root == match old(root)
                      case None => None
                      case Some(t) => Some(SplitNode(t, target, newPane, direction).0)
    {
      match root
      case None =>
        ok := false;
      case Some(t) =>
        SplitIsAnEdit(t, target, newPane, direction);
        var res := SplitNode(t, target, newPane, direction);
        root, ok := Some(res.0), res.1;
    }

    /** On distinct leaves exactly the one id goes, and a layout with a root always
        reports success, even for an id it never held. */
    method RemovePane(id: PaneId) returns (ok: bool)
      modifies this
      ensures Distinct(old(RootIds(root))) ==>
                && RootIds(root) == Without(old(RootIds(root)), id)
                && ok == old(root.Some?)
      ensures root == match old(root)
                      case None => None
                      case Some(t) =>
                        var (t', res) := RemoveNode(t, id);
                        if res.Removed? then None else if res.Replaced? then Some(res.replacement) else Some(t')
    {
      match root
      case None =>
        ok := false;
      case Some(t) =>
        if Distinct(PaneIds(t)) {
          RemoveReports(t, id);
          RemoveWithout(t, id);
        }
        var (t', res) := RemoveNode(t, id);
        match res
        case Removed =>
          root, ok := None, true;
        case Replaced(newRoot) =>
          root, ok := Some(newRoot), true;
        case NotFound =>
          root := Some(t');
          ok := id !in PaneIds(t');
    }

    method PaneIdList() returns (ids: seq<PaneId>)
      ensures ids == RootIds(root)
    {
      ids := match root
        case Some(t) => PaneIds(t)
        case None => [];
    }

    method ComputePositions(cols: nat, rows: nat) returns (out: seq<Placement>)
      ensures out == RootPositions(root, cols, rows)
    {
      out := [];
      match root
      case None =>
      case Some(t) =>
        out := ComputePositionsInner(t, Rect(0, 0, cols, rows), out);
    }

    method AdjustPaneRatio(target: PaneId, axis: SplitDirection, delta: real) returns (ok: bool)
      modifies this
      ensures RootIds(root) == old(RootIds(root))
      ensures ok ==> target in RootIds(root)
      ensures !ok ==> root == old(root)
      ensures old(root).Some? ==>
                (root, ok) == var res := AdjustRatio(old(root).value, target, axis, delta); (Some(res.0), res.1)
    {
      match root
      case None =>
        ok := false;
      case Some(t) =>
        AdjustKeepsIds(t, target, axis, delta);
        if target in PaneIds(t) {
          AdjustReachesOutermost(t, target, axis, delta);
        }
        var res := AdjustRatio(t, target, axis, delta);
        root, ok := Some(res.0), res.1;
    }

    /** With distinct leaves, none of them the stand-in, two different leaves trade
        places and anything else is refused without a trace. */
    method SwapPanes(a: PaneId, b: PaneId) returns (ok: bool)
      modifies this
      ensures old(root) == None ==> root == None && !ok
      ensures old(root).Some? ==> (root, ok) == var res := SwapLeaves(old(root).value, a, b); (Some(res.0), res.1)
      ensures var ids := old(RootIds(root));
              Distinct(ids) && SENTINEL !in ids && b != SENTINEL ==>
                && (ok <==> a in ids && b in ids && a != b)
                && (if ok then RootIds(root) == SwapIds(ids, a, b) else root == old(root))
    {
      match root
      case None =>
        ok := false;
      case Some(t) =>
        var res := SwapLeaves(t, a, b);
        if Distinct(PaneIds(t)) && SENTINEL !in PaneIds(t) && b != SENTINEL {
          SwapSucceeds(t, a, b);
          if res.1 {
            SwapExchanges(t, a, b, ANY_RECT);
          }
        }
        root, ok := Some(res.0), res.1;
    }

    /** Rename the template's leaves one after the other, split extra panes off the
        last one, prune extra leaves. */
    method ApplyTemplate(template: LayoutNode, paneIds: seq<PaneId>)
      modifies this
      ensures root == if paneIds == [] then old(root) else Some(AppliedTree(template, paneIds))
      ensures paneIds != [] && |paneIds| >= |PaneIds(template)| ==>
                multiset(RootIds(root)) == multiset(paneIds)
    {
      if paneIds == [] {
        return;
      }
      if |paneIds| >= |PaneIds(template)| {
        AppliedMultiset(template, paneIds);
      }
      var templateIds := PaneIds(template);
      var tree := RenameInTurn(template, templateIds, paneIds);
      if |paneIds| > |templateIds| {
        tree := SplitOffExtras(tree, paneIds[|templateIds| - 1], paneIds[|templateIds|..]);
      }
      if |templateIds| > |paneIds| {
        tree := PruneExtras(tree, templateIds[|paneIds|..]);
      }
      assert templateIds[|templateIds|..] == [];
      root := Some(tree);
    }
  }

  method RenameInTurn(template: LayoutNode, templateIds: seq<PaneId>, paneIds: seq<PaneId>)
    returns (tree: LayoutNode)
    ensures tree == Renamed(template, templateIds, paneIds, Min(|templateIds|, |paneIds|))
  {
    tree := template;
    for i := 0 to |paneIds|
      invariant tree == Renamed(template, templateIds, paneIds, Min(i, |templateIds|))
    {
      if i < |templateIds| {
        tree := ReplaceLeaf(tree, templateIds[i], paneIds[i]).0;
      }
    }
  }

  method SplitOffExtras(t: LayoutNode, last: PaneId, extras: seq<PaneId>) returns (tree: LayoutNode)
    ensures tree == ChainSplits(t, last, extras)
  {
    tree := t;
    var lastId := last;
    for j := 0 to |extras|
      invariant ChainSplits(tree, lastId, extras[j..]) == ChainSplits(t, last, extras)
    {
      assert extras[j..][1..] == extras[j + 1..];
      tree := SplitNode(tree, lastId, extras[j], Vertical).0;
      lastId := extras[j];
    }
  }

  method PruneExtras(t: LayoutNode, extras: seq<PaneId>) returns (tree: LayoutNode)
    ensures tree == Pruned(t, extras)
  {
    tree := t;
    for j := 0 to |extras|
      invariant Pruned(tree, extras[j..]) == Pruned(t, extras)
    {
      assert extras[j..][1..] == extras[j + 1..];
      tree := RemoveNode(tree, extras[j]).0;
    }
  }

  lemma SplitLast(t: LayoutNode, id: PaneId)
    requires Distinct(PaneIds(t))
    ensures var last := PaneIds(t)[|PaneIds(t)| - 1];
            PaneIds(SplitNode(t, last, id, Vertical).0) == PaneIds(t) + [id]
  {
    var ids := PaneIds(t);
    var last := ids[|ids| - 1];
    assert ids[..|ids| - 1] + [last] == ids;
    FirstIndexUnique(ids, last, |ids| - 1);
    SplitIds(t, last, id, Vertical);
  }

  lemma RemoveWithout(t: LayoutNode, id: PaneId)
    requires Distinct(PaneIds(t))
    ensures t == Leaf(id) ==> Without(PaneIds(t), id) == []
    ensures t != Leaf(id) ==> PaneIds(RemovedTree(t, id)) == Without(PaneIds(t), id)
  {
    RemoveReports(t, id);
    if id in PaneIds(t) && t.Split? {
      var i := RemoveDeletes(t, id);
      assert id !in PaneIds(t)[..i];
      FirstIndexUnique(PaneIds(t), id, i);
    }
  }

  lemma {:induction false} AdjustKeepsIds(t: LayoutNode, target: PaneId, axis: SplitDirection, delta: real)
    ensures PaneIds(AdjustRatio(t, target, axis, delta).0) == PaneIds(t)
    ensures AdjustRatio(t, target, axis, delta).1 ==> target in PaneIds(t)
  {
    if t.Split? {
      AdjustKeepsIds(t.first, target, axis, delta);
      AdjustKeepsIds(t.second, target, axis, delta);
    }
  }

  // ----- Which split a ratio change reaches -----

  /** How many splits along `axis` lie on the path `p`. */
  ghost function AxisSplits(t: LayoutNode, p: seq<bool>, axis: SplitDirection): nat
    requires IsPath(t, p)
  {
    if p == [] then 0
    else (if t.direction == axis then 1 else 0) + AxisSplits(if p[0] then t.first else t.second, p[1..], axis)
  }

  /** The first split along `axis` that the path `p` passes. */
  ghost function OutermostSplit(t: LayoutNode, p: seq<bool>, axis: SplitDirection): (q: seq<bool>)
    requires IsPath(t, p) && AxisSplits(t, p, axis) > 0
    ensures IsPath(t, q) && SubtreeAt(t, q).Split? && SubtreeAt(t, q).direction == axis
  {
    if t.direction == axis then []
    else
      var q := [p[0]] + OutermostSplit(if p[0] then t.first else t.second, p[1..], axis);
      assert q[1..] == OutermostSplit(if p[0] then t.first else t.second, p[1..], axis);
      q
  }

  /** The last split along `axis` that the path `p` passes. */
  ghost function NearestSplit(t: LayoutNode, p: seq<bool>, axis: SplitDirection): (q: seq<bool>)
    requires IsPath(t, p) && AxisSplits(t, p, axis) > 0
    ensures IsPath(t, q) && SubtreeAt(t, q).Split? && SubtreeAt(t, q).direction == axis
  {
    var child := if p[0] then t.first else t.second;
    if AxisSplits(child, p[1..], axis) == 0 then []
    else
      var q := [p[0]] + NearestSplit(child, p[1..], axis);
      assert q[1..] == NearestSplit(child, p[1..], axis);
      q
  }

  /** A ratio change is reported exactly when some ancestor splits along the axis, and
      it reaches the outermost of them, growing the side that holds the target. */
  lemma {:induction false} AdjustReachesOutermost(t: LayoutNode, target: PaneId, axis: SplitDirection, delta: real)
    requires target in PaneIds(t)
    ensures AdjustRatio(t, target, axis, delta).1 <==> AxisSplits(t, PathTo(t, target), axis) > 0
    ensures !AdjustRatio(t, target, axis, delta).1 ==> AdjustRatio(t, target, axis, delta).0 == t
    ensures AdjustRatio(t, target, axis, delta).1 ==>
              var q := OutermostSplit(t, PathTo(t, target), axis);
              var node := SubtreeAt(t, q);
              var grown := ClampRatio(if target in PaneIds(node.first) then node.ratio + delta else node.ratio - delta);
              AdjustRatio(t, target, axis, delta).0 == PutAt(t, q, node.(ratio := grown))
  {
    if t.Split? {
      var p := PathTo(t, target);
      var child := if target in PaneIds(t.first) then t.first else t.second;
      assert p[1..] == PathTo(child, target);
      if t.direction != axis {
        AdjustReachesOutermost(child, target, axis, delta);
        if AdjustRatio(t, target, axis, delta).1 {
          assert OutermostSplit(t, p, axis)[1..] == OutermostSplit(child, p[1..], axis);
        }
      }
    }
  }

  /** The documentation speaks of the nearest ancestor along the axis: that is the
      split reached exactly when there is only one. */
  lemma {:induction false} OutermostIsNearest(t: LayoutNode, p: seq<bool>, axis: SplitDirection)
    requires IsPath(t, p) && AxisSplits(t, p, axis) > 0
    ensures OutermostSplit(t, p, axis) == NearestSplit(t, p, axis) <==> AxisSplits(t, p, axis) == 1
  {
    if t.direction != axis {
      var child := if p[0] then t.first else t.second;
      OutermostIsNearest(child, p[1..], axis);
      assert OutermostSplit(t, p, axis)[1..] == OutermostSplit(child, p[1..], axis);
      assert NearestSplit(t, p, axis)[1..] == NearestSplit(child, p[1..], axis);
    }
  }
}
