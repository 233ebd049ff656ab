/** A tab: a layout, its panes, the floating panes, and the focus. */
module Tabs {
  import opened Options
  import opened Layout
  import opened LayoutEdits
  import opened LayoutTemplates
  import opened LayoutEngines
  import opened Focus
  import opened TabState

  class Tab {
    const layout: LayoutEngine
    var panes: map<PaneId, Pane>
    var activePane: Option<PaneId>
    var nextPaneId: PaneId
    var cols: nat
    var rows: nat
    var fullscreenPane: Option<PaneId>
    var floatingPanes: seq<FloatingPane>
    var showFloating: bool
    var swapLayouts: seq<SwapLayout>
    var currentSwapIndex: Option<nat>

    /** The tiled panes, in layout order. */
    ghost function Ids(): seq<PaneId>
      reads layout
    {
      RootIds(layout.root)
    }

    /** The floating panes, bottom first. */
    ghost function Floats(): seq<PaneId>
      reads this
    {
      FloatIds(floatingPanes)
    }

    ghost function Rects(): seq<Placement>
      reads this, layout
    {
      RootPositions(layout.root, cols, rows)
    }

    /** The invariant but for the focus. */
    ghost predicate Grounded()
      reads this, layout
    {
      && Tiled(Ids(), panes)
      && Floating(Floats(), panes)
      && Numbered(panes, Floats(), nextPaneId)
      && Sized(Rects(), panes)
      && forall i :: 0 <= i < |swapLayouts| ==> Fits(swapLayouts[i])
    }

    ghost predicate Valid()
      reads this, layout
    {
      Grounded() && Focused(activePane, panes, Floats())
    }

    constructor (cols: nat, rows: nat)
      ensures Valid() && fresh(layout)
      ensures Ids() == [0] && floatingPanes == [] && activePane == Some(0)
      ensures this.cols == cols && this.rows == rows
    {
      hide Tiled, Sized, Floating, Numbered, Focused, Positions, SplitNode;
      var engine := new LayoutEngine();
      engine.AddPane(0);
      layout := engine;
      panes := map[0 := Pane(0, cols, rows, None, None)];
      activePane, nextPaneId := Some(0), 1;
      this.cols, this.rows := cols, rows;
      fullscreenPane, floatingPanes, showFloating := None, [], true;
      swapLayouts, currentSwapIndex := [], None;
      SinglePane(cols, rows);
    }

    // ----- Sizes -----

    /** Each placed pane takes the size of its rectangle; nothing else changes. */
    method SyncPaneSizes()
      requires Tiled(Ids(), panes)
      modifies this`panes
      ensures panes == Resized(old(panes), Rects())
      ensures panes.Keys == old(panes.Keys) && Tiled(Ids(), panes) && Sized(Rects(), panes)
      ensures SameButSize(old(panes), panes)
    {
      hide Tiled, Sized, Positions, PaneIds, RootPositions, RootIds, Resized;
      SyncedPanes(layout.root, cols, rows, panes);
      var ps := layout.ComputePositions(cols, rows);
      ResizedNone(panes, ps);
      for i := 0 to |ps|
        invariant panes == Resized(old(panes), ps[..i])
      {
        ResizedStep(old(panes), ps, i);
        if ps[i].id in panes {
          panes := panes[ps[i].id := panes[ps[i].id].(cols := ps[i].rect.cols, rows := ps[i].rect.rows)];
        }
      }
      assert ps[..|ps|] == ps;
    }

    method Resize(cols: nat, rows: nat)
      requires Valid()
      modifies this`panes, this`cols, this`rows
      ensures Valid() && this.cols == cols && this.rows == rows
      ensures panes.Keys == old(panes.Keys) && SameButSize(old(panes), panes)
    {
      this.cols, this.rows := cols, rows;
      SyncPaneSizes();
    }

    /** Grows a tiled pane along an axis it is not fixed on. */
    method ResizePane(id: PaneId, direction: ResizeDirection, amount: int) returns (ok: bool)
      requires Valid()
      modifies this`panes, layout
      ensures Valid() && Ids() == old(Ids()) && panes.Keys == old(panes.Keys) && SameButSize(old(panes), panes)
      ensures var vertical := direction.ResizeLeft? || direction.ResizeRight?;
              var total := if vertical then cols else rows;
              if id in old(panes) && total > 0
                 && (if vertical then old(panes)[id].fixedCols.None? else old(panes)[id].fixedRows.None?)
              then
                var res := AdjustRatio(old(layout.root).value, id, if vertical then Vertical else Horizontal,
                                       amount as real / total as real);
                layout.root == Some(res.0) && ok == res.1
              else !ok && layout.root == old(layout.root)
      ensures !ok ==> panes == old(panes)
    {
      if id !in panes {
        return false;
      }
      var pane := panes[id];
      var vertical := direction.ResizeLeft? || direction.ResizeRight?;
      if (vertical && pane.fixedCols.Some?) || (!vertical && pane.fixedRows.Some?) {
        return false;
      }
      var total := if vertical then cols else rows;
      if total == 0 {
        return false;
      }
      ok := layout.AdjustPaneRatio(id, if vertical then Vertical else Horizontal, amount as real / total as real);
      if ok {
        SyncPaneSizes();
      }
    }

    // ----- Splitting and closing -----

    /** Whether a pane is tiled, free along the axis, and large enough for two. */
    method CanSplit(id: PaneId, direction: SplitDirection) returns (ok: bool)
      requires Tiled(Ids(), panes)
      ensures ok <==> Splittable(Rects(), panes, id, direction)
      ensures ok ==> id in panes
    {
      hide Tiled, Splittable, Positions, PaneIds, RootPositions, RootIds;
      SplittableInTree(layout.root, cols, rows, panes, id, direction);
      if !IsFree(panes, id, direction) {
        return false;
      }
      var ps := layout.ComputePositions(cols, rows);
      var found := FindPlacement(ps, id);
      ok := found.Some? && HasRoom(found.value, direction);
    }

    /** Splits the active pane exactly when it can be split. The new pane gets the next
        id and the focus; the tree is the old one with that one leaf split, laid out
        anew if a swap layout now applies. */
    method SplitPane(direction: SplitDirection) returns (r: Option<PaneId>)
      requires Valid() && nextPaneId < SENTINEL
      modifies this, layout
      ensures Valid() && fullscreenPane == None
      ensures r.Some? <==> old(Splittable(Rects(), panes, activePane.value, direction))
      ensures r.None? ==>
                && unchanged(layout)
                && unchanged(`panes, `activePane, `nextPaneId, `floatingPanes, `currentSwapIndex)
      ensures r.Some? ==>
                && r == Some(old(nextPaneId)) && nextPaneId == old(nextPaneId) + 1 && activePane == r
                && panes.Keys == old(panes.Keys) + {old(nextPaneId)} && SameButSize(old(panes), panes)
                && panes[r.value].fixedRows.None? && panes[r.value].fixedCols.None?
      ensures r.Some? ==>
                layout.root == Some(AutoSwapped(SplitNode(old(layout.root).value, old(activePane).value, r.value,
                                                          direction).0,
                                                swapLayouts, old(currentSwapIndex), |panes|))
      ensures floatingPanes == old(floatingPanes) && swapLayouts == old(swapLayouts)
              && (cols, rows) == old((cols, rows))
    {
      hide Tiled, Sized, Floating, Numbered, Focused, Positions, PaneIds, RootPositions, SplitNode, Splittable,
        AutoSwapped;
      NextIsFresh(panes, Floats(), nextPaneId, activePane);
      fullscreenPane := None;
      var active := activePane.value;
      var ok := CanSplit(active, direction);
      if !ok {
        return None;
      }
      var newId := nextPaneId;
      nextPaneId := nextPaneId + 1;
      SplitTiled(active, newId, direction);
      OneMorePane(old(panes), panes, Floats(), newId);
      activePane := Some(newId);
      AutoSwapLayout();
      r := Some(newId);
    }

    /** The tree, the pane map and the sizes after a split of a pane that can be split. */
    method SplitTiled(active: PaneId, newId: PaneId, direction: SplitDirection)
      requires Tiled(Ids(), panes) && Splittable(Rects(), panes, active, direction) && newId !in panes
      requires active in panes
      modifies this`panes, layout
      ensures Tiled(Ids(), panes) && Sized(Rects(), panes)
      ensures panes.Keys == old(panes.Keys) + {newId} && SameButSize(old(panes), panes)
      ensures panes[newId].fixedRows.None? && panes[newId].fixedCols.None?
      ensures layout.root == Some(SplitNode(old(layout.root).value, active, newId, direction).0)
      ensures direction == Vertical ==> panes[active].cols >= MIN_PANE_COLS && panes[newId].cols >= MIN_PANE_COLS
      ensures direction == Horizontal ==> panes[active].rows >= MIN_PANE_ROWS && panes[newId].rows >= MIN_PANE_ROWS
    {
      hide Tiled, Sized, Positions, PaneIds, RootPositions, SplitNode, Splittable;
      SplittableInTree(layout.root, cols, rows, panes, active, direction);
      var ps := layout.ComputePositions(cols, rows);
      var pos := FindPlacement(ps, active).value;
      var (newCols, newRows) := match direction
        case Horizontal => (pos.cols, pos.rows - pos.rows / 2)
        case Vertical => (pos.cols - pos.cols / 2, pos.rows);
      var pane := Pane(newId, newCols, newRows, None, None);
      TiledAfterRootSplit(layout.root, active, direction, panes, pane);
      panes := panes[newId := pane];
      var done := layout.SplitPane(active, newId, direction);
      SyncPaneSizes();
      SplitSizes(old(layout.root), layout.root, active, newId, direction, cols, rows, old(panes), panes);
    }

    /** Closes a tiled pane that is not the last. Focus stays unless it was on the pane
        closed; then it goes to the first pane left. */
    method ClosePane(id: PaneId) returns (ok: bool)
      requires Valid()
      modifies this`panes, this`activePane, this`fullscreenPane, this`currentSwapIndex, layout
      ensures Valid()
      ensures ok <==> id in old(panes) && |old(panes)| > 1
      ensures !ok ==> unchanged(this) && unchanged(layout)
      ensures ok ==> panes.Keys == old(panes.Keys) - {id} && SameButSize(old(panes), panes)
      ensures ok ==>
                activePane == if old(activePane) == Some(id) then Some(Without(old(Ids()), id)[0]) else old(activePane)
      ensures ok ==> layout.root == Some(AutoSwapped(RemovedTree(old(layout.root).value, id),
                                                     swapLayouts, old(currentSwapIndex), |panes|))
    {
      hide Tiled, Sized, Floating, Numbered, Focused, Positions, PaneIds, RootPositions, AutoSwapped, RemovedTree;
      if |panes| <= 1 {
        return false;
      }
      if id !in panes {
        return false;
      }
      if fullscreenPane == Some(id) {
        fullscreenPane := None;
      }
      FewerPanes(panes, id, Floats(), nextPaneId);
      OtherKeepsFocus(activePane, panes, id, Floats());
      RemoveTiled(id);
      FirstIsTiled(Ids(), panes, Floats());
      if activePane == Some(id) {
        var ids := layout.PaneIdList();
        activePane := Some(ids[0]);
      }
      ghost var removed := panes;
      SyncPaneSizes();
      SamePanes(removed, panes, Floats(), nextPaneId, activePane);
      AutoSwapLayout();
      ok := true;
    }

    /** The pane leaves the tree and the map. */
    method RemoveTiled(id: PaneId)
      requires Tiled(Ids(), panes) && id in panes && |panes| > 1
      modifies this`panes, layout
      ensures Ids() == Without(old(Ids()), id) && panes == old(panes) - {id}
      ensures old(layout.root).Some? && layout.root == Some(RemovedTree(old(layout.root).value, id))
      ensures Tiled(Ids(), panes)
    {
      TiledAfterRemove(Ids(), panes, id);
      var removed := layout.RemovePane(id);
      panes := panes - {id};
    }

    // ----- Swap layouts -----

    /** The first layout of that name is replaced where it stands; a new name goes last. Any
        layout can be registered; the invariant is kept by those that fit. */
    method RegisterSwapLayout(s: SwapLayout)
      modifies this`swapLayouts
      ensures old(Valid()) && Fits(s) ==> Valid()
      ensures var i := NamedAt(old(swapLayouts), s.name);
              swapLayouts == if i.Some? then old(swapLayouts)[i.value := s] else old(swapLayouts) + [s]
    {
      for i := 0 to |swapLayouts|
        invariant swapLayouts == old(swapLayouts)
        invariant forall k :: 0 <= k < i ==> swapLayouts[k].name != s.name
      {
        if swapLayouts[i].name == s.name {
          swapLayouts := swapLayouts[i := s];
          return;
        }
      }
      swapLayouts := swapLayouts + [s];
    }

    /** The panes are laid out by the template; none is lost, doubled or invented. */
    method ApplySwapLayoutAt(index: nat)
      requires Valid() && index < |swapLayouts| && Applicable(swapLayouts[index], |panes|)
      modifies this`panes, this`currentSwapIndex, layout
      ensures Valid() && panes.Keys == old(panes.Keys) && SameButSize(old(panes), panes)
      ensures currentSwapIndex == Some(index)
      ensures multiset(Ids()) == multiset(old(Ids()))
      ensures layout.root == Some(AppliedTree(swapLayouts[index].layout, old(Ids())))
    {
      hide Tiled, Sized, Floating, Numbered, Focused, Positions, PaneIds, RootPositions, AppliedTree;
      var template := swapLayouts[index].layout;
      var ids := layout.PaneIdList();
      FitsThePanes(ids, panes, swapLayouts[index]);
      layout.ApplyTemplate(template, ids);
      TiledAfterShuffle(ids, Ids(), panes);
      currentSwapIndex := Some(index);
      SyncPaneSizes();
      SamePanes(old(panes), panes, Floats(), nextPaneId, activePane);
    }

    /** The first applicable layout is applied unless it is already in force. */
    method AutoSwapLayout()
      requires Valid()
      modifies this`panes, this`currentSwapIndex, layout
      ensures Valid() && panes.Keys == old(panes.Keys) && multiset(Ids()) == multiset(old(Ids()))
      ensures SameButSize(old(panes), panes)
      ensures var applicable := ApplicableIndices(swapLayouts, |old(panes)|);
              currentSwapIndex == if applicable == [] then None else Some(applicable[0])
      ensures layout.root == Some(AutoSwapped(old(layout.root).value, swapLayouts, old(currentSwapIndex), |old(panes)|))
    {
      var applicable := ApplicableIndices(swapLayouts, |panes|);
      if applicable != [] {
        assert applicable[0] in applicable;
        if currentSwapIndex != Some(applicable[0]) {
          ApplySwapLayoutAt(applicable[0]);
        }
      } else {
        currentSwapIndex := None;
      }
    }

    /** The place after the layout in force, the first if none is. */
    static method NextOf(applicable: seq<nat>, inForce: Option<nat>) returns (next: nat)
      requires applicable != []
      ensures next < |applicable| && applicable[next] in applicable && IsNextIn(applicable, inForce, applicable[next])
    {
      hide IsNextIn, IndexOf;
      NextIndex(applicable, inForce);
      var current := if inForce.Some? then IndexOf(applicable, inForce.value) else None;
      next := match current
        case Some(k) => (k + 1) % |applicable|
        case None => 0;
    }

    static method PreviousOf(applicable: seq<nat>, inForce: Option<nat>) returns (previous: nat)
      requires applicable != []
      ensures previous < |applicable| && applicable[previous] in applicable
      ensures IsPreviousIn(applicable, inForce, applicable[previous])
    {
      hide IsPreviousIn, IndexOf;
      PreviousIndex(applicable, inForce);
      var current := if inForce.Some? then IndexOf(applicable, inForce.value) else None;
      previous := match current
        case Some(k) => if k == 0 then |applicable| - 1 else k - 1
        case None => |applicable| - 1;
    }

    /** Cycles forwards through the applicable layouts, from the first when none is in force. */
    method NextSwapLayout()
      requires Valid()
      modifies this`panes, this`currentSwapIndex, layout
      ensures Valid() && panes.Keys == old(panes.Keys) && multiset(Ids()) == multiset(old(Ids()))
      ensures SameButSize(old(panes), panes)
      ensures var applicable := ApplicableIndices(swapLayouts, |old(panes)|);
              if applicable == [] then unchanged(layout) && unchanged(this)
              else
                && currentSwapIndex.Some?
                && IsNextIn(applicable, old(currentSwapIndex), currentSwapIndex.value)
                && currentSwapIndex.value < |swapLayouts| && old(Ids()) != []
                && layout.root == Some(AppliedTree(swapLayouts[currentSwapIndex.value].layout, old(Ids())))
    {
      hide Valid, AppliedTree, PaneIds, ApplicableIndices, IsNextIn, IsPreviousIn;
      NoneApplicable(|panes|);
      if swapLayouts == [] {
        return;
      }
      var applicable := ApplicableIndices(swapLayouts, |panes|);
      if applicable == [] {
        return;
      }
      var next := NextOf(applicable, currentSwapIndex);
      ApplySwapLayoutAt(applicable[next]);
    }

    /** Cycles backwards, from the last when none is in force. */
    method PrevSwapLayout()
      requires Valid()
      modifies this`panes, this`currentSwapIndex, layout
      ensures Valid() && panes.Keys == old(panes.Keys) && multiset(Ids()) == multiset(old(Ids()))
      ensures SameButSize(old(panes), panes)
      ensures var applicable := ApplicableIndices(swapLayouts, |old(panes)|);
              if applicable == [] then unchanged(layout) && unchanged(this)
              else
                && currentSwapIndex.Some?
                && IsPreviousIn(applicable, old(currentSwapIndex), currentSwapIndex.value)
                && currentSwapIndex.value < |swapLayouts| && old(Ids()) != []
                && layout.root == Some(AppliedTree(swapLayouts[currentSwapIndex.value].layout, old(Ids())))
    {
      hide Valid, AppliedTree, PaneIds, ApplicableIndices, IsNextIn, IsPreviousIn;
      NoneApplicable(|panes|);
      if swapLayouts == [] {
        return;
      }
      var applicable := ApplicableIndices(swapLayouts, |panes|);
      if applicable == [] {
        return;
      }
      var previous := PreviousOf(applicable, currentSwapIndex);
      ApplySwapLayoutAt(applicable[previous]);
    }

    // ----- Focus -----

    method FocusPane(id: PaneId) returns (ok: bool)
      requires Valid()
      modifies this`activePane, this`fullscreenPane, this`floatingPanes
      ensures Valid()
      ensures ok <==> id in panes || id in old(Floats())
      ensures activePane == if ok then Some(id) else old(activePane)
      ensures floatingPanes == if id in panes || !ok then old(floatingPanes) else ToFront(old(floatingPanes), id)
      ensures fullscreenPane == if id in panes && old(fullscreenPane) != Some(id) then None else old(fullscreenPane)
    {
      if id in panes {
        if fullscreenPane.Some? && fullscreenPane != Some(id) {
          fullscreenPane := None;
        }
        activePane := Some(id);
        ok := true;
      } else if FloatIndex(floatingPanes, id).Some? {
        activePane := Some(id);
        ok := BringFloatingToFront(id);
      } else {
        ok := false;
      }
    }

    /** The pane leaves its place in the z-order and goes on top. */
    method BringFloatingToFront(id: PaneId) returns (ok: bool)
      requires Grounded()
      modifies this`floatingPanes
      ensures Grounded() && (Focused(activePane, panes, old(Floats())) ==> Focused(activePane, panes, Floats()))
      ensures ok <==> id in old(Floats())
      ensures floatingPanes == ToFront(old(floatingPanes), id)
    {
      hide Tiled, Sized, Floating, Numbered, Focused, Positions, PaneIds, RootPositions, FloatIndex;
      MovedToFront(floatingPanes, panes, nextPaneId, activePane, id);
      match FloatIndex(floatingPanes, id)
      case Some(i) =>
        var fp := floatingPanes[i];
        floatingPanes := floatingPanes[..i] + floatingPanes[i + 1..] + [fp];
        ok := true;
      case None =>
        ok := false;
    }

    /** The pane goes to the bottom instead. */
    method SendFloatingToBack(id: PaneId) returns (ok: bool)
      requires Valid()
      modifies this`floatingPanes
      ensures Valid()
      ensures ok <==> id in old(Floats())
      ensures floatingPanes == ToBack(old(floatingPanes), id)
    {
      hide Tiled, Sized, Floating, Numbered, Focused, Positions, PaneIds, RootPositions, FloatIndex;
      MovedToBack(floatingPanes, panes, nextPaneId, activePane, id);
      match FloatIndex(floatingPanes, id)
      case Some(i) =>
        var fp := floatingPanes[i];
        floatingPanes := [fp] + (floatingPanes[..i] + floatingPanes[i + 1..]);
        ok := true;
      case None =>
        ok := false;
    }

    /** Two floating panes change places in the z-order; no other moves. */
    method SwapFloatingZOrder(a: PaneId, b: PaneId) returns (ok: bool)
      requires Valid()
      modifies this`floatingPanes
      ensures Valid()
      ensures ok <==> a in old(Floats()) && b in old(Floats())
      ensures floatingPanes == Exchanged(old(floatingPanes), a, b)
      ensures ok ==> Floats() == SwapIds(old(Floats()), a, b)
    {
      hide Tiled, Sized, Floating, Numbered, Focused, Positions, PaneIds, RootPositions, FloatIndex, FloatIds, SwapIds;
      ExchangedFloats(floatingPanes, panes, nextPaneId, activePane, a, b);
      var i, j := FloatIndex(floatingPanes, a), FloatIndex(floatingPanes, b);
      ok := i.Some? && j.Some?;
      if ok {
        floatingPanes := floatingPanes[i.value := floatingPanes[j.value]][j.value := floatingPanes[i.value]];
      }
    }

    /** The tiled panes, then the floating ones if they are shown. */
    method FocusCycle() returns (ids: seq<PaneId>)
      ensures ids == Ids() + if showFloating then Floats() else []
    {
      ids := layout.PaneIdList();
      if showFloating {
        ids := ids + FloatIds(floatingPanes);
      }
    }

    /** The focus goes to the next pane of the cycle, or to its first when it was outside. */
    method FocusNext() returns (ok: bool)
      requires Valid()
      modifies this`activePane, this`fullscreenPane, this`floatingPanes
      ensures Valid() && ok && fullscreenPane == None
      ensures IsNextIn(old(Ids() + if showFloating then Floats() else []), old(activePane), activePane.value)
      ensures floatingPanes == ToFront(old(floatingPanes), activePane.value)
    {
      hide Tiled, Sized, Floating, Numbered, Focused, Positions, RootPositions, IsNextIn, PaneIds, FloatIndex, IndexOf,
        FloatIds, Fits;
      fullscreenPane, ok := None, true;
      var ids := FocusCycle();
      CycleIsFocusable(Ids(), panes, Floats(), ids);
      NextIndex(ids, activePane);
      match if activePane.Some? then IndexOf(ids, activePane.value) else None
      case Some(pos) =>
        var next := (pos + 1) % |ids|;
        activePane := Some(ids[next]);
        if FloatIndex(floatingPanes, ids[next]).Some? {
          var moved := BringFloatingToFront(ids[next]);
        }
      case None =>
        HiddenFloatsStay(Ids(), panes, floatingPanes, showFloating, activePane);
        activePane := Some(ids[0]);
    }

    /** The focus goes to the previous pane of the cycle, or to its last when it was outside. */
    method FocusPrev() returns (ok: bool)
      requires Valid()
      modifies this`activePane, this`fullscreenPane, this`floatingPanes
      ensures Valid() && ok && fullscreenPane == None
      ensures IsPreviousIn(old(Ids() + if showFloating then Floats() else []), old(activePane), activePane.value)
      ensures floatingPanes == ToFront(old(floatingPanes), activePane.value)
    {
      hide Tiled, Sized, Floating, Numbered, Focused, Positions, RootPositions, IsPreviousIn, PaneIds, FloatIndex,
        IndexOf, FloatIds, Fits;
      fullscreenPane, ok := None, true;
      var ids := FocusCycle();
      CycleIsFocusable(Ids(), panes, Floats(), ids);
      PreviousIndex(ids, activePane);
      match if activePane.Some? then IndexOf(ids, activePane.value) else None
      case Some(pos) =>
        var prev := if pos == 0 then |ids| - 1 else pos - 1;
        activePane := Some(ids[prev]);
        if FloatIndex(floatingPanes, ids[prev]).Some? {
          var moved := BringFloatingToFront(ids[prev]);
        }
      case None =>
        HiddenFloatsStay(Ids(), panes, floatingPanes, showFloating, activePane);
        activePane := Some(ids[|ids| - 1]);
    }

    /** The first nearest pane beyond that edge of the active one, if it is tiled and there is any. */
    method FindNeighborInDirection(direction: FocusDirection) returns (r: Option<PaneId>)
      requires Tiled(Ids(), panes)
      ensures IsNeighbour(Rects(), activePane, direction, r)
    {
      hide Tiled, Positions, PaneIds, RootPositions, IsNearest;
      if activePane.None? {
        return None;
      }
      var ps := layout.ComputePositions(cols, rows);
      match FindPlacement(ps, activePane.value)
      case None =>
        r := None;
      case Some(a) =>
        var best := FindNearest(ps, activePane.value, a, direction);
        NearestIndex(ps, activePane.value, a, direction, best);
        r := if best.Some? then Some(ps[best.value].id) else None;
    }

    /** Focus moves to the nearest pane in that direction. With a tiled active pane and no
        empty rectangle it fails exactly when the active pane touches that edge of the tab. */
    method FocusInDirection(direction: FocusDirection) returns (ok: bool)
      requires Valid()
      modifies this`activePane, this`fullscreenPane
      ensures Valid()
      ensures if ok then fullscreenPane == None && IsNeighbour(Rects(), old(activePane), direction, activePane)
              else unchanged(this) && IsNeighbour(Rects(), activePane, direction, None)
      ensures var found := FindPlacement(Rects(), old(activePane).value);
              found.Some? && AllNonEmpty(Rects()) ==>
                (!ok <==> TouchesEdge(direction, found.value, Rect(0, 0, cols, rows)))
    {
      hide Tiled, Sized, Floating, Numbered, Focused, Positions, PaneIds, RootPositions, IsNeighbour, AllNonEmpty;
      var r := FindNeighborInDirection(direction);
      MovesUnlessAtEdge(layout.root, cols, rows, panes, Floats(), activePane, direction, r);
      match r
      case Some(target) =>
        fullscreenPane := None;
        activePane := Some(target);
        ok := true;
      case None =>
        ok := false;
    }

    // ----- Moving panes -----

    /** The active pane trades places with its neighbour, when it has one. */
    method MoveActivePane(direction: FocusDirection) returns (ok: bool)
      requires Grounded()
      modifies this`panes, layout
      ensures Grounded() && panes.Keys == old(panes.Keys) && SameButSize(old(panes), panes)
      ensures !ok ==> unchanged(this) && unchanged(layout) && IsNeighbour(Rects(), activePane, direction, None)
      ensures ok ==> activePane.Some? && activePane.value in panes
      ensures ok ==> exists n :: IsNeighbour(old(Rects()), activePane, direction, Some(n))
                                 && Ids() == SwapIds(old(Ids()), activePane.value, n)
                                 && old(layout.root).Some?
                                 && layout.root == Some(SwapLeaves(old(layout.root).value, activePane.value, n).0)
    {
      hide Tiled, Sized, Floating, Numbered, Positions, PaneIds, RootPositions, IsNeighbour, SwapIds;
      if activePane.None? {
        NoFocusNoNeighbour(Rects(), direction);
        return false;
      }
      var r := FindNeighborInDirection(direction);
      match r
      case None =>
        ok := false;
      case Some(n) =>
        NeighbourIsOther(layout.root, cols, rows, panes, Floats(), nextPaneId, activePane, direction, n);
        TiledAfterSwap(Ids(), panes, activePane.value, n);
        ok := layout.SwapPanes(activePane.value, n);
        SyncPaneSizes();
        SamePanes(old(panes), panes, Floats(), nextPaneId, activePane);
    }

    /** The same for a named pane, which gets the focus if it moves. */
    method MovePaneById(id: PaneId, direction: FocusDirection) returns (ok: bool)
      requires Valid()
      modifies this`panes, this`activePane, layout
      ensures Valid() && panes.Keys == old(panes.Keys) && SameButSize(old(panes), panes)
      ensures activePane == if ok then Some(id) else old(activePane)
      ensures ok ==>
                exists n ::
                  && IsNeighbour(old(Rects()), Some(id), direction, Some(n)) && Ids() == SwapIds(old(Ids()), id, n)
                  && old(layout.root).Some? && layout.root == Some(SwapLeaves(old(layout.root).value, id, n).0)
      ensures !ok ==> unchanged(layout) && panes == old(panes)
    {
      hide Tiled, Sized, Floating, Numbered, Positions, RootPositions, IsNeighbour, SwapIds, PaneIds;
      var oldActive := activePane;
      activePane := Some(id);
      ok := MoveActivePane(direction);
      if !ok {
        activePane := oldActive;
      }
    }

    /** A pane trades places with the one before it in layout order. */
    method MovePaneBackwards(id: PaneId) returns (ok: bool)
      requires Valid()
      modifies this`panes, layout
      ensures Valid() && panes.Keys == old(panes.Keys) && SameButSize(old(panes), panes)
      ensures ok <==> id in old(Ids()) && FirstIndex(old(Ids()), id) > 0
      ensures ok ==>
                var before := old(Ids())[FirstIndex(old(Ids()), id) - 1];
                && Ids() == SwapIds(old(Ids()), id, before) && old(layout.root).Some?
                && layout.root == Some(SwapLeaves(old(layout.root).value, id, before).0)
      ensures !ok ==> unchanged(this) && unchanged(layout)
    {
      hide Tiled, Sized, Floating, Numbered, Focused, Positions, PaneIds, RootPositions, SwapIds, IndexOf;
      var ids := layout.PaneIdList();
      match IndexOf(ids, id)
      case None =>
        ok := false;
      case Some(pos) =>
        if pos == 0 {
          return false;
        }
        PreviousIsOther(ids, panes, Floats(), nextPaneId, pos);
        TiledAfterSwap(ids, panes, id, ids[pos - 1]);
        ok := layout.SwapPanes(id, ids[pos - 1]);
        SyncPaneSizes();
        SamePanes(old(panes), panes, Floats(), nextPaneId, activePane);
    }

    /** Splits the last of the largest tiled panes, along its longer side; the focus is
        put back when that pane cannot be split. */
    method SplitLargestPane() returns (r: Option<PaneId>)
      requires Valid() && nextPaneId < SENTINEL
      modifies this, layout
      ensures Valid() && fullscreenPane == None
      ensures r.None? ==> unchanged(layout) && panes == old(panes) && activePane == old(activePane)
                          && nextPaneId == old(nextPaneId)
      ensures r.Some? ==> r == Some(old(nextPaneId)) && activePane == r
                          && panes.Keys == old(panes.Keys) + {old(nextPaneId)} && SameButSize(old(panes), panes)
      ensures exists k :: IsLargest(old(Rects()), k)
                          && (r.Some? <==> Splittable(old(Rects()), old(panes), old(Rects())[k].id,
                                                      LongSide(old(Rects())[k].rect)))
                          && (r.Some? ==>
                                layout.root == Some(AutoSwapped(SplitNode(old(layout.root).value, old(Rects())[k].id,
                                                                          r.value, LongSide(old(Rects())[k].rect)).0,
                                                                swapLayouts, old(currentSwapIndex), |panes|)))
    {
      hide Tiled, Sized, Floating, Numbered, Focused, Positions, PaneIds, RootPositions, SplitNode, Splittable,
        AutoSwapped, IsLargest;
      fullscreenPane := None;
      var ps := layout.ComputePositions(cols, rows);
      SomePlaced(layout.root, cols, rows, panes, Floats());
      var k := FindLargest(ps);
      var oldActive := activePane;
      activePane := Some(ps[k].id);
      r := SplitPane(LongSide(ps[k].rect));
      if r.None? {
        activePane := oldActive;
      }
    }

    // ----- Full screen -----

    method ToggleFullscreen() returns (ok: bool)
      requires Valid()
      modifies this`fullscreenPane
      ensures Valid() && ok
      ensures fullscreenPane == if old(fullscreenPane).Some? then None else activePane
    {
      fullscreenPane := if fullscreenPane.Some? then None else activePane;
      ok := true;
    }

    method ToggleFullscreenById(id: PaneId) returns (ok: bool)
      requires Valid()
      modifies this`fullscreenPane, this`activePane
      ensures Valid()
      ensures ok <==> id in panes
      ensures !ok ==> unchanged(this)
      ensures ok && old(fullscreenPane) == Some(id) ==> fullscreenPane == None && activePane == old(activePane)
      ensures ok && old(fullscreenPane) != Some(id) ==> fullscreenPane == Some(id) && activePane == Some(id)
    {
      if id !in panes {
        return false;
      }
      if fullscreenPane == Some(id) {
        fullscreenPane := None;
      } else {
        fullscreenPane := Some(id);
        activePane := Some(id);
      }
      ok := true;
    }

    // ----- Floating panes -----

    /** A floating pane of half the tab, centred. */
    method NewFloatingPane() returns (id: PaneId)
      requires Valid() && nextPaneId < SENTINEL
      modifies this`nextPaneId, this`floatingPanes, this`showFloating, this`activePane
      ensures Valid() && id == old(nextPaneId) && activePane == Some(id) && nextPaneId == id + 1
      ensures Floats() == old(Floats()) + [id] && InViewport(floatingPanes[|floatingPanes| - 1], cols, rows)
      ensures var fp := floatingPanes[|floatingPanes| - 1];
              && fp.width == Min(Max(cols / 2, MIN_FLOATING_COLS), cols) && 0 <= cols - (2 * fp.x + fp.width) <= 1
              && fp.height == Min(Max(rows / 2, MIN_FLOATING_ROWS), rows) && 0 <= rows - (2 * fp.y + fp.height) <= 1
    {
      hide Grounded, Focused;
      var w, h := Max(cols / 2, MIN_FLOATING_COLS), Max(rows / 2, MIN_FLOATING_ROWS);
      id := NewFloatingPaneWithCoords(SatSub(cols, w) / 2, SatSub(rows, h) / 2, w, h);
    }

    /** The new pane is on top, has the focus, and is clamped into the tab. */
    method NewFloatingPaneWithCoords(x: nat, y: nat, w: nat, h: nat) returns (id: PaneId)
      requires Valid() && nextPaneId < SENTINEL
      modifies this`nextPaneId, this`floatingPanes, this`showFloating, this`activePane
      ensures Valid() && id == old(nextPaneId) && activePane == Some(id) && nextPaneId == id + 1 && showFloating
      ensures |floatingPanes| == |old(floatingPanes)| + 1 && floatingPanes[..|old(floatingPanes)|] == old(floatingPanes)
      ensures Floats() == old(Floats()) + [id] && InViewport(floatingPanes[|floatingPanes| - 1], cols, rows)
      ensures var fp := floatingPanes[|floatingPanes| - 1];
              && fp.width == Min(Max(w, MIN_FLOATING_COLS), cols) && fp.x == Min(x, cols - fp.width) && fp.visible
              && fp.height == Min(Max(h, MIN_FLOATING_ROWS), rows) && fp.y == Min(y, rows - fp.height)
    {
      hide Tiled, Sized, Floating, Numbered, Focused, Positions, PaneIds, RootPositions, FloatIds;
      id := nextPaneId;
      nextPaneId := nextPaneId + 1;
      var w', h' := Min(Max(w, MIN_FLOATING_COLS), cols), Min(Max(h, MIN_FLOATING_ROWS), rows);
      var x', y' := Min(x, SatSub(cols, w')), Min(y, SatSub(rows, h'));
      var fp := FloatingPane(Pane(id, w', h', None, None), x', y', w', h', true);
      FloatIdsAppend(floatingPanes, fp);
      OneMoreFloat(panes, Floats(), id);
      floatingPanes := floatingPanes + [fp];
      showFloating := true;
      activePane := Some(id);
    }

    /** Hiding takes the focus off a floating pane; showing puts it on the top one. */
    method ToggleFloatingPanes()
      requires Valid()
      modifies this`showFloating, this`activePane
      ensures Valid() && showFloating == !old(showFloating)
      ensures !showFloating ==>
                activePane == if old(activePane).value in Floats() then Some(Ids()[0]) else old(activePane)
      ensures showFloating ==>
                activePane == if floatingPanes == [] then old(activePane) else Some(Floats()[|floatingPanes| - 1])
    {
      hide Tiled, Sized, Floating, Numbered, Focused, Positions, PaneIds, RootPositions, FloatIndex;
      FirstIsTiled(Ids(), panes, Floats());
      NextIsFresh(panes, Floats(), nextPaneId, activePane);
      TopIsFloating(panes, floatingPanes);
      showFloating := !showFloating;
      if !showFloating {
        if activePane.Some? && FloatIndex(floatingPanes, activePane.value).Some? {
          var ids := layout.PaneIdList();
          activePane := Some(ids[0]);
        }
      } else if floatingPanes != [] {
        activePane := Some(floatingPanes[|floatingPanes| - 1].pane.id);
      }
    }

    /** The focus of a closed floating pane goes to the one now on top, or to the first tiled pane. */
    method CloseFloatingPane(id: PaneId) returns (ok: bool)
      requires Valid()
      modifies this`floatingPanes, this`activePane
      ensures Valid()
      ensures ok <==> id in old(Floats())
      ensures !ok ==> unchanged(this)
      ensures ok ==>
                && floatingPanes == WithoutFloat(old(floatingPanes), id)
                && activePane == (if old(activePane) != Some(id) then old(activePane)
                                  else if floatingPanes != [] then Some(Floats()[|floatingPanes| - 1])
                                  else Some(Ids()[0]))
    {
      hide Tiled, Sized, Floating, Numbered, Focused, Positions, PaneIds, RootPositions, FloatIndex, FloatIds;
      FloatLeaves(floatingPanes, panes, nextPaneId, activePane, id);
      FirstIsTiled(Ids(), panes, FloatIds(WithoutFloat(floatingPanes, id)));
      match FloatIndex(floatingPanes, id)
      case Some(i) =>
        floatingPanes := floatingPanes[..i] + floatingPanes[i + 1..];
        TopIsFloating(panes, floatingPanes);
        if activePane == Some(id) {
          if floatingPanes != [] {
            activePane := Some(floatingPanes[|floatingPanes| - 1].pane.id);
          } else {
            var ids := layout.PaneIdList();
            activePane := Some(ids[0]);
          }
        }
        ok := true;
      case None =>
        ok := false;
    }

    /** A pane joins the map and the tree, where the last leaf is split. */
    method AddTiled(pane: Pane)
      requires Tiled(Ids(), panes) && pane.id !in panes
      modifies this`panes, layout
      ensures panes.Keys == old(panes.Keys) + {pane.id} && SameButSize(old(panes), panes)
      ensures Ids() == old(Ids()) + [pane.id] && Tiled(Ids(), panes) && Sized(Rects(), panes)
      ensures old(layout.root).Some? && old(Ids()) != []
      ensures layout.root == Some(SplitNode(old(layout.root).value, old(Ids())[|old(Ids())| - 1], pane.id, Vertical).0)
    {
      hide Tiled, Sized, Positions, PaneIds, RootPositions, SplitNode, Distinct, SameButSize;
      OneMoreTiled(layout.root, panes, pane);
      panes := panes[pane.id := pane];
      layout.AddPane(pane.id);
      ghost var tiled := panes;
      SyncPaneSizes();
      SameTwice(old(panes), tiled, panes);
    }

    /** A floating pane joins the tiled ones, last in layout order. */
    method EmbedFloatingPane(id: PaneId) returns (ok: bool)
      requires Valid()
      modifies this`floatingPanes, this`panes, this`activePane, layout
      ensures Valid()
      ensures ok <==> id in old(Floats())
      ensures !ok ==> unchanged(this) && unchanged(layout)
      ensures ok ==>
                && Ids() == old(Ids()) + [id] && panes.Keys == old(panes.Keys) + {id} && activePane == Some(id)
                && SameButSize(old(panes), panes) && old(layout.root).Some? && old(Ids()) != []
                && layout.root == Some(SplitNode(old(layout.root).value, old(Ids())[|old(Ids())| - 1], id, Vertical).0)
                && floatingPanes == WithoutFloat(old(floatingPanes), id)
    {
      hide Tiled, Sized, Floating, Numbered, Focused, Positions, PaneIds, RootPositions, FloatIndex, SplitNode,
        FloatIds, Distinct, Fits, SameButSize;
      FloatLeaves(floatingPanes, panes, nextPaneId, activePane, id);
      match FloatIndex(floatingPanes, id)
      case Some(i) =>
        var fp := floatingPanes[i];
        FloatBecomesTiled(layout.root, panes, floatingPanes, nextPaneId, i);
        floatingPanes := floatingPanes[..i] + floatingPanes[i + 1..];
        AddTiled(fp.pane);
        SamePanes(old(panes)[id := fp.pane], panes, Floats(), nextPaneId, Some(id));
        activePane := Some(id);
        ok := true;
      case None =>
        ok := false;
    }

    /** A tiled pane that is not the last becomes the top floating one, half the tab in
        size; it lies inside the tab exactly when the tab holds the minimal floating size. */
    method FloatPane(id: PaneId) returns (ok: bool)
      requires Valid()
      modifies this`floatingPanes, this`panes, this`activePane, this`showFloating, layout
      ensures Valid()
      ensures ok <==> id in old(panes) && |old(panes)| > 1
      ensures !ok ==> unchanged(this) && unchanged(layout)
      ensures ok ==>
                && Ids() == Without(old(Ids()), id) && panes.Keys == old(panes.Keys) - {id} && activePane == Some(id)
                && SameButSize(old(panes), panes)
                && old(layout.root).Some? && layout.root == Some(RemovedTree(old(layout.root).value, id))
                && showFloating && Floats() == old(Floats()) + [id] && |floatingPanes| == |old(floatingPanes)| + 1
                && floatingPanes[..|old(floatingPanes)|] == old(floatingPanes)
                && (var fp := floatingPanes[|floatingPanes| - 1];
                    && fp.width == Max(cols / 2, MIN_FLOATING_COLS) && fp.x == SatSub(cols, fp.width) / 2 && fp.visible
                    && fp.height == Max(rows / 2, MIN_FLOATING_ROWS) && fp.y == SatSub(rows, fp.height) / 2)
                && (InViewport(floatingPanes[|floatingPanes| - 1], cols, rows)
                    <==> cols >= MIN_FLOATING_COLS && rows >= MIN_FLOATING_ROWS)
    {
      hide Tiled, Sized, Floating, Numbered, Focused, Positions, PaneIds, RootPositions, RemovedTree, FloatIds;
      if id !in panes {
        return false;
      }
      if |panes| <= 1 {
        return false;
      }
      PaneKnowsItsId(Ids(), panes, id);
      TiledBecomesFloat(panes, Floats(), nextPaneId, id);
      var pane := panes[id];
      RemoveTiled(id);
      ghost var tiled := panes;
      SyncPaneSizes();
      SamePanes(tiled, panes, Floats() + [id], nextPaneId, Some(id));
      var w, h := Max(cols / 2, MIN_FLOATING_COLS), Max(rows / 2, MIN_FLOATING_ROWS);
      var fp := FloatingPane(pane.(cols := w, rows := h), SatSub(cols, w) / 2, SatSub(rows, h) / 2, w, h, true);
      FloatIdsAppend(floatingPanes, fp);
      floatingPanes := floatingPanes + [fp];
      showFloating := true;
      activePane := Some(id);
      ok := true;
    }

    method ResizeFloatingPane(id: PaneId, width: nat, height: nat) returns (ok: bool)
      requires Valid()
      modifies this`floatingPanes
      ensures Valid() && Floats() == old(Floats())
      ensures ok <==> id in Floats()
      ensures !ok ==> unchanged(this)
      ensures ok ==> exists i :: 0 <= i < |floatingPanes| && floatingPanes[i].pane.id == id
                                 && floatingPanes == old(floatingPanes)[i := floatingPanes[i]]
                                 && InViewport(floatingPanes[i], cols, rows)
                                 && floatingPanes[i].width == Min(Max(width, MIN_FLOATING_COLS), cols)
                                 && floatingPanes[i].height == Min(Max(height, MIN_FLOATING_ROWS), rows)
    {
      match FloatIndex(floatingPanes, id)
      case Some(i) =>
        var fp := floatingPanes[i];
        var w, h := Min(Max(width, MIN_FLOATING_COLS), cols), Min(Max(height, MIN_FLOATING_ROWS), rows);
        var fp' := FloatingPane(fp.pane.(cols := w, rows := h), Min(fp.x, SatSub(cols, w)), Min(fp.y, SatSub(rows, h)),
                                w, h, fp.visible);
        FloatIdsUpdate(floatingPanes, i, fp');
        floatingPanes := floatingPanes[i := fp'];
        ok := true;
      case None =>
        ok := false;
    }

    method MoveFloatingPane(id: PaneId, x: nat, y: nat) returns (ok: bool)
      requires Valid()
      modifies this`floatingPanes
      ensures Valid() && Floats() == old(Floats())
      ensures ok <==> id in Floats()
      ensures !ok ==> unchanged(this)
      ensures ok ==> exists i :: 0 <= i < |floatingPanes| && old(floatingPanes)[i].pane.id == id
                                 && var fp := old(floatingPanes)[i];
                                    floatingPanes == old(floatingPanes)[i := fp.(x := Min(x, SatSub(cols, fp.width)),
                                                                                 y := Min(y, SatSub(rows, fp.height)))]
    {
      match FloatIndex(floatingPanes, id)
      case Some(i) =>
        var fp := floatingPanes[i];
        var fp' := fp.(x := Min(x, SatSub(cols, fp.width)), y := Min(y, SatSub(rows, fp.height)));
        FloatIdsUpdate(floatingPanes, i, fp');
        floatingPanes := floatingPanes[i := fp'];
        ok := true;
      case None =>
        ok := false;
    }
  }
}
