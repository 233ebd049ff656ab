/** What a tab keeps true, piece by piece, and the searches its operations make. */
module TabState {
  import opened Options
  import opened Layout
  import opened LayoutEdits
  import opened LayoutTemplates
  import opened LayoutEngines
  import opened Focus

  const MIN_PANE_COLS := 2
  const MIN_PANE_ROWS := 2
  const MIN_FLOATING_COLS := 5
  const MIN_FLOATING_ROWS := 2

  datatype ResizeDirection = ResizeUp | ResizeDown | ResizeLeft | ResizeRight

  /** A pane; a constraint, when present, keeps it from being split or resized along that axis. */
  datatype Pane = Pane(id: PaneId, cols: nat, rows: nat, fixedRows: Option<nat>, fixedCols: Option<nat>)

  datatype FloatingPane = FloatingPane(pane: Pane, x: nat, y: nat, width: nat, height: nat, visible: bool)

  datatype SwapLayout = SwapLayout(name: string, minPanes: Option<nat>, maxPanes: Option<nat>, layout: LayoutNode)

  // ----- The invariant, piece by piece -----

  /** The leaves are distinct and are exactly the keys of the pane map. */
  ghost predicate Tiled(ids: seq<PaneId>, panes: map<PaneId, Pane>) {
    && ids != [] && Distinct(ids) && |panes| == |ids|
    && (forall id :: id in ids <==> id in panes)
    && (forall id :: id in panes ==> panes[id].id == id)
  }

  /** Every placed pane has the size of its rectangle. */
  ghost predicate Sized(ps: seq<Placement>, panes: map<PaneId, Pane>) {
    forall i :: 0 <= i < |ps| && ps[i].id in panes ==>
      panes[ps[i].id].cols == ps[i].rect.cols && panes[ps[i].id].rows == ps[i].rect.rows
  }

  /** The panes of both maps differ at most in their sizes. */
  ghost predicate SameButSize(before: map<PaneId, Pane>, after: map<PaneId, Pane>) {
    forall id :: id in before && id in after ==> after[id].(cols := 0, rows := 0) == before[id].(cols := 0, rows := 0)
  }

  lemma SameTwice(a: map<PaneId, Pane>, b: map<PaneId, Pane>, c: map<PaneId, Pane>)
    requires SameButSize(a, b) && SameButSize(b, c) && forall id :: id in a && id in c ==> id in b
    ensures SameButSize(a, c)
  {
  }

  function FloatIds(fs: seq<FloatingPane>): (ids: seq<PaneId>)
    ensures |ids| == |fs|
    ensures forall i :: 0 <= i < |fs| ==> ids[i] == fs[i].pane.id
  {
    seq(|fs|, i requires 0 <= i < |fs| => fs[i].pane.id)
  }

  /** Floating ids are distinct and none of them is tiled. */
  ghost predicate Floating(fids: seq<PaneId>, panes: map<PaneId, Pane>) {
    Distinct(fids) && forall id :: id in fids ==> id !in panes
  }

  /** Every id in use is below the next one, and none is the stand-in. */
  ghost predicate Numbered(panes: map<PaneId, Pane>, fids: seq<PaneId>, next: PaneId) {
    && next <= SENTINEL
    && (forall id :: id in panes ==> id < next)
    && (forall id :: id in fids ==> id < next)
  }

  ghost predicate Focused(active: Option<PaneId>, panes: map<PaneId, Pane>, fids: seq<PaneId>) {
    active.Some? && (active.value in panes || active.value in fids)
  }

  /** A registered layout never meets fewer panes than it has leaves. */
  predicate Fits(s: SwapLayout) {
    |PaneIds(s.layout)| <= 1 || (s.minPanes.Some? && s.minPanes.value >= |PaneIds(s.layout)|)
  }

  predicate Applicable(s: SwapLayout, paneCount: nat) {
    && (s.minPanes.None? || paneCount >= s.minPanes.value)
    && (s.maxPanes.None? || paneCount <= s.maxPanes.value)
  }

  /** The applicable layouts, in the order they were registered. */
  function ApplicableIndices(layouts: seq<SwapLayout>, paneCount: nat): (r: seq<nat>)
    ensures forall i: nat :: i in r <==> i < |layouts| && Applicable(layouts[i], paneCount)
    ensures forall k :: 0 < k < |r| ==> r[k - 1] < r[k]
  {
    if layouts == [] then []
    else
      var n := |layouts| - 1;
      var rest := ApplicableIndices(layouts[..n], paneCount);
      if Applicable(layouts[n], paneCount) then
        assert forall k :: 0 <= k < |rest| ==> rest[k] in rest;
        rest + [n]
      else rest
  }

  /** Where a floating pane stands in the z-order. */
  function FloatIndex(fs: seq<FloatingPane>, id: PaneId): (r: Option<nat>)
    ensures r.None? ==> id !in FloatIds(fs)
    ensures r.Some? ==> r.value < |fs| && fs[r.value].pane.id == id && id in FloatIds(fs)
  {
    if fs == [] then None
    else if fs[0].pane.id == id then
      assert FloatIds(fs)[0] == id;
      Some(0)
    else
      assert FloatIds(fs) == [fs[0].pane.id] + FloatIds(fs[1..]);
      match FloatIndex(fs[1..], id)
      case None => None
      case Some(i) => Some(i + 1)
  }

  /** Where an id stands in a list, if it does. */
  function IndexOf(s: seq<PaneId>, x: PaneId): (r: Option<nat>)
    ensures r.None? <==> x !in s
    ensures r.Some? ==> x in s && r.value == FirstIndex(s, x)
  {
    if s == [] then None
    else if s[0] == x then Some(0)
    else match IndexOf(s[1..], x)
      case None => None
      case Some(i) => Some(i + 1)
  }

  /** The first layout of a name. */
  function NamedAt(layouts: seq<SwapLayout>, name: string): (r: Option<nat>)
    ensures r.Some? ==> r.value < |layouts| && layouts[r.value].name == name
    ensures forall k :: 0 <= k < (if r.Some? then r.value else |layouts|) ==> layouts[k].name != name
  {
    if layouts == [] then None
    else if layouts[0].name == name then Some(0)
    else match NamedAt(layouts[1..], name)
      case None => None
      case Some(i) => Some(i + 1)
  }

  /** `next` follows `current` in the cyclic order of `s`, which starts afresh when there is no current one. */
  ghost predicate IsNextIn(s: seq<nat>, current: Option<nat>, next: nat) {
    && s != []
    && (current.None? || current.value !in s ==> next == s[0])
    && (current.Some? && current.value in s ==>
          next == s[if FirstIndex(s, current.value) == |s| - 1 then 0 else FirstIndex(s, current.value) + 1])
  }

  lemma NoneApplicable(paneCount: nat)
    ensures ApplicableIndices([], paneCount) == []
  {
  }

  /** The same, against the order. */
  ghost predicate IsPreviousIn(s: seq<nat>, current: Option<nat>, previous: nat) {
    && s != []
    && (current.None? || current.value !in s ==> previous == s[|s| - 1])
    && (current.Some? && current.value in s ==>
          previous == s[if FirstIndex(s, current.value) == 0 then |s| - 1 else FirstIndex(s, current.value) - 1])
  }

  lemma NextIndex(s: seq<nat>, current: Option<nat>)
    requires s != []
    ensures var at := if current.Some? then IndexOf(s, current.value) else None;
            var next := match at case Some(k) => (k + 1) % |s| case None => 0;
            next < |s| && s[next] in s && IsNextIn(s, current, s[next])
  {
    var at := if current.Some? then IndexOf(s, current.value) else None;
    if at.Some? {
      CyclicStep(at.value, |s|);
    }
  }

  lemma CyclicStep(k: nat, n: nat)
    requires k < n
    ensures (k + 1) % n == if k == n - 1 then 0 else k + 1
  {
  }

  lemma PreviousIndex(s: seq<nat>, current: Option<nat>)
    requires s != []
    ensures var at := if current.Some? then IndexOf(s, current.value) else None;
            var prev := match at case Some(k) => (if k == 0 then |s| - 1 else k - 1) case None => |s| - 1;
            0 <= prev < |s| && s[prev] in s && IsPreviousIn(s, current, s[prev])
  {
  }

  /** Forward then back, or back then forward, is where one was. */
  lemma NextThenPrevious(s: seq<nat>, a: nat, b: nat, c: nat)
    requires Distinct(s) && a in s
    ensures IsNextIn(s, Some(a), b) && IsPreviousIn(s, Some(b), c) ==> c == a
    ensures IsPreviousIn(s, Some(a), b) && IsNextIn(s, Some(b), c) ==> c == a
  {
    var i := FirstIndex(s, a);
    if IsNextIn(s, Some(a), b) {
      FirstIndexUnique(s, b, if i == |s| - 1 then 0 else i + 1);
    }
    if IsPreviousIn(s, Some(a), b) {
      FirstIndexUnique(s, b, if i == 0 then |s| - 1 else i - 1);
    }
  }

  function FindPlacement(ps: seq<Placement>, id: PaneId): (r: Option<Rect>)
    ensures r.Some? ==> exists i :: 0 <= i < |ps| && ps[i] == Placement(id, r.value)
    ensures r.None? <==> forall i :: 0 <= i < |ps| ==> ps[i].id != id
  {
    if ps == [] then None
    else if ps[0].id == id then Some(ps[0].rect)
    else FindPlacement(ps[1..], id)
  }

  /** No constraint fixes the pane along the axis. */
  predicate IsFree(panes: map<PaneId, Pane>, id: PaneId, direction: SplitDirection) {
    id in panes ==> if direction == Vertical then panes[id].fixedCols.None? else panes[id].fixedRows.None?
  }

  /** Room for two minimal panes. */
  predicate HasRoom(r: Rect, direction: SplitDirection) {
    if direction == Vertical then r.cols >= MIN_PANE_COLS * 2 else r.rows >= MIN_PANE_ROWS * 2
  }

  /** A tiled pane free along the axis with room for two. */
  ghost predicate Splittable(ps: seq<Placement>, panes: map<PaneId, Pane>, id: PaneId, direction: SplitDirection) {
    IsFree(panes, id, direction) && exists i :: 0 <= i < |ps| && ps[i].id == id && HasRoom(ps[i].rect, direction)
  }

  lemma SplittableByLookup(ps: seq<Placement>, panes: map<PaneId, Pane>, id: PaneId, direction: SplitDirection)
    requires forall i, j :: 0 <= i < j < |ps| ==> ps[i].id != ps[j].id
    ensures var found := FindPlacement(ps, id);
            Splittable(ps, panes, id, direction)
            <==> IsFree(panes, id, direction) && found.Some? && HasRoom(found.value, direction)
  {
  }

  // ----- Operations on the pieces -----

  /** The panes after each entry in turn has given its pane its size. */
  function Resized(panes: map<PaneId, Pane>, ps: seq<Placement>): map<PaneId, Pane> {
    if ps == [] then panes
    else
      var before, p := Resized(panes, ps[..|ps| - 1]), ps[|ps| - 1];
      if p.id in before then before[p.id := before[p.id].(cols := p.rect.cols, rows := p.rect.rows)] else before
  }

  /** Each placed pane takes the size of its rectangle; nothing else about it changes. */
  lemma {:induction false} ResizedSizes(panes: map<PaneId, Pane>, ps: seq<Placement>)
    requires forall i, j :: 0 <= i < j < |ps| ==> ps[i].id != ps[j].id
    ensures var panes' := Resized(panes, ps);
            && panes'.Keys == panes.Keys && Sized(ps, panes')
            && forall id :: id in panes ==>
                 panes'[id].(cols := 0, rows := 0) == panes[id].(cols := 0, rows := 0)
  {
    if ps != [] {
      var n := |ps| - 1;
      var before := Resized(panes, ps[..n]);
      ResizedSizes(panes, ps[..n]);
      var panes' := Resized(panes, ps);
      assert panes'.Keys == before.Keys;
      forall i | 0 <= i < n && ps[i].id in panes'
        ensures panes'[ps[i].id] == before[ps[i].id]
        ensures before[ps[i].id].cols == ps[i].rect.cols && before[ps[i].id].rows == ps[i].rect.rows
      {
        assert ps[..n][i] == ps[i];
      }
    }
  }

  lemma SyncedPanes(root: Option<LayoutNode>, cols: nat, rows: nat, panes: map<PaneId, Pane>)
    requires Tiled(RootIds(root), panes)
    ensures var panes' := Resized(panes, RootPositions(root, cols, rows));
            && panes'.Keys == panes.Keys && Tiled(RootIds(root), panes')
            && Sized(RootPositions(root, cols, rows), panes') && SameButSize(panes, panes')
  {
    PlacedDistinct(root, cols, rows);
    ResizedSizes(panes, RootPositions(root, cols, rows));
    SameKeys(RootIds(root), panes, Resized(panes, RootPositions(root, cols, rows)));
  }

  lemma ResizedNone(panes: map<PaneId, Pane>, ps: seq<Placement>)
    ensures Resized(panes, ps[..0]) == panes
  {
  }

  lemma ResizedStep(panes: map<PaneId, Pane>, ps: seq<Placement>, i: nat)
    requires i < |ps|
    ensures var before, p := Resized(panes, ps[..i]), ps[i];
            Resized(panes, ps[..i + 1])
            == if p.id in before then before[p.id := before[p.id].(cols := p.rect.cols, rows := p.rect.rows)]
               else before
  {
    assert ps[..i + 1][..i] == ps[..i];
  }

  /** The tree after the automatic choice of a swap layout: the first applicable one,
      unless there is none or it is in force already. */
  function AutoSwapped(t: LayoutNode, layouts: seq<SwapLayout>, current: Option<nat>, paneCount: nat): LayoutNode {
    var applicable := ApplicableIndices(layouts, paneCount);
    if applicable == [] || current == Some(applicable[0]) then t
    else
      assert applicable[0] in applicable;
      AppliedTree(layouts[applicable[0]].layout, PaneIds(t))
  }

  /** The z-order with one pane moved to the top, or to the bottom. */
  function ToFront(fs: seq<FloatingPane>, id: PaneId): seq<FloatingPane> {
    match FloatIndex(fs, id)
    case Some(i) => fs[..i] + fs[i + 1..] + [fs[i]]
    case None => fs
  }

  function ToBack(fs: seq<FloatingPane>, id: PaneId): seq<FloatingPane> {
    match FloatIndex(fs, id)
    case Some(i) => [fs[i]] + (fs[..i] + fs[i + 1..])
    case None => fs
  }

  /** The panes `a` and `b` in each other's places, if both are there. */
  function Exchanged(fs: seq<FloatingPane>, a: PaneId, b: PaneId): seq<FloatingPane> {
    var i, j := FloatIndex(fs, a), FloatIndex(fs, b);
    if i.Some? && j.Some? then fs[i.value := fs[j.value]][j.value := fs[i.value]] else fs
  }

  function WithoutFloat(fs: seq<FloatingPane>, id: PaneId): seq<FloatingPane> {
    match FloatIndex(fs, id)
    case Some(i) => fs[..i] + fs[i + 1..]
    case None => fs
  }

  /** Wholly inside the tab. */
  predicate InViewport(fp: FloatingPane, cols: nat, rows: nat) {
    fp.x + fp.width <= cols && fp.y + fp.height <= rows && fp.pane.cols == fp.width && fp.pane.rows == fp.height
  }

  function LongSide(r: Rect): SplitDirection {
    if r.cols >= r.rows then Vertical else Horizontal
  }

  function Area(r: Rect): nat {
    r.cols * r.rows
  }

  /** The last of the entries of greatest area. */
  ghost predicate IsLargest(ps: seq<Placement>, k: int) {
    && 0 <= k < |ps|
    && (forall j :: 0 <= j < |ps| ==> Area(ps[j].rect) <= Area(ps[k].rect))
    && (forall j :: k < j < |ps| ==> Area(ps[j].rect) < Area(ps[k].rect))
  }

  method FindLargest(ps: seq<Placement>) returns (k: nat)
    requires ps != []
    ensures k < |ps| && IsLargest(ps, k)
  {
    k := 0;
    for i := 1 to |ps|
      invariant 0 <= k < i && IsLargest(ps[..i], k)
    {
      if Area(ps[i].rect) >= Area(ps[k].rect) {
        k := i;
      }
    }
    assert ps[..|ps|] == ps;
  }

  /** `r` is the first nearest candidate of a tiled active pane, or none when there is none. */
  ghost predicate IsNeighbour(ps: seq<Placement>, active: Option<PaneId>, direction: FocusDirection,
                              r: Option<PaneId>) {
    if active.None? || FindPlacement(ps, active.value).None? then r.None?
    else
      var a := FindPlacement(ps, active.value).value;
      match r
      case None => IsNearest(ps, |ps|, active.value, a, direction, None)
      case Some(id) =>
        exists i: nat :: i < |ps| && ps[i].id == id && IsNearest(ps, |ps|, active.value, a, direction, Some(i))
  }

  // ----- How the pieces survive each kind of change -----

  lemma SinglePane(cols: nat, rows: nat)
    ensures var root, panes := Some(Leaf(0)), map[0 := Pane(0, cols, rows, None, None)];
            && Tiled(RootIds(root), panes) && Sized(RootPositions(root, cols, rows), panes)
            && RootIds(root) == [0] && FloatIds([]) == []
            && Floating([], panes) && Numbered(panes, [], 1) && Focused(Some(0), panes, [])
  {
    var panes := map[0 := Pane(0, cols, rows, None, None)];
    assert panes.Keys == {0};
    assert |panes| == |panes.Keys|;
  }

  lemma SameKeys(ids: seq<PaneId>, panes: map<PaneId, Pane>, panes': map<PaneId, Pane>)
    requires Tiled(ids, panes) && panes'.Keys == panes.Keys
    requires forall id :: id in panes ==> panes'[id].id == panes[id].id
    ensures Tiled(ids, panes')
  {
    assert forall id :: id in panes' <==> id in panes'.Keys;
    assert |panes'| == |panes'.Keys| && |panes| == |panes.Keys|;
  }

  /** Distinct leaves give distinct entries, one for each leaf. */
  lemma PlacedDistinct(root: Option<LayoutNode>, cols: nat, rows: nat)
    requires Distinct(RootIds(root))
    ensures var ps := RootPositions(root, cols, rows);
            && |ps| == |RootIds(root)|
            && (forall i :: 0 <= i < |ps| ==> ps[i].id == RootIds(root)[i])
            && (forall i, j :: 0 <= i < j < |ps| ==> ps[i].id != ps[j].id)
  {
    if root.Some? {
      IdsOfPositions(root.value, Rect(0, 0, cols, rows));
    }
  }

  lemma PlacedAreTiled(root: Option<LayoutNode>, cols: nat, rows: nat, panes: map<PaneId, Pane>)
    requires Tiled(RootIds(root), panes)
    ensures var ps := RootPositions(root, cols, rows); forall i :: 0 <= i < |ps| ==> ps[i].id in panes
  {
    PlacedDistinct(root, cols, rows);
    assert forall i :: 0 <= i < |RootIds(root)| ==> RootIds(root)[i] in RootIds(root);
  }

  /** The lookup of the program decides, and finds only panes of the map. */
  lemma SplittableInTree(root: Option<LayoutNode>, cols: nat, rows: nat, panes: map<PaneId, Pane>, id: PaneId,
                         direction: SplitDirection)
    requires Tiled(RootIds(root), panes)
    ensures var ps := RootPositions(root, cols, rows);
            var found := FindPlacement(ps, id);
            && (Splittable(ps, panes, id, direction)
                <==> IsFree(panes, id, direction) && found.Some? && HasRoom(found.value, direction))
            && (found.Some? ==> id in panes)
  {
    PlacedDistinct(root, cols, rows);
    PlacedAreTiled(root, cols, rows, panes);
    SplittableByLookup(RootPositions(root, cols, rows), panes, id, direction);
  }

  lemma TiledAfterInsert(ids: seq<PaneId>, i: nat, panes: map<PaneId, Pane>, pane: Pane)
    requires Tiled(ids, panes) && i < |ids| && pane.id !in panes
    ensures Tiled(ids[..i] + [ids[i], pane.id] + ids[i + 1..], panes[pane.id := pane])
  {
    var ids' := ids[..i] + [ids[i], pane.id] + ids[i + 1..];
    assert ids == ids[..i] + [ids[i]] + ids[i + 1..];
    InsertMultiset(ids, i, pane.id);
    DistinctConcat(ids, [pane.id]);
    assert multiset(ids') == multiset(ids + [pane.id]);
    TiledAfterShuffle(ids + [pane.id], ids', panes[pane.id := pane]);
  }

  lemma TiledAfterSplit(t: LayoutNode, target: PaneId, direction: SplitDirection, panes: map<PaneId, Pane>, pane: Pane)
    requires Tiled(PaneIds(t), panes) && target in panes && pane.id !in panes
    ensures Tiled(PaneIds(SplitNode(t, target, pane.id, direction).0), panes[pane.id := pane])
  {
    SplitIds(t, target, pane.id, direction);
    TiledAfterInsert(PaneIds(t), FirstIndex(PaneIds(t), target), panes, pane);
  }

  lemma TiledAfterRootSplit(root: Option<LayoutNode>, target: PaneId, direction: SplitDirection,
                            panes: map<PaneId, Pane>, pane: Pane)
    requires Tiled(RootIds(root), panes) && target in panes && pane.id !in panes
    ensures root.Some?
    ensures Tiled(RootIds(Some(SplitNode(root.value, target, pane.id, direction).0)), panes[pane.id := pane])
  {
    TiledAfterSplit(root.value, target, direction, panes, pane);
  }

  /** A layout that fits and applies has no more leaves than there are panes. */
  lemma FitsThePanes(ids: seq<PaneId>, panes: map<PaneId, Pane>, s: SwapLayout)
    requires Tiled(ids, panes) && Fits(s) && Applicable(s, |panes|)
    ensures ids != [] && |PaneIds(s.layout)| <= |ids|
  {
  }

  lemma TiledAfterShuffle(ids: seq<PaneId>, ids': seq<PaneId>, panes: map<PaneId, Pane>)
    requires Tiled(ids, panes) && multiset(ids') == multiset(ids)
    ensures Tiled(ids', panes)
  {
    DistinctFromMultiset(ids', ids);
    assert |multiset(ids')| == |multiset(ids)|;
  }

  /** Any template, fitting or not, whose ids are distinct and apart from those of the panes: the
      tab still has exactly its panes if and only if there are as many as leaves, or more than
      the first half of the template has. */
  lemma TemplateKeepsPanes(ids: seq<PaneId>, panes: map<PaneId, Pane>, template: LayoutNode)
    requires Tiled(ids, panes)
    requires Distinct(PaneIds(template)) && forall x :: x in PaneIds(template) ==> x !in ids
    ensures Tiled(PaneIds(AppliedTree(template, ids)), panes)
            <==> |ids| >= |PaneIds(template)| || |ids| > |PaneIds(template.first)|
  {
    hide AppliedTree;
    AppliedExactly(template, ids);
    if !(|ids| >= |PaneIds(template)| || |ids| > |PaneIds(template.first)|) {
      StrayLeaf(template, ids);
    }
  }

  /** A tab of one pane, laid out by a template of two leaves for any number of panes: a leaf that
      is no pane stays. */
  lemma OnePaneTwoLeaves(panes: map<PaneId, Pane>)
    requires Tiled([0], panes)
    ensures var s := SwapLayout("two", None, None, Split(Vertical, 0.5, Leaf(10), Leaf(11)));
            Applicable(s, |panes|) && !Fits(s) && !Tiled(PaneIds(AutoSwapped(Leaf(0), [s], None, |panes|)), panes)
  {
    hide AppliedTree;
    var s := SwapLayout("two", None, None, Split(Vertical, 0.5, Leaf(10), Leaf(11)));
    assert PaneIds(s.layout) == [10, 11] && PaneIds(Leaf(0)) == [0];
    assert 0 in ApplicableIndices([s], |panes|);
    TemplateKeepsPanes([0], panes, s.layout);
  }

  lemma WithoutFacts(ids: seq<PaneId>, x: PaneId)
    requires Distinct(ids) && x in ids
    ensures var ids' := Without(ids, x);
            Distinct(ids') && |ids'| == |ids| - 1 && forall id :: id in ids' <==> id in ids && id != x
  {
    var i := FirstIndex(ids, x);
    var a, b := ids[..i], ids[i + 1..];
    assert ids == (a + [x]) + b;
    DistinctParts(a + [x], b);
    DistinctParts(a, [x]);
    assert x in [x];
    DistinctConcat(a, b);
  }

  lemma TiledAfterRemove(ids: seq<PaneId>, panes: map<PaneId, Pane>, x: PaneId)
    requires Tiled(ids, panes) && x in panes && |panes| > 1
    ensures Tiled(Without(ids, x), panes - {x})
  {
    WithoutFacts(ids, x);
    assert (panes - {x}).Keys == panes.Keys - {x};
    assert |panes| == |panes.Keys| && |panes - {x}| == |(panes - {x}).Keys|;
  }

  /** Fewer tiled panes disturb neither the floating ones nor the numbering. */
  lemma FewerPanes(panes: map<PaneId, Pane>, x: PaneId, fids: seq<PaneId>, next: PaneId)
    requires Floating(fids, panes) && Numbered(panes, fids, next)
    ensures Floating(fids, panes - {x}) && Numbered(panes - {x}, fids, next)
  {
  }

  /** Neither does a change of the panes that keeps their ids. */
  lemma SamePanes(panes: map<PaneId, Pane>, panes': map<PaneId, Pane>, fids: seq<PaneId>, next: PaneId,
                  active: Option<PaneId>)
    requires panes.Keys == panes'.Keys
    ensures Floating(fids, panes) ==> Floating(fids, panes')
    ensures Numbered(panes, fids, next) ==> Numbered(panes', fids, next)
    ensures Focused(active, panes, fids) ==> Focused(active, panes', fids)
  {
    assert forall id :: id in panes <==> id in panes.Keys;
    assert forall id :: id in panes' <==> id in panes'.Keys;
  }

  /** The new tiled pane takes the next number. */
  lemma OneMorePane(panes: map<PaneId, Pane>, panes': map<PaneId, Pane>, fids: seq<PaneId>, next: PaneId)
    requires Floating(fids, panes) && Numbered(panes, fids, next) && next < SENTINEL
    requires panes'.Keys == panes.Keys + {next}
    ensures Floating(fids, panes') && Numbered(panes', fids, next + 1) && Focused(Some(next), panes', fids)
  {
    assert forall id :: id in panes' <==> id in panes'.Keys;
  }

  lemma NextIsFresh(panes: map<PaneId, Pane>, fids: seq<PaneId>, next: PaneId, active: Option<PaneId>)
    requires Numbered(panes, fids, next) && Focused(active, panes, fids)
    ensures next !in panes && next !in fids && active.Some?
  {
  }

  lemma OtherKeepsFocus(active: Option<PaneId>, panes: map<PaneId, Pane>, x: PaneId, fids: seq<PaneId>)
    requires Focused(active, panes, fids)
    ensures active != Some(x) ==> Focused(active, panes - {x}, fids)
  {
  }

  lemma FirstIsTiled(ids: seq<PaneId>, panes: map<PaneId, Pane>, fids: seq<PaneId>)
    requires Tiled(ids, panes)
    ensures ids != [] && Focused(Some(ids[0]), panes, fids)
  {
    assert ids[0] in ids;
  }

  lemma TiledAfterAppend(ids: seq<PaneId>, panes: map<PaneId, Pane>, pane: Pane)
    requires Tiled(ids, panes) && pane.id !in panes
    ensures Tiled(ids + [pane.id], panes[pane.id := pane])
  {
    DistinctConcat(ids, [pane.id]);
  }

  lemma TiledAfterSwap(ids: seq<PaneId>, panes: map<PaneId, Pane>, a: PaneId, b: PaneId)
    requires Tiled(ids, panes) && a in ids && b in ids && a != b
    ensures Tiled(SwapIds(ids, a, b), panes)
  {
    var ids' := SwapIds(ids, a, b);
    forall id | id in ids
      ensures id in ids'
    {
      var other := if id == a then b else if id == b then a else id;
      var k := FirstIndex(ids, other);
      assert ids'[k] == id;
    }
  }

  lemma FloatIdsAppend(fs: seq<FloatingPane>, fp: FloatingPane)
    ensures FloatIds(fs + [fp]) == FloatIds(fs) + [fp.pane.id]
  {
  }

  lemma FloatIdsPrepend(fs: seq<FloatingPane>, fp: FloatingPane)
    ensures FloatIds([fp] + fs) == [fp.pane.id] + FloatIds(fs)
  {
  }

  lemma FloatIdsRemove(fs: seq<FloatingPane>, i: nat)
    requires i < |fs|
    ensures FloatIds(fs[..i] + fs[i + 1..]) == FloatIds(fs)[..i] + FloatIds(fs)[i + 1..]
  {
  }

  lemma FloatingAfterAppend(fids: seq<PaneId>, panes: map<PaneId, Pane>, x: PaneId)
    requires Floating(fids, panes) && x !in fids && x !in panes
    ensures Floating(fids + [x], panes)
  {
    DistinctConcat(fids, [x]);
  }

  lemma FloatingAfterRemove(fids: seq<PaneId>, panes: map<PaneId, Pane>, i: nat)
    requires Floating(fids, panes) && i < |fids|
    ensures var fids' := fids[..i] + fids[i + 1..];
            Floating(fids', panes) && forall id :: id in fids' <==> id in fids && id != fids[i]
  {
    FirstIndexUnique(fids, fids[i], i);
    WithoutFacts(fids, fids[i]);
  }

  /** Splitting a pane that can be split leaves both halves at least the minimum. */
  lemma SplitSizes(root: Option<LayoutNode>, root': Option<LayoutNode>, target: PaneId, newPane: PaneId,
                   direction: SplitDirection, cols: nat, rows: nat, panes: map<PaneId, Pane>, panes': map<PaneId, Pane>)
    requires Tiled(RootIds(root), panes) && target in panes
    requires Splittable(RootPositions(root, cols, rows), panes, target, direction)
    requires root.Some? && root' == Some(SplitNode(root.value, target, newPane, direction).0)
    requires Sized(RootPositions(root', cols, rows), panes')
    requires target in panes' && newPane in panes'
    ensures direction == Vertical ==> panes'[target].cols >= MIN_PANE_COLS && panes'[newPane].cols >= MIN_PANE_COLS
    ensures direction == Horizontal ==> panes'[target].rows >= MIN_PANE_ROWS && panes'[newPane].rows >= MIN_PANE_ROWS
  {
    hide Positions, PaneIds, SplitNode, Distinct, FirstIndex;
    var t, area := root.value, Rect(0, 0, cols, rows);
    var i := FirstIndex(PaneIds(t), target);
    PlacedDistinct(root, cols, rows);
    var a, b := SplitIsLocal(t, target, newPane, direction, area);
    var ps' := Positions(SplitNode(t, target, newPane, direction).0, area);
    assert ps'[i] == Placement(target, a) && ps'[i + 1] == Placement(newPane, b);
  }

  lemma {:induction false} AscendingIsDistinct(s: seq<nat>)
    requires forall k :: 0 < k < |s| ==> s[k - 1] < s[k]
    ensures Distinct(s)
  {
    forall i, j | 0 <= i < j < |s|
      ensures s[i] < s[j]
    {
      AscendingBetween(s, i, j);
    }
  }

  lemma {:induction false} AscendingBetween(s: seq<nat>, i: nat, j: nat)
    requires i < j < |s| && forall k :: 0 < k < |s| ==> s[k - 1] < s[k]
    ensures s[i] < s[j]
  {
    assert s[j - 1] < s[j];
    if i < j - 1 {
      AscendingBetween(s, i, j - 1);
    }
  }

  /** Next and previous undo each other on the applicable layouts, however many there are. */
  lemma SwapCycleReturns(layouts: seq<SwapLayout>, paneCount: nat, a: nat, b: nat, c: nat)
    requires a < |layouts| && Applicable(layouts[a], paneCount)
    ensures var cycle := ApplicableIndices(layouts, paneCount);
            && (IsNextIn(cycle, Some(a), b) && IsPreviousIn(cycle, Some(b), c) ==> c == a)
            && (IsPreviousIn(cycle, Some(a), b) && IsNextIn(cycle, Some(b), c) ==> c == a)
  {
    hide ApplicableIndices, IsNextIn, IsPreviousIn;
    AscendingIsDistinct(ApplicableIndices(layouts, paneCount));
    NextThenPrevious(ApplicableIndices(layouts, paneCount), a, b, c);
  }

  // ----- Z-order -----

  /** The ids of the z-order without the pane at `i`, and what adding it back at an end gives. */
  lemma LiftedOut(fs: seq<FloatingPane>, panes: map<PaneId, Pane>, i: nat)
    requires Floating(FloatIds(fs), panes) && i < |fs|
    ensures var fids, rest := FloatIds(fs), FloatIds(fs[..i] + fs[i + 1..]);
            && Floating(rest + [fids[i]], panes) && Floating([fids[i]] + rest, panes)
            && forall id :: id in fids <==> id in rest || id == fids[i]
  {
    hide FloatIds;
    var fids, rest := FloatIds(fs), FloatIds(fs[..i] + fs[i + 1..]);
    FloatIdsRemove(fs, i);
    FloatingAfterRemove(fids, panes, i);
    assert fids[i] in fids;
    DistinctConcat(rest, [fids[i]]);
    DistinctConcat([fids[i]], rest);
  }

  lemma SameMembers(panes: map<PaneId, Pane>, fids: seq<PaneId>, fids': seq<PaneId>, next: PaneId,
                    active: Option<PaneId>)
    requires forall id :: id in fids <==> id in fids'
    ensures Numbered(panes, fids, next) ==> Numbered(panes, fids', next)
    ensures Focused(active, panes, fids) ==> Focused(active, panes, fids')
  {
  }

  lemma MovedToFront(fs: seq<FloatingPane>, panes: map<PaneId, Pane>, next: PaneId, active: Option<PaneId>, id: PaneId)
    requires Floating(FloatIds(fs), panes) && Numbered(panes, FloatIds(fs), next)
    ensures var fids := FloatIds(ToFront(fs, id));
            && Floating(fids, panes) && Numbered(panes, fids, next)
            && (Focused(active, panes, FloatIds(fs)) ==> Focused(active, panes, fids))
    ensures FloatIndex(fs, id).Some? <==> id in FloatIds(fs)
  {
    hide FloatIds, FloatIndex, Floating, Numbered, Focused;
    if FloatIndex(fs, id).Some? {
      var i := FloatIndex(fs, id).value;
      LiftedOut(fs, panes, i);
      FloatIdsAppend(fs[..i] + fs[i + 1..], fs[i]);
      SameMembers(panes, FloatIds(fs), FloatIds(ToFront(fs, id)), next, active);
    }
  }

  lemma MovedToBack(fs: seq<FloatingPane>, panes: map<PaneId, Pane>, next: PaneId, active: Option<PaneId>, id: PaneId)
    requires Floating(FloatIds(fs), panes) && Numbered(panes, FloatIds(fs), next)
    ensures var fids := FloatIds(ToBack(fs, id));
            && Floating(fids, panes) && Numbered(panes, fids, next)
            && (Focused(active, panes, FloatIds(fs)) ==> Focused(active, panes, fids))
    ensures FloatIndex(fs, id).Some? <==> id in FloatIds(fs)
  {
    hide FloatIds, FloatIndex, Floating, Numbered, Focused;
    if FloatIndex(fs, id).Some? {
      var i := FloatIndex(fs, id).value;
      LiftedOut(fs, panes, i);
      FloatIdsPrepend(fs[..i] + fs[i + 1..], fs[i]);
      SameMembers(panes, FloatIds(fs), FloatIds(ToBack(fs, id)), next, active);
    }
  }

  lemma CycleIsFocusable(ids: seq<PaneId>, panes: map<PaneId, Pane>, fids: seq<PaneId>, cycle: seq<PaneId>)
    requires Tiled(ids, panes) && (cycle == ids + fids || cycle == ids)
    ensures cycle != [] && forall i :: 0 <= i < |cycle| ==> Focused(Some(cycle[i]), panes, fids)
  {
    forall i | 0 <= i < |cycle|
      ensures Focused(Some(cycle[i]), panes, fids)
    {
      assert i < |ids| ==> cycle[i] in ids;
    }
  }

  /** A focused pane outside the cycle is a hidden floating one; the pane at an end of the
      cycle is then tiled, and raising it changes nothing. */
  lemma HiddenFloatsStay(ids: seq<PaneId>, panes: map<PaneId, Pane>, fs: seq<FloatingPane>, shown: bool,
                         active: Option<PaneId>)
    requires Tiled(ids, panes) && Floating(FloatIds(fs), panes) && Focused(active, panes, FloatIds(fs))
    requires active.None? || active.value !in ids + if shown then FloatIds(fs) else []
    ensures !shown && ToFront(fs, ids[0]) == fs && ToFront(fs, ids[|ids| - 1]) == fs
  {
    hide FloatIds;
    assert ids[0] in ids && ids[|ids| - 1] in ids;
  }

  lemma ExchangedFloats(fs: seq<FloatingPane>, panes: map<PaneId, Pane>, next: PaneId, active: Option<PaneId>,
                        a: PaneId, b: PaneId)
    requires Floating(FloatIds(fs), panes) && Numbered(panes, FloatIds(fs), next)
             && Focused(active, panes, FloatIds(fs))
    ensures FloatIndex(fs, a).Some? <==> a in FloatIds(fs)
    ensures FloatIndex(fs, b).Some? <==> b in FloatIds(fs)
    ensures var fids := FloatIds(Exchanged(fs, a, b));
            && Floating(fids, panes) && Numbered(panes, fids, next) && Focused(active, panes, fids)
            && (a in FloatIds(fs) && b in FloatIds(fs) ==> fids == SwapIds(FloatIds(fs), a, b))
  {
    hide Numbered, Focused;
    var i, j := FloatIndex(fs, a), FloatIndex(fs, b);
    if i.Some? && j.Some? {
      var fids, fids' := FloatIds(fs), FloatIds(Exchanged(fs, a, b));
      assert fids' == SwapIds(fids, a, b);
      SwappedMembers(fids, i.value, j.value);
      assert fids' == fids[i.value := fids[j.value]][j.value := fids[i.value]];
      SameMembers(panes, fids, fids', next, active);
    }
  }

  lemma SwappedMembers(s: seq<PaneId>, i: nat, j: nat)
    requires Distinct(s) && i < |s| && j < |s|
    ensures var r := s[i := s[j]][j := s[i]]; Distinct(r) && forall x :: x in s <==> x in r
  {
    var r := s[i := s[j]][j := s[i]];
    forall x | x in s
      ensures x in r
    {
      var k := FirstIndex(s, x);
      assert r[if k == i then j else if k == j then i else k] == x;
    }
  }

  // ----- Neighbours -----

  lemma NearestIndex(ps: seq<Placement>, active: PaneId, a: Rect, direction: FocusDirection, best: Option<nat>)
    requires FindPlacement(ps, active) == Some(a) && IsNearest(ps, |ps|, active, a, direction, best)
    ensures best.Some? ==> best.value < |ps|
    ensures IsNeighbour(ps, Some(active), direction, if best.Some? then Some(ps[best.value].id) else None)
  {
  }

  lemma NoFocusNoNeighbour(ps: seq<Placement>, direction: FocusDirection)
    ensures IsNeighbour(ps, None, direction, None)
  {
  }

  /** A neighbour is a tiled pane other than the active one, which is tiled too. */
  lemma NeighbourIsOther(root: Option<LayoutNode>, cols: nat, rows: nat, panes: map<PaneId, Pane>, fids: seq<PaneId>,
                         next: PaneId, active: Option<PaneId>, direction: FocusDirection, n: PaneId)
    requires Tiled(RootIds(root), panes) && Numbered(panes, fids, next)
    requires IsNeighbour(RootPositions(root, cols, rows), active, direction, Some(n))
    ensures active.Some? && active.value != n && n != SENTINEL && SENTINEL !in RootIds(root)
    ensures active.value in RootIds(root) && n in RootIds(root) && active.value in panes && n in panes
    ensures Distinct(RootIds(root))
  {
    PlacedAreTiled(root, cols, rows, panes);
  }

  lemma PreviousIsOther(ids: seq<PaneId>, panes: map<PaneId, Pane>, fids: seq<PaneId>, next: PaneId, pos: nat)
    requires Tiled(ids, panes) && Numbered(panes, fids, next) && 0 < pos < |ids|
    ensures ids[pos] != ids[pos - 1] && ids[pos - 1] != SENTINEL && SENTINEL !in ids
    ensures ids[pos] in ids && ids[pos - 1] in ids && Distinct(ids)
  {
    assert ids[pos - 1] in ids;
  }

  /** With a tiled active pane and no empty rectangle there is no neighbour exactly when
      the pane touches the edge; and a neighbour can take the focus. */
  lemma MovesUnlessAtEdge(root: Option<LayoutNode>, cols: nat, rows: nat, panes: map<PaneId, Pane>, fids: seq<PaneId>,
                          active: Option<PaneId>, direction: FocusDirection, r: Option<PaneId>)
    requires Tiled(RootIds(root), panes) && Focused(active, panes, fids)
    requires IsNeighbour(RootPositions(root, cols, rows), active, direction, r)
    ensures active.Some? && (r.Some? ==> Focused(r, panes, fids))
    ensures var ps := RootPositions(root, cols, rows);
            var found := FindPlacement(ps, active.value);
            found.Some? && AllNonEmpty(ps) ==>
              (r.None? <==> TouchesEdge(direction, found.value, Rect(0, 0, cols, rows)))
  {
    hide Positions, PaneIds, TouchesEdge, IsCandidate, Distance, AllNonEmpty, Tiled, FindPlacement, IsNearest;
    NeighbourCanFocus(root, cols, rows, panes, fids, active, direction, r);
    var ps := RootPositions(root, cols, rows);
    var found := FindPlacement(ps, active.value);
    if found.Some? && AllNonEmpty(ps) {
      NeighbourIfAny(ps, active.value, found.value, direction, r);
      CandidateUnlessAtEdge(root, cols, rows, panes, active.value, found.value, direction);
    }
  }

  lemma NeighbourCanFocus(root: Option<LayoutNode>, cols: nat, rows: nat, panes: map<PaneId, Pane>, fids: seq<PaneId>,
                          active: Option<PaneId>, direction: FocusDirection, r: Option<PaneId>)
    requires Tiled(RootIds(root), panes) && Focused(active, panes, fids)
    requires IsNeighbour(RootPositions(root, cols, rows), active, direction, r)
    ensures active.Some? && (r.Some? ==> Focused(r, panes, fids))
  {
    hide Positions, PaneIds, IsNearest, FindPlacement, Tiled;
    PlacedAreTiled(root, cols, rows, panes);
  }

  /** Some entry other than the active one's is a candidate. */
  ghost predicate HasCandidate(ps: seq<Placement>, active: PaneId, a: Rect, direction: FocusDirection) {
    exists j :: 0 <= j < |ps| && ps[j].id != active && IsCandidate(direction, a, ps[j].rect)
  }

  lemma NeighbourIfAny(ps: seq<Placement>, active: PaneId, a: Rect, direction: FocusDirection, r: Option<PaneId>)
    requires FindPlacement(ps, active) == Some(a) && IsNeighbour(ps, Some(active), direction, r)
    ensures r.Some? <==> HasCandidate(ps, active, a, direction)
  {
    hide FindPlacement, IsCandidate, Distance;
  }

  lemma CandidateUnlessAtEdge(root: Option<LayoutNode>, cols: nat, rows: nat, panes: map<PaneId, Pane>, active: PaneId,
                              a: Rect, direction: FocusDirection)
    requires Tiled(RootIds(root), panes) && AllNonEmpty(RootPositions(root, cols, rows))
    requires FindPlacement(RootPositions(root, cols, rows), active) == Some(a)
    ensures HasCandidate(RootPositions(root, cols, rows), active, a, direction)
            <==> !TouchesEdge(direction, a, Rect(0, 0, cols, rows))
  {
    hide Positions, PaneIds, TouchesEdge, IsCandidate, AllNonEmpty;
    var ps, area := RootPositions(root, cols, rows), Rect(0, 0, cols, rows);
    PlacedDistinct(root, cols, rows);
    var k :| 0 <= k < |ps| && ps[k] == Placement(active, a);
    NeighbourUnlessAtEdge(root.value, area, k, direction);
    assert forall j :: 0 <= j < |ps| ==> (ps[j].id == active <==> j == k);
  }

  // ----- Floating panes come and go -----

  lemma SomePlaced(root: Option<LayoutNode>, cols: nat, rows: nat, panes: map<PaneId, Pane>, fids: seq<PaneId>)
    requires Tiled(RootIds(root), panes)
    ensures var ps := RootPositions(root, cols, rows);
            ps != [] && forall i :: 0 <= i < |ps| ==> Focused(Some(ps[i].id), panes, fids)
  {
    PlacedDistinct(root, cols, rows);
    PlacedAreTiled(root, cols, rows, panes);
  }

  lemma OneMoreFloat(panes: map<PaneId, Pane>, fids: seq<PaneId>, next: PaneId)
    requires Floating(fids, panes) && Numbered(panes, fids, next) && next < SENTINEL
    ensures Floating(fids + [next], panes) && Numbered(panes, fids + [next], next + 1)
    ensures Focused(Some(next), panes, fids + [next])
  {
    FloatingAfterAppend(fids, panes, next);
  }

  lemma TopIsFloating(panes: map<PaneId, Pane>, fs: seq<FloatingPane>)
    ensures fs != [] ==>
              var top := fs[|fs| - 1].pane.id;
              FloatIds(fs)[|fs| - 1] == top && Focused(Some(top), panes, FloatIds(fs))
  {
    if fs != [] {
      assert FloatIds(fs)[|fs| - 1] in FloatIds(fs);
    }
  }

  lemma FloatLeaves(fs: seq<FloatingPane>, panes: map<PaneId, Pane>, next: PaneId, active: Option<PaneId>, id: PaneId)
    requires Floating(FloatIds(fs), panes) && Numbered(panes, FloatIds(fs), next)
             && Focused(active, panes, FloatIds(fs))
    ensures FloatIndex(fs, id).Some? <==> id in FloatIds(fs)
    ensures var fids := FloatIds(WithoutFloat(fs, id));
            && Floating(fids, panes) && Numbered(panes, fids, next)
            && (active != Some(id) ==> Focused(active, panes, fids))
  {
    if FloatIndex(fs, id).Some? {
      var i := FloatIndex(fs, id).value;
      FloatIdsRemove(fs, i);
      FloatingAfterRemove(FloatIds(fs), panes, i);
    }
  }

  lemma FloatBecomesTiled(root: Option<LayoutNode>, panes: map<PaneId, Pane>, fs: seq<FloatingPane>, next: PaneId,
                          i: nat)
    requires Tiled(RootIds(root), panes) && i < |fs|
    requires Floating(FloatIds(fs), panes) && Numbered(panes, FloatIds(fs), next)
    ensures var id, fids := fs[i].pane.id, FloatIds(fs[..i] + fs[i + 1..]);
            var panes' := panes[id := fs[i].pane];
            && id !in panes
            && Floating(fids, panes') && Numbered(panes', fids, next) && Focused(Some(id), panes', fids)
  {
    var id, fids := fs[i].pane.id, FloatIds(fs);
    assert fids[i] == id && id in fids;
    FloatIdsRemove(fs, i);
    FloatingAfterRemove(fids, panes, i);
  }

  lemma OneMoreTiled(root: Option<LayoutNode>, panes: map<PaneId, Pane>, pane: Pane)
    requires Tiled(RootIds(root), panes) && pane.id !in panes
    ensures root.Some? && Distinct(RootIds(root)) && RootIds(root) != []
    ensures Tiled(RootIds(root) + [pane.id], panes[pane.id := pane]) && SameButSize(panes, panes[pane.id := pane])
  {
    TiledAfterAppend(RootIds(root), panes, pane);
  }

  lemma PaneKnowsItsId(ids: seq<PaneId>, panes: map<PaneId, Pane>, id: PaneId)
    requires Tiled(ids, panes) && id in panes
    ensures panes[id].id == id
  {
  }

  lemma TiledBecomesFloat(panes: map<PaneId, Pane>, fids: seq<PaneId>, next: PaneId, id: PaneId)
    requires Floating(fids, panes) && Numbered(panes, fids, next) && id in panes
    ensures Floating(fids + [id], panes - {id}) && Numbered(panes - {id}, fids + [id], next)
    ensures Focused(Some(id), panes - {id}, fids + [id])
  {
    FewerPanes(panes, id, fids, next);
    FloatingAfterAppend(fids, panes - {id}, id);
  }

  lemma FloatIdsUpdate(fs: seq<FloatingPane>, i: nat, fp: FloatingPane)
    requires i < |fs| && fp.pane.id == fs[i].pane.id
    ensures FloatIds(fs[i := fp]) == FloatIds(fs)
  {
  }
}
