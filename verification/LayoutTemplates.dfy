/** Applying a layout template: sequential renaming, chained splits for extra
    panes, and pruning of extra leaves. */
module LayoutTemplates {
  import opened Options
  import opened Layout
  import opened LayoutEdits

  /** The template after its first `n` leaves have been renamed in turn. */
  function Renamed(t: LayoutNode, templateIds: seq<PaneId>, paneIds: seq<PaneId>, n: nat): LayoutNode
    requires n <= |templateIds| && n <= |paneIds|
  {
    if n == 0 then t
    else ReplaceLeaf(Renamed(t, templateIds, paneIds, n - 1), templateIds[n - 1], paneIds[n - 1]).0
  }

  /** Every extra pane is split off the one added before it. */
  function ChainSplits(t: LayoutNode, last: PaneId, extras: seq<PaneId>): LayoutNode
    decreases |extras|
  {
    if extras == [] then t
    else ChainSplits(SplitNode(t, last, extras[0], Vertical).0, extras[0], extras[1..])
  }

  /** The replacement tree that a removal may hand back is thrown away here. */
  function Pruned(t: LayoutNode, extras: seq<PaneId>): LayoutNode
    decreases |extras|
  {
    if extras == [] then t else Pruned(RemoveNode(t, extras[0]).0, extras[1..])
  }

  function AppliedTree(template: LayoutNode, paneIds: seq<PaneId>): LayoutNode
    requires paneIds != []
  {
    var ids := PaneIds(template);
    var n := Min(|ids|, |paneIds|);
    var renamed := Renamed(template, ids, paneIds, n);
    if |paneIds| > |ids| then ChainSplits(renamed, paneIds[|ids| - 1], paneIds[|ids|..])
    else Pruned(renamed, ids[n..])
  }

  // ----- The multiset of leaves: right for any template at all -----

  lemma {:induction false} RenamedMultiset(t: LayoutNode, paneIds: seq<PaneId>, n: nat)
    requires n <= |PaneIds(t)| && n <= |paneIds|
    ensures multiset(PaneIds(Renamed(t, PaneIds(t), paneIds, n)))
            == multiset(paneIds[..n]) + multiset(PaneIds(t)[n..])
  {
    var ids := PaneIds(t);
    if n == 0 {
      assert ids[0..] == ids && paneIds[..0] == [];
    } else {
      RenamedMultiset(t, paneIds, n - 1);
      var prev := Renamed(t, ids, paneIds, n - 1);
      TailMultiset(ids, n - 1);
      assert ids[n - 1] in multiset(PaneIds(prev));
      RenameIds(prev, ids[n - 1], paneIds[n - 1]);
      RenameStep(PaneIds(prev), ids, paneIds, n - 1, FirstIndex(PaneIds(prev), ids[n - 1]));
    }
  }

  lemma RenameStep(prev: seq<PaneId>, ids: seq<PaneId>, paneIds: seq<PaneId>, n: nat, i: nat)
    requires n < |ids| && n < |paneIds| && i < |prev| && prev[i] == ids[n]
    requires multiset(prev) == multiset(paneIds[..n]) + multiset(ids[n..])
    ensures multiset(prev[i := paneIds[n]]) == multiset(paneIds[..n + 1]) + multiset(ids[n + 1..])
  {
    TailMultiset(ids, n);
    UpdateMultiset(prev, i, paneIds[n]);
    HeadMultiset(paneIds, n);
  }

  lemma TailMultiset<T>(s: seq<T>, i: nat)
    requires i < |s|
    ensures multiset(s[i..]) == multiset{s[i]} + multiset(s[i + 1..])
  {
    assert s[i..] == [s[i]] + s[i + 1..];
  }

  lemma HeadMultiset<T>(s: seq<T>, i: nat)
    requires i < |s|
    ensures multiset(s[..i + 1]) == multiset(s[..i]) + multiset{s[i]}
  {
    assert s[..i + 1] == s[..i] + [s[i]];
  }

  lemma UpdateMultiset<T>(s: seq<T>, i: nat, x: T)
    requires i < |s|
    ensures multiset(s[i := x]) == multiset(s) - multiset{s[i]} + multiset{x}
  {
    assert s == s[..i] + [s[i]] + s[i + 1..];
    assert s[i := x] == s[..i] + [x] + s[i + 1..];
  }

  lemma SplitMultiset(t: LayoutNode, last: PaneId, x: PaneId)
    requires last in PaneIds(t)
    ensures var t' := SplitNode(t, last, x, Vertical).0;
            x in PaneIds(t') && multiset(PaneIds(t')) == multiset(PaneIds(t)) + multiset{x}
  {
    var i, ids := FirstIndex(PaneIds(t), last), PaneIds(t);
    SplitIds(t, last, x, Vertical);
    InsertMultiset(ids, i, x);
    assert (ids[..i] + [last, x] + ids[i + 1..])[i + 1] == x;
  }

  lemma InsertMultiset<T>(s: seq<T>, i: nat, x: T)
    requires i < |s|
    ensures multiset(s[..i] + [s[i], x] + s[i + 1..]) == multiset(s) + multiset{x}
  {
    assert s == s[..i] + [s[i]] + s[i + 1..];
    assert s[..i] + [s[i], x] + s[i + 1..] == s[..i] + [s[i]] + [x] + s[i + 1..];
  }

  lemma {:induction false} ChainMultiset(t: LayoutNode, last: PaneId, extras: seq<PaneId>)
    requires last in PaneIds(t)
    ensures multiset(PaneIds(ChainSplits(t, last, extras))) == multiset(PaneIds(t)) + multiset(extras)
    decreases |extras|
  {
    if extras != [] {
      var t' := SplitNode(t, last, extras[0], Vertical).0;
      SplitMultiset(t, last, extras[0]);
      ChainMultiset(t', extras[0], extras[1..]);
      MultisetCons(extras, multiset(PaneIds(t)), multiset(PaneIds(t')));
    }
  }

  lemma MultisetCons<T>(s: seq<T>, m: multiset<T>, m': multiset<T>)
    requires s != [] && m' == m + multiset{s[0]}
    ensures m' + multiset(s[1..]) == m + multiset(s)
  {
    assert s == [s[0]] + s[1..];
  }

  lemma ConcatMultiset<T>(s: seq<T>, n: nat)
    requires n <= |s|
    ensures multiset(s[..n]) + multiset(s[n..]) == multiset(s)
  {
    assert s == s[..n] + s[n..];
  }

  lemma AllRenamedMultiset(t: LayoutNode, paneIds: seq<PaneId>, n: nat)
    requires n == |PaneIds(t)| <= |paneIds|
    ensures multiset(PaneIds(Renamed(t, PaneIds(t), paneIds, n))) == multiset(paneIds[..n])
  {
    RenamedMultiset(t, paneIds, n);
    assert PaneIds(t)[n..] == [];
  }

  /** The tree that renaming and extending give, before any pruning. */
  function Extended(template: LayoutNode, paneIds: seq<PaneId>): LayoutNode
    requires |paneIds| >= |PaneIds(template)|
  {
    var n := |PaneIds(template)|;
    var t := Renamed(template, PaneIds(template), paneIds, n);
    if |paneIds| > n then ChainSplits(t, paneIds[n - 1], paneIds[n..]) else t
  }

  lemma AppliedUnpruned(template: LayoutNode, paneIds: seq<PaneId>)
    requires |paneIds| >= |PaneIds(template)|
    ensures AppliedTree(template, paneIds) == Extended(template, paneIds)
  {
    assert PaneIds(template)[|PaneIds(template)|..] == [];
  }

  lemma ExtendedMultiset(template: LayoutNode, paneIds: seq<PaneId>)
    requires |paneIds| >= |PaneIds(template)|
    ensures multiset(PaneIds(Extended(template, paneIds))) == multiset(paneIds)
  {
    hide PaneIds, Renamed, ChainSplits;
    var n := |PaneIds(template)|;
    AllRenamedMultiset(template, paneIds, n);
    if |paneIds| > n {
      ChainAfter(Renamed(template, PaneIds(template), paneIds, n), paneIds, n);
    } else {
      TakeAll(paneIds, n);
    }
  }

  lemma TakeAll<T>(s: seq<T>, n: nat)
    requires n == |s|
    ensures s[..n] == s
  {
  }

  /** With at least as many panes as template leaves, no pane is lost, doubled or
      invented, whatever the template's own ids are. */
  lemma AppliedMultiset(template: LayoutNode, paneIds: seq<PaneId>)
    requires |paneIds| >= |PaneIds(template)|
    ensures multiset(PaneIds(AppliedTree(template, paneIds))) == multiset(paneIds)
  {
    AppliedUnpruned(template, paneIds);
    ExtendedMultiset(template, paneIds);
  }

  lemma ChainAfter(t: LayoutNode, paneIds: seq<PaneId>, n: nat)
    requires 1 <= n < |paneIds| && multiset(PaneIds(t)) == multiset(paneIds[..n])
    ensures multiset(PaneIds(ChainSplits(t, paneIds[n - 1], paneIds[n..]))) == multiset(paneIds)
  {
    SameElements(PaneIds(t), paneIds[..n]);
    assert paneIds[..n][n - 1] == paneIds[n - 1];
    ChainMultiset(t, paneIds[n - 1], paneIds[n..]);
    ConcatMultiset(paneIds, n);
  }

  lemma SameElements<T>(s: seq<T>, u: seq<T>)
    requires multiset(s) == multiset(u)
    ensures forall x :: x in s <==> x in u
  {
    forall x
      ensures x in s <==> x in u
    {
      assert x in multiset(s) <==> x in multiset(u);
    }
  }

  lemma DistinctFromMultiset<T>(s: seq<T>, u: seq<T>)
    requires multiset(s) == multiset(u) && Distinct(u)
    ensures Distinct(s)
    ensures forall x :: x in s <==> x in u
  {
    SameElements(s, u);
    forall i, j | 0 <= i < j < |s|
      ensures s[i] != s[j]
    {
      if s[i] == s[j] {
        assert s == s[..i] + [s[i]] + s[i + 1..j] + [s[j]] + s[j + 1..];
        assert multiset(s)[s[i]] >= 2;
        DistinctCountsOnce(u, s[i]);
      }
    }
  }

  lemma {:induction false} DistinctCountsOnce<T>(u: seq<T>, x: T)
    requires Distinct(u)
    ensures multiset(u)[x] <= 1
  {
    if u != [] {
      assert u == [u[0]] + u[1..];
      DistinctCountsOnce(u[1..], x);
      assert u[0] !in u[1..];
    }
  }

  // ----- The order of leaves -----

  lemma {:induction false} RenamedInOrder(t: LayoutNode, paneIds: seq<PaneId>, n: nat)
    requires n <= |PaneIds(t)| && n <= |paneIds|
    requires Distinct(PaneIds(t)) && forall x :: x in PaneIds(t) ==> x !in paneIds
    ensures PaneIds(Renamed(t, PaneIds(t), paneIds, n)) == paneIds[..n] + PaneIds(t)[n..]
  {
    var ids := PaneIds(t);
    if n > 0 {
      RenamedInOrder(t, paneIds, n - 1);
      RenameInOrderStep(Renamed(t, ids, paneIds, n - 1), ids, paneIds, n - 1);
    }
  }

  lemma RenameInOrderStep(prev: LayoutNode, ids: seq<PaneId>, paneIds: seq<PaneId>, n: nat)
    requires n < |ids| && n < |paneIds| && ids[n] !in paneIds
    requires PaneIds(prev) == paneIds[..n] + ids[n..]
    ensures PaneIds(ReplaceLeaf(prev, ids[n], paneIds[n]).0) == paneIds[..n + 1] + ids[n + 1..]
  {
    var s := PaneIds(prev);
    assert s[n] == ids[n];
    assert s[..n] == paneIds[..n];
    FirstIndexUnique(s, ids[n], n);
    RenameIds(prev, ids[n], paneIds[n]);
    assert s[n := paneIds[n]] == paneIds[..n + 1] + ids[n + 1..];
  }

  lemma {:induction false} ChainInOrder(t: LayoutNode, last: PaneId, extras: seq<PaneId>)
    requires PaneIds(t)[|PaneIds(t)| - 1] == last
    requires Distinct(PaneIds(t) + extras)
    ensures PaneIds(ChainSplits(t, last, extras)) == PaneIds(t) + extras
    decreases |extras|
  {
    if extras != [] {
      var ids := PaneIds(t);
      DistinctParts(ids, extras);
      var t' := SplitNode(t, last, extras[0], Vertical).0;
      SplitIds(t, last, extras[0], Vertical);
      assert ids[..|ids| - 1] + [last] == ids;
      FirstIndexUnique(ids, last, |ids| - 1);
      assert PaneIds(t') == ids + [extras[0]];
      assert PaneIds(t') + extras[1..] == ids + extras;
      ChainInOrder(t', extras[0], extras[1..]);
    }
  }

  /** With distinct template ids apart from the pane ids, and enough panes, the new
      leaves in order are exactly the pane ids. */
  lemma AppliedInOrder(template: LayoutNode, paneIds: seq<PaneId>)
    requires |paneIds| >= |PaneIds(template)| && Distinct(paneIds)
    requires Distinct(PaneIds(template)) && forall x :: x in PaneIds(template) ==> x !in paneIds
    ensures PaneIds(AppliedTree(template, paneIds)) == paneIds
  {
    var n := |PaneIds(template)|;
    var t := Renamed(template, PaneIds(template), paneIds, n);
    AppliedUnpruned(template, paneIds);
    RenamedInOrder(template, paneIds, n);
    assert PaneIds(t) == paneIds[..n] by {
      assert PaneIds(template)[n..] == [];
    }
    TakeDrop(paneIds, n);
    if |paneIds| > n {
      ChainInOrder(t, paneIds[n - 1], paneIds[n..]);
    }
  }

  lemma TakeDrop<T>(s: seq<T>, n: nat)
    requires n <= |s|
    ensures s[..n] + s[n..] == s
  {
  }

  /** Without that separation the order can go wrong: two panes named 1, 0 under a
      template whose leaves are 0, 1 come out as 0, 1. */
  lemma CollidingTemplateReorders()
    ensures var template := Split(Vertical, 0.5, Leaf(0), Leaf(1));
            PaneIds(AppliedTree(template, [1, 0])) == [0, 1]
  {
    var template := Split(Vertical, 0.5, Leaf(0), Leaf(1));
    var ids, panes := [0, 1], [1, 0];
    assert PaneIds(template) == ids;
    var t1 := Renamed(template, ids, panes, 1);
    assert t1 == Split(Vertical, 0.5, Leaf(1), Leaf(1)) by {
      assert Renamed(template, ids, panes, 0) == template;
    }
    assert Renamed(template, ids, panes, 2) == Split(Vertical, 0.5, Leaf(0), Leaf(1));
    assert ids[2..] == [];
  }

  // ----- Fewer panes than leaves: exactly when pruning works -----

  /** A removal never collapses the root of a split in place. */
  lemma {:induction false} RemoveKeepsRoot(t: LayoutNode, x: PaneId)
    ensures t.Split? ==> RemoveNode(t, x).0.Split?
    ensures forall y :: y in PaneIds(RemoveNode(t, x).0) ==> y in PaneIds(t)
    ensures RemoveNode(t, x).1.Replaced? ==>
              forall y :: y in PaneIds(RemoveNode(t, x).1.replacement) ==> y in PaneIds(t)
    ensures t.Split? ==> forall y :: y in PaneIds(RemoveNode(t, x).0.second) ==> y in PaneIds(t.second)
  {
    if t.Split? {
      RemoveKeepsRoot(t.first, x);
      RemoveKeepsRoot(t.second, x);
    }
  }

  lemma {:induction false} PrunedKeepsRoot(t: LayoutNode, extras: seq<PaneId>)
    requires t.Split?
    ensures Pruned(t, extras).Split?
    ensures forall y :: y in PaneIds(Pruned(t, extras).second) ==> y in PaneIds(t.second)
    decreases |extras|
  {
    if extras != [] {
      RemoveKeepsRoot(t, extras[0]);
      PrunedKeepsRoot(RemoveNode(t, extras[0]).0, extras[1..]);
    }
  }

  /** Pruning inside the second half, with a leaf of it to spare, works. */
  lemma {:induction false} PrunedInSecond(t: LayoutNode, kept: seq<PaneId>, extras: seq<PaneId>)
    requires t.Split? && Distinct(PaneIds(t)) && PaneIds(t) == kept + extras
    requires |kept| > |PaneIds(t.first)|
    ensures PaneIds(Pruned(t, extras)) == kept
    decreases |extras|
  {
    if extras != [] {
      var x := extras[0];
      var first, second := PaneIds(t.first), PaneIds(t.second);
      DistinctParts(first, second);
      assert PaneIds(t)[|kept|] == x;
      assert second[|kept| - |first|] == x;
      assert x !in first;
      RemoveAbsent(t.first, x);
      RemoveReports(t.second, x);
      assert t.second != Leaf(x);
      RemoveIsAnEdit(t.second, x);
      var t' := RemoveNode(t, x).0;
      assert t'.first == t.first && t'.second == RemovedTree(t.second, x);
      var i := RemoveDeletes(t.second, x);
      assert i == |kept| - |first|;
      DropAt(first, second, kept, extras);
      DistinctAfterDrop(kept, extras);
      PrunedInSecond(t', kept, extras[1..]);
    }
  }

  lemma DropAt(first: seq<PaneId>, second: seq<PaneId>, kept: seq<PaneId>, extras: seq<PaneId>)
    requires first + second == kept + extras && |first| < |kept| && extras != []
    ensures var i := |kept| - |first|;
            first + (second[..i] + second[i + 1..]) == kept + extras[1..]
  {
    var i := |kept| - |first|;
    assert second == (first + second)[|first|..];
    assert first + second[..i] == (first + second)[..|kept|] == kept;
    assert second[i + 1..] == (first + second)[|kept| + 1..] == extras[1..];
  }

  lemma DistinctAfterDrop(kept: seq<PaneId>, extras: seq<PaneId>)
    requires extras != [] && Distinct(kept + extras)
    ensures Distinct(kept + extras[1..])
  {
    var s, s' := kept + extras, kept + extras[1..];
    assert forall i :: 0 <= i < |s'| ==> s'[i] == s[if i < |kept| then i else i + 1];
  }

  lemma DistinctConcat<T>(a: seq<T>, b: seq<T>)
    requires Distinct(a) && Distinct(b) && forall x :: x in b ==> x !in a
    ensures Distinct(a + b)
  {
    forall i, j | 0 <= i < j < |a + b|
      ensures (a + b)[i] != (a + b)[j]
    {
      if i < |a| <= j {
        assert (a + b)[j] in b;
      }
    }
  }

  /** With too few panes a leaf of the template stays that is no pane. */
  lemma StrayLeaf(template: LayoutNode, paneIds: seq<PaneId>)
    requires paneIds != [] && Distinct(paneIds)
    requires Distinct(PaneIds(template)) && forall x :: x in PaneIds(template) ==> x !in paneIds
    requires |paneIds| < |PaneIds(template)| && |paneIds| <= |PaneIds(template.first)|
    ensures exists x :: x in PaneIds(AppliedTree(template, paneIds)) && x !in paneIds
  {
    var ids, k := PaneIds(template), |paneIds|;
    RenamedInOrder(template, paneIds, k);
    RenamedShape(template, ids, paneIds, k);
    var t := Renamed(template, ids, paneIds, k);
    assert paneIds[..k] == paneIds;
    PrunedKeepsRoot(t, ids[k..]);
    var result := Pruned(t, ids[k..]);
    var y := PaneIds(result.second)[0];
    assert y in PaneIds(t.second);
    assert PaneIds(t.second) == PaneIds(t)[|PaneIds(t.first)|..];
    assert y in ids;
    assert y in PaneIds(result);
  }

  /** With distinct ids apart from each other, the leaves come out as the pane ids in
      order exactly when there are enough panes for the template, or at least one
      more than its first half has leaves: otherwise the collapse of the root that
      pruning asks for is lost. */
  lemma AppliedExactly(template: LayoutNode, paneIds: seq<PaneId>)
    requires paneIds != [] && Distinct(paneIds)
    requires Distinct(PaneIds(template)) && forall x :: x in PaneIds(template) ==> x !in paneIds
    ensures PaneIds(AppliedTree(template, paneIds)) == paneIds
            <==> |paneIds| >= |PaneIds(template)| || |paneIds| > |PaneIds(template.first)|
  {
    var ids, k := PaneIds(template), |paneIds|;
    if k >= |ids| {
      AppliedInOrder(template, paneIds);
    } else {
      RenamedInOrder(template, paneIds, k);
      RenamedShape(template, ids, paneIds, k);
      var t := Renamed(template, ids, paneIds, k);
      assert paneIds[..k] == paneIds;
      if k > |PaneIds(template.first)| {
        DistinctConcat(paneIds, ids[k..]);
        PrunedInSecond(t, paneIds, ids[k..]);
      } else {
        StrayLeaf(template, paneIds);
      }
    }
  }

  lemma {:induction false} RenamedShape(t: LayoutNode, ids: seq<PaneId>, paneIds: seq<PaneId>, n: nat)
    requires n <= |ids| && n <= |paneIds| && t.Split?
    ensures var t' := Renamed(t, ids, paneIds, n);
            t'.Split? && |PaneIds(t'.first)| == |PaneIds(t.first)| && |PaneIds(t'.second)| == |PaneIds(t.second)|
  {
    if n > 0 {
      RenamedShape(t, ids, paneIds, n - 1);
      var prev := Renamed(t, ids, paneIds, n - 1);
      ReplaceKeepsCount(prev.first, ids[n - 1], paneIds[n - 1]);
      ReplaceKeepsCount(prev.second, ids[n - 1], paneIds[n - 1]);
    }
  }

  lemma {:induction false} ReplaceKeepsCount(t: LayoutNode, a: PaneId, b: PaneId)
    ensures |PaneIds(ReplaceLeaf(t, a, b).0)| == |PaneIds(t)|
  {
    if t.Split? {
      ReplaceKeepsCount(t.first, a, b);
      ReplaceKeepsCount(t.second, a, b);
    }
  }
}
