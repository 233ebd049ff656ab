/** Damage regions: sorting and merging them loses no cell and adds none. */
module DamageMerging {
  import opened Options
  import opened ScreenState
  import opened Screens

  // ----- Sorting -----

  /** By row, then by first column: the order the library sort is given. */
  predicate Before(a: DamageRegion, b: DamageRegion) {
    a.row < b.row || (a.row == b.row && a.colStart <= b.colStart)
  }

  ghost predicate InOrder(rs: seq<DamageRegion>) {
    forall i, j :: 0 <= i < j < |rs| ==> Before(rs[i], rs[j])
  }

  function Inserted(r: DamageRegion, rs: seq<DamageRegion>): (s: seq<DamageRegion>)
    ensures multiset(s) == multiset{r} + multiset(rs)
  {
    if rs == [] then [r]
    else if Before(r, rs[0]) then [r] + rs
    else
      assert rs == [rs[0]] + rs[1..];
      [rs[0]] + Inserted(r, rs[1..])
  }

  function Sorted(rs: seq<DamageRegion>): (s: seq<DamageRegion>)
    ensures multiset(s) == multiset(rs)
  {
    if rs == [] then []
    else
      assert rs == [rs[0]] + rs[1..];
      Inserted(rs[0], Sorted(rs[1..]))
  }

  lemma {:induction false} InsertedInOrder(r: DamageRegion, rs: seq<DamageRegion>)
    requires InOrder(rs)
    ensures InOrder(Inserted(r, rs))
  {
    if rs != [] && !Before(r, rs[0]) {
      InsertedInOrder(r, rs[1..]);
      var s := Inserted(r, rs[1..]);
      forall j | 0 <= j < |s|
        ensures Before(rs[0], s[j])
      {
        assert s[j] in multiset(s);
        assert s[j] == r || s[j] in rs[1..];
      }
    }
  }

  lemma {:induction false} SortedInOrder(rs: seq<DamageRegion>)
    ensures InOrder(Sorted(rs))
  {
    if rs != [] {
      SortedInOrder(rs[1..]);
      InsertedInOrder(rs[0], Sorted(rs[1..]));
    }
  }

  // ----- Merging -----

  predicate Joins(current: DamageRegion, r: DamageRegion) {
    r.row == current.row && r.colStart <= current.colEnd
  }

  /** What the pass makes of a current region and the regions after it. */
  function Merged(current: DamageRegion, rest: seq<DamageRegion>): (m: seq<DamageRegion>)
    ensures m != []
    decreases |rest|
  {
    if rest == [] then [current]
    else if Joins(current, rest[0]) then Merged(current.(colEnd := Max(current.colEnd, rest[0].colEnd)), rest[1..])
    else [current] + Merged(rest[0], rest[1..])
  }

  function MergedAll(rs: seq<DamageRegion>): seq<DamageRegion> {
    if rs == [] then [] else Merged(Sorted(rs)[0], Sorted(rs)[1..])
  }

  method MergeDamage(regions: seq<DamageRegion>) returns (merged: seq<DamageRegion>)
    ensures merged == MergedAll(regions)
  {
    if regions == [] { return []; }
    var sorted := Sorted(regions);
    merged := [];
    var current := sorted[0];
    for i := 1 to |sorted|
      invariant merged + Merged(current, sorted[i..]) == MergedAll(regions)
    {
      assert sorted[i..][1..] == sorted[i + 1..];
      var r := sorted[i];
      if Joins(current, r) {
        current := current.(colEnd := Max(current.colEnd, r.colEnd));
      } else {
        assert merged + ([current] + Merged(r, sorted[i + 1..])) == merged + [current] + Merged(r, sorted[i + 1..]);
        merged := merged + [current];
        current := r;
      }
    }
    merged := merged + [current];
  }

  // ----- The cells covered -----

  predicate Covers(r: DamageRegion, row: nat, col: nat) {
    r.row == row && r.colStart <= col < r.colEnd
  }

  predicate Covered(rs: seq<DamageRegion>, row: nat, col: nat) {
    exists r :: r in rs && Covers(r, row, col)
  }

  lemma CoveredCons(r: DamageRegion, rs: seq<DamageRegion>, row: nat, col: nat)
    ensures Covered([r] + rs, row, col) <==> Covers(r, row, col) || Covered(rs, row, col)
  {
    if Covers(r, row, col) {
      assert r in [r] + rs;
    }
    if Covered(rs, row, col) {
      var x :| x in rs && Covers(x, row, col);
      assert x in [r] + rs;
    }
  }

  /** A merge of two regions in order covers what they cover, and no more. */
  lemma {:induction false} MergedCovers(current: DamageRegion, rest: seq<DamageRegion>, row: nat, col: nat)
    requires InOrder([current] + rest)
    ensures Covered(Merged(current, rest), row, col) <==> Covers(current, row, col) || Covered(rest, row, col)
    decreases |rest|
  {
    if rest == [] {
      CoveredCons(current, [], row, col);
      assert [current] + [] == [current];
    } else {
      var r, after := rest[0], rest[1..];
      assert rest == [r] + after;
      OrderOfRest(current, rest);
      CoveredCons(r, after, row, col);
      if Joins(current, r) {
        MergedCovers(current.(colEnd := Max(current.colEnd, r.colEnd)), after, row, col);
      } else {
        MergedCovers(r, after, row, col);
        CoveredCons(current, Merged(r, after), row, col);
      }
    }
  }

  ghost predicate BeforeAll(r: DamageRegion, rest: seq<DamageRegion>) {
    forall j :: 0 <= j < |rest| ==> Before(r, rest[j])
  }

  lemma InOrderCons(r: DamageRegion, rest: seq<DamageRegion>)
    ensures InOrder([r] + rest) <==> BeforeAll(r, rest) && InOrder(rest)
  {
    var all := [r] + rest;
    if InOrder(all) {
      forall j | 0 <= j < |rest|
        ensures Before(r, rest[j])
      {
        assert Before(all[0], all[j + 1]);
      }
      forall i, j | 0 <= i < j < |rest|
        ensures Before(rest[i], rest[j])
      {
        assert Before(all[i + 1], all[j + 1]);
      }
    }
  }

  lemma OrderOfRest(current: DamageRegion, rest: seq<DamageRegion>)
    requires InOrder([current] + rest) && rest != []
    ensures Before(current, rest[0]) && InOrder([rest[0]] + rest[1..])
    ensures InOrder([current.(colEnd := Max(current.colEnd, rest[0].colEnd))] + rest[1..])
  {
    hide InOrder;
    var r, after := rest[0], rest[1..];
    assert [r] + after == rest;
    InOrderCons(current, rest);
    InOrderCons(r, after);
    InOrderCons(current.(colEnd := Max(current.colEnd, r.colEnd)), after);
  }

  /** Merging keeps the exact set of covered cells, whatever the regions. */
  lemma MergingKeepsCells(rs: seq<DamageRegion>, row: nat, col: nat)
    ensures Covered(MergedAll(rs), row, col) <==> Covered(rs, row, col)
  {
    if rs != [] {
      var s := Sorted(rs);
      SortedInOrder(rs);
      assert |s| == |multiset(s)| == |rs|;
      assert s == [s[0]] + s[1..];
      MergedCovers(s[0], s[1..], row, col);
      CoveredCons(s[0], s[1..], row, col);
      assert forall r :: r in s <==> r in rs by {
        assert forall r :: r in s <==> r in multiset(s);
        assert forall r :: r in rs <==> r in multiset(rs);
      }
    }
  }

  /** `b` lies behind `a` with a gap between them. */
  predicate Apart(a: DamageRegion, b: DamageRegion) {
    a.row < b.row || (a.row == b.row && a.colEnd < b.colStart)
  }

  lemma {:induction false} MergedApart(current: DamageRegion, rest: seq<DamageRegion>)
    requires InOrder([current] + rest)
    ensures var m := Merged(current, rest);
            && m[0].row == current.row && m[0].colStart == current.colStart && InOrder(m)
            && forall i, j :: 0 <= i < j < |m| ==> Apart(m[i], m[j])
    decreases |rest|
  {
    if rest != [] {
      var r, after := rest[0], rest[1..];
      OrderOfRest(current, rest);
      if Joins(current, r) {
        MergedApart(current.(colEnd := Max(current.colEnd, r.colEnd)), after);
      } else {
        MergedApart(r, after);
        var m := Merged(r, after);
        forall j | 0 <= j < |m|
          ensures Before(current, m[j]) && Apart(current, m[j])
        {
          assert j == 0 || Before(m[0], m[j]);
        }
      }
    }
  }

  /** The merged regions are in order, and any two of them are apart. */
  lemma MergingSeparates(rs: seq<DamageRegion>)
    ensures var m := MergedAll(rs); InOrder(m) && forall i, j :: 0 <= i < j < |m| ==> Apart(m[i], m[j])
  {
    if rs != [] {
      var s := Sorted(rs);
      SortedInOrder(rs);
      assert |s| == |multiset(s)| == |rs|;
      assert s == [s[0]] + s[1..];
      MergedApart(s[0], s[1..]);
    }
  }

  // ----- Taking the damage -----

  /** What `take_damage` reports. */
  function Taken(s: ScreenV): seq<DamageRegion> {
    match s.damageMode
    case ScreenMode => if s.damage == [] then [] else WholeRows(s.grid.cols, 0, s.grid.rows)
    case RowMode => s.damage
    case CellMode => MergedAll(s.damage)
    case ScrollMode => MergedAll(s.damage)
  }

  method TakeDamage(t: Screen) returns (damage: seq<DamageRegion>)
    requires t.Valid()
    modifies t`damage
    ensures damage == Taken(old(t.Value())) && t.Value() == old(t.Value()).(damage := []) && t.Valid()
  {
    hide MergedAll;
    damage := t.damage;
    t.damage := [];
    if t.damageMode == ScreenMode && damage != [] {
      damage := [];
      for r := 0 to t.grid.rows
        invariant damage == WholeRows(t.grid.cols, 0, r)
        invariant t.Value() == old(t.Value()).(damage := []) && t.Valid()
      {
        damage := damage + [DamageRegion(r, 0, t.grid.cols)];
      }
    }
    if t.damageMode == CellMode || t.damageMode == ScrollMode {
      damage := MergeDamage(damage);
    }
  }

  /** What is taken covers every recorded cell of the screen; outside screen mode it covers
      nothing else. */
  lemma TakingCovers(s: ScreenV, row: nat, col: nat)
    ensures Covered(s.damage, row, col) && row < s.grid.rows && col < s.grid.cols ==> Covered(Taken(s), row, col)
    ensures s.damageMode != ScreenMode ==> (Covered(Taken(s), row, col) <==> Covered(s.damage, row, col))
  {
    hide MergedAll;
    MergingKeepsCells(s.damage, row, col);
    if s.damageMode == ScreenMode && s.damage != [] && row < s.grid.rows && col < s.grid.cols {
      var w := WholeRows(s.grid.cols, 0, s.grid.rows);
      assert w[row] in w && Covers(w[row], row, col);
    }
  }
}
