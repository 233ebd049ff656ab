/** In row mode every row whose cells change is reported, with the exceptions the code has. */
module DamageSoundness {
  import opened Options
  import opened Utf8
  import opened Cells
  import opened GridValues
  import opened ScreenState
  import opened ScreenEdits

  predicate Reports(damage: seq<DamageRegion>, cols: nat, row: nat) {
    DamageRegion(row, 0, cols) in damage
  }

  /** From `s` to `r`: the damage only grows, and each row but `except` whose cells changed
      is in the new part. */
  ghost predicate SoundBut(s: ScreenV, r: ScreenV, except: int) {
    && r.grid.cols == s.grid.cols && |r.grid.lines| == |s.grid.lines|
    && s.damage <= r.damage
    && forall i: nat :: i < |s.grid.lines| && i != except && r.grid.lines[i].cells != s.grid.lines[i].cells ==>
         Reports(r.damage[|s.damage|..], s.grid.cols, i)
  }

  ghost predicate Sound(s: ScreenV, r: ScreenV) {
    SoundBut(s, r, -1)
  }

  lemma Unfolded(s: ScreenV, r: ScreenV, except: int, i: nat)
    requires SoundBut(s, r, except) && i < |s.grid.lines| && i != except
             && r.grid.lines[i].cells != s.grid.lines[i].cells
    ensures Reports(r.damage[|s.damage|..], s.grid.cols, i)
  {
  }

  lemma SoundChain(s: ScreenV, t: ScreenV, r: ScreenV, except: int)
    requires SoundBut(s, t, except) && SoundBut(t, r, except)
    ensures SoundBut(s, r, except)
  {
    var a, b, c := s.damage, t.damage, r.damage;
    assert a <= c;
    assert c[|a|..] == b[|a|..] + c[|b|..];
    forall i: nat | i < |s.grid.lines| && i != except && r.grid.lines[i].cells != s.grid.lines[i].cells
      ensures Reports(c[|a|..], s.grid.cols, i)
    {
      if t.grid.lines[i].cells != s.grid.lines[i].cells {
        Unfolded(s, t, except, i);
      } else {
        Unfolded(t, r, except, i);
      }
    }
  }

  /** The row left open is reported in the end. */
  lemma SoundAtLast(s: ScreenV, t: ScreenV, r: ScreenV, row: nat)
    requires SoundBut(s, t, row) && SoundBut(t, r, row) && |s.grid.lines| == |t.grid.lines|
    requires Reports(r.damage[|t.damage|..], s.grid.cols, row)
    ensures Sound(s, r)
  {
    var a, b, c := s.damage, t.damage, r.damage;
    assert a <= c;
    assert c[|a|..] == b[|a|..] + c[|b|..];
    forall i: nat | i < |s.grid.lines| && r.grid.lines[i].cells != s.grid.lines[i].cells
      ensures Reports(c[|a|..], s.grid.cols, i)
    {
      if i == row {
      } else if t.grid.lines[i].cells != s.grid.lines[i].cells {
        Unfolded(s, t, row, i);
      } else {
        Unfolded(t, r, row, i);
      }
    }
  }

  lemma SameCellsSound(s: ScreenV, r: ScreenV)
    requires r.grid.cols == s.grid.cols && r.damage == s.damage && |r.grid.lines| == |s.grid.lines|
    requires forall i: nat :: i < |s.grid.lines| ==> r.grid.lines[i].cells == s.grid.lines[i].cells
    ensures Sound(s, r)
  {
  }

  // ----- Whole rows -----

  lemma WholeRowsReport(cols: nat, from: nat, to: nat, row: nat)
    requires from <= row < to
    ensures Reports(WholeRows(cols, from, to), cols, row)
  {
    assert WholeRows(cols, from, to)[row - from] == DamageRegion(row, 0, cols);
  }

  /** The rows of a region recorded, and only they change. */
  lemma RegionSound(s: ScreenV, r: ScreenV, from: nat, to: nat)
    requires from <= to && r.grid.cols == s.grid.cols && |r.grid.lines| == |s.grid.lines|
    requires r.damage == s.damage + WholeRows(s.grid.cols, from, to)
    requires forall i: nat :: i < |s.grid.lines| && !(from <= i < to) ==> r.grid.lines[i].cells == s.grid.lines[i].cells
    ensures Sound(s, r)
  {
    assert r.damage[|s.damage|..] == WholeRows(s.grid.cols, from, to);
    forall i: nat | i < |s.grid.lines| && r.grid.lines[i].cells != s.grid.lines[i].cells
      ensures Reports(r.damage[|s.damage|..], s.grid.cols, i)
    {
      WholeRowsReport(s.grid.cols, from, to, i);
    }
  }

  lemma UpTouches(g: GridV, top: nat, bottom: nat, count: nat, i: nat)
    requires g.Valid() && bottom <= g.rows && i < g.rows && !(top <= i < bottom)
    ensures ScrolledUp(g, top, bottom, count).lines[i] == g.lines[i]
  {
    hide ShiftLeft;
    if top < bottom {
      ShiftLeftAt(g.lines, top, bottom, Min(count, bottom - top), BlankRow(g.cols), i);
    }
  }

  lemma DownTouches(g: GridV, top: nat, bottom: nat, count: nat, i: nat)
    requires g.Valid() && bottom <= g.rows && i < g.rows && !(top <= i < bottom)
    ensures ScrolledDown(g, top, bottom, count).lines[i] == g.lines[i]
  {
    hide ShiftRight;
    if top < bottom {
      ShiftRightAt(g.lines, top, bottom, Min(count, bottom - top), BlankRow(g.cols), i);
    }
  }

  /** A scroll changes rows of the region only. */
  lemma ScrollUpSound(s: ScreenV, count: nat)
    requires Safe(s)
    ensures Sound(s, RegionScrolledUp(s, count))
  {
    hide ScrolledUp, WholeRows, Sound, AllWide;
    var r := RegionScrolledUp(s, count);
    forall i: nat | i < s.grid.rows && !(s.top <= i < s.bottom)
      ensures r.grid.lines[i].cells == s.grid.lines[i].cells
    {
      UpTouches(s.grid, s.top, s.bottom, count, i);
    }
    RegionSound(s, r, s.top, s.bottom);
  }

  lemma ScrollDownSound(s: ScreenV, count: nat)
    requires Safe(s)
    ensures Sound(s, RegionScrolledDown(s, count))
  {
    hide ScrolledDown, WholeRows, Sound, AllWide;
    var r := RegionScrolledDown(s, count);
    forall i: nat | i < s.grid.rows && !(s.top <= i < s.bottom)
      ensures r.grid.lines[i].cells == s.grid.lines[i].cells
    {
      DownTouches(s.grid, s.top, s.bottom, count, i);
    }
    RegionSound(s, r, s.top, s.bottom);
  }

  lemma LineFeedSound(s: ScreenV)
    requires Safe(s)
    ensures Sound(s, LineFed(s))
  {
    hide WholeRows, Sound, AllWide, ScrolledUp, RegionUp;
    if s.cursor.row + 1 == s.bottom {
      ScrolledOne(s);
      RegionSound(s, LineFed(s), s.top, s.bottom);
    } else {
      SameCellsSound(s, LineFed(s));
    }
  }

  /** A line feed that scrolls. */
  lemma ScrolledOne(s: ScreenV)
    requires Safe(s) && s.cursor.row + 1 == s.bottom
    ensures LineFed(s).damage == s.damage + WholeRows(s.grid.cols, s.top, s.bottom)
    ensures forall i: nat :: i < s.grid.rows && !(s.top <= i < s.bottom) ==> LineFed(s).grid.lines[i] == s.grid.lines[i]
  {
    hide WholeRows, AllWide, ScrolledUp;
    forall i: nat | i < s.grid.rows && !(s.top <= i < s.bottom)
      ensures LineFed(s).grid.lines[i] == s.grid.lines[i]
    {
      UpTouches(s.grid, s.top, s.bottom, 1, i);
    }
  }

  // ----- One row -----

  /** One row recorded in row mode, and only it changes. */
  lemma OneRowSound(s: ScreenV, r: ScreenV, row: nat)
    requires row < |s.grid.lines| && r.grid.cols == s.grid.cols && |r.grid.lines| == |s.grid.lines|
    requires r.damage == s.damage + [DamageRegion(row, 0, s.grid.cols)]
    requires forall i: nat :: i < |s.grid.lines| && i != row ==> r.grid.lines[i].cells == s.grid.lines[i].cells
    ensures Sound(s, r)
  {
    assert r.damage[|s.damage|..] == [DamageRegion(row, 0, s.grid.cols)];
  }

  lemma InsertCharsSound(s: ScreenV, count: nat)
    requires Safe(s) && s.damageMode == RowMode
    ensures Sound(s, CharsOpened(s, count))
  {
    hide ShiftRight, AllWide, Sound;
    OneRowSound(s, CharsOpened(s, count), s.cursor.row);
  }

  lemma DeleteCharsSound(s: ScreenV, count: nat)
    requires Safe(s) && s.damageMode == RowMode
    ensures Sound(s, CharsRemoved(s, count))
  {
    hide ShiftLeft, AllWide, Sound;
    OneRowSound(s, CharsRemoved(s, count), s.cursor.row);
  }

  lemma EraseCharsSound(s: ScreenV, count: nat)
    requires Safe(s) && s.damageMode == RowMode
    ensures Sound(s, CharsBlanked(s, count))
  {
    hide ErasedSpan, AllWide, Sound;
    OneRowSound(s, CharsBlanked(s, count), s.cursor.row);
  }

  lemma EraseLineSound(s: ScreenV, mode: EraseLine, selective: bool)
    requires Safe(s) && s.damageMode == RowMode
    ensures Sound(s, LineErased(s, mode, selective))
  {
    hide SpanErased, AllWide, Sound, RowErased;
    OneRowSound(s, LineErased(s, mode, selective), s.cursor.row);
  }

  /** Rows `[from, to)` recorded one by one, and only they change. */
  lemma EachRowSound(s: ScreenV, r: ScreenV, from: nat, to: nat, more: seq<DamageRegion>, row: nat)
    requires Safe(s) && s.damageMode == RowMode && from <= to
    requires r.grid.cols == s.grid.cols && |r.grid.lines| == |s.grid.lines|
    requires r.damage == s.damage + more && (forall i :: from <= i < to ==> DamageRegion(i, 0, s.grid.cols) in more)
    requires row < s.grid.rows && DamageRegion(row, 0, s.grid.cols) in more
    requires forall i: nat :: i < |s.grid.lines| && i != row && !(from <= i < to) ==>
             r.grid.lines[i].cells == s.grid.lines[i].cells
    ensures Sound(s, r)
  {
    hide Safe;
    assert r.damage[|s.damage|..] == more;
    assert forall i: nat :: from <= i < to || i == row ==> Reports(more, s.grid.cols, i);
  }

  lemma RegionsReport(s: ScreenV, from: nat, to: nat)
    requires s.damageMode == RowMode && from <= to
    ensures forall i :: from <= i < to ==> DamageRegion(i, 0, s.grid.cols) in RegionsFor(s, from, to)
  {
    forall i | from <= i < to
      ensures DamageRegion(i, 0, s.grid.cols) in RegionsFor(s, from, to)
    {
      var k := i - from;
      assert RegionsFor(s, from, to)[k] == RegionFor(s, from + k, 0, s.grid.cols);
    }
  }

  lemma EraseDisplaySound(s: ScreenV, mode: EraseDisplay, selective: bool)
    requires Safe(s) && s.damageMode == RowMode
    ensures Sound(s, DisplayErased(s, mode, selective))
  {
    hide Sound;
    match mode {
      case Below => EraseBelowSound(s, selective);
      case Above => EraseAboveSound(s, selective);
      case All => EraseAllSound(s, selective);
      case Scrollback => SameCellsSound(s, DisplayErased(s, Scrollback, selective));
    }
  }

  lemma EraseBelowSound(s: ScreenV, selective: bool)
    requires Safe(s) && s.damageMode == RowMode
    ensures Sound(s, DisplayErased(s, Below, selective))
  {
    hide SpanErased, AllWide, Sound, RowErased, RegionsFor;
    var row, here := s.cursor.row, DamageRegion(s.cursor.row, 0, s.grid.cols);
    var t, r := Damaged(s, row, s.cursor.col, s.grid.cols), DisplayErased(s, Below, selective);
    RegionsReport(t, row + 1, s.grid.rows);
    assert r.damage == s.damage + ([here] + RegionsFor(t, row + 1, s.grid.rows));
    EachRowSound(s, r, row + 1, s.grid.rows, [here] + RegionsFor(t, row + 1, s.grid.rows), row);
  }

  lemma EraseAboveSound(s: ScreenV, selective: bool)
    requires Safe(s) && s.damageMode == RowMode
    ensures Sound(s, DisplayErased(s, Above, selective))
  {
    hide SpanErased, AllWide, Sound, RowErased, RegionsFor;
    var row, here := s.cursor.row, DamageRegion(s.cursor.row, 0, s.grid.cols);
    var r := DisplayErased(s, Above, selective);
    RegionsReport(s, 0, row);
    assert r.damage == s.damage + (RegionsFor(s, 0, row) + [here]);
    EachRowSound(s, r, 0, row, RegionsFor(s, 0, row) + [here], row);
  }

  lemma EraseAllSound(s: ScreenV, selective: bool)
    requires Safe(s) && s.damageMode == RowMode
    ensures Sound(s, DisplayErased(s, All, selective))
  {
    hide SpanErased, AllWide, Sound, RowErased, RegionsFor;
    var r := DisplayErased(s, All, selective);
    RegionsReport(s, 0, s.grid.rows);
    EachRowSound(s, r, 0, s.grid.rows, RegionsFor(s, 0, s.grid.rows), 0);
  }

  // ----- Printing -----

  lemma FlagSound(s: ScreenV, continuation: bool)
    requires Safe(s)
    ensures Sound(s, Flagged(s, continuation))
  {
    hide AllWide, Sound;
    SameCellsSound(s, Flagged(s, continuation));
  }

  lemma WrapSound(s: ScreenV)
    requires Safe(s)
    ensures Sound(s, WrappedOn(s))
  {
    hide LineFed, CarriageReturned, Flagged, Safe;
    ReturnSame(s);
    var t := LineFed(CarriageReturned(s));
    LineFeedSound(CarriageReturned(s));
    FlagSound(t, true);
    SoundChain(CarriageReturned(s), t, WrappedOn(s), -1);
  }

  lemma ReturnSame(s: ScreenV)
    requires Safe(s)
    ensures CarriageReturned(s).grid == s.grid && CarriageReturned(s).damage == s.damage
  {
  }

  lemma PendingSound(s: ScreenV)
    requires Safe(s)
    ensures Sound(s, AfterPending(s))
  {
    hide WrappedOn, Flagged, AllWide;
    if s.pendingWrap && s.modes.autowrap {
      FlagSound(s, false);
      WrapSound(Flagged(s, false));
      SoundChain(s, Flagged(s, false), AfterPending(s), -1);
    }
  }

  /** Making the cell at the cursor a space changes it. */
  predicate Respaces(s: ScreenV)
    requires Safe(s)
  {
    && s.cursor.col < s.grid.cols
    && Spaced(s.grid.lines[s.cursor.row].cells[s.cursor.col]) != s.grid.lines[s.cursor.row].cells[s.cursor.col]
  }

  /** Going on to the next line changes the padded row without a word, when no scroll
      reports it and the character is written on another row. */
  predicate PadsSilently(s: ScreenV, width: nat)
    requires Safe(s)
  {
    && NoRoom(s, width) && s.modes.autowrap && Respaces(s)
    && s.cursor.row + 1 != s.bottom && s.cursor.row + 1 < s.grid.rows
  }

  lemma PaddedRow(s: ScreenV)
    requires Safe(s)
    ensures var r := Padded(s);
            && r.damage == s.damage && r.cursor == s.cursor && r.bottom == s.bottom && r.top == s.top
            && r.damageMode == s.damageMode
            && (forall i: nat :: i < s.grid.rows && i != s.cursor.row ==> r.grid.lines[i] == s.grid.lines[i])
            && (!Respaces(s) ==> r.grid == s.grid)
            && (Respaces(s) ==> r.grid.lines[s.cursor.row].cells != s.grid.lines[s.cursor.row].cells)
  {
    var cells := s.grid.lines[s.cursor.row].cells;
    if Respaces(s) {
      assert Padded(s).grid.lines[s.cursor.row].cells[s.cursor.col] != cells[s.cursor.col];
    } else if s.cursor.col < s.grid.cols {
      assert cells[s.cursor.col := cells[s.cursor.col]] == cells;
      assert s.grid.lines[s.cursor.row := s.grid.lines[s.cursor.row]] == s.grid.lines;
    }
  }

  /** Where going on to the next line leaves the cursor's row, and what it records. */
  lemma WrappedRow(s: ScreenV)
    requires Safe(s)
    ensures var r := WrappedOn(s);
            && r.damageMode == s.damageMode
            && (s.cursor.row + 1 == s.bottom ==> r.damage == s.damage + WholeRows(s.grid.cols, s.top, s.bottom))
            && (s.cursor.row + 1 != s.bottom ==> r.damage == s.damage
                                                 && forall i: nat :: i < s.grid.rows ==>
                                                    r.grid.lines[i].cells == s.grid.lines[i].cells)
            && r.cursor.row == if s.cursor.row + 1 != s.bottom && s.cursor.row + 1 < s.grid.rows then s.cursor.row + 1
                               else s.cursor.row
  {
    hide WholeRows, AllWide, ScrolledUp, RegionUp;
  }

  lemma OtherRowsSame(s: ScreenV, r: ScreenV, row: nat)
    requires r.grid.cols == s.grid.cols && |r.grid.lines| == |s.grid.lines| && s.damage <= r.damage
    requires forall i: nat :: i < |s.grid.lines| && i != row ==> r.grid.lines[i].cells == s.grid.lines[i].cells
    ensures SoundBut(s, r, row)
  {
  }

  lemma SoundIsSoundBut(s: ScreenV, r: ScreenV, except: int)
    requires Sound(s, r)
    ensures SoundBut(s, r, except)
  {
  }

  /** A padded row that a scroll reports with the rest. */
  lemma PaddedThenScrolled(s: ScreenV, p: ScreenV, q: ScreenV, row: nat)
    requires Sound(p, q) && row < |s.grid.lines| && p.damage == s.damage && p.grid.cols == s.grid.cols
    requires |p.grid.lines| == |s.grid.lines|
    requires forall i: nat :: i < |s.grid.lines| && i != row ==> p.grid.lines[i] == s.grid.lines[i]
    requires Reports(q.damage[|p.damage|..], s.grid.cols, row)
    ensures Sound(s, q)
  {
    forall i: nat | i < |s.grid.lines| && q.grid.lines[i].cells != s.grid.lines[i].cells
      ensures Reports(q.damage[|s.damage|..], s.grid.cols, i)
    {
      if i != row {
        Unfolded(p, q, -1, i);
      }
    }
  }

  /** All but the row the character is to be written on is reported. */
  lemma FitSound(s: ScreenV, width: nat)
    requires Safe(s) && !PadsSilently(s, width)
    ensures SoundBut(s, AfterFit(s, width), AfterFit(s, width).cursor.row)
    ensures AfterFit(s, width).damageMode == s.damageMode
  {
    hide WrappedOn, Padded, Respaces, AllWide, WholeRows, Sound;
    var p, q, row := Padded(s), WrappedOn(Padded(s)), s.cursor.row;
    if NoRoom(s, width) && s.modes.autowrap {
      PaddedRow(s);
      WrappedRow(p);
      if row + 1 == s.bottom {
        WrapSound(p);
        assert q.damage[|p.damage|..] == WholeRows(s.grid.cols, s.top, s.bottom);
        WholeRowsReport(s.grid.cols, s.top, s.bottom, row);
        PaddedThenScrolled(s, p, q, row);
        SoundIsSoundBut(s, q, q.cursor.row);
      } else if row + 1 < s.grid.rows {
        SameCellsSound(s, q);
        SoundIsSoundBut(s, q, q.cursor.row);
      } else {
        OtherRowsSame(s, q, row);
      }
    } else {
      OtherRowsSame(s, AfterFit(s, width), AfterFit(s, width).cursor.row);
    }
  }

  lemma InsertTouches(s: ScreenV, width: nat)
    requires Safe(s)
    ensures var r := AfterInsert(s, width);
            && r.damage == s.damage && r.cursor == s.cursor && r.damageMode == s.damageMode
            && forall i: nat :: i < s.grid.rows && i != s.cursor.row ==> r.grid.lines[i] == s.grid.lines[i]
  {
    hide ShiftRight, AllWide;
  }

  lemma PutTouches(s: ScreenV, c: Scalar, width: nat)
    requires Safe(s) && s.damageMode == RowMode
    ensures var r := Advanced(Put(s, c, width), width);
            && r.damage == s.damage + [DamageRegion(s.cursor.row, 0, s.grid.cols)]
            && forall i: nat :: i < s.grid.rows && i != s.cursor.row ==> r.grid.lines[i] == s.grid.lines[i]
  {
    hide Written, AllWide;
  }

  lemma PendingMode(s: ScreenV)
    requires Safe(s)
    ensures AfterPending(s).damageMode == s.damageMode
  {
    hide AllWide;
  }

  /** In row mode every row printing changes is reported, unless it pads silently. */
  lemma PrintSound(s: ScreenV, c: Scalar, width: nat)
    requires Safe(s) && s.damageMode == RowMode && !PadsSilently(AfterPending(s), width)
    ensures Sound(s, Printed(s, c, width))
  {
    hide AfterPending, AfterFit, AfterInsert, Put, Advanced, PadsSilently, AllWide, SoundBut, Safe;
    var t := AfterPending(s);
    var q := AfterFit(t, width);
    var r := AfterInsert(q, width);
    var z := Advanced(Put(r, c, width), width);
    PendingSound(s);
    PendingMode(s);
    FitSound(t, width);
    InsertTouches(q, width);
    PutTouches(r, c, width);
    RowsOf(q);
    RowsOf(r);
    RowsOf(z);
    OtherRowsSame(q, r, q.cursor.row);
    SoundChain(t, q, r, q.cursor.row);
    OtherRowsSame(r, z, q.cursor.row);
    assert z.damage[|r.damage|..] == [DamageRegion(q.cursor.row, 0, r.grid.cols)];
    RowsOf(t);
    SameLines(t, r, q.cursor.row);
    SoundAtLast(t, r, z, q.cursor.row);
    SoundChain(s, t, z, -1);
  }

  lemma RowsOf(s: ScreenV)
    requires Safe(s)
    ensures |s.grid.lines| == s.grid.rows && s.cursor.row < s.grid.rows
  {
  }

  lemma SameLines(s: ScreenV, r: ScreenV, except: int)
    requires SoundBut(s, r, except)
    ensures |r.grid.lines| == |s.grid.lines| && r.grid.cols == s.grid.cols
  {
  }

  /** A silent pad is never reported. */
  lemma PadUnreported(s: ScreenV, c: Scalar, width: nat)
    requires Safe(s) && s.damageMode == RowMode && PadsSilently(AfterPending(s), width)
    ensures !Sound(s, Printed(s, c, width))
  {
    hide AfterPending, AfterInsert, Put, Advanced, AllWide, WrappedOn, Padded, Respaces, Safe;
    var t := AfterPending(s);
    var row, p := t.cursor.row, Padded(t);
    var q := WrappedOn(p);
    var r := AfterInsert(q, width);
    var z := Advanced(Put(r, c, width), width);
    PendingMode(s);
    PendingElsewhere(s);
    PaddedRow(t);
    WrappedRow(p);
    InsertTouches(q, width);
    PutTouches(r, c, width);
    assert AfterFit(t, width) == q;
    RowsOf(s);
    RowsOf(z);
    assert z.damage[|s.damage|..] == [DamageRegion(row + 1, 0, r.grid.cols)];
    if Sound(s, z) {
      assert z.grid.lines[row].cells != s.grid.lines[row].cells;
      Unfolded(s, z, -1, row);
    }
  }

  /** A pending wrap that does not scroll changes and records nothing. */
  lemma PendingElsewhere(s: ScreenV)
    requires Safe(s)
    ensures var t := AfterPending(s);
            t.cursor.row + 1 != t.bottom ==>
              t.damage == s.damage && t.grid.lines[t.cursor.row].cells == s.grid.lines[t.cursor.row].cells
  {
    hide WrappedOn, AllWide;
    WrappedRow(Flagged(s, false));
    WrappedBottom(Flagged(s, false));
  }

  lemma WrappedBottom(s: ScreenV)
    requires Safe(s)
    ensures WrappedOn(s).bottom == s.bottom
  {
    hide AllWide;
  }

  // ----- Where the silent pad is, on the screen before -----

  /** The column a wrap goes on to. */
  function WrapColumn(s: ScreenV): nat {
    if !s.modes.newline && HasMargins(s) && s.cursor.col >= s.left then s.left else 0
  }

  /** Where the character is to go once a pending wrap is carried out, if that does not scroll. */
  function Landing(s: ScreenV): (nat, nat) {
    if s.pendingWrap then (s.cursor.row + 1, WrapColumn(s)) else (s.cursor.row, s.cursor.col)
  }

  /** A wide character has no room there, the cell there is not a plain space, and the rows down
      to the one it goes to instead are neither the last of the region nor of the screen. */
  predicate PadsUnseen(s: ScreenV, width: nat)
    requires Safe(s)
  {
    var (row, col) := Landing(s);
    && width == 2 && s.modes.autowrap && !(s.pendingWrap && row == s.bottom)
    && row + 1 != s.bottom && row + 1 < s.grid.rows && RightEdge(s) - 1 <= col < s.grid.cols
    && Spaced(s.grid.lines[row].cells[col]) != s.grid.lines[row].cells[col]
  }

  lemma WrappedPlace(s: ScreenV)
    requires Safe(s)
    ensures var t := WrappedOn(Flagged(s, false));
            && t.cursor.col == WrapColumn(s) && RightEdge(t) == RightEdge(s)
            && t.modes == s.modes && t.bottom == s.bottom
            && t.cursor.row == if s.cursor.row + 1 == s.bottom || s.cursor.row + 1 >= s.grid.rows then s.cursor.row
                               else s.cursor.row + 1
  {
    hide AllWide, Tight, RegionUp, ScrolledUp, WholeRows, WithFlag;
  }

  lemma PendingPads(s: ScreenV, width: nat)
    requires Safe(s)
    ensures PadsSilently(AfterPending(s), width) <==> PadsUnseen(s, width)
  {
    hide WrappedOn, Flagged, RightEdge, Tight, Spaced;
    if s.pendingWrap && s.modes.autowrap {
      WrappedPlace(s);
      PendingElsewhere(s);
    }
  }

  lemma NotedPads(s: ScreenV, c: Scalar, width: nat)
    requires Safe(s)
    ensures PadsUnseen(Noted(s, c), width) <==> PadsUnseen(s, width)
  {
    hide AllWide, Tight, Spaced;
  }

  /** Printing in row mode reports every row it changes exactly when it does not pad silently. */
  lemma PrintingIsReported(s: ScreenV, c: Scalar)
    requires Safe(s) && s.damageMode == RowMode
    ensures Sound(s, CharWritten(s, c)) <==> !PadsUnseen(s, CharWidth(MappedChar(s, c)))
  {
    hide Printed, AfterPending, PadsSilently, PadsUnseen, CharWidth, MappedChar, AllWide, Sound;
    var m := MappedChar(s, c);
    var s1, width := Noted(s, m), CharWidth(m);
    SameCellsSound(s, s1);
    NotedPads(s, m, width);
    PendingPads(s1, width);
    if width > 0 {
      NotedSound(s, m, Printed(s1, m, width));
      if PadsSilently(AfterPending(s1), width) {
        PadUnreported(s1, m, width);
      } else {
        PrintSound(s1, m, width);
      }
    } else {
      OnlyWidePads(s);
    }
  }

  lemma OnlyWidePads(s: ScreenV)
    requires Safe(s)
    ensures !PadsUnseen(s, 0)
  {
  }

  lemma NotedSound(s: ScreenV, c: Scalar, r: ScreenV)
    requires Safe(s)
    ensures Sound(Noted(s, c), r) <==> Sound(s, r)
  {
    hide AllWide;
  }
}
