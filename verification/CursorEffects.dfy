/** Where the cursor goes, from the bytes that send it there to its coordinates. */
module CursorEffects {
  import opened Options
  import opened Utf8
  import opened Cells
  import opened VtParams
  import opened VtParser
  import opened ParserRoundTrips
  import opened ParserControls
  import opened GridValues
  import opened ScreenState
  import opened ScreenEdits
  import opened ScreenModes
  import opened Performing
  import opened Received

  /** The cursor is at (`row`, `col`), a pending wrap is forgotten, and nothing else differs. */
  ghost predicate GoneTo(s: ScreenV, r: ScreenV, row: int, col: int) {
    && r.cursor.row == row && r.cursor.col == col && !r.pendingWrap
    && r == s.(cursor := s.cursor.(row := r.cursor.row, col := r.cursor.col), pendingWrap := false)
  }

  predicate InRegion(s: ScreenV) {
    s.top <= s.cursor.row < s.bottom
  }

  // ----- Relative moves -----

  /** CUU: up, and not out of the region. */
  lemma Up(s: ScreenV, p: PState, marker: seq<Byte>, values: seq<U16>, inters: seq<Byte>) returns (r: ScreenV)
    requires CanSend(s, p, marker, inters)
    ensures Gives(s, p, Csi(marker, values, inters, 0x41), r)
    ensures var (n, roof) := (Arg(values, 0, 1), if InRegion(s) then s.top else 0);
            GoneTo(s, r, if roof <= s.cursor.row - n then s.cursor.row - n else roof, s.cursor.col)
  {
    hide Tight, Gives, Csi, Arg, FirstFour, CsiEdit, CsiExtra, CsiState, ModesSet;
    var a := CsiReceived(s, p, marker, values, inters, 0x41);
    r := CsiDone(s, a, FirstFour(marker + inters), 0x41);
  }

  /** CUD and VPR: down, and not out of the region. */
  lemma Down(s: ScreenV, p: PState, marker: seq<Byte>, values: seq<U16>, inters: seq<Byte>, final: Byte)
    returns (r: ScreenV)
    requires CanSend(s, p, marker, inters) && final in {0x42, 0x65}
    ensures Gives(s, p, Csi(marker, values, inters, final), r)
    ensures var (n, floor) := (Arg(values, 0, 1), if InRegion(s) then s.bottom - 1 else s.grid.rows - 1);
            GoneTo(s, r, if s.cursor.row + n <= floor then s.cursor.row + n else floor, s.cursor.col)
  {
    hide Tight, Gives, Csi, Arg, FirstFour, CsiEdit, CsiExtra, CsiState, ModesSet;
    var a := CsiReceived(s, p, marker, values, inters, final);
    r := CsiDone(s, a, FirstFour(marker + inters), final);
  }

  /** CUF and HPR: right, and not off the row. */
  lemma Right(s: ScreenV, p: PState, marker: seq<Byte>, values: seq<U16>, inters: seq<Byte>, final: Byte)
    returns (r: ScreenV)
    requires CanSend(s, p, marker, inters) && final in {0x43, 0x61}
    ensures Gives(s, p, Csi(marker, values, inters, final), r)
    ensures var n := Arg(values, 0, 1);
            GoneTo(s, r, s.cursor.row, if s.cursor.col + n < s.grid.cols then s.cursor.col + n else s.grid.cols - 1)
  {
    hide Tight, Gives, Csi, Arg, FirstFour, CsiEdit, CsiExtra, CsiState, ModesSet;
    var a := CsiReceived(s, p, marker, values, inters, final);
    r := CsiDone(s, a, FirstFour(marker + inters), final);
  }

  /** CUB: left, and not off the row. */
  lemma Left(s: ScreenV, p: PState, marker: seq<Byte>, values: seq<U16>, inters: seq<Byte>) returns (r: ScreenV)
    requires CanSend(s, p, marker, inters)
    ensures Gives(s, p, Csi(marker, values, inters, 0x44), r)
    ensures var n := Arg(values, 0, 1);
            GoneTo(s, r, s.cursor.row, if n <= s.cursor.col then s.cursor.col - n else 0)
  {
    hide Tight, Gives, Csi, Arg, FirstFour, CsiEdit, CsiExtra, CsiState, ModesSet;
    var a := CsiReceived(s, p, marker, values, inters, 0x44);
    r := CsiDone(s, a, FirstFour(marker + inters), 0x44);
  }

  /** Where a line begins: column 0, or the left margin for a cursor that is not left of it. */
  function LineStart(s: ScreenV): nat {
    if s.modes.leftRightMargin && s.cursor.col >= s.left then s.left else 0
  }

  /** CNL: down as CUD, to the start of the line. */
  lemma NextLine(s: ScreenV, p: PState, marker: seq<Byte>, values: seq<U16>, inters: seq<Byte>) returns (r: ScreenV)
    requires CanSend(s, p, marker, inters)
    ensures Gives(s, p, Csi(marker, values, inters, 0x45), r)
    ensures var (n, floor) := (Arg(values, 0, 1), if InRegion(s) then s.bottom - 1 else s.grid.rows - 1);
            GoneTo(s, r, if s.cursor.row + n <= floor then s.cursor.row + n else floor, LineStart(s))
  {
    hide Tight, Gives, Csi, Arg, FirstFour, CsiEdit, CsiExtra, CsiState, ModesSet;
    var a := CsiReceived(s, p, marker, values, inters, 0x45);
    r := CsiDone(s, a, FirstFour(marker + inters), 0x45);
  }

  /** CPL: up as CUU, to the start of the line. */
  lemma PreviousLine(s: ScreenV, p: PState, marker: seq<Byte>, values: seq<U16>, inters: seq<Byte>)
    returns (r: ScreenV)
    requires CanSend(s, p, marker, inters)
    ensures Gives(s, p, Csi(marker, values, inters, 0x46), r)
    ensures var (n, roof) := (Arg(values, 0, 1), if InRegion(s) then s.top else 0);
            GoneTo(s, r, if roof <= s.cursor.row - n then s.cursor.row - n else roof, LineStart(s))
  {
    hide Tight, Gives, Csi, Arg, FirstFour, CsiEdit, CsiExtra, CsiState, ModesSet;
    var a := CsiReceived(s, p, marker, values, inters, 0x46);
    r := CsiDone(s, a, FirstFour(marker + inters), 0x46);
  }

  // ----- Absolute moves -----

  /** What positions count from and may not leave: the screen, or the margins in origin mode. */
  function RowsFrom(s: ScreenV): (nat, nat) {
    if s.modes.origin then (s.top, s.bottom) else (0, s.grid.rows)
  }

  function ColsFrom(s: ScreenV): (nat, nat) {
    if s.modes.origin then (s.left, s.right) else (0, s.grid.cols)
  }

  /** The `n`th place counted from 1, or the last. */
  function Nth(places: (nat, nat), n: nat): int {
    if n >= 1 && places.0 + n <= places.1 then places.0 + n - 1 else places.1 - 1
  }

  lemma PositionedAt(s: ScreenV, row: nat, col: nat)
    requires Safe(s) && row >= 1 && col >= 1
    ensures GoneTo(s, Positioned(s, row, col), Nth(RowsFrom(s), row), Nth(ColsFrom(s), col))
  {
    hide AllWide, Tight;
  }

  /** A place counted again: it stays without origin mode, and with it only if the margin is the
      edge or the place is the last. */
  lemma CountedAgain(s: ScreenV)
    requires Safe(s)
    ensures !s.modes.origin ==> Nth(RowsFrom(s), s.cursor.row + 1) == s.cursor.row
    ensures !s.modes.origin && s.cursor.col < s.grid.cols ==> Nth(ColsFrom(s), s.cursor.col + 1) == s.cursor.col
    ensures s.modes.origin && s.cursor.row < s.bottom ==>
              (Nth(RowsFrom(s), s.cursor.row + 1) == s.cursor.row <==> s.top == 0 || s.cursor.row == s.bottom - 1)
    ensures s.modes.origin && s.cursor.col < s.right ==>
              (Nth(ColsFrom(s), s.cursor.col + 1) == s.cursor.col <==> s.left == 0 || s.cursor.col == s.right - 1)
  {
    hide AllWide, Tight;
  }

  lemma ArgAtLeastOne(values: seq<U16>, i: nat)
    ensures Arg(values, i, 1) >= 1
  {
  }

  /** CUP and HVP: to the row and column asked for, counted from 1. */
  lemma Position(s: ScreenV, p: PState, marker: seq<Byte>, values: seq<U16>, inters: seq<Byte>, final: Byte)
    returns (r: ScreenV)
    requires CanSend(s, p, marker, inters) && final in {0x48, 0x66}
    ensures Gives(s, p, Csi(marker, values, inters, final), r)
    ensures GoneTo(s, r, Nth(RowsFrom(s), Arg(values, 0, 1)), Nth(ColsFrom(s), Arg(values, 1, 1)))
  {
    hide Tight, Gives, Csi, Arg, FirstFour, Positioned, CsiEdit, CsiExtra, CsiState, ModesSet;
    var a := CsiReceived(s, p, marker, values, inters, final);
    r := CsiDone(s, a, FirstFour(marker + inters), final);
    ArgAtLeastOne(values, 0);
    ArgAtLeastOne(values, 1);
    PositionedAt(s, Arg(values, 0, 1), Arg(values, 1, 1));
  }

  lemma OneCoordinate(s: ScreenV, a: ParamsVal, inter: seq<Byte>)
    requires Safe(s) && a.Valid()
    ensures CsiDone(s, a, inter, 0x47) == CsiDone(s, a, inter, 0x60) == Positioned(s, s.cursor.row + 1, a.GetOr(0, 1))
    ensures CsiDone(s, a, inter, 0x64) == Positioned(s, a.GetOr(0, 1), s.cursor.col + 1)
  {
    hide Safe, Keeps, Tight, Positioned, CsiEdit, CsiExtra, CsiState, ModesSet, ParamsVal.GetOr;
  }

  /** CHA and HPA: to the column asked for, in the same row. In origin mode the row is counted
      from the margin again: it stays only if the margin is at the top, or the row is the last. */
  lemma ToColumn(s: ScreenV, p: PState, marker: seq<Byte>, values: seq<U16>, inters: seq<Byte>, final: Byte)
    returns (r: ScreenV)
    requires CanSend(s, p, marker, inters) && final in {0x47, 0x60}
    ensures Gives(s, p, Csi(marker, values, inters, final), r)
    ensures GoneTo(s, r, Nth(RowsFrom(s), s.cursor.row + 1), Nth(ColsFrom(s), Arg(values, 0, 1)))
    ensures !s.modes.origin ==> r.cursor.row == s.cursor.row
    ensures s.modes.origin && s.cursor.row < s.bottom ==>
              (r.cursor.row == s.cursor.row <==> s.top == 0 || s.cursor.row == s.bottom - 1)
  {
    hide Tight, Gives, Csi, Arg, FirstFour, Positioned, Nth, RowsFrom, ColsFrom, Safe, Keeps, CsiDone;
    var a := CsiReceived(s, p, marker, values, inters, final);
    r := CsiDone(s, a, FirstFour(marker + inters), final);
    ArgAtLeastOne(values, 0);
    PositionedAt(s, s.cursor.row + 1, Arg(values, 0, 1));
    CountedAgain(s);
    OneCoordinate(s, a, FirstFour(marker + inters));
  }

  /** VPA: to the row asked for, in the same column; in origin mode as CHA, the other way round. */
  lemma ToRow(s: ScreenV, p: PState, marker: seq<Byte>, values: seq<U16>, inters: seq<Byte>) returns (r: ScreenV)
    requires CanSend(s, p, marker, inters)
    ensures Gives(s, p, Csi(marker, values, inters, 0x64), r)
    ensures GoneTo(s, r, Nth(RowsFrom(s), Arg(values, 0, 1)), Nth(ColsFrom(s), s.cursor.col + 1))
    ensures !s.modes.origin && s.cursor.col < s.grid.cols ==> r.cursor.col == s.cursor.col
    ensures s.modes.origin && s.cursor.col < s.right ==>
              (r.cursor.col == s.cursor.col <==> s.left == 0 || s.cursor.col == s.right - 1)
  {
    hide Tight, Gives, Csi, Arg, FirstFour, Positioned, Nth, RowsFrom, ColsFrom, Safe, Keeps, CsiDone;
    var a := CsiReceived(s, p, marker, values, inters, 0x64);
    r := CsiDone(s, a, FirstFour(marker + inters), 0x64);
    ArgAtLeastOne(values, 0);
    PositionedAt(s, Arg(values, 0, 1), s.cursor.col + 1);
    CountedAgain(s);
    OneCoordinate(s, a, FirstFour(marker + inters));
  }

  // ----- Tabs -----

  /** How many of the columns `[from, end)` have a stop. */
  function StopsIn(stops: seq<bool>, from: nat, end: nat): (n: nat)
    decreases end
  {
    if end <= from then 0 else StopsIn(stops, from, end - 1) + if end - 1 < |stops| && stops[end - 1] then 1 else 0
  }

  lemma {:induction false} StopsSplit(stops: seq<bool>, from: nat, mid: nat, end: nat)
    requires from <= mid <= end
    ensures StopsIn(stops, from, end) == StopsIn(stops, from, mid) + StopsIn(stops, mid, end)
    decreases end
  {
    if mid < end {
      StopsSplit(stops, from, mid, end - 1);
    }
  }

  lemma {:induction false} NoStops(stops: seq<bool>, from: nat, end: nat)
    requires forall k :: from <= k < end && k < |stops| ==> !stops[k]
    ensures StopsIn(stops, from, end) == 0
    decreases end
  {
    if from < end {
      NoStops(stops, from, end - 1);
    }
  }

  /** The `n`th stop right of `from`, or the last column if there are fewer. */
  ghost predicate NthStopAfter(stops: seq<bool>, from: nat, n: nat, col: int) {
    && 0 <= col < |stops|
    && if col == |stops| - 1 then StopsIn(stops, from + 1, col) < n
       else from < col && stops[col] && StopsIn(stops, from + 1, col + 1) == n
  }

  /** The `n`th stop left of `from`, or the first column. */
  ghost predicate NthStopBefore(stops: seq<bool>, from: nat, n: nat, col: int) {
    if col == 0 then StopsIn(stops, 1, from) < n
    else 0 < col < |stops| && col < from && stops[col] && StopsIn(stops, col, from) == n
  }

  lemma OneStopAfter(stops: seq<bool>, from: nat)
    requires stops != []
    ensures NthStopAfter(stops, from, 1, NextStop(stops, from + 1))
  {
    var c := NextStop(stops, from + 1);
    NoStops(stops, from + 1, c);
  }

  /** One stop and `n` more. */
  lemma StopsAfter(stops: seq<bool>, from: nat, mid: nat, n: nat, col: nat)
    requires n >= 1 && NthStopAfter(stops, from, 1, mid) && NthStopAfter(stops, mid, n, col)
    ensures NthStopAfter(stops, from, n + 1, col)
  {
    if mid < |stops| - 1 {
      StopsSplit(stops, from + 1, mid + 1, if col == |stops| - 1 then col else col + 1);
    } else {
      assert col == |stops| - 1;
    }
  }

  lemma OneStopBefore(stops: seq<bool>, from: nat)
    ensures NthStopBefore(stops, from, 1, PreviousStop(stops, from))
  {
    var c := PreviousStop(stops, from);
    NoStops(stops, c + 1, from);
    if c > 0 {
      StopsSplit(stops, c, c + 1, from);
    }
  }

  lemma StopsBefore(stops: seq<bool>, from: nat, mid: nat, n: nat, col: nat)
    requires n >= 1 && NthStopBefore(stops, from, 1, mid) && NthStopBefore(stops, mid, n, col)
    ensures NthStopBefore(stops, from, n + 1, col)
  {
    if mid > 0 {
      StopsSplit(stops, if col == 0 then 1 else col, mid, from);
    }
  }

  lemma {:induction false} TabsForward(s: ScreenV, count: nat)
    requires Safe(s) && count >= 1
    ensures var r := TabbedForward(s, count);
            GoneTo(s, r, s.cursor.row, r.cursor.col) && NthStopAfter(s.tabStops, s.cursor.col, count, r.cursor.col)
    decreases count
  {
    hide AllWide, Tight, NthStopAfter, NextStop;
    var mid := NextStop(s.tabStops, s.cursor.col + 1);
    OneStopAfter(s.tabStops, s.cursor.col);
    if count > 1 {
      TabsForward(MovedTo(s, s.cursor.row, mid), count - 1);
      StopsAfter(s.tabStops, s.cursor.col, mid, count - 1, TabbedForward(s, count).cursor.col);
    } else {
      assert TabbedForward(s, 1) == MovedTo(s, s.cursor.row, mid);
    }
  }

  lemma {:induction false} TabsBackward(s: ScreenV, count: nat)
    requires Safe(s) && count >= 1
    ensures var r := TabbedBackward(s, count);
            GoneTo(s, r, s.cursor.row, r.cursor.col) && NthStopBefore(s.tabStops, s.cursor.col, count, r.cursor.col)
    decreases count
  {
    hide AllWide, Tight, NthStopBefore, PreviousStop;
    var mid := PreviousStop(s.tabStops, s.cursor.col);
    OneStopBefore(s.tabStops, s.cursor.col);
    if count > 1 {
      TabsBackward(MovedTo(s, s.cursor.row, mid), count - 1);
      StopsBefore(s.tabStops, s.cursor.col, mid, count - 1, TabbedBackward(s, count).cursor.col);
    } else {
      assert TabbedBackward(s, 1) == MovedTo(s, s.cursor.row, mid);
    }
  }

  /** CHT: on to the `n`th stop. */
  lemma ForwardTabs(s: ScreenV, p: PState, marker: seq<Byte>, values: seq<U16>, inters: seq<Byte>)
    returns (r: ScreenV)
    requires CanSend(s, p, marker, inters)
    ensures Gives(s, p, Csi(marker, values, inters, 0x49), r)
    ensures GoneTo(s, r, s.cursor.row, r.cursor.col)
            && NthStopAfter(s.tabStops, s.cursor.col, Arg(values, 0, 1), r.cursor.col)
  {
    hide Tight, Gives, Csi, Arg, FirstFour, CsiEdit, CsiExtra, CsiState, ModesSet, NthStopAfter, TabbedForward;
    var a := CsiReceived(s, p, marker, values, inters, 0x49);
    r := CsiDone(s, a, FirstFour(marker + inters), 0x49);
    ArgAtLeastOne(values, 0);
    TabsForward(s, Arg(values, 0, 1));
  }

  /** CBT: back to the `n`th stop. */
  lemma BackwardTabs(s: ScreenV, p: PState, marker: seq<Byte>, values: seq<U16>, inters: seq<Byte>)
    returns (r: ScreenV)
    requires CanSend(s, p, marker, inters)
    ensures Gives(s, p, Csi(marker, values, inters, 0x5A), r)
    ensures GoneTo(s, r, s.cursor.row, r.cursor.col)
            && NthStopBefore(s.tabStops, s.cursor.col, Arg(values, 0, 1), r.cursor.col)
  {
    hide Tight, Gives, Csi, Arg, FirstFour, CsiEdit, CsiExtra, CsiState, ModesSet, NthStopBefore, TabbedBackward;
    var a := CsiReceived(s, p, marker, values, inters, 0x5A);
    r := CsiDone(s, a, FirstFour(marker + inters), 0x5A);
    ArgAtLeastOne(values, 0);
    TabsBackward(s, Arg(values, 0, 1));
  }

  /** Only the stops differ, and among them only the cursor's. */
  ghost predicate StopHere(s: ScreenV, r: ScreenV, stop: bool) {
    && r == s.(tabStops := r.tabStops) && |r.tabStops| == |s.tabStops|
    && forall c: nat :: c < |s.tabStops| ==> r.tabStops[c] == if c == s.cursor.col then stop else s.tabStops[c]
  }

  /** TBC: the stop here, or all of them; HTS sets one. */
  lemma ClearsStops(s: ScreenV, p: PState, marker: seq<Byte>, values: seq<U16>, inters: seq<Byte>)
    returns (r: ScreenV)
    requires CanSend(s, p, marker, inters)
    ensures Gives(s, p, Csi(marker, values, inters, 0x67), r)
    ensures match Arg(values, 0, 0)
            case 0 => StopHere(s, r, false)
            case 3 => r == s.(tabStops := r.tabStops) && |r.tabStops| == |s.tabStops| && true !in r.tabStops
            case _ => r == s
  {
    hide Tight, Gives, Csi, Arg, FirstFour, CsiEdit, CsiExtra, CsiState, ModesSet;
    var a := CsiReceived(s, p, marker, values, inters, 0x67);
    r := CsiDone(s, a, FirstFour(marker + inters), 0x67);
  }

  lemma SetsStop(s: ScreenV, p: PState) returns (r: ScreenV)
    requires CanSend(s, p, [], [])
    ensures Gives(s, p, Esc([], 0x48), r) && StopHere(s, r, true)
  {
    hide Tight, Gives, Esc, LineFed, CarriageReturned, ReverseIndexed, CursorSaved, CursorRestored, FullReset, Aligned;
    EscReceived(s, p, [], 0x48);
    r := EscDone(s, FirstFour([]), 0x48);
  }

  // ----- Controls -----

  /** CR: to the start of the line. */
  lemma Returns(s: ScreenV, p: PState) returns (r: ScreenV)
    requires Safe(s) && p.Valid() && p.state == Ground
    ensures Gives(s, p, [0x0D], r) && GoneTo(s, r, s.cursor.row, LineStart(s))
  {
    hide Tight, Gives, LineFed, Backspaced, TabbedForward;
    ControlReceived(s, p, 0x0D);
    r := Executed(s, 0x0D);
  }

  /** BS: one column back; from the first, to the end of the row above if both wraps are on. */
  lemma StepsBack(s: ScreenV, p: PState) returns (r: ScreenV)
    requires Safe(s) && p.Valid() && p.state == Ground
    ensures Gives(s, p, [0x08], r)
    ensures if s.cursor.col > 0 then GoneTo(s, r, s.cursor.row, s.cursor.col - 1)
            else if s.modes.reverseWrap && s.modes.autowrap && s.cursor.row > 0
                 then GoneTo(s, r, s.cursor.row - 1, s.grid.cols - 1)
            else r == s
  {
    hide Tight, Gives, LineFed, CarriageReturned, TabbedForward;
    ControlReceived(s, p, 0x08);
    r := Executed(s, 0x08);
  }

  /** HT: on to the next stop. */
  lemma Tabs(s: ScreenV, p: PState) returns (r: ScreenV)
    requires Safe(s) && p.Valid() && p.state == Ground
    ensures Gives(s, p, [0x09], r)
    ensures GoneTo(s, r, s.cursor.row, r.cursor.col) && NthStopAfter(s.tabStops, s.cursor.col, 1, r.cursor.col)
  {
    hide Tight, Gives, LineFed, CarriageReturned, Backspaced, NthStopAfter, TabbedForward;
    ControlReceived(s, p, 0x09);
    r := Executed(s, 0x09);
    TabsForward(s, 1);
  }

  /** SO and SI choose the character set; the controls not named here do nothing. */
  lemma Shifts(s: ScreenV, p: PState, b: Byte) returns (r: ScreenV)
    requires Safe(s) && p.Valid() && p.state == Ground && IsControl(b) && !(0x08 <= b <= 0x0D)
    ensures Gives(s, p, [b], r)
    ensures r == s.(activeCharset := if b == 0x0E then 1 else if b == 0x0F then 0 else s.activeCharset)
  {
    hide Tight, Gives, LineFed, CarriageReturned, Backspaced, TabbedForward;
    ControlReceived(s, p, b);
    r := Executed(s, b);
  }
}
