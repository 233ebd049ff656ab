/** Operations that reach neither the other screen nor anything that leads back to it. */
module Confinement {
  import opened Options
  import opened Utf8
  import opened Cells
  import opened GridValues
  import opened GridResize
  import opened VtParams
  import opened VtParser
  import opened ScreenState
  import opened ScreenEdits
  import opened ScreenModes
  import opened Performing

  /** Neither the other screen nor anything that leads back to it changes. */
  ghost predicate Confined(s: ScreenV, r: ScreenV) {
    && r.alt == s.alt && r.altCursor == s.altCursor && r.savedCursor == s.savedCursor && r.savedModes == s.savedModes
    && r.modes.altScreen == s.modes.altScreen && r.modes.allowDeccolm == s.modes.allowDeccolm
    && r.modes.leftRightMargin == s.modes.leftRightMargin
  }

  lemma SameConfined(s: ScreenV)
    ensures Confined(s, s)
  {
  }

  lemma {:induction false} TabsForwardConfined(s: ScreenV, count: nat)
    requires Safe(s)
    ensures Confined(s, TabbedForward(s, count))
    decreases count
  {
    hide AllWide, NextStop;
    if count > 0 {
      TabsForwardConfined(MovedTo(s, s.cursor.row, NextStop(s.tabStops, s.cursor.col + 1)), count - 1);
    }
  }

  lemma {:induction false} TabsBackwardConfined(s: ScreenV, count: nat)
    requires Safe(s)
    ensures Confined(s, TabbedBackward(s, count))
    decreases count
  {
    hide AllWide, PreviousStop;
    if count > 0 {
      TabsBackwardConfined(MovedTo(s, s.cursor.row, PreviousStop(s.tabStops, s.cursor.col)), count - 1);
    }
  }

  lemma StepsConfined(s: ScreenV, n: nat, m: nat)
    requires Safe(s)
    ensures Confined(s, MovedUp(s, n)) && Confined(s, MovedDown(s, n)) && Confined(s, MovedLeft(s, n))
    ensures Confined(s, MovedRight(s, n)) && Confined(s, Backspaced(s)) && Confined(s, CarriageReturned(s))
    ensures Confined(s, Positioned(s, n, m)) && Confined(s, Homed(s))
  {
    hide AllWide, Safe, Tight;
  }

  lemma LineStartConfined(s: ScreenV, n: nat)
    requires Safe(s)
    ensures Confined(s, CarriageReturned(MovedUp(s, n))) && Confined(s, CarriageReturned(MovedDown(s, n)))
  {
    hide AllWide, Safe, Tight;
  }

  lemma StopsConfined(s: ScreenV, stop: bool)
    requires Safe(s)
    ensures Confined(s, StopSet(s, stop)) && Confined(s, StopsCleared(s))
  {
    hide AllWide, Safe, Tight;
  }

  lemma MoveConfined(s: ScreenV, p: ParamsVal, action: Byte)
    requires Safe(s) && p.Valid()
    ensures Confined(s, CsiMove(s, p, action))
  {
    hide AllWide, Safe, Tight, Keeps, TabbedForward, TabbedBackward, MovedUp, MovedDown, MovedLeft, MovedRight,
      Backspaced, CarriageReturned, Positioned, StopSet, StopsCleared, Confined;
    var n := p.GetOr(0, 1);
    SameConfined(s);
    TabsForwardConfined(s, n);
    TabsBackwardConfined(s, n);
    StepsConfined(s, n, p.GetOr(1, 1));
    StepsConfined(s, n, s.cursor.col + 1);
    StepsConfined(s, s.cursor.row + 1, n);
    LineStartConfined(s, n);
    StopsConfined(s, false);
  }

  lemma LineFeedConfined(s: ScreenV)
    requires Safe(s)
    ensures Confined(s, LineFed(s))
  {
    hide AllWide, Safe, Tight, RegionUp, ScrolledUp, WholeRows;
  }

  lemma FreshLineConfined(s: ScreenV)
    requires Safe(s)
    ensures Confined(s, LineFed(CarriageReturned(s)))
  {
    hide AllWide, Safe, Tight, LineFed;
    LineFeedConfined(CarriageReturned(s));
  }

  lemma WrapConfined(s: ScreenV)
    requires Safe(s)
    ensures Confined(s, WrappedOn(s))
  {
    hide AllWide, Safe, Tight, LineFed, CarriageReturned, WithFlag;
    FreshLineConfined(s);
  }

  lemma PendingConfined(s: ScreenV)
    requires Safe(s)
    ensures Confined(s, AfterPending(s))
  {
    hide AllWide, Safe, Tight, WrappedOn, WithFlag, RightEdge;
    WrapConfined(Flagged(s, false));
  }

  lemma FitConfined(s: ScreenV, width: nat)
    requires Safe(s)
    ensures Confined(s, AfterFit(s, width))
  {
    hide AllWide, Safe, Tight, WrappedOn, WithCells, RightEdge, NoRoom;
    WrapConfined(Padded(s));
  }

  lemma InsertConfined(s: ScreenV, width: nat)
    requires Safe(s)
    ensures Confined(s, AfterInsert(s, width))
  {
    hide AllWide, Safe, Tight, CellsInserted, RightEdge;
  }

  lemma PutConfined(s: ScreenV, c: Scalar, width: nat)
    requires Safe(s)
    ensures Confined(s, Advanced(Put(s, c, width), width))
  {
    hide AllWide, Safe, Tight, WithCells, Written, RegionFor, RightEdge, Glyph;
  }

  lemma PrintConfined(s: ScreenV, c: Scalar)
    requires Safe(s)
    ensures Confined(s, CharWritten(s, c))
  {
    hide AllWide, Safe, Tight, AfterPending, AfterFit, AfterInsert, Put, Advanced, CharWidth, MappedChar;
    var m := MappedChar(s, c);
    var (s1, w) := (Noted(s, m), CharWidth(m));
    PendingConfined(s1);
    FitConfined(AfterPending(s1), w);
    InsertConfined(AfterFit(AfterPending(s1), w), w);
    PutConfined(Prepared(s1, w), m, w);
  }

  lemma {:induction false} RepeatConfined(s: ScreenV, c: Scalar, count: nat)
    requires Safe(s)
    ensures Confined(s, Repeated(s, c, count))
    decreases count
  {
    hide CharWritten, Safe, Tight;
    if count > 0 {
      PrintConfined(s, c);
      RepeatConfined(CharWritten(s, c), c, count - 1);
    }
  }

  lemma DisplayConfined(s: ScreenV, display: EraseDisplay, selective: bool)
    requires Safe(s)
    ensures Confined(s, DisplayErased(s, display, selective))
  {
    hide AllWide, Safe, Tight, RowsErased, CursorRowErased, RegionFor, RegionsFor;
  }

  lemma LineConfined(s: ScreenV, line: EraseLine, selective: bool)
    requires Safe(s)
    ensures Confined(s, LineErased(s, line, selective))
  {
    hide AllWide, Safe, Tight, RowsErased, CursorRowErased, RegionFor;
  }

  lemma EraseConfined(s: ScreenV, display: EraseDisplay, line: EraseLine, selective: bool)
    requires Safe(s)
    ensures Confined(s, DisplayErased(s, display, selective)) && Confined(s, LineErased(s, line, selective))
  {
    hide Safe, Confined, DisplayErased, LineErased;
    DisplayConfined(s, display, selective);
    LineConfined(s, line, selective);
  }

  lemma LinesConfined(s: ScreenV, n: nat)
    requires Safe(s)
    ensures Confined(s, LinesOpened(s, n)) && Confined(s, LinesRemoved(s, n))
  {
    hide AllWide, Safe, Tight, LinesInserted, LinesDeleted;
  }

  lemma CharsConfined(s: ScreenV, n: nat)
    requires Safe(s)
    ensures Confined(s, CharsOpened(s, n)) && Confined(s, CharsRemoved(s, n)) && Confined(s, CharsBlanked(s, n))
  {
    hide AllWide, Safe, Tight, CellsInserted, CellsDeleted, CharsErased, RegionFor, RightEdge;
  }

  lemma ScrollConfined(s: ScreenV, n: nat)
    requires Safe(s)
    ensures Confined(s, RegionScrolledUp(s, n)) && Confined(s, RegionScrolledDown(s, n))
            && Confined(s, ReverseIndexed(s))
  {
    hide AllWide, Safe, Tight, RegionUp, RegionDown, ScrolledUp, ScrolledDown, WholeRows;
  }

  lemma EditConfined(s: ScreenV, p: ParamsVal, isPrivate: bool, action: Byte)
    requires Safe(s) && p.Valid()
    ensures Confined(s, CsiEdit(s, p, isPrivate, action))
  {
    hide Safe, Tight, Keeps, Confined, DisplayErased, LineErased, LinesOpened, LinesRemoved, CharsOpened, CharsRemoved,
      CharsBlanked, RegionScrolledUp, RegionScrolledDown, Repeated;
    var n := p.GetOr(0, 1);
    SameConfined(s);
    EraseConfined(s, Below, ToRight, isPrivate);
    EraseConfined(s, Above, ToLeft, isPrivate);
    EraseConfined(s, All, WholeLine, isPrivate);
    EraseConfined(s, Scrollback, WholeLine, isPrivate);
    LinesConfined(s, n);
    CharsConfined(s, n);
    ScrollConfined(s, n);
    if s.lastChar.Some? {
      RepeatConfined(s, s.lastChar.value, n);
    }
  }

  lemma RectConfined(s: ScreenV, c: Scalar, top: nat, left: nat, bottom: nat, right: nat, toTop: nat, toLeft: nat)
    requires Safe(s)
    ensures Confined(s, RectFilled(s, c, top, left, bottom, right))
            && Confined(s, RectErased(s, top, left, bottom, right))
    ensures Confined(s, RectCopied(s, top, left, bottom, right, toTop, toLeft)) && Confined(s, Aligned(s))
  {
    hide AllWide, RectStamped, SelectivelyErased, Pasted;
  }

  /** The pen and the look of the cursor. */
  lemma LookConfined(s: ScreenV, cursor: Cursor, pen: Pen, stack: seq<Pen>)
    requires Safe(s)
    ensures Confined(s, s.(cursor := cursor)) && Confined(s, s.(pen := pen)) && Confined(s, s.(sgrStack := stack))
    ensures Confined(s, PenPopped(s))
  {
    hide AllWide, Safe, Tight;
  }

  lemma FillConfined(s: ScreenV, p: ParamsVal, inter: seq<Byte>)
    requires Safe(s) && p.Valid()
    ensures Confined(s, CsiExtra(s, p, inter, 0x78)) && Confined(s, CsiExtra(s, p, inter, 0x76))
  {
    hide AllWide, Safe, Tight, Keeps, Confined, RectFilled, RectErased, RectCopied, Low16, CursorShapeOf, PenPopped,
      SoftReset;
    var (rows, cols) := (Low16(s.grid.rows), Low16(s.grid.cols));
    SameConfined(s);
    RectConfined(s, if 32 <= p.GetOr(0, 0) <= 126 then p.GetOr(0, 0) else SPACE,
                 p.GetOr(1, 1), p.GetOr(2, 1), p.GetOr(3, rows), p.GetOr(4, cols), 0, 0);
    RectConfined(s, SPACE, p.GetOr(0, 1), p.GetOr(1, 1), p.GetOr(2, rows), p.GetOr(3, cols), p.GetOr(5, 1),
                 p.GetOr(6, 1));
  }

  lemma StackConfined(s: ScreenV, p: ParamsVal, inter: seq<Byte>)
    requires Safe(s) && p.Valid()
    ensures Confined(s, CsiExtra(s, p, inter, 0x7B)) && Confined(s, CsiExtra(s, p, inter, 0x7D))
  {
    hide AllWide, Safe, Tight, Keeps, Confined, RectFilled, RectErased, RectCopied, Low16, CursorShapeOf, PenPopped,
      SoftReset;
    var (rows, cols) := (Low16(s.grid.rows), Low16(s.grid.cols));
    SameConfined(s);
    RectConfined(s, SPACE, p.GetOr(0, 1), p.GetOr(1, 1), p.GetOr(2, rows), p.GetOr(3, cols), 0, 0);
    LookConfined(s, s.cursor, s.pen, s.sgrStack + [s.pen]);
  }

  lemma ExtraConfined(s: ScreenV, p: ParamsVal, inter: seq<Byte>, action: Byte)
    requires Safe(s) && p.Valid() && !(action == 0x70 && 0x21 in inter)
    ensures Confined(s, CsiExtra(s, p, inter, action))
  {
    hide AllWide, Safe, Tight, Keeps, Confined, RectFilled, RectErased, RectCopied, Low16, CursorShapeOf, PenPopped,
      SoftReset;
    SameConfined(s);
    FillConfined(s, p, inter);
    StackConfined(s, p, inter);
    LookConfined(s, s.cursor.(shape := CursorShapeOf(p.GetOr(0, 0))),
                 s.pen.(attrs := s.pen.attrs.(protected := true)), []);
    LookConfined(s, s.cursor, s.pen.(attrs := s.pen.attrs.(protected := false)), []);
  }

  lemma ControlConfined(s: ScreenV, byte: Byte)
    requires Safe(s)
    ensures Confined(s, Executed(s, byte))
  {
    hide AllWide, Safe, Tight, Keeps, TabbedForward, LineFed, Backspaced, CarriageReturned;
    TabsForwardConfined(s, 1);
    LineFeedConfined(s);
    StepsConfined(s, 0, 0);
  }
}
