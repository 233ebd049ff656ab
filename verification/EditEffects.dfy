/** What the editing sequences make of the cells, from their bytes. */
module EditEffects {
  import opened Options
  import opened Utf8
  import opened Cells
  import opened GridValues
  import opened VtParams
  import opened VtParser
  import opened ParserRoundTrips
  import opened ParserControls
  import opened ScreenState
  import opened ScreenEdits
  import opened ScreenModes
  import opened Performing
  import opened Runs
  import opened Received
  import opened Erasing
  import opened CursorEffects

  // ----- Erasing -----

  /** ED and DECSED: the parameter says what, the marker ? that protected cells are spared. */
  lemma ErasesDisplay(s: ScreenV, p: PState, marker: seq<Byte>, values: seq<U16>, inters: seq<Byte>)
    returns (r: ScreenV)
    requires CanSend(s, p, marker, inters)
    ensures Gives(s, p, Csi(marker, values, inters, 0x4A), r)
    ensures match Arg(values, 0, 0)
            case 0 => BelowErased(s, r, marker == [0x3F])
            case 1 => AboveErased(s, r, marker == [0x3F])
            case 2 => AllErased(s, r, marker == [0x3F])
            case 3 => r == s.(grid := s.grid.(scrollback := []))
            case _ => r == s
  {
    hide Tight, Gives, Csi, Arg, FirstFour, CsiMove, CsiExtra, CsiState, ModesSet, DisplayErased, LineErased,
      BelowErased, AboveErased, AllErased, Safe;
    var a := CsiReceived(s, p, marker, values, inters, 0x4A);
    var selective := marker == [0x3F];
    r := CsiDone(s, a, FirstFour(marker + inters), 0x4A);
    MarkerSays(marker, inters);
    EraseBelow(s, selective);
    EraseAbove(s, selective);
    EraseAll(s, selective);
    EraseScrollback(s, selective);
  }

  /** EL and DECSEL. */
  lemma ErasesLine(s: ScreenV, p: PState, marker: seq<Byte>, values: seq<U16>, inters: seq<Byte>)
    returns (r: ScreenV)
    requires CanSend(s, p, marker, inters)
    ensures Gives(s, p, Csi(marker, values, inters, 0x4B), r)
    ensures match Arg(values, 0, 0)
            case 0 => RightErased(s, r, marker == [0x3F])
            case 1 => LeftErased(s, r, marker == [0x3F])
            case 2 => LineBlanked(s, r, marker == [0x3F])
            case _ => r == s
  {
    hide Tight, Gives, Csi, Arg, FirstFour, CsiMove, CsiExtra, CsiState, ModesSet, DisplayErased, LineErased,
      RightErased, LeftErased, LineBlanked, Safe;
    var a := CsiReceived(s, p, marker, values, inters, 0x4B);
    var selective := marker == [0x3F];
    r := CsiDone(s, a, FirstFour(marker + inters), 0x4B);
    MarkerSays(marker, inters);
    EraseToRight(s, selective);
    EraseToLeft(s, selective);
    EraseWholeLine(s, selective);
  }

  // ----- Moving lines -----

  /** Rows `[from, end)` moved down by `shift`, or up if it is negative; what comes from outside is blank. */
  ghost predicate LinesMoved(g: GridV, r: GridV, from: nat, end: nat, shift: int) {
    && r == g.(lines := r.lines, scrollback := r.scrollback) && |r.lines| == |g.lines| && end <= |g.lines|
    && forall i: nat :: i < |g.lines| ==>
         r.lines[i] == if !(from <= i < end) then g.lines[i]
                       else if from <= i - shift < end then g.lines[i - shift] else BlankRow(g.cols)
  }

  /** The rows that leave at the top of the screen, the last of them newest. */
  ghost predicate ScrollbackTakes(g: GridV, r: GridV, rows: seq<Row>) {
    var all := g.scrollback + rows;
    r.scrollback == if |all| <= g.limit then all else all[|all| - g.limit..]
  }

  lemma DownMoves(g: GridV, from: nat, end: nat, n: nat)
    requires g.Valid() && from < end <= g.rows
    ensures LinesMoved(g, ScrolledDown(g, from, end, n), from, end, n)
    ensures ScrolledDown(g, from, end, n).scrollback == g.scrollback
  {
    hide AllWide;
  }

  lemma UpMoves(g: GridV, from: nat, end: nat, n: nat)
    requires g.Valid() && from < end <= g.rows
    ensures LinesMoved(g, ScrolledUp(g, from, end, n), from, end, 0 - n)
    ensures ScrollbackTakes(g, ScrolledUp(g, from, end, n), if from == 0 then g.lines[..Min(n, end)] else [])
  {
    hide AllWide;
  }

  lemma DeletingMoves(g: GridV, row: nat, top: nat, end: nat, n: nat)
    requires g.Valid() && top <= row < end <= g.rows
    ensures LinesMoved(g, LinesDeleted(g, row, n, top, end), row, end, 0 - n)
    ensures LinesDeleted(g, row, n, top, end).scrollback == g.scrollback
  {
    hide AllWide;
  }

  /** Columns `[left, right)` of rows `[top, end)` moved down by `shift`, or up. */
  ghost predicate RectMoved(g: GridV, r: GridV, top: nat, end: nat, left: nat, right: nat, shift: int)
    requires g.Valid() && end <= g.rows
  {
    && r == g.(lines := r.lines) && |r.lines| == g.rows
    && forall i: nat :: i < g.rows ==> RectRowMoved(g, r.lines[i], i, top, end, left, right, shift)
  }

  ghost predicate RectRowMoved(g: GridV, row: Row, i: nat, top: nat, end: nat, left: nat, right: nat, shift: int)
    requires g.Valid() && i < g.rows && end <= g.rows
  {
    && row.continuation == g.lines[i].continuation && |row.cells| == g.cols
    && forall c: nat :: c < g.cols ==>
         row.cells[c] == if !(top <= i < end && left <= c < right) then g.lines[i].cells[c]
                         else if top <= i - shift < end then g.lines[i - shift].cells[c] else BLANK
  }

  lemma RectUpMoves(g: GridV, top: nat, end: nat, left: nat, right: nat, n: nat)
    requires g.Valid() && top < end <= g.rows && left < right <= g.cols
    ensures RectMoved(g, RegionUp(g, top, end, left, right, n), top, end, left, right, 0 - n)
  {
    hide AllWide, RowUp, RectRowMoved;
    forall i: nat | i < g.rows
      ensures RectRowMoved(g, RegionUp(g, top, end, left, right, n).lines[i], i, top, end, left, right, 0 - n)
    {
      RowUpMoves(g, top, end, left, right, Min(n, end - top), n, i);
    }
  }

  lemma RowUpMoves(g: GridV, top: nat, end: nat, left: nat, right: nat, m: nat, n: nat, i: nat)
    requires g.Valid() && top < end <= g.rows && left < right <= g.cols && i < g.rows && m == Min(n, end - top)
    ensures RectRowMoved(g, RowUp(g, top, end, left, right, m, i), i, top, end, left, right, 0 - n)
  {
  }

  lemma RectDownMoves(g: GridV, top: nat, end: nat, left: nat, right: nat, n: nat)
    requires g.Valid() && top < end <= g.rows && left < right <= g.cols
    ensures RectMoved(g, RegionDown(g, top, end, left, right, n), top, end, left, right, n)
  {
    hide AllWide, RowDown, RectRowMoved;
    forall i: nat | i < g.rows
      ensures RectRowMoved(g, RegionDown(g, top, end, left, right, n).lines[i], i, top, end, left, right, n)
    {
      RowDownMoves(g, top, end, left, right, Min(n, end - top), n, i);
    }
  }

  lemma RowDownMoves(g: GridV, top: nat, end: nat, left: nat, right: nat, m: nat, n: nat, i: nat)
    requires g.Valid() && top < end <= g.rows && left < right <= g.cols && i < g.rows && m == Min(n, end - top)
    ensures RectRowMoved(g, RowDown(g, top, end, left, right, m, i), i, top, end, left, right, n)
  {
  }

  /** Only the grid and the damage differ, and a pending wrap may be forgotten. */
  ghost predicate GridOnly(s: ScreenV, r: ScreenV) {
    r == s.(grid := r.grid, damage := r.damage, pendingWrap := r.pendingWrap) && (r.pendingWrap ==> s.pendingWrap)
  }

  predicate Narrowed(s: ScreenV) {
    s.modes.leftRightMargin && (s.left > 0 || s.right < s.grid.cols)
  }

  /** IL: lines from the cursor's on go down, in the region only, and the cursor to column 0. */
  lemma InsertsLines(s: ScreenV, p: PState, marker: seq<Byte>, values: seq<U16>, inters: seq<Byte>)
    returns (r: ScreenV)
    requires CanSend(s, p, marker, inters)
    ensures Gives(s, p, Csi(marker, values, inters, 0x4C), r)
    ensures GoneTo(s.(grid := r.grid), r, s.cursor.row, 0)
    ensures if InRegion(s) then LinesMoved(s.grid, r.grid, s.cursor.row, s.bottom, Arg(values, 0, 1))
                                && r.grid.scrollback == s.grid.scrollback
            else r.grid == s.grid
  {
    hide Tight, Gives, Csi, Arg, FirstFour, CsiMove, CsiExtra, CsiState, ModesSet, ScrolledDown, LinesMoved;
    var a := CsiReceived(s, p, marker, values, inters, 0x4C);
    r := CsiDone(s, a, FirstFour(marker + inters), 0x4C);
    if InRegion(s) {
      DownMoves(s.grid, s.cursor.row, s.bottom, Arg(values, 0, 1));
    }
  }

  /** DL: they come up; nothing goes to the scrollback. */
  lemma DeletesLines(s: ScreenV, p: PState, marker: seq<Byte>, values: seq<U16>, inters: seq<Byte>)
    returns (r: ScreenV)
    requires CanSend(s, p, marker, inters)
    ensures Gives(s, p, Csi(marker, values, inters, 0x4D), r)
    ensures GoneTo(s.(grid := r.grid), r, s.cursor.row, 0)
    ensures if InRegion(s) then LinesMoved(s.grid, r.grid, s.cursor.row, s.bottom, 0 - Arg(values, 0, 1))
                                && r.grid.scrollback == s.grid.scrollback
            else r.grid == s.grid
  {
    hide Tight, Gives, Csi, Arg, FirstFour, CsiMove, CsiExtra, CsiState, ModesSet, LinesDeleted, LinesMoved;
    var a := CsiReceived(s, p, marker, values, inters, 0x4D);
    r := CsiDone(s, a, FirstFour(marker + inters), 0x4D);
    if InRegion(s) {
      DeletingMoves(s.grid, s.cursor.row, s.top, s.bottom, Arg(values, 0, 1));
    }
  }

  /** The whole region moved, or its columns between the margins. Between margins nothing goes to
      the scrollback; without, what leaves the top row of the screen does. */
  ghost predicate RegionMovedUp(s: ScreenV, g: GridV, n: nat, narrowed: bool)
    requires Safe(s) && g.Valid() && g.SameShape(s.grid)
  {
    if narrowed then RectMoved(s.grid, g, s.top, s.bottom, s.left, s.right, 0 - n)
    else LinesMoved(s.grid, g, s.top, s.bottom, 0 - n)
         && ScrollbackTakes(s.grid, g, if s.top == 0 then s.grid.lines[..Min(n, s.bottom)] else [])
  }

  ghost predicate RegionMovedDown(s: ScreenV, g: GridV, n: nat, narrowed: bool)
    requires Safe(s) && g.Valid() && g.SameShape(s.grid)
  {
    if narrowed then RectMoved(s.grid, g, s.top, s.bottom, s.left, s.right, n)
    else LinesMoved(s.grid, g, s.top, s.bottom, n) && g.scrollback == s.grid.scrollback
  }

  lemma RegionUpMoves(s: ScreenV, n: nat, narrowed: bool)
    requires Safe(s)
    ensures RegionMovedUp(s, if narrowed then RegionUp(s.grid, s.top, s.bottom, s.left, s.right, n)
                             else ScrolledUp(s.grid, s.top, s.bottom, n), n, narrowed)
  {
    hide AllWide, RectMoved, LinesMoved, ScrollbackTakes, RegionUp, ScrolledUp;
    if narrowed {
      RectUpMoves(s.grid, s.top, s.bottom, s.left, s.right, n);
    } else {
      UpMoves(s.grid, s.top, s.bottom, n);
    }
  }

  lemma RegionDownMoves(s: ScreenV, n: nat, narrowed: bool)
    requires Safe(s)
    ensures RegionMovedDown(s, if narrowed then RegionDown(s.grid, s.top, s.bottom, s.left, s.right, n)
                               else ScrolledDown(s.grid, s.top, s.bottom, n), n, narrowed)
  {
    hide AllWide, RectMoved, LinesMoved, RegionDown, ScrolledDown;
    if narrowed {
      RectDownMoves(s.grid, s.top, s.bottom, s.left, s.right, n);
    } else {
      DownMoves(s.grid, s.top, s.bottom, n);
    }
  }

  /** SU. */
  lemma ScrollsUp(s: ScreenV, p: PState, marker: seq<Byte>, values: seq<U16>, inters: seq<Byte>) returns (r: ScreenV)
    requires CanSend(s, p, marker, inters)
    ensures Gives(s, p, Csi(marker, values, inters, 0x53), r)
    ensures GridOnly(s, r) && r.pendingWrap == s.pendingWrap && r.grid.Valid() && r.grid.SameShape(s.grid)
    ensures RegionMovedUp(s, r.grid, Arg(values, 0, 1), Narrowed(s))
  {
    hide AllWide, Tight, Gives, Csi, Arg, FirstFour, CsiMove, CsiExtra, CsiState, ModesSet, RegionUp, ScrolledUp,
      RegionMovedUp;
    var a := CsiReceived(s, p, marker, values, inters, 0x53);
    r := CsiDone(s, a, FirstFour(marker + inters), 0x53);
    RegionUpMoves(s, Arg(values, 0, 1), Narrowed(s));
  }

  /** SD. */
  lemma ScrollsDown(s: ScreenV, p: PState, marker: seq<Byte>, values: seq<U16>, inters: seq<Byte>)
    returns (r: ScreenV)
    requires CanSend(s, p, marker, inters)
    ensures Gives(s, p, Csi(marker, values, inters, 0x54), r)
    ensures GridOnly(s, r) && r.pendingWrap == s.pendingWrap && r.grid.Valid() && r.grid.SameShape(s.grid)
    ensures RegionMovedDown(s, r.grid, Arg(values, 0, 1), Narrowed(s))
  {
    hide AllWide, Tight, Gives, Csi, Arg, FirstFour, CsiMove, CsiExtra, CsiState, ModesSet, RegionDown, ScrolledDown,
      RegionMovedDown;
    var a := CsiReceived(s, p, marker, values, inters, 0x54);
    r := CsiDone(s, a, FirstFour(marker + inters), 0x54);
    RegionDownMoves(s, Arg(values, 0, 1), Narrowed(s));
  }

  // ----- Line feeds -----

  /** The cursor between the margins, if they narrow the screen. */
  predicate Between(s: ScreenV) {
    Narrowed(s) && s.left <= s.cursor.col < s.right
  }

  /** One row down; at the end of the region the region goes up instead, and at the end of the
      screen, below the region, nothing does. */
  ghost predicate FedLine(s: ScreenV, r: ScreenV, col: nat)
    requires Safe(s)
  {
    if s.cursor.row == s.bottom - 1 then
      && r.grid.Valid() && r.grid.SameShape(s.grid) && RegionMovedUp(s, r.grid, 1, Between(s))
      && GoneTo(s.(grid := r.grid, damage := r.damage), r, s.cursor.row, col)
    else GoneTo(s, r, if s.cursor.row < s.grid.rows - 1 then s.cursor.row + 1 else s.cursor.row, col)
  }

  lemma LineFeeds(s: ScreenV)
    requires Safe(s)
    ensures FedLine(s, LineFed(s), if s.modes.newline then 0 else s.cursor.col)
  {
    hide AllWide, Tight, RegionMovedUp, RegionUp, ScrolledUp;
    RegionUpMoves(s, 1, Between(s));
  }

  /** LF, VT and FF. */
  lemma FeedsLine(s: ScreenV, p: PState, b: Byte) returns (r: ScreenV)
    requires Safe(s) && p.Valid() && p.state == Ground && b in {0x0A, 0x0B, 0x0C}
    ensures Gives(s, p, [b], r) && FedLine(s, r, if s.modes.newline then 0 else s.cursor.col)
  {
    hide Safe, Tight, Keeps, Gives, LineFed, Backspaced, CarriageReturned, TabbedForward, FedLine;
    ControlReceived(s, p, b);
    LineFeeds(s);
    r := Executed(s, b);
  }

  /** IND, which is LF. */
  lemma Indexes(s: ScreenV, p: PState) returns (r: ScreenV)
    requires CanSend(s, p, [], [])
    ensures Gives(s, p, Esc([], 0x44), r) && FedLine(s, r, if s.modes.newline then 0 else s.cursor.col)
  {
    hide Safe, Tight, Keeps, Gives, Esc, LineFed, CarriageReturned, ReverseIndexed, CursorSaved, CursorRestored,
      FullReset, Aligned, FedLine;
    EscReceived(s, p, [], 0x44);
    LineFeeds(s);
    r := EscDone(s, FirstFour([]), 0x44);
  }

  lemma ReturnsFirst(s: ScreenV)
    requires Safe(s)
    ensures GoneTo(s, CarriageReturned(s), s.cursor.row, LineStart(s))
  {
    hide AllWide, Tight;
  }

  /** NEL: the start of the line, then LF. */
  lemma NextLines(s: ScreenV, p: PState) returns (r: ScreenV)
    requires CanSend(s, p, [], [])
    ensures Gives(s, p, Esc([], 0x45), r)
    ensures var start := s.(cursor := s.cursor.(col := LineStart(s)), pendingWrap := false);
            Safe(start) && FedLine(start, r, if s.modes.newline then 0 else LineStart(s))
  {
    hide Safe, Tight, Keeps, Gives, Esc, LineFed, CarriageReturned, ReverseIndexed, CursorSaved, CursorRestored,
      FullReset, Aligned, FedLine, LineStart;
    EscReceived(s, p, [], 0x45);
    ReturnsFirst(s);
    CarriageReturnedSafe(s);
    LineFeeds(CarriageReturned(s));
    r := EscDone(s, FirstFour([]), 0x45);
  }

  lemma CarriageReturnedSafe(s: ScreenV)
    requires Safe(s)
    ensures Safe(CarriageReturned(s))
  {
  }

  /** RI: one row up; at the top of the region the region goes down instead. */
  lemma IndexesBack(s: ScreenV, p: PState) returns (r: ScreenV)
    requires CanSend(s, p, [], [])
    ensures Gives(s, p, Esc([], 0x4D), r)
    ensures if s.cursor.row == s.top then
              && r.grid.Valid() && r.grid.SameShape(s.grid) && RegionMovedDown(s, r.grid, 1, Between(s))
              && GoneTo(s.(grid := r.grid), r, s.cursor.row, s.cursor.col)
            else GoneTo(s, r, if s.cursor.row > 0 then s.cursor.row - 1 else 0, s.cursor.col)
  {
    hide AllWide, Tight, Gives, Esc, LineFed, CarriageReturned, CursorSaved, CursorRestored, FullReset, Aligned,
      RegionMovedDown, RegionDown, ScrolledDown;
    EscReceived(s, p, [], 0x4D);
    RegionDownMoves(s, 1, Between(s));
    r := EscDone(s, FirstFour([]), 0x4D);
  }

  // ----- Moving cells -----

  /** Only the cursor's row differs, and only in its cells. */
  ghost predicate CellsOnly(s: ScreenV, r: ScreenV)
    requires Safe(s)
  {
    && GridOnly(s, r) && !r.pendingWrap && r.grid.Valid() && r.grid.SameShape(s.grid)
    && r.grid.scrollback == s.grid.scrollback
    && r.grid.lines[s.cursor.row].continuation == s.grid.lines[s.cursor.row].continuation
    && forall i: nat :: i < s.grid.rows && i != s.cursor.row ==> r.grid.lines[i] == s.grid.lines[i]
  }

  /** Cells `[from, end)` moved right by `shift`, or left if it is negative; the rest is blank. */
  ghost predicate CellsMoved(before: seq<Cell>, after: seq<Cell>, from: nat, end: nat, shift: int) {
    && |after| == |before|
    && forall c: nat :: c < |before| ==>
         after[c] == if !(from <= c < end) then before[c]
                     else if from <= c - shift < end && c - shift < |before| then before[c - shift] else BLANK
  }

  /** Where a row ends for inserting and deleting: the right margin, if the margins narrow the screen. */
  function RowEnd(s: ScreenV): nat {
    if Narrowed(s) then s.right else s.grid.cols
  }

  lemma RightMoves(cells: seq<Cell>, from: nat, end: nat, n: nat)
    requires from < end <= |cells|
    ensures CellsMoved(cells, ShiftRight(cells, from, end, Min(n, end - from), BLANK), from, end, n)
  {
  }

  lemma LeftMoves(cells: seq<Cell>, from: nat, end: nat, n: nat)
    requires from < end <= |cells|
    ensures CellsMoved(cells, ShiftLeft(cells, from, end, Min(n, end - from), BLANK), from, end, 0 - n)
  {
  }

  lemma NothingMoves(cells: seq<Cell>, from: nat, end: nat, shift: int)
    requires end <= from
    ensures CellsMoved(cells, cells, from, end, shift)
  {
  }

  lemma InsertingMoves(s: ScreenV, n: nat)
    requires Safe(s)
    ensures CellsOnly(s, CharsOpened(s, n))
    ensures CellsMoved(s.grid.lines[s.cursor.row].cells, CharsOpened(s, n).grid.lines[s.cursor.row].cells,
                       s.cursor.col, RowEnd(s), n)
  {
    hide Tight, RegionFor, CellsMoved, ShiftRight;
    if s.cursor.col < RowEnd(s) {
      RightMoves(s.grid.lines[s.cursor.row].cells, s.cursor.col, RowEnd(s), n);
    } else {
      NothingMoves(s.grid.lines[s.cursor.row].cells, s.cursor.col, RowEnd(s), n);
    }
  }

  lemma RemovingMoves(s: ScreenV, n: nat)
    requires Safe(s)
    ensures CellsOnly(s, CharsRemoved(s, n))
    ensures CellsMoved(s.grid.lines[s.cursor.row].cells, CharsRemoved(s, n).grid.lines[s.cursor.row].cells,
                       s.cursor.col, RowEnd(s), 0 - n)
  {
    hide Tight, RegionFor, CellsMoved, ShiftLeft;
    if s.cursor.col < RowEnd(s) {
      LeftMoves(s.grid.lines[s.cursor.row].cells, s.cursor.col, RowEnd(s), n);
    } else {
      NothingMoves(s.grid.lines[s.cursor.row].cells, s.cursor.col, RowEnd(s), 0 - n);
    }
  }

  lemma BlankingErases(s: ScreenV, n: nat)
    requires Safe(s) && n >= 1
    ensures CellsOnly(s, CharsBlanked(s, n))
    ensures var row := s.cursor.row;
            if s.cursor.col < s.grid.cols then
              SpanBlanked(s.grid.lines[row], CharsBlanked(s, n).grid.lines[row], s.cursor.col,
                          if s.cursor.col + n < s.grid.cols then s.cursor.col + n else s.grid.cols, false)
            else CharsBlanked(s, n).grid == s.grid
  {
    hide Tight, RegionFor;
  }

  /** ICH: cells from the cursor's on go right. */
  lemma InsertsCells(s: ScreenV, p: PState, marker: seq<Byte>, values: seq<U16>, inters: seq<Byte>)
    returns (r: ScreenV)
    requires CanSend(s, p, marker, inters)
    ensures Gives(s, p, Csi(marker, values, inters, 0x40), r) && CellsOnly(s, r)
    ensures CellsMoved(s.grid.lines[s.cursor.row].cells, r.grid.lines[s.cursor.row].cells,
                       s.cursor.col, RowEnd(s), Arg(values, 0, 1))
  {
    hide AllWide, Tight, Gives, Csi, Arg, FirstFour, CsiMove, CsiExtra, CsiState, ModesSet, CharsOpened, CellsMoved;
    var a := CsiReceived(s, p, marker, values, inters, 0x40);
    InsertingMoves(s, Arg(values, 0, 1));
    r := CsiDone(s, a, FirstFour(marker + inters), 0x40);
  }

  /** DCH: they come left. */
  lemma DeletesCells(s: ScreenV, p: PState, marker: seq<Byte>, values: seq<U16>, inters: seq<Byte>)
    returns (r: ScreenV)
    requires CanSend(s, p, marker, inters)
    ensures Gives(s, p, Csi(marker, values, inters, 0x50), r) && CellsOnly(s, r)
    ensures CellsMoved(s.grid.lines[s.cursor.row].cells, r.grid.lines[s.cursor.row].cells,
                       s.cursor.col, RowEnd(s), 0 - Arg(values, 0, 1))
  {
    hide AllWide, Tight, Gives, Csi, Arg, FirstFour, CsiMove, CsiExtra, CsiState, ModesSet, CharsRemoved, CellsMoved;
    var a := CsiReceived(s, p, marker, values, inters, 0x50);
    RemovingMoves(s, Arg(values, 0, 1));
    r := CsiDone(s, a, FirstFour(marker + inters), 0x50);
  }

  /** ECH: the cells from the cursor's on are blanked in place, whatever protects them. */
  lemma ErasesCells(s: ScreenV, p: PState, marker: seq<Byte>, values: seq<U16>, inters: seq<Byte>)
    returns (r: ScreenV)
    requires CanSend(s, p, marker, inters)
    ensures Gives(s, p, Csi(marker, values, inters, 0x58), r) && CellsOnly(s, r)
    ensures var (row, n) := (s.cursor.row, Arg(values, 0, 1));
            if s.cursor.col < s.grid.cols then
              SpanBlanked(s.grid.lines[row], r.grid.lines[row], s.cursor.col,
                          if s.cursor.col + n < s.grid.cols then s.cursor.col + n else s.grid.cols, false)
            else r.grid == s.grid
  {
    hide AllWide, Tight, Gives, Csi, Arg, FirstFour, CsiMove, CsiExtra, CsiState, ModesSet, CharsBlanked, SpanBlanked;
    var a := CsiReceived(s, p, marker, values, inters, 0x58);
    ArgAtLeastOne(values, 0);
    BlankingErases(s, Arg(values, 0, 1));
    r := CsiDone(s, a, FirstFour(marker + inters), 0x58);
  }

  // ----- Repeating -----

  function Copies(c: Scalar, n: nat): (actions: seq<Action>)
    ensures |actions| == n
  {
    seq(n, _ => Print(c))
  }

  lemma {:induction false} RepeatingPrints(s: ScreenV, c: Scalar, n: nat)
    requires Safe(s)
    ensures CanPerformAll(s, Copies(c, n)) && PerformedAll(s, Copies(c, n)) == Repeated(s, c, n)
    decreases n
  {
    hide Safe, Keeps, Tight, CharWritten;
    ClampedActionsStaySafe(s, Copies(c, n));
    if n > 0 {
      assert Copies(c, n)[1..] == Copies(c, n - 1);
      RepeatingPrints(CharWritten(s, c), c, n - 1);
    }
  }

  /** REP: what was printed last is printed again, as if it had come as often; before any
      character nothing is. */
  lemma Repeats(s: ScreenV, p: PState, marker: seq<Byte>, values: seq<U16>, inters: seq<Byte>) returns (r: ScreenV)
    requires CanSend(s, p, marker, inters)
    ensures Gives(s, p, Csi(marker, values, inters, 0x62), r)
    ensures s.lastChar.None? ==> r == s
    ensures s.lastChar.Some? ==> var again := Copies(s.lastChar.value, Arg(values, 0, 1));
                                 CanPerformAll(s, again) && r == PerformedAll(s, again)
  {
    hide Safe, Keeps, Tight, Gives, Csi, Arg, FirstFour, CsiMove, CsiExtra, CsiState, ModesSet, Repeated, Copies,
      PerformedAll, CanPerformAll;
    var a := CsiReceived(s, p, marker, values, inters, 0x62);
    r := CsiDone(s, a, FirstFour(marker + inters), 0x62);
    if s.lastChar.Some? {
      RepeatingPrints(s, s.lastChar.value, Arg(values, 0, 1));
    }
  }
}
