/** What a printed character does to the screen, from its bytes: the cell it gets, and how it gets there. */
module PrintEffects {
  import opened Options
  import opened Utf8
  import opened Cells
  import opened GridValues
  import opened VtParams
  import opened VtParser
  import opened ParserRoundTrips
  import opened ScreenState
  import opened ScreenEdits
  import opened Performing
  import opened Runs
  import opened Received
  import opened CursorEffects
  import opened EditEffects

  // ----- Which character, how wide -----

  /** The line drawing set, where it differs from ASCII. */
  const LINE_DRAWING: map<Scalar, Scalar> :=
    map[0x61 := 0x2592, 0x6A := 0x2518, 0x6B := 0x2510, 0x6C := 0x250C, 0x6D := 0x2514, 0x6E := 0x253C,
        0x71 := 0x2500, 0x74 := 0x251C, 0x75 := 0x2524, 0x76 := 0x2534, 0x77 := 0x252C, 0x78 := 0x2502]

  /** The set characters are taken from: G1 after SO, G0 after SI. */
  function ActiveSet(s: ScreenV): Charset {
    if s.activeCharset == 1 then s.g1 else s.g0
  }

  /** What a character sent shows as. */
  function ShownAs(s: ScreenV, c: Scalar): Scalar {
    if ActiveSet(s) == DecSpecialGraphics && c in LINE_DRAWING then LINE_DRAWING[c] else c
  }

  lemma ShownIsMapped(s: ScreenV, c: Scalar)
    ensures MappedChar(s, c) == ShownAs(s, c)
  {
  }

  /** Printable ASCII, Latin, Greek and Cyrillic take a column; controls and combining marks none;
      East Asian scripts, full-width forms and pictographs two. */
  lemma Widths(c: Scalar)
    ensures 0x20 <= c <= 0x7E || 0xA0 <= c <= 0x2FF || 0x370 <= c <= 0x52F ==> CharWidth(c) == 1
    ensures c < 0x20 || 0x7F <= c <= 0x9F || 0x300 <= c <= 0x36F || 0x200B <= c <= 0x200D ==> CharWidth(c) == 0
    ensures 0x3041 <= c <= 0x30FF || 0x4E00 <= c <= 0x9FFF || 0xAC00 <= c <= 0xD7A3 ==> CharWidth(c) == 2
    ensures 0xFF01 <= c <= 0xFF60 || 0x1F300 <= c <= 0x1F64F || 0x20000 <= c <= 0x2A6DF ==> CharWidth(c) == 2
    ensures 0x2500 <= c <= 0x259F || 0xFF61 <= c <= 0xFFDC ==> CharWidth(c) == 1
  {
  }

  // ----- The cell -----

  /** A cell as the pen writes it: bold may brighten the first eight colours. */
  ghost predicate Inked(s: ScreenV, cell: Cell) {
    && cell.bg == s.pen.bg && cell.attrs == s.pen.attrs && cell.hyperlink == s.hyperlink
    && cell.fg == if s.boldIsBright && s.pen.attrs.bold && s.pen.fg.Indexed? && s.pen.fg.index <= 7
                  then Indexed(s.pen.fg.index + 8) else s.pen.fg
  }

  /** Half a wide character that lost its other half: a space in its colours. */
  ghost predicate Halved(before: Cell, after: Cell) {
    after.c == 0x20 && after.width == 1 && after == before.(c := after.c, width := after.width)
  }

  /** Cell `i` of a row after a character of `width` columns at `col`. */
  ghost predicate CellWritten(s: ScreenV, before: seq<Cell>, after: seq<Cell>, col: nat, m: Scalar, width: nat, i: nat)
    requires i < |before| == |after| && col < |before|
  {
    if i == col then after[i].c == m && after[i].width == width && Inked(s, after[i])
    else if i == col + 1 && width == 2 then after[i].c == 0x20 && after[i].width == 0 && Inked(s, after[i])
    else if || (i == col + 1 && before[col].width == 2)
            || (i == col + 2 && width == 2 && before[col].width != 2 && before[col + 1].width == 2)
            || (i + 1 == col && before[col].width == 0 && before[i].width == 2)
         then Halved(before[i], after[i])
    else after[i] == before[i]
  }

  /** The character at the cursor, which moves on, or waits at the edge to wrap. Only the cursor's
      row differs. */
  ghost predicate PrintedAt(s: ScreenV, r: ScreenV, m: Scalar, width: nat)
    requires Safe(s) && s.cursor.col < s.grid.cols
  {
    var (row, col) := (s.cursor.row, s.cursor.col);
    && r == s.(grid := r.grid, damage := r.damage, cursor := r.cursor, pendingWrap := r.pendingWrap,
               lastChar := Some(m))
    && |r.grid.lines| == s.grid.rows && r.grid == s.grid.(lines := s.grid.lines[row := r.grid.lines[row]])
    && r.grid.lines[row].continuation == s.grid.lines[row].continuation && |r.grid.lines[row].cells| == s.grid.cols
    && (forall i: nat :: i < s.grid.cols ==>
          CellWritten(s, s.grid.lines[row].cells, r.grid.lines[row].cells, col, m, width, i))
    && r.cursor == s.cursor.(col := if col + width < RowEnd(s) then col + width else RowEnd(s) - 1)
    && (r.pendingWrap <==> s.pendingWrap || (col + width >= RowEnd(s) && s.modes.autowrap))
  }

  lemma WritesCell(s: ScreenV, cells: seq<Cell>, col: nat, m: Scalar, width: nat, i: nat)
    requires i < |cells| && col < |cells| && 1 <= width <= 2
    ensures CellWritten(s, cells, Written(cells, col, Glyph(s, m, width)), col, m, width, i)
  {
  }

  /** No wrap is pending, the row has room for a wide character, and nothing is pushed. */
  ghost predicate HasRoom(s: ScreenV, width: nat) {
    !s.pendingWrap && !s.modes.insert && s.cursor.col < s.grid.cols && (width == 2 ==> s.cursor.col + 2 <= RowEnd(s))
  }

  lemma Unprepared(s: ScreenV, width: nat)
    requires Safe(s) && HasRoom(s, width)
    ensures Prepared(s, width) == s
  {
    hide AllWide, Tight, WrappedOn, Padded;
  }

  lemma PutsAndMovesOn(s: ScreenV, m: Scalar, width: nat)
    requires Safe(s) && s.cursor.col < s.grid.cols && 1 <= width <= 2 && s.lastChar == Some(m)
    ensures PrintedAt(s, Advanced(Put(s, m, width), width), m, width)
  {
    hide AllWide, Tight, Written, Glyph, RegionFor, CellWritten;
    var cells := s.grid.lines[s.cursor.row].cells;
    CellsWide(s);
    forall i: nat | i < s.grid.cols
      ensures CellWritten(s, cells, Written(cells, s.cursor.col, Glyph(s, m, width)), s.cursor.col, m, width, i)
    {
      WritesCell(s, cells, s.cursor.col, m, width, i);
    }
  }

  lemma CellsWide(s: ScreenV)
    requires Safe(s)
    ensures |s.grid.lines[s.cursor.row].cells| == s.grid.cols
  {
  }

  lemma NotedAlike(s: ScreenV, m: Scalar, r: ScreenV, width: nat)
    requires Safe(s) && Safe(Noted(s, m)) && s.cursor.col < s.grid.cols && PrintedAt(Noted(s, m), r, m, width)
    ensures PrintedAt(s, r, m, width)
  {
    hide Tight;
    forall i: nat | i < s.grid.cols
      ensures CellWritten(s, s.grid.lines[s.cursor.row].cells, r.grid.lines[s.cursor.row].cells, s.cursor.col, m,
                          width, i)
    {
      assert CellWritten(Noted(s, m), s.grid.lines[s.cursor.row].cells, r.grid.lines[s.cursor.row].cells,
                         s.cursor.col, m, width, i);
    }
  }

  /** With room, a character takes its place. */
  lemma PrintsInPlace(s: ScreenV, p: PState, c: Scalar) returns (r: ScreenV)
    requires Safe(s) && p.Valid() && p.state == Ground && IsPrintable(c)
    requires CharWidth(ShownAs(s, c)) > 0 && HasRoom(s, CharWidth(ShownAs(s, c)))
    ensures Gives(s, p, Encode(c), r) && PrintedAt(s, r, ShownAs(s, c), CharWidth(ShownAs(s, c)))
  {
    hide AllWide, Tight, Gives, Encode, MappedChar, ShownAs, CharWidth, Advanced, Put, Prepared, PrintedAt, HasRoom;
    CharReceived(s, p, c);
    ShownIsMapped(s, c);
    var m := ShownAs(s, c);
    var (s1, width) := (Noted(s, m), CharWidth(m));
    NotedHasRoom(s, m, width);
    Unprepared(s1, width);
    RoomOnRow(s, width);
    PutsAndMovesOn(s1, m, width);
    r := CharWritten(s, c);
    NotedAlike(s, m, r, width);
  }

  lemma NotedHasRoom(s: ScreenV, m: Scalar, width: nat)
    requires Safe(s) && HasRoom(s, width)
    ensures HasRoom(Noted(s, m), width)
  {
    hide AllWide, Tight;
  }

  lemma RoomOnRow(s: ScreenV, width: nat)
    requires HasRoom(s, width)
    ensures s.cursor.col < s.grid.cols
  {
  }

  /** A character of no width changes nothing but what REP repeats. */
  lemma PrintsNothing(s: ScreenV, p: PState, c: Scalar) returns (r: ScreenV)
    requires Safe(s) && p.Valid() && p.state == Ground && IsPrintable(c) && CharWidth(ShownAs(s, c)) == 0
    ensures Gives(s, p, Encode(c), r) && r == s.(lastChar := Some(ShownAs(s, c)))
  {
    hide Safe, Keeps, Tight, Gives, Encode, MappedChar, ShownAs, CharWidth, Printed;
    CharReceived(s, p, c);
    ShownIsMapped(s, c);
    r := CharWritten(s, c);
  }

  // ----- Wrapping -----

  function FlagPut(g: GridV, row: nat, flag: bool): GridV
    requires row < |g.lines|
  {
    g.(lines := g.lines[row := g.lines[row].(continuation := flag)])
  }

  /** The next line, which continues: a return, a line feed and the flag of the row reached. */
  ghost predicate GoneOn(s: ScreenV, q: ScreenV)
    requires Safe(s)
  {
    var start := s.(cursor := s.cursor.(col := LineStart(s)), pendingWrap := false);
    && Safe(start) && q.cursor.row < |q.grid.lines|
    && exists f: ScreenV :: FedLine(start, f, if s.modes.newline then 0 else LineStart(s)) && Safe(f)
                            && q == f.(grid := FlagPut(f.grid, f.cursor.row, true))
  }

  lemma WrapGoesOn(s: ScreenV)
    requires Safe(s)
    ensures GoneOn(s, WrappedOn(s))
  {
    hide AllWide, Tight, LineFed, CarriageReturned, FedLine, LineStart;
    ReturnsFirst(s);
    CarriageReturnedSafe(s);
    var f := LineFed(CarriageReturned(s));
    LineFeeds(CarriageReturned(s));
  }

  /** What printing starts from once the wrap that is pending has been taken, or dropped. The row
      left loses its flag, so that a third row no longer continues the first. */
  ghost predicate WrapSettled(s: ScreenV, q: ScreenV)
    requires Safe(s) && s.pendingWrap
  {
    if s.modes.autowrap then
      var unflagged := s.(grid := FlagPut(s.grid, s.cursor.row, false));
      Safe(unflagged) && GoneOn(unflagged, q)
    else GoneTo(s, q, s.cursor.row, RowEnd(s) - 1)
  }

  lemma PendingSettles(s: ScreenV)
    requires Safe(s) && s.pendingWrap
    ensures WrapSettled(s, AfterPending(s))
  {
    hide Tight, WrappedOn, GoneOn;
    if s.modes.autowrap {
      WrapGoesOn(Flagged(s, false));
    }
  }

  /** After the last column: the wrap is settled, and then the character printed as if it had not
      been pending. */
  lemma PrintsAfterWrap(s: ScreenV, p: PState, c: Scalar) returns (q: ScreenV, r: ScreenV)
    requires Safe(s) && p.Valid() && p.state == Ground && IsPrintable(c)
    requires s.pendingWrap && CharWidth(ShownAs(s, c)) > 0
    ensures WrapSettled(s, q) && Safe(q) && !q.pendingWrap
    ensures Gives(s, p, Encode(c), r) && Gives(q, p, Encode(c), r)
  {
    hide AllWide, Safe, Keeps, Tight, Gives, Encode, MappedChar, ShownAs, CharWidth, AfterFit, AfterInsert, Advanced,
      Put, WrapSettled, AfterPending;
    q := AfterPending(s);
    r := CharWritten(s, c);
    ShownIsMapped(s, c);
    PendingSettles(s);
    PendingGone(s, c);
    CharReceived(s, p, c);
    CharReceived(q, p, c);
  }

  lemma PendingGone(s: ScreenV, c: Scalar)
    requires Safe(s) && s.pendingWrap && CharWidth(MappedChar(s, c)) > 0
    ensures Safe(AfterPending(s)) && !AfterPending(s).pendingWrap
    ensures CharWritten(s, c) == CharWritten(AfterPending(s), c)
  {
    hide AllWide, Safe, Tight, CharWidth, AfterFit, AfterInsert, Advanced, Put, Mapped, WrappedOn, Flagged;
    var (m, q) := (MappedChar(s, c), AfterPending(s));
    SettlingPasses(s, m);
    assert AfterPending(Noted(q, m)) == Noted(q, m);
  }

  /** What is noted, and what a character is mapped by, passes through. */
  ghost predicate Passes(s: ScreenV, m: Scalar, q: ScreenV, noted: ScreenV) {
    && q.g0 == s.g0 && q.g1 == s.g1 && q.activeCharset == s.activeCharset && q.modes == s.modes
    && noted == q.(lastChar := Some(m))
  }

  lemma DescentPasses(s: ScreenV, m: Scalar)
    requires Safe(s)
    ensures Passes(s, m, Descended(s), Descended(Noted(s, m)))
  {
    hide AllWide, Tight, ScrolledUp, RegionUp, WholeRows, MovedTo;
    if s.cursor.row + 1 < s.grid.rows {
      MovePasses(s, m, s.cursor.row + 1);
    }
  }

  lemma MovePasses(s: ScreenV, m: Scalar, row: nat)
    requires Safe(s) && row < s.grid.rows
    ensures Passes(s, m, MovedTo(s, row, s.cursor.col), MovedTo(Noted(s, m), row, s.cursor.col))
  {
    hide AllWide;
  }

  lemma FeedPasses(s: ScreenV, m: Scalar)
    requires Safe(s)
    ensures Passes(s, m, LineFed(s), LineFed(Noted(s, m)))
  {
    hide AllWide, Safe, Tight, Descended;
    DescentPasses(s, m);
  }

  lemma FlagPasses(s: ScreenV, m: Scalar, flag: bool)
    requires Safe(s)
    ensures Passes(s, m, Flagged(s, flag), Flagged(Noted(s, m), flag))
  {
    hide AllWide, Tight, WithFlag;
  }

  lemma ReturnPasses(s: ScreenV, m: Scalar)
    requires Safe(s)
    ensures Passes(s, m, CarriageReturned(s), CarriageReturned(Noted(s, m)))
  {
    hide AllWide, Tight;
  }

  lemma WrapPasses(s: ScreenV, m: Scalar)
    requires Safe(s)
    ensures Passes(s, m, WrappedOn(s), WrappedOn(Noted(s, m)))
  {
    hide AllWide, Safe, Tight, LineFed, CarriageReturned, Flagged;
    ReturnPasses(s, m);
    FeedPasses(CarriageReturned(s), m);
    FlagPasses(LineFed(CarriageReturned(s)), m, true);
  }

  lemma SettlingPasses(s: ScreenV, m: Scalar)
    requires Safe(s)
    ensures Passes(s, m, AfterPending(s), AfterPending(Noted(s, m)))
  {
    hide AllWide, Tight, WrappedOn, Flagged;
    FlagPasses(s, m, false);
    WrapPasses(Flagged(s, false), m);
  }

  /** A wide character that has only the last column left: the cell there is spaced and the line
      wrapped; without autowrap it takes the last two columns. Then it is printed as if the cursor
      had been there. */
  ghost predicate MadeRoom(s: ScreenV, q: ScreenV)
    requires Safe(s)
  {
    if !s.modes.autowrap then q == s.(cursor := s.cursor.(col := if RowEnd(s) >= 2 then RowEnd(s) - 2 else 0))
    else exists padded: ScreenV :: Safe(padded) && SpacedHere(s, padded) && GoneOn(padded, q)
  }

  ghost predicate SpacedHere(s: ScreenV, r: ScreenV)
    requires Safe(s)
  {
    var (row, col) := (s.cursor.row, s.cursor.col);
    && r == s.(grid := r.grid) && |r.grid.lines| == s.grid.rows
    && r.grid == s.grid.(lines := s.grid.lines[row := r.grid.lines[row]])
    && r.grid.lines[row].continuation == s.grid.lines[row].continuation && |r.grid.lines[row].cells| == s.grid.cols
    && forall i: nat :: i < s.grid.cols ==>
         if i == col then Halved(s.grid.lines[row].cells[i], r.grid.lines[row].cells[i])
         else r.grid.lines[row].cells[i] == s.grid.lines[row].cells[i]
  }

  lemma PaddingSpaces(s: ScreenV)
    requires Safe(s)
    ensures Safe(Padded(s)) && SpacedHere(s, Padded(s))
  {
    hide Tight;
  }

  lemma FitMakesRoom(s: ScreenV)
    requires Safe(s) && s.cursor.col >= RowEnd(s) - 1
    ensures MadeRoom(s, AfterFit(s, 2))
  {
    hide AllWide, Tight, WrappedOn, GoneOn, Padded, SpacedHere;
    if s.modes.autowrap {
      PaddingSpaces(s);
      WrapGoesOn(Padded(s));
    }
  }

  lemma PrintsWideAtEdge(s: ScreenV, p: PState, c: Scalar) returns (q: ScreenV, r: ScreenV)
    requires Safe(s) && p.Valid() && p.state == Ground && IsPrintable(c)
    requires !s.pendingWrap && CharWidth(ShownAs(s, c)) == 2 && s.cursor.col >= RowEnd(s) - 1
    ensures MadeRoom(s, q) && Safe(q) && Gives(s, p, Encode(c), r)
    ensures q.cursor.col < RowEnd(q) - 1 && !q.pendingWrap ==> Gives(q, p, Encode(c), r)
  {
    hide AllWide, Safe, Tight, Gives, Encode, MappedChar, ShownAs, CharWidth, AfterFit, MadeRoom, CharWritten;
    q := AfterFit(s, 2);
    r := CharWritten(s, c);
    FitMakesRoom(s);
    CharReceived(s, p, c);
    CharReceived(q, p, c);
    ShownIsMapped(s, c);
    if q.cursor.col < RowEnd(q) - 1 && !q.pendingWrap {
      RoomMade(s, c);
    }
  }

  lemma RoomMade(s: ScreenV, c: Scalar)
    requires Safe(s) && !s.pendingWrap && CharWidth(MappedChar(s, c)) == 2 && s.cursor.col >= RowEnd(s) - 1
    requires var q := AfterFit(s, 2); Safe(q) && q.cursor.col < RowEnd(q) - 1 && !q.pendingWrap
    ensures CharWritten(s, c) == CharWritten(AfterFit(s, 2), c)
  {
    hide AllWide, Safe, Tight, CharWidth, AfterInsert, Advanced, Put, Mapped, WrappedOn;
    var (m, q) := (MappedChar(s, c), AfterFit(s, 2));
    FittingPasses(s, m);
    assert AfterFit(Noted(q, m), 2) == Noted(q, m);
  }

  lemma PadPasses(s: ScreenV, m: Scalar)
    requires Safe(s)
    ensures Passes(s, m, Padded(s), Padded(Noted(s, m)))
  {
    hide Tight;
  }

  lemma FittingPasses(s: ScreenV, m: Scalar)
    requires Safe(s)
    ensures Passes(s, m, AfterFit(s, 2), AfterFit(Noted(s, m), 2))
  {
    hide AllWide, Tight, WrappedOn, Padded;
    PadPasses(s, m);
    WrapPasses(Padded(s), m);
  }

  // ----- Insert mode -----

  /** IRM: the cells from the cursor's on go right by the character's width, and then it is
      printed as without. */
  lemma PrintsInserting(s: ScreenV, p: PState, c: Scalar) returns (q: ScreenV, r: ScreenV)
    requires Safe(s) && p.Valid() && p.state == Ground && IsPrintable(c) && CharWidth(ShownAs(s, c)) > 0
    requires s.modes.insert && HasRoom(s.(modes := s.modes.(insert := false)), CharWidth(ShownAs(s, c)))
    ensures Safe(q) && q == s.(grid := q.grid, modes := s.modes.(insert := false))
            && q.grid == s.grid.(lines := s.grid.lines[s.cursor.row := q.grid.lines[s.cursor.row]])
            && q.grid.lines[s.cursor.row].continuation == s.grid.lines[s.cursor.row].continuation
            && CellsMoved(s.grid.lines[s.cursor.row].cells, q.grid.lines[s.cursor.row].cells, s.cursor.col, RowEnd(s),
                          CharWidth(ShownAs(s, c)))
    ensures Gives(q, p, Encode(c), r.(modes := q.modes)) && Gives(s, p, Encode(c), r) && r.modes == s.modes
  {
    hide Gives, Encode, ShownAs, CharWidth, MappedChar, AllWide, Tight, CellsMoved, CellsInserted, Advanced, Put;
    var width := CharWidth(ShownAs(s, c));
    q := s.(grid := CellsInserted(s.grid, s.cursor.row, s.cursor.col, width, RightEdge(s)),
            modes := s.modes.(insert := false));
    r := CharWritten(s, c);
    CharReceived(s, p, c);
    CharReceived(q, p, c);
    ShownIsMapped(s, c);
    InsertedMoves(s, width);
    InsertsFirst(s, q, c);
  }

  lemma InsertedMoves(s: ScreenV, n: nat)
    requires Safe(s)
    ensures var g := CellsInserted(s.grid, s.cursor.row, s.cursor.col, n, RightEdge(s));
            && g == s.grid.(lines := s.grid.lines[s.cursor.row := g.lines[s.cursor.row]])
            && g.lines[s.cursor.row].continuation == s.grid.lines[s.cursor.row].continuation
            && CellsMoved(s.grid.lines[s.cursor.row].cells, g.lines[s.cursor.row].cells, s.cursor.col, RowEnd(s), n)
  {
    hide Tight, CellsMoved, ShiftRight;
    if s.cursor.col < RowEnd(s) {
      RightMoves(s.grid.lines[s.cursor.row].cells, s.cursor.col, RowEnd(s), n);
    } else {
      NothingMoves(s.grid.lines[s.cursor.row].cells, s.cursor.col, RowEnd(s), n);
    }
  }

  lemma InsertsFirst(s: ScreenV, q: ScreenV, c: Scalar)
    requires Safe(s) && Safe(q) && CharWidth(MappedChar(s, c)) > 0
    requires s.modes.insert && HasRoom(s.(modes := s.modes.(insert := false)), CharWidth(MappedChar(s, c)))
    requires q == s.(grid := CellsInserted(s.grid, s.cursor.row, s.cursor.col, CharWidth(MappedChar(s, c)),
                                           RightEdge(s)),
                     modes := s.modes.(insert := false))
    ensures CharWritten(q, c) == CharWritten(s, c).(modes := q.modes) && CharWritten(s, c).modes == s.modes
  {
    hide AllWide, Safe, Tight, CharWidth, CellsInserted, Advanced, Put, Prepared, Mapped, HasRoom;
    var m := MappedChar(s, c);
    var w := CharWidth(m);
    PreparedInserted(s, q, m, w);
    var t := Prepared(Noted(s, m), w);
    PutAlike(t, t.(modes := q.modes), m, w);
  }

  lemma PreparedInserted(s: ScreenV, q: ScreenV, m: Scalar, w: nat)
    requires Safe(s) && Safe(q) && s.modes.insert && HasRoom(s.(modes := s.modes.(insert := false)), w)
    requires q == s.(grid := CellsInserted(s.grid, s.cursor.row, s.cursor.col, w, RightEdge(s)),
                     modes := s.modes.(insert := false))
    ensures Prepared(Noted(q, m), w) == Prepared(Noted(s, m), w).(modes := q.modes)
    ensures Prepared(Noted(s, m), w).modes == s.modes
  {
    hide AllWide, Tight, CellsInserted, WrappedOn, Padded;
  }

  /** Neither writing nor moving on looks at insert mode. */
  lemma PutAlike(t: ScreenV, u: ScreenV, m: Scalar, w: nat)
    requires Safe(t) && Safe(u) && u == t.(modes := t.modes.(insert := false))
    ensures Advanced(Put(u, m, w), w) == Advanced(Put(t, m, w), w).(modes := u.modes)
    ensures Advanced(Put(t, m, w), w).modes == t.modes
  {
    hide AllWide, Safe, Tight, Put, Advanced;
    WrittenAlike(t, u, m, w);
    AdvancedAlike(Put(t, m, w), Put(u, m, w), w);
  }

  lemma WrittenAlike(t: ScreenV, u: ScreenV, m: Scalar, w: nat)
    requires Safe(t) && Safe(u) && u == t.(modes := t.modes.(insert := false))
    ensures Put(u, m, w) == Put(t, m, w).(modes := u.modes) && Put(t, m, w).modes == t.modes
  {
    hide AllWide, Tight, Written, RegionFor;
    assert Glyph(u, m, w) == Glyph(t, m, w);
    RegionAlike(t, u);
  }

  lemma RegionAlike(t: ScreenV, u: ScreenV)
    requires u == t.(modes := u.modes)
    ensures forall r: nat, a: nat, b: nat :: RegionFor(u, r, a, b) == RegionFor(t, r, a, b)
    ensures forall g: GridV, r: nat, a: nat, b: nat ::
              RegionFor(u.(grid := g), r, a, b) == RegionFor(t.(grid := g), r, a, b)
  {
  }

  lemma AdvancedAlike(t: ScreenV, u: ScreenV, w: nat)
    requires Safe(t) && Safe(u) && u == t.(modes := t.modes.(insert := false))
    ensures Advanced(u, w) == Advanced(t, w).(modes := u.modes) && Advanced(t, w).modes == t.modes
  {
    hide AllWide, Tight;
  }
}
