/** Regions, saved state, modes, resets, rectangles and the pen, from the bytes that set them. */
module StateEffects {
  import opened Options
  import opened Utf8
  import opened Cells
  import opened GridValues
  import opened VtParams
  import opened VtParser
  import opened ParserRoundTrips
  import opened ParserControls
  import opened ScreenState
  import opened ScreenEdits
  import opened ScreenModes
  import opened Performing
  import opened Runs
  import opened Received
  import opened CursorEffects

  // ----- Regions -----

  /** Lines `from` to `end`, counted from 1, as bounds; 0 for the end means the last. */
  function Asked(from: nat, end: nat, size: nat, otherwise: (nat, nat)): (int, int) {
    var last := if end == 0 || end > size then size else end;
    if from < last then (from - 1, last) else otherwise
  }

  lemma BoundsAsked(from: nat, end: nat, size: nat, otherwise: (nat, nat))
    requires from >= 1 && size >= 1
    ensures var b := Bounds(from, end, size);
            Asked(from, end, size, otherwise) == if b.Some? then b.value else otherwise
  {
  }

  /** DECSTBM: the region asked for if it has two lines, and the cursor to the home of the origin mode. */
  lemma SetsRegion(s: ScreenV, p: PState, marker: seq<Byte>, values: seq<U16>, inters: seq<Byte>)
    returns (r: ScreenV)
    requires CanSend(s, p, marker, inters) && marker != [0x3F]
    ensures Gives(s, p, Csi(marker, values, inters, 0x72), r)
    ensures (r.top, r.bottom) == Asked(Arg(values, 0, 1), Arg(values, 1, Low16(s.grid.rows)), s.grid.rows,
                                       (s.top, s.bottom))
    ensures GoneTo(s.(top := r.top, bottom := r.bottom), r, if s.modes.origin then r.top else 0,
                   if s.modes.origin then s.left else 0)
  {
    hide AllWide, Tight, Gives, Csi, Arg, FirstFour, CsiMove, CsiEdit, CsiExtra, ModesSet, Asked, Bounds;
    var a := CsiReceived(s, p, marker, values, inters, 0x72);
    MarkerSays(marker, inters);
    ArgAtLeastOne(values, 0);
    BoundsAsked(Arg(values, 0, 1), Arg(values, 1, Low16(s.grid.rows)), s.grid.rows, (s.top, s.bottom));
    r := CsiDone(s, a, FirstFour(marker + inters), 0x72);
  }

  /** DECSLRM, while mode 69 is set: the same for the columns. */
  lemma SetsMargins(s: ScreenV, p: PState, marker: seq<Byte>, values: seq<U16>, inters: seq<Byte>)
    returns (r: ScreenV)
    requires CanSend(s, p, marker, inters) && marker != [0x3F] && s.modes.leftRightMargin
    ensures Gives(s, p, Csi(marker, values, inters, 0x73), r)
    ensures (r.left, r.right) == Asked(Arg(values, 0, 1), Arg(values, 1, Low16(s.grid.cols)), s.grid.cols,
                                       (s.left, s.right))
    ensures GoneTo(s.(left := r.left, right := r.right), r, if s.modes.origin then s.top else 0,
                   if s.modes.origin then r.left else 0)
  {
    hide AllWide, Tight, Gives, Csi, Arg, FirstFour, CsiMove, CsiEdit, CsiExtra, ModesSet, Asked, Bounds;
    var a := CsiReceived(s, p, marker, values, inters, 0x73);
    MarkerSays(marker, inters);
    ArgAtLeastOne(values, 0);
    BoundsAsked(Arg(values, 0, 1), Arg(values, 1, Low16(s.grid.cols)), s.grid.cols, (s.left, s.right));
    r := CsiDone(s, a, FirstFour(marker + inters), 0x73);
  }

  // ----- Saved cursor -----

  /** The cursor's place, the pen, the character sets, origin mode and the pending wrap are put aside. */
  ghost predicate PutAside(s: ScreenV, r: ScreenV) {
    && r == s.(savedCursor := r.savedCursor) && r.savedCursor.Some?
    && var v := r.savedCursor.value;
       && v.row == s.cursor.row && v.col == s.cursor.col && Pen(v.attrs, v.fg, v.bg) == s.pen
       && v.g0 == s.g0 && v.g1 == s.g1 && v.activeCharset == s.activeCharset
       && v.originMode == s.modes.origin && v.pendingWrap == s.pendingWrap
  }

  /** They are taken back, the place as far as the screen goes; without any, the cursor goes home
      with a default pen. Nothing else differs. */
  ghost predicate TakenBack(s: ScreenV, r: ScreenV)
    requires Safe(s)
  {
    if s.savedCursor.None? then GoneTo(s.(pen := DEFAULT_PEN), r, 0, 0)
    else
      var v := s.savedCursor.value;
      && r.cursor.row == (if v.row < s.grid.rows then v.row else s.grid.rows - 1)
      && r.cursor.col == (if v.col < s.grid.cols then v.col else s.grid.cols - 1)
      && r.pen == Pen(v.attrs, v.fg, v.bg) && r.modes.origin == v.originMode
      && r == s.(cursor := s.cursor.(row := r.cursor.row, col := r.cursor.col), pen := r.pen, g0 := v.g0, g1 := v.g1,
                 activeCharset := v.activeCharset, modes := s.modes.(origin := r.modes.origin),
                 pendingWrap := v.pendingWrap)
  }

  lemma SavingPutsAside(s: ScreenV)
    requires Safe(s)
    ensures PutAside(s, CursorSaved(s))
  {
    hide AllWide, Tight;
  }

  lemma RestoringTakesBack(s: ScreenV)
    requires Safe(s)
    ensures TakenBack(s, CursorRestored(s))
  {
    hide AllWide, Tight;
  }

  /** CSI s without mode 69, and ESC 7. */
  lemma SavesCursor(s: ScreenV, p: PState, marker: seq<Byte>, values: seq<U16>, inters: seq<Byte>)
    returns (r: ScreenV)
    requires CanSend(s, p, marker, inters) && marker != [0x3F]
    ensures Gives(s, p, Esc([], 0x37), r) && PutAside(s, r)
    ensures !s.modes.leftRightMargin ==> Gives(s, p, Csi(marker, values, inters, 0x73), r)
  {
    hide Safe, Keeps, Tight, Gives, Esc, Csi, Arg, FirstFour, CsiMove, CsiEdit, CsiExtra, ModesSet, CursorSaved,
      LineFed, CarriageReturned, ReverseIndexed, CursorRestored, FullReset, Aligned;
    NoIntermediates();
    EscReceived(s, p, [], 0x37);
    var a := CsiReceived(s, p, marker, values, inters, 0x73);
    MarkerSays(marker, inters);
    SavingPutsAside(s);
    r := CursorSaved(s);
  }

  lemma NoIntermediates()
    ensures FirstFour([]) == []
  {
  }

  /** CSI u and ESC 8. */
  lemma RestoresCursor(s: ScreenV, p: PState, marker: seq<Byte>, values: seq<U16>, inters: seq<Byte>)
    returns (r: ScreenV)
    requires CanSend(s, p, marker, inters)
    ensures Gives(s, p, Csi(marker, values, inters, 0x75), r) && Gives(s, p, Esc([], 0x38), r) && TakenBack(s, r)
  {
    hide Safe, Keeps, Tight, Gives, Esc, Csi, Arg, FirstFour, CsiMove, CsiEdit, CsiExtra, ModesSet, CursorSaved,
      LineFed, CarriageReturned, ReverseIndexed, CursorRestored, FullReset, Aligned;
    NoIntermediates();
    EscReceived(s, p, [], 0x38);
    var a := CsiReceived(s, p, marker, values, inters, 0x75);
    RestoringTakesBack(s);
    r := CursorRestored(s);
  }

  // ----- Saved modes -----

  /** XTSAVE: all modes put aside. */
  lemma SavesModes(s: ScreenV, p: PState, values: seq<U16>, inters: seq<Byte>) returns (r: ScreenV)
    requires CanSend(s, p, [0x3F], inters)
    ensures Gives(s, p, Csi([0x3F], values, inters, 0x73), r) && r == s.(savedModes := Some(s.modes))
  {
    hide Safe, Tight, Gives, Csi, Arg, FirstFour, CsiMove, CsiEdit, CsiExtra, ModesSet;
    var a := CsiReceived(s, p, [0x3F], values, inters, 0x73);
    MarkerSays([0x3F], inters);
    r := CsiDone(s, a, FirstFour([0x3F] + inters), 0x73);
  }

  /** XTRESTORE: taken back, once. */
  lemma RestoresModes(s: ScreenV, p: PState, values: seq<U16>, inters: seq<Byte>) returns (r: ScreenV)
    requires CanSend(s, p, [0x3F], inters)
    ensures Gives(s, p, Csi([0x3F], values, inters, 0x72), r)
    ensures s.savedModes.None? ==> r == s
    ensures s.savedModes.Some? ==> r.modes == s.savedModes.value && r == s.(modes := r.modes, savedModes := None)
  {
    hide Safe, Tight, Gives, Csi, Arg, FirstFour, CsiMove, CsiEdit, CsiExtra, ModesSet;
    var a := CsiReceived(s, p, [0x3F], values, inters, 0x72);
    MarkerSays([0x3F], inters);
    r := CsiDone(s, a, FirstFour([0x3F] + inters), 0x72);
  }

  // ----- Resets -----

  /** DECSTR: as on a new screen are the modes, the pen, the character sets, the region, the look
      of the cursor, and that nothing is saved; the contents stay. */
  lemma ResetsSoftly(s: ScreenV, p: PState, marker: seq<Byte>, values: seq<U16>, inters: seq<Byte>)
    returns (r: ScreenV)
    requires CanSend(s, p, marker, inters)
    ensures Gives(s, p, Csi(marker, values, inters, 0x70), r)
    ensures if 0x21 in FirstFour(marker + inters) then
              var n := NewScreen(s.grid.cols, s.grid.rows);
              r == s.(modes := n.modes, pen := n.pen, g0 := n.g0, g1 := n.g1, activeCharset := n.activeCharset,
                      savedCursor := n.savedCursor, pendingWrap := n.pendingWrap, top := n.top, bottom := n.bottom,
                      left := n.left, right := n.right,
                      cursor := n.cursor.(row := s.cursor.row, col := s.cursor.col))
            else r == s
  {
    hide AllWide, Tight, Gives, Csi, Arg, FirstFour, CsiMove, CsiEdit, CsiState, ModesSet;
    var a := CsiReceived(s, p, marker, values, inters, 0x70);
    r := CsiDone(s, a, FirstFour(marker + inters), 0x70);
  }

  /** RIS: a new screen of the same size. */
  lemma ResetsFully(s: ScreenV, p: PState) returns (r: ScreenV)
    requires CanSend(s, p, [], [])
    ensures Gives(s, p, Esc([], 0x63), r) && r == NewScreen(s.grid.cols, s.grid.rows)
  {
    hide Safe, Keeps, Tight, Gives, Esc, LineFed, CarriageReturned, ReverseIndexed, CursorRestored, CursorSaved,
      Aligned, NewScreen, FirstFour;
    NoIntermediates();
    EscReceived(s, p, [], 0x63);
    r := EscDone(s, FirstFour([]), 0x63);
  }

  /** What that is: blank rows and no history on both grids, both cursors home, the whole screen the
      region, a tab stop every eight columns but not at the first, ASCII, and nothing saved or pending. */
  lemma NewScreenIs(cols: nat, rows: nat)
    ensures var n := NewScreen(cols, rows);
            && n.grid == n.alt && n.grid.scrollback == []
            && n.grid.cols == cols && n.grid.rows == rows == |n.grid.lines|
            && (forall i :: 0 <= i < rows ==> n.grid.lines[i] == BlankRow(cols))
            && n.cursor == n.altCursor && n.cursor.row == n.cursor.col == 0
            && n.cursor.visible && n.cursor.shape == Block
            && n.top == 0 && n.bottom == rows && n.left == 0 && n.right == cols
            && |n.tabStops| == cols && (forall c :: 0 <= c < cols ==> (n.tabStops[c] <==> c != 0 && c % 8 == 0))
            && n.g0 == n.g1 == Ascii && n.activeCharset == 0 && !n.pendingWrap
            && n.savedCursor.None? && n.savedModes.None? && n.lastChar.None? && n.hyperlink.None? && n.sgrStack == []
  {
  }

  /** Of the modes only autowrap is on, and the pen is plain. */
  lemma NewModesAre()
    ensures var m := DEFAULT_MODES;
            && m.autowrap && !m.origin && !m.insert && !m.newline && !m.altScreen && !m.allowDeccolm
            && !m.leftRightMargin && !m.reverseWrap && !m.applicationCursorKeys && !m.applicationKeypad
            && !m.bracketedPaste && !m.focusTracking && !m.mouseSgr && m.mouseTracking == NoMouse
    ensures var a := DEFAULT_ATTRS;
            && !a.bold && !a.italic && a.underline == NoUnderline && !a.blink && !a.reverse && !a.invisible
            && !a.strikethrough && !a.protected
    ensures DEFAULT_PEN == Pen(DEFAULT_ATTRS, DefaultColor, DefaultColor)
  {
  }

  // ----- Escape sequences that choose -----

  /** DECKPAM and DECKPNM. */
  lemma ChoosesKeypad(s: ScreenV, p: PState, final: Byte) returns (r: ScreenV)
    requires CanSend(s, p, [], []) && final in {0x3D, 0x3E}
    ensures Gives(s, p, Esc([], final), r)
    ensures r == s.(modes := s.modes.(applicationKeypad := final == 0x3D))
  {
    hide Safe, Keeps, Tight, Gives, Esc, LineFed, CarriageReturned, ReverseIndexed, CursorRestored, CursorSaved,
      Aligned, FullReset, FirstFour;
    NoIntermediates();
    EscReceived(s, p, [], final);
    r := EscDone(s, FirstFour([]), final);
  }

  /** ESC ( and ESC ): the line drawing set for 0, the British one for A, ASCII for any other. */
  lemma ChoosesCharset(s: ScreenV, p: PState, inter: Byte, final: Byte) returns (r: ScreenV)
    requires CanSend(s, p, [], [inter]) && inter in {0x28, 0x29} && 0x30 <= final <= 0x7E
    ensures Gives(s, p, Esc([inter], final), r)
    ensures var charset := if final == 0x30 then DecSpecialGraphics else if final == 0x41 then Uk else Ascii;
            r == if inter == 0x28 then s.(g0 := charset) else s.(g1 := charset)
  {
    hide Safe, Keeps, Tight, Gives, Esc, LineFed, CarriageReturned, ReverseIndexed, CursorRestored, CursorSaved,
      Aligned, FullReset;
    EscReceived(s, p, [inter], final);
    r := EscDone(s, FirstFour([inter]), final);
  }

  // ----- Rectangles -----

  /** Only cells differ. */
  ghost predicate OnlyCells(s: ScreenV, r: ScreenV) {
    && r == s.(grid := r.grid) && r.grid == s.grid.(lines := r.grid.lines) && r.grid.Valid()
    && forall i: nat :: i < s.grid.rows && i < |s.grid.lines| ==>
         r.grid.lines[i].continuation == s.grid.lines[i].continuation
  }

  /** A rectangle given by its first and last rows and columns, counted from 1; a first one off
      the screen is the last. */
  datatype Rect = Rect(top: nat, left: nat, bottom: nat, right: nat) {
    predicate Holds(g: GridV, i: nat, c: nat) {
      && (i + 1 >= top || i + 1 == g.rows) && i + 1 <= bottom
      && (c + 1 >= left || c + 1 == g.cols) && c + 1 <= right
    }
  }

  /** DECFRA: every cell of the rectangle shows the character in the pen's colours and attributes. */
  ghost predicate Filled(s: ScreenV, r: ScreenV, rect: Rect, ch: Scalar)
    requires Safe(s)
  {
    && OnlyCells(s, r)
    && forall i: nat :: i < s.grid.rows ==> FilledRow(s, s.grid.lines[i], r.grid.lines[i], rect, ch, i)
  }

  ghost predicate FilledRow(s: ScreenV, before: Row, after: Row, rect: Rect, ch: Scalar, i: nat) {
    && |after.cells| == |before.cells|
    && forall c: nat :: c < |before.cells| ==>
         if rect.Holds(s.grid, i, c) then
           var cell := after.cells[c];
           && cell.c == ch && cell.width == 1 && Pen(cell.attrs, cell.fg, cell.bg) == s.pen
           && cell.hyperlink == before.cells[c].hyperlink
         else after.cells[c] == before.cells[c]
  }

  lemma Fills(s: ScreenV, rect: Rect, ch: Scalar)
    requires Safe(s) && rect.top >= 1 && rect.left >= 1
    ensures Filled(s, RectFilled(s, ch, rect.top, rect.left, rect.bottom, rect.right), rect, ch)
  {
    hide Tight;
  }

  lemma FillsRect(s: ScreenV, p: PState, marker: seq<Byte>, values: seq<U16>, inters: seq<Byte>)
    returns (r: ScreenV)
    requires CanSend(s, p, marker, inters)
    ensures Gives(s, p, Csi(marker, values, inters, 0x78), r)
    ensures if 0x24 in FirstFour(marker + inters) then
              var ch := Arg(values, 0, 0);
              Filled(s, r, Rect(Arg(values, 1, 1), Arg(values, 2, 1), Arg(values, 3, Low16(s.grid.rows)),
                                Arg(values, 4, Low16(s.grid.cols))), if 0x20 <= ch <= 0x7E then ch else 0x20)
            else r == s
  {
    hide Safe, Tight, Gives, Csi, Arg, FirstFour, CsiMove, CsiEdit, CsiState, ModesSet, RectFilled, Filled;
    var a := CsiReceived(s, p, marker, values, inters, 0x78);
    r := CsiDone(s, a, FirstFour(marker + inters), 0x78);
    ArgAtLeastOne(values, 1);
    ArgAtLeastOne(values, 2);
    var ch := Arg(values, 0, 0);
    Fills(s, Rect(Arg(values, 1, 1), Arg(values, 2, 1), Arg(values, 3, Low16(s.grid.rows)),
                  Arg(values, 4, Low16(s.grid.cols))), if 0x20 <= ch <= 0x7E then ch else 0x20);
  }

  /** DECSERA: every unprotected cell of the rectangle is blank, and no other changes. */
  ghost predicate Wiped(s: ScreenV, r: ScreenV, rect: Rect)
    requires Safe(s)
  {
    && OnlyCells(s, r)
    && forall i: nat :: i < s.grid.rows ==> WipedRow(s, s.grid.lines[i], r.grid.lines[i], rect, i)
  }

  ghost predicate WipedRow(s: ScreenV, before: Row, after: Row, rect: Rect, i: nat) {
    && |after.cells| == |before.cells|
    && forall c: nat :: c < |before.cells| ==>
         after.cells[c] == if rect.Holds(s.grid, i, c) && !before.cells[c].attrs.protected then BLANK
                           else before.cells[c]
  }

  lemma Wipes(s: ScreenV, rect: Rect)
    requires Safe(s) && rect.top >= 1 && rect.left >= 1
    ensures Wiped(s, RectErased(s, rect.top, rect.left, rect.bottom, rect.right), rect)
  {
    hide Tight;
  }

  lemma WipesRect(s: ScreenV, p: PState, marker: seq<Byte>, values: seq<U16>, inters: seq<Byte>)
    returns (r: ScreenV)
    requires CanSend(s, p, marker, inters) && 0x24 in FirstFour(marker + inters)
    ensures Gives(s, p, Csi(marker, values, inters, 0x7B), r)
    ensures Wiped(s, r, Rect(Arg(values, 0, 1), Arg(values, 1, 1), Arg(values, 2, Low16(s.grid.rows)),
                             Arg(values, 3, Low16(s.grid.cols))))
  {
    hide Safe, Tight, Gives, Csi, Arg, FirstFour, CsiMove, CsiEdit, CsiState, ModesSet, RectErased, Wiped;
    var a := CsiReceived(s, p, marker, values, inters, 0x7B);
    r := CsiDone(s, a, FirstFour(marker + inters), 0x7B);
    ArgAtLeastOne(values, 0);
    ArgAtLeastOne(values, 1);
    Wipes(s, Rect(Arg(values, 0, 1), Arg(values, 1, 1), Arg(values, 2, Low16(s.grid.rows)),
                  Arg(values, 3, Low16(s.grid.cols))));
  }

  /** DECCRA: the cells of the rectangle, as they were, from the place asked for on, as far as
      the screen goes. */
  ghost predicate Copied(s: ScreenV, r: ScreenV, rect: Rect, row: nat, col: nat)
    requires Safe(s)
  {
    && OnlyCells(s, r)
    && forall i: nat :: i < s.grid.rows ==> CopiedRow(s, r.grid.lines[i], rect, row, col, i)
  }

  /** Where a first row or column counted from 1 is. */
  function FirstAt(n: nat, size: nat): int {
    if n <= size then n - 1 else size - 1
  }

  /** The cell that comes to (`i`, `c`), or stays there. */
  function CopiedCell(g: GridV, rect: Rect, row: nat, col: nat, i: nat, c: nat): Cell
    requires g.Valid() && i < g.rows && c < g.cols
  {
    var (y, x) := (i + FirstAt(rect.top, g.rows) - FirstAt(row, g.rows),
                   c + FirstAt(rect.left, g.cols) - FirstAt(col, g.cols));
    if 0 <= y < g.rows && 0 <= x < g.cols && rect.Holds(g, y, x) then g.lines[y].cells[x] else g.lines[i].cells[c]
  }

  ghost predicate CopiedRow(s: ScreenV, after: Row, rect: Rect, row: nat, col: nat, i: nat)
    requires Safe(s) && i < s.grid.rows
  {
    && |after.cells| == s.grid.cols
    && forall c: nat :: c < s.grid.cols ==> after.cells[c] == CopiedCell(s.grid, rect, row, col, i, c)
  }

  lemma HoldsFromFirst(g: GridV, rect: Rect, i: nat, c: nat)
    requires rect.top >= 1 && rect.left >= 1 && i < g.rows && c < g.cols
    ensures rect.Holds(g, i, c) <==> FirstAt(rect.top, g.rows) <= i < rect.bottom
                                     && FirstAt(rect.left, g.cols) <= c < rect.right
  {
  }

  lemma PastesRow(g: GridV, st: nat, sl: nat, h: nat, w: nat, dt: nat, dl: nat, i: nat, c: nat)
    requires g.Valid() && st + h <= g.rows && sl + w <= g.cols && i < g.rows && c < g.cols
    ensures PastedRow(g, st, sl, h, w, dt, dl, i).cells[c]
         == if dt <= i < dt + h && dl <= c < dl + w then g.lines[st + (i - dt)].cells[sl + (c - dl)]
            else g.lines[i].cells[c]
  {
  }

  /** Row `i` after the copy: the rectangle clipped to the screen, pasted. */
  function PastedIn(g: GridV, rect: Rect, row: nat, col: nat, i: nat): (r: Row)
    requires g.Valid() && g.rows >= 1 && g.cols >= 1 && i < g.rows
    ensures |r.cells| == g.cols
  {
    var (st, sl) := (Origin0(rect.top, g.rows), Origin0(rect.left, g.cols));
    var (h, w) := (SatSub(Min(rect.bottom, g.rows), st), SatSub(Min(rect.right, g.cols), sl));
    if h == 0 || w == 0 then g.lines[i]
    else PastedRow(g, st, sl, h, w, Origin0(row, g.rows), Origin0(col, g.cols), i)
  }

  lemma CopyPastes(s: ScreenV, rect: Rect, row: nat, col: nat, i: nat)
    requires Safe(s) && i < s.grid.rows
    ensures RectCopied(s, rect.top, rect.left, rect.bottom, rect.right, row, col).grid.lines[i]
         == PastedIn(s.grid, rect, row, col, i)
  {
    hide AllWide, Tight, Keeps, Origin0, PastedRow;
  }

  lemma PastesCell(g: GridV, rect: Rect, row: nat, col: nat, i: nat, c: nat)
    requires g.Valid() && g.rows >= 1 && g.cols >= 1 && i < g.rows && c < g.cols
    requires rect.top >= 1 && rect.left >= 1 && row >= 1 && col >= 1
    ensures PastedIn(g, rect, row, col, i).cells[c] == CopiedCell(g, rect, row, col, i, c)
  {
    hide Rect.Holds, PastedRow;
    var (st, sl) := (Origin0(rect.top, g.rows), Origin0(rect.left, g.cols));
    var (dt, dl) := (Origin0(row, g.rows), Origin0(col, g.cols));
    var (h, w) := (SatSub(Min(rect.bottom, g.rows), st), SatSub(Min(rect.right, g.cols), sl));
    if 0 <= i + st - dt < g.rows && 0 <= c + sl - dl < g.cols {
      HoldsFromFirst(g, rect, i + st - dt, c + sl - dl);
    }
    if h > 0 && w > 0 {
      PastesRow(g, st, sl, h, w, dt, dl, i, c);
    }
  }

  lemma CopiesRow(s: ScreenV, rect: Rect, row: nat, col: nat, i: nat)
    requires Safe(s) && rect.top >= 1 && rect.left >= 1 && row >= 1 && col >= 1 && i < s.grid.rows
    ensures CopiedRow(s, PastedIn(s.grid, rect, row, col, i), rect, row, col, i)
  {
    hide Tight, Keeps, CopiedCell, PastedIn;
    forall c: nat | c < s.grid.cols
      ensures PastedIn(s.grid, rect, row, col, i).cells[c] == CopiedCell(s.grid, rect, row, col, i, c)
    {
      PastesCell(s.grid, rect, row, col, i, c);
    }
  }

  lemma Copies(s: ScreenV, rect: Rect, row: nat, col: nat)
    requires Safe(s) && rect.top >= 1 && rect.left >= 1 && row >= 1 && col >= 1
    ensures Copied(s, RectCopied(s, rect.top, rect.left, rect.bottom, rect.right, row, col), rect, row, col)
  {
    hide Tight, Keeps, CopiedRow, RectCopied, PastedIn;
    CopyFrame(s, rect, row, col);
    forall i: nat | i < s.grid.rows
      ensures CopiedRow(s, RectCopied(s, rect.top, rect.left, rect.bottom, rect.right, row, col).grid.lines[i],
                        rect, row, col, i)
    {
      CopyPastes(s, rect, row, col, i);
      CopiesRow(s, rect, row, col, i);
    }
  }

  lemma CopyFrame(s: ScreenV, rect: Rect, row: nat, col: nat)
    requires Safe(s)
    ensures OnlyCells(s, RectCopied(s, rect.top, rect.left, rect.bottom, rect.right, row, col))
  {
    hide AllWide, Tight, Keeps, Origin0;
  }

  /** The pages, the fifth and eighth parameters, are not read. */
  lemma CopiesRect(s: ScreenV, p: PState, marker: seq<Byte>, values: seq<U16>, inters: seq<Byte>)
    returns (r: ScreenV)
    requires CanSend(s, p, marker, inters)
    ensures Gives(s, p, Csi(marker, values, inters, 0x76), r)
    ensures if 0x24 in FirstFour(marker + inters) then
              Copied(s, r, Rect(Arg(values, 0, 1), Arg(values, 1, 1), Arg(values, 2, Low16(s.grid.rows)),
                                Arg(values, 3, Low16(s.grid.cols))), Arg(values, 5, 1), Arg(values, 6, 1))
            else r == s
  {
    hide Safe, Tight, Gives, Csi, Arg, FirstFour, CsiMove, CsiEdit, CsiState, ModesSet, RectCopied, Copied;
    var a := CsiReceived(s, p, marker, values, inters, 0x76);
    r := CsiDone(s, a, FirstFour(marker + inters), 0x76);
    ArgAtLeastOne(values, 0);
    ArgAtLeastOne(values, 1);
    ArgAtLeastOne(values, 5);
    ArgAtLeastOne(values, 6);
    Copies(s, Rect(Arg(values, 0, 1), Arg(values, 1, 1), Arg(values, 2, Low16(s.grid.rows)),
                   Arg(values, 3, Low16(s.grid.cols))), Arg(values, 5, 1), Arg(values, 6, 1));
  }

  /** DECALN: E in every cell, the region whole, the cursor home. */
  lemma Aligns(s: ScreenV, p: PState) returns (r: ScreenV)
    requires CanSend(s, p, [], [0x23])
    ensures Gives(s, p, Esc([0x23], 0x38), r)
    ensures GoneTo(s.(grid := r.grid, top := 0, bottom := s.grid.rows), r, 0, 0)
    ensures var stamped := s.(pen := DEFAULT_PEN);
            Safe(stamped) && Filled(stamped, stamped.(grid := r.grid), Rect(1, 1, s.grid.rows, s.grid.cols), 0x45)
  {
    hide Tight, Gives, Esc, LineFed, CarriageReturned, ReverseIndexed, CursorRestored, CursorSaved, FullReset;
    EscReceived(s, p, [0x23], 0x38);
    r := EscDone(s, FirstFour([0x23]), 0x38);
  }

  // ----- The pen -----

  /** DECSCUSR: odd or even, blinking is not kept. */
  lemma StylesCursor(s: ScreenV, p: PState, marker: seq<Byte>, values: seq<U16>, inters: seq<Byte>)
    returns (r: ScreenV)
    requires CanSend(s, p, marker, inters) && 0x20 in FirstFour(marker + inters)
    ensures Gives(s, p, Csi(marker, values, inters, 0x71), r)
    ensures var n := Arg(values, 0, 0);
            r == s.(cursor := s.cursor.(shape := if n in {3, 4} then Underline else if n in {5, 6} then Bar else Block))
  {
    hide Safe, Tight, Gives, Csi, Arg, FirstFour, CsiMove, CsiEdit, CsiState, ModesSet;
    var a := CsiReceived(s, p, marker, values, inters, 0x71);
    r := CsiDone(s, a, FirstFour(marker + inters), 0x71);
  }

  /** DECSCA: characters written from now on are protected for 1, not for 0 and 2. */
  lemma Protects(s: ScreenV, p: PState, marker: seq<Byte>, values: seq<U16>, inters: seq<Byte>)
    returns (r: ScreenV)
    requires CanSend(s, p, marker, inters)
    requires 0x22 in FirstFour(marker + inters) && 0x20 !in FirstFour(marker + inters)
    ensures Gives(s, p, Csi(marker, values, inters, 0x71), r)
    ensures var n := Arg(values, 0, 0);
            r == s.(pen := s.pen.(attrs := s.pen.attrs.(protected := if n <= 2 then n == 1 else s.pen.attrs.protected)))
  {
    hide Safe, Tight, Gives, Csi, Arg, FirstFour, CsiMove, CsiEdit, CsiState, ModesSet;
    var a := CsiReceived(s, p, marker, values, inters, 0x71);
    r := CsiDone(s, a, FirstFour(marker + inters), 0x71);
  }

  /** XTPUSHSGR. */
  lemma PushesPen(s: ScreenV, p: PState, marker: seq<Byte>, values: seq<U16>, inters: seq<Byte>)
    returns (r: ScreenV)
    requires CanSend(s, p, marker, inters)
    requires 0x23 in FirstFour(marker + inters) && 0x24 !in FirstFour(marker + inters)
    ensures Gives(s, p, Csi(marker, values, inters, 0x7B), r) && r == s.(sgrStack := s.sgrStack + [s.pen])
  {
    hide Safe, Tight, Gives, Csi, Arg, FirstFour, CsiMove, CsiEdit, CsiState, ModesSet;
    var a := CsiReceived(s, p, marker, values, inters, 0x7B);
    r := CsiDone(s, a, FirstFour(marker + inters), 0x7B);
  }

  /** XTPOPSGR: the pen pushed last, but for its protection; without any, nothing. */
  lemma PopsPen(s: ScreenV, p: PState, marker: seq<Byte>, values: seq<U16>, inters: seq<Byte>, rest: seq<Pen>, pen: Pen)
    returns (r: ScreenV)
    requires CanSend(s, p, marker, inters) && 0x23 in FirstFour(marker + inters)
    ensures Gives(s, p, Csi(marker, values, inters, 0x7D), r)
    ensures s.sgrStack == [] ==> r == s
    ensures s.sgrStack == rest + [pen] ==>
              r == s.(sgrStack := rest, pen := pen.(attrs := pen.attrs.(protected := s.pen.attrs.protected)))
  {
    hide Safe, Tight, Gives, Csi, Arg, FirstFour, CsiMove, CsiEdit, CsiState, ModesSet;
    var a := CsiReceived(s, p, marker, values, inters, 0x7D);
    r := CsiDone(s, a, FirstFour(marker + inters), 0x7D);
    assert s.sgrStack == rest + [pen] ==> s.sgrStack[..|s.sgrStack| - 1] == rest;
  }

  // ----- Everything else -----

  /** The other final bytes do nothing: DSR asks for an answer, which this screen does not give. */
  lemma OtherSequences(s: ScreenV, p: PState, marker: seq<Byte>, values: seq<U16>, inters: seq<Byte>, final: Byte)
    requires CanSend(s, p, marker, inters) && IsFinal(final)
    requires !(0x40 <= final <= 0x4D) && final !in {0x50, 0x53, 0x54, 0x58, 0x5A} && !(0x60 <= final <= 0x68)
    requires final !in {0x6C, 0x6D} && !(0x70 <= final <= 0x73) && final !in {0x75, 0x76, 0x78, 0x7B, 0x7D}
    ensures Gives(s, p, Csi(marker, values, inters, final), s)
  {
    hide Safe, Tight, Keeps, Gives, Csi, FirstFour, CsiMove, CsiEdit, CsiExtra;
    var a := CsiReceived(s, p, marker, values, inters, final);
  }

  lemma OtherEscapes(s: ScreenV, p: PState, inters: seq<Byte>, final: Byte)
    requires CanSend(s, p, [], inters) && 0x30 <= final <= 0x7E
    requires inters == [] ==> final !in {0x50, 0x58, 0x5B, 0x5D, 0x5E, 0x5F}
    requires inters == [] ==> final !in {0x37, 0x38, 0x3D, 0x3E, 0x44, 0x45, 0x48, 0x4D, 0x63}
    requires inters != [] ==> inters[0] !in {0x28, 0x29} && !(inters[0] == 0x23 && final == 0x38)
    ensures Gives(s, p, Esc(inters, final), s)
  {
    hide Safe, Tight, Keeps, Gives, Esc;
    EscReceived(s, p, inters, final);
  }
}
