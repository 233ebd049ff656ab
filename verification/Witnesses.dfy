/** Inputs on which the code misses what it is for: the failing sides of the conditions proved elsewhere. */
module Witnesses {
  import opened Options
  import opened Utf8
  import opened Cells
  import opened GridValues
  import opened VtParams
  import opened VtParser
  import opened ScreenState
  import opened ScreenEdits
  import opened ScreenModes
  import opened Performing
  import opened ParserRoundTrips
  import opened Runs
  import opened Sequences
  import opened Sessions
  import opened AltScreen
  import opened AltVisits
  import opened WideCells
  import opened DamageSoundness
  import opened SilentEdits
  import opened CellDamage

  const LETTER: Scalar := 0x41
  const WIDE: Scalar := 0x4E00

  // ----- Input, piece by piece -----

  lemma Typed(s: ScreenV, p: PState, c: Scalar)
    requires Settled(s) && p.Valid() && p.state == Ground && IsPrintable(c)
    ensures Fed(s, p, Encode(c)) == CharWritten(s, c) && Run(p, Encode(c)).0.state == Ground
  {
    hide Safe, Tight, Keeps, Run, Encode, CharWritten, Fed;
    CharacterPrints(p, c);
    FedOne(s, p, Encode(c), Print(c));
  }

  /** CUP. */
  lemma Moves(s: ScreenV, p: PState, row: U16, col: U16)
    requires Settled(s) && p.Valid() && p.state == Ground && row >= 1 && col >= 1
    ensures var bytes := CsiBytes([row, col], [false, false], 0x48);
            Fed(s, p, bytes) == Positioned(s, row, col) && Run(p, bytes).0.state == Ground
  {
    hide Safe, Tight, Keeps, Run, Fed, CsiBytes, CsiEdit, CsiExtra, CsiState, ModesSet, Positioned;
    var a := CsiParsed(p, [row, col], [false, false], 0x48);
    GetReadsFinished(a.params, 0, 0);
    GetReadsFinished(a.params, 1, 0);
    FedOne(s, p, CsiBytes([row, col], [false, false], 0x48), a);
  }

  /** IL without a parameter. */
  lemma OpensLine(s: ScreenV, p: PState)
    requires Settled(s) && p.Valid() && p.state == Ground
    ensures Fed(s, p, [0x1B, 0x5B] + [0x4C]) == LinesOpened(s, 1)
  {
    hide Safe, Tight, Keeps, Run, Fed, CsiMove, CsiExtra, CsiState, ModesSet, LinesOpened;
    var a := BareParsed(p, 0x4C);
    GetReadsFinished(a.params, 0, 0);
    FedOne(s, p, [0x1B, 0x5B] + [0x4C], a);
  }

  function ToggleBytes(mode: U16, enable: bool): seq<Byte> {
    PrivateBytes([mode], if enable then 0x68 else 0x6C)
  }

  lemma Switches(s: ScreenV, p: PState, mode: U16, enable: bool)
    requires Settled(s) && p.Valid() && p.state == Ground && IsAltMode(mode)
    ensures Fed(s, p, ToggleBytes(mode, enable))
         == if enable then AltEntered(s, mode == 1049) else AltLeft(s, mode == 1049)
    ensures Run(p, ToggleBytes(mode, enable)).0.state == Ground
  {
    hide Safe, Tight, Keeps, Run, Fed, PrivateBytes, AltEntered, AltLeft, Performed, ModesStaySafe;
    var a := PrivateParsed(p, [mode], if enable then 0x68 else 0x6C);
    ToggleStep(s, a, mode, enable);
    FedOne(s, p, ToggleBytes(mode, enable), a);
  }

  /** DECSTR. */
  lemma Resets(s: ScreenV, p: PState)
    requires Settled(s) && p.Valid() && p.state == Ground
    ensures Fed(s, p, [0x1B, 0x5B] + [0x21, 0x70]) == SoftReset(s)
    ensures Run(p, [0x1B, 0x5B] + [0x21, 0x70]).0.state == Ground
  {
    hide Safe, Tight, Keeps, Run, Fed, SoftReset, Performed, Follows;
    var a := SoftResetParsed(p);
    ResettingCsiStep(s, a);
    FedOne(s, p, [0x1B, 0x5B] + [0x21, 0x70], a);
  }

  /** DECSC. */
  lemma Saves(s: ScreenV, p: PState)
    requires Settled(s) && p.Valid() && p.state == Ground
    ensures Fed(s, p, [0x1B, 0x37]) == CursorSaved(s) && Run(p, [0x1B, 0x37]).0.state == Ground
  {
    hide Safe, Tight, Keeps, Run, Fed, CursorSaved, Performed, Follows;
    var a := EscParsed(p, 0x37);
    NamedEscStep(s, a);
    FedOne(s, p, [0x1B, 0x37], a);
  }

  lemma Then(s: ScreenV, p: PState, x: seq<Byte>, y: seq<Byte>)
    requires Settled(s) && p.Valid()
    ensures Settled(Fed(s, p, x))
    ensures Fed(s, p, x + y) == Fed(Fed(s, p, x), Run(p, x).0, y) && Run(p, x + y).0 == Run(Run(p, x).0, y).0
  {
    hide Safe, Run, Fed;
    RunConcat(p, x, y);
    FeedingInChunks(s, p, x, y);
  }

  /** A character that needs neither wrap nor room, in one of the charsets that change nothing. */
  lemma SimplyPrinted(s: ScreenV, c: Scalar)
    requires Safe(s) && !s.pendingWrap && !HasMargins(s) && !s.modes.insert && MappedChar(s, c) == c
    requires CharWidth(c) > 0 && s.cursor.col + CharWidth(c) <= s.grid.cols
    ensures var (r, w, row) := (CharWritten(s, c), CharWidth(c), s.cursor.row);
            && r.grid == WithCells(s.grid, row, Written(s.grid.lines[row].cells, s.cursor.col, Glyph(s, c, w)))
            && r.cursor == s.cursor.(col := Min(s.cursor.col + w, s.grid.cols - 1))
            && r == s.(grid := r.grid, cursor := r.cursor, pendingWrap := r.pendingWrap, lastChar := Some(c),
                       damage := r.damage)
            && (s.cursor.col + w < s.grid.cols ==> !r.pendingWrap)
  {
    hide AllWide, Written, CharWidth, MappedChar, RegionFor, WrappedOn, Padded;
  }

  // ----- A wide character cut in half, and a row not reported -----

  /** A screen of three columns and two rows in its first state, but for what is written in row 0. */
  ghost predicate Small(s: ScreenV, mode: DamageMode, col: nat) {
    && Tight(s) && s.grid.cols == 3 && s.grid.rows == 2 && s.modes == DEFAULT_MODES && s.damageMode == mode
    && s.top == 0 && s.bottom == 2 && s.left == 0 && s.right == 3 && s.g0 == Ascii && s.activeCharset == 0
    && s.cursor.row == 0 && s.cursor.col == col && s.grid.lines[1].cells == Fill(3, BLANK)
  }

  /** The widths of the cells of row 0. */
  ghost predicate Widths(s: ScreenV, a: nat, b: nat, c: nat)
    requires s.grid.Valid() && s.grid.cols == 3 && s.grid.rows == 2
  {
    && s.grid.lines[0].cells[0].width == a && s.grid.lines[0].cells[1].width == b
    && s.grid.lines[0].cells[2].width == c
  }

  lemma AtFirst(mode: DamageMode)
    ensures var s := NewScreen(3, 2).(damageMode := mode); Small(s, mode, 0) && Widths(s, 1, 1, 1) && !s.pendingWrap
  {
    NewScreenTight(3, 2);
  }

  lemma LetterPrinted(s: ScreenV, mode: DamageMode)
    requires Small(s, mode, 0) && Widths(s, 1, 1, 1) && !s.pendingWrap
    ensures var r := CharWritten(s, LETTER); Small(r, mode, 1) && Widths(r, 1, 1, 1) && !r.pendingWrap
  {
    hide CharWritten;
    SimplyPrinted(s, LETTER);
  }

  lemma WidePrinted(s: ScreenV, mode: DamageMode)
    requires Small(s, mode, 1) && Widths(s, 1, 1, 1) && !s.pendingWrap
    ensures var r := CharWritten(s, WIDE); Small(r, mode, 2) && Widths(r, 1, 2, 0)
  {
    hide CharWritten;
    SimplyPrinted(s, WIDE);
  }

  lemma SmallPaired(s: ScreenV, mode: DamageMode, col: nat)
    requires Small(s, mode, col) && Widths(s, 1, 2, 0)
    ensures AllPaired(s.grid)
  {
    var cells := s.grid.lines[0].cells;
    assert Paired(cells) by {
      PairsEverywhere(cells);
    }
    BlanksArePaired(3);
  }

  /** A letter and a wide character on a screen three columns wide, then back to the last column. */
  function TailBytes(): seq<Byte> {
    Encode(LETTER) + Encode(WIDE) + CsiBytes([1, 3], [false, false], 0x48)
  }

  lemma BackOnTheTail(mode: DamageMode)
    ensures Settled(NewScreen(3, 2).(damageMode := mode))
    ensures var s := Fed(NewScreen(3, 2).(damageMode := mode), NewParser(), TailBytes());
            Small(s, mode, 2) && Widths(s, 1, 2, 0) && !s.pendingWrap
    ensures Run(NewParser(), TailBytes()).0.state == Ground
  {
    hide AllWide, CharWritten, NewScreen, NewParser, Run, Fed, Encode, CsiBytes;
    var (s0, p) := (NewScreen(3, 2).(damageMode := mode), NewParser());
    var (x, y, z) := (Encode(LETTER), Encode(WIDE), CsiBytes([1, 3], [false, false], 0x48));
    AtFirst(mode);
    Typed(s0, p, LETTER);
    LetterPrinted(s0, mode);
    var s1 := CharWritten(s0, LETTER);
    Then(s0, p, x, y);
    Typed(s1, Run(p, x).0, WIDE);
    WidePrinted(s1, mode);
    Then(s0, p, x + y, z);
    Moves(CharWritten(s1, WIDE), Run(p, x + y).0, 1, 3);
  }

  /** Then another wide character cuts the first one in half; and in row mode the row of the
      first is not reported. */
  lemma WideCharacterCut(mode: DamageMode)
    ensures Settled(NewScreen(3, 2).(damageMode := mode))
    ensures var s := Fed(NewScreen(3, 2).(damageMode := mode), NewParser(), TailBytes());
            var r := Fed(s, Run(NewParser(), TailBytes()).0, Encode(WIDE));
            && AllPaired(s.grid) && !AllPaired(r.grid) && (mode == RowMode ==> !Sound(s, r))
  {
    hide AllWide, CharWritten, NewScreen, NewParser, Run, Fed, Encode, TailBytes, AllPaired, Sound;
    BackOnTheTail(mode);
    var s := Fed(NewScreen(3, 2).(damageMode := mode), NewParser(), TailBytes());
    Typed(s, Run(NewParser(), TailBytes()).0, WIDE);
    SmallPaired(s, mode, 2);
    WideCharactersStayWhole(s, WIDE);
    if mode == RowMode {
      PrintingIsReported(s, WIDE);
    }
  }

  // ----- Half a character, not reported by cells -----

  lemma WideAtStart(s: ScreenV)
    requires Small(s, CellMode, 0) && Widths(s, 1, 1, 1) && !s.pendingWrap
    ensures var r := CharWritten(s, WIDE); Small(r, CellMode, 2) && Widths(r, 2, 0, 1) && !r.pendingWrap
  {
    hide CharWritten;
    SimplyPrinted(s, WIDE);
  }

  /** A wide character, then back to its head. */
  function HeadBytes(): seq<Byte> {
    Encode(WIDE) + CsiBytes([1, 1], [false, false], 0x48)
  }

  lemma BackOnTheHead()
    ensures Settled(NewScreen(3, 2))
    ensures var s := Fed(NewScreen(3, 2), NewParser(), HeadBytes());
            Small(s, CellMode, 0) && Widths(s, 2, 0, 1) && !s.pendingWrap
    ensures Run(NewParser(), HeadBytes()).0.state == Ground
  {
    hide AllWide, CharWritten, NewParser, Run, Fed, Encode, CsiBytes;
    var (s0, p) := (NewScreen(3, 2), NewParser());
    var (x, y) := (Encode(WIDE), CsiBytes([1, 1], [false, false], 0x48));
    AtFirst(CellMode);
    assert s0.(damageMode := CellMode) == s0;
    Typed(s0, p, WIDE);
    WideAtStart(s0);
    Then(s0, p, x, y);
    Moves(CharWritten(s0, WIDE), Run(p, x).0, 1, 1);
  }

  /** A letter there makes the tail a space, which is not reported. */
  lemma HalfUnreported()
    ensures Settled(NewScreen(3, 2))
    ensures var s := Fed(NewScreen(3, 2), NewParser(), HeadBytes());
            var r := Fed(s, Run(NewParser(), HeadBytes()).0, Encode(LETTER));
            r.grid.cols == s.grid.cols && !CellSound(s, r)
  {
    hide AllWide, CharWritten, NewScreen, NewParser, Run, Fed, Encode, HeadBytes, CellSound;
    BackOnTheHead();
    var s := Fed(NewScreen(3, 2), NewParser(), HeadBytes());
    Typed(s, Run(NewParser(), HeadBytes()).0, LETTER);
    PlacingIsReported(s, LETTER);
    Unspaced(s);
  }

  lemma Unspaced(s: ScreenV)
    requires Small(s, CellMode, 0) && Widths(s, 2, 0, 1)
    ensures !HalvesStay(s.grid.lines[0].cells, 0, 1)
  {
  }

  // ----- Lines opened without a report -----

  lemma LetterWritten(cells: seq<Cell>, glyph: Cell)
    requires |cells| >= 1 && glyph.width == 1
    ensures Written(cells, 0, glyph)[0] == glyph
  {
  }

  /** A letter at the top of a new screen. */
  lemma LetterOnTop(cols: nat, rows: nat)
    requires cols >= 2 && rows >= 1
    ensures var s := CharWritten(NewScreen(cols, rows), LETTER);
            && Tight(s) && s.grid.cols == cols && s.grid.rows == rows && s.cursor.row == s.top == 0 && s.bottom == rows
            && !s.modes.altScreen && CellAt(s.grid, 0, 0).c == LETTER
  {
    hide AllWide, CharWritten, Written;
    var s0 := NewScreen(cols, rows);
    NewScreenTight(cols, rows);
    SimplyPrinted(s0, LETTER);
    LetterWritten(s0.grid.lines[0].cells, Glyph(s0, LETTER, 1));
  }

  /** Then IL: no report. */
  lemma InsertedLineUnreported(cols: nat, rows: nat)
    requires cols >= 2 && rows >= 1
    ensures Settled(NewScreen(cols, rows))
    ensures var s := Fed(NewScreen(cols, rows), NewParser(), Encode(LETTER));
            !Sound(s, Fed(s, Run(NewParser(), Encode(LETTER)).0, [0x1B, 0x5B] + [0x4C]))
  {
    hide AllWide, CharWritten, NewScreen, NewParser, Run, Fed, Encode, Sound, LinesOpened;
    NewScreenTight(cols, rows);
    Typed(NewScreen(cols, rows), NewParser(), LETTER);
    LetterOnTop(cols, rows);
    var s := CharWritten(NewScreen(cols, rows), LETTER);
    OpensLine(s, Run(NewParser(), Encode(LETTER)).0);
    InsertLinesReported(s, 1);
    NotBlank(s.grid);
  }

  lemma NotBlank(g: GridV)
    requires g.Valid() && g.rows >= 1 && g.cols >= 1 && CellAt(g, 0, 0).c == LETTER
    ensures !BlankSpan(g, 0, g.rows, 0, g.cols)
  {
    assert g.lines[0].cells[0] == CellAt(g, 0, 0);
  }

  // ----- A resize while the alternate screen shows -----

  /** The cursor at the bottom of the main screen, then mode 47. */
  function BottomBytes(): seq<Byte> {
    CsiBytes([24, 1], [false, false], 0x48) + ToggleBytes(47, true)
  }

  lemma AtTheBottom()
    ensures Settled(NewScreen(80, 24))
    ensures var s := Fed(NewScreen(80, 24), NewParser(), BottomBytes());
            Settled(s) && s.modes.altScreen && s.altCursor.row == 23
    ensures Run(NewParser(), BottomBytes()).0.state == Ground
  {
    hide AllWide, NewParser, Run, Fed, CsiBytes, ToggleBytes, AltEntered;
    var (s0, p) := (NewScreen(80, 24), NewParser());
    var (x, y) := (CsiBytes([24, 1], [false, false], 0x48), ToggleBytes(47, true));
    NewScreenTight(80, 24);
    Moves(s0, p, 24, 1);
    Then(s0, p, x, y);
    Switches(Positioned(s0, 24, 1), Run(p, x).0, 47, true);
    EnteredState(Positioned(s0, 24, 1), false);
  }

  /** After a resize to ten rows, leaving by mode 47 puts the cursor on row 23 of 10, where the
      next erase of the line finds no row. */
  lemma CursorLeftBehind()
    ensures Settled(NewScreen(80, 24))
    ensures var s := Fed(NewScreen(80, 24), NewParser(), BottomBytes());
            && Safe(SizeChanged(s, 80, 10))
            && var r := PrivateModeSet(SizeChanged(s, 80, 10), 47, false); r.grid.rows == 10 && r.cursor.row == 23
  {
    hide AllWide, Safe, Tight, NewScreen, NewParser, Run, Fed, BottomBytes, SizeChanged, AltLeft;
    AtTheBottom();
    var s := Fed(NewScreen(80, 24), NewParser(), BottomBytes());
    ResizeKeepsSafe(s, 80, 10);
    LeavingAfterResize(s, 80, 10, false);
    AltModeStep(SizeChanged(s, 80, 10), 47, false);
  }

  function ShrinkingVisit(): (events: seq<Event>)
    ensures Sized(events)
  {
    [Bytes(BottomBytes())] + ([Resize(80, 10)] + [Bytes(ToggleBytes(47, false))])
  }

  lemma ShrinkingVisitIsUnsafe()
    ensures !SafeThroughout(NewScreen(80, 24), NewParser(), ShrinkingVisit())
  {
    hide AllWide, Safe, NewScreen, NewParser, Run, Fed, BottomBytes, PrivateBytes, SizeChanged, SafeThroughout,
      PrivateModeSet, ActionsStaySafe;
    AtTheBottom();
    CursorLeftBehind();
    var (s, p1) := (Fed(NewScreen(80, 24), NewParser(), BottomBytes()), Run(NewParser(), BottomBytes()).0);
    var (r, leave) := (SizeChanged(s, 80, 10), ToggleBytes(47, false));
    ResizeKeepsSafe(s, 80, 10);
    var a := PrivateParsed(p1, [47], 0x6C);
    OffScreen(PrivateModeSet(r, 47, false));
    Unlanded(r, a, 47);
    UnsafeBytes(r, p1, leave);
    UnsafeResize(s, p1, 80, 10, [Bytes(leave)]);
    UnsafeLater(NewScreen(80, 24), NewParser(), BottomBytes(), [Resize(80, 10)] + [Bytes(leave)]);
  }

  lemma OffScreen(s: ScreenV)
    requires s.cursor.row >= s.grid.rows
    ensures !Safe(s)
  {
  }

  lemma Unlanded(s: ScreenV, a: Action, mode: U16)
    requires Safe(s) && Toggles(a, mode, false) && !Safe(PrivateModeSet(s, mode, false))
    ensures !ActionsStaySafe(s, [a])
  {
    hide Safe, PrivateModeSet, Performed;
    assert !ModesStaySafe(s, [mode], false);
  }

  lemma UnsafeBytes(s: ScreenV, p: PState, bytes: seq<Byte>)
    requires p.Valid() && !ActionsStaySafe(s, Run(p, bytes).1)
    ensures !SafeThroughout(s, p, [Bytes(bytes)])
  {
    hide Safe, Run, Fed, ActionsStaySafe;
  }

  lemma UnsafeResize(s: ScreenV, p: PState, cols: nat, rows: nat, rest: seq<Event>)
    requires Safe(s) && p.Valid() && cols >= 1 && rows >= 1 && Sized(rest) && Sized([Resize(cols, rows)] + rest)
    requires !SafeThroughout(SizeChanged(s, cols, rows), p, rest)
    ensures !SafeThroughout(s, p, [Resize(cols, rows)] + rest)
  {
    hide Safe, SizeChanged;
    assert ([Resize(cols, rows)] + rest)[1..] == rest;
  }

  lemma UnsafeLater(s: ScreenV, p: PState, bytes: seq<Byte>, rest: seq<Event>)
    requires Settled(s) && p.Valid() && Sized(rest) && Sized([Bytes(bytes)] + rest)
    requires !SafeThroughout(Fed(s, p, bytes), Run(p, bytes).0, rest)
    ensures !SafeThroughout(s, p, [Bytes(bytes)] + rest)
  {
    hide Safe, Run, Fed, ActionsStaySafe;
    assert ([Bytes(bytes)] + rest)[1..] == rest;
  }

  // ----- The cursor of a visit -----

  /** Mode 1049, CUP 5;5, DECSC and mode 1049 reset. */
  function SavingVisit(): seq<Byte> {
    ToggleBytes(1049, true) + CsiBytes([5, 5], [false, false], 0x48) + [0x1B, 0x37] + ToggleBytes(1049, false)
  }

  lemma SavedAt(s: ScreenV)
    requires Settled(s) && s.grid.cols == 80 && s.grid.rows == 24 && !s.modes.origin && s.modes.altScreen
    ensures var r := CursorSaved(Positioned(s, 5, 5));
            && Settled(r) && r.modes.altScreen && r.alt.cols == 80 && r.alt.rows == 24
            && r.savedCursor.Some? && r.savedCursor.value.row == 4 && r.savedCursor.value.col == 4
  {
    hide AllWide;
  }

  lemma EnteredOrigin(s: ScreenV)
    requires Safe(s) && !s.modes.altScreen && !s.modes.origin
    ensures !AltEntered(s, true).modes.origin && AltEntered(s, true).modes.altScreen
  {
    hide AllWide, Safe, Tight, AllCleared, WholeRows;
  }

  /** The cursor was home, and is on row 4, column 4. */
  lemma CursorTakenAlong()
    ensures Settled(NewScreen(80, 24))
    ensures var c := Fed(NewScreen(80, 24), NewParser(), SavingVisit()).cursor; c.row == 4 && c.col == 4
  {
    hide AllWide, Safe, Tight, NewParser, Run, Fed, CsiBytes, ToggleBytes, AltEntered, AltLeft, Positioned, CursorSaved;
    var (s0, p) := (NewScreen(80, 24), NewParser());
    var (w, x, y, z) :=
      (ToggleBytes(1049, true), CsiBytes([5, 5], [false, false], 0x48), [0x1B, 0x37], ToggleBytes(1049, false));
    NewScreenTight(80, 24);
    Switches(s0, p, 1049, true);
    var s1 := AltEntered(s0, true);
    EnteredState(s0, true);
    EnteredOrigin(s0);
    SavedAt(s1);
    Then(s0, p, w, x);
    Moves(s1, Run(p, w).0, 5, 5);
    var s2 := Positioned(s1, 5, 5);
    Then(s0, p, w + x, y);
    Saves(s2, Run(p, w + x).0);
    Then(s0, p, w + x + y, z);
    Switches(CursorSaved(s2), Run(p, w + x + y).0, 1049, false);
    LeavingTakes(CursorSaved(s2));
  }

  // ----- The link down -----

  /** Mode 1049, DECSTR, mode 1049 reset and set again. */
  function ResettingVisit(): seq<Byte> {
    ToggleBytes(1049, true) + ([0x1B, 0x5B] + [0x21, 0x70]) + ToggleBytes(1049, false) + ToggleBytes(1049, true)
  }

  lemma MainScreenWiped(s: ScreenV, p: PState)
    requires Settled(s) && !s.modes.altScreen && p.Valid() && p.state == Ground
    ensures var r := Fed(s, p, ResettingVisit()); r.grid == AllCleared(s.grid) && r.alt == AllCleared(s.alt)
  {
    hide AllWide, Safe, Tight, NewParser, Run, Fed, ToggleBytes, AltEntered, AltLeft, AllCleared;
    var (w, x, y, z) :=
      (ToggleBytes(1049, true), [0x1B, 0x5B] + [0x21, 0x70], ToggleBytes(1049, false), ToggleBytes(1049, true));
    Switches(s, p, 1049, true);
    var s1 := AltEntered(s, true);
    EnteredState(s, true);
    Then(s, p, w, x);
    Resets(s1, Run(p, w).0);
    var s2 := SoftReset(s1);
    Then(s, p, w + x, y);
    Switches(s2, Run(p, w + x).0, 1049, false);
    LeavingState(s2, true);
    Then(s, p, w + x + y, z);
    Switches(s2, Run(p, w + x + y).0, 1049, true);
    EnteredState(s2, true);
  }

  /** A letter, then such a visit: the letter is on neither screen. */
  lemma LetterWiped()
    ensures Settled(NewScreen(80, 24))
    ensures var s := Fed(NewScreen(80, 24), NewParser(), Encode(LETTER));
            && CellAt(s.grid, 0, 0).c == LETTER
            && var r := Fed(s, Run(NewParser(), Encode(LETTER)).0, ResettingVisit());
               CellAt(r.grid, 0, 0) == BLANK && CellAt(r.alt, 0, 0) == BLANK
  {
    hide CharWritten, NewScreen, NewParser, Run, Fed, Encode, ResettingVisit;
    NewScreenTight(80, 24);
    Typed(NewScreen(80, 24), NewParser(), LETTER);
    LetterOnTop(80, 24);
    var s := CharWritten(NewScreen(80, 24), LETTER);
    MainScreenWiped(s, Run(NewParser(), Encode(LETTER)).0);
  }
}
