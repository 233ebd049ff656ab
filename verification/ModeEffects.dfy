/** Setting and resetting modes, and the plain codes of SGR, from their bytes. */
module ModeEffects {
  import opened Options
  import opened Utf8
  import opened Cells
  import opened GridValues
  import opened VtParams
  import opened VtParser
  import opened ParserRoundTrips
  import opened ParserControls
  import opened ScreenState
  import opened ScreenEdits
  import opened ScreenModes
  import opened Resizing
  import opened Performing
  import opened Runs
  import opened Sequences
  import opened Received
  import opened CursorEffects
  import opened StateEffects
  import opened Erasing
  import opened SgrRoundTrip

  function FinalFor(enable: bool): (b: Byte)
    ensures IsFinal(b)
  {
    if enable then 0x68 else 0x6C
  }

  function ModeBytes(modes: seq<U16>, enable: bool): seq<Byte> {
    Csi([0x3F], modes, [], FinalFor(enable))
  }

  /** A settled screen takes every list of modes, one after the other. */
  lemma ModesReceived(s: ScreenV, p: PState, marker: seq<Byte>, modes: seq<U16>, enable: bool)
    requires Settled(s) && Ready(p) && InOrder(marker, [])
    ensures var bytes := Csi(marker, modes, [], FinalFor(enable));
            && Gives(s, p, bytes, ModesSet(s, FirstParams(modes), marker == [0x3F], enable))
            && Run(p, bytes).0.state == Ground
  {
    hide Safe, Run, Fed, Csi, ModesSet, FirstFour, Carries, FirstParams, ModesStaySafe;
    var a := CsiParses(p, marker, modes, [], FinalFor(enable));
    MarkerSays(marker, []);
    ModeAction(s, a, marker == [0x3F], enable);
    FedOne(s, p, Csi(marker, modes, [], FinalFor(enable)), a);
    CarriesFirst(a.params, modes);
  }

  lemma CarriesFirst(a: ParamsVal, values: seq<U16>)
    requires Carries(a, values)
    ensures a.Finished() == FirstParams(values)
  {
  }

  lemma ModesCanBe(s: ScreenV, a: Action, isPrivate: bool, enable: bool)
    requires Settled(s) && WellFormed(a) && a.CsiDispatch? && !a.ignore && a.action == FinalFor(enable)
    requires 0x3F in a.intermediates.Slice() <==> isPrivate
    ensures CanPerform(s, a) && ModesCanBeSet(s, a.params.Finished(), isPrivate, enable)
  {
    hide Safe, ModesStaySafe;
  }

  lemma ModeAction(s: ScreenV, a: Action, isPrivate: bool, enable: bool)
    requires Settled(s) && WellFormed(a) && a.CsiDispatch? && !a.ignore && a.action == FinalFor(enable)
    requires 0x3F in a.intermediates.Slice() <==> isPrivate
    ensures CanPerform(s, a) && ModesCanBeSet(s, a.params.Finished(), isPrivate, enable)
    ensures Performed(s, a) == ModesSet(s, a.params.Finished(), isPrivate, enable)
  {
    hide CanPerform, ModesCanBeSet, Safe, Tight, Keeps, ModesSet, CsiMove, CsiEdit, CsiExtra, CsiState, ModesStaySafe;
    ModesCanBe(s, a, isPrivate, enable);
  }

  lemma OneMode(s: ScreenV, mode: U16, enable: bool)
    requires Settled(s)
    ensures ModesSet(s, FirstParams([mode]), true, enable) == PrivateModeSet(s, mode, enable)
  {
    hide Safe, Tight, Keeps, PrivateModeSet, ModesStaySafe;
    assert FirstParams([mode]) == [mode] && [mode][1..] == [];
    var r := PrivateModeSet(s, mode, enable);
    assert ModesSet(r, [], true, enable) == r;
  }

  lemma ModeReceived(s: ScreenV, p: PState, mode: U16, enable: bool)
    requires Settled(s) && Ready(p)
    ensures Gives(s, p, ModeBytes([mode], enable), PrivateModeSet(s, mode, enable))
  {
    hide Safe, Run, Gives, Csi, ModesSet, PrivateModeSet, FirstParams;
    ModesReceived(s, p, [0x3F], [mode], enable);
    OneMode(s, mode, enable);
  }

  /** A list of modes is what its parts make, sent one after the other. */
  lemma ModesInTurn(s: ScreenV, p: PState, marker: seq<Byte>, a: seq<U16>, b: seq<U16>, enable: bool)
    returns (q: ScreenV, r: ScreenV)
    requires Settled(s) && Ready(p) && InOrder(marker, []) && |a| + |b| <= MAX_PARAMS
    ensures Gives(s, p, Csi(marker, a + b, [], FinalFor(enable)), r)
    ensures Gives(s, p, Csi(marker, a, [], FinalFor(enable)), q)
    ensures Ready(Run(p, Csi(marker, a, [], FinalFor(enable))).0)
            && Gives(q, Run(p, Csi(marker, a, [], FinalFor(enable))).0, Csi(marker, b, [], FinalFor(enable)), r)
  {
    hide Safe, Run, Gives, Csi, ModesSet;
    assert FirstParams(a) == a && FirstParams(b) == b && FirstParams(a + b) == a + b;
    ModesReceived(s, p, marker, a, enable);
    ModesReceived(s, p, marker, a + b, enable);
    q := ModesSet(s, a, marker == [0x3F], enable);
    ModesReceived(q, Run(p, Csi(marker, a, [], FinalFor(enable))).0, marker, b, enable);
    r := ModesSet(q, b, marker == [0x3F], enable);
    ModesConcat(s, a, b, marker == [0x3F], enable);
  }

  lemma {:induction false} ModesConcat(s: ScreenV, a: seq<U16>, b: seq<U16>, isPrivate: bool, enable: bool)
    requires Settled(s)
    ensures ModesSet(s, a + b, isPrivate, enable) == ModesSet(ModesSet(s, a, isPrivate, enable), b, isPrivate, enable)
    decreases |a|
  {
    hide Safe, Tight, PrivateModeSet, AnsiModeSet, ModesStaySafe;
    if a == [] {
      assert a + b == b;
    } else {
      assert (a + b)[1..] == a[1..] + b;
      var s1 := if isPrivate then PrivateModeSet(s, a[0], enable) else AnsiModeSet(s, a[0], enable);
      ModesConcat(s1, a[1..], b, isPrivate, enable);
    }
  }

  // ----- Modes that set a flag -----

  lemma KeyFlags(m: Modes, enable: bool)
    ensures FlagSet(m, 1, enable) == m.(applicationCursorKeys := enable)
    ensures FlagSet(m, 7, enable) == m.(autowrap := enable)
  {
  }

  lemma WrapFlags(m: Modes, enable: bool)
    ensures FlagSet(m, 40, enable) == m.(allowDeccolm := enable)
    ensures FlagSet(m, 45, enable) == m.(reverseWrap := enable)
  {
  }

  lemma ReportFlags(m: Modes, enable: bool)
    ensures FlagSet(m, 1004, enable) == m.(focusTracking := enable)
    ensures FlagSet(m, 1006, enable) == m.(mouseSgr := enable)
  {
  }

  lemma PasteFlag(m: Modes, enable: bool)
    ensures FlagSet(m, 2004, enable) == m.(bracketedPaste := enable)
  {
  }

  lemma MouseFlags(m: Modes, enable: bool)
    ensures FlagSet(m, 9, enable) == m.(mouseTracking := if enable then X10 else NoMouse)
    ensures FlagSet(m, 1000, enable) == m.(mouseTracking := if enable then Normal else NoMouse)
  {
  }

  lemma MotionFlags(m: Modes, enable: bool)
    ensures FlagSet(m, 1002, enable) == m.(mouseTracking := if enable then ButtonEvent else NoMouse)
    ensures FlagSet(m, 1003, enable) == m.(mouseTracking := if enable then AnyEvent else NoMouse)
  {
  }

  /** The modes of the keys and the wrap, each its own flag. */
  lemma SetsKeyFlag(s: ScreenV, p: PState, mode: U16, enable: bool) returns (r: ScreenV)
    requires Settled(s) && Ready(p) && mode in {1, 7, 40, 45}
    ensures Gives(s, p, ModeBytes([mode], enable), r) && r == s.(modes := r.modes)
    ensures mode == 1 ==> r.modes == s.modes.(applicationCursorKeys := enable)
    ensures mode == 7 ==> r.modes == s.modes.(autowrap := enable)
    ensures mode == 40 ==> r.modes == s.modes.(allowDeccolm := enable)
    ensures mode == 45 ==> r.modes == s.modes.(reverseWrap := enable)
  {
    hide Safe, Tight, Keeps, Gives, ModeBytes, FlagSet;
    ModeReceived(s, p, mode, enable);
    KeyFlags(s.modes, enable);
    WrapFlags(s.modes, enable);
    r := PrivateModeSet(s, mode, enable);
  }

  /** What is reported: the focus, the mouse in the longer form, the ends of a paste. */
  lemma SetsReportFlag(s: ScreenV, p: PState, mode: U16, enable: bool) returns (r: ScreenV)
    requires Settled(s) && Ready(p) && mode in {1004, 1006, 2004}
    ensures Gives(s, p, ModeBytes([mode], enable), r) && r == s.(modes := r.modes)
    ensures mode == 1004 ==> r.modes == s.modes.(focusTracking := enable)
    ensures mode == 1006 ==> r.modes == s.modes.(mouseSgr := enable)
    ensures mode == 2004 ==> r.modes == s.modes.(bracketedPaste := enable)
  {
    hide Safe, Tight, Keeps, Gives, ModeBytes, FlagSet;
    ModeReceived(s, p, mode, enable);
    ReportFlags(s.modes, enable);
    PasteFlag(s.modes, enable);
    r := PrivateModeSet(s, mode, enable);
  }

  /** A mode of the mouse takes the place of the others when it is set, and whichever was set is
      gone when any is reset. */
  lemma SetsMouseMode(s: ScreenV, p: PState, mode: U16, enable: bool) returns (r: ScreenV)
    requires Settled(s) && Ready(p) && mode in {9, 1000, 1002, 1003}
    ensures Gives(s, p, ModeBytes([mode], enable), r)
    ensures r == s.(modes := s.modes.(mouseTracking := if !enable then NoMouse else if mode == 9 then X10
                                                       else if mode == 1000 then Normal
                                                       else if mode == 1002 then ButtonEvent else AnyEvent))
  {
    hide Safe, Tight, Keeps, Gives, ModeBytes, FlagSet;
    ModeReceived(s, p, mode, enable);
    MouseFlags(s.modes, enable);
    MotionFlags(s.modes, enable);
    r := PrivateModeSet(s, mode, enable);
  }

  /** IRM and LNM, without the marker; any other number does nothing. */
  lemma SetsAnsiMode(s: ScreenV, p: PState, mode: U16, enable: bool) returns (r: ScreenV)
    requires Settled(s) && Ready(p)
    ensures Gives(s, p, Csi([], [mode], [], FinalFor(enable)), r)
    ensures match mode
            case 4 => r == s.(modes := s.modes.(insert := enable))
            case 20 => r == s.(modes := s.modes.(newline := enable))
            case _ => r == s
  {
    hide Safe, Tight, Keeps, Gives, Csi, ModesStaySafe;
    ModesReceived(s, p, [], [mode], enable);
    assert FirstParams([mode]) == [mode] && [mode][1..] == [];
    r := AnsiModeSet(s, mode, enable);
    assert ModesSet(r, [], false, enable) == r;
  }

  // ----- Modes that do more -----

  /** DECOM: positions count from the margins, or no longer, and the cursor goes to the first. */
  lemma SetsOrigin(s: ScreenV, p: PState, enable: bool) returns (r: ScreenV)
    requires Settled(s) && Ready(p)
    ensures Gives(s, p, ModeBytes([6], enable), r)
    ensures GoneTo(s.(modes := s.modes.(origin := enable)), r, if enable then s.top else 0,
                   if enable then s.left else 0)
  {
    hide AllWide, Tight, Keeps, Gives, ModeBytes;
    ModeReceived(s, p, 6, enable);
    r := PrivateModeSet(s, 6, enable);
  }

  /** DECTCEM. */
  lemma ShowsCursor(s: ScreenV, p: PState, enable: bool) returns (r: ScreenV)
    requires Settled(s) && Ready(p)
    ensures Gives(s, p, ModeBytes([25], enable), r) && r == s.(cursor := s.cursor.(visible := enable))
  {
    hide Safe, Tight, Keeps, Gives, ModeBytes;
    ModeReceived(s, p, 25, enable);
    r := PrivateModeSet(s, 25, enable);
  }

  /** DECLRMM: without it the margins are the screen's. */
  lemma SetsMarginMode(s: ScreenV, p: PState, enable: bool) returns (r: ScreenV)
    requires Settled(s) && Ready(p)
    ensures Gives(s, p, ModeBytes([69], enable), r)
    ensures r.modes == s.modes.(leftRightMargin := enable)
    ensures r == if enable then s.(modes := r.modes) else s.(modes := r.modes, left := 0, right := s.grid.cols)
  {
    hide Safe, Tight, Keeps, Gives, ModeBytes;
    ModeReceived(s, p, 69, enable);
    r := PrivateModeSet(s, 69, enable);
  }

  /** Mode 1048: as DECSC and DECRC. */
  lemma SavesByMode(s: ScreenV, p: PState, enable: bool) returns (r: ScreenV)
    requires Settled(s) && Ready(p)
    ensures Gives(s, p, ModeBytes([1048], enable), r)
    ensures if enable then PutAside(s, r) else TakenBack(s, r)
  {
    hide Safe, Tight, Keeps, Gives, ModeBytes, PutAside, TakenBack, CursorSaved, CursorRestored;
    ModeReceived(s, p, 1048, enable);
    SavingPutsAside(s);
    RestoringTakesBack(s);
    r := PrivateModeSet(s, 1048, enable);
  }

  ghost predicate AllBlank(g: GridV) {
    forall i: nat :: i < |g.lines| ==> g.lines[i] == BlankRow(g.cols)
  }

  /** Every row of the screen is damaged. */
  ghost predicate AllDamaged(s: ScreenV, r: ScreenV) {
    && |r.damage| == |s.damage| + r.grid.rows && r.damage[..|s.damage|] == s.damage
    && forall i: nat :: i < r.grid.rows ==> r.damage[|s.damage| + i] == DamageRegion(i, 0, r.grid.cols)
  }

  lemma RedrawingDamagesAll(s: ScreenV)
    ensures AllDamaged(s, Redrawn(s)) && Redrawn(s) == s.(damage := Redrawn(s).damage)
  {
    hide Safe, Keeps;
  }

  /** Modes 47, 1047 and 1049 set on the main screen: a blank screen with the cursor home and the
      scrollback of the other grid, while the main grid and its cursor wait; 1049 saves the cursor. */
  lemma EntersAlt(s: ScreenV, p: PState, mode: U16) returns (r: ScreenV)
    requires Settled(s) && Ready(p) && mode in {47, 1047, 1049} && !s.modes.altScreen
    ensures Gives(s, p, ModeBytes([mode], true), r)
    ensures AllBlank(r.grid) && r.grid == s.alt.(lines := r.grid.lines) && |r.grid.lines| == s.grid.rows
    ensures r.alt == s.grid && r.altCursor == s.cursor && r.cursor == NewScreen(1, 1).cursor && !r.pendingWrap
    ensures r.modes == s.modes.(altScreen := true) && AllDamaged(s, r)
    ensures if mode == 1049 then PutAside(s, s.(savedCursor := r.savedCursor)) else r.savedCursor == s.savedCursor
    ensures r == s.(grid := r.grid, alt := r.alt, cursor := r.cursor, altCursor := r.altCursor, pendingWrap := false,
                    modes := r.modes, damage := r.damage, savedCursor := r.savedCursor)
  {
    hide AllWide, Tight, Keeps, Gives, ModeBytes, Redrawn, AllDamaged;
    ModeReceived(s, p, mode, true);
    r := PrivateModeSet(s, mode, true);
    var s1 := s.(modes := s.modes.(altScreen := true));
    var s2 := if mode == 1049 then CursorSaved(s1) else s1;
    RedrawingDamagesAll(s2.(grid := AllCleared(s.alt), alt := s.grid, cursor := HOME_CURSOR, altCursor := s.cursor,
                            pendingWrap := false));
    DamagedAlike(s2.(grid := AllCleared(s.alt), alt := s.grid, cursor := HOME_CURSOR, altCursor := s.cursor,
                     pendingWrap := false), s, r);
  }

  lemma DamagedAlike(a: ScreenV, s: ScreenV, r: ScreenV)
    requires a.damage == s.damage && AllDamaged(a, r)
    ensures AllDamaged(s, r)
  {
  }

  /** Set again there, they do nothing; nor do they reset on the main screen. */
  lemma AlreadyThere(s: ScreenV, p: PState, mode: U16) returns (r: ScreenV)
    requires Settled(s) && Ready(p) && mode in {47, 1047, 1049}
    ensures Gives(s, p, ModeBytes([mode], s.modes.altScreen), s)
  {
    hide Safe, Tight, Keeps, Gives, ModeBytes, Redrawn, Swapped;
    ModeReceived(s, p, mode, s.modes.altScreen);
    r := s;
  }

  /** Reset on the alternate screen: the main grid is back, and its cursor; after 1049 the saved
      cursor's state takes its place. */
  lemma LeavesAlt(s: ScreenV, p: PState, mode: U16) returns (r: ScreenV)
    requires Settled(s) && Ready(p) && mode in {47, 1047, 1049} && s.modes.altScreen
    ensures Gives(s, p, ModeBytes([mode], false), r) && AllDamaged(s, r)
    ensures var back := s.(grid := s.alt, alt := s.grid, cursor := s.altCursor, altCursor := s.cursor,
                           pendingWrap := false, modes := s.modes.(altScreen := false));
            && Safe(back)
            && if mode == 1049 then TakenBack(back, r.(damage := s.damage)) else r.(damage := s.damage) == back
  {
    hide AllWide, Tight, Keeps, Gives, ModeBytes, Redrawn, AllDamaged, Restored, TakenBack;
    ModeReceived(s, p, mode, false);
    var back := Swapped(s);
    r := PrivateModeSet(s, mode, false);
    var shown := if mode == 1049 then Restored(back) else back;
    RestoringTakesBack(back);
    RedrawingDamagesAll(shown);
    RestoringKeepsDamage(back);
    DamagedAlike(shown, s, r);
    TakenBackAlike(back, shown, r.(damage := s.damage));
  }

  lemma RestoringKeepsDamage(s: ScreenV)
    ensures Restored(s).damage == s.damage
  {
  }

  lemma TakenBackAlike(back: ScreenV, a: ScreenV, b: ScreenV)
    requires Safe(back) && a == b
    ensures TakenBack(back, a) <==> TakenBack(back, b)
  {
  }

  /** DECCOLM, if mode 40 lets it: 132 columns or 80, every row blank, the cursor home, the region whole. */
  lemma SwitchesWidth(s: ScreenV, p: PState, enable: bool) returns (r: ScreenV)
    requires Settled(s) && Ready(p)
    ensures Gives(s, p, ModeBytes([3], enable), r)
    ensures if !s.modes.allowDeccolm then r == s
            else && r.grid.cols == (if enable then 132 else 80) && r.grid.rows == s.grid.rows == |r.grid.lines|
                 && AllBlank(r.grid) && r.cursor.row == 0 && r.cursor.col == 0 && !r.pendingWrap
                 && r.top == 0 && r.bottom == s.grid.rows
  {
    hide Safe, Tight, Keeps, Gives, ModeBytes, SizeChanged, DisplayErased, AllErased, AllBlank;
    ModeReceived(s, p, 3, enable);
    r := PrivateModeSet(s, 3, enable);
    if s.modes.allowDeccolm {
      var cols := if enable then 132 else 80;
      ResizeKeepsSafe(s, cols, s.grid.rows);
      var q := SizeChanged(s, cols, s.grid.rows);
      EraseAll(q, false);
      ErasedIsBlank(q, DisplayErased(q, All, false));
    }
  }

  lemma ErasedIsBlank(s: ScreenV, r: ScreenV)
    requires Safe(s) && AllErased(s, r, false)
    ensures AllBlank(r.grid) && r.grid.cols == s.grid.cols && r.grid.rows == s.grid.rows == |r.grid.lines|
  {
    hide Tight;
    forall i: nat | i < |r.grid.lines|
      ensures r.grid.lines[i] == BlankRow(r.grid.cols)
    {
      assert RowBlanked(s.grid.lines[i], r.grid.lines[i], false);
      assert r.grid.lines[i].cells == BlankRow(r.grid.cols).cells;
    }
  }

  // ----- SGR codes -----

  /** What the codes from 1 to 9 switch on, by their number. */
  function Effect(pen: Pen, code: U16): bool {
    match code
    case 1 => pen.attrs.bold
    case 3 => pen.attrs.italic
    case 5 => pen.attrs.blink
    case 7 => pen.attrs.reverse
    case 8 => pen.attrs.invisible
    case 9 => pen.attrs.strikethrough
    case _ => false
  }

  const EFFECTS := {1, 3, 5, 7, 8, 9}

  /** The colours, the underline and the protection. */
  ghost predicate SameLook(pen: Pen, r: Pen) {
    && r.fg == pen.fg && r.bg == pen.bg
    && r.attrs.underline == pen.attrs.underline && r.attrs.protected == pen.attrs.protected
  }

  lemma CodeReceived(s: ScreenV, p: PState, code: U16) returns (r: ScreenV)
    requires Safe(s) && Ready(p) && code != 38 && code != 48
    ensures Gives(s, p, CsiBytes([code], [false], 0x6D), r) && r == s.(pen := SgrOne(s.pen, code))
  {
    hide Safe, Tight, Keeps, Run, CsiBytes, SgrOne, Fed, CanBeFed;
    SgrFromBytes(s, p, [code], [false]);
    assert FirstParams([code]) == [code] && FirstParams([false]) == [false];
    assert SgrFrom(SgrOne(s.pen, code), [code], [false], 1) == SgrOne(s.pen, code);
    r := Fed(s, p, CsiBytes([code], [false], 0x6D));
  }

  /** Codes 1, 3, 5, 7, 8 and 9 switch their effect on and nothing else, and 22, 23, 25, 27, 28
      and 29 switch it off again. */
  lemma SwitchesEffect(s: ScreenV, p: PState, code: U16, on: bool) returns (r: ScreenV)
    requires Safe(s) && Ready(p) && code in EFFECTS
    ensures Gives(s, p, CsiBytes([if on then code else if code == 1 then 22 else 20 + code], [false], 0x6D), r)
    ensures r == s.(pen := r.pen) && SameLook(s.pen, r.pen)
    ensures forall e :: e in EFFECTS ==> Effect(r.pen, e) == if e == code then on else Effect(s.pen, e)
  {
    hide Safe, Gives, CsiBytes;
    r := CodeReceived(s, p, if on then code else if code == 1 then 22 else 20 + code);
  }

  /** 4 underlines, 21 doubly, 24 no longer. */
  lemma Underlines(s: ScreenV, p: PState, code: U16) returns (r: ScreenV)
    requires Safe(s) && Ready(p) && code in {4, 21, 24}
    ensures Gives(s, p, CsiBytes([code], [false], 0x6D), r)
    ensures var style := if code == 4 then Single else if code == 21 then Double else NoUnderline;
            r == s.(pen := s.pen.(attrs := s.pen.attrs.(underline := style)))
  {
    hide Safe, Gives, CsiBytes;
    r := CodeReceived(s, p, code);
  }

  /** 30 to 37 and 90 to 97 are the sixteen colours of the characters, 40 to 47 and 100 to 107
      those behind them; 39 and 49 are the default. */
  lemma Colours(s: ScreenV, p: PState, index: nat, behind: bool) returns (r: ScreenV)
    requires Safe(s) && Ready(p) && index <= 16
    ensures var code := (if index == 16 then 39 else if index < 8 then 30 + index else 82 + index)
                        + if behind then 10 else 0;
            Gives(s, p, CsiBytes([code], [false], 0x6D), r)
    ensures var colour := if index == 16 then DefaultColor else Indexed(index);
            r == s.(pen := if behind then s.pen.(bg := colour) else s.pen.(fg := colour))
  {
    hide Safe, Gives, CsiBytes;
    var code := (if index == 16 then 39 else if index < 8 then 30 + index else 82 + index) + if behind then 10 else 0;
    r := CodeReceived(s, p, code);
  }

  /** 0 is the pen of a new screen, but for the protection. */
  lemma ResetsPen(s: ScreenV, p: PState) returns (r: ScreenV)
    requires Safe(s) && Ready(p)
    ensures Gives(s, p, CsiBytes([0], [false], 0x6D), r)
    ensures r == s.(pen := Pen(DEFAULT_ATTRS.(protected := s.pen.attrs.protected), DefaultColor, DefaultColor))
  {
    hide Safe, Gives, CsiBytes;
    r := CodeReceived(s, p, 0);
  }

  /** The screen after CSI ... m, and the pen what the numbers make of it. */
  lemma SgrReceived(s: ScreenV, p: PState, values: seq<U16>, flags: seq<bool>) returns (r: ScreenV)
    requires Safe(s) && Ready(p) && |flags| == |values| && 0 < |values| <= MAX_PARAMS && !flags[0]
    ensures Gives(s, p, CsiBytes(values, flags, 0x6D), r) && r == s.(pen := SgrFrom(s.pen, values, flags, 0))
  {
    hide Safe, Run, CsiBytes, SgrFrom, Fed, CanBeFed;
    SgrFromBytes(s, p, values, flags);
    assert FirstParams(values) == values && FirstParams(flags) == flags;
    r := Fed(s, p, CsiBytes(values, flags, 0x6D));
  }

  /** 4 with a subparameter: none, single, double, curly, and single for any other. */
  lemma UnderlineStyles(s: ScreenV, p: PState, style: U16) returns (r: ScreenV)
    requires Safe(s) && Ready(p)
    ensures Gives(s, p, CsiBytes([4, style], [false, true], 0x6D), r)
    ensures var u := if style == 0 then NoUnderline else if style == 2 then Double else if style == 3 then Curly
                     else Single;
            r == s.(pen := s.pen.(attrs := s.pen.attrs.(underline := u)))
  {
    hide Safe, Gives, CsiBytes;
    r := SgrReceived(s, p, [4, style], [false, true]);
  }

  /** Colours by index and by their parts, of which the low byte is taken. */
  lemma ExtendedColours(s: ScreenV, p: PState, behind: bool, a: U16, b: U16, c: U16) returns (q: ScreenV, r: ScreenV)
    requires Safe(s) && Ready(p)
    ensures var code := if behind then 48 else 38;
            && Gives(s, p, CsiBytes([code, 5, a], [false, false, false], 0x6D), q)
            && Gives(s, p, CsiBytes([code, 2, a, b, c], [false, false, false, false, false], 0x6D), r)
    ensures var (indexed, direct) := (Indexed(a % 256), Rgb(a % 256, b % 256, c % 256));
            && q == s.(pen := if behind then s.pen.(bg := indexed) else s.pen.(fg := indexed))
            && r == s.(pen := if behind then s.pen.(bg := direct) else s.pen.(fg := direct))
  {
    hide Safe, Gives, CsiBytes, SgrFrom;
    var code := if behind then 48 else 38;
    var index, parts := [code, 5, a], [code, 2, a, b, c];
    q := SgrReceived(s, p, index, [false, false, false]);
    r := SgrReceived(s, p, parts, [false, false, false, false, false]);
    ColourRead(s.pen, code, a, b, c);
  }

  lemma ColourRead(pen: Pen, code: U16, a: U16, b: U16, c: U16)
    requires code == 38 || code == 48
    ensures SgrFrom(pen, [code, 5, a], [false, false, false], 0) == Coloured(pen, Indexed(a % 256), code == 38)
    ensures SgrFrom(pen, [code, 2, a, b, c], [false, false, false, false, false], 0)
         == Coloured(pen, Rgb(a % 256, b % 256, c % 256), code == 38)
  {
    assert SgrFrom(Coloured(pen, Indexed(a % 256), code == 38), [code, 5, a], [false, false, false], 3)
        == Coloured(pen, Indexed(a % 256), code == 38);
  }

  /** A colour that is cut short is none, and what there is of it is read as codes of its own. */
  lemma ColourCutShort(s: ScreenV, p: PState, code: U16, a: U16, b: U16) returns (q: ScreenV, r: ScreenV)
    requires Safe(s) && Ready(p) && (code == 38 || code == 48) && a !in {4, 38, 48} && b !in {38, 48}
    ensures Gives(s, p, CsiBytes([code, 5], [false, false], 0x6D), q) && q == s
    ensures Gives(s, p, CsiBytes([code, 2, a, b], [false, false, false, false], 0x6D), r)
    ensures r == s.(pen := SgrOne(SgrOne(s.pen, a), b))
  {
    hide Safe, Gives, CsiBytes, SgrFrom;
    q := SgrReceived(s, p, [code, 5], [false, false]);
    r := SgrReceived(s, p, [code, 2, a, b], [false, false, false, false]);
    CutShortRead(s.pen, code, a, b);
  }

  lemma CutShortRead(pen: Pen, code: U16, a: U16, b: U16)
    requires (code == 38 || code == 48) && a !in {4, 38, 48} && b !in {38, 48}
    ensures SgrFrom(pen, [code, 5], [false, false], 0) == pen
    ensures SgrFrom(pen, [code, 2, a, b], [false, false, false, false], 0) == SgrOne(SgrOne(pen, a), b)
  {
    hide SgrOne;
    var ps, flags := [code, 2, a, b], [false, false, false, false];
    assert SgrFrom(pen, ps, flags, 0) == SgrFrom(pen, ps, flags, 2);
    assert SgrFrom(pen, ps, flags, 2) == SgrFrom(SgrOne(pen, a), ps, flags, 3);
    assert SgrFrom(SgrOne(pen, a), ps, flags, 3) == SgrFrom(SgrOne(SgrOne(pen, a), b), ps, flags, 4);
    assert SgrFrom(pen, [code, 5], [false, false], 0) == SgrFrom(pen, [code, 5], [false, false], 2);
  }
}
