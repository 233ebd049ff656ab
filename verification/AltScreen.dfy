/** The main screen while the alternate one shows: what reaches it, and when it comes back. */
module AltScreen {
  import opened Options
  import opened Utf8
  import opened Cells
  import opened GridValues
  import opened VtParams
  import opened VtParser
  import opened ScreenState
  import opened ScreenEdits
  import opened ScreenModes
  import opened Performing
  import opened Runs
  import opened Confinement

  // ----- What the way back depends on -----

  datatype Flags = Flags(onAlt: bool, mayResize: bool, margins: bool)

  /** The three modes that decide what an action does to the other screen, and their saved copy. */
  datatype Link = Link(flags: Flags, saved: Option<Flags>)

  function FlagsOf(m: Modes): Flags {
    Flags(m.altScreen, m.allowDeccolm, m.leftRightMargin)
  }

  function LinkOf(s: ScreenV): Link {
    Link(FlagsOf(s.modes), if s.savedModes.None? then None else Some(FlagsOf(s.savedModes.value)))
  }

  const RESET_FLAGS := Flags(false, false, false)

  predicate IsAltMode(mode: U16) {
    mode == 47 || mode == 1047 || mode == 1049
  }

  function AfterMode(f: Flags, mode: U16, enable: bool): Flags {
    if IsAltMode(mode) then f.(onAlt := enable)
    else if mode == 40 then f.(mayResize := enable)
    else if mode == 69 then f.(margins := enable)
    else f
  }

  function AfterModes(f: Flags, modes: seq<U16>, enable: bool): Flags
    decreases |modes|
  {
    if modes == [] then f else AfterModes(AfterMode(f, modes[0], enable), modes[1..], enable)
  }

  ghost predicate IsCsi(a: Action, action: Byte) {
    WellFormed(a) && a.CsiDispatch? && !a.ignore && a.action == action
  }

  ghost predicate IsEsc(a: Action, byte: Byte) {
    WellFormed(a) && a.EscDispatch? && !a.ignore && a.intermediates.Slice() == [] && a.byte == byte
  }

  /** DECSTR. */
  ghost predicate IsSoftReset(a: Action) {
    IsCsi(a, 0x70) && 0x21 in a.intermediates.Slice()
  }

  /** XTRESTORE. */
  ghost predicate IsModesRestore(a: Action) {
    IsCsi(a, 0x72) && 0x3F in a.intermediates.Slice()
  }

  /** XTSAVE. */
  ghost predicate IsModesSave(a: Action) {
    IsCsi(a, 0x73) && 0x3F in a.intermediates.Slice()
  }

  /** What an action makes of the link: the screen itself plays no part in it. */
  ghost function AfterAction(l: Link, a: Action): Link {
    if IsPrivateModes(a) then l.(flags := AfterModes(l.flags, a.params.Finished(), a.action == 0x68))
    else if IsSoftReset(a) then l.(flags := RESET_FLAGS)
    else if IsModesRestore(a) then if l.saved.None? then l else Link(l.saved.value, None)
    else if IsModesSave(a) then l.(saved := Some(l.flags))
    else if IsEsc(a, 0x63) then Link(RESET_FLAGS, None)
    else l
  }

  // ----- What reaches the other screen, and the saved cursor -----

  /** Setting or resetting a mode swaps the screens, or switches the width. */
  predicate ModeReaches(f: Flags, mode: U16, enable: bool) {
    (IsAltMode(mode) && f.onAlt != enable) || (mode == 3 && f.mayResize)
  }

  predicate ModesReach(f: Flags, modes: seq<U16>, enable: bool)
    decreases |modes|
  {
    modes != [] && (ModeReaches(f, modes[0], enable) || ModesReach(AfterMode(f, modes[0], enable), modes[1..], enable))
  }

  ghost predicate Reaches(l: Link, a: Action) {
    || IsEsc(a, 0x63)
    || (IsPrivateModes(a) && ModesReach(l.flags, a.params.Finished(), a.action == 0x68))
  }

  /** DECSC in any of its forms, or a reset. */
  ghost predicate SavesCursor(l: Link, a: Action) {
    || IsEsc(a, 0x37) || IsSoftReset(a)
    || (IsCsi(a, 0x73) && !IsModesSave(a) && !l.flags.margins)
    || (IsPrivateModes(a) && a.action == 0x68 && 1048 in a.params.Finished())
  }

  /** The cursor at the last 1048 of a list of modes that are set. */
  ghost function TakenByModes(s: ScreenV, modes: seq<U16>): SavedCursor
    requires Safe(s) && 1048 in modes
    decreases |modes|
  {
    if 1048 !in modes[1..] then CursorTaken(s) else TakenByModes(PrivateModeSet(s, modes[0], true), modes[1..])
  }

  /** What an action that saves a cursor leaves saved: none, after DECSTR. */
  ghost function TakenBy(s: ScreenV, a: Action): Option<SavedCursor>
    requires Safe(s)
  {
    if IsSoftReset(a) then None
    else if IsPrivateModes(a) && 1048 in a.params.Finished() then Some(TakenByModes(s, a.params.Finished()))
    else Some(CursorTaken(s))
  }

  // ----- One mode -----

  lemma EnteringLink(s: ScreenV, save: bool)
    requires Safe(s)
    ensures LinkOf(AltEntered(s, save)) == LinkOf(s).(flags := FlagsOf(s.modes).(onAlt := true))
  {
    hide AllWide, Safe, Tight, Keeps, AllCleared, WholeRows;
  }

  lemma LeavingLink(s: ScreenV, restore: bool)
    requires Safe(s)
    ensures LinkOf(AltLeft(s, restore)) == LinkOf(s).(flags := FlagsOf(s.modes).(onAlt := false))
  {
    hide AllWide, Safe, Tight, Keeps, WholeRows;
  }

  lemma AltModeStep(s: ScreenV, mode: U16, enable: bool)
    requires Safe(s) && IsAltMode(mode)
    ensures PrivateModeSet(s, mode, enable) == if enable then AltEntered(s, mode == 1049) else AltLeft(s, mode == 1049)
    ensures var r := PrivateModeSet(s, mode, enable);
            && LinkOf(r) == LinkOf(s).(flags := AfterMode(FlagsOf(s.modes), mode, enable))
            && (s.modes.altScreen == enable ==> r == s)
  {
    hide AllWide, Safe, Tight, Keeps, Redrawn, Restored, Swapped, CursorSaved, LinkOf;
    EnteringLink(s, mode == 1049);
    LeavingLink(s, mode == 1049);
  }

  lemma WidthStep(s: ScreenV, enable: bool)
    requires Safe(s)
    ensures var r := WidthSwitched(s, enable);
            LinkOf(r) == LinkOf(s) && r.altCursor == s.altCursor && (!s.modes.allowDeccolm ==> r == s)
  {
    hide AllWide, Tight, DisplayErased;
    if s.modes.allowDeccolm {
      var cols := if enable then 132 else 80;
      ResizeKeepsSafe(s, cols, s.grid.rows);
      EraseConfined(SizeChanged(s, cols, s.grid.rows), All, WholeLine, false);
    }
  }

  lemma FlagModeStep(s: ScreenV, mode: U16, enable: bool)
    requires Safe(s) && !IsAltMode(mode) && mode !in [3, 6, 25, 1048, 69]
    ensures var r := PrivateModeSet(s, mode, enable);
            && LinkOf(r) == LinkOf(s).(flags := AfterMode(FlagsOf(s.modes), mode, enable))
            && r.alt == s.alt && r.altCursor == s.altCursor && r.savedCursor == s.savedCursor
  {
    hide AllWide, Safe, Tight, Keeps, ScreenModeSet, WidthSwitched, FlagSet;
  }

  lemma OriginConfined(s: ScreenV, enable: bool)
    requires Safe(s)
    ensures Confined(s, Positioned(s.(modes := s.modes.(origin := enable)), 1, 1))
  {
    hide AllWide, Tight, Keeps, Positioned;
    StepsConfined(s.(modes := s.modes.(origin := enable)), 1, 1);
  }

  lemma CursorModeStep(s: ScreenV, mode: U16, enable: bool)
    requires Safe(s) && mode in [6, 25, 1048]
    ensures var r := ScreenModeSet(s, mode, enable);
            if mode == 1048 && enable then r == CursorSaved(s) else Confined(s, r)
  {
    hide AllWide, Safe, Tight, Keeps, AltEntered, AltLeft, MarginModeSet, Positioned, CursorSaved, CursorRestored,
      Confined;
    OriginConfined(s, enable);
    RestoringConfined(s);
    LookConfined(s, s.cursor.(visible := enable), s.pen, s.sgrStack);
  }

  lemma SavingLink(s: ScreenV)
    requires Safe(s)
    ensures var r := CursorSaved(s);
            LinkOf(r) == LinkOf(s) && r.alt == s.alt && r.altCursor == s.altCursor
            && r.savedCursor == Some(CursorTaken(s))
  {
    hide AllWide, Safe, Tight, Keeps, CursorTaken;
  }

  lemma OtherModeStep(s: ScreenV, mode: U16, enable: bool)
    requires Safe(s) && !IsAltMode(mode) && mode != 3
    ensures var r := PrivateModeSet(s, mode, enable);
            && LinkOf(r) == LinkOf(s).(flags := AfterMode(FlagsOf(s.modes), mode, enable))
            && r.alt == s.alt && r.altCursor == s.altCursor
            && r.savedCursor == if mode == 1048 && enable then Some(CursorTaken(s)) else s.savedCursor
  {
    hide AllWide, Safe, Tight, Keeps, AltEntered, AltLeft, CursorSaved, CursorRestored, Positioned, FlagModeSet;
    if mode in [6, 25, 1048] {
      CursorModeStep(s, mode, enable);
      SavingLink(s);
    } else if mode != 69 {
      FlagModeStep(s, mode, enable);
    }
  }

  lemma ModeStep(s: ScreenV, mode: U16, enable: bool)
    requires Safe(s)
    ensures var r := PrivateModeSet(s, mode, enable);
            && LinkOf(r) == LinkOf(s).(flags := AfterMode(FlagsOf(s.modes), mode, enable))
            && (!ModeReaches(FlagsOf(s.modes), mode, enable) ==> r.alt == s.alt && r.altCursor == s.altCursor)
            && (!ModeReaches(FlagsOf(s.modes), mode, enable) ==>
                  r.savedCursor == if mode == 1048 && enable then Some(CursorTaken(s)) else s.savedCursor)
  {
    hide Safe, Tight, Keeps, ScreenModeSet, FlagModeSet, WidthSwitched;
    if IsAltMode(mode) {
      AltModeStep(s, mode, enable);
    } else if mode == 3 {
      WidthStep(s, enable);
    } else {
      OtherModeStep(s, mode, enable);
    }
  }

  lemma {:induction false} ModesStep(s: ScreenV, modes: seq<U16>, enable: bool)
    requires Safe(s) && ModesCanBeSet(s, modes, true, enable)
    ensures var (r, f) := (ModesSet(s, modes, true, enable), FlagsOf(s.modes));
            && LinkOf(r) == LinkOf(s).(flags := AfterModes(f, modes, enable))
            && (!ModesReach(f, modes, enable) ==> r.alt == s.alt && r.altCursor == s.altCursor)
            && (!ModesReach(f, modes, enable) ==>
                  r.savedCursor == if enable && 1048 in modes then Some(TakenByModes(s, modes)) else s.savedCursor)
    decreases |modes|
  {
    hide Safe, Tight, PrivateModeSet, AfterMode, ModeReaches;
    if modes != [] {
      ModeStep(s, modes[0], enable);
      ModesStep(PrivateModeSet(s, modes[0], enable), modes[1..], enable);
    }
  }

  lemma {:induction false} AnsiConfined(s: ScreenV, modes: seq<U16>, enable: bool)
    requires Safe(s)
    ensures Confined(s, ModesSet(s, modes, false, enable))
    decreases |modes|
  {
    hide AllWide, Safe, Tight;
    if modes != [] {
      AnsiConfined(AnsiModeSet(s, modes[0], enable), modes[1..], enable);
    }
  }

  // ----- One action -----

  /** What an action does to the link, the other screen and the saved cursor. */
  ghost predicate Follows(s: ScreenV, a: Action, r: ScreenV)
    requires Safe(s)
  {
    && LinkOf(r) == AfterAction(LinkOf(s), a)
    && (!Reaches(LinkOf(s), a) ==> r.alt == s.alt && r.altCursor == s.altCursor)
    && (!Reaches(LinkOf(s), a) ==>
          r.savedCursor == if SavesCursor(LinkOf(s), a) then TakenBy(s, a) else s.savedCursor)
  }

  lemma MarginsConfined(s: ScreenV, from: nat, to: nat)
    requires Safe(s)
    ensures Confined(s, RegionSet(s, from, to)) && Confined(s, MarginsSet(s, from, to))
  {
    hide AllWide, Safe, Tight, Bounds;
  }

  lemma PenConfined(s: ScreenV, pen: Pen)
    ensures Confined(s, s.(pen := pen))
  {
  }

  lemma RestoringConfined(s: ScreenV)
    requires Safe(s)
    ensures Confined(s, CursorRestored(s))
  {
    hide AllWide, Safe, Tight, Keeps;
  }

  lemma PlainStateConfined(s: ScreenV, p: ParamsVal, isPrivate: bool, action: Byte)
    requires Safe(s) && p.Valid() && action != 0x73 && !(action == 0x72 && isPrivate)
    ensures Confined(s, CsiState(s, p, isPrivate, action))
  {
    hide AllWide, Safe, Tight, Keeps, CursorRestored, RegionSet, Confined, Low16;
    SameConfined(s);
    RestoringConfined(s);
    MarginsConfined(s, p.GetOr(0, 1), p.GetOr(1, Low16(s.grid.rows)));
  }

  lemma PlainCsiConfined(s: ScreenV, p: ParamsVal, inter: seq<Byte>, action: Byte)
    requires Safe(s) && p.Valid() && !(action in [0x68, 0x6C] && 0x3F in inter) && !(action == 0x70 && 0x21 in inter)
    requires action != 0x73 && !(action == 0x72 && 0x3F in inter)
    ensures Confined(s, CsiDone(s, p, inter, action))
  {
    hide AllWide, Safe, Tight, Keeps, CsiMove, CsiEdit, CsiExtra, CsiState, ModesSet, SgrApplied, Confined;
    MoveConfined(s, p, action);
    EditConfined(s, p, 0x3F in inter, action);
    ExtraConfined(s, p, inter, action);
    FlagPerParam(p);
    PenConfined(s, SgrApplied(s.pen, p.Finished(), p.FinishedSubparamFlags()));
    AnsiConfined(s, p.Finished(), true);
    AnsiConfined(s, p.Finished(), false);
    PlainStateConfined(s, p, 0x3F in inter, action);
  }

  /** CSI s: XTSAVE, margins or DECSC. */
  lemma SavingStep(s: ScreenV, p: ParamsVal, isPrivate: bool)
    requires Safe(s) && p.Valid()
    ensures var r := CsiState(s, p, isPrivate, 0x73);
            && LinkOf(r) == (if isPrivate then LinkOf(s).(saved := Some(FlagsOf(s.modes))) else LinkOf(s))
            && r.alt == s.alt && r.altCursor == s.altCursor
            && r.savedCursor == if isPrivate || s.modes.leftRightMargin then s.savedCursor else Some(CursorTaken(s))
  {
    hide AllWide, Safe, Tight, Keeps, MarginsSet, Low16;
    MarginsConfined(s, p.GetOr(0, 1), p.GetOr(1, Low16(s.grid.cols)));
  }

  /** DECSTR and XTRESTORE. */
  lemma RestoringStep(s: ScreenV)
    requires Safe(s)
    ensures LinkOf(SoftReset(s)) == LinkOf(s).(flags := RESET_FLAGS)
    ensures LinkOf(ModesRestored(s)) == if s.savedModes.None? then LinkOf(s) else Link(LinkOf(s).saved.value, None)
    ensures SoftReset(s).alt == s.alt && SoftReset(s).altCursor == s.altCursor && SoftReset(s).savedCursor == None
    ensures var r := ModesRestored(s); r.alt == s.alt && r.altCursor == s.altCursor && r.savedCursor == s.savedCursor
  {
    hide AllWide, Safe, Tight, Keeps;
  }

  /** An action that is none of those named. */
  ghost predicate Plain(a: Action) {
    && WellFormed(a) && !IsPrivateModes(a) && !IsSoftReset(a) && !IsModesRestore(a) && !IsEsc(a, 0x63)
    && !IsCsi(a, 0x73) && !IsEsc(a, 0x37)
  }

  lemma PlainFollows(s: ScreenV, a: Action, r: ScreenV)
    requires Safe(s) && Plain(a) && Confined(s, r)
    ensures Follows(s, a, r)
  {
  }

  lemma PlainCsiStep(s: ScreenV, a: Action)
    requires Safe(s) && Plain(a) && a.CsiDispatch? && !a.ignore
    ensures Follows(s, a, Performed(s, a))
  {
    hide AllWide, Safe, Tight, Keeps, CsiDone, Confined, Follows;
    PlainCsiConfined(s, a.params, a.intermediates.Slice(), a.action);
    PlainFollows(s, a, Performed(s, a));
  }

  /** How the named control sequences are carried out. */
  lemma ModeCases(s: ScreenV, p: ParamsVal, inter: seq<Byte>, enable: bool)
    requires Safe(s) && p.Valid() && ModesCanBeSet(s, p.Finished(), 0x3F in inter, enable)
    ensures CsiDone(s, p, inter, if enable then 0x68 else 0x6C) == ModesSet(s, p.Finished(), 0x3F in inter, enable)
  {
    hide Safe, Tight, Keeps, ModesSet, ModesCanBeSet, CsiState, CsiExtra, CsiMove, CsiEdit;
  }

  lemma SavingCases(s: ScreenV, p: ParamsVal, inter: seq<Byte>)
    requires Safe(s) && p.Valid()
    ensures CsiDone(s, p, inter, 0x73) == CsiState(s, p, 0x3F in inter, 0x73)
  {
    hide Safe, Tight, Keeps, ModesSet, ModesCanBeSet, CsiState, CsiExtra, CsiMove, CsiEdit;
  }

  lemma ResettingCases(s: ScreenV, p: ParamsVal, inter: seq<Byte>)
    requires Safe(s) && p.Valid()
    ensures 0x21 in inter ==> CsiDone(s, p, inter, 0x70) == SoftReset(s)
    ensures 0x3F in inter ==> CsiDone(s, p, inter, 0x72) == ModesRestored(s)
  {
    hide Safe, Tight, Keeps, SoftReset, ModesRestored, ModesSet, CsiMove, CsiEdit;
  }

  lemma PrivateModesStep(s: ScreenV, a: Action)
    requires IsPrivateModes(a) && CanPerform(s, a)
    ensures Performed(s, a) == ModesSet(s, a.params.Finished(), true, a.action == 0x68)
    ensures Follows(s, a, Performed(s, a))
  {
    hide AllWide, Safe, Tight, Keeps, CsiDone, ModesSet, AfterModes, ModesReach;
    ModeCases(s, a.params, a.intermediates.Slice(), a.action == 0x68);
    ModesStep(s, a.params.Finished(), a.action == 0x68);
  }

  lemma SavingCsiStep(s: ScreenV, a: Action)
    requires Safe(s) && IsCsi(a, 0x73)
    ensures Follows(s, a, Performed(s, a))
  {
    hide AllWide, Safe, Tight, Keeps, CsiDone, CsiState, AfterModes, ModesReach;
    SavingCases(s, a.params, a.intermediates.Slice());
    SavingStep(s, a.params, 0x3F in a.intermediates.Slice());
  }

  lemma ResettingCsiStep(s: ScreenV, a: Action)
    requires Safe(s) && (IsSoftReset(a) || IsModesRestore(a))
    ensures Performed(s, a) == if IsSoftReset(a) then SoftReset(s) else ModesRestored(s)
    ensures Follows(s, a, Performed(s, a))
  {
    hide AllWide, Safe, Tight, Keeps, CsiDone, SoftReset, ModesRestored, AfterModes, ModesReach;
    ResettingCases(s, a.params, a.intermediates.Slice());
    RestoringStep(s);
  }

  lemma CsiStep(s: ScreenV, a: Action)
    requires CanPerform(s, a) && a.CsiDispatch? && !a.ignore
    ensures Follows(s, a, Performed(s, a))
  {
    hide Safe, Tight, Keeps, Performed, Follows;
    if IsPrivateModes(a) {
      PrivateModesStep(s, a);
    } else if IsSoftReset(a) || IsModesRestore(a) {
      ResettingCsiStep(s, a);
    } else if IsCsi(a, 0x73) {
      SavingCsiStep(s, a);
    } else {
      PlainCsiStep(s, a);
    }
  }

  lemma CharsetsConfined(s: ScreenV, c: Charset, keypad: bool)
    ensures Confined(s, s.(g0 := c)) && Confined(s, s.(g1 := c))
    ensures Confined(s, s.(modes := s.modes.(applicationKeypad := keypad)))
  {
  }

  lemma PlainEscConfined(s: ScreenV, inter: seq<Byte>, byte: Byte)
    requires Safe(s) && !(inter == [] && byte in [0x37, 0x63])
    ensures Confined(s, EscDone(s, inter, byte))
  {
    hide AllWide, Safe, Tight, Keeps, LineFed, CarriageReturned, StopSet, ReverseIndexed, CursorSaved, CursorRestored,
      FullReset, Aligned, CharsetOf, Confined;
    SameConfined(s);
    CharsetsConfined(s, CharsetOf(byte), true);
    CharsetsConfined(s, CharsetOf(byte), false);
    LineFeedConfined(s);
    FreshLineConfined(s);
    StopsConfined(s, true);
    ScrollConfined(s, 0);
    RestoringConfined(s);
    RectConfined(s, SPACE, 0, 0, 0, 0, 0, 0);
  }

  /** DECSC and RIS. */
  lemma NamedEscStep(s: ScreenV, a: Action)
    requires Safe(s) && (IsEsc(a, 0x37) || IsEsc(a, 0x63))
    ensures Performed(s, a) == if IsEsc(a, 0x37) then CursorSaved(s) else FullReset(s)
    ensures Follows(s, a, Performed(s, a))
  {
    hide AllWide, Safe, Tight, Keeps, LineFed, CarriageReturned, StopSet, ReverseIndexed, CursorRestored, Aligned;
  }

  lemma EscStep(s: ScreenV, a: Action)
    requires Safe(s) && WellFormed(a) && a.EscDispatch? && !a.ignore
    ensures Follows(s, a, Performed(s, a))
  {
    hide AllWide, Safe, Tight, Keeps, EscDone, Follows, Confined;
    if IsEsc(a, 0x37) || IsEsc(a, 0x63) {
      NamedEscStep(s, a);
    } else {
      PlainEscConfined(s, a.intermediates.Slice(), a.byte);
      PlainFollows(s, a, Performed(s, a));
    }
  }

  lemma OscConfined(s: ScreenV, parts: seq<seq<Byte>>)
    requires Safe(s)
    ensures Confined(s, OscDone(s, parts))
  {
    hide AllWide, Safe, Tight, Keeps, Decode;
  }

  /** Every action moves the link as `AfterAction` says, and leaves the other screen and the
      saved cursor alone unless it is one of those named. */
  lemma ActionStep(s: ScreenV, a: Action)
    requires CanPerform(s, a)
    ensures Follows(s, a, Performed(s, a))
  {
    hide AllWide, Safe, Tight, Keeps, CharWritten, Executed, CsiDone, EscDone, OscDone, Follows, Confined;
    if a.CsiDispatch? && !a.ignore {
      CsiStep(s, a);
    } else if a.EscDispatch? && !a.ignore {
      EscStep(s, a);
    } else {
      SameConfined(s);
      match a {
        case Print(c) => PrintConfined(s, c);
        case Execute(byte) => ControlConfined(s, byte);
        case OscDispatch(parts) => OscConfined(s, parts);
        case _ =>
      }
      PlainFollows(s, a, Performed(s, a));
    }
  }

  // ----- Runs -----

  ghost function LinkAfter(l: Link, actions: seq<Action>): Link
    decreases |actions|
  {
    if actions == [] then l else LinkAfter(AfterAction(l, actions[0]), actions[1..])
  }

  /** No action swaps the screens, switches the width or is RIS. */
  ghost predicate Untouched(l: Link, actions: seq<Action>)
    decreases |actions|
  {
    actions == [] || (!Reaches(l, actions[0]) && Untouched(AfterAction(l, actions[0]), actions[1..]))
  }

  ghost predicate Unsaved(l: Link, actions: seq<Action>)
    decreases |actions|
  {
    actions == [] || (!SavesCursor(l, actions[0]) && Unsaved(AfterAction(l, actions[0]), actions[1..]))
  }

  /** Over any run, the link and what is on the other screen follow from the actions alone. */
  lemma {:induction false} RunFollows(s: ScreenV, actions: seq<Action>)
    requires CanPerformAll(s, actions)
    ensures var (l, r) := (LinkOf(s), PerformedAll(s, actions));
            && LinkOf(r) == LinkAfter(l, actions)
            && (Untouched(l, actions) ==> r.alt == s.alt && r.altCursor == s.altCursor)
    decreases |actions|
  {
    hide Safe, Performed, CanPerformAll, CanPerform, LinkOf, AfterAction, Reaches, SavesCursor, TakenBy;
    if actions != [] {
      FirstCanPerform(s, actions);
      ActionStep(s, actions[0]);
      RunFollows(Performed(s, actions[0]), actions[1..]);
    }
  }

  /** What is saved after a run: what its last saving action took from the screen it met, or
      what was saved before if there is none. */
  ghost function LastSaved(s: ScreenV, actions: seq<Action>): Option<SavedCursor>
    requires CanPerformAll(s, actions)
    decreases |actions|
  {
    if actions == [] then s.savedCursor
    else
      FirstCanPerform(s, actions);
      if !Unsaved(AfterAction(LinkOf(s), actions[0]), actions[1..]) then
        LastSaved(Performed(s, actions[0]), actions[1..])
      else if SavesCursor(LinkOf(s), actions[0]) then TakenBy(s, actions[0])
      else s.savedCursor
  }

  lemma {:induction false} NothingSaved(s: ScreenV, actions: seq<Action>)
    requires CanPerformAll(s, actions) && Unsaved(LinkOf(s), actions)
    ensures LastSaved(s, actions) == s.savedCursor
  {
    hide Safe, Performed, CanPerformAll, CanPerform, LinkOf, AfterAction, SavesCursor, TakenBy;
  }

  lemma {:induction false} RunSaves(s: ScreenV, actions: seq<Action>)
    requires CanPerformAll(s, actions) && Untouched(LinkOf(s), actions)
    ensures PerformedAll(s, actions).savedCursor == LastSaved(s, actions)
    decreases |actions|
  {
    hide Safe, Performed, CanPerformAll, CanPerform, LinkOf, AfterAction, Reaches, SavesCursor, TakenBy;
    if actions != [] {
      FirstCanPerform(s, actions);
      ActionStep(s, actions[0]);
      RunSaves(Performed(s, actions[0]), actions[1..]);
      if Unsaved(AfterAction(LinkOf(s), actions[0]), actions[1..]) {
        NothingSaved(Performed(s, actions[0]), actions[1..]);
      }
    }
  }

  // ----- A condition on the actions alone -----

  /** Not RIS, DECSTR or XTRESTORE, no switch of the width, and no way back to the main screen. */
  ghost predicate StaysOnAlt(a: Action) {
    && !IsEsc(a, 0x63) && !IsSoftReset(a) && !IsModesRestore(a)
    && (IsPrivateModes(a) ==> 3 !in a.params.Finished()
                              && (a.action == 0x6C ==> forall m :: m in a.params.Finished() ==> !IsAltMode(m)))
  }

  lemma {:induction false} StayingModes(f: Flags, modes: seq<U16>, enable: bool)
    requires f.onAlt && 3 !in modes && (!enable ==> forall m :: m in modes ==> !IsAltMode(m))
    ensures !ModesReach(f, modes, enable) && AfterModes(f, modes, enable).onAlt
    decreases |modes|
  {
    if modes != [] {
      assert modes[0] in modes;
      StayingModes(AfterMode(f, modes[0], enable), modes[1..], enable);
    }
  }

  lemma StayingStep(l: Link, a: Action)
    requires l.flags.onAlt && StaysOnAlt(a)
    ensures !Reaches(l, a) && AfterAction(l, a).flags.onAlt
  {
    hide ModesReach, AfterModes, IsAltMode;
    if IsPrivateModes(a) {
      StayingModes(l.flags, a.params.Finished(), a.action == 0x68);
    }
  }

  /** Whatever the screen was before, such actions leave the link up: the main screen comes back. */
  lemma {:induction false} StayingRuns(l: Link, actions: seq<Action>)
    requires l.flags.onAlt && forall i :: 0 <= i < |actions| ==> StaysOnAlt(actions[i])
    ensures Untouched(l, actions) && LinkAfter(l, actions).flags.onAlt
    decreases |actions|
  {
    hide StaysOnAlt, Reaches, AfterAction;
    if actions != [] {
      StayingStep(l, actions[0]);
      StayingRuns(AfterAction(l, actions[0]), actions[1..]);
    }
  }
}
