/** Visits to the alternate screen: what comes back when it is left, and with which cursor. */
module AltVisits {
  import opened Options
  import opened Utf8
  import opened Cells
  import opened GridValues
  import opened VtParams
  import opened VtParser
  import opened ScreenState
  import opened ScreenModes
  import opened Performing
  import opened Runs
  import opened AltScreen

  // ----- Entering and leaving -----

  /** One of the modes 47, 1047 and 1049 set or reset on its own. */
  ghost predicate Toggles(a: Action, mode: U16, enable: bool) {
    IsPrivateModes(a) && (a.action == 0x68 <==> enable) && a.params.Finished() == [mode] && IsAltMode(mode)
  }

  lemma ToggleStep(s: ScreenV, a: Action, mode: U16, enable: bool)
    requires CanPerform(s, a) && Toggles(a, mode, enable)
    ensures Performed(s, a) == if enable then AltEntered(s, mode == 1049) else AltLeft(s, mode == 1049)
  {
    hide Safe, Tight, Keeps, Performed, PrivateModeSet, AltEntered, AltLeft, Follows, CsiCanBeDone;
    PrivateModesStep(s, a);
    AltModeStep(s, mode, enable);
    var r := PrivateModeSet(s, mode, enable);
    ModesDone(r, enable);
    assert a.params.Finished()[1..] == [];
  }

  lemma ModesDone(s: ScreenV, enable: bool)
    ensures Safe(s) ==> ModesSet(s, [], true, enable) == s
  {
    hide Safe;
  }

  lemma EnteredState(s: ScreenV, save: bool)
    requires Safe(s) && !s.modes.altScreen
    ensures var e := AltEntered(s, save);
            && Settled(e) && e.alt == s.grid && e.altCursor == s.cursor && e.grid == AllCleared(s.alt)
            && LinkOf(e) == Entered(LinkOf(s))
            && e.savedCursor == if save then Some(CursorTaken(s)) else s.savedCursor
  {
    hide AllWide, Tight, AllCleared, WholeRows, CursorTaken;
    EnteringLink(s, save);
    SavingOnTheWay(s, s.(modes := s.modes.(altScreen := true)));
  }

  /** The flag of the screen is not part of what is saved. */
  lemma SavingOnTheWay(s: ScreenV, s1: ScreenV)
    requires s1 == s.(modes := s.modes.(altScreen := true))
    ensures CursorTaken(s1) == CursorTaken(s)
  {
  }

  function Entered(l: Link): Link {
    l.(flags := l.flags.(onAlt := true))
  }

  /** What leaving shows, given what waits. */
  lemma LeavingState(s: ScreenV, restore: bool)
    requires Safe(s)
    ensures var r := AltLeft(s, restore);
            if s.modes.altScreen
            then r.grid == s.alt && r.alt == s.grid && !r.modes.altScreen && (!restore ==> r.cursor == s.altCursor)
            else r == s
  {
    hide AllWide, Safe, Tight, Keeps, WholeRows;
  }

  lemma OneAction(s: ScreenV, a: Action)
    requires CanPerform(s, a)
    ensures CanPerformAll(s, [a]) && PerformedAll(s, [a]) == Performed(s, a)
  {
    hide Safe, Performed, WellFormed;
    assert [a][1..] == [];
    assert ActionsStaySafe(Performed(s, a), []);
    assert PerformedAll(Performed(s, a), []) == Performed(s, a);
  }

  // ----- A visit -----

  /** The screen during a visit: the main one waits, untouched. */
  lemma DuringVisit(s: ScreenV, enter: Action, actions: seq<Action>, mode: U16)
    requires Safe(s) && !s.modes.altScreen && Toggles(enter, mode, true) && AllWellFormed(actions)
    ensures Settled(AltEntered(s, mode == 1049)) && CanPerformAll(s, [enter] + actions)
    ensures PerformedAll(s, [enter] + actions) == PerformedAll(AltEntered(s, mode == 1049), actions)
    ensures Settled(PerformedAll(s, [enter] + actions))
    ensures LinkOf(PerformedAll(s, [enter] + actions)) == LinkAfter(Entered(LinkOf(s)), actions)
    ensures Untouched(Entered(LinkOf(s)), actions) ==>
              var there := PerformedAll(s, [enter] + actions); there.alt == s.grid && there.altCursor == s.cursor
  {
    hide AllWide, Safe, Tight, Keeps, Performed, WellFormed, AltEntered, CanPerform, LinkOf, LinkAfter, Untouched,
      PerformedAll;
    ClampedCanPerform(s, enter);
    ToggleStep(s, enter, mode, true);
    EnteredState(s, mode == 1049);
    OneAction(s, enter);
    PerformedConcat(s, [enter], actions);
    RunFollows(AltEntered(s, mode == 1049), actions);
  }

  lemma Finishing(s: ScreenV, actions: seq<Action>, last: Action, mode: U16)
    requires CanPerformAll(s, actions) && Settled(PerformedAll(s, actions)) && Toggles(last, mode, false)
    ensures CanPerformAll(s, actions + [last])
    ensures PerformedAll(s, actions + [last]) == AltLeft(PerformedAll(s, actions), mode == 1049)
  {
    hide AllWide, Safe, Tight, Keeps, Performed, AltLeft, PerformedAll, CanPerformAll, ModesStaySafe;
    var r := PerformedAll(s, actions);
    ToggleStep(r, last, mode, false);
    OneAction(r, last);
    PerformedConcat(s, actions, [last]);
  }

  /** A visit to the alternate screen, through whatever actions. If the link is still up when
      the mode is reset, the main screen with its scrollback is back, exactly as it was left. If
      not, nothing happens at all: the alternate screen goes on showing as if it were the main one. */
  lemma VisitToAltScreen(s: ScreenV, enter: Action, actions: seq<Action>, leave: Action, mode: U16)
    requires Safe(s) && !s.modes.altScreen && AllWellFormed(actions)
    requires Toggles(enter, mode, true) && Toggles(leave, mode, false) && Untouched(Entered(LinkOf(s)), actions)
    ensures CanPerformAll(s, [enter] + actions) && CanPerformAll(s, [enter] + actions + [leave])
    ensures Settled(PerformedAll(s, [enter] + actions + [leave]))
    ensures var (there, r) := (PerformedAll(s, [enter] + actions), PerformedAll(s, [enter] + actions + [leave]));
            if LinkAfter(Entered(LinkOf(s)), actions).flags.onAlt
            then r.grid == s.grid && r.alt == there.grid && !r.modes.altScreen
                 && (mode != 1049 ==> r.cursor == s.cursor)
            else r == there && r.alt == s.grid && r.altCursor == s.cursor && !r.modes.altScreen
  {
    hide AllWide, Safe, Tight, Performed, AltEntered, AltLeft, AfterAction, Reaches, SavesCursor, Untouched, LinkAfter,
      AllWellFormed, WellFormed, CanPerformAll, PerformedAll;
    DuringVisit(s, enter, actions, mode);
    Finishing(s, [enter] + actions, leave, mode);
    LeavingState(PerformedAll(s, [enter] + actions), mode == 1049);
  }

  // ----- The cursor of a visit in mode 1049 -----

  /** What a saved cursor makes of the screen `there`, its position clamped; a home cursor and
      the default pen if none is saved. */
  ghost predicate TakenFrom(r: ScreenV, there: ScreenV, saved: Option<SavedCursor>) {
    match saved
    case None =>
      && r.cursor.row == 0 && r.cursor.col == 0 && r.pen == DEFAULT_PEN && !r.pendingWrap
      && r.g0 == there.g0 && r.g1 == there.g1 && r.activeCharset == there.activeCharset
      && r.modes.origin == there.modes.origin
    case Some(v) =>
      && r.cursor.row == Min(v.row, SatSub(there.alt.rows, 1)) && r.cursor.col == Min(v.col, SatSub(there.alt.cols, 1))
      && r.pen == Pen(v.attrs, v.fg, v.bg) && r.g0 == v.g0 && r.g1 == v.g1 && r.activeCharset == v.activeCharset
      && r.modes.origin == v.originMode && r.pendingWrap == v.pendingWrap
  }

  lemma RestoringTakes(s: ScreenV, there: ScreenV)
    requires s.grid.cols == there.alt.cols && s.grid.rows == there.alt.rows && s.savedCursor == there.savedCursor
    requires s.g0 == there.g0 && s.g1 == there.g1 && s.activeCharset == there.activeCharset
    requires s.modes.origin == there.modes.origin
    ensures TakenFrom(Restored(s), there, there.savedCursor)
    ensures var c := Restored(s).cursor; c.visible == s.cursor.visible && c.shape == s.cursor.shape
  {
    hide Safe, Tight, Keeps;
  }

  lemma RedrawingTakes(s: ScreenV, there: ScreenV)
    requires TakenFrom(s, there, there.savedCursor)
    ensures TakenFrom(Redrawn(s), there, there.savedCursor) && Redrawn(s).cursor == s.cursor
  {
    hide Safe, Tight, Keeps, WholeRows;
  }

  lemma LeavingTakes(s: ScreenV)
    requires Safe(s) && s.modes.altScreen
    ensures TakenFrom(AltLeft(s, true), s, s.savedCursor)
    ensures var c := AltLeft(s, true).cursor; c.visible == s.altCursor.visible && c.shape == s.altCursor.shape
  {
    hide Safe, Tight, Keeps, Redrawn, Restored, TakenFrom;
    RestoringTakes(Swapped(s), s);
    RedrawingTakes(Restored(Swapped(s)), s);
  }

  /** Whatever the visit does, the cursor, pen and character sets are then those the last
      saving action took, wherever it was; none after DECSTR. */
  lemma LastSaveWins(s: ScreenV, enter: Action, actions: seq<Action>, leave: Action)
    requires Safe(s) && !s.modes.altScreen && AllWellFormed(actions)
    requires Toggles(enter, 1049, true) && Toggles(leave, 1049, false)
    requires Untouched(Entered(LinkOf(s)), actions) && LinkAfter(Entered(LinkOf(s)), actions).flags.onAlt
    ensures Settled(AltEntered(s, true)) && CanPerformAll(AltEntered(s, true), actions)
    ensures CanPerformAll(s, [enter] + actions) && CanPerformAll(s, [enter] + actions + [leave])
    ensures var (there, r) := (PerformedAll(s, [enter] + actions), PerformedAll(s, [enter] + actions + [leave]));
            && r.grid == s.grid == there.alt && TakenFrom(r, there, LastSaved(AltEntered(s, true), actions))
            && r.cursor.visible == s.cursor.visible && r.cursor.shape == s.cursor.shape
  {
    hide AllWide, Safe, Tight, Keeps, Performed, AltLeft, AltEntered, AfterAction, Reaches, SavesCursor, Untouched,
      Unsaved, LinkAfter, WellFormed, LastSaved, PerformedAll, TakenFrom;
    DuringVisit(s, enter, actions, 1049);
    Finishing(s, [enter] + actions, leave, 1049);
    LeavingTakes(PerformedAll(s, [enter] + actions));
    LeavingState(PerformedAll(s, [enter] + actions), true);
    EnteredState(s, true);
    RunSaves(AltEntered(s, true), actions);
  }

  /** The saved cursor stands where the main screen's does, with its pen. */
  ghost predicate Agrees(s: ScreenV, saved: Option<SavedCursor>) {
    match saved
    case None => s.cursor.row == 0 && Min(s.cursor.col, SatSub(s.grid.cols, 1)) == 0 && s.pen == DEFAULT_PEN
    case Some(v) =>
      && Min(v.row, SatSub(s.grid.rows, 1)) == s.cursor.row
      && Min(v.col, SatSub(s.grid.cols, 1)) == Min(s.cursor.col, SatSub(s.grid.cols, 1))
      && Pen(v.attrs, v.fg, v.bg) == s.pen
  }

  lemma TakenBack(s: ScreenV, there: ScreenV, r: ScreenV, saved: Option<SavedCursor>)
    requires TakenFrom(r, there, saved) && there.alt == s.grid
    requires r.cursor.visible == s.cursor.visible && r.cursor.shape == s.cursor.shape
    ensures r.cursor == s.cursor.(col := Min(s.cursor.col, SatSub(s.grid.cols, 1))) && r.pen == s.pen
            <==> Agrees(s, saved)
  {
  }

  /** So cursor and pen come back exactly when what was saved last agrees with them. */
  lemma CursorComesBack(s: ScreenV, enter: Action, actions: seq<Action>, leave: Action)
    requires Safe(s) && !s.modes.altScreen && AllWellFormed(actions)
    requires Toggles(enter, 1049, true) && Toggles(leave, 1049, false)
    requires Untouched(Entered(LinkOf(s)), actions) && LinkAfter(Entered(LinkOf(s)), actions).flags.onAlt
    ensures Settled(AltEntered(s, true)) && CanPerformAll(AltEntered(s, true), actions)
    ensures CanPerformAll(s, [enter] + actions + [leave])
    ensures var r := PerformedAll(s, [enter] + actions + [leave]);
            r.cursor == s.cursor.(col := Min(s.cursor.col, SatSub(s.grid.cols, 1))) && r.pen == s.pen
            <==> Agrees(s, LastSaved(AltEntered(s, true), actions))
  {
    hide AllWide, Safe, Tight, Keeps, Performed, AltEntered, LastSaved, PerformedAll, TakenFrom, Agrees, Untouched,
      LinkAfter, WellFormed, Toggles;
    LastSaveWins(s, enter, actions, leave);
    TakenBack(s, PerformedAll(s, [enter] + actions), PerformedAll(s, [enter] + actions + [leave]),
              LastSaved(AltEntered(s, true), actions));
  }

  /** A visit that saves nothing takes everything entering saved. */
  lemma NothingSavedComesBack(s: ScreenV, actions: seq<Action>)
    requires Safe(s) && !s.modes.altScreen && AllWellFormed(actions) && Unsaved(Entered(LinkOf(s)), actions)
    ensures Settled(AltEntered(s, true)) && CanPerformAll(AltEntered(s, true), actions)
    ensures LastSaved(AltEntered(s, true), actions) == Some(CursorTaken(s)) && Agrees(s, Some(CursorTaken(s)))
  {
    hide AllWide, Tight, Keeps, Performed, AltEntered, LastSaved, PerformedAll, WellFormed, Unsaved;
    EnteredState(s, true);
    NothingSaved(AltEntered(s, true), actions);
  }

  // ----- When the link is down -----

  /** DECSTR takes the link down; so does XTRESTORE of modes saved on the main screen. */
  lemma ResetsTakeLinkDown(l: Link, a: Action)
    requires IsSoftReset(a) || (IsModesRestore(a) && l.saved.Some? && !l.saved.value.onAlt)
    ensures Untouched(l, [a]) && !LinkAfter(l, [a]).flags.onAlt
  {
    assert [a][1..] == [];
    assert Untouched(AfterAction(l, a), []) && LinkAfter(AfterAction(l, a), []) == AfterAction(l, a);
  }

  /** And then the next visit wipes what was on the main screen. */
  lemma StrandedIsWiped(s: ScreenV, enter: Action, actions: seq<Action>, leave: Action, mode: U16, again: Action,
                        next: U16)
    requires Safe(s) && !s.modes.altScreen && AllWellFormed(actions)
    requires Toggles(enter, mode, true) && Toggles(leave, mode, false) && Toggles(again, next, true)
    requires Untouched(Entered(LinkOf(s)), actions) && !LinkAfter(Entered(LinkOf(s)), actions).flags.onAlt
    ensures CanPerformAll(s, [enter] + actions) && CanPerformAll(s, [enter] + actions + [leave] + [again])
    ensures var r := PerformedAll(s, [enter] + actions + [leave] + [again]);
            r.grid == AllCleared(s.grid) && r.alt == PerformedAll(s, [enter] + actions).grid
  {
    hide AllWide, Safe, Tight, Keeps, Performed, PerformedAll, CanPerformAll, AltLeft, AltEntered, Untouched, LinkAfter,
      WellFormed, AllCleared, AllWellFormed;
    VisitToAltScreen(s, enter, actions, leave, mode);
    var r := PerformedAll(s, [enter] + actions + [leave]);
    ClampedCanPerform(r, again);
    OneAction(r, again);
    PerformedConcat(s, [enter] + actions + [leave], [again]);
    ToggleStep(r, again, next, true);
    EnteredState(r, next == 1049);
  }

  /** XTSAVE, DECSTR and XTRESTORE, all on the alternate screen: the link is up again, but
      nothing is saved any more. */
  lemma SavedCursorIsLost(s: ScreenV, save: Action, reset: Action, restore: Action)
    requires Settled(s) && s.modes.altScreen && IsModesSave(save) && IsSoftReset(reset) && IsModesRestore(restore)
    ensures var (l, actions) := (LinkOf(s), [save] + [reset] + [restore]);
            && CanPerformAll(s, actions) && Untouched(l, actions) && LinkAfter(l, actions) == l.(saved := None)
            && LastSaved(s, actions) == None
  {
    hide Safe, Performed, PerformedAll;
    var (l, actions) := (LinkOf(s), [save] + [reset] + [restore]);
    assert actions[1..] == [reset, restore] && [reset, restore][1..] == [restore] && [restore][1..] == [];
    var l1 := AfterAction(l, save);
    var l2 := AfterAction(l1, reset);
    assert LinkAfter(AfterAction(l2, restore), []) == AfterAction(l2, restore)
           && Untouched(AfterAction(l2, restore), []);
    assert LinkAfter(l2, [restore]) == AfterAction(l2, restore) && Untouched(l2, [restore]) && Unsaved(l2, [restore]);
    assert !Unsaved(l1, [reset, restore]);
    ActionStep(s, save);
    var s1 := Performed(s, save);
    assert LastSaved(s, actions) == LastSaved(s1, [reset, restore]);
  }
}
