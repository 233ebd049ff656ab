/** Whole sessions: input and resizes in any order. */
module Sessions {
  import opened Options
  import opened Utf8
  import opened Cells
  import opened GridValues
  import opened GridResize
  import opened VtParams
  import opened VtParser
  import opened ScreenState
  import opened ScreenModes
  import opened Performing
  import opened Runs

  datatype Event = Bytes(bytes: seq<Byte>) | Resize(cols: nat, rows: nat)

  /** No resize is to nothing. */
  predicate Sized(events: seq<Event>) {
    forall i :: 0 <= i < |events| && events[i].Resize? ==> events[i].cols >= 1 && events[i].rows >= 1
  }

  /** Every screen of the session is safe: between events, between actions, between modes. */
  ghost predicate SafeThroughout(s: ScreenV, p: PState, events: seq<Event>)
    requires p.Valid() && Sized(events)
    decreases |events|
  {
    Safe(s) &&
    (events != [] ==>
       match events[0]
       case Bytes(bytes) =>
         ActionsStaySafe(s, Run(p, bytes).1) && SafeThroughout(Fed(s, p, bytes), Run(p, bytes).0, events[1..])
       case Resize(cols, rows) => SafeThroughout(SizeChanged(s, cols, rows), p, events[1..]))
  }

  // ----- Landing -----

  /** Each leave by mode 47 or 1047, with the alternate screen showing, finds the waiting cursor
      on a row of the size at that time. */
  ghost predicate ModesLand(s: ScreenV, ps: seq<U16>, enable: bool)
    requires Safe(s)
    decreases |ps|
  {
    ps != [] ==> Lands(s, ps[0], enable) && ModesLand(PrivateModeSet(s, ps[0], enable), ps[1..], enable)
  }

  lemma {:induction false} ModesLandSafely(s: ScreenV, ps: seq<U16>, enable: bool)
    requires Safe(s)
    ensures ModesLand(s, ps, enable) <==> ModesStaySafe(s, ps, enable)
    decreases |ps|
  {
    hide Safe, PrivateModeSet, Lands;
    if ps != [] {
      LandingIsSafe(s, ps[0], enable);
      if Lands(s, ps[0], enable) {
        ModesLandSafely(PrivateModeSet(s, ps[0], enable), ps[1..], enable);
      }
    }
  }

  ghost predicate ActionLands(s: ScreenV, a: Action)
    requires Safe(s)
  {
    IsPrivateModes(a) ==> ModesLand(s, a.params.Finished(), a.action == 0x68)
  }

  lemma ActionLandsSafely(s: ScreenV, a: Action)
    requires Safe(s) && WellFormed(a)
    ensures ActionLands(s, a) <==> StaysSafe(s, a)
    ensures StaysSafe(s, a) ==> CanPerform(s, a)
  {
    hide Safe, ModesLand, ModesStaySafe;
    if IsPrivateModes(a) {
      ModesLandSafely(s, a.params.Finished(), a.action == 0x68);
    }
  }

  ghost predicate ActionsLand(s: ScreenV, actions: seq<Action>)
    requires Safe(s) && AllWellFormed(actions)
    decreases |actions|
  {
    actions != [] ==>
      ActionLands(s, actions[0]) &&
      (ActionLandsSafely(s, actions[0]); ActionsLand(Performed(s, actions[0]), actions[1..]))
  }

  lemma {:induction false} ActionsLandSafely(s: ScreenV, actions: seq<Action>)
    requires Safe(s) && AllWellFormed(actions)
    ensures ActionsLand(s, actions) <==> ActionsStaySafe(s, actions)
    decreases |actions|
  {
    hide Safe, Performed, WellFormed, ActionLands, StaysSafe;
    if actions != [] {
      ActionLandsSafely(s, actions[0]);
      if ActionLands(s, actions[0]) {
        ActionsLandSafely(Performed(s, actions[0]), actions[1..]);
      }
    }
  }

  /** The same for a whole session. */
  ghost predicate LandsThroughout(s: ScreenV, p: PState, events: seq<Event>)
    requires p.Valid() && Sized(events) && Safe(s)
    decreases |events|
  {
    events != [] ==>
      match events[0]
      case Bytes(bytes) =>
        RunWellFormed(p, bytes);
        ActionsLand(s, Run(p, bytes).1) &&
        (ActionsLandSafely(s, Run(p, bytes).1);
         LandsThroughout(Fed(s, p, bytes), Run(p, bytes).0, events[1..]))
      case Resize(cols, rows) =>
        ResizeKeepsSafe(s, cols, rows);
        LandsThroughout(SizeChanged(s, cols, rows), p, events[1..])
  }

  /** A session is safe throughout exactly when every leave by mode 47 or 1047 lands on the screen. */
  lemma {:induction false} SessionsAreSafe(s: ScreenV, p: PState, events: seq<Event>)
    requires p.Valid() && Sized(events) && Safe(s)
    ensures SafeThroughout(s, p, events) <==> LandsThroughout(s, p, events)
    decreases |events|
  {
    hide Safe, Run, Fed, SizeChanged, ActionsLand, ActionsStaySafe, AllWellFormed;
    if events != [] {
      match events[0]
      case Bytes(bytes) =>
        RunWellFormed(p, bytes);
        ActionsLandSafely(s, Run(p, bytes).1);
        if ActionsStaySafe(s, Run(p, bytes).1) {
          SessionsAreSafe(Fed(s, p, bytes), Run(p, bytes).0, events[1..]);
        }
      case Resize(cols, rows) =>
        ResizeKeepsSafe(s, cols, rows);
        SessionsAreSafe(SizeChanged(s, cols, rows), p, events[1..]);
    }
  }

  // ----- Sessions that are safe through every resize -----

  /** Nothing of the input, however it is cut up, resets mode 47 or 1047. */
  ghost predicate OnlyClampedLeaves(p: PState, events: seq<Event>)
    requires p.Valid()
    decreases |events|
  {
    events != [] ==>
      match events[0]
      case Bytes(bytes) => NeverLeavesUnclamped(Run(p, bytes).1) && OnlyClampedLeaves(Run(p, bytes).0, events[1..])
      case Resize(_, _) => OnlyClampedLeaves(p, events[1..])
  }

  lemma {:induction false} ClampedFromHere(s: ScreenV, p: PState, events: seq<Event>)
    requires p.Valid() && Sized(events) && Safe(s) && OnlyClampedLeaves(p, events)
    ensures SafeThroughout(s, p, events)
    decreases |events|
  {
    hide Safe, Run, Fed, SizeChanged, ActionsStaySafe, NeverLeavesUnclamped, AllWellFormed;
    if events != [] {
      match events[0]
      case Bytes(bytes) =>
        RunWellFormed(p, bytes);
        ClampedActionsStaySafe(s, Run(p, bytes).1);
        ClampedFromHere(Fed(s, p, bytes), Run(p, bytes).0, events[1..]);
      case Resize(cols, rows) =>
        ResizeKeepsSafe(s, cols, rows);
        ClampedFromHere(SizeChanged(s, cols, rows), p, events[1..]);
    }
  }

  /** A session that leaves the alternate screen by mode 1049 alone is safe through every resize,
      during its visits and after them. */
  lemma ClampedSessionsAreSafe(cols: nat, rows: nat, events: seq<Event>)
    requires cols >= 1 && rows >= 1 && Sized(events) && OnlyClampedLeaves(NewParser(), events)
    ensures SafeThroughout(NewScreen(cols, rows), NewParser(), events)
  {
    hide Run, SafeThroughout, OnlyClampedLeaves;
    NewScreenTight(cols, rows);
    ClampedFromHere(NewScreen(cols, rows), NewParser(), events);
  }

  /** The height never shrinks. */
  predicate NeverLower(rows: nat, events: seq<Event>)
    decreases |events|
  {
    events != [] ==>
      match events[0]
      case Bytes(_) => NeverLower(rows, events[1..])
      case Resize(_, newRows) => rows <= newRows && NeverLower(newRows, events[1..])
  }

  lemma {:induction false} HigherFromHere(s: ScreenV, p: PState, events: seq<Event>)
    requires p.Valid() && Sized(events) && Settled(s) && NeverLower(s.grid.rows, events)
    ensures SafeThroughout(s, p, events)
    decreases |events|
  {
    hide Safe, Run, Fed, SizeChanged, ActionsStaySafe, AllWellFormed;
    if events != [] {
      match events[0]
      case Bytes(bytes) =>
        RunWellFormed(p, bytes);
        SettledStaysSafe(s, Run(p, bytes).1);
        HigherFromHere(Fed(s, p, bytes), Run(p, bytes).0, events[1..]);
      case Resize(cols, rows) =>
        ResizeKeepsSafe(s, cols, rows);
        HigherFromHere(SizeChanged(s, cols, rows), p, events[1..]);
    }
  }

  /** Any input at all is safe while the height does not shrink. */
  lemma HigherSessionsAreSafe(cols: nat, rows: nat, events: seq<Event>)
    requires cols >= 1 && rows >= 1 && Sized(events) && NeverLower(rows, events)
    ensures SafeThroughout(NewScreen(cols, rows), NewParser(), events)
  {
    hide Run, SafeThroughout, NeverLower;
    NewScreenTight(cols, rows);
    HigherFromHere(NewScreen(cols, rows), NewParser(), events);
  }
}
