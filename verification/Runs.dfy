/** Whole runs: bytes through the parser into a screen. */
module Runs {
  import opened Options
  import opened Utf8
  import opened VtParams
  import opened VtParser
  import opened GridValues
  import opened ScreenState
  import opened Performing

  /** Every action is whole. */
  ghost predicate AllWellFormed(actions: seq<Action>) {
    forall i :: 0 <= i < |actions| ==> WellFormed(actions[i])
  }

  ghost predicate NeverAllowsWidthSwitch(actions: seq<Action>) {
    forall i :: 0 <= i < |actions| ==> !AllowsWidthSwitch(actions[i])
  }

  /** Every screen on the way through the actions is safe. */
  ghost predicate ActionsStaySafe(s: ScreenV, actions: seq<Action>)
    decreases |actions|
  {
    && Safe(s)
    && (actions != [] ==> StaysSafe(s, actions[0]) && ActionsStaySafe(Performed(s, actions[0]), actions[1..]))
  }

  lemma {:induction false} DockedModesStaySafe(s: ScreenV, ps: seq<U16>, enable: bool)
    requires Settled(s)
    ensures ModesStaySafe(s, ps, enable)
    decreases |ps|
  {
    hide Safe, PrivateModeSet;
    if ps != [] {
      DockedModesStaySafe(PrivateModeSet(s, ps[0], enable), ps[1..], enable);
    }
  }

  /** A settled screen stays safe whatever the actions. */
  lemma {:induction false} SettledStaysSafe(s: ScreenV, actions: seq<Action>)
    requires Settled(s) && AllWellFormed(actions)
    ensures ActionsStaySafe(s, actions)
    decreases |actions|
  {
    hide Safe, Performed, ModesStaySafe;
    if actions != [] {
      if IsPrivateModes(actions[0]) {
        DockedModesStaySafe(s, actions[0].params.Finished(), actions[0].action == 0x68);
      }
      SettledStaysSafe(Performed(s, actions[0]), actions[1..]);
    }
  }

  ghost predicate CanPerformAll(s: ScreenV, actions: seq<Action>) {
    Safe(s) && AllWellFormed(actions) && (Docked(s) || ActionsStaySafe(s, actions))
  }

  /** One action after the other. */
  function PerformedAll(s: ScreenV, actions: seq<Action>): (r: ScreenV)
    requires CanPerformAll(s, actions)
    ensures Safe(r) && r.grid.rows == s.grid.rows && (Docked(s) ==> Docked(r))
    decreases |actions|
  {
    if actions == [] then s else PerformedAll(Performed(s, actions[0]), actions[1..])
  }

  lemma StepWellFormed(p: PState, b: Byte)
    requires p.Valid()
    ensures AllWellFormed(Step(p, b).1)
  {
    hide Decode, Pushed, SplitParts;
  }

  /** The parser only emits whole actions. */
  lemma {:induction false} RunWellFormed(p: PState, bytes: seq<Byte>)
    requires p.Valid()
    ensures AllWellFormed(Run(p, bytes).1)
    decreases |bytes|
  {
    hide Step, WellFormed;
    if bytes != [] {
      StepWellFormed(p, bytes[0]);
      RunWellFormed(Step(p, bytes[0]).0, bytes[1..]);
    }
  }

  ghost predicate CanBeFed(s: ScreenV, p: PState, bytes: seq<Byte>)
    requires p.Valid()
  {
    Safe(s) && (Docked(s) || ActionsStaySafe(s, Run(p, bytes).1))
  }

  /** The screen after a string of bytes. */
  function Fed(s: ScreenV, p: PState, bytes: seq<Byte>): (r: ScreenV)
    requires p.Valid() && CanBeFed(s, p, bytes)
    ensures Safe(r) && r.grid.rows == s.grid.rows && (Docked(s) ==> Docked(r))
  {
    RunWellFormed(p, bytes);
    PerformedAll(s, Run(p, bytes).1)
  }

  /** Whole-run safety: any bytes whatever, fed to a new screen that is not empty. */
  lemma AnyBytesAreSafe(cols: nat, rows: nat, bytes: seq<Byte>)
    requires cols >= 1 && rows >= 1
    ensures Settled(NewScreen(cols, rows)) && Settled(Fed(NewScreen(cols, rows), NewParser(), bytes))
    ensures Fed(NewScreen(cols, rows), NewParser(), bytes).grid.rows == rows
  {
    NewScreenTight(cols, rows);
  }

  lemma {:induction false} PerformingKeepsTight(s: ScreenV, actions: seq<Action>)
    requires Tight(s) && AllWellFormed(actions) && NeverAllowsWidthSwitch(actions)
    ensures Tight(PerformedAll(s, actions)) && PerformedAll(s, actions).grid.cols == s.grid.cols
    decreases |actions|
  {
    hide Performed, AllowsWidthSwitch, WellFormed;
    if actions != [] {
      assert !AllowsWidthSwitch(actions[0]);
      PerformingKeepsTight(Performed(s, actions[0]), actions[1..]);
    }
  }

  /** Unless mode 40 is switched on, the size stays and both cursors stay on the screen. */
  lemma CursorsStayOnScreen(cols: nat, rows: nat, bytes: seq<Byte>)
    requires cols >= 1 && rows >= 1
    requires NeverAllowsWidthSwitch(Run(NewParser(), bytes).1)
    ensures Tight(NewScreen(cols, rows))
    ensures var r := Fed(NewScreen(cols, rows), NewParser(), bytes);
            Tight(r) && r.grid.cols == cols && r.grid.rows == rows
  {
    hide Run;
    NewScreenTight(cols, rows);
    RunWellFormed(NewParser(), bytes);
    PerformingKeepsTight(NewScreen(cols, rows), Run(NewParser(), bytes).1);
  }

  // ----- Actions that any screen can take -----

  /** Mode 47 or 1047 is reset: the only actions that can put the cursor on a row the screen lacks. */
  ghost predicate LeavesUnclamped(a: Action) {
    IsPrivateModes(a) && a.action == 0x6C && (47 in a.params.Finished() || 1047 in a.params.Finished())
  }

  ghost predicate NeverLeavesUnclamped(actions: seq<Action>) {
    forall i :: 0 <= i < |actions| ==> !LeavesUnclamped(actions[i])
  }

  lemma {:induction false} ClampedModesStaySafe(s: ScreenV, ps: seq<U16>, enable: bool)
    requires Safe(s) && (enable || (47 !in ps && 1047 !in ps))
    ensures ModesStaySafe(s, ps, enable)
    decreases |ps|
  {
    hide Safe, PrivateModeSet;
    if ps != [] {
      assert ps[0] in ps;
      ClampedModesStaySafe(PrivateModeSet(s, ps[0], enable), ps[1..], enable);
    }
  }

  lemma ClampedCanPerform(s: ScreenV, a: Action)
    requires Safe(s) && WellFormed(a) && !LeavesUnclamped(a)
    ensures StaysSafe(s, a) && CanPerform(s, a)
  {
    hide Safe, ModesStaySafe;
    if IsPrivateModes(a) {
      ClampedModesStaySafe(s, a.params.Finished(), a.action == 0x68);
    }
  }

  lemma {:induction false} ClampedActionsStaySafe(s: ScreenV, actions: seq<Action>)
    requires Safe(s) && AllWellFormed(actions) && NeverLeavesUnclamped(actions)
    ensures ActionsStaySafe(s, actions)
    decreases |actions|
  {
    hide Safe, Performed, WellFormed, LeavesUnclamped, CanPerform;
    if actions != [] {
      ClampedCanPerform(s, actions[0]);
      ClampedActionsStaySafe(Performed(s, actions[0]), actions[1..]);
    }
  }

  lemma WellFormedConcat(a: seq<Action>, b: seq<Action>)
    requires AllWellFormed(a) && AllWellFormed(b)
    ensures AllWellFormed(a + b)
  {
    hide WellFormed;
  }

  lemma FirstCanPerform(s: ScreenV, actions: seq<Action>)
    requires CanPerformAll(s, actions) && actions != []
    ensures CanPerform(s, actions[0]) && CanPerformAll(Performed(s, actions[0]), actions[1..])
  {
    hide Safe, Performed, WellFormed;
  }

  lemma {:induction false} PerformedConcat(s: ScreenV, a: seq<Action>, b: seq<Action>)
    requires CanPerformAll(s, a) && CanPerformAll(PerformedAll(s, a), b)
    ensures CanPerformAll(s, a + b) && PerformedAll(s, a + b) == PerformedAll(PerformedAll(s, a), b)
    decreases |a|
  {
    hide Safe, Performed, WellFormed, AllWellFormed, CanPerform;
    if a == [] {
      assert a + b == b;
    } else {
      assert (a + b)[1..] == a[1..] + b;
      WellFormedConcat(a, b);
      FirstCanPerform(s, a);
      PerformedConcat(Performed(s, a[0]), a[1..], b);
      if Docked(Performed(s, a[0])) {
        SettledStaysSafe(Performed(s, a[0]), a[1..] + b);
      }
    }
  }

  /** Feeding in chunks, cut anywhere, shows the same screen. */
  lemma FeedingInChunks(s: ScreenV, p: PState, a: seq<Byte>, b: seq<Byte>)
    requires p.Valid() && CanBeFed(s, p, a) && CanBeFed(Fed(s, p, a), Run(p, a).0, b)
    ensures CanBeFed(s, p, a + b) && Fed(s, p, a + b) == Fed(Fed(s, p, a), Run(p, a).0, b)
  {
    hide Run, PerformedAll, WellFormed, AllWellFormed;
    RunConcat(p, a, b);
    RunWellFormed(p, a);
    RunWellFormed(Run(p, a).0, b);
    PerformedConcat(s, Run(p, a).1, Run(Run(p, a).0, b).1);
  }
}
