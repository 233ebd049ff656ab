/** Input as a program sends it, piece by piece, and the operation of the screen each piece reaches. */
module Received {
  import opened Options
  import opened Utf8
  import opened VtParams
  import opened VtParser
  import opened ParserRoundTrips
  import opened ParserControls
  import opened ScreenState
  import opened ScreenEdits
  import opened Performing
  import opened Runs
  import opened Sequences

  /** The screen after input. */
  ghost predicate Gives(s: ScreenV, p: PState, bytes: seq<Byte>, r: ScreenV) {
    p.Valid() && CanBeFed(s, p, bytes) && r == Fed(s, p, bytes)
  }

  lemma ActionGives(s: ScreenV, p: PState, bytes: seq<Byte>, a: Action)
    requires Safe(s) && p.Valid() && Run(p, bytes).1 == [a] && WellFormed(a) && !LeavesUnclamped(a)
    ensures CanPerform(s, a) && Gives(s, p, bytes, Performed(s, a))
  {
    hide Safe, Run, Fed, Performed, WellFormed, LeavesUnclamped, CanBeFed;
    ClampedCanPerform(s, a);
    FedOne(s, p, bytes, a);
  }

  // ----- Control sequences -----

  /** ESC [, at most one marker, numbers between semicolons, intermediates and a final byte. */
  function Csi(marker: seq<Byte>, values: seq<U16>, inters: seq<Byte>, final: Byte): seq<Byte> {
    [0x1B, 0x5B] + (marker + Body(ItemsOf(values, seq(|values|, _ => false))) + inters) + [final]
  }

  /** In any state but the middle of a character. */
  ghost predicate Ready(p: PState) {
    p.Valid() && p.state != Utf8State
  }

  ghost predicate InOrder(marker: seq<Byte>, inters: seq<Byte>) {
    && |marker| <= 1 && (marker != [] ==> 0x3C <= marker[0] <= 0x3F)
    && forall i :: 0 <= i < |inters| ==> IsIntermediate(inters[i])
  }

  ghost predicate CanSend(s: ScreenV, p: PState, marker: seq<Byte>, inters: seq<Byte>) {
    Safe(s) && Ready(p) && InOrder(marker, inters)
  }

  /** Parameter `i` as sent: absent or zero it is the default, and the 33rd and later are not read. */
  function Arg(values: seq<U16>, i: nat, default: U16): U16 {
    if i < |values| && i < MAX_PARAMS && values[i] != 0 then values[i] else default
  }

  /** What a sequence carries: its parameters, and of marker and intermediates the first four. */
  ghost predicate Carries(a: ParamsVal, values: seq<U16>) {
    a.Valid() && a.Finished() == FirstParams(values)
    && forall i: nat, d: U16 :: a.GetOr(i, d) == Arg(values, i, d)
  }

  lemma ArgsRead(a: ParamsVal, values: seq<U16>)
    requires a.Valid() && a.Finished() == FirstParams(values)
    ensures Carries(a, values)
  {
    hide ParamsVal.Finished, ParamsVal.Get;
    forall i: nat, d: U16
      ensures a.GetOr(i, d) == Arg(values, i, d)
    {
      GetReadsFinished(a, i, 0);
    }
  }

  lemma NumbersHeld(p: ParamsVal, values: seq<U16>)
    requires p.Valid()
    ensures PushAll(Cleared(p), Body(ItemsOf(values, seq(|values|, _ => false)))).Finished() == FirstParams(values)
  {
    var flags := seq(|values|, _ => false);
    if values != [] {
      hide PushAll, Body, ItemsOf, FirstParams, ParamsVal.Finished, Values, Colons;
      LastItem(values, flags);
      ItemsRead(values, flags);
      ParametersRoundTrip(p, ItemsOf(values, flags));
    }
  }

  lemma CsiParses(p: PState, marker: seq<Byte>, values: seq<U16>, inters: seq<Byte>, final: Byte) returns (a: Action)
    requires Ready(p) && InOrder(marker, inters) && IsFinal(final)
    ensures Run(p, Csi(marker, values, inters, final)).0.state == Ground
    ensures Run(p, Csi(marker, values, inters, final)).1 == [a]
    ensures WellFormed(a) && a.CsiDispatch? && !a.ignore && a.action == final && Carries(a.params, values)
            && a.intermediates.Slice() == FirstFour(marker + inters)
  {
    hide Run, PushAll, Body, ItemsOf, FirstFour, Cleared, Carries, FirstParams, ParamsVal.Finished;
    var items := ItemsOf(values, seq(|values|, _ => false));
    BodyBytes(items);
    WholeCsi(p, marker, Body(items), inters, final);
    a := Run(p, Csi(marker, values, inters, final)).1[0];
    NumbersHeld(p.params, values);
    ClearedValid(p);
    ArgsRead(a.params, values);
  }

  lemma ClearedValid(p: PState)
    requires p.Valid()
    ensures p.params.Valid() && Cleared(p.params).Valid()
  {
  }

  /** Every control sequence but SM and RM, whose modes ask more of the screen. */
  lemma CsiReceived(s: ScreenV, p: PState, marker: seq<Byte>, values: seq<U16>, inters: seq<Byte>, final: Byte)
    returns (a: ParamsVal)
    requires CanSend(s, p, marker, inters) && IsFinal(final) && final != 0x68 && final != 0x6C
    ensures Carries(a, values)
    ensures Gives(s, p, Csi(marker, values, inters, final), CsiDone(s, a, FirstFour(marker + inters), final))
  {
    hide Safe, Run, Gives, Csi, CsiDone, Carries, FirstFour;
    var act := CsiParses(p, marker, values, inters, final);
    ActionGives(s, p, Csi(marker, values, inters, final), act);
    a := act.params;
  }

  /** Whether a sequence is private is said by its marker alone. */
  lemma MarkerSays(marker: seq<Byte>, inters: seq<Byte>)
    requires InOrder(marker, inters)
    ensures 0x3F in FirstFour(marker + inters) <==> marker == [0x3F]
  {
    if marker == [0x3F] {
      assert FirstFour(marker + inters)[0] == 0x3F;
    }
  }

  // ----- Escape sequences -----

  function Esc(inters: seq<Byte>, final: Byte): seq<Byte> {
    [0x1B] + inters + [final]
  }

  lemma EscReceived(s: ScreenV, p: PState, inters: seq<Byte>, final: Byte)
    requires Safe(s) && Ready(p) && InOrder([], inters) && 0x30 <= final <= 0x7E
    requires inters == [] ==> final !in {0x50, 0x58, 0x5B, 0x5D, 0x5E, 0x5F}
    ensures Gives(s, p, Esc(inters, final), EscDone(s, FirstFour(inters), final))
  {
    hide Safe, Run, Gives, EscDone, FirstFour;
    WholeEsc(p, inters, final);
    ActionGives(s, p, Esc(inters, final), Run(p, Esc(inters, final)).1[0]);
  }

  // ----- Controls -----

  /** A control between characters. */
  lemma ControlReceived(s: ScreenV, p: PState, b: Byte)
    requires Safe(s) && p.Valid() && p.state == Ground && IsControl(b)
    ensures Gives(s, p, [b], Executed(s, b))
  {
    hide Safe, Run, Gives, Executed, Step;
    RunSingle(p, b);
    ControlExecutes(p, b);
    ActionGives(s, p, [b], Execute(b));
  }

  // ----- Characters -----

  lemma CharReceived(s: ScreenV, p: PState, c: Scalar)
    requires Safe(s) && p.Valid() && p.state == Ground && IsPrintable(c)
    ensures Gives(s, p, Encode(c), CharWritten(s, c))
  {
    hide Safe, Run, Gives, CharWritten, Encode;
    CharacterPrints(p, c);
    ActionGives(s, p, Encode(c), Print(c));
  }
}
