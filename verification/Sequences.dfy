/** Control sequences written from numbers, and the action each is parsed to. */
module Sequences {
  import opened Options
  import opened Utf8
  import opened VtParams
  import opened VtParser
  import opened ParserRoundTrips
  import opened ScreenState
  import opened Performing
  import opened Runs

  // ----- Numbers -----

  function Decimal(n: nat): (digits: seq<Digit>)
    ensures digits != []
  {
    if n < 10 then [n] else Decimal(n / 10) + [n % 10]
  }

  lemma {:induction false} DecimalReads(n: nat)
    ensures NumberOf(Decimal(n)) == n
  {
    if n < 10 {
      assert Decimal(n)[..0] == [];
    } else {
      DecimalReads(n / 10);
      assert Decimal(n)[..|Decimal(n)| - 1] == Decimal(n / 10);
    }
  }

  /** Numbers as parameters; a flag stands for a colon before the number instead of a semicolon. */
  function ItemsOf(values: seq<U16>, flags: seq<bool>): (items: seq<Item>)
    requires |flags| == |values|
    ensures |items| == |values|
  {
    seq(|values|, i requires 0 <= i < |values| => Item(Decimal(values[i]), flags[i]))
  }

  /** The parameters the parser has room for. */
  function FirstParams<T>(s: seq<T>): seq<T> {
    s[..Min(|s|, MAX_PARAMS)]
  }

  lemma ItemsRead(values: seq<U16>, flags: seq<bool>)
    requires |flags| == |values| > 0 && !flags[0]
    ensures Values(ItemsOf(values, flags)) == FirstParams(values)
    ensures Colons(ItemsOf(values, flags)) == FirstParams(flags)
  {
    var items := ItemsOf(values, flags);
    forall i | 0 <= i < |values|
      ensures ValueOf(items[i]) == values[i]
    {
      DecimalReads(values[i]);
    }
  }

  // ----- Sequences -----

  function CsiBytes(values: seq<U16>, flags: seq<bool>, final: Byte): seq<Byte>
    requires |flags| == |values|
  {
    [0x1B, 0x5B] + Body(ItemsOf(values, flags)) + [final]
  }

  function PrivateBytes(values: seq<U16>, final: Byte): seq<Byte> {
    [0x1B, 0x5B, 0x3F] + Body(ItemsOf(values, seq(|values|, _ => false))) + [final]
  }

  /** A control sequence with exactly these parameters and these intermediates. */
  ghost predicate IsCsiWith(a: Action, params: seq<U16>, flags: seq<bool>, inter: seq<Byte>, action: Byte) {
    && WellFormed(a) && a.CsiDispatch? && !a.ignore && a.action == action
    && a.params.Finished() == params && a.params.FinishedSubparamFlags() == flags
    && a.intermediates.Slice() == inter
  }

  lemma CsiParsed(p: PState, values: seq<U16>, flags: seq<bool>, final: Byte) returns (a: Action)
    requires p.Valid() && p.state != Utf8State && |flags| == |values| > 0 && !flags[0] && IsFinal(final)
    ensures Run(p, CsiBytes(values, flags, final)).0.state == Ground && Run(p, CsiBytes(values, flags, final)).1 == [a]
    ensures IsCsiWith(a, FirstParams(values), FirstParams(flags), [], final)
  {
    hide Run, Body, PushAll, Values, Colons, FirstParams, ItemsOf, Decimal;
    var items := ItemsOf(values, flags);
    LastItem(values, flags);
    ItemsRead(values, flags);
    ControlSequence(p, items, final);
    CsiRoundTrip(p, items, final);
    a := Run(p, CsiBytes(values, flags, final)).1[0];
  }

  lemma LastItem(values: seq<U16>, flags: seq<bool>)
    requires |flags| == |values| > 0
    ensures ItemsOf(values, flags)[|values| - 1].digits != []
  {
  }

  lemma PrivateParsed(p: PState, values: seq<U16>, final: Byte) returns (a: Action)
    requires p.Valid() && p.state != Utf8State && values != [] && IsFinal(final)
    ensures Run(p, PrivateBytes(values, final)).0.state == Ground && Run(p, PrivateBytes(values, final)).1 == [a]
    ensures WellFormed(a) && a.CsiDispatch? && !a.ignore && a.action == final
            && a.params.Finished() == FirstParams(values) && a.intermediates.Slice() == [0x3F]
  {
    hide Run, Body, PushAll, Values, Colons, FirstParams, ItemsOf, Decimal;
    var flags := seq(|values|, _ => false);
    LastItem(values, flags);
    ItemsRead(values, flags);
    PrivateSequence(p, ItemsOf(values, flags), final);
    a := Run(p, PrivateBytes(values, final)).1[0];
  }

  /** ESC [ and a final byte at once. */
  lemma BareParsed(p: PState, final: Byte) returns (a: Action)
    requires p.Valid() && p.state != Utf8State && IsFinal(final)
    ensures Run(p, [0x1B, 0x5B] + [final]).0.state == Ground && Run(p, [0x1B, 0x5B] + [final]).1 == [a]
    ensures IsCsiWith(a, [], [], [], final)
  {
    hide Run, Cleared;
    Introducer(p);
    var p1 := Run(p, [0x1B, 0x5B]).0;
    FinalByte(p1, final);
    RunSingle(p1, final);
    RunConcat(p, [0x1B, 0x5B], [final]);
    a := CsiDispatch(p1.params, p1.inter, false, final);
    NothingCollected(p);
  }

  lemma NothingCollected(p: PState)
    requires p.Valid()
    ensures var params := Cleared(p.params);
            params.Valid() && params.Finished() == [] && params.FinishedSubparamFlags() == []
    ensures p.inter.Clear().Valid() && p.inter.Clear().Slice() == []
  {
  }

  /** ESC and a final byte. */
  lemma EscParsed(p: PState, final: Byte) returns (a: Action)
    requires p.Valid() && p.state != Utf8State && final in {0x37, 0x63}
    ensures Run(p, [0x1B, final]).0.state == Ground && Run(p, [0x1B, final]).1 == [a]
    ensures WellFormed(a) && a.EscDispatch? && !a.ignore && a.intermediates.Slice() == [] && a.byte == final
  {
    hide Run, Cleared;
    EscBegins(p);
    TwoBytes(p, 0x1B, final);
    a := EscDispatch(p.inter.Clear(), false, final);
    NothingCollected(p);
  }

  /** CSI ! p. */
  lemma SoftResetParsed(p: PState) returns (a: Action)
    requires p.Valid() && p.state != Utf8State
    ensures Run(p, [0x1B, 0x5B] + [0x21, 0x70]).0.state == Ground && Run(p, [0x1B, 0x5B] + [0x21, 0x70]).1 == [a]
    ensures WellFormed(a) && a.CsiDispatch? && !a.ignore && a.action == 0x70 && a.intermediates.Slice() == [0x21]
  {
    hide Run, Cleared;
    Introducer(p);
    var p1 := Run(p, [0x1B, 0x5B]).0;
    NothingCollected(p);
    TwoBytes(p1, 0x21, 0x70);
    RunConcat(p, [0x1B, 0x5B], [0x21, 0x70]);
    a := Run(p, [0x1B, 0x5B] + [0x21, 0x70]).1[0];
  }

  // ----- Input in parts -----

  /** The screen after input that is parsed to one action. */
  lemma FedOne(s: ScreenV, p: PState, bytes: seq<Byte>, a: Action)
    requires p.Valid() && Run(p, bytes).1 == [a] && CanPerform(s, a) && (Docked(s) || StaysSafe(s, a))
    ensures CanBeFed(s, p, bytes) && Fed(s, p, bytes) == Performed(s, a)
  {
    hide Safe, Run, Performed;
    assert [a][1..] == [];
    var r := Performed(s, a);
    assert ActionsStaySafe(r, []) && PerformedAll(r, []) == r;
  }
}
