/** The VT parser: its step as a function of the state, and the object that takes it.
    Control sequences follow section 5.4 of ECMA-48. */
module VtParser {
  import opened Options
  import opened Utf8
  import opened VtParams

  const MAX_INTERMEDIATES := 4
  const MAX_OSC_DATA := 65536

  /** A copy of the intermediate bytes; entries from `len` on are left over. */
  datatype Intermediates = Intermediates(data: seq<Byte>, len: nat) {
    ghost predicate Valid() {
      |data| == MAX_INTERMEDIATES && len <= MAX_INTERMEDIATES
    }

    function Slice(): seq<Byte>
      requires Valid()
    {
      data[..len]
    }

    /** A byte beyond the fourth is dropped. */
    function Push(b: Byte): (r: Intermediates)
      requires Valid()
      ensures r.Valid()
    {
      if len < MAX_INTERMEDIATES then Intermediates(data[len := b], len + 1) else this
    }

    function Clear(): Intermediates {
      this.(len := 0)
    }
  }

  datatype Action =
    | Print(c: Scalar)
    | Execute(byte: Byte)
    | CsiDispatch(params: ParamsVal, intermediates: Intermediates, ignore: bool, action: Byte)
    | EscDispatch(intermediates: Intermediates, ignore: bool, byte: Byte)
    | OscDispatch(parts: seq<seq<Byte>>)
    | DcsHook(params: ParamsVal, intermediates: Intermediates, ignore: bool, byte: Byte)
    | DcsPut(byte: Byte)
    | DcsUnhook

  datatype State =
    | Ground | Escape | EscapeIntermediate
    | CsiEntry | CsiParam | CsiIntermediate | CsiIgnore
    | OscString
    | DcsEntry | DcsParam | DcsIntermediate | DcsPassthrough | DcsIgnore
    | SosPmApcString
    | Utf8State

  /** The parser's state as a value. */
  datatype PState = PState(state: State, params: ParamsVal, inter: Intermediates, osc: seq<Byte>,
                           utf8: seq<Byte>, utf8Idx: nat, utf8Len: nat)
  {
    ghost predicate Valid() {
      && params.Valid() && inter.Valid() && |osc| <= MAX_OSC_DATA && |utf8| == 4
      && (state == Utf8State ==> 1 <= utf8Idx < utf8Len <= 4)
    }
  }

  // ----- Byte classes -----

  /** C0 controls that sequences execute in passing (CAN, SUB and ESC act anywhere). */
  predicate IsC0(b: Byte) {
    b < 0x20 && b != 0x18 && b != 0x1A && b != 0x1B
  }

  predicate IsIntermediate(b: Byte) {
    0x20 <= b <= 0x2F
  }

  predicate IsFinal(b: Byte) {
    0x40 <= b <= 0x7E
  }

  predicate IsPrintableAscii(b: Byte) {
    0x20 <= b <= 0x7E
  }

  /** `split(|&b| b == b';')`. */
  function SplitParts(data: seq<Byte>): (parts: seq<seq<Byte>>)
    ensures parts != []
  {
    if data == [] then [[]]
    else
      var rest := SplitParts(data[1..]);
      if data[0] == 0x3B then [[]] + rest else [[data[0]] + rest[0]] + rest[1..]
  }

  // ----- One byte, state by state -----

  type Effect = (PState, seq<Action>)

  function GroundStep(s: PState, b: Byte): Effect
    requires |s.utf8| == 4
  {
    if b < 0x20 then (s, [Execute(b)])
    else if b <= 0x7E then (s, [Print(b)])
    else if b == 0x90 then (s.(state := DcsEntry, params := Cleared(s.params), inter := s.inter.Clear()), [])
    else if b == 0x98 || b == 0x9E || b == 0x9F then (s.(state := SosPmApcString), [])
    else if b == 0x9B then (s.(state := CsiEntry, params := Cleared(s.params), inter := s.inter.Clear()), [])
    else if b == 0x9D then (s.(state := OscString, osc := []), [])
    else if 0x80 <= b <= 0x9A then (s, [Execute(b)])
    else if 0xC0 <= b <= 0xF7 then
      var n := if b < 0xE0 then 2 else if b < 0xF0 then 3 else 4;
      (s.(state := Utf8State, utf8 := s.utf8[0 := b], utf8Idx := 1, utf8Len := n), [])
    else (s, [])
  }

  function EscapeStep(s: PState, b: Byte): Effect
    requires s.inter.Valid()
  {
    if IsC0(b) then (s, [Execute(b)])
    else if IsIntermediate(b) then (s.(state := EscapeIntermediate, inter := s.inter.Push(b)), [])
    else if b == 0x50 then (s.(state := DcsEntry, params := Cleared(s.params), inter := s.inter.Clear()), [])
    else if b == 0x58 || b == 0x5E || b == 0x5F then (s.(state := SosPmApcString), [])
    else if b == 0x5B then (s.(state := CsiEntry, params := Cleared(s.params), inter := s.inter.Clear()), [])
    else if b == 0x5D then (s.(state := OscString, osc := []), [])
    else if 0x30 <= b <= 0x7E then (s.(state := Ground), [EscDispatch(s.inter, false, b)])
    else if b == 0x7F then (s, [])
    else (s.(state := Ground), [])
  }

  function EscapeIntermediateStep(s: PState, b: Byte): Effect
    requires s.inter.Valid()
  {
    if IsC0(b) then (s, [Execute(b)])
    else if IsIntermediate(b) then (s.(inter := s.inter.Push(b)), [])
    else if 0x30 <= b <= 0x7E then (s.(state := Ground), [EscDispatch(s.inter, false, b)])
    else if b == 0x7F then (s, [])
    else (s.(state := Ground), [])
  }

  function CsiEntryStep(s: PState, b: Byte): Effect
    requires s.inter.Valid() && s.params.Valid()
  {
    if IsC0(b) then (s, [Execute(b)])
    else if IsIntermediate(b) then (s.(state := CsiIntermediate, inter := s.inter.Push(b)), [])
    else if 0x30 <= b <= 0x3B then (s.(state := CsiParam, params := Pushed(s.params, b)), [])
    else if 0x3C <= b <= 0x3F then (s.(state := CsiParam, inter := s.inter.Push(b)), [])
    else if IsFinal(b) then (s.(state := Ground), [CsiDispatch(s.params, s.inter, false, b)])
    else if b == 0x7F then (s, [])
    else (s.(state := Ground), [])
  }

  function CsiParamStep(s: PState, b: Byte): Effect
    requires s.inter.Valid() && s.params.Valid()
  {
    if IsC0(b) then (s, [Execute(b)])
    else if IsIntermediate(b) then (s.(state := CsiIntermediate, inter := s.inter.Push(b)), [])
    else if 0x30 <= b <= 0x3B then (s.(params := Pushed(s.params, b)), [])
    else if 0x3C <= b <= 0x3F then (s.(state := CsiIgnore), [])
    else if IsFinal(b) then (s.(state := Ground), [CsiDispatch(s.params, s.inter, false, b)])
    else if b == 0x7F then (s, [])
    else (s.(state := Ground), [])
  }

  function CsiIntermediateStep(s: PState, b: Byte): Effect
    requires s.inter.Valid()
  {
    if IsC0(b) then (s, [Execute(b)])
    else if IsIntermediate(b) then (s.(inter := s.inter.Push(b)), [])
    else if 0x30 <= b <= 0x3F then (s.(state := CsiIgnore), [])
    else if IsFinal(b) then (s.(state := Ground), [CsiDispatch(s.params, s.inter, false, b)])
    else if b == 0x7F then (s, [])
    else (s.(state := Ground), [])
  }

  function CsiIgnoreStep(s: PState, b: Byte): Effect {
    if IsC0(b) then (s, [Execute(b)])
    else if IsFinal(b) then (s.(state := Ground), [])
    else (s, [])
  }

  function OscStep(s: PState, b: Byte): Effect {
    if b == 0x07 || b == 0x9C then (s.(state := Ground), [OscDispatch(SplitParts(s.osc))])
    else if b < 0x20 then (s, [])
    else if |s.osc| < MAX_OSC_DATA then (s.(osc := s.osc + [b]), [])
    else (s, [])
  }

  function DcsEntryStep(s: PState, b: Byte): Effect
    requires s.inter.Valid() && s.params.Valid()
  {
    if IsIntermediate(b) then (s.(state := DcsIntermediate, inter := s.inter.Push(b)), [])
    else if 0x30 <= b <= 0x39 || b == 0x3B then (s.(state := DcsParam, params := Pushed(s.params, b)), [])
    else if 0x3C <= b <= 0x3F then (s.(state := DcsParam, inter := s.inter.Push(b)), [])
    else if IsFinal(b) then (s.(state := DcsPassthrough), [])
    else (s.(state := DcsIgnore), [])
  }

  function DcsParamStep(s: PState, b: Byte): Effect
    requires s.inter.Valid() && s.params.Valid()
  {
    if 0x30 <= b <= 0x39 || b == 0x3B then (s.(params := Pushed(s.params, b)), [])
    else if IsIntermediate(b) then (s.(state := DcsIntermediate, inter := s.inter.Push(b)), [])
    else if IsFinal(b) then (s.(state := DcsPassthrough), [DcsHook(s.params, s.inter, false, b)])
    else if b == 0x3A || 0x3C <= b <= 0x3F then (s.(state := DcsIgnore), [])
    else (s, [])
  }

  function DcsIntermediateStep(s: PState, b: Byte): Effect
    requires s.inter.Valid()
  {
    if IsIntermediate(b) then (s.(inter := s.inter.Push(b)), [])
    else if IsFinal(b) then (s.(state := DcsPassthrough), [DcsHook(s.params, s.inter, false, b)])
    else if 0x30 <= b <= 0x3F then (s.(state := DcsIgnore), [])
    else (s, [])
  }

  function DcsPassthroughStep(s: PState, b: Byte): Effect {
    if b == 0x9C then (s.(state := Ground), [DcsUnhook])
    else if IsC0(b) || IsPrintableAscii(b) then (s, [DcsPut(b)])
    else (s, [])
  }

  /** Strings that are skipped end only at ST. */
  function SkipStep(s: PState, b: Byte): Effect {
    if b == 0x9C then (s.(state := Ground), []) else (s, [])
  }

  /** The next byte of a multi-byte character; the last one decides whether it prints. */
  function Utf8Step(s: PState, b: Byte): Effect
    requires s.Valid() && s.state == Utf8State
  {
    var s' := s.(utf8 := s.utf8[s.utf8Idx := b], utf8Idx := s.utf8Idx + 1);
    if s'.utf8Idx == s'.utf8Len then
      (s'.(state := Ground), match Decode(s'.utf8[..s'.utf8Len])
                             case Some(t) => if t == [] then [] else [Print(t[0])]
                             case None => [])
    else (s', [])
  }

  function Step(s: PState, b: Byte): (r: Effect)
    requires s.Valid()
    ensures r.0.Valid()
  {
    if s.state == Utf8State then Utf8Step(s, b)
    else if b == 0x18 || b == 0x1A then (s.(state := Ground), [Execute(b)])
    else if b == 0x1B then (s.(state := Escape, inter := s.inter.Clear()), [])
    else
      match s.state
      case Ground => GroundStep(s, b)
      case Escape => EscapeStep(s, b)
      case EscapeIntermediate => EscapeIntermediateStep(s, b)
      case CsiEntry => CsiEntryStep(s, b)
      case CsiParam => CsiParamStep(s, b)
      case CsiIntermediate => CsiIntermediateStep(s, b)
      case CsiIgnore => CsiIgnoreStep(s, b)
      case OscString => OscStep(s, b)
      case DcsEntry => DcsEntryStep(s, b)
      case DcsParam => DcsParamStep(s, b)
      case DcsIntermediate => DcsIntermediateStep(s, b)
      case DcsPassthrough => DcsPassthroughStep(s, b)
      case DcsIgnore => SkipStep(s, b)
      case SosPmApcString => SkipStep(s, b)
  }

  /** Byte after byte: the state reached and every action emitted, in order. */
  function Run(s: PState, bs: seq<Byte>): (r: Effect)
    requires s.Valid()
    ensures r.0.Valid()
    decreases |bs|
  {
    if bs == [] then (s, [])
    else
      var (s1, out1) := Step(s, bs[0]);
      var (s2, out2) := Run(s1, bs[1..]);
      (s2, out1 + out2)
  }

  function NewParser(): (s: PState)
    ensures s.Valid() && s.state == Ground
  {
    PState(Ground, NewParams(), Intermediates([0, 0, 0, 0], 0), [], [0, 0, 0, 0], 0, 0)
  }

  // ----- The parser as an object -----

  class Parser {
    var state: State
    const params: Params
    const interData: array<Byte>
    var interLen: nat
    var oscData: seq<Byte>
    const utf8Buf: array<Byte>
    var utf8Idx: nat
    var utf8Len: nat

    /** The objects the parser owns. */
    ghost function Repr(): set<object>
      reads this
    {
      {this, params, params.values, params.subparamFlags, interData, utf8Buf}
    }

    ghost predicate Valid()
      reads Repr()
    {
      && interData != utf8Buf && params.values as object !in {interData, utf8Buf}
      && params.Valid() && Value().Valid()
    }

    function Inter(): Intermediates
      reads this, interData
    {
      Intermediates(interData[..], interLen)
    }

    function Value(): PState
      reads Repr()
    {
      PState(state, params.Value(), Inter(), oscData, utf8Buf[..], utf8Idx, utf8Len)
    }

    constructor ()
      ensures Valid() && fresh(Repr()) && Value() == NewParser()
    {
      state := Ground;
      params := new Params();
      interData := new Byte[MAX_INTERMEDIATES](_ => 0);
      interLen := 0;
      oscData := [];
      utf8Buf := new Byte[4](_ => 0);
      utf8Idx, utf8Len := 0, 0;
      new;
      assert interData[..] == [0, 0, 0, 0] && utf8Buf[..] == [0, 0, 0, 0];
    }

    method PushIntermediate(b: Byte)
      requires Valid()
      modifies Repr()
      ensures Valid() && Value() == old(Value()).(inter := old(Inter()).Push(b))
    {
      if interLen < MAX_INTERMEDIATES {
        interData[interLen] := b;
        interLen := interLen + 1;
      }
    }

    /** A new sequence: parameters and intermediates start afresh. */
    method Begin(next: State)
      requires Valid() && next != Utf8State
      modifies Repr()
      ensures Valid()
      ensures Value() == old(Value()).(state := next, params := Cleared(old(params.Value())),
                                       inter := old(Inter()).Clear())
    {
      state := next;
      params.Clear();
      interLen := 0;
    }

    method PushParam(b: Byte)
      requires Valid()
      modifies Repr()
      ensures Valid() && Value() == old(Value()).(params := Pushed(old(params.Value()), b))
    {
      params.Push(b);
    }

    method OnGround(b: Byte) returns (out: seq<Action>)
      requires Valid() && state == Ground
      modifies Repr()
      ensures Valid() && (Value(), out) == GroundStep(old(Value()), b)
    {
      out := [];
      if b < 0x20 {
        out := [Execute(b)];
      } else if b <= 0x7E {
        out := [Print(b)];
      } else if b == 0x90 {
        Begin(DcsEntry);
      } else if b == 0x98 || b == 0x9E || b == 0x9F {
        state := SosPmApcString;
      } else if b == 0x9B {
        Begin(CsiEntry);
      } else if b == 0x9D {
        state, oscData := OscString, [];
      } else if 0x80 <= b <= 0x9A {
        out := [Execute(b)];
      } else if 0xC0 <= b <= 0xF7 {
        utf8Buf[0] := b;
        utf8Idx, utf8Len := 1, if b < 0xE0 then 2 else if b < 0xF0 then 3 else 4;
        state := Utf8State;
      }
    }

    method OnEscape(b: Byte) returns (out: seq<Action>)
      requires Valid() && state == Escape
      modifies Repr()
      ensures Valid() && (Value(), out) == EscapeStep(old(Value()), b)
    {
      out := [];
      if IsC0(b) {
        out := [Execute(b)];
      } else if IsIntermediate(b) {
        PushIntermediate(b);
        state := EscapeIntermediate;
      } else if b == 0x50 {
        Begin(DcsEntry);
      } else if b == 0x58 || b == 0x5E || b == 0x5F {
        state := SosPmApcString;
      } else if b == 0x5B {
        Begin(CsiEntry);
      } else if b == 0x5D {
        state, oscData := OscString, [];
      } else if 0x30 <= b <= 0x7E {
        out := [EscDispatch(Inter(), false, b)];
        state := Ground;
      } else if b != 0x7F {
        state := Ground;
      }
    }

    method OnEscapeIntermediate(b: Byte) returns (out: seq<Action>)
      requires Valid() && state == EscapeIntermediate
      modifies Repr()
      ensures Valid() && (Value(), out) == EscapeIntermediateStep(old(Value()), b)
    {
      out := [];
      if IsC0(b) {
        out := [Execute(b)];
      } else if IsIntermediate(b) {
        PushIntermediate(b);
      } else if 0x30 <= b <= 0x7E {
        out := [EscDispatch(Inter(), false, b)];
        state := Ground;
      } else if b != 0x7F {
        state := Ground;
      }
    }

    method OnCsiEntry(b: Byte) returns (out: seq<Action>)
      requires Valid() && state == CsiEntry
      modifies Repr()
      ensures Valid() && (Value(), out) == CsiEntryStep(old(Value()), b)
    {
      out := [];
      if IsC0(b) {
        out := [Execute(b)];
      } else if IsIntermediate(b) {
        PushIntermediate(b);
        state := CsiIntermediate;
      } else if 0x30 <= b <= 0x3B {
        PushParam(b);
        state := CsiParam;
      } else if 0x3C <= b <= 0x3F {
        PushIntermediate(b);
        state := CsiParam;
      } else if IsFinal(b) {
        out := [CsiDispatch(params.Value(), Inter(), false, b)];
        state := Ground;
      } else if b != 0x7F {
        state := Ground;
      }
    }

    method OnCsiParam(b: Byte) returns (out: seq<Action>)
      requires Valid() && state == CsiParam
      modifies Repr()
      ensures Valid() && (Value(), out) == CsiParamStep(old(Value()), b)
    {
      out := [];
      if IsC0(b) {
        out := [Execute(b)];
      } else if IsIntermediate(b) {
        PushIntermediate(b);
        state := CsiIntermediate;
      } else if 0x30 <= b <= 0x3B {
        PushParam(b);
      } else if 0x3C <= b <= 0x3F {
        state := CsiIgnore;
      } else if IsFinal(b) {
        out := [CsiDispatch(params.Value(), Inter(), false, b)];
        state := Ground;
      } else if b != 0x7F {
        state := Ground;
      }
    }

    method OnCsiIntermediate(b: Byte) returns (out: seq<Action>)
      requires Valid() && state == CsiIntermediate
      modifies Repr()
      ensures Valid() && (Value(), out) == CsiIntermediateStep(old(Value()), b)
    {
      out := [];
      if IsC0(b) {
        out := [Execute(b)];
      } else if IsIntermediate(b) {
        PushIntermediate(b);
      } else if 0x30 <= b <= 0x3F {
        state := CsiIgnore;
      } else if IsFinal(b) {
        out := [CsiDispatch(params.Value(), Inter(), false, b)];
        state := Ground;
      } else if b != 0x7F {
        state := Ground;
      }
    }

    method OnCsiIgnore(b: Byte) returns (out: seq<Action>)
      requires Valid() && state == CsiIgnore
      modifies Repr()
      ensures Valid() && (Value(), out) == CsiIgnoreStep(old(Value()), b)
    {
      out := [];
      if IsC0(b) {
        out := [Execute(b)];
      } else if IsFinal(b) {
        state := Ground;
      }
    }

    method OnOscString(b: Byte) returns (out: seq<Action>)
      requires Valid() && state == OscString
      modifies Repr()
      ensures Valid() && (Value(), out) == OscStep(old(Value()), b)
    {
      out := [];
      if b == 0x07 || b == 0x9C {
        out := [OscDispatch(SplitParts(oscData))];
        state := Ground;
      } else if b >= 0x20 && |oscData| < MAX_OSC_DATA {
        oscData := oscData + [b];
      }
    }

    method OnDcsEntry(b: Byte) returns (out: seq<Action>)
      requires Valid() && state == DcsEntry
      modifies Repr()
      ensures Valid() && (Value(), out) == DcsEntryStep(old(Value()), b)
    {
      out := [];
      if IsIntermediate(b) {
        PushIntermediate(b);
        state := DcsIntermediate;
      } else if 0x30 <= b <= 0x39 || b == 0x3B {
        PushParam(b);
        state := DcsParam;
      } else if 0x3C <= b <= 0x3F {
        PushIntermediate(b);
        state := DcsParam;
      } else if IsFinal(b) {
        state := DcsPassthrough;
      } else {
        state := DcsIgnore;
      }
    }

    method OnDcsParam(b: Byte) returns (out: seq<Action>)
      requires Valid() && state == DcsParam
      modifies Repr()
      ensures Valid() && (Value(), out) == DcsParamStep(old(Value()), b)
    {
      out := [];
      if 0x30 <= b <= 0x39 || b == 0x3B {
        PushParam(b);
      } else if IsIntermediate(b) {
        PushIntermediate(b);
        state := DcsIntermediate;
      } else if IsFinal(b) {
        out := [DcsHook(params.Value(), Inter(), false, b)];
        state := DcsPassthrough;
      } else if b == 0x3A || 0x3C <= b <= 0x3F {
        state := DcsIgnore;
      }
    }

    method OnDcsIntermediate(b: Byte) returns (out: seq<Action>)
      requires Valid() && state == DcsIntermediate
      modifies Repr()
      ensures Valid() && (Value(), out) == DcsIntermediateStep(old(Value()), b)
    {
      out := [];
      if IsIntermediate(b) {
        PushIntermediate(b);
      } else if IsFinal(b) {
        out := [DcsHook(params.Value(), Inter(), false, b)];
        state := DcsPassthrough;
      } else if 0x30 <= b <= 0x3F {
        state := DcsIgnore;
      }
    }

    method OnDcsPassthrough(b: Byte) returns (out: seq<Action>)
      requires Valid() && state == DcsPassthrough
      modifies Repr()
      ensures Valid() && (Value(), out) == DcsPassthroughStep(old(Value()), b)
    {
      out := [];
      if b == 0x9C {
        out := [DcsUnhook];
        state := Ground;
      } else if IsC0(b) || IsPrintableAscii(b) {
        out := [DcsPut(b)];
      }
    }

    /** DCS sequences that are ignored, and SOS, PM and APC strings. */
    method OnSkipped(b: Byte) returns (out: seq<Action>)
      requires Valid() && state != Utf8State
      modifies Repr()
      ensures Valid() && (Value(), out) == SkipStep(old(Value()), b)
    {
      out := [];
      if b == 0x9C {
        state := Ground;
      }
    }

    /** The buffer is never indexed past its four bytes. */
    method OnUtf8(b: Byte) returns (out: seq<Action>)
      requires Valid() && state == Utf8State
      modifies Repr()
      ensures Valid() && (Value(), out) == Utf8Step(old(Value()), b)
    {
      out := [];
      utf8Buf[utf8Idx] := b;
      utf8Idx := utf8Idx + 1;
      if utf8Idx == utf8Len {
        match Decode(utf8Buf[..utf8Len]) {
          case Some(t) =>
            if t != [] {
              out := [Print(t[0])];
            }
          case None =>
        }
        state := Ground;
      }
    }

    method AdvanceByte(b: Byte) returns (out: seq<Action>)
      requires Valid()
      modifies Repr()
      ensures Valid() && (Value(), out) == Step(old(Value()), b)
    {
      hide GroundStep, EscapeStep, EscapeIntermediateStep, CsiEntryStep, CsiParamStep, CsiIntermediateStep,
        CsiIgnoreStep, OscStep, DcsEntryStep, DcsParamStep, DcsIntermediateStep, DcsPassthroughStep, SkipStep, Utf8Step;
      if state == Utf8State {
        out := OnUtf8(b);
        return;
      }
      if b == 0x18 || b == 0x1A {
        state := Ground;
        return [Execute(b)];
      }
      if b == 0x1B {
        state, interLen := Escape, 0;
        return [];
      }
      match state
      case Ground => out := OnGround(b);
      case Escape => out := OnEscape(b);
      case EscapeIntermediate => out := OnEscapeIntermediate(b);
      case CsiEntry => out := OnCsiEntry(b);
      case CsiParam => out := OnCsiParam(b);
      case CsiIntermediate => out := OnCsiIntermediate(b);
      case CsiIgnore => out := OnCsiIgnore(b);
      case OscString => out := OnOscString(b);
      case DcsEntry => out := OnDcsEntry(b);
      case DcsParam => out := OnDcsParam(b);
      case DcsIntermediate => out := OnDcsIntermediate(b);
      case DcsPassthrough => out := OnDcsPassthrough(b);
      case DcsIgnore => out := OnSkipped(b);
      case SosPmApcString => out := OnSkipped(b);
    }

    /** The fast path refines the slow one: runs of printable ASCII are emitted straight
        from the input, everything else goes byte by byte, and the actions and the final
        state are those of one step per byte. */
    method Advance(bytes: seq<Byte>) returns (out: seq<Action>)
      requires Valid()
      modifies Repr()
      ensures Valid() && (Value(), out) == Run(old(Value()), bytes)
    {
      hide Step, Run, AsPrints;
      ghost var s0 := Value();
      out := [];
      var i, len := 0, |bytes|;
      NothingRun(s0, bytes);
      while i < len
        invariant 0 <= i <= len && Valid() && s0.Valid()
        invariant (Value(), out) == Run(s0, bytes[..i])
      {
        if state == Ground {
          var start := i;
          i := PrintableUpTo(bytes, start);
          PrintableRun(s0, bytes, start, i);
          out := out + AsPrints(bytes[start..i]);
          if i >= len {
            break;
          }
        }
        RunOneMore(s0, bytes, i);
        var more := AdvanceByte(bytes[i]);
        out := out + more;
        i := i + 1;
      }
      assert bytes[..len] == bytes;
    }

    /** Scans the run of printable ASCII that starts at `start`. */
    method PrintableUpTo(bytes: seq<Byte>, start: nat) returns (i: nat)
      requires start <= |bytes|
      ensures start <= i <= |bytes| && forall k :: start <= k < i ==> IsPrintableAscii(bytes[k])
      ensures i < |bytes| ==> !IsPrintableAscii(bytes[i])
    {
      i := start;
      while i < |bytes| && IsPrintableAscii(bytes[i])
        invariant start <= i <= |bytes|
        invariant forall k :: start <= k < i ==> IsPrintableAscii(bytes[k])
      {
        i := i + 1;
      }
    }
  }

  // ----- Runs -----

  /** One `Print` for each byte. */
  function AsPrints(bs: seq<Byte>): seq<Action> {
    seq(|bs|, i requires 0 <= i < |bs| => Print(bs[i]))
  }

  lemma NothingRun(s: PState, bytes: seq<Byte>)
    requires s.Valid()
    ensures Run(s, bytes[..0]) == (s, [])
  {
  }

  /** Splitting the input into chunks anywhere changes nothing. */
  lemma {:induction false} RunConcat(s: PState, a: seq<Byte>, b: seq<Byte>)
    requires s.Valid()
    ensures var (s1, out1) := Run(s, a);
            var (s2, out2) := Run(s1, b);
            Run(s, a + b) == (s2, out1 + out2)
    decreases |a|
  {
    hide Step;
    if a == [] {
      assert a + b == b;
      assert [] + Run(s, b).1 == Run(s, b).1;
    } else {
      assert (a + b)[1..] == a[1..] + b;
      var (s1, first) := Step(s, a[0]);
      RunConcat(s1, a[1..], b);
      var (s2, out2) := Run(s1, a[1..]);
      assert first + (out2 + Run(s2, b).1) == first + out2 + Run(s2, b).1;
    }
  }

  lemma RunSingle(s: PState, b: Byte)
    requires s.Valid()
    ensures Run(s, [b]) == Step(s, b)
  {
    hide Step;
    assert [b][1..] == [];
    assert Step(s, b).1 + [] == Step(s, b).1;
  }

  lemma RunOneMore(s: PState, bytes: seq<Byte>, i: nat)
    requires s.Valid() && i < |bytes|
    ensures var (s1, out1) := Run(s, bytes[..i]);
            s1.Valid() && Run(s, bytes[..i + 1]) == (Step(s1, bytes[i]).0, out1 + Step(s1, bytes[i]).1)
  {
    hide Step, Run;
    assert bytes[..i + 1] == bytes[..i] + [bytes[i]];
    RunConcat(s, bytes[..i], [bytes[i]]);
    RunSingle(Run(s, bytes[..i]).0, bytes[i]);
  }

  /** Printable ASCII leaves the ground state as it is and prints itself. */
  lemma {:induction false} GroundPrints(s: PState, bs: seq<Byte>)
    requires s.Valid() && s.state == Ground && forall k :: 0 <= k < |bs| ==> IsPrintableAscii(bs[k])
    ensures Run(s, bs) == (s, AsPrints(bs))
    decreases |bs|
  {
    hide Step;
    if bs != [] {
      GroundPrintsOne(s, bs[0]);
      GroundPrints(s, bs[1..]);
      assert AsPrints(bs) == [Print(bs[0])] + AsPrints(bs[1..]);
    }
  }

  lemma GroundPrintsOne(s: PState, b: Byte)
    requires s.Valid() && s.state == Ground && IsPrintableAscii(b)
    ensures Step(s, b) == (s, [Print(b)])
  {
  }

  lemma PrintableRun(s: PState, bytes: seq<Byte>, start: nat, i: nat)
    requires s.Valid() && start <= i <= |bytes|
    requires forall k :: start <= k < i ==> IsPrintableAscii(bytes[k])
    requires Run(s, bytes[..start]).0.state == Ground
    ensures var (s1, out1) := Run(s, bytes[..start]);
            Run(s, bytes[..i]) == (s1, out1 + AsPrints(bytes[start..i]))
  {
    hide Step, Run, AsPrints;
    assert bytes[..i] == bytes[..start] + bytes[start..i];
    RunConcat(s, bytes[..start], bytes[start..i]);
    GroundPrints(Run(s, bytes[..start]).0, bytes[start..i]);
  }
}
