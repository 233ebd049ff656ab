/** Controls: between characters, inside sequences, and the bytes that begin, abort or end them. */
module ParserControls {
  import opened Options
  import opened Utf8
  import opened VtParams
  import opened VtParser
  import opened ParserRoundTrips

  // ----- Between characters -----

  /** A C0 control other than ESC. */
  predicate IsControl(c: Scalar) {
    c < 0x20 && c != 0x1B
  }

  function ActionOf(c: Scalar): Action
    requires IsControl(c) || IsPrintable(c)
  {
    if c < 0x20 then Execute(c) else Print(c)
  }

  ghost predicate Stream(t: seq<Scalar>) {
    forall i :: 0 <= i < |t| ==> IsControl(t[i]) || IsPrintable(t[i])
  }

  function ActionsOf(t: seq<Scalar>): (actions: seq<Action>)
    requires Stream(t)
    ensures |actions| == |t|
  {
    seq(|t|, i requires 0 <= i < |t| => ActionOf(t[i]))
  }

  lemma ControlExecutes(s: PState, b: Byte)
    requires s.Valid() && s.state == Ground && IsControl(b)
    ensures Step(s, b) == (s, [Execute(b)])
  {
  }

  lemma OneActs(s: PState, c: Scalar)
    requires s.Valid() && s.state == Ground && (IsControl(c) || IsPrintable(c))
    ensures Run(s, Encode(c)).1 == [ActionOf(c)] && Run(s, Encode(c)).0.state == Ground
  {
    hide Run, Step;
    if IsControl(c) {
      assert Encode(c) == [c];
      RunSingle(s, c);
      ControlExecutes(s, c);
    } else {
      CharacterPrints(s, c);
    }
  }

  /** Text mixed with controls gives one action for each element, in order, and ends in the ground state. */
  lemma {:induction false} StreamActs(s: PState, t: seq<Scalar>)
    requires s.Valid() && s.state == Ground && Stream(t)
    ensures Run(s, EncodeText(t)).1 == ActionsOf(t) && Run(s, EncodeText(t)).0.state == Ground
    decreases |t|
  {
    hide Step, Encode, IsPrintable;
    if t != [] {
      OneActs(s, t[0]);
      RunConcat(s, Encode(t[0]), EncodeText(t[1..]));
      StreamActs(Run(s, Encode(t[0])).0, t[1..]);
      assert ActionsOf(t) == [ActionOf(t[0])] + ActionsOf(t[1..]);
    }
  }

  lemma NothingRuns(s: PState)
    requires s.Valid()
    ensures Run(s, []) == (s, [])
  {
  }

  /** Three parts of the input, one after the other. */
  lemma RunThree(s: PState, a: seq<Byte>, b: seq<Byte>, c: seq<Byte>)
    requires s.Valid()
    ensures var (x, y) := (Run(s, a), Run(Run(s, a).0, b));
            var z := Run(y.0, c);
            Run(s, a + b + c) == (z.0, x.1 + y.1 + z.1)
  {
    hide Run;
    RunConcat(s, a, b);
    RunConcat(s, a + b, c);
  }

  // ----- Inside a sequence -----

  predicate InSequence(state: State) {
    state in {Escape, EscapeIntermediate, CsiEntry, CsiParam, CsiIntermediate, CsiIgnore}
  }

  /** A control is executed on the way, and the sequence goes on as if it had not come. */
  lemma ControlInPassing(s: PState, b: Byte)
    requires s.Valid() && InSequence(s.state) && IsC0(b)
    ensures Step(s, b) == (s, [Execute(b)])
  {
  }

  /** CAN and SUB abort whatever is under way, but for a character, and are executed. */
  lemma CancelAborts(s: PState, b: Byte)
    requires s.Valid() && s.state != Utf8State && (b == 0x18 || b == 0x1A)
    ensures Step(s, b) == (s.(state := Ground), [Execute(b)])
  {
  }

  /** The bytes without the controls. */
  function Stripped(bs: seq<Byte>): seq<Byte> {
    if bs == [] then [] else if IsC0(bs[0]) then Stripped(bs[1..]) else [bs[0]] + Stripped(bs[1..])
  }

  /** The controls, executed in order. */
  function Executions(bs: seq<Byte>): seq<Action> {
    if bs == [] then [] else if IsC0(bs[0]) then [Execute(bs[0])] + Executions(bs[1..]) else Executions(bs[1..])
  }

  predicate InCsi(state: State) {
    state in {CsiEntry, CsiParam, CsiIntermediate, CsiIgnore}
  }

  lemma CsiGoesOn(s: PState, b: Byte)
    requires s.Valid() && InCsi(s.state) && 0x20 <= b <= 0x3F
    ensures Step(s, b).1 == [] && InCsi(Step(s, b).0.state)
  {
  }

  lemma {:induction false} CsiBody(s: PState, body: seq<Byte>)
    requires s.Valid() && InCsi(s.state) && forall i :: 0 <= i < |body| ==> IsC0(body[i]) || 0x20 <= body[i] <= 0x3F
    ensures Run(s, body) == (Run(s, Stripped(body)).0, Executions(body))
    ensures Run(s, Stripped(body)).1 == [] && InCsi(Run(s, Stripped(body)).0.state)
    decreases |body|
  {
    hide Step, IsC0;
    if body != [] {
      var b := body[0];
      RunUnfold(s, body);
      if IsC0(b) {
        ControlInPassing(s, b);
        CsiBody(s, body[1..]);
      } else {
        CsiGoesOn(s, b);
        CsiBody(Step(s, b).0, body[1..]);
        NothingBefore(Executions(body[1..]));
        var rest := Stripped(body[1..]);
        assert Stripped(body)[0] == b && Stripped(body)[1..] == rest;
        RunUnfold(s, Stripped(body));
        NothingBefore(Run(Step(s, b).0, rest).1);
      }
    }
  }

  /** Controls inside a control sequence, well formed or not, are executed first; else it is as
      if they had not been there. */
  lemma ControlsInCsi(s: PState, body: seq<Byte>, final: Byte)
    requires s.Valid() && s.state != Utf8State && IsFinal(final)
    requires forall i :: 0 <= i < |body| ==> IsC0(body[i]) || 0x20 <= body[i] <= 0x3F
    ensures var (with, without) := (Run(s, [0x1B, 0x5B] + body + [final]),
                                    Run(s, [0x1B, 0x5B] + Stripped(body) + [final]));
            with.0 == without.0 && with.1 == Executions(body) + without.1
  {
    hide Run, Step, Stripped, Executions, Cleared;
    Introducer(s);
    var s1 := Run(s, [0x1B, 0x5B]).0;
    CsiBody(s1, body);
    RunThree(s, [0x1B, 0x5B], body, [final]);
    RunThree(s, [0x1B, 0x5B], Stripped(body), [final]);
    InPassing(Executions(body), Run(Run(s1, body).0, [final]).1);
  }

  lemma InPassing(executed: seq<Action>, out: seq<Action>)
    ensures [] + executed + out == executed + ([] + [] + out)
  {
  }

  lemma EscGoesOn(s: PState, b: Byte)
    requires s.Valid() && (s.state == Escape || s.state == EscapeIntermediate) && IsIntermediate(b)
    ensures Step(s, b) == (s.(state := EscapeIntermediate, inter := s.inter.Push(b)), [])
  {
  }

  lemma {:induction false} EscBody(s: PState, body: seq<Byte>)
    requires s.Valid() && (s.state == Escape || s.state == EscapeIntermediate)
    requires forall i :: 0 <= i < |body| ==> IsC0(body[i]) || IsIntermediate(body[i])
    ensures Run(s, body) == (Run(s, Stripped(body)).0, Executions(body))
    ensures Run(s, Stripped(body)).1 == []
    ensures Run(s, Stripped(body)).0.state == if Stripped(body) == [] then s.state else EscapeIntermediate
    decreases |body|
  {
    hide Step, IsC0, IsIntermediate;
    if body != [] {
      var b := body[0];
      RunUnfold(s, body);
      if IsC0(b) {
        ControlInPassing(s, b);
        EscBody(s, body[1..]);
      } else {
        EscGoesOn(s, b);
        EscBody(Step(s, b).0, body[1..]);
        NothingBefore(Executions(body[1..]));
        var rest := Stripped(body[1..]);
        assert Stripped(body)[0] == b && Stripped(body)[1..] == rest;
        RunUnfold(s, Stripped(body));
        NothingBefore(Run(Step(s, b).0, rest).1);
      }
    }
  }

  /** The same for an escape sequence. */
  lemma ControlsInEsc(s: PState, body: seq<Byte>, final: Byte)
    requires s.Valid() && s.state != Utf8State
    requires forall i :: 0 <= i < |body| ==> IsC0(body[i]) || IsIntermediate(body[i])
    ensures var (with, without) := (Run(s, [0x1B] + body + [final]), Run(s, [0x1B] + Stripped(body) + [final]));
            with.0 == without.0 && with.1 == Executions(body) + without.1
  {
    hide Run, Step, Stripped, Executions;
    EscBegins(s);
    RunSingle(s, 0x1B);
    var s1 := Run(s, [0x1B]).0;
    EscBody(s1, body);
    RunThree(s, [0x1B], body, [final]);
    RunThree(s, [0x1B], Stripped(body), [final]);
    InPassing(Executions(body), Run(Run(s1, body).0, [final]).1);
  }

  // ----- Whole sequences -----

  lemma CsiMarker(s: PState, marker: seq<Byte>)
    requires s.Valid() && s.state == CsiEntry && s.inter.len == 0
    requires |marker| <= 1 && (marker != [] ==> 0x3C <= marker[0] <= 0x3F)
    ensures var (s', out) := Run(s, marker);
            && out == [] && s'.params == s.params && s'.inter.Slice() == marker
            && s'.state == if marker == [] then CsiEntry else CsiParam
  {
    if marker != [] {
      assert marker == [marker[0]] && marker[1..] == [];
    }
  }

  /** Of more intermediates the first four are those of the first four and the rest. */
  lemma FirstFourMore(slice: seq<Byte>, inters: seq<Byte>)
    requires inters != []
    ensures FirstFour(FirstFour(slice + [inters[0]]) + inters[1..]) == FirstFour(slice + inters)
  {
    assert slice + inters == (slice + [inters[0]]) + inters[1..];
  }

  lemma AtMostFour(s: PState)
    requires s.Valid()
    ensures FirstFour(s.inter.Slice()) == s.inter.Slice()
  {
  }

  lemma CsiCollects(s: PState, b: Byte)
    requires s.Valid() && s.state in {CsiEntry, CsiParam, CsiIntermediate} && IsIntermediate(b)
    ensures var (s', out) := Step(s, b);
            && out == [] && s'.params == s.params && s'.state == CsiIntermediate
            && s'.inter.Slice() == FirstFour(s.inter.Slice() + [b])
  {
  }

  lemma {:induction false} CsiInters(s: PState, inters: seq<Byte>)
    requires s.Valid() && s.state in {CsiEntry, CsiParam, CsiIntermediate}
    requires forall i :: 0 <= i < |inters| ==> IsIntermediate(inters[i])
    ensures var (s', out) := Run(s, inters);
            && out == [] && s'.params == s.params
            && s'.inter.Slice() == FirstFour(s.inter.Slice() + inters)
            && s'.state == if inters == [] then s.state else CsiIntermediate
    decreases |inters|
  {
    hide Step, FirstFour;
    var slice := s.inter.Slice();
    if inters == [] {
      AtMostFour(s);
      assert slice + [] == slice;
    } else {
      CsiCollects(s, inters[0]);
      CsiInters(Step(s, inters[0]).0, inters[1..]);
      FirstFourMore(slice, inters);
    }
  }

  lemma CsiFinal(s: PState, final: Byte)
    requires s.Valid() && s.state in {CsiEntry, CsiParam, CsiIntermediate} && IsFinal(final)
    ensures Step(s, final) == (s.(state := Ground), [CsiDispatch(s.params, s.inter, false, final)])
  {
  }

  lemma CsiHeader(s: PState, marker: seq<Byte>, body: seq<Byte>, inters: seq<Byte>)
    requires s.Valid() && s.state == CsiEntry && s.inter.len == 0
    requires |marker| <= 1 && (marker != [] ==> 0x3C <= marker[0] <= 0x3F)
    requires forall i :: 0 <= i < |body| ==> 0x30 <= body[i] <= 0x3B
    requires forall i :: 0 <= i < |inters| ==> IsIntermediate(inters[i])
    ensures var (s', out) := Run(s, marker + body + inters);
            && out == [] && s'.params == PushAll(s.params, body) && s'.inter.Slice() == FirstFour(marker + inters)
            && s'.state in {CsiEntry, CsiParam, CsiIntermediate}
  {
    hide Run, Step, PushAll, FirstFour;
    CsiMarker(s, marker);
    var s1 := Run(s, marker).0;
    ParameterBytes(s1, body);
    RunConcat(s, marker, body);
    CsiInters(Run(s1, body).0, inters);
    RunConcat(s, marker + body, inters);
  }

  /** Any control sequence in order, a marker, parameters, intermediates and a final byte, is one
      dispatch that carries them, the first four of marker and intermediates. */
  lemma WholeCsi(s: PState, marker: seq<Byte>, body: seq<Byte>, inters: seq<Byte>, final: Byte)
    requires s.Valid() && s.state != Utf8State && IsFinal(final)
    requires |marker| <= 1 && (marker != [] ==> 0x3C <= marker[0] <= 0x3F)
    requires forall i :: 0 <= i < |body| ==> 0x30 <= body[i] <= 0x3B
    requires forall i :: 0 <= i < |inters| ==> IsIntermediate(inters[i])
    ensures var (s', out) := Run(s, [0x1B, 0x5B] + (marker + body + inters) + [final]);
            && s'.state == Ground && |out| == 1 && out[0].CsiDispatch? && !out[0].ignore && out[0].action == final
            && out[0].params == PushAll(Cleared(s.params), body)
            && out[0].intermediates.Valid() && out[0].intermediates.Slice() == FirstFour(marker + inters)
  {
    hide Run, Pushed, PushAll, Step, Cleared, FirstFour;
    Introducer(s);
    var s1, header := Run(s, [0x1B, 0x5B]).0, marker + body + inters;
    CsiHeader(s1, marker, body, inters);
    var s2 := Run(s1, header).0;
    RunSingle(s2, final);
    CsiFinal(s2, final);
    RunConcat(s, [0x1B, 0x5B], header);
    RunConcat(s, [0x1B, 0x5B] + header, [final]);
  }

  lemma {:induction false} IgnoringGoesOn(s: PState, rest: seq<Byte>)
    requires s.Valid() && s.state == CsiIgnore && forall i :: 0 <= i < |rest| ==> 0x20 <= rest[i] <= 0x3F
    ensures Run(s, rest) == (s, [])
    decreases |rest|
  {
    hide Run;
    if rest == [] {
      NothingRuns(s);
    } else {
      NothingAfterNothing(s, rest);
      IgnoringGoesOn(s, rest[1..]);
    }
  }

  /** Out of order, a marker after a parameter or a parameter after an intermediate, it is skipped
      to its final byte and dispatches nothing. */
  lemma MalformedCsi(s: PState, wrong: Byte, rest: seq<Byte>, final: Byte)
    requires s.Valid() && IsFinal(final) && forall i :: 0 <= i < |rest| ==> 0x20 <= rest[i] <= 0x3F
    requires || (s.state == CsiParam && 0x3C <= wrong <= 0x3F)
             || (s.state == CsiIntermediate && 0x30 <= wrong <= 0x3F)
    ensures Run(s, [wrong] + rest + [final]) == (s.(state := Ground), [])
  {
    hide Run, Step;
    var s1 := s.(state := CsiIgnore);
    RunSingle(s, wrong);
    WrongIsIgnored(s, wrong, final);
    IgnoringGoesOn(s1, rest);
    RunSingle(s1, final);
    RunThree(s, [wrong], rest, [final]);
    var none: seq<Action> := [];
    assert none + none + none == none;
  }

  lemma WrongIsIgnored(s: PState, wrong: Byte, final: Byte)
    requires s.Valid() && IsFinal(final)
    requires || (s.state == CsiParam && 0x3C <= wrong <= 0x3F)
             || (s.state == CsiIntermediate && 0x30 <= wrong <= 0x3F)
    ensures Step(s, wrong) == (s.(state := CsiIgnore), [])
    ensures Step(s.(state := CsiIgnore), final) == (s.(state := Ground), [])
  {
  }

  lemma EscCollects(s: PState, b: Byte)
    requires s.Valid() && IsIntermediate(b)
    ensures s.inter.Push(b).Slice() == FirstFour(s.inter.Slice() + [b])
  {
  }

  lemma {:induction false} EscInters(s: PState, inters: seq<Byte>)
    requires s.Valid() && (s.state == Escape || s.state == EscapeIntermediate)
    requires forall i :: 0 <= i < |inters| ==> IsIntermediate(inters[i])
    ensures var (s', out) := Run(s, inters);
            && out == [] && s'.inter.Slice() == FirstFour(s.inter.Slice() + inters)
            && s'.state == if inters == [] then s.state else EscapeIntermediate
    decreases |inters|
  {
    hide Step, FirstFour;
    var slice := s.inter.Slice();
    if inters == [] {
      AtMostFour(s);
      assert slice + [] == slice;
    } else {
      EscGoesOn(s, inters[0]);
      EscCollects(s, inters[0]);
      EscInters(Step(s, inters[0]).0, inters[1..]);
      FirstFourMore(slice, inters);
    }
  }

  lemma EscFinal(s: PState, final: Byte)
    requires s.Valid() && 0x30 <= final <= 0x7E
    requires s.state == EscapeIntermediate || (s.state == Escape && final !in {0x50, 0x58, 0x5B, 0x5D, 0x5E, 0x5F})
    ensures Step(s, final) == (s.(state := Ground), [EscDispatch(s.inter, false, final)])
  {
  }

  /** Any escape sequence is one dispatch, with its first four intermediates. */
  lemma WholeEsc(s: PState, inters: seq<Byte>, final: Byte)
    requires s.Valid() && s.state != Utf8State && 0x30 <= final <= 0x7E
    requires forall i :: 0 <= i < |inters| ==> IsIntermediate(inters[i])
    requires inters == [] ==> final !in {0x50, 0x58, 0x5B, 0x5D, 0x5E, 0x5F}
    ensures var (s', out) := Run(s, [0x1B] + inters + [final]);
            && s'.state == Ground && |out| == 1 && out[0].EscDispatch? && !out[0].ignore && out[0].byte == final
            && out[0].intermediates.Valid() && out[0].intermediates.Slice() == FirstFour(inters)
  {
    hide Run, Step, FirstFour;
    EscBegins(s);
    RunSingle(s, 0x1B);
    var s1 := Run(s, [0x1B]).0;
    NothingInSlice(s, inters);
    EscInters(s1, inters);
    var s2 := Run(s1, inters).0;
    RunSingle(s2, final);
    EscFinal(s2, final);
    RunConcat(s, [0x1B], inters);
    RunConcat(s, [0x1B] + inters, [final]);
  }

  lemma NothingInSlice(s: PState, inters: seq<Byte>)
    requires s.Valid()
    ensures s.inter.Clear().Valid() && s.inter.Clear().Slice() + inters == inters
  {
  }

  // ----- One-byte introducers, and what is skipped -----

  /** The one-byte CSI and DCS begin what ESC [ and ESC P begin; OSC too. */
  lemma OneByteIntroducers(s: PState)
    requires s.Valid() && s.state == Ground
    ensures Run(s, [0x9B]) == Run(s, [0x1B, 0x5B]) && Run(s, [0x90]) == Run(s, [0x1B, 0x50])
    ensures Run(s, [0x9D]) == (s.(state := OscString, osc := []), [])
  {
    hide Run, Step;
    RunSingle(s, 0x9B);
    RunSingle(s, 0x90);
    RunSingle(s, 0x9D);
    Introducer(s);
    DcsOpens(s);
    OneByteSteps(s);
  }

  lemma OneByteSteps(s: PState)
    requires s.Valid() && s.state == Ground
    ensures Step(s, 0x9B) == (s.(state := CsiEntry, params := Cleared(s.params), inter := s.inter.Clear()), [])
    ensures Step(s, 0x90) == (s.(state := DcsEntry, params := Cleared(s.params), inter := s.inter.Clear()), [])
    ensures Step(s, 0x9D) == (s.(state := OscString, osc := []), [])
  {
    hide Cleared;
  }

  /** The other C1 controls up to 0x9A are executed in the ground state; bytes that can begin no
      character, and DEL, do nothing there. */
  lemma OtherGroundBytes(s: PState, b: Byte)
    requires s.Valid() && s.state == Ground && (b == 0x7F || 0x80 <= b <= 0xBF || b >= 0xF8)
    requires b !in {0x90, 0x98, 0x9B, 0x9D, 0x9E, 0x9F}
    ensures Step(s, b) == (s, if 0x80 <= b <= 0x9A then [Execute(b)] else [])
  {
  }

  lemma {:induction false} SkippingGoesOn(s: PState, data: seq<Byte>)
    requires s.Valid() && (s.state == SosPmApcString || s.state == DcsIgnore)
    requires forall i :: 0 <= i < |data| ==> data[i] !in {0x18, 0x1A, 0x1B, 0x9C}
    ensures Run(s, data) == (s, [])
    decreases |data|
  {
    hide Run;
    if data == [] {
      NothingRuns(s);
    } else {
      NothingAfterNothing(s, data);
      SkippingGoesOn(s, data[1..]);
    }
  }

  /** SOS, PM and APC strings are skipped to the one-byte ST. */
  lemma StringsAreSkipped(s: PState, kind: Byte, data: seq<Byte>)
    requires s.Valid() && s.state != Utf8State && kind in {0x58, 0x5E, 0x5F}
    requires forall i :: 0 <= i < |data| ==> data[i] !in {0x18, 0x1A, 0x1B, 0x9C}
    ensures var (s', out) := Run(s, [0x1B, kind] + data + [0x9C]); out == [] && s'.state == Ground
  {
    hide Run, Step;
    EscBegins(s);
    TwoBytes(s, 0x1B, kind);
    var s1 := Run(s, [0x1B, kind]).0;
    StringBegins(s, kind);
    SkippingGoesOn(s1, data);
    RunSingle(s1, 0x9C);
    RunThree(s, [0x1B, kind], data, [0x9C]);
  }

  lemma StringBegins(s: PState, kind: Byte)
    requires s.Valid() && kind in {0x58, 0x5E, 0x5F}
    ensures Step(s.(state := Escape, inter := s.inter.Clear()), kind)
            == (s.(state := SosPmApcString, inter := s.inter.Clear()), [])
    ensures Step(s.(state := SosPmApcString, inter := s.inter.Clear()), 0x9C)
            == (s.(state := Ground, inter := s.inter.Clear()), [])
  {
  }

  /** What a DCS passes through, byte by byte. */
  predicate IsDcsByte(b: Byte) {
    IsC0(b) || IsPrintableAscii(b)
  }

  function PutsOf(data: seq<Byte>): (puts: seq<Action>)
    ensures |puts| == |data|
  {
    seq(|data|, i requires 0 <= i < |data| => DcsPut(data[i]))
  }

  lemma {:induction false} DcsDataPasses(s: PState, data: seq<Byte>)
    requires s.Valid() && s.state == DcsPassthrough && forall i :: 0 <= i < |data| ==> IsDcsByte(data[i])
    ensures Run(s, data) == (s, PutsOf(data))
    decreases |data|
  {
    hide Step;
    if data != [] {
      DcsPasses(s, data[0]);
      DcsDataPasses(s, data[1..]);
      assert PutsOf(data) == [DcsPut(data[0])] + PutsOf(data[1..]);
    }
  }

  lemma DcsPasses(s: PState, b: Byte)
    requires s.Valid() && s.state == DcsPassthrough && IsDcsByte(b)
    ensures Step(s, b) == (s, [DcsPut(b)])
  {
  }

  /** The data of a DCS comes out byte by byte, and the one-byte ST ends it. */
  lemma DcsData(s: PState, data: seq<Byte>)
    requires s.Valid() && s.state == DcsPassthrough && forall i :: 0 <= i < |data| ==> IsDcsByte(data[i])
    ensures Run(s, data + [0x9C]) == (s.(state := Ground), PutsOf(data) + [DcsUnhook])
  {
    hide Run;
    DcsDataPasses(s, data);
    RunSingle(s, 0x9C);
    RunConcat(s, data, [0x9C]);
  }

  // ----- Bytes out of place -----

  /** DEL is passed over inside a sequence; a byte above it ends the sequence and is lost with it. */
  lemma StrayInSequence(s: PState, b: Byte)
    requires s.Valid() && b >= 0x7F
    requires s.state in {Escape, EscapeIntermediate, CsiEntry, CsiParam, CsiIntermediate, CsiIgnore}
    ensures Step(s, b) == (if b == 0x7F || s.state == CsiIgnore then s else s.(state := Ground), [])
  {
  }

  /** In a string for the system controls are passed over, but for those that end it. */
  lemma StrayInOsc(s: PState, b: Byte)
    requires s.Valid() && s.state == OscString && b < 0x20 && b !in {0x07, 0x18, 0x1A, 0x1B}
    ensures Step(s, b) == (s, [])
  {
  }

  /** Before the data of a DCS: what cannot stand first spoils the whole string, and a colon or a
      marker after a number; other bytes are passed over. */
  lemma StrayInDcs(s: PState, b: Byte)
    requires s.Valid() && b !in {0x18, 0x1A, 0x1B}
    ensures s.state == DcsEntry && (b < 0x20 || b == 0x3A || b >= 0x7F) ==> Step(s, b) == (s.(state := DcsIgnore), [])
    ensures s.state == DcsParam && (b == 0x3A || 0x3C <= b <= 0x3F) ==> Step(s, b) == (s.(state := DcsIgnore), [])
    ensures s.state == DcsIntermediate && 0x30 <= b <= 0x3F ==> Step(s, b) == (s.(state := DcsIgnore), [])
    ensures s.state in {DcsParam, DcsIntermediate} && (b < 0x20 || b >= 0x7F) ==> Step(s, b) == (s, [])
    ensures s.state == DcsPassthrough && (b == 0x7F || (b >= 0x80 && b != 0x9C)) ==> Step(s, b) == (s, [])
  {
  }

  /** What a lead byte and the bytes it asks for print: their character, if they are one. */
  function CharacterOf(bytes: seq<Byte>): seq<Action> {
    if Decode(bytes).Some? && |Decode(bytes).value| > 0 then [Print(Decode(bytes).value[0])] else []
  }

  lemma {:induction false} LeadTakes(s: PState, e: seq<Byte>, k: nat)
    requires s.Valid() && s.state == Utf8State && s.utf8Idx == k && s.utf8Len == |e| && 1 <= k < |e| <= 4
    requires s.utf8[..k] == e[..k]
    ensures Run(s, e[k..]).1 == CharacterOf(e) && Run(s, e[k..]).0.state == Ground
    decreases |e| - k
  {
    hide Decode;
    var s' := Step(s, e[k]).0;
    assert s'.utf8[..k + 1] == e[..k + 1];
    assert e[k..][1..] == e[k + 1..];
    if k + 1 == |e| {
      assert e[..k + 1] == e;
      assert e[k + 1..] == [];
    } else {
      LeadTakes(s', e, k + 1);
    }
  }

  lemma LeadOpens(s: PState, b: Byte, n: nat)
    requires s.Valid() && s.state == Ground && 0xC0 <= b <= 0xF7
    requires n == if b < 0xE0 then 2 else if b < 0xF0 then 3 else 4
    ensures var (s1, out) := Step(s, b);
            out == [] && s1.state == Utf8State && s1.utf8Idx == 1 && s1.utf8Len == n && s1.utf8[0] == b
  {
  }

  /** A lead byte takes as many bytes as it asks for, whatever they are, ESC and controls among them;
      they print one character or are all lost. */
  lemma LeadTakesAll(s: PState, e: seq<Byte>)
    requires s.Valid() && s.state == Ground && e != [] && 0xC0 <= e[0] <= 0xF7
    requires |e| == if e[0] < 0xE0 then 2 else if e[0] < 0xF0 then 3 else 4
    ensures Run(s, e).1 == CharacterOf(e) && Run(s, e).0.state == Ground
  {
    hide Step, Run, CharacterOf;
    RunSingle(s, e[0]);
    LeadOpens(s, e[0], |e|);
    var s1 := Step(s, e[0]).0;
    assert s1.utf8[..1] == e[..1] == [e[0]];
    LeadTakes(s1, e, 1);
    RunConcat(s, e[..1], e[1..]);
    assert e == e[..1] + e[1..];
    NothingBefore(Run(s1, e[1..]).1);
  }
}
