/** What the parser makes of printed text, control sequences and OSC strings. */
module ParserRoundTrips {
  import opened Options
  import opened Utf8
  import opened VtParams
  import opened VtParser

  // ----- Text -----

  /** 0x20 to 0x7E, or anything from U+0080 on. */
  predicate IsPrintable(c: Scalar) {
    0x20 <= c <= 0x7E || c >= 0x80
  }

  function PrintsOf(t: seq<Scalar>): seq<Action> {
    seq(|t|, i requires 0 <= i < |t| => Print(t[i]))
  }

  /** One encoded printable character from the ground state prints once and comes back. */
  lemma CharacterPrints(s: PState, c: Scalar)
    requires s.Valid() && s.state == Ground && IsPrintable(c)
    ensures Run(s, Encode(c)).1 == [Print(c)] && Run(s, Encode(c)).0.state == Ground
  {
    if c < 0x80 {
      RunSingle(s, c);
      assert Encode(c) == [c];
    } else {
      MultiByteCharacterPrints(s, c);
    }
  }

  lemma MultiByteCharacterPrints(s: PState, c: Scalar)
    requires s.Valid() && s.state == Ground && c >= 0x80
    ensures Run(s, Encode(c)).1 == [Print(c)] && Run(s, Encode(c)).0.state == Ground
  {
    hide Encode, Decode, Step, Run;
    var e := Encode(c);
    LeadByte(c);
    RunSingle(s, e[0]);
    LeadStep(s, e[0], |e|);
    var s1 := Step(s, e[0]).0;
    assert s1.utf8[..1] == e[..1] == [e[0]];
    DecodeEncode(c);
    FinishCharacter(s1, e, 1);
    RunConcat(s, e[..1], e[1..]);
    assert e == e[..1] + e[1..];
  }

  lemma LeadStep(s: PState, b: Byte, n: nat)
    requires s.Valid() && s.state == Ground && 0xC2 <= b <= 0xF4
    requires n == if b < 0xE0 then 2 else if b < 0xF0 then 3 else 4
    ensures var (s1, out) := Step(s, b);
            out == [] && s1.state == Utf8State && s1.utf8Idx == 1 && s1.utf8Len == n && s1.utf8[0] == b
  {
  }

  lemma LeadByte(c: Scalar)
    requires c >= 0x80
    ensures var e := Encode(c);
            && |e| >= 2 && 0xC2 <= e[0] <= 0xF4
            && |e| == (if e[0] < 0xE0 then 2 else if e[0] < 0xF0 then 3 else 4)
  {
  }

  /** The bytes still missing are collected, and the last decides. */
  lemma {:induction false} FinishCharacter(s: PState, e: seq<Byte>, k: nat)
    requires s.Valid() && s.state == Utf8State && s.utf8Idx == k && s.utf8Len == |e| && 1 <= k < |e| <= 4
    requires s.utf8[..k] == e[..k] && Decode(e).Some? && |Decode(e).value| == 1
    ensures Run(s, e[k..]).1 == [Print(Decode(e).value[0])] && Run(s, e[k..]).0.state == Ground
    decreases |e| - k
  {
    hide Decode;
    var s' := Step(s, e[k]).0;
    assert s'.utf8[..k + 1] == e[..k + 1];
    assert e[k..][1..] == e[k + 1..];
    if k + 1 == |e| {
      assert e[..k + 1] == e;
      assert e[k + 1..] == [];
    } else {
      FinishCharacter(s', e, k + 1);
    }
  }

  /** Parsing the encoding of printable text emits one `Print` per character, in order,
      and ends in the ground state. */
  lemma {:induction false} TextPrints(s: PState, t: seq<Scalar>)
    requires s.Valid() && s.state == Ground && forall i :: 0 <= i < |t| ==> IsPrintable(t[i])
    ensures Run(s, EncodeText(t)).1 == PrintsOf(t) && Run(s, EncodeText(t)).0.state == Ground
    decreases |t|
  {
    hide Step, Encode, IsPrintable;
    if t != [] {
      CharacterPrints(s, t[0]);
      RunConcat(s, Encode(t[0]), EncodeText(t[1..]));
      TextPrints(Run(s, Encode(t[0])).0, t[1..]);
      assert PrintsOf(t) == [Print(t[0])] + PrintsOf(t[1..]);
    }
  }

  // ----- Nothing else prints as itself -----

  function CountPrints(out: seq<Action>): nat {
    if out == [] then 0 else CountPrints(out[..|out| - 1]) + if out[|out| - 1].Print? then 1 else 0
  }

  lemma {:induction false} CountPrintsConcat(a: seq<Action>, b: seq<Action>)
    ensures CountPrints(a + b) == CountPrints(a) + CountPrints(b)
  {
    if b == [] {
      assert a + b == a;
    } else {
      assert (a + b)[..|a + b| - 1] == a + b[..|b| - 1];
      CountPrintsConcat(a, b[..|b| - 1]);
    }
  }

  lemma {:induction false} CountPrintsOf(t: seq<Scalar>)
    ensures CountPrints(PrintsOf(t)) == |t|
  {
    if t != [] {
      assert PrintsOf(t)[..|t| - 1] == PrintsOf(t[..|t| - 1]);
      CountPrintsOf(t[..|t| - 1]);
    }
  }

  /** Bytes that can begin a printed character. */
  predicate IsStarter(b: Byte) {
    IsPrintableAscii(b) || b >= 0xC0
  }

  function Starters(bs: seq<Byte>): nat {
    if bs == [] then 0 else (if IsStarter(bs[0]) then 1 else 0) + Starters(bs[1..])
  }

  function Open(s: PState): nat {
    if s.state == Utf8State then 1 else 0
  }

  lemma StepPrintsAtMost(s: PState, b: Byte)
    requires s.Valid()
    ensures CountPrints(Step(s, b).1) + Open(Step(s, b).0) <= Open(s) + if IsStarter(b) then 1 else 0
  {
    hide Decode, Pushed, Cleared, SplitParts;
    var out := Step(s, b).1;
    if out != [] {
      assert out[..|out| - 1] == [];
    }
  }

  /** From any state, no run prints more characters than it has bytes to begin them
      (a character half read at the start counts too). */
  lemma {:induction false} RunPrintsAtMost(s: PState, bs: seq<Byte>)
    requires s.Valid()
    ensures CountPrints(Run(s, bs).1) + Open(Run(s, bs).0) <= Open(s) + Starters(bs)
    decreases |bs|
  {
    hide Step, CountPrints, IsStarter;
    if bs == [] {
      CountNone();
    } else {
      var (s1, out1) := Step(s, bs[0]);
      StepPrintsAtMost(s, bs[0]);
      RunPrintsAtMost(s1, bs[1..]);
      CountPrintsConcat(out1, Run(s1, bs[1..]).1);
    }
  }

  lemma CountNone()
    ensures CountPrints([]) == 0
  {
  }

  lemma {:induction false} StartersConcat(a: seq<Byte>, b: seq<Byte>)
    ensures Starters(a + b) == Starters(a) + Starters(b)
  {
    if a == [] {
      assert a + b == b;
    } else {
      assert (a + b)[1..] == a[1..] + b;
      StartersConcat(a[1..], b);
    }
  }

  lemma StartersOfCharacter(c: Scalar)
    ensures Starters(Encode(c)) == if IsPrintable(c) then 1 else 0
  {
    var e := Encode(c);
    if |e| > 1 {
      LeadByte(c);
      TailsStartNothing(e[1..]);
    } else {
      assert e[1..] == [];
    }
  }

  lemma {:induction false} TailsStartNothing(bs: seq<Byte>)
    requires forall i :: 0 <= i < |bs| ==> IsTail(bs[i])
    ensures Starters(bs) == 0
  {
    if bs != [] {
      TailsStartNothing(bs[1..]);
    }
  }

  lemma {:induction false} StartersOfText(t: seq<Scalar>)
    ensures Starters(EncodeText(t)) <= |t|
    ensures (exists i :: 0 <= i < |t| && !IsPrintable(t[i])) ==> Starters(EncodeText(t)) < |t|
  {
    hide Encode, IsPrintable;
    if t != [] {
      StartersOfCharacter(t[0]);
      StartersConcat(Encode(t[0]), EncodeText(t[1..]));
      StartersOfText(t[1..]);
      if i :| 0 <= i < |t| && !IsPrintable(t[i]) {
        assert i > 0 ==> !IsPrintable(t[1..][i - 1]);
      }
    }
  }

  /** UTF-8 round trip, exactly: from the ground state the encoding of a text comes out
      as one `Print` per character, in order, if and only if every character is
      0x20 to 0x7E or at least U+0080. */
  lemma TextRoundTrip(s: PState, t: seq<Scalar>)
    requires s.Valid() && s.state == Ground
    ensures Run(s, EncodeText(t)).1 == PrintsOf(t) <==> forall i :: 0 <= i < |t| ==> IsPrintable(t[i])
  {
    hide Step, Run, PrintsOf, CountPrints, EncodeText, IsPrintable;
    if forall i :: 0 <= i < |t| ==> IsPrintable(t[i]) {
      TextPrints(s, t);
    } else {
      StartersOfText(t);
      RunPrintsAtMost(s, EncodeText(t));
      CountPrintsOf(t);
    }
  }

  // ----- Control sequences -----

  /** Parameter bytes are pushed one by one. */
  lemma {:induction false} ParameterBytes(s: PState, bs: seq<Byte>)
    requires s.Valid() && (s.state == CsiEntry || s.state == CsiParam)
    requires forall i :: 0 <= i < |bs| ==> 0x30 <= bs[i] <= 0x3B
    ensures Run(s, bs) == (s.(state := if bs == [] then s.state else CsiParam, params := PushAll(s.params, bs)), [])
    decreases |bs|
  {
    hide Pushed;
    if bs != [] {
      var s1 := Step(s, bs[0]).0;
      assert Step(s, bs[0]) == (s.(state := CsiParam, params := Pushed(s.params, bs[0])), []);
      ParameterBytes(s1, bs[1..]);
      NothingAfterNothing(s, bs);
      PushAllFirst(s.params, bs);
    }
  }

  lemma RunUnfold(s: PState, bs: seq<Byte>)
    requires s.Valid() && bs != []
    ensures var (s1, out1) := Step(s, bs[0]);
            Run(s, bs) == (Run(s1, bs[1..]).0, out1 + Run(s1, bs[1..]).1)
  {
    hide Step;
  }

  lemma NothingBefore(actions: seq<Action>)
    ensures [] + actions == actions
  {
  }

  /** A silent first byte leaves the rest of the run. */
  lemma NothingAfterNothing(s: PState, bs: seq<Byte>)
    requires s.Valid() && bs != [] && Step(s, bs[0]).1 == []
    ensures Run(s, bs) == Run(Step(s, bs[0]).0, bs[1..])
  {
    hide Step, Run;
    RunUnfold(s, bs);
    NothingBefore(Run(Step(s, bs[0]).0, bs[1..]).1);
  }

  /** Two bytes, the first of them silent. */
  lemma TwoBytes(s: PState, a: Byte, b: Byte)
    requires s.Valid() && Step(s, a).1 == []
    ensures Run(s, [a, b]) == Step(Step(s, a).0, b)
  {
    hide Step, Run;
    NothingAfterNothing(s, [a, b]);
    assert [a, b][1..] == [b];
    RunSingle(Step(s, a).0, b);
  }

  lemma EscBegins(s: PState)
    requires s.Valid() && s.state != Utf8State
    ensures Step(s, 0x1B) == (s.(state := Escape, inter := s.inter.Clear()), [])
  {
  }

  lemma PushAllFirst(p: ParamsVal, bs: seq<Byte>)
    requires p.Valid() && bs != []
    ensures PushAll(p, bs) == PushAll(Pushed(p, bs[0]), bs[1..])
  {
    hide Pushed;
    assert bs == [bs[0]] + bs[1..];
    PushAllConcat(p, [bs[0]], bs[1..]);
    assert [bs[0]][..0] == [];
    assert PushAll(p, [bs[0]]) == Pushed(p, bs[0]);
  }

  lemma {:induction false} BodyBytes(items: seq<Item>)
    ensures forall i :: 0 <= i < |Body(items)| ==> 0x30 <= Body(items)[i] <= 0x3B
  {
    if items != [] {
      BodyBytes(items[..|items| - 1]);
    }
  }

  /** From any state but the middle of a character, ESC `[`, a parameter string and a
      final byte give exactly one dispatch, in the ground state, without intermediates
      and with the parameters of the string. */
  lemma ControlSequence(s: PState, items: seq<Item>, final: Byte)
    requires s.Valid() && s.state != Utf8State && items != [] && IsFinal(final)
    ensures var params := PushAll(Cleared(s.params), Body(items));
            var (s', out) := Run(s, [0x1B, 0x5B] + Body(items) + [final]);
            && s'.state == Ground
            && out == [CsiDispatch(params, s.inter.Clear(), false, final)] && s.inter.Clear().Slice() == []
  {
    hide Run, Body, PushAll, Step;
    var opening := [0x1B, 0x5B];
    var s1 := s.(state := CsiEntry, params := Cleared(s.params), inter := s.inter.Clear());
    Introducer(s);
    BodyBytes(items);
    ParameterBytes(s1, Body(items));
    var s2 := Run(s1, Body(items)).0;
    RunSingle(s2, final);
    FinalByte(s2, final);
    RunConcat(s, opening, Body(items));
    RunConcat(s, opening + Body(items), [final]);
  }

  lemma Introducer(s: PState)
    requires s.Valid() && s.state != Utf8State
    ensures Run(s, [0x1B, 0x5B])
            == (s.(state := CsiEntry, params := Cleared(s.params), inter := s.inter.Clear()), [])
  {
    hide Run, Cleared;
    EscBegins(s);
    TwoBytes(s, 0x1B, 0x5B);
  }

  lemma FinalByte(s: PState, final: Byte)
    requires s.Valid() && (s.state == CsiEntry || s.state == CsiParam) && IsFinal(final)
    ensures Step(s, final) == (s.(state := Ground), [CsiDispatch(s.params, s.inter, false, final)])
  {
  }

  /** CSI parameters round trip: what the dispatch carries reads back as the numbers cut
      to 16 bits with exactly the colons marked, for up to 32 of them, whatever earlier
      sequences left behind, exactly when the last item is not an empty one on its own
      or after a colon. */
  lemma CsiRoundTrip(s: PState, items: seq<Item>, final: Byte)
    requires s.Valid() && s.state != Utf8State && items != [] && IsFinal(final)
    ensures var out := Run(s, [0x1B, 0x5B] + Body(items) + [final]).1;
            && |out| == 1 && out[0].CsiDispatch? && out[0].action == final && out[0].params.Valid()
            && (out[0].params.Finished() == Values(items) && out[0].params.FinishedSubparamFlags() == Colons(items)
                <==> var last := items[|items| - 1];
                     |items| > MAX_PARAMS || last.digits != [] || (|items| > 1 && !last.colon))
  {
    hide Run, Body, PushAll, Step, Values, Colons;
    ControlSequence(s, items, final);
    ParametersRoundTrip(s.params, items);
  }

  /** With a `?` after the bracket, the same, and the mark is with the intermediates. */
  lemma PrivateSequence(s: PState, items: seq<Item>, final: Byte)
    requires s.Valid() && s.state != Utf8State && items != [] && IsFinal(final)
    requires items[|items| - 1].digits != []
    ensures var (s', out) := Run(s, [0x1B, 0x5B, 0x3F] + Body(items) + [final]);
            && s'.state == Ground
            && |out| == 1 && out[0].CsiDispatch? && out[0].action == final && !out[0].ignore
            && out[0].params.Valid() && out[0].params.Finished() == Values(items)
            && out[0].intermediates.Valid() && out[0].intermediates.Slice() == [0x3F]
  {
    hide Run, Body, PushAll, Step, Values, Colons;
    var opening := [0x1B, 0x5B, 0x3F];
    PrivateIntroducer(s);
    var s1 := Run(s, opening).0;
    BodyBytes(items);
    ParameterBytes(s1, Body(items));
    var s2 := Run(s1, Body(items)).0;
    RunSingle(s2, final);
    FinalByte(s2, final);
    RunConcat(s, opening, Body(items));
    RunConcat(s, opening + Body(items), [final]);
    ParametersRoundTrip(s.params, items);
  }

  lemma PrivateIntroducer(s: PState)
    requires s.Valid() && s.state != Utf8State
    ensures var (s', out) := Run(s, [0x1B, 0x5B, 0x3F]);
            && out == [] && s'.state == CsiParam && s'.params == Cleared(s.params) && s'.inter.Slice() == [0x3F]
  {
    hide Run, Cleared;
    Introducer(s);
    var s1 := Run(s, [0x1B, 0x5B]).0;
    RunSingle(s1, 0x3F);
    RunConcat(s, [0x1B, 0x5B], [0x3F]);
    assert [0x1B, 0x5B] + [0x3F] == [0x1B, 0x5B, 0x3F];
  }

  // ----- OSC strings -----

  /** What an OSC string collects without ending. */
  predicate IsOscByte(b: Byte) {
    b >= 0x20 && b != 0x9C
  }

  lemma {:induction false} OscCollects(s: PState, data: seq<Byte>)
    requires s.Valid() && s.state == OscString && forall i :: 0 <= i < |data| ==> IsOscByte(data[i])
    ensures var kept := Min(|data|, MAX_OSC_DATA - |s.osc|);
            Run(s, data) == (s.(osc := s.osc + data[..kept]), [])
    decreases |data|
  {
    hide Step;
    if data != [] {
      OscKeeps(s, data[0]);
      var s1 := Step(s, data[0]).0;
      NothingAfterNothing(s, data);
      OscCollects(s1, data[1..]);
      if |s.osc| < MAX_OSC_DATA {
        var kept := Min(|data|, MAX_OSC_DATA - |s.osc|);
        assert s.osc + [data[0]] + data[1..][..kept - 1] == s.osc + data[..kept];
      } else {
        assert data[..0] == [] && data[1..][..0] == [];
      }
    } else {
      assert s.osc + data[..0] == s.osc;
    }
  }

  lemma OscKeeps(s: PState, b: Byte)
    requires s.Valid() && s.state == OscString && IsOscByte(b)
    ensures Step(s, b) == (if |s.osc| < MAX_OSC_DATA then s.(osc := s.osc + [b]) else s, [])
  {
  }

  lemma OscOpens(s: PState)
    requires s.Valid() && s.state != Utf8State
    ensures Run(s, [0x1B, 0x5D]) == (s.(state := OscString, inter := s.inter.Clear(), osc := []), [])
  {
    hide Run, Cleared;
    EscBegins(s);
    TwoBytes(s, 0x1B, 0x5D);
  }

  /** An OSC string ended by BEL or by the one-byte ST is dispatched in parts, cut to 65536 bytes. */
  lemma OscDispatched(s: PState, data: seq<Byte>, end: Byte)
    requires s.Valid() && s.state != Utf8State && (end == 0x07 || end == 0x9C)
    requires forall i :: 0 <= i < |data| ==> IsOscByte(data[i])
    ensures var (s', out) := Run(s, [0x1B, 0x5D] + data + [end]);
            s'.state == Ground && out == [OscDispatch(SplitParts(data[..Min(|data|, MAX_OSC_DATA)]))]
  {
    hide Run, Step, SplitParts;
    OscOpens(s);
    var s1 := Run(s, [0x1B, 0x5D]).0;
    OscCollects(s1, data);
    var kept := data[..Min(|data|, MAX_OSC_DATA)];
    assert [] + kept == kept;
    var s2 := Run(s1, data).0;
    RunSingle(s2, end);
    OscEnds(s2, end);
    RunConcat(s, [0x1B, 0x5D], data);
    RunConcat(s, [0x1B, 0x5D] + data, [end]);
  }

  lemma OscEnds(s: PState, end: Byte)
    requires s.Valid() && s.state == OscString && (end == 0x07 || end == 0x9C)
    ensures Step(s, end) == (s.(state := Ground), [OscDispatch(SplitParts(s.osc))])
  {
  }

  /** The one-byte ST ends the string wherever it stands; what follows is parsed as new input. */
  lemma OscCut(s: PState, data: seq<Byte>, rest: seq<Byte>)
    requires s.Valid() && s.state != Utf8State && forall i :: 0 <= i < |data| ==> IsOscByte(data[i])
    ensures var g := Run(s, [0x1B, 0x5D] + data + [0x9C]).0;
            && g.state == Ground
            && Run(s, [0x1B, 0x5D] + data + [0x9C] + rest).1
               == [OscDispatch(SplitParts(data[..Min(|data|, MAX_OSC_DATA)]))] + Run(g, rest).1
  {
    hide Run, SplitParts;
    OscDispatched(s, data, 0x9C);
    RunConcat(s, [0x1B, 0x5D] + data + [0x9C], rest);
  }

  lemma {:induction false} TextBytes(text: seq<Scalar>)
    requires forall i :: 0 <= i < |text| ==> text[i] >= 0x20
    ensures forall i :: 0 <= i < |EncodeText(text)| ==> EncodeText(text)[i] >= 0x20
  {
    if text != [] {
      TextBytes(text[1..]);
    }
  }

  function FirstSt(data: seq<Byte>): (n: nat)
    ensures n <= |data| && (n < |data| ==> data[n] == 0x9C) && forall i :: 0 <= i < n ==> data[i] != 0x9C
  {
    if data == [] || data[0] == 0x9C then 0 else 1 + FirstSt(data[1..])
  }

  /** A text in an OSC string, ended by BEL: the first dispatch holds the text up to its first
      byte 0x9C, which can be the last or a middle byte of a character; so the text comes out
      whole, and alone, exactly when it has no such byte. */
  lemma OscText(s: PState, text: seq<Scalar>)
    requires s.Valid() && s.state != Utf8State && forall i :: 0 <= i < |text| ==> text[i] >= 0x20
    requires |EncodeText(text)| <= MAX_OSC_DATA
    ensures var (data, out) := (EncodeText(text), Run(s, [0x1B, 0x5D] + EncodeText(text) + [0x07]).1);
            && |out| > 0 && out[0] == OscDispatch(SplitParts(data[..FirstSt(data)]))
            && (out == [OscDispatch(SplitParts(data))] <==> 0x9C !in data)
  {
    hide Run, SplitParts, EncodeText, FirstSt;
    var data := EncodeText(text);
    var n := FirstSt(data);
    TextBytes(text);
    if n == |data| {
      OscDispatched(s, data, 0x07);
      assert data[..n] == data;
    } else {
      var rest := data[n + 1..] + [0x07];
      OscCut(s, data[..n], rest);
      assert [0x1B, 0x5D] + data + [0x07] == [0x1B, 0x5D] + data[..n] + [0x9C] + rest;
      assert data[..n][..n] == data[..n];
      PartsJoin(data);
      PartsJoin(data[..n]);
    }
  }

  /** U+2713 is such a character. */
  lemma CheckMarkCuts()
    ensures EncodeText([0x2713]) == [0xE2, 0x9C, 0x93] && FirstSt(EncodeText([0x2713])) == 1
  {
    assert [0x2713][1..] == [];
    assert Encode(0x2713) == [0xE2, 0x9C, 0x93];
    assert EncodeText([0x2713]) == Encode(0x2713) + EncodeText([]);
    assert [0xE2, 0x9C, 0x93][1..][0] == 0x9C;
  }

  /** Ended by ESC `\` it is dropped: all that comes out is the escape sequence. */
  lemma OscEndedByEscIsDropped(s: PState, data: seq<Byte>)
    requires s.Valid() && s.state != Utf8State && forall i :: 0 <= i < |data| ==> IsOscByte(data[i])
    ensures var (s', out) := Run(s, [0x1B, 0x5D] + data + [0x1B, 0x5C]);
            s'.state == Ground && out == [EscDispatch(s.inter.Clear(), false, 0x5C)]
  {
    hide Run, Step;
    OscOpens(s);
    var s1 := Run(s, [0x1B, 0x5D]).0;
    OscCollects(s1, data);
    var s2 := Run(s1, data).0;
    BackslashEscape(s2);
    RunConcat(s, [0x1B, 0x5D], data);
    RunConcat(s, [0x1B, 0x5D] + data, [0x1B, 0x5C]);
  }

  lemma BackslashEscape(s: PState)
    requires s.Valid() && s.state == OscString
    ensures Run(s, [0x1B, 0x5C])
            == (s.(state := Ground, inter := s.inter.Clear()), [EscDispatch(s.inter.Clear(), false, 0x5C)])
  {
    hide Run, Cleared;
    EscBegins(s);
    TwoBytes(s, 0x1B, 0x5C);
  }

  lemma DcsOpens(s: PState)
    requires s.Valid() && s.state != Utf8State
    ensures Run(s, [0x1B, 0x50])
            == (s.(state := DcsEntry, params := Cleared(s.params), inter := s.inter.Clear()), [])
  {
    hide Run;
    EscBegins(s);
    TwoBytes(s, 0x1B, 0x50);
  }

  lemma DcsMarker(s: PState, marker: seq<Byte>)
    requires s.Valid() && s.state == DcsEntry && s.inter.len == 0
    requires |marker| <= 1 && (marker != [] ==> 0x3C <= marker[0] <= 0x3F)
    ensures var (s', out) := Run(s, marker);
            && out == [] && s'.params == s.params && s'.inter.Slice() == marker
            && s'.state == if marker == [] then DcsEntry else DcsParam
  {
    if marker != [] {
      assert marker == [marker[0]] && marker[1..] == [];
    }
  }

  lemma {:induction false} DcsParamStays(s: PState, body: seq<Byte>)
    requires s.Valid() && (s.state == DcsEntry || s.state == DcsParam)
    requires forall i :: 0 <= i < |body| ==> 0x30 <= body[i] <= 0x39 || body[i] == 0x3B
    ensures var (s', out) := Run(s, body);
            && out == [] && s'.inter == s.inter && s'.params == PushAll(s.params, body)
            && s'.state == if body == [] then s.state else DcsParam
    decreases |body|
  {
    hide Pushed;
    if body != [] {
      DcsParamStays(Step(s, body[0]).0, body[1..]);
      PushAllFirst(s.params, body);
    }
  }

  /** At most four bytes in all are kept. */
  function FirstFour(bytes: seq<Byte>): seq<Byte> {
    bytes[..Min(|bytes|, MAX_INTERMEDIATES)]
  }

  lemma DcsCollects(s: PState, b: Byte)
    requires s.Valid() && s.state in {DcsEntry, DcsParam, DcsIntermediate} && IsIntermediate(b)
    ensures var (s', out) := Step(s, b);
            && out == [] && s'.params == s.params && s'.state == DcsIntermediate
            && s'.inter.Slice() == FirstFour(s.inter.Slice() + [b])
  {
  }

  lemma {:induction false} DcsInterStays(s: PState, inters: seq<Byte>)
    requires s.Valid() && s.state in {DcsEntry, DcsParam, DcsIntermediate}
    requires forall i :: 0 <= i < |inters| ==> IsIntermediate(inters[i])
    ensures var (s', out) := Run(s, inters);
            && out == [] && s'.params == s.params
            && s'.inter.Slice() == FirstFour(s.inter.Slice() + inters)
            && s'.state == if inters == [] then s.state else DcsIntermediate
    decreases |inters|
  {
    hide Step;
    var slice := s.inter.Slice();
    if inters == [] {
      assert slice + [] == slice;
    } else {
      DcsCollects(s, inters[0]);
      DcsInterStays(Step(s, inters[0]).0, inters[1..]);
      assert slice + inters == (slice + [inters[0]]) + inters[1..];
      assert FirstFour(FirstFour(slice + [inters[0]]) + inters[1..]) == FirstFour(slice + inters);
    }
  }

  lemma DcsFinal(s: PState, final: Byte)
    requires s.Valid() && s.state in {DcsEntry, DcsParam, DcsIntermediate} && IsFinal(final)
    ensures var (s', out) := Step(s, final);
            && s'.state == DcsPassthrough
            && out == if s.state == DcsEntry then [] else [DcsHook(s.params, s.inter, false, final)]
  {
  }

  lemma DcsHeader(s: PState, marker: seq<Byte>, body: seq<Byte>, inters: seq<Byte>)
    requires s.Valid() && s.state == DcsEntry && s.inter.len == 0
    requires |marker| <= 1 && (marker != [] ==> 0x3C <= marker[0] <= 0x3F)
    requires forall i :: 0 <= i < |body| ==> 0x30 <= body[i] <= 0x39 || body[i] == 0x3B
    requires forall i :: 0 <= i < |inters| ==> IsIntermediate(inters[i])
    ensures var (s', out) := Run(s, marker + body + inters);
            && out == [] && s'.params == PushAll(s.params, body)
            && s'.inter.Slice() == FirstFour(marker + inters)
            && s'.state in {DcsEntry, DcsParam, DcsIntermediate}
            && (s'.state == DcsEntry <==> marker + body + inters == [])
  {
    hide Run, Step, PushAll, FirstFour;
    DcsMarker(s, marker);
    var s1 := Run(s, marker).0;
    DcsParamStays(s1, body);
    RunConcat(s, marker, body);
    DcsInterStays(Run(s1, body).0, inters);
    RunConcat(s, marker + body, inters);
  }

  /** A DCS announces itself with a hook exactly when something comes before its final byte: a
      marker, parameters or intermediates, which the hook carries. Its data is passed through
      either way. */
  lemma DcsHooked(s: PState, marker: seq<Byte>, body: seq<Byte>, inters: seq<Byte>, final: Byte)
    requires s.Valid() && s.state != Utf8State && IsFinal(final)
    requires |marker| <= 1 && (marker != [] ==> 0x3C <= marker[0] <= 0x3F)
    requires forall i :: 0 <= i < |body| ==> 0x30 <= body[i] <= 0x39 || body[i] == 0x3B
    requires forall i :: 0 <= i < |inters| ==> IsIntermediate(inters[i])
    ensures var (s', out) := Run(s, [0x1B, 0x50] + (marker + body + inters) + [final]);
            && s'.state == DcsPassthrough
            && (out == [] <==> marker + body + inters == [])
            && (out != [] ==> && |out| == 1 && out[0].DcsHook? && out[0].params == PushAll(Cleared(s.params), body)
                              && out[0].intermediates.Valid()
                              && out[0].intermediates.Slice() == FirstFour(marker + inters)
                              && !out[0].ignore && out[0].byte == final)
  {
    hide Run, Pushed, PushAll, Step, Cleared, FirstFour;
    DcsOpens(s);
    var s1, header := Run(s, [0x1B, 0x50]).0, marker + body + inters;
    DcsHeader(s1, marker, body, inters);
    var s2 := Run(s1, header).0;
    RunSingle(s2, final);
    DcsFinal(s2, final);
    RunConcat(s, [0x1B, 0x50], header);
    RunConcat(s, [0x1B, 0x50] + header, [final]);
  }

  /** DECRQSS, ESC P $ q, has no parameter, and a hook. */
  lemma DecrqssIsHooked()
    ensures var out := Run(NewParser(), [0x1B, 0x50, 0x24, 0x71]).1;
            && |out| == 1 && out[0].DcsHook? && out[0].params.FinishedLen() == 0
            && out[0].intermediates.Valid() && out[0].intermediates.Slice() == [0x24]
  {
    hide Run;
    DcsHooked(NewParser(), [], [], [0x24], 0x71);
    assert [0x1B, 0x50] + ([] + [] + [0x24]) + [0x71] == [0x1B, 0x50, 0x24, 0x71];
  }

  function JoinParts(parts: seq<seq<Byte>>): seq<Byte>
    requires parts != []
  {
    if |parts| == 1 then parts[0] else parts[0] + [0x3B] + JoinParts(parts[1..])
  }

  lemma JoinFirst(b: Byte, parts: seq<seq<Byte>>)
    requires parts != []
    ensures JoinParts([[b] + parts[0]] + parts[1..]) == [b] + JoinParts(parts)
  {
    var longer := [[b] + parts[0]] + parts[1..];
    assert longer[1..] == parts[1..];
    if |parts| > 1 {
      var tail := JoinParts(parts[1..]);
      assert [b] + parts[0] + [0x3B] + tail == [b] + (parts[0] + [0x3B] + tail);
    }
  }

  lemma JoinEmpty(parts: seq<seq<Byte>>)
    requires parts != []
    ensures JoinParts([[]] + parts) == [0x3B] + JoinParts(parts)
  {
    assert ([[]] + parts)[1..] == parts;
  }

  /** The parts hold no semicolon, and joined by semicolons they are the data again. */
  lemma {:induction false} PartsJoin(data: seq<Byte>)
    ensures JoinParts(SplitParts(data)) == data
    ensures forall i :: 0 <= i < |SplitParts(data)| ==> 0x3B !in SplitParts(data)[i]
  {
    hide JoinParts;
    if data == [] {
      NothingJoins();
    } else {
      PartsJoin(data[1..]);
      JoinFirst(data[0], SplitParts(data[1..]));
      JoinEmpty(SplitParts(data[1..]));
      assert [data[0]] + data[1..] == data;
    }
  }

  lemma NothingJoins()
    ensures JoinParts([[]]) == []
  {
  }
}
