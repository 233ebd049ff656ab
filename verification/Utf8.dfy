/** UTF-8 as RFC 3629 defines it: section 3 gives the encoding, section 4 the syntax
    of well-formed octet sequences. `Decode` stands for the standard library's
    `from_utf8`. */
module Utf8 {
  import opened Options

  type Byte = x: int | 0 <= x < 0x100

  /** A Unicode scalar value. */
  type Scalar = x: int | 0 <= x < 0xD800 || 0xE000 <= x < 0x11_0000

  function Encode(c: Scalar): (s: seq<Byte>)
    ensures 1 <= |s| <= 4
  {
    if c < 0x80 then [c]
    else if c < 0x800 then [0xC0 + c / 0x40, 0x80 + c % 0x40]
    else if c < 0x1_0000 then [0xE0 + c / 0x1000, 0x80 + c / 0x40 % 0x40, 0x80 + c % 0x40]
    else [0xF0 + c / 0x4_0000, 0x80 + c / 0x1000 % 0x40, 0x80 + c / 0x40 % 0x40, 0x80 + c % 0x40]
  }

  function EncodeText(t: seq<Scalar>): seq<Byte> {
    if t == [] then [] else Encode(t[0]) + EncodeText(t[1..])
  }

  predicate IsTail(b: Byte) {
    0x80 <= b < 0xC0
  }

  /** UTF8-2, UTF8-3 and UTF8-4 of the grammar. */
  predicate IsTwo(s: seq<Byte>) {
    |s| >= 2 && 0xC2 <= s[0] < 0xE0 && IsTail(s[1])
  }

  predicate IsThree(s: seq<Byte>) {
    && |s| >= 3 && 0xE0 <= s[0] < 0xF0 && IsTail(s[1]) && IsTail(s[2])
    && (s[0] == 0xE0 ==> s[1] >= 0xA0)
    && (s[0] == 0xED ==> s[1] < 0xA0)
  }

  predicate IsFour(s: seq<Byte>) {
    && |s| >= 4 && 0xF0 <= s[0] < 0xF5 && IsTail(s[1]) && IsTail(s[2]) && IsTail(s[3])
    && (s[0] == 0xF0 ==> s[1] >= 0x90)
    && (s[0] == 0xF4 ==> s[1] < 0x90)
  }

  /** Payload bits of lead and tail octets put together, six bits a tail. */
  function Six(high: int, tail: int): int {
    high * 0x40 + (tail - 0x80)
  }

  /** The first character and the octets after it. */
  function DecodeFirst(s: seq<Byte>): (r: Option<(Scalar, seq<Byte>)>)
    ensures r.Some? ==> |r.value.1| < |s|
  {
    if s == [] then None
    else
      var lead: int := s[0];
      if lead < 0x80 then Some((lead, s[1..]))
      else if IsTwo(s) then Some((Six(lead - 0xC0, s[1]), s[2..]))
      else if IsThree(s) then Some((Six(Six(lead - 0xE0, s[1]), s[2]), s[3..]))
      else if IsFour(s) then Some((Six(Six(Six(lead - 0xF0, s[1]), s[2]), s[3]), s[4..]))
      else None
  }

  function Decode(s: seq<Byte>): Option<seq<Scalar>>
    decreases |s|
  {
    if s == [] then Some([])
    else
      match DecodeFirst(s)
      case None => None
      case Some((c, rest)) =>
        match Decode(rest)
        case None => None
        case Some(t) => Some([c] + t)
  }

  /** A code point is its payload bits put together again. */
  lemma SixDigits(c: nat)
    ensures Six(c / 0x40, 0x80 + c % 0x40) == c
    ensures Six(c / 0x1000, 0x80 + c / 0x40 % 0x40) == c / 0x40
    ensures Six(c / 0x4_0000, 0x80 + c / 0x1000 % 0x40) == c / 0x1000
  {
    assert c / 0x1000 == c / 0x40 / 0x40;
    assert c / 0x4_0000 == c / 0x1000 / 0x40;
  }

  /** What is encoded is read back, and nothing after it is touched. */
  lemma DecodeFirstEncode(c: Scalar, rest: seq<Byte>)
    ensures DecodeFirst(Encode(c) + rest) == Some((c, rest))
  {
    var e := Encode(c);
    var s := e + rest;
    assert s[|e|..] == rest;
    assert forall i :: 0 <= i < |e| ==> s[i] == e[i];
    SixDigits(c);
  }

  lemma {:induction false} DecodeEncodeText(t: seq<Scalar>)
    ensures Decode(EncodeText(t)) == Some(t)
  {
    if t != [] {
      DecodeFirstEncode(t[0], EncodeText(t[1..]));
      DecodeEncodeText(t[1..]);
      assert t == [t[0]] + t[1..];
    }
  }

  lemma DecodeEncode(c: Scalar)
    ensures Decode(Encode(c)) == Some([c])
  {
    DecodeEncodeText([c]);
    assert EncodeText([c]) == Encode(c);
  }

  /** Well-formed octets come from exactly one text: decoding, then encoding, is the identity. */
  lemma {:induction false} EncodeDecode(s: seq<Byte>)
    requires Decode(s).Some?
    ensures EncodeText(Decode(s).value) == s
    decreases |s|
  {
    if s != [] {
      var (c, rest) := DecodeFirst(s).value;
      EncodeDecodeFirst(s);
      EncodeDecode(rest);
      var t := Decode(rest).value;
      assert ([c] + t)[1..] == t;
    }
  }

  /** Dividing the payload bits out again. */
  lemma SixParts(high: nat, tail: int)
    requires 0x80 <= tail < 0xC0
    ensures Six(high, tail) >= 0 && Six(high, tail) / 0x40 == high && 0x80 + Six(high, tail) % 0x40 == tail
  {
  }

  lemma EncodeDecodeFirst(s: seq<Byte>)
    requires DecodeFirst(s).Some?
    ensures var (c, rest) := DecodeFirst(s).value; Encode(c) + rest == s
  {
    var (c, rest) := DecodeFirst(s).value;
    if s[0] < 0x80 {
    } else if IsTwo(s) {
      EncodeTwo(s);
    } else if IsThree(s) {
      EncodeThree(s);
    } else {
      EncodeFour(s);
    }
    assert s == s[..|s| - |rest|] + rest;
  }

  lemma EncodeTwo(s: seq<Byte>)
    requires IsTwo(s)
    ensures var c := Six(s[0] as int - 0xC0, s[1]); 0x80 <= c < 0x800 && Encode(c) == s[..2]
  {
    SixParts(s[0] as int - 0xC0, s[1]);
  }

  lemma EncodeThree(s: seq<Byte>)
    requires IsThree(s)
    ensures var c := Six(Six(s[0] as int - 0xE0, s[1]), s[2]);
            0x800 <= c < 0x1_0000 && !(0xD800 <= c < 0xE000) && Encode(c) == s[..3]
  {
    var h := Six(s[0] as int - 0xE0, s[1]);
    SixParts(s[0] as int - 0xE0, s[1]);
    SixParts(h, s[2]);
    assert Six(h, s[2]) / 0x1000 == h / 0x40;
  }

  lemma EncodeFour(s: seq<Byte>)
    requires IsFour(s)
    ensures var c := Six(Six(Six(s[0] as int - 0xF0, s[1]), s[2]), s[3]);
            0x1_0000 <= c < 0x11_0000 && Encode(c) == s[..4]
  {
    hide Six;
    var l := s[0] as int - 0xF0;
    var g := Six(l, s[1]);
    SixParts(l, s[1]);
    SixRange(l, s[1]);
    var h := Six(g, s[2]);
    SixParts(g, s[2]);
    SixRange(g, s[2]);
    var c := Six(h, s[3]);
    SixParts(h, s[3]);
    SixRange(h, s[3]);
    assert c / 0x40 == h && h / 0x40 == g;
    assert c / 0x1000 == g && c / 0x4_0000 == l by {
      assert c / 0x1000 == c / 0x40 / 0x40 && c / 0x4_0000 == c / 0x40 / 0x40 / 0x40;
    }
    assert Encode(c) == [s[0], s[1], s[2], s[3]];
  }

  lemma SixRange(high: nat, tail: int)
    requires 0x80 <= tail < 0xC0
    ensures high * 0x40 <= Six(high, tail) < high * 0x40 + 0x40
    ensures tail >= 0x90 ==> Six(high, tail) >= high * 0x40 + 0x10
    ensures tail < 0x90 ==> Six(high, tail) < high * 0x40 + 0x10
  {
  }
}
