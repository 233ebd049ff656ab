/** The base64 codec of the clipboard escape, with the alphabet of section 4 of RFC 4648. */
module Base64 {
  import opened Options
  import opened Utf8

  const PAD: Byte := 0x3D
  const INVALID := 0xFF

  type Sextet = x: int | 0 <= x < 64

  /** The alphabet. */
  function EncodeChar(i: Sextet): (b: Byte)
    ensures b < 0x80 && b != PAD
  {
    if i < 26 then 0x41 + i
    else if i < 52 then 0x61 + (i - 26)
    else if i < 62 then 0x30 + (i - 52)
    else if i == 62 then 0x2B
    else 0x2F
  }

  /** The decoding table; every other byte is invalid. */
  function DecodeChar(b: Byte): (v: int)
    ensures 0 <= v < 64 || v == INVALID
  {
    if 0x41 <= b <= 0x5A then b - 0x41
    else if 0x61 <= b <= 0x7A then b as int - 0x61 + 26
    else if 0x30 <= b <= 0x39 then b as int - 0x30 + 52
    else if b == 0x2B then 62
    else if b == 0x2F then 63
    else INVALID
  }

  /** The table inverts the alphabet, and is invalid exactly off it. */
  lemma CharRoundTrip(i: Sextet, b: Byte)
    ensures DecodeChar(EncodeChar(i)) == i
    ensures DecodeChar(b) != INVALID ==> EncodeChar(DecodeChar(b)) == b
  {
  }

  predicate InAlphabet(b: Byte) {
    DecodeChar(b) != INVALID
  }

  // ----- Encoding -----

  /** The four characters of three bytes. */
  function EncodeTriple(b0: Byte, b1: Byte, b2: Byte): (s: seq<Byte>)
    ensures |s| == 4
  {
    var triple := b0 as int * 0x1_0000 + b1 as int * 0x100 + b2;
    [EncodeChar(triple / 0x4_0000 % 0x40), EncodeChar(triple / 0x1000 % 0x40),
     EncodeChar(triple / 0x40 % 0x40), EncodeChar(triple % 0x40)]
  }

  function Encoded(input: seq<Byte>): seq<Byte> {
    if input == [] then []
    else if |input| == 1 then EncodeTriple(input[0], 0, 0)[..2] + [PAD, PAD]
    else if |input| == 2 then EncodeTriple(input[0], input[1], 0)[..3] + [PAD]
    else EncodeTriple(input[0], input[1], input[2]) + Encoded(input[3..])
  }

  /** Chunk by chunk, the last one padded. */
  method Base64Encode(input: seq<Byte>) returns (out: seq<Byte>)
    ensures out == Encoded(input)
  {
    hide EncodeChar, Encoded;
    out := [];
    EncodedNothing();
    var i := 0;
    assert input[i..] == input;
    while i < |input|
      invariant 0 <= i <= |input|
      invariant out + Encoded(input[i..]) == Encoded(input)
    {
      var chunk := input[i..Min(i + 3, |input|)];
      var b0: int := chunk[0];
      var b1: int := if |chunk| > 1 then chunk[1] else 0;
      var b2: int := if |chunk| > 2 then chunk[2] else 0;
      var triple := b0 * 0x1_0000 + b1 * 0x100 + b2;
      var c2 := if |chunk| > 1 then EncodeChar(triple / 0x40 % 0x40) else PAD;
      var c3 := if |chunk| > 2 then EncodeChar(triple % 0x40) else PAD;
      var four := [EncodeChar(triple / 0x4_0000 % 0x40), EncodeChar(triple / 0x1000 % 0x40), c2, c3];
      ghost var next := Min(i + 3, |input|);
      NextChunk(input, i, next, four);
      Associate(out, four, Encoded(input[next..]));
      out := out + four;
      i := Min(i + 3, |input|);
    }
    assert input[i..] == [];
  }

  lemma EncodedNothing()
    ensures Encoded([]) == []
  {
  }

  lemma Associate(a: seq<Byte>, b: seq<Byte>, c: seq<Byte>)
    ensures a + b + c == a + (b + c)
  {
  }

  lemma NextChunk(input: seq<Byte>, i: nat, next: nat, four: seq<Byte>)
    requires i < |input| && next == Min(i + 3, |input|)
    requires var n := next - i;
             var e := EncodeTriple(input[i], if n > 1 then input[i + 1] else 0, if n > 2 then input[i + 2] else 0);
             four == [e[0], e[1], if n > 1 then e[2] else PAD, if n > 2 then e[3] else PAD]
    ensures Encoded(input[i..]) == four + Encoded(input[next..])
  {
    hide EncodeTriple;
    var rest := input[i..];
    if next - i < 3 {
      assert input[next..] == [];
    } else {
      assert rest[3..] == input[next..];
    }
  }

  // ----- Decoding -----

  /** `trim_end_matches('=')`. */
  function TrimPad(s: seq<Byte>): seq<Byte> {
    if s != [] && s[|s| - 1] == PAD then TrimPad(s[..|s| - 1]) else s
  }

  /** Three bytes from four values. */
  function DecodeTriple(a: Sextet, b: Sextet, c: Sextet, d: Sextet): (s: seq<Byte>)
    ensures |s| == 3
  {
    var triple := a as int * 0x4_0000 + b as int * 0x1000 + c as int * 0x40 + d;
    [triple / 0x1_0000 % 0x100, triple / 0x100 % 0x100, triple % 0x100]
  }

  /** `(a << 2) | (b >> 4)` on bytes. */
  function HighByte(a: Sextet, b: Sextet): Byte {
    a * 4 + b / 16
  }

  /** `(b << 4) | (c >> 2)` on bytes: the shift drops the upper bits. */
  function MiddleByte(b: Sextet, c: Sextet): Byte {
    b as int * 16 % 0x100 + c / 4
  }

  function DecodedTail(s: seq<Byte>): Option<seq<Byte>>
    requires |s| < 4
  {
    if |s| == 0 then Some([])
    else if |s| == 1 || exists i :: 0 <= i < |s| && !InAlphabet(s[i]) then None
    else
      var a, b := DecodeChar(s[0]), DecodeChar(s[1]);
      if |s| == 2 then Some([HighByte(a, b)]) else Some([HighByte(a, b), MiddleByte(b, DecodeChar(s[2]))])
  }

  function DecodedFrom(s: seq<Byte>): Option<seq<Byte>> {
    if |s| < 4 then DecodedTail(s)
    else if !(InAlphabet(s[0]) && InAlphabet(s[1]) && InAlphabet(s[2]) && InAlphabet(s[3])) then None
    else
      match DecodedFrom(s[4..])
      case None => None
      case Some(rest) =>
        Some(DecodeTriple(DecodeChar(s[0]), DecodeChar(s[1]), DecodeChar(s[2]), DecodeChar(s[3])) + rest)
  }

  /** Four characters at a time, then what is left over. */
  method Base64Decode(input: seq<Byte>) returns (r: Option<seq<Byte>>)
    ensures r == DecodedFrom(TrimPad(input))
  {
    hide DecodeChar, TrimPad, DecodeTriple, HighByte, MiddleByte;
    var bytes := TrimPad(input);
    var out := [];
    var i := 0;
    PrependNothing(DecodedFrom(bytes));
    assert bytes[0..] == bytes;
    while i + 3 < |bytes|
      invariant 0 <= i <= |bytes|
      invariant DecodedFrom(bytes) == Prepend(out, DecodedFrom(bytes[i..]))
    {
      var a, b, c, d := DecodeChar(bytes[i]), DecodeChar(bytes[i + 1]), DecodeChar(bytes[i + 2]),
          DecodeChar(bytes[i + 3]);
      ghost var here := bytes[i..];
      assert here[0] == bytes[i] && here[1] == bytes[i + 1] && here[2] == bytes[i + 2] && here[3] == bytes[i + 3];
      if a == INVALID || b == INVALID || c == INVALID || d == INVALID {
        return None;
      }
      var three := DecodeTriple(a, b, c, d);
      assert bytes[i..][4..] == bytes[i + 4..];
      PrependTwice(out, three, DecodedFrom(bytes[i + 4..]));
      out := out + three;
      i := i + 4;
    }
    var rem := |bytes| - i;
    ghost var tail := bytes[i..];
    assert forall k :: 0 <= k < rem ==> tail[k] == bytes[i + k];
    if rem == 2 {
      var a, b := DecodeChar(bytes[i]), DecodeChar(bytes[i + 1]);
      if a == INVALID || b == INVALID {
        assert !InAlphabet(tail[0]) || !InAlphabet(tail[1]);
        return None;
      }
      assert InAlphabet(tail[0]) && InAlphabet(tail[1]);
      out := out + [HighByte(a, b)];
    } else if rem == 3 {
      var a, b, c := DecodeChar(bytes[i]), DecodeChar(bytes[i + 1]), DecodeChar(bytes[i + 2]);
      if a == INVALID || b == INVALID || c == INVALID {
        assert !InAlphabet(tail[0]) || !InAlphabet(tail[1]) || !InAlphabet(tail[2]);
        return None;
      }
      assert InAlphabet(tail[0]) && InAlphabet(tail[1]) && InAlphabet(tail[2]);
      out := out + [HighByte(a, b), MiddleByte(b, c)];
    } else if rem == 1 {
      return None;
    } else {
      assert tail == [] && out + [] == out;
    }
    r := Some(out);
  }

  ghost function Prepend(out: seq<Byte>, r: Option<seq<Byte>>): Option<seq<Byte>> {
    match r
    case None => None
    case Some(s) => Some(out + s)
  }

  lemma PrependNothing(r: Option<seq<Byte>>)
    ensures Prepend([], r) == r
  {
    if r.Some? {
      assert [] + r.value == r.value;
    }
  }

  lemma PrependTwice(a: seq<Byte>, b: seq<Byte>, r: Option<seq<Byte>>)
    ensures Prepend(a, Prepend(b, r)) == Prepend(a + b, r)
  {
    if r.Some? {
      assert a + (b + r.value) == a + b + r.value;
    }
  }

  // ----- Round trip -----

  /** What encoding gives before the padding. */
  function Unpadded(input: seq<Byte>): seq<Byte> {
    if input == [] then []
    else if |input| == 1 then EncodeTriple(input[0], 0, 0)[..2]
    else if |input| == 2 then EncodeTriple(input[0], input[1], 0)[..3]
    else EncodeTriple(input[0], input[1], input[2]) + Unpadded(input[3..])
  }

  function Padding(n: nat): seq<Byte> {
    if n % 3 == 1 then [PAD, PAD] else if n % 3 == 2 then [PAD] else []
  }

  lemma {:induction false} EncodedIsPadded(input: seq<Byte>)
    ensures Encoded(input) == Unpadded(input) + Padding(|input|)
    ensures forall i :: 0 <= i < |Unpadded(input)| ==> Unpadded(input)[i] != PAD
  {
    if |input| >= 3 {
      EncodedIsPadded(input[3..]);
      assert (|input| - 3) % 3 == |input| % 3;
    }
  }

  lemma TrimOne(s: seq<Byte>)
    ensures TrimPad(s + [PAD]) == TrimPad(s)
  {
    assert (s + [PAD])[..|s|] == s;
  }

  lemma TrimPadding(s: seq<Byte>, n: nat)
    requires forall i :: 0 <= i < |s| ==> s[i] != PAD
    ensures TrimPad(s + Padding(n)) == s
  {
    assert s + [] == s;
    TrimOne(s);
    TrimOne(s + [PAD]);
    assert s + [PAD] + [PAD] == s + [PAD, PAD];
  }

  /** The four sextets of three bytes. */
  lemma Sextets(b0: Byte, b1: Byte, b2: Byte)
    ensures var t := b0 as int * 0x1_0000 + b1 as int * 0x100 + b2;
            && t / 0x4_0000 % 0x40 == b0 / 4 && t / 0x1000 % 0x40 == b0 % 4 * 16 + b1 / 16
            && t / 0x40 % 0x40 == b1 % 16 * 4 + b2 / 64 && t % 0x40 == b2 % 64
  {
    var t := b0 as int * 0x1_0000 + b1 as int * 0x100 + b2;
    var h1, h2 := b0 as int * 0x400 + b1 as int * 4 + b2 / 64, b0 as int * 16 + b1 / 16;
    UpperPart(t, h1, b2 % 64);
    UpperPart(h1, h2, b1 % 16 * 4 + b2 / 64);
    UpperPart(h2, b0 / 4, b0 % 4 * 16 + b1 / 16);
    assert t / 0x1000 == t / 0x40 / 0x40 && t / 0x4_0000 == t / 0x1000 / 0x40;
  }

  lemma UpperPart(t: nat, high: nat, low: nat)
    requires t == high * 0x40 + low && low < 0x40
    ensures t / 0x40 == high && t % 0x40 == low
  {
  }

  /** Three bytes are their four sextets. */
  lemma Bytes(b0: Byte, b1: Byte, b2: Byte)
    ensures var a, b, c, d := b0 / 4, b0 % 4 * 16 + b1 / 16, b1 % 16 * 4 + b2 / 64, b2 % 64;
            && a < 64 && b < 64 && c < 64
            && DecodeTriple(a, b, c, d) == [b0, b1, b2]
            && HighByte(a, b) == b0 && MiddleByte(b, c) == b1
  {
    var p: int, q: int, r: int, u: int, v: int, w: int := b0 / 4, b0 % 4, b1 / 16, b1 % 16, b2 / 64, b2 % 64;
    assert b0 == 4 * p + q && b1 == 16 * r + u && b2 == 64 * v + w;
    assert p * 0x4_0000 + (q * 16 + r) * 0x1000 + (u * 4 + v) * 0x40 + w
           == b0 as int * 0x1_0000 + b1 as int * 0x100 + b2;
    TripleBytes(b0, b1, b2);
    assert (q * 16 + r) / 16 == q && (u * 4 + v) / 4 == u;
    assert (q * 16 + r) * 16 % 0x100 == r * 16;
  }

  lemma TripleBytes(b0: Byte, b1: Byte, b2: Byte)
    ensures var t := b0 as int * 0x1_0000 + b1 as int * 0x100 + b2;
            t / 0x1_0000 % 0x100 == b0 && t / 0x100 % 0x100 == b1 && t % 0x100 == b2
  {
    var t := b0 as int * 0x1_0000 + b1 as int * 0x100 + b2;
    assert t / 0x100 == b0 as int * 0x100 + b1;
    assert t / 0x1_0000 == t / 0x100 / 0x100;
  }

  lemma TripleRoundTrip(b0: Byte, b1: Byte, b2: Byte)
    ensures var e := EncodeTriple(b0, b1, b2);
            && InAlphabet(e[0]) && InAlphabet(e[1]) && InAlphabet(e[2]) && InAlphabet(e[3])
            && DecodeTriple(DecodeChar(e[0]), DecodeChar(e[1]), DecodeChar(e[2]), DecodeChar(e[3])) == [b0, b1, b2]
            && HighByte(DecodeChar(e[0]), DecodeChar(e[1])) == b0
            && MiddleByte(DecodeChar(e[1]), DecodeChar(e[2])) == b1
  {
    hide EncodeChar, DecodeChar, DecodeTriple, HighByte, MiddleByte;
    Sextets(b0, b1, b2);
    Bytes(b0, b1, b2);
    CharRoundTrip(b0 / 4, 0);
    CharRoundTrip(b0 % 4 * 16 + b1 / 16, 0);
    CharRoundTrip(b1 % 16 * 4 + b2 / 64, 0);
    CharRoundTrip(b2 % 64, 0);
  }

  lemma {:induction false} UnpaddedDecodes(input: seq<Byte>)
    ensures DecodedFrom(Unpadded(input)) == Some(input)
  {
    hide EncodeTriple, DecodeTriple, HighByte, MiddleByte, DecodeChar;
    if |input| == 1 {
      TripleRoundTrip(input[0], 0, 0);
      assert input == [input[0]];
    } else if |input| == 2 {
      TripleRoundTrip(input[0], input[1], 0);
      assert input == [input[0], input[1]];
    } else if |input| >= 3 {
      TripleRoundTrip(input[0], input[1], input[2]);
      UnpaddedDecodes(input[3..]);
      var e := EncodeTriple(input[0], input[1], input[2]);
      assert (e + Unpadded(input[3..]))[4..] == Unpadded(input[3..]);
      assert input == [input[0], input[1], input[2]] + input[3..];
    }
  }

  /** Decoding an encoding gives back every byte string, for all three tail lengths. */
  lemma RoundTrip(input: seq<Byte>)
    ensures DecodedFrom(TrimPad(Encoded(input))) == Some(input)
  {
    EncodedIsPadded(input);
    TrimPadding(Unpadded(input), |input|);
    UnpaddedDecodes(input);
  }

  /** Decoding succeeds exactly when, trailing padding apart, every character is in the
      alphabet and not just one is left over after groups of four. */
  lemma {:induction false} DecodesExactly(s: seq<Byte>)
    ensures DecodedFrom(s).Some? <==> |s| % 4 != 1 && forall i :: 0 <= i < |s| ==> InAlphabet(s[i])
    ensures DecodedFrom(s).Some? ==> |DecodedFrom(s).value| == |s| * 3 / 4
  {
    hide DecodeTriple, HighByte, MiddleByte, DecodeChar;
    if |s| >= 4 {
      DecodesExactly(s[4..]);
      assert forall i :: 0 <= i < |s| - 4 ==> s[4..][i] == s[i + 4];
      assert forall i :: 4 <= i < |s| ==> s[i] == s[4..][i - 4];
    }
  }
}
