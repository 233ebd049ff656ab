/** Hyperlinks, from the bytes that begin and end them. */
module LinkEffects {
  import opened Options
  import opened Utf8
  import opened Cells
  import opened VtParser
  import opened ParserRoundTrips
  import opened ScreenState
  import opened Performing
  import opened Runs
  import opened Received

  /** What stands before the first semicolon is a part. */
  lemma {:induction false} FirstSplit(part: seq<Byte>, rest: seq<Byte>)
    requires 0x3B !in part && (rest == [] || rest[0] == 0x3B)
    ensures SplitParts(part + rest) == [part] + if rest == [] then [] else SplitParts(rest[1..])
    decreases |part|
  {
    if part == [] {
      assert part + rest == rest;
    } else {
      assert (part + rest)[1..] == part[1..] + rest;
      FirstSplit(part[1..], rest);
      assert [part[0]] + part[1..] == part;
    }
  }

  /** OSC 8: parameters, and the address as far as the next semicolon. */
  function LinkData(params: seq<Byte>, uri: seq<Byte>, rest: seq<Byte>): seq<Byte> {
    [0x38] + ([0x3B] + (params + ([0x3B] + (uri + rest))))
  }

  lemma LinkParts(params: seq<Byte>, uri: seq<Byte>, rest: seq<Byte>)
    requires 0x3B !in params && 0x3B !in uri && (rest == [] || rest[0] == 0x3B)
    ensures var parts := SplitParts(LinkData(params, uri, rest));
            |parts| >= 3 && parts[0] == [0x38] && parts[2] == uri
  {
    hide SplitParts;
    FirstSplit([0x38], [0x3B] + (params + ([0x3B] + (uri + rest))));
    FirstSplit(params, [0x3B] + (uri + rest));
    FirstSplit(uri, rest);
  }

  lemma LinkAction(s: ScreenV, parts: seq<seq<Byte>>)
    requires CanPerform(s, OscDispatch(parts)) && |parts| >= 3 && parts[0] == [0x38]
    ensures Performed(s, OscDispatch(parts))
         == s.(hyperlink := if parts[2] == [] || Decode(parts[2]).None? then None else Some(parts[2]))
  {
    hide Safe, Tight, Keeps, Decode;
  }

  /** A link begins at its address, if that is UTF-8, and ends with an empty one. An address that
      holds a semicolon itself is cut there. */
  lemma Links(s: ScreenV, p: PState, params: seq<Byte>, uri: seq<Byte>, rest: seq<Byte>, end: Byte)
    returns (r: ScreenV)
    requires Safe(s) && Ready(p) && (end == 0x07 || end == 0x9C)
    requires 0x3B !in params && 0x3B !in uri && (rest == [] || rest[0] == 0x3B)
    requires var data := LinkData(params, uri, rest);
             |data| <= MAX_OSC_DATA && forall i :: 0 <= i < |data| ==> IsOscByte(data[i])
    ensures Gives(s, p, [0x1B, 0x5D] + LinkData(params, uri, rest) + [end], r)
    ensures r == s.(hyperlink := if uri == [] || Decode(uri).None? then None else Some(uri))
  {
    hide Safe, Gives, Run, SplitParts, Performed, Decode, IsOscByte;
    var data := LinkData(params, uri, rest);
    OscDispatched(p, data, end);
    assert data[..Min(|data|, MAX_OSC_DATA)] == data;
    LinkParts(params, uri, rest);
    var a := OscDispatch(SplitParts(data));
    ActionGives(s, p, [0x1B, 0x5D] + data + [end], a);
    LinkAction(s, SplitParts(data));
    r := Performed(s, a);
  }

  lemma OneOrTwoParts(first: seq<Byte>, second: seq<Byte>)
    requires 0x3B !in first && 0x3B !in second
    ensures SplitParts(first) == [first] && SplitParts(first + ([0x3B] + second)) == [first, second]
  {
    hide SplitParts;
    FirstSplit(first, []);
    assert first + [] == first;
    FirstSplit(first, [0x3B] + second);
    assert ([0x3B] + second)[1..] == second;
    FirstSplit(second, []);
    assert second + [] == second;
  }

  /** Without an address OSC 8 ends the link; without parameters either it does nothing, and neither
      does any other command. */
  lemma LinkActions(s: ScreenV, first: seq<Byte>, second: seq<Byte>, more: seq<seq<Byte>>)
    requires Safe(s)
    ensures CanPerform(s, OscDispatch([[0x38], second]))
            && Performed(s, OscDispatch([[0x38], second])) == s.(hyperlink := None)
    ensures CanPerform(s, OscDispatch([[0x38]])) && Performed(s, OscDispatch([[0x38]])) == s
    ensures first != [0x38] ==>
              CanPerform(s, OscDispatch([first] + more)) && Performed(s, OscDispatch([first] + more)) == s
  {
    hide Safe, Tight, Keeps, Decode;
  }

  lemma EndsLink(s: ScreenV, p: PState, params: seq<Byte>, end: Byte) returns (r: ScreenV)
    requires Safe(s) && Ready(p) && (end == 0x07 || end == 0x9C) && 0x3B !in params && |params| + 2 <= MAX_OSC_DATA
    requires forall i :: 0 <= i < |params| ==> IsOscByte(params[i])
    ensures Gives(s, p, [0x1B, 0x5D] + ([0x38] + ([0x3B] + params)) + [end], r) && r == s.(hyperlink := None)
  {
    hide Safe, Gives, Run, SplitParts, Performed;
    var data := [0x38] + ([0x3B] + params);
    OscDispatched(p, data, end);
    assert data[..Min(|data|, MAX_OSC_DATA)] == data;
    OneOrTwoParts([0x38], params);
    LinkActions(s, [], params, []);
    var a := OscDispatch([[0x38], params]);
    ActionGives(s, p, [0x1B, 0x5D] + data + [end], a);
    r := Performed(s, a);
  }
}
