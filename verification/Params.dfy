/** Accumulation of the numeric parameters of a control sequence. */
module VtParams {
  import opened Options
  import opened Utf8

  const MAX_PARAMS := 32
  const U16_MAX := 0xFFFF
  const U32_MAX := 0xFFFF_FFFF

  type U16 = x: int | 0 <= x <= U16_MAX

  /** A copy of the accumulator. The arrays are never wiped, so entries from `len` on
      are left over from earlier sequences. */
  datatype ParamsVal = ParamsVal(values: seq<U16>, subparamFlags: seq<bool>, len: nat, current: nat,
                                 hasCurrent: bool, trailingSep: bool, pendingColon: bool)
  {
    ghost predicate Valid() {
      |values| == MAX_PARAMS && |subparamFlags| == MAX_PARAMS && len <= MAX_PARAMS && current <= U32_MAX
    }

    /** The value being accumulated, cut to 16 bits. */
    function Pending(): U16 {
      if hasCurrent then Min(current, U16_MAX) else 0
    }

    /** `finished_len`, which is also `len`. */
    function FinishedLen(): nat {
      if len < MAX_PARAMS && (hasCurrent || trailingSep) then len + 1 else len
    }

    function Finished(): seq<U16>
      requires Valid()
    {
      values[..len] + if len == MAX_PARAMS then [] else if hasCurrent then [Min(current, U16_MAX)]
                      else if trailingSep then [0] else []
    }

    function FinishedSubparamFlags(): seq<bool>
      requires Valid()
    {
      subparamFlags[..len] + if len == MAX_PARAMS then [] else if hasCurrent then [pendingColon]
                             else if trailingSep then [false] else []
    }

    function Get(index: nat, default: U16): U16
      requires Valid()
    {
      if index >= FinishedLen() then default
      else if index < len then values[index]
      else if hasCurrent then Min(current, U16_MAX) else 0
    }

    /** Zero counts as absent. */
    function GetOr(index: nat, default: U16): U16
      requires Valid()
    {
      if Get(index, 0) == 0 then default else Get(index, 0)
    }
  }

  /** `get`, `len` and `finished` agree, whatever is left over in the arrays. */
  lemma GetReadsFinished(p: ParamsVal, index: nat, default: U16)
    requires p.Valid()
    ensures |p.Finished()| == p.FinishedLen() == |p.FinishedSubparamFlags()|
    ensures p.Get(index, default) == if index < |p.Finished()| then p.Finished()[index] else default
  {
  }

  // ----- The accumulator as a function -----

  /** `saturating_mul(10).saturating_add(digit)` on 32 bits. */
  function Accumulate(current: nat, digit: nat): nat {
    Min(Min(current * 10, U32_MAX) + digit, U32_MAX)
  }

  function Cleared(p: ParamsVal): ParamsVal {
    p.(len := 0, current := 0, hasCurrent := false, trailingSep := false, pendingColon := false)
  }

  /** The pending value is stored, if there is room. */
  function Stored(p: ParamsVal): (r: ParamsVal)
    requires p.Valid()
    ensures r.Valid()
  {
    if p.len < MAX_PARAMS then
      p.(values := p.values[p.len := p.Pending()], subparamFlags := p.subparamFlags[p.len := p.pendingColon],
         len := p.len + 1)
    else p
  }

  /** One byte: a digit, a semicolon or a colon. */
  function Pushed(p: ParamsVal, b: Byte): (r: ParamsVal)
    requires p.Valid()
    ensures r.Valid()
  {
    if 0x30 <= b <= 0x39 then
      p.(hasCurrent := true, trailingSep := false, current := Accumulate(p.current, b - 0x30))
    else if b == 0x3B then
      Stored(p).(current := 0, hasCurrent := false, trailingSep := true, pendingColon := false)
    else if b == 0x3A then
      Stored(p).(current := 0, hasCurrent := false, pendingColon := true)
    else p
  }

  // ----- The accumulator as an object -----

  class Params {
    const values: array<U16>
    const subparamFlags: array<bool>
    var len: nat
    var current: nat
    var hasCurrent: bool
    var trailingSep: bool
    var pendingColon: bool

    ghost predicate Valid()
      reads this, values, subparamFlags
    {
      && values.Length == MAX_PARAMS && subparamFlags.Length == MAX_PARAMS
      && Value().Valid()
    }

    function Value(): ParamsVal
      reads this, values, subparamFlags
    {
      ParamsVal(values[..], subparamFlags[..], len, current, hasCurrent, trailingSep, pendingColon)
    }

    constructor ()
      ensures Valid() && fresh(values) && fresh(subparamFlags)
      ensures Value() == NewParams()
    {
      values := new U16[MAX_PARAMS](_ => 0);
      subparamFlags := new bool[MAX_PARAMS](_ => false);
      len, current := 0, 0;
      hasCurrent, trailingSep, pendingColon := false, false, false;
      new;
      assert values[..] == NewParams().values && subparamFlags[..] == NewParams().subparamFlags;
    }

    method Clear()
      requires Valid()
      modifies this
      ensures Valid() && Value() == Cleared(old(Value()))
    {
      len, current := 0, 0;
      hasCurrent, trailingSep, pendingColon := false, false, false;
    }

    method Push(b: Byte)
      requires Valid()
      modifies this, values, subparamFlags
      ensures Valid() && Value() == Pushed(old(Value()), b)
    {
      if 0x30 <= b <= 0x39 {
        hasCurrent, trailingSep := true, false;
        current := Accumulate(current, b - 0x30);
      } else if b == 0x3B {
        Store();
        current, hasCurrent, trailingSep, pendingColon := 0, false, true, false;
      } else if b == 0x3A {
        Store();
        current, hasCurrent, pendingColon := 0, false, true;
      }
    }

    method Store()
      requires Valid()
      modifies this, values, subparamFlags
      ensures Valid() && Value() == Stored(old(Value()))
    {
      if len < MAX_PARAMS {
        var val: U16 := if hasCurrent then Min(current, U16_MAX) else 0;
        values[len] := val;
        subparamFlags[len] := pendingColon;
        len := len + 1;
      }
    }
  }

  function NewParams(): (p: ParamsVal)
    ensures p.Valid() && p.FinishedLen() == 0
  {
    ParamsVal(seq(MAX_PARAMS, _ => 0), seq(MAX_PARAMS, _ => false), 0, 0, false, false, false)
  }

  // ----- Parameter strings -----

  type Digit = x: int | 0 <= x <= 9

  /** A digit string, and whether the separator before it is a colon. */
  datatype Item = Item(digits: seq<Digit>, colon: bool)

  function DigitBytes(digits: seq<Digit>): seq<Byte> {
    seq(|digits|, i requires 0 <= i < |digits| => 0x30 + digits[i] as int)
  }

  function Separator(it: Item): Byte {
    if it.colon then 0x3A else 0x3B
  }

  /** The digit strings with their separators; the first has none. */
  function Body(items: seq<Item>): seq<Byte> {
    if items == [] then []
    else
      var n := |items| - 1;
      Body(items[..n]) + (if n == 0 then [] else [Separator(items[n])]) + DigitBytes(items[n].digits)
  }

  function NumberOf(digits: seq<Digit>): nat {
    if digits == [] then 0 else NumberOf(digits[..|digits| - 1]) * 10 + digits[|digits| - 1]
  }

  function ValueOf(it: Item): U16 {
    Min(NumberOf(it.digits), U16_MAX)
  }

  /** Each number cut to 16 bits, for the first 32 items. */
  function Values(items: seq<Item>): seq<U16> {
    var n := Min(|items|, MAX_PARAMS);
    seq(n, i requires 0 <= i < n => ValueOf(items[i]))
  }

  /** Which of the first 32 items come after a colon. */
  function Colons(items: seq<Item>): seq<bool> {
    var n := Min(|items|, MAX_PARAMS);
    seq(n, i requires 0 <= i < n => i > 0 && items[i].colon)
  }

  function PushAll(p: ParamsVal, bs: seq<Byte>): (r: ParamsVal)
    requires p.Valid()
    ensures r.Valid()
  {
    if bs == [] then p else Pushed(PushAll(p, bs[..|bs| - 1]), bs[|bs| - 1])
  }

  lemma {:induction false} PushAllConcat(p: ParamsVal, a: seq<Byte>, b: seq<Byte>)
    requires p.Valid()
    ensures PushAll(p, a + b) == PushAll(PushAll(p, a), b)
  {
    if b == [] {
      assert a + b == a;
    } else {
      var n := |b| - 1;
      assert (a + b)[..|a + b| - 1] == a + b[..n];
      PushAllConcat(p, a, b[..n]);
    }
  }

  /** Digits accumulate to the number, saturating at 32 bits. */
  lemma {:induction false} PushDigits(p: ParamsVal, digits: seq<Digit>)
    requires p.Valid() && p.current == 0
    ensures PushAll(p, DigitBytes(digits))
            == if digits == [] then p
               else p.(hasCurrent := true, trailingSep := false, current := Min(NumberOf(digits), U32_MAX))
  {
    if digits != [] {
      var n := |digits| - 1;
      var bs := DigitBytes(digits);
      assert bs[..n] == DigitBytes(digits[..n]);
      PushDigits(p, digits[..n]);
    }
  }

  /** Whether a semicolon stands after the last digit. */
  function SemicolonLast(items: seq<Item>): bool {
    if |items| <= 1 || items[|items| - 1].digits != [] then false
    else !items[|items| - 1].colon || SemicolonLast(items[..|items| - 1])
  }

  /** The accumulator after a whole parameter string. */
  ghost predicate Holds(p: ParamsVal, items: seq<Item>)
    requires items != [] && p.Valid()
  {
    var n := |items| - 1;
    && p.len == Min(n, MAX_PARAMS)
    && p.values[..p.len] == Values(items[..n]) && p.subparamFlags[..p.len] == Colons(items[..n])
    && p.hasCurrent == (items[n].digits != [])
    && p.current == Min(NumberOf(items[n].digits), U32_MAX)
    && p.pendingColon == (n > 0 && items[n].colon)
    && p.trailingSep == SemicolonLast(items)
  }

  lemma {:induction false} BodyHolds(p: ParamsVal, items: seq<Item>)
    requires p.Valid() && items != []
    ensures Holds(PushAll(Cleared(p), Body(items)), items)
  {
    hide Values, Colons, NumberOf, DigitBytes, Pushed;
    var n := |items| - 1;
    var digits := items[n].digits;
    NoDigits();
    if n == 0 {
      NoValues(items[..0]);
      assert Body(items) == DigitBytes(digits);
      PushDigits(Cleared(p), digits);
    } else {
      var prev := items[..n];
      var sep := [Separator(items[n])];
      var before := PushAll(Cleared(p), Body(prev));
      BodyHolds(p, prev);
      PushAllConcat(Cleared(p), Body(prev) + sep, DigitBytes(digits));
      PushAllConcat(Cleared(p), Body(prev), sep);
      assert PushAll(before, sep) == Pushed(before, sep[0]) by {
        assert sep[..0] == [];
      }
      SeparatorHolds(before, prev, items[n]);
      PushDigits(Pushed(before, sep[0]), digits);
      assert prev + [items[n]] == items;
    }
  }

  lemma NoValues(items: seq<Item>)
    requires items == []
    ensures Values(items) == [] && Colons(items) == []
  {
  }

  lemma ValuesSnoc(items: seq<Item>, last: Item)
    ensures Values(items + [last]) == if |items| < MAX_PARAMS then Values(items) + [ValueOf(last)] else Values(items)
    ensures Colons(items + [last])
            == if |items| < MAX_PARAMS then Colons(items) + [items != [] && last.colon] else Colons(items)
  {
    hide ValueOf;
  }

  lemma StoreExtends<T>(s: seq<T>, n: nat, x: T)
    requires n < |s|
    ensures s[n := x][..n + 1] == s[..n] + [x]
  {
  }

  lemma NoDigits()
    ensures NumberOf([]) == 0 && DigitBytes([]) == []
  {
  }

  lemma StoredHolds(p: ParamsVal, prev: seq<Item>)
    requires p.Valid() && prev != [] && Holds(p, prev)
    ensures var r := Stored(p);
            && r.len == Min(|prev|, MAX_PARAMS)
            && r.values[..r.len] == Values(prev) && r.subparamFlags[..r.len] == Colons(prev)
            && r.trailingSep == SemicolonLast(prev)
  {
    hide Values, Colons, SemicolonLast, NumberOf;
    var n := |prev| - 1;
    ValuesSnoc(prev[..n], prev[n]);
    assert prev[..n] + [prev[n]] == prev;
    NoDigits();
    if n < MAX_PARAMS {
      StoreExtends(p.values, n, p.Pending());
      StoreExtends(p.subparamFlags, n, p.pendingColon);
    }
  }

  /** A separator stores the item before it. */
  lemma SeparatorHolds(p: ParamsVal, prev: seq<Item>, next: Item)
    requires p.Valid() && prev != [] && Holds(p, prev)
    ensures var r := Pushed(p, Separator(next));
            && r.len == Min(|prev|, MAX_PARAMS)
            && r.values[..r.len] == Values(prev) && r.subparamFlags[..r.len] == Colons(prev)
            && !r.hasCurrent && r.current == 0 && r.pendingColon == next.colon
            && r.trailingSep == (!next.colon || SemicolonLast(prev))
  {
    hide Values, Colons, SemicolonLast, Holds, Stored;
    StoredHolds(p, prev);
  }

  /** Whatever the arrays held before, and however long the digit strings are, the first
      32 numbers come out cut to 16 bits and the flags mark exactly the colons, exactly
      when there are more than 32 items, or the last one has a digit, or it follows a
      semicolon. An empty item after a colon is lost or loses its mark. */
  lemma ParametersRoundTrip(p: ParamsVal, items: seq<Item>)
    requires p.Valid() && items != []
    ensures var r := PushAll(Cleared(p), Body(items));
            r.Finished() == Values(items) && r.FinishedSubparamFlags() == Colons(items)
            <==> var last := items[|items| - 1];
                 |items| > MAX_PARAMS || last.digits != [] || (|items| > 1 && !last.colon)
  {
    hide Values, Colons, Body, PushAll;
    BodyHolds(p, items);
    HeldParameters(PushAll(Cleared(p), Body(items)), items);
  }

  lemma HeldParameters(r: ParamsVal, items: seq<Item>)
    requires r.Valid() && items != [] && Holds(r, items)
    ensures r.Finished() == Values(items) && r.FinishedSubparamFlags() == Colons(items)
            <==> var last := items[|items| - 1];
                 |items| > MAX_PARAMS || last.digits != [] || (|items| > 1 && !last.colon)
  {
    hide Values, Colons;
    var n := |items| - 1;
    var init, last := items[..n], items[n];
    ValuesSnoc(init, last);
    assert init + [last] == items;
    if n < MAX_PARAMS {
      assert r.Finished()
          == Values(init) + (if r.hasCurrent then [Min(r.current, U16_MAX)] else if r.trailingSep then [0] else []);
      assert r.FinishedSubparamFlags()
          == Colons(init) + (if r.hasCurrent then [r.pendingColon] else if r.trailingSep then [false] else []);
      LastDiffers(Colons(init), r.pendingColon);
    }
  }

  lemma LastDiffers(s: seq<bool>, b: bool)
    ensures s != s + [b] && (b ==> s + [b] != s + [false])
  {
    assert |s| != |s + [b]|;
    assert (s + [b])[|s|] == b && (s + [false])[|s|] == false;
  }
}
