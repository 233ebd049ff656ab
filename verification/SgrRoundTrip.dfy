/** Select graphic rendition read back: what a list of settings, written as parameters, makes
    of the pen. */
module SgrRoundTrip {
  import opened Options
  import opened Utf8
  import opened Cells
  import opened VtParams
  import opened VtParser
  import opened ScreenState
  import opened Performing
  import opened Runs
  import opened Sequences

  /** A setting as a program writes it. */
  datatype Setting =
    | Plain(code: U16)
    | Underlined(style: U16)
    | Palette(foreground: bool, index: Byte)
    | Direct(foreground: bool, r: Byte, g: Byte, b: Byte)
  {
    predicate Valid() {
      Plain? ==> code != 38 && code != 48
    }

    function Params(): seq<U16> {
      match this
      case Plain(code) => [code]
      case Underlined(style) => [4, style]
      case Palette(foreground, index) => [if foreground then 38 else 48, 5, index]
      case Direct(foreground, r, g, b) => [if foreground then 38 else 48, 2, r, g, b]
    }

    /** Only the underline style is a subparameter. */
    function Flags(): seq<bool> {
      match this
      case Plain(_) => [false]
      case Underlined(_) => [false, true]
      case Palette(_, _) => [false, false, false]
      case Direct(_, _, _, _) => [false, false, false, false, false]
    }

    function On(pen: Pen): Pen {
      match this
      case Plain(code) => SgrOne(pen, code)
      case Underlined(style) => pen.(attrs := pen.attrs.(underline := UnderlineOf(style)))
      case Palette(foreground, index) => Coloured(pen, Indexed(index), foreground)
      case Direct(foreground, r, g, b) => Coloured(pen, Rgb(r, g, b), foreground)
    }
  }

  ghost predicate AllValid(settings: seq<Setting>) {
    forall s :: s in settings ==> s.Valid()
  }

  function AllParams(settings: seq<Setting>): seq<U16> {
    if settings == [] then [] else settings[0].Params() + AllParams(settings[1..])
  }

  function AllFlags(settings: seq<Setting>): (f: seq<bool>)
    ensures |f| == |AllParams(settings)|
    ensures f != [] ==> !f[0]
  {
    if settings == [] then [] else settings[0].Flags() + AllFlags(settings[1..])
  }

  function AllOn(pen: Pen, settings: seq<Setting>): Pen
    decreases |settings|
  {
    if settings == [] then pen else AllOn(settings[0].On(pen), settings[1..])
  }

  lemma PartAt<T>(s: seq<T>, i: nat, a: seq<T>, b: seq<T>)
    requires i <= |s| && s[i..] == a + b
    ensures i + |a| <= |s| && s[i + |a|..] == b && s[i..i + |a|] == a
  {
    assert s[i + |a|..] == s[i..][|a|..];
    assert s[i..i + |a|] == s[i..][..|a|];
  }

  /** One setting is read where it stands, and the next one after it. */
  lemma OneRead(pen: Pen, ps: seq<U16>, flags: seq<bool>, i: nat, s: Setting, rest: seq<U16>, restFlags: seq<bool>)
    requires |flags| == |ps| && i <= |ps| && s.Valid() && |rest| == |restFlags| && (restFlags != [] ==> !restFlags[0])
    requires ps[i..] == s.Params() + rest && flags[i..] == s.Flags() + restFlags
    ensures i + |s.Params()| <= |ps| && ps[i + |s.Params()|..] == rest && flags[i + |s.Params()|..] == restFlags
    ensures SgrFrom(pen, ps, flags, i) == SgrFrom(s.On(pen), ps, flags, i + |s.Params()|)
  {
    hide SgrFrom;
    var n := |s.Params()|;
    PartAt(ps, i, s.Params(), rest);
    PartAt(flags, i, s.Flags(), restFlags);
    if i + n < |ps| {
      assert !flags[i + n] by {
        assert flags[i + n] == flags[i + n..][0];
      }
    }
    SettingRead(pen, ps, flags, i, s);
  }

  lemma SettingRead(pen: Pen, ps: seq<U16>, flags: seq<bool>, i: nat, s: Setting)
    requires |flags| == |ps| && i + |s.Params()| <= |ps| && s.Valid() && |s.Params()| == |s.Flags()|
    requires ps[i..i + |s.Params()|] == s.Params() && flags[i..i + |s.Params()|] == s.Flags()
    requires i + |s.Params()| < |ps| ==> !flags[i + |s.Params()|]
    ensures SgrFrom(pen, ps, flags, i) == SgrFrom(s.On(pen), ps, flags, i + |s.Params()|)
  {
    hide SgrOne, UnderlineOf;
    var n := |s.Params()|;
    var (part, marks) := (ps[i..i + n], flags[i..i + n]);
    assert ps[i] == part[0];
    match s
    case Plain(code) =>
    case Underlined(style) => assert ps[i + 1] == part[1] && flags[i + 1] == marks[1];
    case Palette(foreground, index) => assert ps[i + 1] == part[1] && ps[i + 2] == part[2];
    case Direct(foreground, r, g, b) =>
      assert ps[i + 1] == part[1] && ps[i + 2] == part[2] && ps[i + 3] == part[3] && ps[i + 4] == part[4];
  }

  lemma NothingLeft(pen: Pen, ps: seq<U16>, flags: seq<bool>)
    requires |flags| == |ps|
    ensures SgrFrom(pen, ps, flags, |ps|) == pen
  {
  }

  lemma FirstSetting(pen: Pen, settings: seq<Setting>)
    requires settings != [] && AllValid(settings)
    ensures settings[0].Valid() && AllValid(settings[1..])
    ensures AllParams(settings) == settings[0].Params() + AllParams(settings[1..])
    ensures AllFlags(settings) == settings[0].Flags() + AllFlags(settings[1..])
    ensures AllOn(pen, settings) == AllOn(settings[0].On(pen), settings[1..])
  {
    hide SgrOne;
  }

  lemma {:induction false} AllRead(pen: Pen, ps: seq<U16>, flags: seq<bool>, i: nat, settings: seq<Setting>)
    requires |flags| == |ps| && i <= |ps| && AllValid(settings)
    requires ps[i..] == AllParams(settings) && flags[i..] == AllFlags(settings)
    ensures SgrFrom(pen, ps, flags, i) == AllOn(pen, settings)
    decreases |settings|
  {
    hide SgrFrom, AllValid, Setting.Params, Setting.Flags, Setting.On;
    if settings == [] {
      NothingLeft(pen, ps, flags);
    } else {
      var s := settings[0];
      FirstSetting(pen, settings);
      OneRead(pen, ps, flags, i, s, AllParams(settings[1..]), AllFlags(settings[1..]));
      AllRead(s.On(pen), ps, flags, i + |s.Params()|, settings[1..]);
    }
  }

  /** Any list of settings, one after the other, however colours and styles mix. */
  lemma SettingsRoundTrip(pen: Pen, settings: seq<Setting>)
    requires settings != [] && AllValid(settings)
    ensures SgrApplied(pen, AllParams(settings), AllFlags(settings)) == AllOn(pen, settings)
  {
    var ps, flags := AllParams(settings), AllFlags(settings);
    assert ps[0..] == ps && flags[0..] == flags;
    AllRead(pen, ps, flags, 0, settings);
    assert |settings[0].Params()| >= 1;
  }

  // ----- From bytes -----

  lemma SgrStep(s: ScreenV, a: Action, ps: seq<U16>, flags: seq<bool>)
    requires CanPerform(s, a) && IsCsiWith(a, ps, flags, [], 0x6D)
    ensures |flags| == |ps| && Performed(s, a) == s.(pen := SgrApplied(s.pen, ps, flags))
  {
    hide Safe, Tight, Keeps, SgrApplied, CsiMove, CsiEdit, CsiExtra, CsiState, ModesSet;
    FlagPerParam(a.params);
  }

  /** CSI ... m with any numbers: the pen is what the first 32 of them make of it. */
  lemma SgrFromBytes(s: ScreenV, p: PState, values: seq<U16>, flags: seq<bool>)
    requires Safe(s) && p.Valid() && p.state != Utf8State && |flags| == |values| > 0 && !flags[0]
    ensures CanBeFed(s, p, CsiBytes(values, flags, 0x6D))
    ensures Fed(s, p, CsiBytes(values, flags, 0x6D))
            == s.(pen := SgrApplied(s.pen, FirstParams(values), FirstParams(flags)))
  {
    hide Safe, Tight, Keeps, Run, Fed, CsiBytes, FirstParams, SgrApplied, Performed;
    var a := CsiParsed(p, values, flags, 0x6D);
    ClampedCanPerform(s, a);
    SgrStep(s, a, FirstParams(values), FirstParams(flags));
    FedOne(s, p, CsiBytes(values, flags, 0x6D), a);
  }

  lemma {:induction false} SettingsConcat(a: seq<Setting>, b: seq<Setting>)
    ensures AllParams(a + b) == AllParams(a) + AllParams(b) && AllFlags(a + b) == AllFlags(a) + AllFlags(b)
  {
    hide Setting.Params, Setting.Flags;
    if a == [] {
      assert a + b == b;
    } else {
      assert (a + b)[1..] == a[1..] + b && (a + b)[0] == a[0];
      SettingsConcat(a[1..], b);
    }
  }

  lemma {:induction false} OneParamEach(settings: seq<Setting>)
    ensures |AllParams(settings)| >= |settings|
  {
    if settings != [] {
      OneParamEach(settings[1..]);
    }
  }

  /** Settings as bytes: those that fill the 32 parameters the parser has room for are all read,
      one after the other, and those after them are lost. */
  lemma SettingsFromBytes(s: ScreenV, p: PState, read: seq<Setting>, rest: seq<Setting>)
    requires Safe(s) && p.Valid() && p.state != Utf8State && read != [] && AllValid(read)
    requires |AllParams(read)| == MAX_PARAMS || (|AllParams(read)| < MAX_PARAMS && rest == [])
    ensures |AllParams(read + rest)| == |AllFlags(read + rest)|
    ensures var bytes := CsiBytes(AllParams(read + rest), AllFlags(read + rest), 0x6D);
            CanBeFed(s, p, bytes) && Fed(s, p, bytes) == s.(pen := AllOn(s.pen, read))
  {
    hide Safe, Run, Fed, CsiBytes, SgrApplied, AllOn, AllValid, AllParams, AllFlags;
    SettingsConcat(read, rest);
    OneParamEach(read);
    SettingsRoundTrip(s.pen, read);
    var (ps, flags) := (AllParams(read + rest), AllFlags(read + rest));
    NothingMore(rest);
    FirstPart(AllParams(read), AllParams(rest));
    FirstPart(AllFlags(read), AllFlags(rest));
    SgrFromBytes(s, p, ps, flags);
  }

  lemma NothingMore(settings: seq<Setting>)
    ensures settings == [] ==> AllParams(settings) == [] && AllFlags(settings) == []
  {
  }

  lemma FirstPart<T>(a: seq<T>, b: seq<T>)
    requires |a| == MAX_PARAMS || (|a| < MAX_PARAMS && b == [])
    ensures FirstParams(a + b) == a
  {
  }

  // ----- Every pen can be written -----

  function When(b: bool, s: Setting): (r: seq<Setting>)
    ensures s.Valid() ==> AllValid(r)
  {
    if b then [s] else []
  }

  function ColourOf(c: Color, foreground: bool): (r: seq<Setting>)
    ensures AllValid(r)
  {
    match c
    case DefaultColor => []
    case Indexed(n) => [Palette(foreground, n)]
    case Rgb(r, g, b) => [Direct(foreground, r, g, b)]
  }

  function UnderlineSetting(u: UnderlineStyle): (r: seq<Setting>)
    ensures AllValid(r)
  {
    match u
    case NoUnderline => []
    case Single => [Plain(4)]
    case Double => [Plain(21)]
    case Curly => [Underlined(3)]
  }

  function FontSettings(a: CellAttrs): (r: seq<Setting>)
    ensures AllValid(r)
  {
    When(a.bold, Plain(1)) + When(a.italic, Plain(3)) + UnderlineSetting(a.underline)
  }

  function EffectSettings(a: CellAttrs): (r: seq<Setting>)
    ensures AllValid(r)
  {
    When(a.blink, Plain(5)) + When(a.reverse, Plain(7)) + When(a.invisible, Plain(8)) + When(a.strikethrough, Plain(9))
  }

  function PenSettings(pen: Pen): (r: seq<Setting>)
    ensures AllValid(r) && r != []
  {
    [Plain(0)] + FontSettings(pen.attrs) + EffectSettings(pen.attrs) + ColourOf(pen.fg, true) + ColourOf(pen.bg, false)
  }

  lemma {:induction false} OnConcat(pen: Pen, a: seq<Setting>, b: seq<Setting>)
    ensures AllOn(pen, a + b) == AllOn(AllOn(pen, a), b)
    decreases |a|
  {
    if a == [] {
      assert a + b == b;
    } else {
      assert (a + b)[1..] == a[1..] + b;
      OnConcat(a[0].On(pen), a[1..], b);
    }
  }

  lemma OnWhen(pen: Pen, b: bool, s: Setting)
    ensures AllOn(pen, When(b, s)) == if b then s.On(pen) else pen
  {
    if b {
      assert [s][1..] == [];
    }
  }

  lemma FontOn(pen: Pen, a: CellAttrs)
    requires !pen.attrs.bold && !pen.attrs.italic && pen.attrs.underline == NoUnderline
    ensures AllOn(pen, FontSettings(a)) == pen.(attrs := pen.attrs.(bold := a.bold, italic := a.italic,
                                                                    underline := a.underline))
  {
    hide AllOn, When, UnderlineSetting;
    var s1 := When(a.bold, Plain(1));
    OnWhen(pen, a.bold, Plain(1));
    OnConcat(pen, s1, When(a.italic, Plain(3)));
    OnWhen(AllOn(pen, s1), a.italic, Plain(3));
    OnConcat(pen, s1 + When(a.italic, Plain(3)), UnderlineSetting(a.underline));
    UnderlineOn(AllOn(pen, s1 + When(a.italic, Plain(3))), a.underline);
  }

  lemma EffectsOn(pen: Pen, a: CellAttrs)
    requires !pen.attrs.blink && !pen.attrs.reverse && !pen.attrs.invisible && !pen.attrs.strikethrough
    ensures AllOn(pen, EffectSettings(a)) == pen.(attrs := pen.attrs.(blink := a.blink, reverse := a.reverse,
                                                                      invisible := a.invisible,
                                                                      strikethrough := a.strikethrough))
  {
    hide AllOn, When;
    var s1 := When(a.blink, Plain(5));
    var s2 := s1 + When(a.reverse, Plain(7));
    var s3 := s2 + When(a.invisible, Plain(8));
    OnWhen(pen, a.blink, Plain(5));
    OnConcat(pen, s1, When(a.reverse, Plain(7)));
    OnWhen(AllOn(pen, s1), a.reverse, Plain(7));
    OnConcat(pen, s2, When(a.invisible, Plain(8)));
    OnWhen(AllOn(pen, s2), a.invisible, Plain(8));
    OnConcat(pen, s3, When(a.strikethrough, Plain(9)));
    OnWhen(AllOn(pen, s3), a.strikethrough, Plain(9));
  }

  lemma UnderlineOn(pen: Pen, u: UnderlineStyle)
    requires pen.attrs.underline == NoUnderline
    ensures AllOn(pen, UnderlineSetting(u)) == pen.(attrs := pen.attrs.(underline := u))
  {
    if u != NoUnderline {
      assert UnderlineSetting(u)[1..] == [];
    }
  }

  lemma ColourOn(pen: Pen, c: Color, foreground: bool)
    requires (if foreground then pen.fg else pen.bg) == DefaultColor
    ensures AllOn(pen, ColourOf(c, foreground)) == Coloured(pen, c, foreground)
  {
    if c != DefaultColor {
      assert ColourOf(c, foreground)[1..] == [];
    }
  }

  /** From any pen to any other: its settings, written out, set exactly it; only protection,
      which SGR does not touch, stays as it was. */
  lemma EveryPenCanBeSet(from: Pen, to: Pen)
    ensures SgrApplied(from, AllParams(PenSettings(to)), AllFlags(PenSettings(to)))
      == to.(attrs := to.attrs.(protected := from.attrs.protected))
  {
    hide AllOn, AllParams, AllFlags, SgrApplied, FontSettings, EffectSettings, ColourOf, SgrOne, AllValid;
    var font, effects := FontSettings(to.attrs), EffectSettings(to.attrs);
    var s1 := [Plain(0)] + font;
    var s2 := s1 + effects;
    var s3 := s2 + ColourOf(to.fg, true);
    SettingsRoundTrip(from, PenSettings(to));
    Reset(from);
    OnConcat(from, [Plain(0)], font);
    FontOn(PenReset(from), to.attrs);
    OnConcat(from, s1, effects);
    EffectsOn(AllOn(from, s1), to.attrs);
    OnConcat(from, s2, ColourOf(to.fg, true));
    ColourOn(AllOn(from, s2), to.fg, true);
    OnConcat(from, s3, ColourOf(to.bg, false));
    ColourOn(AllOn(from, s3), to.bg, false);
  }

  lemma Reset(from: Pen)
    ensures AllOn(from, [Plain(0)]) == PenReset(from)
  {
    assert [Plain(0)][1..] == [];
  }
}
