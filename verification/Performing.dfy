/** What each parsed action makes of a screen, and whole runs of bytes. */
module Performing {
  import opened Options
  import opened Utf8
  import opened Cells
  import opened GridValues
  import opened VtParams
  import opened VtParser
  import opened ScreenState
  import opened ScreenEdits
  import opened ScreenModes

  // ----- Select graphic rendition -----

  /** Back to the default pen; protection is not part of it. */
  function PenReset(pen: Pen): Pen {
    DEFAULT_PEN.(attrs := DEFAULT_ATTRS.(protected := pen.attrs.protected))
  }

  function UnderlineOf(n: U16): UnderlineStyle {
    match n
    case 0 => NoUnderline
    case 2 => Double
    case 3 => Curly
    case _ => Single
  }

  /** A parameter that stands alone. */
  function SgrOne(pen: Pen, p: U16): Pen {
    var a := pen.attrs;
    match p
    case 0 => PenReset(pen)
    case 1 => pen.(attrs := a.(bold := true))
    case 3 => pen.(attrs := a.(italic := true))
    case 4 => pen.(attrs := a.(underline := Single))
    case 5 => pen.(attrs := a.(blink := true))
    case 7 => pen.(attrs := a.(reverse := true))
    case 8 => pen.(attrs := a.(invisible := true))
    case 9 => pen.(attrs := a.(strikethrough := true))
    case 21 => pen.(attrs := a.(underline := Double))
    case 22 => pen.(attrs := a.(bold := false))
    case 23 => pen.(attrs := a.(italic := false))
    case 24 => pen.(attrs := a.(underline := NoUnderline))
    case 25 => pen.(attrs := a.(blink := false))
    case 27 => pen.(attrs := a.(reverse := false))
    case 28 => pen.(attrs := a.(invisible := false))
    case 29 => pen.(attrs := a.(strikethrough := false))
    case 39 => pen.(fg := DefaultColor)
    case 49 => pen.(bg := DefaultColor)
    case _ =>
      if 30 <= p <= 37 then pen.(fg := Indexed(p - 30))
      else if 40 <= p <= 47 then pen.(bg := Indexed(p - 40))
      else if 90 <= p <= 97 then pen.(fg := Indexed(p - 90 + 8))
      else if 100 <= p <= 107 then pen.(bg := Indexed(p - 100 + 8))
      else pen
  }

  /** `as u8`. */
  function LowByte(n: U16): Byte {
    n % 0x100
  }

  function Coloured(pen: Pen, c: Color, isFg: bool): Pen {
    if isFg then pen.(fg := c) else pen.(bg := c)
  }

  /** An extended colour from `i` on: the pen, and where the next parameter is. */
  function ExtendedColor(pen: Pen, ps: seq<U16>, i: nat, isFg: bool): (r: (Pen, nat))
    requires i <= |ps|
    ensures i <= r.1 <= |ps|
  {
    if i >= |ps| then (pen, i)
    else if ps[i] == 5 then
      if i + 1 < |ps| then (Coloured(pen, Indexed(LowByte(ps[i + 1])), isFg), i + 2) else (pen, i + 1)
    else if ps[i] == 2 then
      if i + 3 < |ps| then
        (Coloured(pen, Rgb(LowByte(ps[i + 1]), LowByte(ps[i + 2]), LowByte(ps[i + 3])), isFg), i + 4)
      else (pen, i + 1)
    else (pen, i + 1)
  }

  function SgrFrom(pen: Pen, ps: seq<U16>, flags: seq<bool>, i: nat): Pen
    requires |flags| == |ps| && i <= |ps|
    decreases |ps| - i
  {
    if i == |ps| then pen
    else if ps[i] == 4 && i + 1 < |ps| && flags[i + 1] then
      SgrFrom(pen.(attrs := pen.attrs.(underline := UnderlineOf(ps[i + 1]))), ps, flags, i + 2)
    else if ps[i] == 38 || ps[i] == 48 then
      var (p, n) := ExtendedColor(pen, ps, i + 1, ps[i] == 38);
      SgrFrom(p, ps, flags, n)
    else SgrFrom(SgrOne(pen, ps[i]), ps, flags, i + 1)
  }

  function SgrApplied(pen: Pen, ps: seq<U16>, flags: seq<bool>): Pen
    requires |flags| == |ps|
  {
    if ps == [] then PenReset(pen) else SgrFrom(pen, ps, flags, 0)
  }

  // ----- Modes -----

  function MouseFor(enable: bool, mode: MouseMode): MouseMode {
    if enable then mode else NoMouse
  }

  function AnsiModeSet(s: ScreenV, mode: U16, enable: bool): (r: ScreenV)
    requires Safe(s)
    ensures Keeps(s, r)
  {
    match mode
    case 4 => s.(modes := s.modes.(insert := enable))
    case 20 => s.(modes := s.modes.(newline := enable))
    case _ => s
  }

  /** Modes that only set a flag. */
  function FlagSet(m: Modes, mode: U16, enable: bool): (r: Modes)
    ensures r.allowDeccolm == (if mode == 40 then enable else m.allowDeccolm)
    ensures r.altScreen == m.altScreen && r.leftRightMargin == m.leftRightMargin
  {
    match mode
    case 1 => m.(applicationCursorKeys := enable)
    case 7 => m.(autowrap := enable)
    case 9 => m.(mouseTracking := MouseFor(enable, X10))
    case 40 => m.(allowDeccolm := enable)
    case 45 => m.(reverseWrap := enable)
    case 1000 => m.(mouseTracking := MouseFor(enable, Normal))
    case 1002 => m.(mouseTracking := MouseFor(enable, ButtonEvent))
    case 1003 => m.(mouseTracking := MouseFor(enable, AnyEvent))
    case 1004 => m.(focusTracking := enable)
    case 1006 => m.(mouseSgr := enable)
    case 2004 => m.(bracketedPaste := enable)
    case _ => m
  }

  /** Modes 47 and 1047, unlike 1049, put the cursor back where it was: it must have a row there. */
  predicate Lands(s: ScreenV, mode: U16, enable: bool) {
    (mode == 47 || mode == 1047) && !enable && s.modes.altScreen ==> s.altCursor.row < s.grid.rows
  }

  /** Modes that do more than set a flag. */
  function ScreenModeSet(s: ScreenV, mode: U16, enable: bool): (r: ScreenV)
    requires Safe(s)
    ensures Lands(s, mode, enable) ==> Keeps(s, r)
  {
    match mode
    case 6 => Positioned(s.(modes := s.modes.(origin := enable)), 1, 1)
    case 25 => s.(cursor := s.cursor.(visible := enable))
    case 47 => if enable then AltEntered(s, false) else AltLeft(s, false)
    case 1047 => if enable then AltEntered(s, false) else AltLeft(s, false)
    case 1048 => if enable then CursorSaved(s) else CursorRestored(s)
    case 1049 => if enable then AltEntered(s, true) else AltLeft(s, true)
    case 69 => MarginModeSet(s, enable)
    case _ => s
  }

  function MarginModeSet(s: ScreenV, enable: bool): (r: ScreenV)
    requires Safe(s)
    ensures Keeps(s, r)
  {
    s.(modes := s.modes.(leftRightMargin := enable), left := if enable then s.left else 0,
       right := if enable then s.right else s.grid.cols)
  }

  function FlagModeSet(s: ScreenV, mode: U16, enable: bool): (r: ScreenV)
    requires Safe(s)
    ensures Safe(r) && r.grid == s.grid && (Docked(s) ==> Docked(r))
    ensures Tight(s) && !(mode == 40 && enable) ==> Tight(r)
  {
    s.(modes := FlagSet(s.modes, mode, enable))
  }

  function PrivateModeSet(s: ScreenV, mode: U16, enable: bool): (r: ScreenV)
    requires Safe(s)
    ensures Lands(s, mode, enable) ==> Safe(r) && r.grid.rows == s.grid.rows && (Docked(s) ==> Docked(r))
    ensures Tight(s) && !(mode == 40 && enable) ==> Tight(r) && r.grid.cols == s.grid.cols
  {
    if mode == 3 then WidthSwitched(s, enable)
    else if mode in [6, 25, 47, 1047, 1048, 1049, 69] then ScreenModeSet(s, mode, enable)
    else FlagModeSet(s, mode, enable)
  }

  /** One mode keeps the screen safe exactly when the cursor it goes back to has a row. */
  lemma LandingIsSafe(s: ScreenV, mode: U16, enable: bool)
    requires Safe(s)
    ensures Safe(PrivateModeSet(s, mode, enable)) <==> Lands(s, mode, enable)
  {
    hide AllWide, Tight, WidthSwitched, FlagSet, AltEntered, CursorSaved, Restored, MarginModeSet;
  }

  /** No mode of the list leaves an unsafe screen to the next. */
  ghost predicate ModesStaySafe(s: ScreenV, ps: seq<U16>, enable: bool)
    requires Safe(s)
    decreases |ps|
  {
    ps != [] ==> var s1 := PrivateModeSet(s, ps[0], enable); Safe(s1) && ModesStaySafe(s1, ps[1..], enable)
  }

  /** A settled screen stays safe whatever the modes. */
  ghost predicate ModesCanBeSet(s: ScreenV, ps: seq<U16>, isPrivate: bool, enable: bool)
    requires Safe(s)
  {
    isPrivate ==> Docked(s) || ModesStaySafe(s, ps, enable)
  }

  function ModesSet(s: ScreenV, ps: seq<U16>, isPrivate: bool, enable: bool): (r: ScreenV)
    requires Safe(s) && ModesCanBeSet(s, ps, isPrivate, enable)
    ensures Safe(r) && r.grid.rows == s.grid.rows && (Docked(s) ==> Docked(r))
    ensures Tight(s) && !(isPrivate && enable && 40 in ps) ==> Tight(r) && r.grid.cols == s.grid.cols
    decreases |ps|
  {
    if ps == [] then s
    else
      var s1 := if isPrivate then PrivateModeSet(s, ps[0], enable) else AnsiModeSet(s, ps[0], enable);
      ModesSet(s1, ps[1..], isPrivate, enable)
  }

  function ModesRestored(s: ScreenV): (r: ScreenV)
    requires Safe(s)
    ensures Keeps(s, r)
  {
    if s.savedModes.None? then s else s.(modes := s.savedModes.value, savedModes := None)
  }

  function PenPopped(s: ScreenV): (r: ScreenV)
    requires Safe(s)
    ensures Keeps(s, r)
  {
    if s.sgrStack == [] then s
    else
      var p := s.sgrStack[|s.sgrStack| - 1];
      s.(sgrStack := s.sgrStack[..|s.sgrStack| - 1],
         pen := p.(attrs := p.attrs.(protected := s.pen.attrs.protected)))
  }

  // ----- Controls -----

  function Executed(s: ScreenV, byte: Byte): (r: ScreenV)
    requires Safe(s)
    ensures Keeps(s, r)
  {
    match byte
    case 0x08 => Backspaced(s)
    case 0x09 => TabbedForward(s, 1)
    case 0x0A => LineFed(s)
    case 0x0B => LineFed(s)
    case 0x0C => LineFed(s)
    case 0x0D => CarriageReturned(s)
    case 0x0E => s.(activeCharset := 1)
    case 0x0F => s.(activeCharset := 0)
    case _ => s
  }

  /** `as u16`. */
  function Low16(n: nat): U16 {
    n % 0x1_0000
  }

  function CursorShapeOf(style: U16): CursorShape {
    match style
    case 3 => Underline
    case 4 => Underline
    case 5 => Bar
    case 6 => Bar
    case _ => Block
  }

  /** Sequences that move the cursor or set tab stops. */
  function CsiMove(s: ScreenV, p: ParamsVal, action: Byte): (r: ScreenV)
    requires Safe(s) && p.Valid()
    ensures Keeps(s, r)
  {
    var n := p.GetOr(0, 1);
    match action
    case 0x41 => MovedUp(s, n)
    case 0x42 => MovedDown(s, n)
    case 0x43 => MovedRight(s, n)
    case 0x44 => MovedLeft(s, n)
    case 0x45 => CarriageReturned(MovedDown(s, n))
    case 0x46 => CarriageReturned(MovedUp(s, n))
    case 0x47 => Positioned(s, s.cursor.row + 1, n)
    case 0x48 => Positioned(s, n, p.GetOr(1, 1))
    case 0x66 => Positioned(s, n, p.GetOr(1, 1))
    case 0x49 => TabbedForward(s, n)
    case 0x5A => TabbedBackward(s, n)
    case 0x60 => Positioned(s, s.cursor.row + 1, n)
    case 0x61 => MovedRight(s, n)
    case 0x64 => Positioned(s, n, s.cursor.col + 1)
    case 0x65 => MovedDown(s, n)
    case 0x67 => if p.GetOr(0, 0) == 0 then StopSet(s, false) else if p.GetOr(0, 0) == 3 then StopsCleared(s) else s
    case _ => s
  }

  /** Sequences that edit the grid. */
  function CsiEdit(s: ScreenV, p: ParamsVal, isPrivate: bool, action: Byte): (r: ScreenV)
    requires Safe(s) && p.Valid()
    ensures Keeps(s, r)
  {
    var (n, m) := (p.GetOr(0, 1), p.GetOr(0, 0));
    match action
    case 0x4A =>
      if m == 0 then DisplayErased(s, Below, isPrivate)
      else if m == 1 then DisplayErased(s, Above, isPrivate)
      else if m == 2 then DisplayErased(s, All, isPrivate)
      else if m == 3 then DisplayErased(s, Scrollback, isPrivate)
      else s
    case 0x4B =>
      if m == 0 then LineErased(s, ToRight, isPrivate)
      else if m == 1 then LineErased(s, ToLeft, isPrivate)
      else if m == 2 then LineErased(s, WholeLine, isPrivate)
      else s
    case 0x4C => LinesOpened(s, n)
    case 0x4D => LinesRemoved(s, n)
    case 0x50 => CharsRemoved(s, n)
    case 0x53 => RegionScrolledUp(s, n)
    case 0x54 => RegionScrolledDown(s, n)
    case 0x58 => CharsBlanked(s, n)
    case 0x40 => CharsOpened(s, n)
    case 0x62 => if s.lastChar.Some? then Repeated(s, s.lastChar.value, n) else s
    case _ => s
  }

  /** Sequences told apart by an intermediate byte. */
  function CsiExtra(s: ScreenV, p: ParamsVal, inter: seq<Byte>, action: Byte): (r: ScreenV)
    requires Safe(s) && p.Valid()
    ensures Keeps(s, r)
  {
    var (rows, cols) := (Low16(s.grid.rows), Low16(s.grid.cols));
    match action
    case 0x70 => if 0x21 in inter then SoftReset(s) else s
    case 0x71 =>
      if 0x20 in inter then s.(cursor := s.cursor.(shape := CursorShapeOf(p.GetOr(0, 0))))
      else if 0x22 in inter then
        if p.GetOr(0, 0) == 1 then s.(pen := s.pen.(attrs := s.pen.attrs.(protected := true)))
        else if p.GetOr(0, 0) == 0 || p.GetOr(0, 0) == 2 then
          s.(pen := s.pen.(attrs := s.pen.attrs.(protected := false)))
        else s
      else s
    case 0x78 =>
      if 0x24 in inter then
        RectFilled(s, if 32 <= p.GetOr(0, 0) <= 126 then p.GetOr(0, 0) else SPACE,
                   p.GetOr(1, 1), p.GetOr(2, 1), p.GetOr(3, rows), p.GetOr(4, cols))
      else s
    case 0x76 =>
      if 0x24 in inter then
        RectCopied(s, p.GetOr(0, 1), p.GetOr(1, 1), p.GetOr(2, rows), p.GetOr(3, cols), p.GetOr(5, 1), p.GetOr(6, 1))
      else s
    case 0x7B =>
      if 0x24 in inter then RectErased(s, p.GetOr(0, 1), p.GetOr(1, 1), p.GetOr(2, rows), p.GetOr(3, cols))
      else if 0x23 in inter then s.(sgrStack := s.sgrStack + [s.pen])
      else s
    case 0x7D => if 0x23 in inter then PenPopped(s) else s
    case _ => s
  }

  /** Margins, saved state. */
  function CsiState(s: ScreenV, p: ParamsVal, isPrivate: bool, action: Byte): (r: ScreenV)
    requires Safe(s) && p.Valid()
    ensures Keeps(s, r)
  {
    match action
    case 0x75 => CursorRestored(s)
    case 0x72 => if isPrivate then ModesRestored(s) else RegionSet(s, p.GetOr(0, 1), p.GetOr(1, Low16(s.grid.rows)))
    case 0x73 =>
      if isPrivate then s.(savedModes := Some(s.modes))
      else if s.modes.leftRightMargin then MarginsSet(s, p.GetOr(0, 1), p.GetOr(1, Low16(s.grid.cols)))
      else CursorSaved(s)
    case _ => s
  }

  lemma FlagPerParam(p: ParamsVal)
    requires p.Valid()
    ensures |p.Finished()| == |p.FinishedSubparamFlags()|
  {
  }

  /** Only setting and resetting private modes asks more of a screen than to be safe. */
  ghost predicate CsiCanBeDone(s: ScreenV, p: ParamsVal, inter: seq<Byte>, action: Byte)
    requires Safe(s) && p.Valid()
  {
    action in [0x68, 0x6C] ==> ModesCanBeSet(s, p.Finished(), 0x3F in inter, action == 0x68)
  }

  function CsiDone(s: ScreenV, p: ParamsVal, inter: seq<Byte>, action: Byte): (r: ScreenV)
    requires Safe(s) && p.Valid() && CsiCanBeDone(s, p, inter, action)
    ensures Safe(r) && r.grid.rows == s.grid.rows && (Docked(s) ==> Docked(r))
    ensures Tight(s) && !(action == 0x68 && 0x3F in inter && 40 in p.Finished()) ==>
            Tight(r) && r.grid.cols == s.grid.cols
  {
    var isPrivate := 0x3F in inter;
    if action in [0x41, 0x42, 0x43, 0x44, 0x45, 0x46, 0x47, 0x48, 0x66, 0x49, 0x5A, 0x60, 0x61, 0x64, 0x65, 0x67] then
      CsiMove(s, p, action)
    else if action in [0x4A, 0x4B, 0x4C, 0x4D, 0x50, 0x53, 0x54, 0x58, 0x40, 0x62] then CsiEdit(s, p, isPrivate, action)
    else if action in [0x70, 0x71, 0x78, 0x76, 0x7B, 0x7D] then CsiExtra(s, p, inter, action)
    else if action == 0x6D then
      FlagPerParam(p);
      s.(pen := SgrApplied(s.pen, p.Finished(), p.FinishedSubparamFlags()))
    else if action == 0x68 then ModesSet(s, p.Finished(), isPrivate, true)
    else if action == 0x6C then ModesSet(s, p.Finished(), isPrivate, false)
    else CsiState(s, p, isPrivate, action)
  }

  function CharsetOf(byte: Byte): Charset {
    match byte
    case 0x30 => DecSpecialGraphics
    case 0x41 => Uk
    case _ => Ascii
  }

  function EscDone(s: ScreenV, inter: seq<Byte>, byte: Byte): (r: ScreenV)
    requires Safe(s)
    ensures Keeps(s, r)
  {
    if inter == [] then
      match byte
      case 0x44 => LineFed(s)
      case 0x45 => LineFed(CarriageReturned(s))
      case 0x48 => StopSet(s, true)
      case 0x4D => ReverseIndexed(s)
      case 0x37 => CursorSaved(s)
      case 0x38 => CursorRestored(s)
      case 0x3D => s.(modes := s.modes.(applicationKeypad := true))
      case 0x3E => s.(modes := s.modes.(applicationKeypad := false))
      case 0x63 => FullReset(s)
      case _ => s
    else if inter[0] == 0x28 then s.(g0 := CharsetOf(byte))
    else if inter[0] == 0x29 then s.(g1 := CharsetOf(byte))
    else if inter[0] == 0x23 && byte == 0x38 then Aligned(s)
    else s
  }

  /** Hyperlinks; the other commands touch nothing modelled here. */
  function OscDone(s: ScreenV, parts: seq<seq<Byte>>): (r: ScreenV)
    requires Safe(s)
    ensures Keeps(s, r)
  {
    if parts == [] || parts[0] != [0x38] then s
    else if |parts| >= 3 then s.(hyperlink := if parts[2] == [] || Decode(parts[2]).None? then None else Some(parts[2]))
    else if |parts| == 2 then s.(hyperlink := None)
    else s
  }

  // ----- Actions -----

  /** The copies an action carries are whole. */
  ghost predicate WellFormed(a: Action) {
    && (a.CsiDispatch? ==> a.params.Valid() && a.intermediates.Valid())
    && (a.EscDispatch? ==> a.intermediates.Valid())
  }

  /** A control sequence that sets or resets private modes. */
  ghost predicate IsPrivateModes(a: Action) {
    WellFormed(a) && a.CsiDispatch? && !a.ignore && a.action in [0x68, 0x6C] && 0x3F in a.intermediates.Slice()
  }

  /** Mode 40, which lets mode 3 change the width, is switched on. */
  ghost predicate AllowsWidthSwitch(a: Action) {
    IsPrivateModes(a) && a.action == 0x68 && 40 in a.params.Finished()
  }

  /** Every screen on the way through the action is safe, between its modes as well. */
  ghost predicate StaysSafe(s: ScreenV, a: Action) {
    Safe(s) && WellFormed(a) && (IsPrivateModes(a) ==> ModesStaySafe(s, a.params.Finished(), a.action == 0x68))
  }

  ghost predicate CanPerform(s: ScreenV, a: Action) {
    && Safe(s) && WellFormed(a)
    && (a.CsiDispatch? && !a.ignore ==> CsiCanBeDone(s, a.params, a.intermediates.Slice(), a.action))
  }

  function Performed(s: ScreenV, a: Action): (r: ScreenV)
    requires CanPerform(s, a)
    ensures Safe(r) && r.grid.rows == s.grid.rows && (Docked(s) ==> Docked(r))
    ensures Tight(s) && !AllowsWidthSwitch(a) ==> Tight(r) && r.grid.cols == s.grid.cols
  {
    match a
    case Print(c) => CharWritten(s, c)
    case Execute(byte) => Executed(s, byte)
    case CsiDispatch(params, intermediates, ignore, action) =>
      if ignore then s else CsiDone(s, params, intermediates.Slice(), action)
    case EscDispatch(intermediates, ignore, byte) =>
      if ignore then s else EscDone(s, intermediates.Slice(), byte)
    case OscDispatch(parts) => OscDone(s, parts)
    case _ => s
  }
}
