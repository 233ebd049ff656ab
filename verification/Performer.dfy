/** Parsed actions carried out on a screen, and bytes fed through the parser into it. */
module Performer {
  import opened Options
  import opened Utf8
  import opened Cells
  import opened GridValues
  import opened VtParams
  import opened VtParser
  import opened ScreenState
  import opened ScreenEdits
  import opened ScreenModes
  import opened Screens
  import opened Performing
  import opened Runs

  // ----- Select graphic rendition -----

  method HandleSgr(t: Screen, params: seq<U16>, subflags: seq<bool>)
    requires t.Valid() && |subflags| == |params|
    modifies t`pen
    ensures t.Value() == old(t.Value()).(pen := SgrApplied(old(t.pen), params, subflags)) && t.Valid()
  {
    hide AllWide, SgrOne, UnderlineOf, ExtendedColor;
    if params == [] {
      t.pen := PenReset(t.pen);
      return;
    }
    var i := 0;
    while i < |params|
      invariant i <= |params|
      invariant SgrFrom(t.pen, params, subflags, i) == SgrFrom(old(t.pen), params, subflags, 0)
    {
      var p := params[i];
      if p == 4 && i + 1 < |params| && subflags[i + 1] {
        t.pen := t.pen.(attrs := t.pen.attrs.(underline := UnderlineOf(params[i + 1])));
        i := i + 2;
      } else if p == 38 || p == 48 {
        i := ParseExtendedColor(t, params, i + 1, p == 38);
      } else {
        t.pen := SgrOne(t.pen, p);
        i := i + 1;
      }
    }
  }

  method ParseExtendedColor(t: Screen, params: seq<U16>, from: nat, isFg: bool) returns (i: nat)
    requires from <= |params|
    modifies t`pen
    ensures (t.pen, i) == ExtendedColor(old(t.pen), params, from, isFg)
  {
    i := from;
    if i >= |params| { return; }
    if params[i] == 5 {
      i := i + 1;
      if i < |params| {
        t.pen := Coloured(t.pen, Indexed(LowByte(params[i])), isFg);
        i := i + 1;
      }
    } else if params[i] == 2 {
      i := i + 1;
      if i + 2 < |params| {
        t.pen := Coloured(t.pen, Rgb(LowByte(params[i]), LowByte(params[i + 1]), LowByte(params[i + 2])), isFg);
        i := i + 3;
      }
    } else {
      i := i + 1;
    }
  }

  method PopSgr(t: Screen)
    requires t.Valid()
    modifies t`sgrStack, t`pen
    ensures t.Value() == PenPopped(old(t.Value())) && t.Valid()
  {
    hide AllWide;
    if t.sgrStack == [] { return; }
    var p := t.sgrStack[|t.sgrStack| - 1];
    t.sgrStack := t.sgrStack[..|t.sgrStack| - 1];
    t.pen := p.(attrs := p.attrs.(protected := t.pen.attrs.protected));
  }

  // ----- Modes -----

  method SetAnsiMode(t: Screen, mode: U16, enable: bool)
    requires t.Valid()
    modifies t`modes
    ensures t.Value() == AnsiModeSet(old(t.Value()), mode, enable) && t.Valid()
  {
    hide AllWide;
    match mode {
      case 4 => t.modes := t.modes.(insert := enable);
      case 20 => t.modes := t.modes.(newline := enable);
      case _ =>
    }
  }

  method SetFlag(t: Screen, mode: U16, enable: bool)
    requires t.Valid()
    modifies t`modes
    ensures t.Value() == FlagModeSet(old(t.Value()), mode, enable) && t.Valid()
  {
    hide AllWide, FlagSet;
    t.modes := FlagSet(t.modes, mode, enable);
  }

  method SetMarginMode(t: Screen, enable: bool)
    requires t.Valid()
    modifies t`modes, t`left, t`right
    ensures t.Value() == MarginModeSet(old(t.Value()), enable) && t.Valid()
  {
    hide AllWide;
    t.modes := t.modes.(leftRightMargin := enable);
    if !enable {
      t.left, t.right := 0, t.grid.cols;
    }
  }

  /** Origin mode moves the cursor home. */
  method SetOriginMode(t: Screen, enable: bool)
    requires t.Valid()
    modifies t`modes, t`cursor, t`pendingWrap
    ensures t.Value() == Positioned(old(t.Value()).(modes := old(t.modes).(origin := enable)), 1, 1) && t.Valid()
  {
    hide AllWide, Positioned, Safe;
    t.SetModes(t.modes.(origin := enable));
    t.CursorPosition(1, 1);
  }

  method SetCursorVisible(t: Screen, enable: bool)
    requires t.Valid()
    modifies t`cursor
    ensures t.Value() == old(t.Value()).(cursor := old(t.cursor).(visible := enable)) && t.Valid()
  {
    hide AllWide;
    t.cursor := t.cursor.(visible := enable);
  }

  /** DECCOLM, if mode 40 allows it. */
  method SwitchWidth(t: Screen, wide: bool)
    requires t.Valid()
    modifies t, t.grid, t.altGrid
    ensures t.Value() == WidthSwitched(old(t.Value()), wide) && t.Valid() && t.Grids() == old(t.Grids())
  {
    hide AllWide, DisplayErased, SizeChanged;
    if !t.modes.allowDeccolm { return; }
    var cols, rows := if wide then 132 else 80, t.grid.rows;
    ResizeKeepsSafe(t.Value(), cols, rows);
    t.Resize(cols, rows);
    t.EraseDisplay(All, false);
    t.MoveTo(0, 0);
    t.ResetRegion();
  }

  method SetScreenMode(t: Screen, mode: U16, enable: bool)
    requires t.Valid() && Lands(t.Value(), mode, enable)
    modifies t, t.grid, t.altGrid
    ensures t.Value() == ScreenModeSet(old(t.Value()), mode, enable) && t.Valid() && t.Grids() == old(t.Grids())
  {
    hide AllWide, Safe, Positioned, AltEntered, AltLeft, CursorSaved, Restored, MarginModeSet;
    match mode {
      case 6 => SetOriginMode(t, enable);
      case 25 => SetCursorVisible(t, enable);
      case 47 => SwitchScreen(t, enable, false);
      case 1047 => SwitchScreen(t, enable, false);
      case 1048 => if enable { t.SaveCursor(); } else { t.RestoreCursor(); }
      case 1049 => SwitchScreen(t, enable, true);
      case 69 => SetMarginMode(t, enable);
      case _ =>
    }
  }

  method SwitchScreen(t: Screen, enable: bool, cursorToo: bool)
    requires t.Valid() && (enable || cursorToo || !t.modes.altScreen || Docked(t.Value()))
    modifies t, t.grid, t.altGrid
    ensures t.Value() == (if enable then AltEntered(old(t.Value()), cursorToo) else AltLeft(old(t.Value()), cursorToo))
    ensures t.Valid() && t.Grids() == old(t.Grids())
  {
    hide AllWide, Safe, AltEntered, AltLeft;
    if enable {
      t.EnterAltScreen(cursorToo);
    } else {
      t.LeaveAltScreen(cursorToo);
    }
  }

  method SetPrivateMode(t: Screen, mode: U16, enable: bool)
    requires t.Valid() && Lands(t.Value(), mode, enable)
    modifies t, t.grid, t.altGrid
    ensures t.Value() == PrivateModeSet(old(t.Value()), mode, enable) && t.Valid() && t.Grids() == old(t.Grids())
  {
    hide AllWide, Safe, WidthSwitched, ScreenModeSet, FlagModeSet;
    if mode == 3 {
      SwitchWidth(t, enable);
    } else if mode in [6, 25, 47, 1047, 1048, 1049, 69] {
      SetScreenMode(t, mode, enable);
    } else {
      SetFlag(t, mode, enable);
    }
  }

  method SetModes(t: Screen, params: seq<U16>, isPrivate: bool, enable: bool)
    requires t.Valid() && ModesCanBeSet(t.Value(), params, isPrivate, enable)
    modifies t, t.grid, t.altGrid
    ensures t.Value() == ModesSet(old(t.Value()), params, isPrivate, enable) && t.Valid() && t.Grids() == old(t.Grids())
  {
    hide AllWide, Safe, PrivateModeSet, AnsiModeSet;
    assert params[0..] == params;
    for i := 0 to |params|
      invariant t.Valid() && t.Grids() == old(t.Grids())
      invariant ModesCanBeSet(t.Value(), params[i..], isPrivate, enable)
      invariant ModesSet(t.Value(), params[i..], isPrivate, enable)
                == ModesSet(old(t.Value()), params, isPrivate, enable)
    {
      assert params[i..][1..] == params[i + 1..];
      if isPrivate {
        LandingIsSafe(t.Value(), params[i], enable);
        SetPrivateMode(t, params[i], enable);
      } else {
        SetAnsiMode(t, params[i], enable);
      }
    }
  }

  method RestoreDecModes(t: Screen)
    requires t.Valid()
    modifies t`modes, t`savedModes
    ensures t.Value() == ModesRestored(old(t.Value())) && t.Valid()
  {
    hide AllWide;
    if t.savedModes.Some? {
      t.modes, t.savedModes := t.savedModes.value, None;
    }
  }

  // ----- Controls -----

  method ExecuteC0(t: Screen, byte: Byte)
    requires t.Valid()
    modifies t, t.grid
    ensures t.Value() == Executed(old(t.Value()), byte) && t.Valid() && t.grid == old(t.grid)
            && t.altGrid == old(t.altGrid)
  {
    hide AllWide, Safe, Backspaced, TabbedForward, LineFed, CarriageReturned;
    match byte {
      case 0x08 => t.Backspace();
      case 0x09 => t.TabForward(1);
      case 0x0A => t.Linefeed();
      case 0x0B => t.Linefeed();
      case 0x0C => t.Linefeed();
      case 0x0D => t.CarriageReturn();
      case 0x0E => SelectCharset(t, 1);
      case 0x0F => SelectCharset(t, 0);
      case _ =>
    }
  }

  method SelectCharset(t: Screen, n: nat)
    requires t.Valid()
    modifies t`activeCharset
    ensures t.Value() == old(t.Value()).(activeCharset := n) && t.Valid()
  {
    hide AllWide;
    t.activeCharset := n;
  }

  method DesignateCharset(t: Screen, second: bool, byte: Byte)
    requires t.Valid()
    modifies t`g0, t`g1
    ensures t.Value() == (if second then old(t.Value()).(g1 := CharsetOf(byte))
                          else old(t.Value()).(g0 := CharsetOf(byte)))
    ensures t.Valid()
  {
    hide AllWide;
    if second {
      t.g1 := CharsetOf(byte);
    } else {
      t.g0 := CharsetOf(byte);
    }
  }

  // ----- Control sequences -----

  method HandleMove(t: Screen, p: ParamsVal, action: Byte)
    requires t.Valid() && p.Valid()
    modifies t`cursor, t`pendingWrap, t`tabStops
    ensures t.Value() == CsiMove(old(t.Value()), p, action) && t.Valid()
  {
    hide AllWide, Safe, MovedUp, MovedDown, MovedLeft, MovedRight, CarriageReturned, Positioned, TabbedForward,
      TabbedBackward, StopSet, StopsCleared;
    var n := p.GetOr(0, 1);
    match action {
      case 0x41 => t.CursorUp(n);
      case 0x42 => t.CursorDown(n);
      case 0x43 => t.CursorRight(n);
      case 0x44 => t.CursorLeft(n);
      case 0x45 => t.CursorDown(n); t.CarriageReturn();
      case 0x46 => t.CursorUp(n); t.CarriageReturn();
      case 0x47 => t.CursorPosition(t.cursor.row + 1, n);
      case 0x48 => t.CursorPosition(n, p.GetOr(1, 1));
      case 0x66 => t.CursorPosition(n, p.GetOr(1, 1));
      case 0x49 => t.TabForward(n);
      case 0x5A => t.TabBackward(n);
      case 0x60 => t.CursorPosition(t.cursor.row + 1, n);
      case 0x61 => t.CursorRight(n);
      case 0x64 => t.CursorPosition(n, t.cursor.col + 1);
      case 0x65 => t.CursorDown(n);
      case 0x67 =>
        if p.GetOr(0, 0) == 0 {
          t.ClearTabStop();
        } else if p.GetOr(0, 0) == 3 {
          t.ClearAllTabStops();
        }
      case _ =>
    }
  }

  method HandleErase(t: Screen, p: ParamsVal, isPrivate: bool, display: bool)
    requires t.Valid() && p.Valid()
    modifies t`damage, t.grid
    ensures t.Value() == CsiEdit(old(t.Value()), p, isPrivate, if display then 0x4A else 0x4B) && t.Valid()
  {
    hide AllWide, Safe, DisplayErased, LineErased;
    var m := p.GetOr(0, 0);
    if display {
      match m {
        case 0 => t.EraseDisplay(Below, isPrivate);
        case 1 => t.EraseDisplay(Above, isPrivate);
        case 2 => t.EraseDisplay(All, isPrivate);
        case 3 => t.EraseDisplay(Scrollback, isPrivate);
        case _ =>
      }
    } else {
      match m {
        case 0 => t.EraseLine(ToRight, isPrivate);
        case 1 => t.EraseLine(ToLeft, isPrivate);
        case 2 => t.EraseLine(WholeLine, isPrivate);
        case _ =>
      }
    }
  }

  method HandleEdit(t: Screen, p: ParamsVal, isPrivate: bool, action: Byte)
    requires t.Valid() && p.Valid()
    modifies t`cursor, t`pendingWrap, t`damage, t`lastChar, t.grid
    ensures t.Value() == CsiEdit(old(t.Value()), p, isPrivate, action) && t.Valid()
  {
    hide AllWide, Safe, DisplayErased, LineErased, LinesOpened, LinesRemoved, CharsRemoved, CharsOpened, CharsBlanked,
      RegionScrolledUp, RegionScrolledDown, Repeated;
    var n := p.GetOr(0, 1);
    match action {
      case 0x4A => HandleErase(t, p, isPrivate, true);
      case 0x4B => HandleErase(t, p, isPrivate, false);
      case 0x4C => t.InsertLines(n);
      case 0x4D => t.DeleteLines(n);
      case 0x50 => t.DeleteChars(n);
      case 0x53 => t.ScrollUp(n);
      case 0x54 => t.ScrollDown(n);
      case 0x58 => t.EraseChars(n);
      case 0x40 => t.InsertChars(n);
      case 0x62 =>
        if t.lastChar.Some? {
          t.Repeat(t.lastChar.value, n);
        }
      case _ =>
    }
  }

  method SetProtected(t: Screen, protected: bool)
    requires t.Valid()
    modifies t`pen
    ensures t.Value() == old(t.Value()).(pen := old(t.pen).(attrs := old(t.pen.attrs).(protected := protected)))
            && t.Valid()
  {
    hide AllWide;
    t.pen := t.pen.(attrs := t.pen.attrs.(protected := protected));
  }

  method SetCursorStyle(t: Screen, style: U16)
    requires t.Valid()
    modifies t`cursor
    ensures t.Value() == old(t.Value()).(cursor := old(t.cursor).(shape := CursorShapeOf(style))) && t.Valid()
  {
    hide AllWide;
    t.cursor := t.cursor.(shape := CursorShapeOf(style));
  }

  method HandleRect(t: Screen, p: ParamsVal, action: Byte)
    requires t.Valid() && p.Valid() && action in [0x78, 0x76, 0x7B]
    modifies t.grid
    ensures t.Value() == CsiExtra(old(t.Value()), p, [0x24], action) && t.Valid()
  {
    hide AllWide, Safe, RectFilled, RectCopied, RectErased;
    var rows, cols := Low16(t.grid.rows), Low16(t.grid.cols);
    match action {
      case 0x78 =>
        var code := p.GetOr(0, 0);
        t.FillRect(if 32 <= code <= 126 then code else SPACE,
                   p.GetOr(1, 1), p.GetOr(2, 1), p.GetOr(3, rows), p.GetOr(4, cols));
      case 0x76 =>
        t.CopyRect(p.GetOr(0, 1), p.GetOr(1, 1), p.GetOr(2, rows), p.GetOr(3, cols), p.GetOr(5, 1), p.GetOr(6, 1));
      case 0x7B =>
        t.SelectiveEraseRect(p.GetOr(0, 1), p.GetOr(1, 1), p.GetOr(2, rows), p.GetOr(3, cols));
    }
  }

  method HandleExtra(t: Screen, p: ParamsVal, inter: seq<Byte>, action: Byte)
    requires t.Valid() && p.Valid()
    modifies t, t.grid
    ensures t.Value() == CsiExtra(old(t.Value()), p, inter, action) && t.Valid()
    ensures t.grid == old(t.grid) && t.altGrid == old(t.altGrid)
  {
    hide AllWide, Safe, RectFilled, RectCopied, RectErased, ScreenModes.SoftReset, PenPopped, CursorShapeOf;
    match action {
      case 0x70 =>
        if 0x21 in inter {
          t.SoftReset();
        }
      case 0x71 =>
        if 0x20 in inter {
          SetCursorStyle(t, p.GetOr(0, 0));
        } else if 0x22 in inter {
          match p.GetOr(0, 0) {
            case 1 => SetProtected(t, true);
            case 0 => SetProtected(t, false);
            case 2 => SetProtected(t, false);
            case _ =>
          }
        }
      case 0x78 =>
        if 0x24 in inter {
          HandleRect(t, p, action);
        }
      case 0x76 =>
        if 0x24 in inter {
          HandleRect(t, p, action);
        }
      case 0x7B =>
        if 0x24 in inter {
          HandleRect(t, p, action);
        } else if 0x23 in inter {
          t.PushSgr();
        }
      case 0x7D =>
        if 0x23 in inter {
          PopSgr(t);
        }
      case _ =>
    }
  }

  method HandleState(t: Screen, p: ParamsVal, isPrivate: bool, action: Byte)
    requires t.Valid() && p.Valid()
    modifies t
    ensures t.Value() == CsiState(old(t.Value()), p, isPrivate, action) && t.Valid()
    ensures t.grid == old(t.grid) && t.altGrid == old(t.altGrid)
  {
    hide AllWide, Safe, Restored, CursorSaved, ModesRestored, RegionSet, MarginsSet;
    match action {
      case 0x75 => t.RestoreCursor();
      case 0x72 =>
        if isPrivate {
          RestoreDecModes(t);
        } else {
          t.SetScrollRegion(p.GetOr(0, 1), p.GetOr(1, Low16(t.grid.rows)));
        }
      case 0x73 =>
        if isPrivate {
          t.SaveDecModes();
        } else if t.modes.leftRightMargin {
          t.SetLeftRightMargin(p.GetOr(0, 1), p.GetOr(1, Low16(t.grid.cols)));
        } else {
          t.SaveCursor();
        }
      case _ =>
    }
  }

  method HandleCsi(t: Screen, p: ParamsVal, inter: seq<Byte>, action: Byte)
    requires t.Valid() && p.Valid() && CsiCanBeDone(t.Value(), p, inter, action)
    modifies t, t.grid, t.altGrid
    ensures t.Value() == CsiDone(old(t.Value()), p, inter, action) && t.Valid() && t.Grids() == old(t.Grids())
  {
    hide AllWide, Safe, CsiMove, CsiEdit, CsiExtra, CsiState, ModesSet, SgrApplied;
    var ps, isPrivate := p.Finished(), 0x3F in inter;
    FlagPerParam(p);
    if action in [0x41, 0x42, 0x43, 0x44, 0x45, 0x46, 0x47, 0x48, 0x66, 0x49, 0x5A, 0x60, 0x61, 0x64, 0x65, 0x67] {
      HandleMove(t, p, action);
    } else if action in [0x4A, 0x4B, 0x4C, 0x4D, 0x50, 0x53, 0x54, 0x58, 0x40, 0x62] {
      HandleEdit(t, p, isPrivate, action);
    } else if action in [0x70, 0x71, 0x78, 0x76, 0x7B, 0x7D] {
      HandleExtra(t, p, inter, action);
    } else if action == 0x6D {
      HandleSgr(t, ps, p.FinishedSubparamFlags());
    } else if action == 0x68 {
      SetModes(t, ps, isPrivate, true);
    } else if action == 0x6C {
      SetModes(t, ps, isPrivate, false);
    } else {
      HandleState(t, p, isPrivate, action);
    }
  }

  // ----- Escape sequences and commands -----

  method HandleEsc(t: Screen, inter: seq<Byte>, byte: Byte)
    requires t.Valid()
    modifies t, t.grid, t.altGrid
    ensures t.Value() == EscDone(old(t.Value()), inter, byte) && t.Valid() && fresh(t.Grids() - old(t.Grids()))
  {
    hide AllWide, Safe, LineFed, CarriageReturned, StopSet, ReverseIndexed, CursorSaved, Restored, FullReset, Aligned,
      CharsetOf;
    if inter == [] {
      match byte {
        case 0x44 => t.Linefeed();
        case 0x45 => t.CarriageReturn(); t.Linefeed();
        case 0x48 => t.SetTabStop();
        case 0x4D => t.ReverseIndex();
        case 0x37 => t.SaveCursor();
        case 0x38 => t.RestoreCursor();
        case 0x3D => t.SetModes(t.modes.(applicationKeypad := true));
        case 0x3E => t.SetModes(t.modes.(applicationKeypad := false));
        case 0x63 => t.Reset();
        case _ =>
      }
    } else if inter[0] == 0x28 {
      DesignateCharset(t, false, byte);
    } else if inter[0] == 0x29 {
      DesignateCharset(t, true, byte);
    } else if inter[0] == 0x23 && byte == 0x38 {
      t.Align();
    }
  }

  method HandleOsc(t: Screen, parts: seq<seq<Byte>>)
    requires t.Valid()
    modifies t`hyperlink
    ensures t.Value() == OscDone(old(t.Value()), parts) && t.Valid()
  {
    hide AllWide, Decode;
    if parts == [] || parts[0] != [0x38] { return; }
    if |parts| >= 3 {
      var uri := if Decode(parts[2]).Some? then parts[2] else [];
      if uri == [] {
        t.hyperlink := None;
      } else {
        t.hyperlink := Some(uri);
      }
    } else if |parts| == 2 {
      t.hyperlink := None;
    }
  }

  // ----- Actions -----

  method Perform(t: Screen, a: Action)
    requires t.Valid() && CanPerform(t.Value(), a)
    modifies t, t.grid, t.altGrid
    ensures t.Value() == Performed(old(t.Value()), a) && t.Valid() && fresh(t.Grids() - old(t.Grids()))
  {
    hide AllWide, Safe, CharWritten, Executed, CsiDone, EscDone, OscDone;
    match a {
      case Print(c) => t.WriteChar(c);
      case Execute(byte) => ExecuteC0(t, byte);
      case CsiDispatch(params, intermediates, ignore, action) =>
        if !ignore {
          HandleCsi(t, params, intermediates.Slice(), action);
        }
      case EscDispatch(intermediates, ignore, byte) =>
        if !ignore {
          HandleEsc(t, intermediates.Slice(), byte);
        }
      case OscDispatch(parts) => HandleOsc(t, parts);
      case DcsHook(_, _, _, _) =>
      case DcsPut(_) =>
      case DcsUnhook =>
    }
  }

  method PerformAll(t: Screen, actions: seq<Action>)
    requires t.Valid() && CanPerformAll(t.Value(), actions)
    modifies t, t.grid, t.altGrid
    ensures t.Value() == PerformedAll(old(t.Value()), actions) && t.Valid() && fresh(t.Grids() - old(t.Grids()))
  {
    hide AllWide, Safe, Performed, CanPerform, CanPerformAll;
    assert actions[0..] == actions;
    for i := 0 to |actions|
      invariant t.Valid() && fresh(t.Grids() - old(t.Grids()))
      invariant CanPerformAll(t.Value(), actions[i..])
      invariant PerformedAll(t.Value(), actions[i..]) == PerformedAll(old(t.Value()), actions)
    {
      assert actions[i..][1..] == actions[i + 1..];
      FirstCanPerform(t.Value(), actions[i..]);
      Perform(t, actions[i]);
    }
  }

  /** Bytes through the parser into the screen. */
  method Feed(parser: Parser, t: Screen, bytes: seq<Byte>)
    requires parser.Valid() && t.Valid() && parser.Repr() !! {t as object, t.grid, t.altGrid}
    requires CanBeFed(t.Value(), parser.Value(), bytes)
    modifies parser.Repr(), t, t.grid, t.altGrid
    ensures parser.Valid() && parser.Value() == Run(old(parser.Value()), bytes).0
    ensures t.Value() == Fed(old(t.Value()), old(parser.Value()), bytes) && t.Valid()
    ensures fresh(t.Grids() - old(t.Grids()))
  {
    hide AllWide, Safe, Run, PerformedAll, WellFormed, AllWellFormed;
    RunWellFormed(parser.Value(), bytes);
    var actions := parser.Advance(bytes);
    PerformAll(t, actions);
  }
}
