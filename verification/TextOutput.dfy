/** Plain text from bytes to rows: where each character ends up, through wraps and scrolls,
    and which rows the screen then takes for one line. */
module TextOutput {
  import opened Options
  import opened Utf8
  import opened Cells
  import opened Reflow
  import opened GridValues
  import opened GridLaws
  import opened GridResize
  import opened VtParser
  import opened ParserRoundTrips
  import opened ScreenState
  import opened ScreenEdits
  import opened Performing
  import opened Runs

  // ----- The rows of a text -----

  /** The rows a text makes, one of them holding `part` already: a full row that is left
      loses its continuation flag, the row it goes on to gets it. */
  function Laid(part: seq<Cell>, continuation: bool, text: seq<Cell>, cols: nat): seq<Row>
    requires |part| <= cols && cols >= 1
    decreases |text|
  {
    if text == [] then [Row(FitCells(part, cols), continuation)]
    else if |part| < cols then Laid(part + [text[0]], continuation, text[1..], cols)
    else [Row(part, false)] + Laid([text[0]], true, text[1..], cols)
  }

  lemma {:induction false} LaidFits(part: seq<Cell>, continuation: bool, text: seq<Cell>, cols: nat)
    requires cols >= 1 && |part| + |text| <= cols
    ensures Laid(part, continuation, text, cols) == [Row(FitCells(part + text, cols), continuation)]
    decreases |text|
  {
    if text == [] {
      assert part + [] == part;
    } else {
      LaidFits(part + [text[0]], continuation, text[1..], cols);
      assert part + [text[0]] + text[1..] == part + text;
    }
  }

  lemma {:induction false} LaidSplits(part: seq<Cell>, continuation: bool, text: seq<Cell>, cols: nat)
    requires cols >= 1 && |part| <= cols < |part| + |text|
    ensures Laid(part, continuation, text, cols)
      == [Row((part + text)[..cols], false)] + Laid([], true, (part + text)[cols..], cols)
    decreases |text|
  {
    if |part| < cols {
      LaidSplits(part + [text[0]], continuation, text[1..], cols);
      assert part + [text[0]] + text[1..] == part + text;
    } else {
      assert (part + text)[..cols] == part;
      assert (part + text)[cols..] == text;
      assert [] + [text[0]] == [text[0]];
    }
  }

  /** The rows are those a reflow would make of the same cells exactly when the text needs
      at most two: a third row cuts the line. */
  lemma LaidIsWrapped(text: seq<Cell>, cols: nat)
    requires cols >= 1
    ensures Laid([], false, text, cols) == Wrapped(text, cols, true) <==> |text| <= 2 * cols
  {
    assert [] + text == text;
    if |text| <= cols {
      LaidFits([], false, text, cols);
    } else {
      LaidSplits([], false, text, cols);
      var rest := text[cols..];
      assert [] + rest == rest;
      assert Wrapped(text, cols, true)[1..] == Wrapped(rest, cols, false);
      assert Laid([], false, text, cols)[1..] == Laid([], true, rest, cols);
      if |rest| <= cols {
        LaidFits([], true, rest, cols);
      } else {
        LaidSplits([], true, rest, cols);
        assert !Laid([], true, rest, cols)[0].continuation;
        assert Wrapped(rest, cols, false)[0].continuation;
      }
    }
  }

  // ----- Printing -----

  /** No margins, autowrap on, the other output modes off, the region the whole screen. */
  ghost predicate Plain(s: ScreenV) {
    && Safe(s) && !HasMargins(s) && s.modes.autowrap && !s.modes.insert && !s.modes.newline
    && s.top == 0 && s.bottom == s.grid.rows
  }

  /** What a character's cell depends on stays. */
  ghost predicate SameInk(s: ScreenV, r: ScreenV) {
    && r.pen == s.pen && r.hyperlink == s.hyperlink && r.boldIsBright == s.boldIsBright
    && r.g0 == s.g0 && r.g1 == s.g1 && r.activeCharset == s.activeCharset && r.grid.cols == s.grid.cols
  }

  function GlyphOf(s: ScreenV, c: Scalar): Cell {
    Glyph(s, MappedChar(s, c), 1)
  }

  function Glyphs(s: ScreenV, text: seq<Scalar>): (g: seq<Cell>)
    ensures |g| == |text|
  {
    seq(|text|, i requires 0 <= i < |text| => GlyphOf(s, text[i]))
  }

  predicate OneColumn(s: ScreenV, c: Scalar) {
    CharWidth(MappedChar(s, c)) == 1
  }

  function Below(s: ScreenV): nat
    requires s.cursor.row < s.grid.rows
  {
    s.grid.rows - 1 - s.cursor.row
  }

  /** The history ends in `before`, then the cursor's row, then blank rows; `lost` rows have
      gone from its front. */
  ghost predicate Ends(s: ScreenV, before: seq<Row>, row: Row, lost: nat)
    requires s.cursor.row < s.grid.rows
  {
    && lost <= |before|
    && History(s.grid) == (before + [row] + Fill(Below(s), BlankRow(s.grid.cols)))[lost..]
    && (lost > 0 ==> |s.grid.scrollback| == s.grid.limit)
  }

  /** The cursor's row holds `part`, and the cursor stands behind it. */
  ghost predicate Shows(s: ScreenV, before: seq<Row>, part: seq<Cell>, continuation: bool, lost: nat) {
    && Plain(s) && |part| <= s.grid.cols
    && (forall i :: 0 <= i < |part| ==> part[i].width == 1)
    && Ends(s, before, Row(FitCells(part, s.grid.cols), continuation), lost)
    && s.cursor.col == (if |part| == s.grid.cols then |part| - 1 else |part|)
    && s.pendingWrap == (|part| == s.grid.cols)
  }

  lemma Replaced(before: seq<Row>, row: Row, after: Row, blanks: seq<Row>, lost: nat)
    requires lost <= |before|
    ensures var h := (before + [row] + blanks)[lost..];
            && |h| >= 1 + |blanks| && h[|h| - 1 - |blanks|] == row
            && h[|h| - 1 - |blanks| := after] == (before + [after] + blanks)[lost..]
  {
  }

  lemma CursorRowIs(s: ScreenV, before: seq<Row>, row: Row, lost: nat)
    requires Safe(s) && Ends(s, before, row, lost)
    ensures s.grid.lines[s.cursor.row] == row
  {
    hide AllWide;
    Replaced(before, row, row, Fill(Below(s), BlankRow(s.grid.cols)), lost);
    var h := History(s.grid);
    assert h[|s.grid.scrollback| + s.cursor.row] == s.grid.lines[s.cursor.row];
  }

  /** Another row in the cursor's place. */
  lemma RowReplaced(s: ScreenV, r: ScreenV, before: seq<Row>, row: Row, after: Row, lost: nat)
    requires Safe(s) && Ends(s, before, row, lost)
    requires r.grid == s.grid.(lines := s.grid.lines[s.cursor.row := after]) && r.cursor.row == s.cursor.row
    ensures Ends(r, before, after, lost)
  {
    hide AllWide;
    var h := History(s.grid);
    Replaced(before, row, after, Fill(Below(s), BlankRow(s.grid.cols)), lost);
    assert History(r.grid) == h[|s.grid.scrollback| + s.cursor.row := after];
  }

  // ----- Going on to the next row -----

  lemma NextRow(s: ScreenV, before: seq<Row>, row: Row, lost: nat) returns (lost': nat)
    requires Plain(s) && Ends(s, before, row, lost)
    ensures var r := LineFed(s);
            && r.cursor.row < r.grid.rows && Ends(r, before + [row], BlankRow(s.grid.cols), lost')
            && r.cursor.col == s.cursor.col
  {
    hide AllWide, Ends, ScrolledUp, WholeRows;
    if Below(s) > 0 {
      NextRowBelow(s, before, row, lost);
      lost' := lost;
    } else {
      lost' := NextRowScrolls(s, before, row, lost);
    }
  }

  lemma NextRowBelow(s: ScreenV, before: seq<Row>, row: Row, lost: nat)
    requires Plain(s) && Ends(s, before, row, lost) && Below(s) > 0
    ensures var r := LineFed(s);
            && r.cursor.row < r.grid.rows && Ends(r, before + [row], BlankRow(s.grid.cols), lost)
            && r.cursor.col == s.cursor.col
  {
    hide AllWide, ScrolledUp, WholeRows, History;
    var b := Below(s);
    MoreBlanks(before, row, BlankRow(s.grid.cols), b);
    assert LineFed(s).grid == s.grid && Below(LineFed(s)) == b - 1;
  }

  lemma MoreBlanks(before: seq<Row>, row: Row, blank: Row, b: nat)
    requires b > 0
    ensures before + [row] + Fill(b, blank) == before + [row] + [blank] + Fill(b - 1, blank)
  {
  }

  lemma NextRowScrolls(s: ScreenV, before: seq<Row>, row: Row, lost: nat) returns (lost': nat)
    requires Plain(s) && Ends(s, before, row, lost) && Below(s) == 0
    ensures var r := LineFed(s);
            && r.cursor.row < r.grid.rows && Ends(r, before + [row], BlankRow(s.grid.cols), lost')
            && r.cursor.col == s.cursor.col
  {
    hide AllWide, ScrolledUp, WholeRows, History;
    var r, blank := LineFed(s), BlankRow(s.grid.cols);
    var all := before + [row];
    var more := ScrollingConservesHistory(s.grid, 1);
    assert Fill(0, blank) == [] && all + [] == all && Fill(1, blank) == [blank];
    lost' := lost + more;
    Dropping(all, [blank], lost, more);
    assert r.grid == ScrolledUp(s.grid, 0, s.grid.rows, 1) && Below(r) == 0;
    assert all + [blank] + [] == all + [blank];
  }

  lemma Dropping<T>(a: seq<T>, b: seq<T>, m: nat, n: nat)
    requires m <= |a| && n <= |a[m..] + b|
    ensures (a[m..] + b)[n..] == (a + b)[m + n..]
  {
  }

  lemma FlagOnly(s: ScreenV, before: seq<Row>, row: Row, lost: nat, continuation: bool)
    requires Plain(s) && Ends(s, before, row, lost)
    ensures var r := Flagged(s, continuation);
            && Plain(r) && SameInk(s, r) && r.cursor == s.cursor && r.pendingWrap == s.pendingWrap
            && r.cursor.row < r.grid.rows && Ends(r, before, row.(continuation := continuation), lost)
  {
    hide AllWide, Ends;
    CursorRowIs(s, before, row, lost);
    RowReplaced(s, Flagged(s, continuation), before, row, row.(continuation := continuation), lost);
  }

  lemma ReturnedPlain(s: ScreenV)
    requires Plain(s)
    ensures var r := CarriageReturned(s);
            && Plain(r) && SameInk(s, r) && r.cursor.col == 0 && r.cursor.row == s.cursor.row && r.grid == s.grid
            && !r.pendingWrap
  {
    hide AllWide;
  }

  lemma LineFedPlain(s: ScreenV)
    requires Plain(s)
    ensures var r := LineFed(s); Plain(r) && SameInk(s, r) && r.pendingWrap == false
  {
    hide AllWide, ScrolledUp, WholeRows;
  }

  /** A full row is left: it stays without its flag, and the cursor is on a blank row that
      continues it. */
  lemma WrapTaken(s: ScreenV, before: seq<Row>, part: seq<Cell>, continuation: bool, lost: nat) returns (lost': nat)
    requires Shows(s, before, part, continuation, lost) && s.pendingWrap
    ensures var r := AfterPending(s);
            && Plain(r) && SameInk(s, r) && r.cursor.col == 0 && !r.pendingWrap
            && Ends(r, before + [Row(part, false)], BlankRow(s.grid.cols).(continuation := true), lost')
  {
    hide AllWide, Ends, LineFed, CarriageReturned, Flagged, Safe, WholeRows;
    assert FitCells(part, s.grid.cols) == part;
    FlagOnly(s, before, Row(part, continuation), lost, false);
    var a := Flagged(s, false);
    ReturnedPlain(a);
    var b := CarriageReturned(a);
    SameEnds(a, b, before, Row(part, false), lost);
    lost' := NextRow(b, before, Row(part, false), lost);
    LineFedPlain(b);
    FlagOnly(LineFed(b), before + [Row(part, false)], BlankRow(s.grid.cols), lost', true);
  }

  lemma SameEnds(s: ScreenV, r: ScreenV, before: seq<Row>, row: Row, lost: nat)
    requires s.cursor.row < s.grid.rows && r.grid == s.grid && r.cursor.row == s.cursor.row
    ensures Ends(s, before, row, lost) <==> Ends(r, before, row, lost)
  {
  }

  // ----- One character -----

  /** A one-column character on a one-column cell just takes its place. */
  lemma PlainWrite(cells: seq<Cell>, col: nat, glyph: Cell)
    requires col < |cells| && cells[col].width == 1 && glyph.width == 1
    ensures Written(cells, col, glyph) == cells[col := glyph]
  {
  }

  lemma FitPut(part: seq<Cell>, cols: nat, glyph: Cell)
    requires |part| < cols
    ensures FitCells(part, cols)[|part|].width == 1
    ensures FitCells(part, cols)[|part| := glyph] == FitCells(part + [glyph], cols)
  {
  }

  lemma PutPlain(s: ScreenV, before: seq<Row>, part: seq<Cell>, continuation: bool, lost: nat, c: Scalar)
    requires Shows(s, before, part, continuation, lost) && !s.pendingWrap
    ensures var r := Advanced(Put(s, c, 1), 1);
            Shows(r, before, part + [Glyph(s, c, 1)], continuation, lost) && SameInk(s, r)
  {
    hide AllWide, Ends, Written;
    var row, glyph := Row(FitCells(part, s.grid.cols), continuation), Glyph(s, c, 1);
    CursorRowIs(s, before, row, lost);
    FitPut(part, s.grid.cols, glyph);
    PlainWrite(row.cells, |part|, glyph);
    var p := Put(s, c, 1);
    RowReplaced(s, p, before, row, Row(FitCells(part + [glyph], s.grid.cols), continuation), lost);
    SameEnds(p, Advanced(p, 1), before, Row(FitCells(part + [glyph], s.grid.cols), continuation), lost);
  }

  lemma PreparedNarrow(s: ScreenV)
    requires Safe(s) && !s.modes.insert
    ensures Prepared(s, 1) == AfterPending(s)
  {
    hide AfterPending;
  }

  /** One more character, with a wrap before it if the row is full. */
  lemma CharShown(s: ScreenV, before: seq<Row>, part: seq<Cell>, continuation: bool, lost: nat, c: Scalar)
    returns (lost': nat)
    requires Shows(s, before, part, continuation, lost) && OneColumn(s, c)
    ensures var r, glyph := CharWritten(s, c), GlyphOf(s, c);
            && SameInk(s, r)
            && if |part| < s.grid.cols then Shows(r, before, part + [glyph], continuation, lost')
               else Shows(r, before + [Row(part, false)], [glyph], true, lost')
  {
    hide AllWide, Ends, AfterPending, Advanced, Put, Safe, MappedChar, CharWidth, Prepared;
    var m := MappedChar(s, c);
    var s1 := Noted(s, m);
    NotedPlain(s, m);
    SameEnds(s, s1, before, Row(FitCells(part, s.grid.cols), continuation), lost);
    PreparedNarrow(s1);
    lost' := lost;
    if s.pendingWrap {
      lost' := WrapTaken(s1, before, part, continuation, lost);
      var t := AfterPending(s1);
      assert BlankRow(s.grid.cols).(continuation := true) == Row(FitCells([], s.grid.cols), true);
      PutPlain(t, before + [Row(part, false)], [], true, lost', m);
      assert [] + [GlyphOf(s, c)] == [GlyphOf(s, c)];
    } else {
      NotPending(s1);
      PutPlain(s1, before, part, continuation, lost, m);
    }
  }

  lemma NotedPlain(s: ScreenV, c: Scalar)
    requires Plain(s)
    ensures var r := Noted(s, c);
            && Plain(r) && SameInk(s, r) && r.grid == s.grid && r.cursor == s.cursor && r.pendingWrap == s.pendingWrap
            && r.cursor.row < r.grid.rows
  {
    hide AllWide;
  }

  lemma NotPending(s: ScreenV)
    requires Safe(s) && !s.pendingWrap
    ensures AfterPending(s) == s
  {
  }

  // ----- A text -----

  /** The history ends in these rows and blank ones; `lost` rows have gone from its front. */
  ghost predicate EndsIn(r: ScreenV, rows: seq<Row>, lost: nat) {
    && r.cursor.row < r.grid.rows && lost <= |rows|
    && History(r.grid) == (rows + Fill(Below(r), BlankRow(r.grid.cols)))[lost..]
    && (lost > 0 ==> |r.grid.scrollback| == r.grid.limit)
  }

  lemma PrintsCanBePerformed(s: ScreenV, text: seq<Scalar>)
    requires Safe(s)
    ensures AllWellFormed(PrintsOf(text)) && ActionsStaySafe(s, PrintsOf(text))
  {
    hide Safe, ActionsStaySafe;
    ClampedActionsStaySafe(s, PrintsOf(text));
  }

  lemma SameGlyphs(s: ScreenV, r: ScreenV, text: seq<Scalar>)
    requires SameInk(s, r)
    ensures Glyphs(s, text) == Glyphs(r, text)
    ensures forall c :: OneColumn(s, c) <==> OneColumn(r, c)
  {
    hide CharWidth;
  }

  /** Printing a text leaves exactly its rows. */
  lemma {:induction false} TextShown(s: ScreenV, before: seq<Row>, part: seq<Cell>, continuation: bool, lost: nat,
                                     text: seq<Scalar>)
    returns (lost': nat)
    requires Shows(s, before, part, continuation, lost) && forall i :: 0 <= i < |text| ==> OneColumn(s, text[i])
    ensures CanPerformAll(s, PrintsOf(text)) && |part| <= s.grid.cols && s.grid.cols >= 1
    ensures var r := PerformedAll(s, PrintsOf(text));
            && r.grid.cols == s.grid.cols
            && EndsIn(r, before + Laid(part, continuation, Glyphs(s, text), s.grid.cols), lost')
    decreases |text|
  {
    hide AllWide, CharWritten, Safe, OneColumn, GlyphOf, Fill, Performed, WellFormed;
    ShowsWidth(s, before, part, continuation, lost);
    PrintsCanBePerformed(s, text);
    lost' := lost;
    if text != [] {
      var r, glyph := CharWritten(s, text[0]), GlyphOf(s, text[0]);
      lost' := CharShown(s, before, part, continuation, lost, text[0]);
      SameGlyphs(s, r, text);
      assert PrintsOf(text)[1..] == PrintsOf(text[1..]);
      assert Glyphs(s, text)[1..] == Glyphs(r, text[1..]);
      PrintIsWriting(s, text[0]);
      if |part| < s.grid.cols {
        lost' := TextShown(r, before, part + [glyph], continuation, lost', text[1..]);
      } else {
        lost' := TextShown(r, before + [Row(part, false)], [glyph], true, lost', text[1..]);
        assert before + [Row(part, false)] + Laid([glyph], true, Glyphs(r, text[1..]), s.grid.cols)
          == before + ([Row(part, false)] + Laid([glyph], true, Glyphs(r, text[1..]), s.grid.cols));
      }
    }
  }

  lemma PrintIsWriting(s: ScreenV, c: Scalar)
    requires Safe(s)
    ensures Performed(s, Print(c)) == CharWritten(s, c)
  {
    hide CharWritten;
  }

  lemma ShowsWidth(s: ScreenV, before: seq<Row>, part: seq<Cell>, continuation: bool, lost: nat)
    requires Shows(s, before, part, continuation, lost)
    ensures Safe(s) && s.grid.cols >= 1 && s.cursor.row < s.grid.rows
  {
  }

  /** An empty row at the cursor, and below it. */
  ghost predicate Ready(s: ScreenV) {
    && Plain(s) && !s.pendingWrap && s.cursor.col == 0
    && forall i :: s.cursor.row <= i < s.grid.rows ==> s.grid.lines[i] == BlankRow(s.grid.cols)
  }

  lemma NewScreenReady(cols: nat, rows: nat)
    requires cols >= 1 && rows >= 1
    ensures Ready(NewScreen(cols, rows))
  {
  }

  lemma ReadyShows(s: ScreenV)
    requires Ready(s)
    ensures Shows(s, s.grid.scrollback + s.grid.lines[..s.cursor.row], [], false, 0)
  {
    hide AllWide;
    var k, before := s.cursor.row, s.grid.scrollback + s.grid.lines[..s.cursor.row];
    assert FitCells([], s.grid.cols) == Fill(s.grid.cols, BLANK);
    assert s.grid.lines[k..] == [BlankRow(s.grid.cols)] + Fill(Below(s), BlankRow(s.grid.cols));
    assert History(s.grid) == before + s.grid.lines[k..];
    assert before + ([BlankRow(s.grid.cols)] + Fill(Below(s), BlankRow(s.grid.cols)))
      == before + [BlankRow(s.grid.cols)] + Fill(Below(s), BlankRow(s.grid.cols));
  }

  /** From bytes to rows: the UTF-8 of a text of printable one-column characters, fed to a
      screen with an empty row at the cursor. The history then ends in the rows of the text,
      whatever scrolled; and they are the rows of one line exactly when there are at most two. */
  lemma TextBecomesRows(s: ScreenV, p: PState, text: seq<Scalar>) returns (lost: nat)
    requires Ready(s) && p.Valid() && p.state == Ground
    requires forall i :: 0 <= i < |text| ==> IsPrintable(text[i]) && OneColumn(s, text[i])
    ensures CanBeFed(s, p, EncodeText(text)) && s.grid.cols >= 1
    ensures var r, g := Fed(s, p, EncodeText(text)), Glyphs(s, text);
            var before := s.grid.scrollback + s.grid.lines[..s.cursor.row];
            && EndsIn(r, before + Laid([], false, g, s.grid.cols), lost) && r.grid.cols == s.grid.cols
            && (Laid([], false, g, s.grid.cols) == Wrapped(g, s.grid.cols, true) <==> |text| <= 2 * s.grid.cols)
  {
    hide Run, Laid, Wrapped, Glyphs, Shows, EndsIn, AllWide, Step, OneColumn, EncodeText;
    ReadyShows(s);
    TextPrints(p, text);
    var before := s.grid.scrollback + s.grid.lines[..s.cursor.row];
    PrintsCanBePerformed(s, text);
    lost := TextShown(s, before, [], false, 0, text);
    LaidIsWrapped(Glyphs(s, text), s.grid.cols);
    assert Fed(s, p, EncodeText(text)) == PerformedAll(s, PrintsOf(text));
  }

  /** Cells as a new screen writes them. */
  function DefaultCells(text: seq<Scalar>): (cells: seq<Cell>)
    ensures |cells| == |text|
  {
    seq(|text|, i requires 0 <= i < |text| => BLANK.(c := text[i]))
  }

  lemma NewScreenGlyphs(cols: nat, rows: nat, text: seq<Scalar>)
    requires forall i :: 0 <= i < |text| ==> CharWidth(text[i]) == 1
    ensures Glyphs(NewScreen(cols, rows), text) == DefaultCells(text)
    ensures forall i :: 0 <= i < |text| ==> OneColumn(NewScreen(cols, rows), text[i])
  {
    hide CharWidth;
  }

  /** From a new screen and a new parser: the whole history is the rows of the text and blank
      rows, but for what scrolled past the limit. */
  lemma TextOnNewScreen(cols: nat, rows: nat, text: seq<Scalar>) returns (lost: nat)
    requires cols >= 1 && rows >= 1
    requires forall i :: 0 <= i < |text| ==> IsPrintable(text[i]) && CharWidth(text[i]) == 1
    ensures CanBeFed(NewScreen(cols, rows), NewParser(), EncodeText(text))
    ensures var r, cells := Fed(NewScreen(cols, rows), NewParser(), EncodeText(text)), DefaultCells(text);
            && EndsIn(r, Laid([], false, cells, cols), lost) && r.grid.cols == cols && r.grid.rows == rows
            && (Laid([], false, cells, cols) == Wrapped(cells, cols, true) <==> |text| <= 2 * cols)
  {
    hide Run, Laid, Wrapped, Glyphs, EndsIn, AllWide, OneColumn, EncodeText, CharWidth, DefaultCells, Fed;
    var s := NewScreen(cols, rows);
    NewScreenReady(cols, rows);
    NewScreenGlyphs(cols, rows, text);
    lost := TextBecomesRows(s, NewParser(), text);
    assert s.grid.scrollback + s.grid.lines[..s.cursor.row] == [];
    assert [] + Laid([], false, DefaultCells(text), cols) == Laid([], false, DefaultCells(text), cols);
  }
}
