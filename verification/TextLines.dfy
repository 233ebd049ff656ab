/** Lines of text ended by CR LF, from bytes to rows. */
module TextLines {
  import opened Options
  import opened Utf8
  import opened Cells
  import opened GridValues
  import opened GridResize
  import opened VtParser
  import opened ParserRoundTrips
  import opened ParserControls
  import opened ScreenState
  import opened ScreenEdits
  import opened Performing
  import opened Runs
  import opened TextOutput

  const CR: Scalar := 0x0D
  const LF: Scalar := 0x0A

  /** The lines with CR LF between them. */
  function Joined(lines: seq<seq<Scalar>>): seq<Scalar>
    requires lines != []
    decreases |lines|
  {
    if |lines| == 1 then lines[0] else lines[0] + [CR, LF] + Joined(lines[1..])
  }

  /** Their rows: each line begins a new one. */
  function LaidLines(lines: seq<seq<Cell>>, cols: nat): seq<Row>
    requires lines != [] && cols >= 1
    decreases |lines|
  {
    Laid([], false, lines[0], cols) + if |lines| == 1 then [] else LaidLines(lines[1..], cols)
  }

  function LineGlyphs(s: ScreenV, lines: seq<seq<Scalar>>): (g: seq<seq<Cell>>)
    ensures |g| == |lines|
  {
    seq(|lines|, i requires 0 <= i < |lines| => Glyphs(s, lines[i]))
  }

  /** Every character of every line is printable, and of one column. */
  ghost predicate PlainLines(s: ScreenV, lines: seq<seq<Scalar>>) {
    forall i, k :: 0 <= i < |lines| && 0 <= k < |lines[i]| ==> IsPrintable(lines[i][k]) && OneColumn(s, lines[i][k])
  }

  // ----- One line, and the row it ends in -----

  /** Printing a text leaves its rows, the last of them at the cursor. */
  lemma {:induction false} TextEndsInRow(s: ScreenV, before: seq<Row>, part: seq<Cell>, continuation: bool, lost: nat,
                                         text: seq<Scalar>)
    returns (lost': nat, rows: seq<Row>, last: seq<Cell>, flag: bool)
    requires Shows(s, before, part, continuation, lost) && forall i :: 0 <= i < |text| ==> OneColumn(s, text[i])
    ensures CanPerformAll(s, PrintsOf(text)) && |part| <= s.grid.cols && s.grid.cols >= 1 && |last| <= s.grid.cols
    ensures var r := PerformedAll(s, PrintsOf(text)); Shows(r, before + rows, last, flag, lost') && SameInk(s, r)
    ensures Laid(part, continuation, Glyphs(s, text), s.grid.cols) == rows + [Row(FitCells(last, s.grid.cols), flag)]
    decreases |text|
  {
    hide AllWide, CharWritten, Safe, OneColumn, GlyphOf, Fill, Performed, WellFormed, FitCells, Ends;
    ShowsWidth(s, before, part, continuation, lost);
    PrintsCanBePerformed(s, text);
    if text == [] {
      lost', rows, last, flag := lost, [], part, continuation;
      assert before + [] == before;
    } else {
      var r, glyph := CharWritten(s, text[0]), GlyphOf(s, text[0]);
      var next := CharShown(s, before, part, continuation, lost, text[0]);
      SameGlyphs(s, r, text);
      assert PrintsOf(text)[1..] == PrintsOf(text[1..]);
      assert Glyphs(s, text)[1..] == Glyphs(r, text[1..]);
      PrintIsWriting(s, text[0]);
      if |part| < s.grid.cols {
        lost', rows, last, flag := TextEndsInRow(r, before, part + [glyph], continuation, next, text[1..]);
      } else {
        var below;
        lost', below, last, flag := TextEndsInRow(r, before + [Row(part, false)], [glyph], true, next, text[1..]);
        rows := [Row(part, false)] + below;
        assert before + [Row(part, false)] + below == before + rows;
      }
    }
  }

  /** CR and LF leave that row as it is and begin an empty one. */
  lemma LineBreak(s: ScreenV, before: seq<Row>, part: seq<Cell>, continuation: bool, lost: nat) returns (lost': nat)
    requires Shows(s, before, part, continuation, lost)
    ensures Safe(s) && CanPerformAll(s, [Execute(CR), Execute(LF)]) && |part| <= s.grid.cols
    ensures var r := PerformedAll(s, [Execute(CR), Execute(LF)]);
            && Shows(r, before + [Row(FitCells(part, s.grid.cols), continuation)], [], false, lost')
            && SameInk(s, r)
  {
    hide AllWide, Ends, LineFed, CarriageReturned, Performed, FitCells;
    var row := Row(FitCells(part, s.grid.cols), continuation);
    ReturnedPlain(s);
    var a := CarriageReturned(s);
    SameEnds(s, a, before, row, lost);
    lost' := NextRow(a, before, row, lost);
    LineFedPlain(a);
    EmptyRow(s.grid.cols);
    Controls(s);
  }

  lemma EmptyRow(cols: nat)
    ensures Row(FitCells([], cols), false) == BlankRow(cols)
  {
  }

  lemma Controls(s: ScreenV)
    requires Safe(s)
    ensures CanPerformAll(s, [Execute(CR), Execute(LF)])
    ensures PerformedAll(s, [Execute(CR), Execute(LF)]) == LineFed(CarriageReturned(s))
  {
    hide AllWide, Safe, Tight, LineFed, CarriageReturned;
    ExecuteSteps(s);
    ClampedActionsStaySafe(s, [Execute(CR), Execute(LF)]);
    assert [Execute(CR), Execute(LF)][1..] == [Execute(LF)] && [Execute(LF)][1..] == [];
    FirstCanPerform(s, [Execute(CR), Execute(LF)]);
    var a := CarriageReturned(s);
    ExecuteSteps(a);
    FirstCanPerform(a, [Execute(LF)]);
    assert PerformedAll(LineFed(a), []) == LineFed(a);
  }

  lemma ExecuteSteps(s: ScreenV)
    requires Safe(s)
    ensures Performed(s, Execute(CR)) == CarriageReturned(s) && Performed(s, Execute(LF)) == LineFed(s)
  {
    hide AllWide, Safe, Tight, LineFed, CarriageReturned;
  }

  // ----- All lines -----

  lemma JoinedIsStream(s: ScreenV, lines: seq<seq<Scalar>>)
    requires lines != [] && PlainLines(s, lines)
    ensures Stream(Joined(lines))
    decreases |lines|
  {
    hide OneColumn, IsPrintable;
    if |lines| > 1 {
      forall i, k | 0 <= i < |lines[1..]| && 0 <= k < |lines[1..][i]|
        ensures IsPrintable(lines[1..][i][k]) && OneColumn(s, lines[1..][i][k])
      {
        assert lines[1..][i] == lines[i + 1];
      }
      JoinedIsStream(s, lines[1..]);
    }
  }

  lemma LineActions(text: seq<Scalar>)
    requires forall i :: 0 <= i < |text| ==> IsPrintable(text[i])
    ensures Stream(text) && ActionsOf(text) == PrintsOf(text)
  {
  }

  lemma ActionsConcat(a: seq<Scalar>, b: seq<Scalar>)
    requires Stream(a) && Stream(b)
    ensures Stream(a + b) && ActionsOf(a + b) == ActionsOf(a) + ActionsOf(b)
  {
    hide IsPrintable;
  }

  lemma RestOfLines(s: ScreenV, r: ScreenV, lines: seq<seq<Scalar>>)
    requires |lines| > 1 && PlainLines(s, lines) && SameInk(s, r)
    ensures PlainLines(r, lines[1..]) && LineGlyphs(r, lines[1..]) == LineGlyphs(s, lines)[1..]
    ensures forall i :: 0 <= i < |lines[0]| ==> IsPrintable(lines[0][i]) && OneColumn(s, lines[0][i])
  {
    hide IsPrintable, OneColumn, GlyphOf;
    forall i, k | 0 <= i < |lines[1..]| && 0 <= k < |lines[1..][i]|
      ensures IsPrintable(lines[1..][i][k]) && OneColumn(r, lines[1..][i][k])
    {
      assert lines[1..][i] == lines[i + 1];
      SameGlyphs(s, r, lines[i + 1]);
    }
    forall i | 0 <= i < |lines[1..]|
      ensures LineGlyphs(r, lines[1..])[i] == LineGlyphs(s, lines)[1..][i]
    {
      assert lines[1..][i] == lines[i + 1];
      SameGlyphs(s, r, lines[i + 1]);
    }
  }

  /** The rows of the lines, whatever scrolled. */
  lemma {:induction false} LinesShown(s: ScreenV, before: seq<Row>, lost: nat, lines: seq<seq<Scalar>>)
    returns (lost': nat)
    requires Shows(s, before, [], false, lost) && lines != [] && PlainLines(s, lines)
    ensures Stream(Joined(lines)) && CanPerformAll(s, ActionsOf(Joined(lines))) && s.grid.cols >= 1
    ensures var r := PerformedAll(s, ActionsOf(Joined(lines)));
            && r.grid.cols == s.grid.cols
            && EndsIn(r, before + LaidLines(LineGlyphs(s, lines), s.grid.cols), lost')
    decreases |lines|
  {
    hide AllWide, Safe, Performed, PerformedAll, CanPerformAll, IsPrintable, OneColumn, FitCells, Ends, Laid, Stream,
      ActionsOf, PlainLines, LineGlyphs;
    JoinedIsStream(s, lines);
    PlainFirst(s, lines);
    LineActions(lines[0]);
    var rows, last, flag;
    lost', rows, last, flag := TextEndsInRow(s, before, [], false, lost, lines[0]);
    var r := PerformedAll(s, PrintsOf(lines[0]));
    FirstLine(s, lines);
    var row := Row(FitCells(last, s.grid.cols), flag);
    assert before + (rows + [row]) == before + rows + [row];
    if |lines| == 1 {
      LastLine(r, before + rows, last, flag, lost', s.grid.cols);
      assert rows + [row] + [] == rows + [row];
    } else {
      var a := LineBreak(r, before + rows, last, flag, lost');
      var q := PerformedAll(r, [Execute(CR), Execute(LF)]);
      RestOfLines(s, q, lines);
      lost' := LinesShown(q, before + rows + [row], a, lines[1..]);
      BreakActions();
      ActionsConcat(lines[0], [CR, LF]);
      ActionsConcat(lines[0] + [CR, LF], Joined(lines[1..]));
      PerformedConcat(s, PrintsOf(lines[0]), [Execute(CR), Execute(LF)]);
      PerformedConcat(s, PrintsOf(lines[0]) + [Execute(CR), Execute(LF)], ActionsOf(Joined(lines[1..])));
      assert before + rows + [row] + LaidLines(LineGlyphs(s, lines)[1..], s.grid.cols)
          == before + (rows + [row] + LaidLines(LineGlyphs(s, lines)[1..], s.grid.cols));
    }
  }

  lemma PlainFirst(s: ScreenV, lines: seq<seq<Scalar>>)
    requires lines != [] && PlainLines(s, lines)
    ensures forall i :: 0 <= i < |lines[0]| ==> IsPrintable(lines[0][i]) && OneColumn(s, lines[0][i])
  {
    hide IsPrintable, OneColumn;
  }

  lemma FirstLine(s: ScreenV, lines: seq<seq<Scalar>>)
    requires lines != []
    ensures LineGlyphs(s, lines) != [] && LineGlyphs(s, lines)[0] == Glyphs(s, lines[0])
  {
    hide GlyphOf;
  }

  lemma BreakActions()
    ensures Stream([CR, LF]) && ActionsOf([CR, LF]) == [Execute(CR), Execute(LF)]
  {
  }

  lemma LastLine(r: ScreenV, before: seq<Row>, last: seq<Cell>, flag: bool, lost: nat, cols: nat)
    requires Shows(r, before, last, flag, lost) && r.grid.cols == cols
    ensures EndsIn(r, before + [Row(FitCells(last, cols), flag)], lost)
  {
    hide AllWide, FitCells;
  }

  /** From bytes to rows: the UTF-8 of lines of one-column text with CR LF between them. The
      history then ends in the rows of each line, one after the other. */
  lemma LinesBecomeRows(s: ScreenV, p: PState, lines: seq<seq<Scalar>>) returns (lost: nat)
    requires Ready(s) && p.Valid() && p.state == Ground && lines != [] && PlainLines(s, lines)
    ensures CanBeFed(s, p, EncodeText(Joined(lines))) && s.grid.cols >= 1
    ensures var r := Fed(s, p, EncodeText(Joined(lines)));
            var before := s.grid.scrollback + s.grid.lines[..s.cursor.row];
            r.grid.cols == s.grid.cols && EndsIn(r, before + LaidLines(LineGlyphs(s, lines), s.grid.cols), lost)
  {
    hide Run, LaidLines, LineGlyphs, Shows, EndsIn, AllWide, EncodeText, PlainLines, Joined, Stream, ActionsOf,
      PerformedAll;
    ReadyShows(s);
    JoinedIsStream(s, lines);
    StreamActs(p, Joined(lines));
    lost := LinesShown(s, s.grid.scrollback + s.grid.lines[..s.cursor.row], 0, lines);
    assert Fed(s, p, EncodeText(Joined(lines))) == PerformedAll(s, ActionsOf(Joined(lines)));
  }
}
