# emux: a verified model of the terminal core and the pane layout

emux is a terminal multiplexer. This project models the four parts of it that carry state
and proves what they keep:

* **Terminal grid** (`GridValues`, `Grids`, `Reflow`, `ReflowCursor`, `ReflowPlace`, `GridResize`, `GridLaws`): a
  matrix of rows over a bounded scrollback; scrolling, inserting, deleting, clearing; and the resize
  that joins soft-wrapped rows into logical lines and splits them again. `Resizing` lifts it to the screen.
* **Screen** (`ScreenState`, `ScreenEdits`, `ScreenModes`, `Performing`, `Runs`, `Screens`, `Performer`):
  two grids, a cursor, margins, modes, the pen and the damage list, and the step every parsed action
  takes. `Received` names the input a program sends, and `CursorEffects`, `EditEffects`, `PrintEffects`, `StateEffects`,
  `ModeEffects` and `LinkEffects` say for every piece of it, from its bytes, which cells, coordinates, region or flags differ
  afterwards, and that nothing else does; `Erasing` has the spans. `WideCells`, `DamageMerging`, `DamageSoundness`,
  `SilentEdits`, `CellDamage`, `TextOutput`, `TextLines`, `SgrRoundTrip` and `ScreenLaws` state what the step keeps;
  `Confinement`, `AltScreen` and `AltVisits` what becomes of the main screen and its cursor while the alternate one shows;
  `Sessions` joins input and resizes; `Witnesses` holds input, as bytes, that reaches the failing sides.
* **VT parser** (`VtParams`, `VtParser`, `ParserRoundTrips`, `ParserControls`, `Sequences`, `Utf8`): bytes to actions.
  Control sequences follow section 5.4 of ECMA-48, UTF-8 sections 3 and 4 of RFC 3629.
* **Layout tree and tab** (`Layout`, `LayoutEdits`, `LayoutTemplates`, `LayoutEngines`, `Focus`,
  `TabState`, `Tabs`): a binary split tree that tiles a rectangle, and the tab that keeps its panes,
  floating panes and focus in step with it. `LayoutShares` ties sizes to ratios, `TabLaws` says what the choices mean.

`Base64` is the codec of the clipboard escape sequence (section 4 of RFC 4648). `Vectors` holds the examples of both
standards. `Cells` and `Options` hold what the others share.

An object whose methods change it in the program is a class here (`Params`, `Parser`, `Grid`, `Screen`,
`LayoutEngine`, `Tab`); each method's contract ties its new state to a function of the old one, and the
lemmas are about those functions. `Value()` is a class's state as a value. The performer's methods are
methods of the module `Performer` on a `Screen`.

## What is proved

1. *Whole-run safety.* A screen is safe (`ScreenState.Safe`) when both grids have their shape, the scrollback
   its limit, the cursor a row of the grid, the margins and tab stops their order and length: that is what
   every operation needs of the screen to index it in range. Any byte string whatever, fed to a new screen
   that is not empty, keeps it safe (`Runs.AnyBytesAreSafe`). Unless mode 40 is switched on, the size stays
   and both cursors stay on the screen (`Runs.CursorsStayOnScreen`). `Performer.Feed` carries it out; cutting
   the input anywhere changes nothing (`Runs.FeedingInChunks`).
   With resizes in between, one step alone can leave a safe screen: going back to the main screen by mode 47
   or 1047, which takes the waiting cursor as it is. A session of input and resizes is safe throughout if and
   only if each such step finds that cursor on a row of the size at that time (`Sessions.SessionsAreSafe`).
   So a session that comes back by mode 1049 alone is safe through every resize
   (`Sessions.ClampedSessionsAreSafe`), and any session is whose height never shrinks
   (`Sessions.HigherSessionsAreSafe`).
2. *Reflow and resize.* Reflow keeps the logical lines and their content, going to another width and
   back restores a line under an exact condition, the cursor keeps its cell, and a resize of the whole
   grid conserves the history under exact conditions. On the screen the cursor stays on its row when the height changes
   and with its cell when the width does, unless that row leaves the screen (`Resizing.CursorStaysWhenLower`,
   `Resizing.CursorStaysWithItsCell`).
3. *Text from bytes to rows* (`TextOutput.TextBecomesRows`, `TextOutput.TextOnNewScreen`), through UTF-8, the
   parser, wraps and scrolls; and lines of text with CR LF between them (`TextLines.LinesBecomeRows`).
4. *Wide characters* stay whole, and *damage* is reported, each with the exact condition; the edits that
   record nothing each have the exact state of the screen on which that is right, and so do those that in cell
   mode record fewer cells than they change.
5. *Parser*: the fast path refines the slow one; text, control sequences and parameters round trip, and pen
   settings do from bytes to pen, as far as 32 parameters go. Controls are executed in order between characters
   (`ParserControls.StreamActs`) and inside sequences, which go on as if they had not come (`ParserControls.ControlsInCsi`).
   *Every sequence from its bytes*: with any marker, numbers and intermediates, in any state of the parser but the middle of a
   character, on any safe screen, what it makes of the screen is said in cells and coordinates, with what stays.
6. *The alternate screen.* A small automaton over the actions alone says, for every run between entering
   and leaving, whether the main screen comes back (`AltVisits.VisitToAltScreen`); in mode 1049 cursor, pen and
   character sets are those of the last save, in whatever form (`AltVisits.LastSaveWins`), so cursor and pen
   come back if and only if that save agrees with them (`AltVisits.CursorComesBack`).
7. *Layout and tab*: tiling, locality of edits, templates, the tab invariant over every operation, focus. A rectangle's
   share is the whole number nearest to its ratio, and growing a pane never shrinks it while ratios are between 0.1 and 0.9,
   where every edit keeps them (`LayoutShares.ShareIsNearest`, `LayoutShares.GrowingNeverShrinks`, `LayoutShares.EditsKeepBounds`).

## Where the code differs from its comments or from what one expects

The model does what the code does; each of these is a lemma.

* A wrap clears the continuation flag of the row it leaves, even if that row continues another. A text of
  three rows or more is therefore not one logical line (`TextOutput.LaidIsWrapped`).
* Rows recovered from the scrollback by a higher viewport come back newest first
  (`GridResize.GrowingKeepsOrder`, `GridResize.GrowingByTwoReorders`).
* A one-row line is cut when the screen narrows (`Reflow.ReflowRoundTrip` has the exact condition).
* `Screen::resize` never clamps the cursor of the other screen. After leaving by mode 47 or 1047 the cursor
  can be on a row the screen no longer has, where the next operation on its row reads past the last one
  (`Performing.LandingIsSafe`, `ScreenModes.LeavingAfterResize`, `Witnesses.CursorLeftBehind`).
* DECSTR clears the flag of the alternate screen while that screen shows, as does XTRESTORE of modes saved on
  the main one. Leaving then does nothing, and the next visit wipes the main screen
  (`AltVisits.ResetsTakeLinkDown`, `AltVisits.StrandedIsWiped`, `Witnesses.LetterWiped`).
* There is one saved cursor for both screens: DECSC on the alternate screen moves the cursor mode 1049 comes
  back to (`AltVisits.LastSaveWins`, `Witnesses.CursorTakenAlong`), and XTSAVE, DECSTR and XTRESTORE there send
  it home (`AltVisits.SavedCursorIsLost`).
* A wide character that does not fit overwrites the last cell without looking for the head of another wide
  character before it, and without recording damage (`WideCells.WideCharactersStayWhole`,
  `DamageSoundness.PrintingIsReported`, `Witnesses.WideCharacterCut`).
* Inserting and deleting lines, reverse index, the alignment pattern and the rectangle operations record no
  damage at all; `SilentEdits` says for each exactly when nothing has to be reported
  (`SilentEdits.NothingRecorded`, `Witnesses.InsertedLineUnreported`). RIS drops what was recorded.
* In cell mode, the other half of a wide character that is cut, and in insert mode the rest of the row, change
  outside the recorded columns (`CellDamage.PlacingIsReported`, `CellDamage.EraseCharsReported`,
  `Witnesses.HalfUnreported`).
* In origin mode CHA counts the row, and VPA the column, from the margin again, so the cursor leaves its row or column
  unless the margin is at the edge of the screen or the place is the last one (`CursorEffects.CountedAgain`).
* An OSC 8 address is cut at its first semicolon (`LinkEffects.Links`).
* A colour cut short in SGR, `38;2;r;g`, sets no colour, and r and g are read as codes (`ModeEffects.ColourCutShort`).
* Resetting one mode of the mouse resets whichever is set (`ModeEffects.SetsMouseMode`).
* A lead byte of UTF-8 takes the bytes it asks for whatever they are, ESC and controls among them, and they are lost if they
  are no character (`ParserControls.LeadTakesAll`).
* The British character set is ASCII (`PrintEffects.ShownIsMapped`).
* Growing a pane can shrink it: a ratio of a template above 0.9 is clamped to 0.9 by any adjustment
  (`LayoutShares.GrowingCanShrink`).
* A byte 0x9C inside a character of an OSC string, as in U+2713, ends the string (`ParserRoundTrips.OscText`).
* Erasing no characters at the tail of a wide one unpairs it (`Cells.ErasingNothingCanUnpair`).
* An OSC ended by ESC `\` is dropped, and a DCS whose final byte comes first, with no marker, parameter or
  intermediate before it, has no hook (`ParserRoundTrips.OscEndedByEscIsDropped`, `ParserRoundTrips.DcsHooked`).
* `adjust_ratio` is documented to take the nearest split and takes the outermost
  (`LayoutEngines.AdjustReachesOutermost`, `LayoutEngines.OutermostIsNearest`).
* `remove_pane` answers true for an id that is not there (`LayoutEngines.LayoutEngine.RemovePane`).
* `apply_template` loses a prune that would collapse the root (`LayoutTemplates.AppliedExactly`,
  `TabState.TemplateKeepsPanes`, `TabState.OnePaneTwoLeaves`).

## Model

| member | source | states |
|---|---|---|
| `GridValues.Recent` | crates/emux-term/src/grid.rs:243-245 | the newest rows that fit the scrollback limit |
| `GridValues.RecentTwice` | crates/emux-term/src/grid.rs:649-655 | trimming after each push leaves what trimming once at the end does |
| `GridValues.ScrolledUp` | crates/emux-term/src/grid.rs:229-256 | scrolling up keeps shape and scrollback limit |
| `GridValues.RegionUp` | crates/emux-term/src/grid.rs:708-736 | scrolling a rectangle keeps the shape of the grid |
| `Grids.Grid.constructor` | crates/emux-term/src/grid.rs:166-175 | a new grid is blank |
| `Grids.Grid.SetScrollbackLimit` | crates/emux-term/src/grid.rs:193-198 | a lower limit keeps the newest rows |
| `Grids.Grid.PushScrollback` | crates/emux-term/src/grid.rs:650-655 | a row goes to the back, the oldest leaves at the limit |
| `Grids.Grid.PopScrollback` | crates/emux-term/src/grid.rs:645-647 | the newest row comes out, none if there is none |
| `Grids.Grid.ScrollUp` | crates/emux-term/src/grid.rs:229-256 | the region moves up; rows leave for the scrollback only from the top of the screen |
| `Grids.Grid.ScrollDown` | crates/emux-term/src/grid.rs:260-276 | the region moves down, its last rows are lost |
| `Grids.Grid.InsertLines` | crates/emux-term/src/grid.rs:568-582 | the backward copy opens blank lines at the row |
| `Grids.Grid.DeleteLines` | crates/emux-term/src/grid.rs:586-600 | the forward copy closes up, blank lines at the bottom |
| `Grids.Grid.ClearRow` | crates/emux-term/src/grid.rs:279-281 | a row and its flag are reset |
| `Grids.Grid.SetCell` | crates/emux-term/src/grid.rs:208-212 | a cell is replaced, coordinates clamped |
| `Grids.Grid.SetFlag` | crates/emux-term/src/grid.rs:221-224 | a row flag is set, the row clamped |
| `Grids.Grid.ClearRegion` | crates/emux-term/src/grid.rs:287-303 | the rectangle is blank, and halves of wide characters at its edges |
| `Grids.Grid.EraseChars` | crates/emux-term/src/grid.rs:604-620 | characters are blank, and halves of wide characters at both ends |
| `Grids.Grid.InsertCellsBounded` | crates/emux-term/src/grid.rs:772-798 | cells move right up to the bound, blanks take their place |
| `Grids.Grid.DeleteCellsBounded` | crates/emux-term/src/grid.rs:802-824 | cells move left, blanks before the bound |
| `Grids.Grid.ScrollUpRegion` | crates/emux-term/src/grid.rs:708-736 | only the rectangle moves up |
| `Grids.Grid.ScrollDownRegion` | crates/emux-term/src/grid.rs:740-768 | only the rectangle moves down |
| `Grids.Grid.ResizeWithCursor` | crates/emux-term/src/grid.rs:320-426 | the resize and the cursor delta as their specification |
| `Grids.Grid.ChangeColumns` | crates/emux-term/src/grid.rs:333-373 | scrollback and viewport are reflowed together and split again, the cursor row tracked |
| `Grids.Grid.Grow` | crates/emux-term/src/grid.rs:376-396 | rows are popped off the scrollback, then blanks appended |
| `Grids.Grid.Shrink` | crates/emux-term/src/grid.rs:397-421 | the loop drops trailing blank rows first, then pushes rows to the scrollback |
| `GridLaws.ScrollingConservesHistory` | crates/emux-term/src/grid.rs:229-256 | scrolling the screen only appends blanks to the history; rows are lost at its front only at the limit |
| `GridLaws.DeletingUndoesInserting` | crates/emux-term/src/grid.rs:568-600 | DL undoes IL but for the lines pushed out |
| `GridLaws.DeletingCellsUndoesInserting` | crates/emux-term/src/grid.rs:772-824 | DCH undoes ICH but for the cells pushed out |
| `GridLaws.RegionUpAt` | crates/emux-term/src/grid.rs:708-736 | cell by cell: the rectangle shifted, everything else as it was |
| `GridLaws.RegionDownAt` | crates/emux-term/src/grid.rs:740-768 | the same downwards |
| `Cells.ShiftLeftAt` | crates/emux-term/src/grid.rs:592-599 | place by place: a left shift with blanks |
| `Cells.ShiftRightAt` | crates/emux-term/src/grid.rs:574-581 | place by place: a right shift with blanks |
| `Cells.ClearingKeepsPairs` | crates/emux-term/src/grid.rs:287-303 | clearing a span keeps wide characters whole |
| `Cells.ErasingKeepsPairs` | crates/emux-term/src/grid.rs:604-620 | erasing one character or more keeps wide characters whole |
| `Cells.ErasingNothingCanUnpair` | crates/emux-term/src/grid.rs:608-612 | erasing none keeps them whole exactly when the cell is not a tail |
| `Reflow.LineEnd` | crates/emux-term/src/grid.rs:449-455 | a logical line is a row and the rows after it that continue it |
| `Reflow.ReflowKeepsLines` | crates/emux-term/src/grid.rs:445-549 | the number and order of logical lines stay; each becomes its own reflow |
| `Reflow.ReflowKeepsContent` | crates/emux-term/src/grid.rs:462-548 | every output row has the new width; longer lines keep their cells up to trailing blanks; a one-row line is cut or padded |
| `Reflow.LineReflow` | crates/emux-term/src/grid.rs:462-548 | the shape, flags and content of one reflowed line |
| `Reflow.WrappedShape` | crates/emux-term/src/grid.rs:516-543 | rows of a split line: width, flags, and when there is only one |
| `Reflow.LineRoundTrip` | crates/emux-term/src/grid.rs:462-548 | there and back restores the content if and only if the line survives the width between |
| `Reflow.ReflowRoundTrip` | crates/emux-term/src/grid.rs:435-552 | the same for every logical line of a whole history |
| `ReflowCursor.CursorSurvives` | crates/emux-term/src/grid.rs:475-547 | a cursor anywhere lands in the same logical line, on the row that holds its cell when the offset is in the content |
| `ReflowCursor.LineCursorKeepsCell` | crates/emux-term/src/grid.rs:530-547 | the same for one line |
| `ReflowPlace.CursorPlace` | crates/emux-term/src/grid.rs:475-547 | in its line the cursor is on the row that holds its offset, in the content or behind it, or on the last row |
| `ReflowCursor.ReflowLines` | crates/emux-term/src/grid.rs:435-552 | the nested loops compute the reflow and the cursor row |
| `ReflowCursor.ReflowOne` | crates/emux-term/src/grid.rs:462-548 | one logical line of the loop |
| `ReflowCursor.WrapCells` | crates/emux-term/src/grid.rs:516-543 | the inner loops split the cells as specified |
| `ReflowCursor.TrimmedLen` | crates/emux-term/src/grid.rs:489-505 | the trimming loop finds the content length |
| `GridResize.ResizedShape` | crates/emux-term/src/grid.rs:320-426 | the result has exactly the new size and respects the limit |
| `GridResize.ColumnChangeKeepsHistory` | crates/emux-term/src/grid.rs:334-363 | after a change of width the history is the newest part of the reflowed history, then blank rows; loss only at the limit |
| `GridResize.ShrinkingConserves` | crates/emux-term/src/grid.rs:397-421 | a lower viewport loses only text-blank bottom rows and rows beyond the limit; if a row went up, the last one is not blank |
| `GridResize.GrowingConserves` | crates/emux-term/src/grid.rs:376-396 | a higher viewport keeps the multiset of rows; blanks only once the scrollback is used up |
| `GridResize.GrowingKeepsOrder` | crates/emux-term/src/grid.rs:383-394 | the order survives if and only if the recovered rows read the same both ways |
| `GridResize.GrowingByOneKeepsOrder` | crates/emux-term/src/grid.rs:383-394 | it survives when at most one row is recovered |
| `GridResize.GrowingByTwoReorders` | crates/emux-term/src/grid.rs:383-389 | two different recovered rows change places |
| `GridResize.CursorFollowsRows` | crates/emux-term/src/grid.rs:396-417 | a change of height moves the cursor with its row, or exactly when off the screen |
| `GridResize.CursorFollowsColumns` | crates/emux-term/src/grid.rs:365-370 | a change of width moves the cursor to the row that keeps its cell, or to the top when it is above |
| `GridResize.SameSizeIsNothing` | crates/emux-term/src/grid.rs:326-328 | the same size changes nothing |
| `GridResize.TrailingBlank` | crates/emux-term/src/grid.rs:402-409 | the rows a shrink may drop |
| `VtParams.GetReadsFinished` | crates/emux-vt/src/params.rs:98-165 | `get`, `len`, `finished` and the flags agree whatever is left over in the arrays |
| `VtParams.ParametersRoundTrip` | crates/emux-vt/src/params.rs:39-165 | the first 32 digit strings joined by `;` or `:` read back cut to 16 bits with exactly the colons marked, whatever was in the arrays, if and only if there are more than 32 of them or the last is not empty on its own or after a colon |
| `VtParams.Params.Clear` | crates/emux-vt/src/params.rs:39-46 | counters reset, the arrays left as they are |
| `VtParams.Params.Push` | crates/emux-vt/src/params.rs:49-95 | one byte accumulated, saturating |
| `VtParams.PushDigits` | crates/emux-vt/src/params.rs:52-60 | digits of any length saturate at 32 bits |
| `VtParser.Step` | crates/emux-vt/src/parser.rs:206-256 | one byte keeps the bounds: 4 intermediates, 32 parameters, 65536 OSC bytes, 4 UTF-8 bytes |
| `VtParser.Run` | crates/emux-vt/src/parser.rs:175-204 | so does every run |
| `VtParser.Intermediates.Push` | crates/emux-vt/src/parser.rs:42-47 | a fifth intermediate is dropped |
| `VtParser.Parser.constructor` | crates/emux-vt/src/parser.rs:161-172 | a new parser is in the ground state |
| `VtParser.Parser.Advance` | crates/emux-vt/src/parser.rs:175-204 | the fast path emits the same actions and reaches the same state as one step per byte |
| `VtParser.Parser.AdvanceByte` | crates/emux-vt/src/parser.rs:206-256 | one byte is one step |
| `VtParser.Parser.OnGround` | crates/emux-vt/src/parser.rs:259-311 | a byte of the ground state is one step, of which `ParserControls.StreamActs` and the round trips are proved |
| `VtParser.Parser.OnEscape` | crates/emux-vt/src/parser.rs:314-356 | escape state |
| `VtParser.Parser.OnEscapeIntermediate` | crates/emux-vt/src/parser.rs:359-380 | escape intermediates |
| `VtParser.Parser.OnCsiEntry` | crates/emux-vt/src/parser.rs:383-416 | start of a control sequence |
| `VtParser.Parser.OnCsiParam` | crates/emux-vt/src/parser.rs:419-447 | its parameters |
| `VtParser.Parser.OnCsiIntermediate` | crates/emux-vt/src/parser.rs:450-474 | its intermediates |
| `VtParser.Parser.OnCsiIgnore` | crates/emux-vt/src/parser.rs:477-486 | a malformed sequence is skipped |
| `VtParser.Parser.OnOscString` | crates/emux-vt/src/parser.rs:489-509 | OSC data collected to its limit, dispatched in parts |
| `VtParser.Parser.OnDcsEntry` | crates/emux-vt/src/parser.rs:512-532 | start of a device control string; no hook on a final byte |
| `VtParser.Parser.OnDcsParam` | crates/emux-vt/src/parser.rs:535-558 | its parameters; hook on the final byte |
| `VtParser.Parser.OnDcsIntermediate` | crates/emux-vt/src/parser.rs:561-580 | its intermediates |
| `VtParser.Parser.OnDcsPassthrough` | crates/emux-vt/src/parser.rs:583-595 | its data |
| `VtParser.Parser.OnSkipped` | crates/emux-vt/src/parser.rs:598-608 | strings skipped to ST |
| `VtParser.Parser.OnUtf8` | crates/emux-vt/src/parser.rs:206-220 | the next byte of a character never goes past the buffer |
| `VtParser.RunConcat` | crates/emux-vt/src/parser.rs:175-204 | splitting the input anywhere changes nothing |
| `VtParser.GroundPrints` | crates/emux-vt/src/parser.rs:181-195 | printable ASCII prints itself and stays in the ground state |
| `ParserRoundTrips.TextPrints` | crates/emux-vt/src/parser.rs:289-309 | the UTF-8 of printable text prints each character once, in order, and ends in the ground state |
| `ParserRoundTrips.TextRoundTrip` | crates/emux-vt/src/parser.rs:206-311 | it does so exactly when every character is printable |
| `ParserRoundTrips.RunPrintsAtMost` | crates/emux-vt/src/parser.rs:206-311 | no run prints more characters than it has bytes that can begin one |
| `ParserRoundTrips.ControlSequence` | crates/emux-vt/src/parser.rs:383-447 | ESC [ parameters final byte is one dispatch |
| `ParserRoundTrips.CsiRoundTrip` | crates/emux-vt/src/parser.rs:383-447 | whose parameters read back under that same exact condition, whatever earlier sequences left behind |
| `ParserRoundTrips.OscDispatched` | crates/emux-vt/src/parser.rs:489-509 | an OSC ended by BEL or one-byte ST is dispatched in parts, cut at its limit |
| `ParserRoundTrips.OscCut` | crates/emux-vt/src/parser.rs:489-509 | one-byte ST ends an OSC wherever it stands, and what follows is parsed as new input |
| `ParserRoundTrips.OscText` | crates/emux-vt/src/parser.rs:489-509 | a text in an OSC is dispatched up to its first byte 0x9C, and comes out whole and alone if and only if it has none |
| `ParserRoundTrips.CheckMarkCuts` | crates/emux-vt/src/parser.rs:489-497 | the second byte of U+2713 is one |
| `ParserRoundTrips.OscEndedByEscIsDropped` | crates/emux-vt/src/parser.rs:230-235 | ended by ESC \ only the escape sequence comes out |
| `ParserRoundTrips.PrivateSequence` | crates/emux-vt/src/parser.rs:383-447 | with a `?` after the bracket, the same, and the mark is the one intermediate |
| `ParserRoundTrips.DcsHooked` | crates/emux-vt/src/parser.rs:512-580 | a DCS of an optional marker, parameters, intermediates and a final byte has one hook, with those parameters and the first four of marker and intermediates, if and only if anything precedes the final byte; its data is passed through either way |
| `ParserRoundTrips.DecrqssIsHooked` | crates/emux-vt/src/parser.rs:512-580 | ESC P $ q has a hook, without parameters |
| `ParserRoundTrips.PartsJoin` | crates/emux-vt/src/parser.rs:494-498 | the dispatched parts hold no semicolon and joined are the data |
| `VtParser.SplitParts` | crates/emux-vt/src/parser.rs:494-498 | there is always at least one part |
| `Utf8.DecodeEncodeText` | crates/emux-vt/src/parser.rs:213-217 | decoding undoes encoding |
| `Utf8.DecodeEncode` | crates/emux-vt/src/parser.rs:213-217 | for one character |
| `Utf8.EncodeDecode` | crates/emux-vt/src/parser.rs:213-217 | whatever decodes is the encoding of its text: no overlong form, no surrogate |
| `Base64.Base64Encode` | crates/emux-term/src/selection.rs:278-301 | the encoder loop over all three tail lengths |
| `Base64.Base64Decode` | crates/emux-term/src/selection.rs:213-275 | the decoder loop and its error cases |
| `Base64.RoundTrip` | crates/emux-term/src/selection.rs:213-301 | decoding an encoding gives the bytes back, for every byte string |
| `Base64.DecodesExactly` | crates/emux-term/src/selection.rs:213-275 | an unpadded input decodes if and only if all of it is in the alphabet and not one character is left over, and to how many bytes |
| `Base64.CharRoundTrip` | crates/emux-term/src/selection.rs:281-300 | every sextet has its own character |
| `Layout.Tiling` | crates/emux-mux/src/layout.rs:111-153 | every tree, ratio and area: each cell of the area is in exactly one rectangle, no cell outside in any |
| `Layout.FirstShare` | crates/emux-mux/src/layout.rs:132-141 | the clamp keeps a share inside the total, and positive where it can be; `LayoutShares.ShareIsNearest` has its value |
| `Layout.PositionsDisjoint` | crates/emux-mux/src/layout.rs:111-153 | no two rectangles share a cell |
| `Layout.PositionsInside` | crates/emux-mux/src/layout.rs:111-153 | every rectangle lies in the area |
| `Layout.CoverWitness` | crates/emux-mux/src/layout.rs:111-153 | each cell of the area has a pane |
| `Layout.IdsOfPositions` | crates/emux-mux/src/layout.rs:37-46 | positions are listed in the order of the pane ids |
| `Layout.ComputePositionsInner` | crates/emux-mux/src/layout.rs:111-153 | the accumulating recursion appends the positions |
| `Layout.EditIsLocal` | crates/emux-mux/src/layout.rs:57-108 | replacing a subtree changes only its part of the position list |
| `LayoutEdits.SplitIsLocal` | crates/emux-mux/src/layout.rs:57-76 | a split replaces one rectangle by two that tile it, both at least 2 when it was at least 4 |
| `LayoutEdits.SplitIds` | crates/emux-mux/src/layout.rs:57-76 | the new pane follows the one that was split |
| `LayoutEdits.ReplaceLeafIsAnEdit` | crates/emux-mux/src/layout.rs:212-223 | renaming edits the first leaf of that name |
| `LayoutEdits.RenameIds` | crates/emux-mux/src/layout.rs:212-223 | and only its entry in the id list |
| `LayoutEdits.RenamePositions` | crates/emux-mux/src/layout.rs:212-223 | no rectangle moves |
| `LayoutEdits.RenameBack` | crates/emux-mux/src/layout.rs:212-223 | renaming to the temporary id and back is the same tree |
| `LayoutEdits.SwapSucceeds` | crates/emux-mux/src/layout.rs:196-209 | a swap answers true exactly when both panes are there and differ, and else changes nothing |
| `LayoutEdits.SwapExchanges` | crates/emux-mux/src/layout.rs:196-209 | two leaves change places, through a temporary id, and no rectangle moves |
| `LayoutEdits.RemoveIsLocal` | crates/emux-mux/src/layout.rs:79-108 | removing a pane gives its room to the sibling and leaves other rectangles alone |
| `LayoutEdits.RemoveDeletes` | crates/emux-mux/src/layout.rs:79-108 | exactly that id goes, the order of the others stays |
| `LayoutEdits.RemoveAbsent` | crates/emux-mux/src/layout.rs:79-108 | an id that is not there changes nothing |
| `LayoutEdits.RemoveReports` | crates/emux-mux/src/layout.rs:79-108 | what the result of the recursion says |
| `LayoutTemplates.AppliedMultiset` | crates/emux-mux/src/layout.rs:378-405 | with at least as many panes as leaves the new tree holds exactly the given panes, whatever ids the template has |
| `LayoutTemplates.AppliedInOrder` | crates/emux-mux/src/layout.rs:378-405 | in the given order when the template ids are distinct and unused |
| `LayoutTemplates.CollidingTemplateReorders` | crates/emux-mux/src/layout.rs:385-391 | a template that reuses an id can reorder them |
| `LayoutTemplates.AppliedExactly` | crates/emux-mux/src/layout.rs:378-405 | with distinct unused ids the leaves are the given panes in order if and only if there are enough panes, or more than the first half of the template has leaves |
| `LayoutEngines.LayoutEngine.AddPane` | crates/emux-mux/src/layout.rs:263-276 | a pane is added by splitting the last one |
| `LayoutEngines.LayoutEngine.SplitPane` | crates/emux-mux/src/layout.rs:279-290 | a pane is split, or nothing happens |
| `LayoutEngines.LayoutEngine.RemovePane` | crates/emux-mux/src/layout.rs:293-313 | a pane is removed; true also for one that is not there |
| `LayoutEngines.LayoutEngine.PaneIdList` | crates/emux-mux/src/layout.rs:316-321 | the ids in order |
| `LayoutEngines.LayoutEngine.ComputePositions` | crates/emux-mux/src/layout.rs:332-341 | the positions |
| `LayoutEngines.LayoutEngine.AdjustPaneRatio` | crates/emux-mux/src/layout.rs:345-350 | one ratio changes |
| `LayoutEngines.LayoutEngine.SwapPanes` | crates/emux-mux/src/layout.rs:354-359 | two panes change places |
| `LayoutEngines.LayoutEngine.ApplyTemplate` | crates/emux-mux/src/layout.rs:378-405 | rename in turn, then split off the extra panes or prune the spare leaves |
| `LayoutEngines.RenameInTurn` | crates/emux-mux/src/layout.rs:385-391 | the renaming loop |
| `LayoutEngines.SplitOffExtras` | crates/emux-mux/src/layout.rs:392-398 | the chained splits |
| `LayoutEngines.PruneExtras` | crates/emux-mux/src/layout.rs:399-403 | the prunes, their result discarded |
| `LayoutEngines.AdjustReachesOutermost` | crates/emux-mux/src/layout.rs:157-193 | the ratio that changes is the outermost split on the axis |
| `LayoutEngines.OutermostIsNearest` | crates/emux-mux/src/layout.rs:155-193 | which is the documented nearest one exactly when there is one |
| `LayoutTemplates.StrayLeaf` | crates/emux-mux/src/layout.rs:379-405 | with no more panes than the first half of the template has leaves, and fewer than it has, a leaf stays that is no pane |
| `Focus.FindNearest` | crates/emux-mux/src/tab.rs:378-448 | the argmin loop returns the first nearest candidate |
| `Focus.NeighbourUnlessAtEdge` | crates/emux-mux/src/tab.rs:378-448 | with no empty pane there is a neighbour if and only if the pane does not touch that edge |
| `Focus.EmptyPanesBlockFocus` | crates/emux-mux/src/tab.rs:378-448 | an empty pane can leave a pane without one |
| `Tabs.Tab.constructor` | crates/emux-mux/src/tab.rs:89-116 | a new tab has one pane and its invariant |
| `Tabs.Tab.SyncPaneSizes` | crates/emux-mux/src/tab.rs:464-473 | every stored size becomes that of the computed rectangle |
| `Tabs.Tab.Resize` | crates/emux-mux/src/tab.rs:476-480 | a resize syncs every size |
| `Tabs.Tab.ResizePane` | crates/emux-mux/src/tab.rs:484-530 | a pane is resized by its split |
| `Tabs.Tab.CanSplit` | crates/emux-mux/src/tab.rs:180-208 | a split is allowed exactly when both halves can have the minimum |
| `Tabs.Tab.SplitPane` | crates/emux-mux/src/tab.rs:212-263 | the new pane has the next id, follows the active one and takes the focus; a refusal changes nothing |
| `Tabs.Tab.ClosePane` | crates/emux-mux/src/tab.rs:266-295 | closing removes exactly that pane, never the last tiled one; the focus moves on |
| `Tabs.Tab.RegisterSwapLayout` | crates/emux-mux/src/tab.rs:605-626 | the first layout of that name is replaced where it stands, else the new one goes last; no other changes |
| `TabState.TemplateKeepsPanes` | crates/emux-mux/src/tab.rs:713-719 | laying a tab out by any template with distinct unused ids leaves it exactly its panes if and only if there are enough of them, or more than the first half of the template has leaves |
| `TabState.OnePaneTwoLeaves` | crates/emux-mux/src/tab.rs:648-659 | one pane and an applicable template of two leaves: the tab gets a leaf that is no pane |
| `Tabs.Tab.ApplySwapLayoutAt` | crates/emux-mux/src/tab.rs:713-719 | a swap layout loses, doubles and invents no pane |
| `Tabs.Tab.AutoSwapLayout` | crates/emux-mux/src/tab.rs:648-659 | the first applicable layout is in force |
| `Tabs.Tab.NextSwapLayout` | crates/emux-mux/src/tab.rs:662-678 | the next applicable layout, cyclically |
| `Tabs.Tab.PrevSwapLayout` | crates/emux-mux/src/tab.rs:681-703 | the previous one |
| `TabState.NextThenPrevious` | crates/emux-mux/src/tab.rs:662-703 | one step each way is no step |
| `TabState.SwapCycleReturns` | crates/emux-mux/src/tab.rs:662-703 | so on the applicable layouts, next then previous is where it started, and the other way round |
| `TabState.ApplicableIndices` | crates/emux-mux/src/tab.rs:634-645 | exactly the applicable layouts, ascending |
| `Tabs.Tab.FocusPane` | crates/emux-mux/src/tab.rs:298-313 | a pane that exists is focused, a floating one raised |
| `Tabs.Tab.BringFloatingToFront` | crates/emux-mux/src/tab.rs:953-962 | it goes on top, the order of the others stays |
| `Tabs.Tab.SwapFloatingZOrder` | crates/emux-mux/src/tab.rs:1157-1166 | two floating panes that exist and differ change places in the z-order, and nothing else; otherwise nothing changes |
| `Tabs.Tab.SendFloatingToBack` | crates/emux-mux/src/tab.rs:1121-1134 | it goes to the bottom |
| `Tabs.Tab.FocusCycle` | crates/emux-mux/src/tab.rs:316-322 | the panes the focus cycles through |
| `Tabs.Tab.FocusNext` | crates/emux-mux/src/tab.rs:325-349 | focus on the next one in the cycle; a floating one is raised, the order of the others stays |
| `Tabs.Tab.FocusPrev` | crates/emux-mux/src/tab.rs:352-375 | focus on the previous one; a floating one is raised, the order of the others stays |
| `Tabs.Tab.FindNeighborInDirection` | crates/emux-mux/src/tab.rs:378-448 | the neighbour lies beyond the edge, overlaps, and none is nearer |
| `Tabs.Tab.FocusInDirection` | crates/emux-mux/src/tab.rs:451-461 | the focus moves exactly when there is a neighbour |
| `TabState.MovesUnlessAtEdge` | crates/emux-mux/src/tab.rs:378-461 | that is, with no empty pane, unless the pane touches the edge of the tab |
| `Tabs.Tab.MoveActivePane` | crates/emux-mux/src/tab.rs:1013-1028 | the active pane and its neighbour change places, sizes with them |
| `Tabs.Tab.MovePaneById` | crates/emux-mux/src/tab.rs:1031-1039 | the same for any pane |
| `Tabs.Tab.MovePaneBackwards` | crates/emux-mux/src/tab.rs:1042-1055 | a pane changes places with the one before it |
| `Tabs.Tab.SplitLargestPane` | crates/emux-mux/src/tab.rs:979-1010 | the largest pane is split along its long side |
| `Tabs.Tab.ToggleFullscreen` | crates/emux-mux/src/tab.rs:533-544 | full screen for the active pane or none |
| `Tabs.Tab.NewFloatingPaneWithCoords` | crates/emux-mux/src/tab.rs:735-764 | a new floating pane on top, with the next id |
| `Tabs.Tab.ToggleFloatingPanes` | crates/emux-mux/src/tab.rs:767-782 | floating panes shown or hidden, the focus following |
| `Tabs.Tab.CloseFloatingPane` | crates/emux-mux/src/tab.rs:795-811 | exactly that floating pane goes |
| `Tabs.Tab.EmbedFloatingPane` | crates/emux-mux/src/tab.rs:815-827 | a floating pane becomes the last tiled one |
| `Tabs.Tab.FloatPane` | crates/emux-mux/src/tab.rs:830-861 | a tiled pane floats on top; inside the tab exactly when the tab holds the minimal floating size |
| `Tabs.Tab.ResizeFloatingPane` | crates/emux-mux/src/tab.rs:879-893 | only its size changes |
| `Tabs.Tab.MoveFloatingPane` | crates/emux-mux/src/tab.rs:896-905 | only its place changes |
| `Runs.AnyBytesAreSafe` | fuzz/fuzz_targets/fuzz_terminal.rs:6-12 | any bytes fed to a new non-empty screen: shape, limit, cursor rows, margins and tab stops stay in range |
| `Runs.CursorsStayOnScreen` | crates/emux-term/src/screen.rs:390-1077 | without mode 40 the size stays, and both cursors stay on the screen |
| `Runs.PerformingKeepsTight` | crates/emux-term/src/performer.rs:22-54 | the same for every sequence of actions from any screen that has it |
| `Runs.RunWellFormed` | crates/emux-vt/src/parser.rs:206-256 | the parser emits only whole actions |
| `Runs.FeedingInChunks` | crates/emux-vt/src/parser.rs:175-204 | feeding in chunks cut anywhere shows the same screen |
| `Performing.Performed` | crates/emux-term/src/performer.rs:24-53 | every action keeps the screen safe, unless it resets mode 47 or 1047 with the waiting cursor off the screen, and on its size unless mode 40 is switched on |
| `Performing.LandingIsSafe` | crates/emux-term/src/performer.rs:828-835 | a private mode keeps the screen safe if and only if it is not a reset of 47 or 1047 that goes back to a cursor without a row |
| `Runs.SettledStaysSafe` | crates/emux-term/src/performer.rs:24-53 | a safe screen whose other cursor has a row as well stays safe through any actions |
| `Runs.ClampedActionsStaySafe` | crates/emux-term/src/performer.rs:24-53 | any safe screen does through actions that do not reset mode 47 or 1047 |
| `ScreenState.NewScreenTight` | crates/emux-term/src/screen.rs:280-326 | a new screen has the invariant |
| `ScreenState.NextStop` | crates/emux-term/src/screen.rs:588-595 | the next tab stop, or the last column |
| `ScreenState.PreviousStop` | crates/emux-term/src/screen.rs:612-623 | the previous tab stop, or column 0 |
| `ScreenModes.Bounds` | crates/emux-term/src/screen.rs:947-991 | margins that are accepted are at least two apart and inside the size |
| `ScreenModes.ResizeKeepsSafe` | crates/emux-term/src/screen.rs:1112-1177 | a resize keeps the screen safe; the other cursor has a row after it if and only if it is inside the new size |
| `ScreenModes.ResizeKeepsTight` | crates/emux-term/src/screen.rs:1112-1177 | and both cursors on the screen if and only if the other one is inside the new size |
| `ScreenModes.LeavingAfterResize` | crates/emux-term/src/screen.rs:1062-1177 | a resize on the alternate screen, then leaving: safe, with the cursor on a row of the screen, if and only if the cursor is restored or its old row is inside the new size; the same for columns |
| `Confinement.PrintConfined` | crates/emux-term/src/screen.rs:390-527 | printing reaches neither the other screen and its cursor, nor the saved cursor, nor the modes that lead back |
| `Confinement.MoveConfined` | crates/emux-term/src/performer.rs:100-247 | no more do the sequences that move the cursor or set stops |
| `Confinement.EditConfined` | crates/emux-term/src/performer.rs:136-229 | nor those that edit the grid |
| `Confinement.ExtraConfined` | crates/emux-term/src/performer.rs:265-362 | nor those told apart by an intermediate byte, but for DECSTR |
| `Confinement.ControlConfined` | crates/emux-term/src/performer.rs:60-89 | nor the C0 controls |
| `AltScreen.ModesStep` | crates/emux-term/src/performer.rs:712-858 | a list of private modes moves the three modes that matter as the automaton says, and unless it swaps the screens or switches the width leaves the other screen alone and saves the cursor of its last 1048, if it has one |
| `AltScreen.ActionStep` | crates/emux-term/src/performer.rs:24-551 | so for every action: the other screen changes only by a swap, a switch of the width or RIS; the saved cursor besides only by DECSC in one of its forms, which saves what the cursor is there, or DECSTR, which saves none |
| `AltScreen.RunFollows` | crates/emux-term/src/performer.rs:24-551 | over any run the automaton, reading the actions alone, knows the three modes and their saved copy, and what waits on the other screen stays as it was |
| `AltScreen.RunSaves` | crates/emux-term/src/performer.rs:24-551 | what is saved after a run is what its last saving action took from the screen it met, or what was saved before |
| `AltScreen.StayingRuns` | crates/emux-term/src/performer.rs:712-858 | a condition on each action alone under which the flag stays up, whatever the screen |
| `AltVisits.ToggleStep` | crates/emux-term/src/performer.rs:828-851 | modes 47, 1047 and 1049 enter and leave, 1049 with the cursor |
| `AltVisits.VisitToAltScreen` | crates/emux-term/src/screen.rs:1032-1077 | after any run that does not itself swap, reset or switch the width, leaving brings back the main grid with its scrollback exactly if the automaton says the flag is up; else it does nothing, and the main grid is left behind |
| `AltVisits.LastSaveWins` | crates/emux-term/src/screen.rs:906-943 | in mode 1049 cursor, pen, character sets, origin mode and pending wrap are then those last saved in the visit or on entering it, the position clamped; a home cursor and the default pen if none are |
| `AltVisits.CursorComesBack` | crates/emux-term/src/screen.rs:906-943 | cursor and pen come back if and only if what was last saved agrees with them |
| `AltVisits.NothingSavedComesBack` | crates/emux-term/src/screen.rs:906-943 | which it does after a visit that saves nothing |
| `AltVisits.SavedCursorIsLost` | crates/emux-term/src/screen.rs:1382-1391 | XTSAVE, DECSTR and XTRESTORE on the alternate screen leave the flag up and nothing saved |
| `AltVisits.ResetsTakeLinkDown` | crates/emux-term/src/screen.rs:1222-1223 | DECSTR, and XTRESTORE of modes saved on the main screen, take the flag down |
| `AltVisits.StrandedIsWiped` | crates/emux-term/src/screen.rs:1032-1055 | and then the next visit begins with the main grid, wiped |
| `Sessions.SessionsAreSafe` | crates/emux-term/src/screen.rs:1062-1177 | a session of input and resizes is safe between all events, actions and modes if and only if each reset of mode 47 or 1047 with the flag up finds the waiting cursor on a row of the size at that time |
| `Sessions.ClampedSessionsAreSafe` | crates/emux-term/src/screen.rs:1062-1177 | which is so for every session on a new screen whose input never resets mode 47 or 1047, through every resize |
| `Sessions.HigherSessionsAreSafe` | crates/emux-term/src/screen.rs:1112-1177 | and for every session whose height never shrinks |
| `ScreenModes.WidthSwitched` | crates/emux-term/src/performer.rs:738-755 | mode 3 does nothing unless mode 40 allowed it |
| `ScreenLaws.SavedIsRestored` | crates/emux-term/src/screen.rs:906-943 | DECRC brings back what DECSC saved |
| `ScreenLaws.PositionsReached` | crates/emux-term/src/screen.rs:671-686 | the cells a position can reach: all of the screen, or exactly those inside the margins in origin mode |
| `ScreenLaws.MovesStayInRegion` | crates/emux-term/src/screen.rs:630-653 | vertical moves stay in the region, and are exact when there is room |
| `ScreenLaws.RegionsThatCanBeSet` | crates/emux-term/src/screen.rs:947-960 | exactly the regions of two rows or more |
| `ScreenLaws.SelectiveErasesSpare` | crates/emux-term/src/screen.rs:693-817 | selective erases change no protected cell and no flag; the ordinary one blanks everything |
| `Screens.Screen.constructor` | crates/emux-term/src/screen.rs:280-326 | two blank grids, home cursor, default modes, margins as wide as the screen, a stop every eight columns |
| `Screens.Screen.RecordDamage` | crates/emux-term/src/screen.rs:1560-1599 | one region is appended as the mode has it, none for a row off the screen |
| `Screens.Screen.RecordScrollDamage` | crates/emux-term/src/screen.rs:1602-1611 | one whole-row region for each row of the span, in order |
| `Screens.Screen.RecordFullDamage` | crates/emux-term/src/screen.rs:1614-1624 | one whole-row region for every row |
| `Screens.Screen.CarriageReturn` | crates/emux-term/src/screen.rs:559-566 | the column becomes the left margin if the cursor was right of it, else 0; a pending wrap is forgotten |
| `Screens.Screen.Backspace` | crates/emux-term/src/screen.rs:571-580 | one column left, or at column 0 up to the last column with reverse wrap and autowrap on, else nothing |
| `Screens.Screen.CursorUp` | crates/emux-term/src/screen.rs:630-639 | up by the count, not past the top of the region from inside it, nor past row 0 |
| `Screens.Screen.CursorDown` | crates/emux-term/src/screen.rs:644-653 | down by the count, not past the bottom of the region from inside it, nor past the last row |
| `Screens.Screen.CursorLeft` | crates/emux-term/src/screen.rs:656-659 | left by the count, not past column 0 |
| `Screens.Screen.CursorRight` | crates/emux-term/src/screen.rs:662-666 | right by the count, not past the last column |
| `Screens.Screen.CursorPosition` | crates/emux-term/src/screen.rs:671-686 | the 1-based position clamped to the screen, or in origin mode to the margins |
| `Screens.Screen.Tab` | crates/emux-term/src/screen.rs:583-596 | the scan stops at the first stop after the cursor, or at the last column |
| `Screens.Screen.TabForward` | crates/emux-term/src/screen.rs:599-603 | as many such steps as asked for |
| `Screens.Screen.TabBackward` | crates/emux-term/src/screen.rs:606-625 | as many scans to the last stop before the cursor, or column 0 |
| `Screens.Screen.Linefeed` | crates/emux-term/src/screen.rs:530-555 | one row down, or at the end of the region one scroll, of the margins alone when the cursor is inside them; column 0 in newline mode |
| `Screens.Screen.ReverseIndex` | crates/emux-term/src/screen.rs:1185-1203 | one row up, or at the start of the region one scroll down |
| `Screens.Screen.ScrollUp` | crates/emux-term/src/screen.rs:820-834 | the region, or the margins when there are any, moves up; every row of the region is recorded |
| `Screens.Screen.ScrollDown` | crates/emux-term/src/screen.rs:837-851 | the same downwards |
| `Screens.Screen.InsertLines` | crates/emux-term/src/screen.rs:854-862 | blank lines open at a cursor inside the region, which goes to column 0 |
| `Screens.Screen.DeleteLines` | crates/emux-term/src/screen.rs:865-873 | lines close up at a cursor inside the region, which goes to column 0 |
| `Screens.Screen.InsertChars` | crates/emux-term/src/screen.rs:876-883 | cells move right from the cursor to the right edge, which is recorded |
| `Screens.Screen.DeleteChars` | crates/emux-term/src/screen.rs:886-893 | cells move left to the cursor, which is recorded |
| `Screens.Screen.EraseChars` | crates/emux-term/src/screen.rs:896-903 | as many cells from the cursor on are blank, which is recorded |
| `Screens.Screen.EraseDisplay` | crates/emux-term/src/screen.rs:699-741 | the four spans of ED, each row recorded; DECSED spares protected cells; cell by cell in `Erasing` |
| `Screens.Screen.EraseLine` | crates/emux-term/src/screen.rs:754-777 | the three spans of EL; DECSEL spares protected cells; cell by cell in `Erasing` |
| `Screens.Screen.WriteChar` | crates/emux-term/src/screen.rs:390-527 | the stages below in this order, exactly as the function of which wrapping, width and damage are proved |
| `Screens.Screen.TakePendingWrap` | crates/emux-term/src/screen.rs:411-424 | a pending wrap goes on to the next row, flagged as its continuation, or is forgotten without autowrap |
| `Screens.Screen.MakeRoom` | crates/emux-term/src/screen.rs:427-446 | a wide character without room pads the cell and wraps, or steps back without autowrap |
| `Screens.Screen.ClearFragments` | crates/emux-term/src/screen.rs:459-484 | the other halves of the characters about to be overwritten become spaces |
| `Screens.Screen.WriteGlyph` | crates/emux-term/src/screen.rs:490-509 | the cell at the cursor and the tail of a wide one, recorded |
| `Screens.Screen.Advance` | crates/emux-term/src/screen.rs:515-526 | the cursor goes right by the width, or stays at the edge with a wrap pending |
| `Screens.Screen.Align` | crates/emux-term/src/screen.rs:1242-1266 | the loops stamp every cell, keep hyperlinks, and reset the region and the cursor |
| `Screens.Screen.FillRect` | crates/emux-term/src/screen.rs:1396-1413 | the loops stamp exactly the clamped rectangle in the pen |
| `Screens.Screen.SelectiveEraseRect` | crates/emux-term/src/screen.rs:1467-1482 | the loops blank exactly the unprotected cells of the clamped rectangle |
| `Screens.Screen.CopyRect` | crates/emux-term/src/screen.rs:1417-1463 | the buffered copy gives the target the old source cells even where they overlap; what does not fit is lost |
| `Screens.Screen.SaveCursor` | crates/emux-term/src/screen.rs:906-919 | position, pen, character sets, origin mode and pending wrap are saved |
| `Screens.Screen.RestoreCursor` | crates/emux-term/src/screen.rs:922-943 | they come back with the position clamped, or a home cursor and default pen if none were saved |
| `Screens.Screen.SetScrollRegion` | crates/emux-term/src/screen.rs:947-971 | the region if it has two rows or more, and then the cursor goes home |
| `Screens.Screen.SetLeftRightMargin` | crates/emux-term/src/screen.rs:975-1002 | the margins if the mode is on and they are two apart or more, and then the cursor goes home |
| `Screens.Screen.EnterAltScreen` | crates/emux-term/src/screen.rs:1032-1055 | the two grid objects change places, the alternate one cleared, with its own home cursor; nothing if it shows already |
| `Screens.Screen.LeaveAltScreen` | crates/emux-term/src/screen.rs:1062-1077 | the two grid objects change places back, also when the other cursor is off the screen; nothing if the main one shows |
| `Screens.Screen.SoftReset` | crates/emux-term/src/screen.rs:1222-1238 | modes, pen, character sets, saved cursor, margins and looks reset; grids, positions and tab stops stay |
| `Screens.Screen.Reset` | crates/emux-term/src/screen.rs:1080-1084 | the state of a new screen of this size |
| `Screens.Screen.Resize` | crates/emux-term/src/screen.rs:1112-1177 | both grids resized, the cursor moved with its line and clamped, margins, saved cursor and stops fitted; the other cursor left as it is; where the cursor is afterwards is in `Resizing` |
| `Performer.HandleSgr` | crates/emux-term/src/performer.rs:370-443 | the loop over SGR parameters folds them as the function that reads settings back does |
| `Performer.ParseExtendedColor` | crates/emux-term/src/performer.rs:446-483 | an indexed or direct colour and the index of the parameter after it, also for short lists |
| `Performer.SetModes` | crates/emux-term/src/performer.rs:712-720 | the loop carries out one mode after the other |
| `Performer.SetPrivateMode` | crates/emux-term/src/performer.rs:732-858 | a DEC private mode does what its arm says, and an unknown one nothing |
| `Performer.SetAnsiMode` | crates/emux-term/src/performer.rs:723-729 | insert and newline mode, and nothing else |
| `Performer.SwitchWidth` | crates/emux-term/src/performer.rs:738-755 | 132 or 80 columns on an erased screen with the region reset, if mode 40 allows it |
| `Performer.ExecuteC0` | crates/emux-term/src/performer.rs:60-89 | a C0 control moves the cursor or switches the character set, and the others do nothing |
| `Performer.HandleCsi` | crates/emux-term/src/performer.rs:94-365 | every control sequence reaches the arm of its final byte |
| `Performer.HandleMove` | crates/emux-term/src/performer.rs:100-247 | each sequence that moves the cursor or sets stops, with its default parameters; where to is in `CursorEffects` |
| `Performer.HandleEdit` | crates/emux-term/src/performer.rs:136-229 | each sequence that edits the grid, selectively when it is private, with REP |
| `Performer.HandleExtra` | crates/emux-term/src/performer.rs:265-362 | each sequence told apart by an intermediate byte |
| `Performer.HandleState` | crates/emux-term/src/performer.rs:253-310 | margins, XTSAVE and XTRESTORE, and the saved cursor, by mode and privacy |
| `Performer.HandleEsc` | crates/emux-term/src/performer.rs:498-551 | each escape sequence, and the character set designations |
| `Performer.HandleOsc` | crates/emux-term/src/performer.rs:556-612 | a hyperlink begins or ends |
| `Performer.Perform` | crates/emux-term/src/performer.rs:24-53 | every action of the parser reaches its handler: the screen becomes that of `Performing.Performed` |
| `Performer.Feed` | fuzz/fuzz_targets/fuzz_terminal.rs:6-12 | bytes through the parser into the screen: the run of the parser and the actions on the screen, still valid |
| `SgrRoundTrip.SettingsRoundTrip` | crates/emux-term/src/performer.rs:370-483 | any list of settings written as parameters is read back one after the other |
| `SgrRoundTrip.SgrFromBytes` | crates/emux-term/src/performer.rs:370-443 | from bytes: the pen is what the first 32 numbers of the sequence make of it |
| `SgrRoundTrip.SettingsFromBytes` | crates/emux-term/src/performer.rs:370-483 | settings written as bytes are all read as far as they fill 32 parameters, and those after are lost |
| `SgrRoundTrip.EveryPenCanBeSet` | crates/emux-term/src/performer.rs:370-493 | every pen can be set from every other; only protection stays |
| `TextOutput.TextBecomesRows` | crates/emux-term/src/screen.rs:390-527 | the UTF-8 of one-column text becomes exactly its rows through wraps and scrolls, and one logical line if and only if it needs at most two rows |
| `TextOutput.TextOnNewScreen` | crates/emux-term/src/screen.rs:390-527 | on a new screen the whole history is then the rows of the text in default cells, and blank rows |
| `TextOutput.LaidIsWrapped` | crates/emux-term/src/screen.rs:411-419 | the rows of a text are those of one line if and only if there are at most two |
| `TextOutput.CharShown` | crates/emux-term/src/screen.rs:390-527 | one more character: in its place, or on a new row that continues a row that lost its flag |
| `TextOutput.WrapTaken` | crates/emux-term/src/screen.rs:411-423 | a wrap, scrolling or not, in terms of the whole history |
| `WideCells.WideCharactersStayWhole` | crates/emux-term/src/screen.rs:427-509 | printing keeps every wide character whole if and only if it does not pad over a tail in a row that stays |
| `WideCells.PrintingKeepsPairs` | crates/emux-term/src/screen.rs:455-509 | it does whenever it does not pad over a tail |
| `WideCells.PaddingOverATail` | crates/emux-term/src/screen.rs:427-439 | padding over a tail keeps them whole exactly when the row leaves or is too narrow |
| `WideCells.WritingKeepsPairs` | crates/emux-term/src/screen.rs:459-509 | a glyph written in a row keeps its pairs |
| `WideCells.WrittenAt` | crates/emux-term/src/screen.rs:459-509 | what each cell of the row becomes |
| `WideCells.ClearingRegionKeepsPairs` | crates/emux-term/src/grid.rs:287-303 | clearing a region keeps all pairs |
| `WideCells.ErasingCharsKeepsPairs` | crates/emux-term/src/grid.rs:604-620 | so does erasing at least one character |
| `WideCells.ScrollingKeepsPairs` | crates/emux-term/src/grid.rs:229-256 | so does scrolling |
| `DamageMerging.MergeDamage` | crates/emux-term/src/screen.rs:1650-1667 | the merging pass over the sorted regions |
| `DamageMerging.MergingKeepsCells` | crates/emux-term/src/screen.rs:1650-1667 | merging keeps the exact set of covered cells, for all regions |
| `DamageMerging.MergingSeparates` | crates/emux-term/src/screen.rs:1650-1667 | its output is in order and strictly separated in each row |
| `DamageMerging.Sorted` | crates/emux-term/src/screen.rs:1654-1654 | sorting keeps the multiset of regions |
| `DamageMerging.SortedInOrder` | crates/emux-term/src/screen.rs:1654-1654 | and puts them in order |
| `DamageMerging.TakeDamage` | crates/emux-term/src/screen.rs:1628-1647 | the list is taken, by mode, and emptied |
| `DamageMerging.TakingCovers` | crates/emux-term/src/screen.rs:1628-1647 | what is taken covers every recorded cell, and outside screen mode no other |
| `DamageSoundness.PrintingIsReported` | crates/emux-term/src/screen.rs:390-527 | in row mode printing reports every row it changes if and only if it does not pad a cell that is not a plain space, on a row that neither scrolls nor is written on, wherever a pending wrap goes first |
| `DamageSoundness.ScrollUpSound` | crates/emux-term/src/screen.rs:820-834 | a scroll up reports every changed row |
| `DamageSoundness.ScrollDownSound` | crates/emux-term/src/screen.rs:837-851 | a scroll down |
| `DamageSoundness.LineFeedSound` | crates/emux-term/src/screen.rs:530-555 | a line feed |
| `DamageSoundness.InsertCharsSound` | crates/emux-term/src/screen.rs:876-883 | inserted characters |
| `DamageSoundness.DeleteCharsSound` | crates/emux-term/src/screen.rs:886-893 | deleted characters |
| `DamageSoundness.EraseCharsSound` | crates/emux-term/src/screen.rs:896-903 | erased characters |
| `DamageSoundness.EraseLineSound` | crates/emux-term/src/screen.rs:754-777 | an erased line, selectively or not |
| `DamageSoundness.EraseDisplaySound` | crates/emux-term/src/screen.rs:699-741 | an erased display, selectively or not |
| `CellDamage.ScrollsAreReported` | crates/emux-term/src/screen.rs:820-851 | scrolls and line feeds report every changed cell in every mode |
| `CellDamage.InsertCharsReported` | crates/emux-term/src/screen.rs:876-883 | in cell mode inserted characters report every changed cell |
| `CellDamage.DeleteCharsReported` | crates/emux-term/src/screen.rs:886-893 | so do deleted ones |
| `CellDamage.EraseCharsReported` | crates/emux-term/src/screen.rs:896-903 | erased ones if and only if they cut no wide character at either end, or its other half is blank |
| `CellDamage.EraseToRightReported` | crates/emux-term/src/screen.rs:754-777 | EL to the right if and only if it does not begin with a tail whose head is not blank |
| `CellDamage.EraseToLeftReported` | crates/emux-term/src/screen.rs:754-777 | EL to the left if and only if it does not end with a head whose tail is not blank |
| `CellDamage.PlacingIsReported` | crates/emux-term/src/screen.rs:449-526 | a character that needs neither a wrap nor room if and only if it spaces no half outside its columns, and in insert mode if and only if the shifted part of the row repeats itself |
| `SilentEdits.NothingRecorded` | crates/emux-term/src/screen.rs:854-873 | IL, DL, RI, DECALN, DECFRA, DECSERA and DECCRA record no damage |
| `SilentEdits.InsertLinesReported` | crates/emux-term/src/screen.rs:854-862 | IL leaves no changed row unreported if and only if the count is 0, the cursor is outside the region, or the rows from the cursor to its end are blank |
| `SilentEdits.DeleteLinesReported` | crates/emux-term/src/screen.rs:865-873 | the same for DL |
| `SilentEdits.ReverseIndexReported` | crates/emux-term/src/screen.rs:1185-1203 | RI: if and only if the cursor is not on the first row of the region, or the scrolled cells are blank |
| `SilentEdits.AlignReported` | crates/emux-term/src/screen.rs:1242-1266 | DECALN: if and only if the pattern is there already |
| `SilentEdits.FillReported` | crates/emux-term/src/screen.rs:1396-1413 | DECFRA: if and only if every cell of the rectangle shows the character in the pen already |
| `SilentEdits.SelectiveEraseReported` | crates/emux-term/src/screen.rs:1467-1482 | DECSERA: if and only if every cell of the rectangle is protected or blank |
| `SilentEdits.CopyReported` | crates/emux-term/src/screen.rs:1417-1463 | DECCRA: if and only if what is copied is at its target already, as far as it fits |
| `SilentEdits.ResetReported` | crates/emux-term/src/screen.rs:1080-1084 | RIS: if and only if the screen is blank and nothing was recorded before |
| `Sequences.CsiParsed` | crates/emux-vt/src/parser.rs:383-447 | numbers written in decimal are one dispatch with the first 32 of them |
| `Sequences.PrivateParsed` | crates/emux-vt/src/parser.rs:383-447 | so are those of a private sequence |
| `Witnesses.WideCharacterCut` | crates/emux-term/src/screen.rs:427-439 | bytes on a new screen of three columns: a letter, a wide character, CUP 1;3 and another wide character cut the first in half, and in row mode its row is not reported |
| `Witnesses.HalfUnreported` | crates/emux-term/src/screen.rs:459-484 | bytes: a wide character, CUP 1;1 and a letter; in cell mode the tail made a space is not reported |
| `Witnesses.InsertedLineUnreported` | crates/emux-term/src/screen.rs:854-862 | bytes: a letter on a new screen, then IL: not reported |
| `Witnesses.CursorLeftBehind` | crates/emux-term/src/screen.rs:1112-1177 | 80 by 24, the bytes of CUP 24;1 and mode 47, a resize to ten rows, and back: the cursor is on row 23 of ten |
| `Witnesses.ShrinkingVisitIsUnsafe` | crates/emux-term/src/screen.rs:1062-1177 | so that session is not safe throughout |
| `Witnesses.CursorTakenAlong` | crates/emux-term/src/screen.rs:906-943 | bytes: mode 1049, CUP 5;5, DECSC and mode 1049 reset leave the cursor of a new screen on row 4, column 4 |
| `Witnesses.LetterWiped` | crates/emux-term/src/screen.rs:1222-1223 | bytes: a letter, mode 1049, DECSTR, mode 1049 reset and set again: the letter is on neither screen |
| `LayoutShares.ShareIsNearest` | crates/emux-mux/src/layout.rs:138-140 | a share is the whole number nearest to total times ratio, but 1 or all but 1 beyond those |
| `LayoutShares.ShareGrowsWithRatio` | crates/emux-mux/src/layout.rs:138-140 | it grows with the ratio |
| `LayoutShares.SharesGrow` | crates/emux-mux/src/layout.rs:138-140 | and both shares grow with the total |
| `LayoutShares.SidesOfSplit` | crates/emux-mux/src/layout.rs:132-153 | a vertical split divides the columns and leaves rows alone, a horizontal one the reverse |
| `LayoutShares.RoomGrows` | crates/emux-mux/src/layout.rs:111-153 | in a larger area no rectangle is smaller |
| `LayoutShares.GrowingNeverShrinks` | crates/emux-mux/src/layout.rs:157-193 | adjusting a pane by a delta that is not negative never shrinks its rectangle, with ratios between 0.1 and 0.9 |
| `LayoutShares.GrowingCanShrink` | crates/emux-mux/src/layout.rs:173-181 | with a ratio of 0.95 it does |
| `LayoutShares.EditsKeepBounds` | crates/emux-mux/src/layout.rs:57-76 | splits and adjustments keep the ratios between 0.1 and 0.9 |
| `LayoutShares.QuarterMore` | crates/emux-mux/src/tab.rs:484-530 | of 100 columns a pane of ratio 0.5 grown by a quarter gets 75 |
| `TabLaws.RoomIsForBoth` | crates/emux-mux/src/tab.rs:180-209 | there is room to split exactly when both halves would have the least size |
| `TabLaws.SplitsLongerSide` | crates/emux-mux/src/tab.rs:979-1010 | the largest pane is split along its longer side |
| `TabLaws.NearnessIsADistance` | crates/emux-mux/src/tab.rs:378-448 | the distance behind directional focus is symmetric, zero to itself, keeps the triangle inequality, and counts steps between centres twice |
| `TabLaws.LeavesItsPlace` | crates/emux-mux/src/tab.rs:953-962 | raised, lowered or closed, a floating pane leaves its place and the others keep their order |
| `TabLaws.TemplateRects` | crates/emux-mux/src/layout.rs:378-405 | with as many panes as leaves the rectangles are those of the template, whatever its names |
| `TabLaws.TemplateRectsExtended` | crates/emux-mux/src/layout.rs:378-405 | with more, all but the last are |
| `Resizing.CursorStaysWhenHigher` | crates/emux-term/src/screen.rs:1117-1125 | a higher screen: the cursor stays on its row, down by as many as come back from the scrollback |
| `Resizing.CursorStaysWhenLower` | crates/emux-term/src/screen.rs:1117-1125 | a lower one: on its row, up by as many as went there, unless its row did or was dropped |
| `Resizing.CursorStaysWithItsCell` | crates/emux-term/src/screen.rs:1117-1125 | another width: on the row of the same logical line that keeps its cell, or on the top row if that is above the screen |
| `Resizing.RestOfResize` | crates/emux-term/src/screen.rs:1127-1177 | the region, the stops, the saved cursor and the other screen |
| `Resizing.FourRowsUp` | crates/emux-term/src/screen.rs:1117-1125 | 24 rows to 20 with text on the last: a cursor on row 20 is on row 16 |
| `ParserControls.StreamActs` | crates/emux-vt/src/parser.rs:259-311 | printable characters and controls in any order are one Print or Execute each, in order, and the parser is in the ground state |
| `ParserControls.ControlInPassing` | crates/emux-vt/src/parser.rs:314-486 | inside a sequence a control is executed and the state kept |
| `ParserControls.ControlsInCsi` | crates/emux-vt/src/parser.rs:383-486 | so a control sequence with controls in it is the controls, and then the sequence without them |
| `ParserControls.ControlsInEsc` | crates/emux-vt/src/parser.rs:314-380 | the same for an escape sequence |
| `ParserControls.CancelAborts` | crates/emux-vt/src/parser.rs:222-229 | CAN and SUB abort anything but a character, and are executed |
| `ParserControls.WholeCsi` | crates/emux-vt/src/parser.rs:383-474 | a marker, parameters, intermediates and a final byte are one dispatch with all of them, the first four of marker and intermediates |
| `ParserControls.MalformedCsi` | crates/emux-vt/src/parser.rs:428-486 | out of order they are skipped to the final byte |
| `ParserControls.WholeEsc` | crates/emux-vt/src/parser.rs:314-380 | an escape sequence is one dispatch |
| `ParserControls.OneByteIntroducers` | crates/emux-vt/src/parser.rs:268-288 | the one-byte introducers begin what ESC and a letter do |
| `ParserControls.StringsAreSkipped` | crates/emux-vt/src/parser.rs:598-608 | SOS, PM and APC are skipped to ST |
| `ParserControls.DcsData` | crates/emux-vt/src/parser.rs:583-595 | the data of a DCS comes out byte by byte and is unhooked at ST |
| `ParserControls.StrayInSequence` | crates/emux-vt/src/parser.rs:352-355 | DEL is passed over in a sequence, and a byte above it ends the sequence |
| `ParserControls.StrayInDcs` | crates/emux-vt/src/parser.rs:512-595 | what spoils a DCS, and what it passes over |
| `ParserControls.LeadTakesAll` | crates/emux-vt/src/parser.rs:206-220 | a lead byte takes as many bytes as it asks for; they print their one character or nothing |
| `TextLines.LinesBecomeRows` | crates/emux-term/src/screen.rs:390-566 | lines of one-column text with CR LF between them: the history ends in the rows of each line, one after the other |
| `Erasing.EraseBelow` | crates/emux-term/src/screen.rs:703-718 | ED below, cell by cell: the cursor row from the cursor on and every row below it, protected cells spared if selective, cut halves blanked if not; nothing else |
| `Erasing.EraseAbove` | crates/emux-term/src/screen.rs:719-732 | ED above |
| `Erasing.EraseAll` | crates/emux-term/src/screen.rs:733-738 | ED of the screen |
| `Erasing.EraseScrollback` | crates/emux-term/src/screen.rs:739-739 | ED of the scrollback |
| `Erasing.EraseToRight` | crates/emux-term/src/screen.rs:758-767 | EL to the right |
| `Erasing.EraseToLeft` | crates/emux-term/src/screen.rs:768-771 | EL to the left |
| `Erasing.EraseWholeLine` | crates/emux-term/src/screen.rs:772-775 | EL of the line |
| `Received.CsiReceived` | crates/emux-term/src/performer.rs:94-365 | a control sequence of any marker, numbers and intermediates reaches the operation of its final byte with its numbers, absent and zero the default |
| `Received.EscReceived` | crates/emux-term/src/performer.rs:498-551 | an escape sequence reaches its operation |
| `CursorEffects.Up` | crates/emux-term/src/performer.rs:100-103 | CUU by n: n rows up if there are as many in the region, else its first row; nothing else |
| `CursorEffects.Down` | crates/emux-term/src/performer.rs:104-107 | CUD and VPR: n rows down |
| `CursorEffects.Right` | crates/emux-term/src/performer.rs:108-111 | CUF and HPR: n columns right, not off the row |
| `CursorEffects.Left` | crates/emux-term/src/performer.rs:112-115 | CUB: n columns left |
| `CursorEffects.NextLine` | crates/emux-term/src/performer.rs:116-120 | CNL: n rows down, to the start of the line |
| `CursorEffects.PreviousLine` | crates/emux-term/src/performer.rs:121-125 | CPL: n rows up, to the start of the line |
| `CursorEffects.Position` | crates/emux-term/src/performer.rs:130-135 | CUP and HVP: the row and column asked for, from 1, or the last; from the margins in origin mode |
| `CursorEffects.ToColumn` | crates/emux-term/src/performer.rs:126-129 | CHA and HPA: the column asked for, and which row |
| `CursorEffects.ToRow` | crates/emux-term/src/performer.rs:231-234 | VPA: the row asked for, and which column |
| `CursorEffects.CountedAgain` | crates/emux-term/src/performer.rs:126-129 | when a place stays that is counted again: always without origin mode, else only at the margin that is an edge, or the last |
| `CursorEffects.ForwardTabs` | crates/emux-term/src/performer.rs:202-205 | CHT: the n-th stop after the cursor, or the last column if there are fewer |
| `CursorEffects.BackwardTabs` | crates/emux-term/src/performer.rs:206-209 | CBT: the n-th stop before it, or the first column |
| `CursorEffects.ClearsStops` | crates/emux-term/src/performer.rs:239-247 | TBC: the stop at the cursor, or all |
| `CursorEffects.SetsStop` | crates/emux-term/src/performer.rs:509-512 | HTS: the stop at the cursor |
| `CursorEffects.Returns` | crates/emux-term/src/performer.rs:75-78 | CR: the start of the line |
| `CursorEffects.StepsBack` | crates/emux-term/src/performer.rs:63-66 | BS: one column back, or with both wraps on the end of the row above |
| `CursorEffects.Tabs` | crates/emux-term/src/performer.rs:67-70 | HT: the next stop |
| `CursorEffects.Shifts` | crates/emux-term/src/performer.rs:79-88 | SO and SI choose the character set, other controls do nothing |
| `EditEffects.ErasesDisplay` | crates/emux-term/src/performer.rs:136-157 | ED and DECSED: what each parameter erases, and nothing for another |
| `EditEffects.ErasesLine` | crates/emux-term/src/performer.rs:158-177 | EL and DECSEL |
| `EditEffects.InsertsLines` | crates/emux-term/src/performer.rs:178-181 | IL: the lines from the cursor to the end of the region go down by n, blank lines open |
| `EditEffects.DeletesLines` | crates/emux-term/src/performer.rs:182-185 | DL: they come up, nothing goes to the scrollback |
| `EditEffects.ScrollsUp` | crates/emux-term/src/performer.rs:190-193 | SU: the region, or its columns between the margins, n up; only rows that leave the top of the screen go to the scrollback |
| `EditEffects.ScrollsDown` | crates/emux-term/src/performer.rs:194-197 | SD: n down |
| `EditEffects.FeedsLine` | crates/emux-term/src/performer.rs:71-74 | LF, VT and FF: one row down, at the end of the region the region up instead; column 0 in newline mode |
| `EditEffects.Indexes` | crates/emux-term/src/performer.rs:500-503 | IND is LF |
| `EditEffects.NextLines` | crates/emux-term/src/performer.rs:504-508 | NEL: the start of the line, then LF |
| `EditEffects.IndexesBack` | crates/emux-term/src/performer.rs:513-516 | RI: one row up, at the top of the region the region down instead |
| `EditEffects.InsertsCells` | crates/emux-term/src/performer.rs:210-213 | ICH: the cells from the cursor to the right margin go right by n |
| `EditEffects.DeletesCells` | crates/emux-term/src/performer.rs:186-189 | DCH: they come left |
| `EditEffects.ErasesCells` | crates/emux-term/src/performer.rs:198-201 | ECH: n cells from the cursor on are blank in place |
| `EditEffects.Repeats` | crates/emux-term/src/performer.rs:222-230 | REP: the last character as if it had come n times more, none before any |
| `PrintEffects.PrintsInPlace` | crates/emux-term/src/screen.rs:449-526 | with room: the cell and the tail of a wide character in the pen, the halves of cut ones spaced, the cursor on or waiting at the edge; nothing else |
| `PrintEffects.PrintsAfterWrap` | crates/emux-term/src/screen.rs:411-424 | with a wrap pending: the row left loses its flag, the next is a continuation, and the character is printed as there |
| `PrintEffects.PrintsWideAtEdge` | crates/emux-term/src/screen.rs:427-446 | a wide character without room: the cell spaced and the line wrapped, or two columns back without autowrap, and printed as there |
| `PrintEffects.PrintsInserting` | crates/emux-term/src/screen.rs:449-452 | insert mode: the cells go right by its width first |
| `PrintEffects.PrintsNothing` | crates/emux-term/src/screen.rs:395-404 | a character of no width only becomes the one REP repeats |
| `PrintEffects.ShownIsMapped` | crates/emux-vt/src/charsets.rs:18-42 | the line drawing set as a table; the others change nothing |
| `PrintEffects.Widths` | crates/emux-term/src/unicode.rs:3-63 | how wide the characters of the common scripts are |
| `StateEffects.SetsRegion` | crates/emux-term/src/performer.rs:286-296 | DECSTBM: the region asked for if it has two lines, else the old one, and the cursor home |
| `StateEffects.SetsMargins` | crates/emux-term/src/performer.rs:301-305 | DECSLRM: the same for columns |
| `StateEffects.SavesCursor` | crates/emux-term/src/performer.rs:306-310 | CSI s and ESC 7: place, pen, character sets, origin mode and pending wrap put aside |
| `StateEffects.RestoresCursor` | crates/emux-term/src/performer.rs:253-256 | CSI u and ESC 8: taken back as far as the screen goes, or home with a default pen |
| `StateEffects.SavesModes` | crates/emux-term/src/performer.rs:298-300 | XTSAVE |
| `StateEffects.RestoresModes` | crates/emux-term/src/performer.rs:287-289 | XTRESTORE, once |
| `StateEffects.ResetsSoftly` | crates/emux-term/src/performer.rs:265-270 | DECSTR: what is then as on a new screen, and what stays |
| `StateEffects.ResetsFully` | crates/emux-term/src/performer.rs:533-536 | RIS: a new screen of the size |
| `StateEffects.NewScreenIs` | crates/emux-term/src/screen.rs:280-326 | what a new screen is |
| `StateEffects.ChoosesKeypad` | crates/emux-term/src/performer.rs:525-532 | DECKPAM and DECKPNM |
| `StateEffects.ChoosesCharset` | crates/emux-term/src/performer.rs:537-544 | the sets ESC ( and ESC ) choose |
| `StateEffects.FillsRect` | crates/emux-term/src/performer.rs:311-327 | DECFRA: every cell of the rectangle shows the character in the pen, hyperlinks stay; nothing else |
| `StateEffects.WipesRect` | crates/emux-term/src/performer.rs:343-352 | DECSERA: every unprotected cell of it is blank |
| `StateEffects.CopiesRect` | crates/emux-term/src/performer.rs:328-342 | DECCRA: its cells, as they were, at the place asked for, as far as the screen goes |
| `StateEffects.Aligns` | crates/emux-term/src/performer.rs:545-548 | DECALN: E in every cell, the region whole, the cursor home |
| `StateEffects.StylesCursor` | crates/emux-term/src/performer.rs:271-275 | DECSCUSR |
| `StateEffects.Protects` | crates/emux-term/src/performer.rs:276-284 | DECSCA |
| `StateEffects.PushesPen` | crates/emux-term/src/performer.rs:353-356 | XTPUSHSGR |
| `StateEffects.PopsPen` | crates/emux-term/src/performer.rs:357-362 | XTPOPSGR: the pen pushed last, but for its protection |
| `StateEffects.OtherSequences` | crates/emux-term/src/performer.rs:363-363 | other final bytes do nothing |
| `StateEffects.OtherEscapes` | crates/emux-term/src/performer.rs:549-549 | nor do other escape sequences |
| `ModeEffects.ModesInTurn` | crates/emux-term/src/performer.rs:712-720 | a list of modes is what its parts make, one after the other |
| `ModeEffects.SetsKeyFlag` | crates/emux-term/src/performer.rs:735-782 | modes 1, 7, 40 and 45 are each their own flag |
| `ModeEffects.SetsReportFlag` | crates/emux-term/src/performer.rs:820-855 | so are 1004, 1006 and 2004 |
| `ModeEffects.SetsMouseMode` | crates/emux-term/src/performer.rs:766-819 | a mode of the mouse takes the place of the others, and resetting any resets whichever is set |
| `ModeEffects.SetsAnsiMode` | crates/emux-term/src/performer.rs:723-729 | IRM and LNM |
| `ModeEffects.SetsOrigin` | crates/emux-term/src/performer.rs:756-761 | DECOM: positions count from the margins, and the cursor goes to the first |
| `ModeEffects.ShowsCursor` | crates/emux-term/src/performer.rs:792-795 | DECTCEM |
| `ModeEffects.SetsMarginMode` | crates/emux-term/src/performer.rs:783-791 | DECLRMM: resetting it resets the margins |
| `ModeEffects.SavesByMode` | crates/emux-term/src/performer.rs:836-843 | mode 1048 is DECSC and DECRC |
| `ModeEffects.EntersAlt` | crates/emux-term/src/performer.rs:828-851 | modes 47, 1047 and 1049: a blank screen with the cursor home, the main grid and its cursor waiting; 1049 saves the cursor |
| `ModeEffects.LeavesAlt` | crates/emux-term/src/performer.rs:828-851 | reset: the main grid and its cursor back, after 1049 the saved state instead |
| `ModeEffects.SwitchesWidth` | crates/emux-term/src/performer.rs:738-755 | DECCOLM: 132 or 80 blank columns, the cursor home, the region whole, if mode 40 lets it |
| `ModeEffects.SwitchesEffect` | crates/emux-term/src/performer.rs:377-411 | SGR 1, 3, 5, 7, 8 and 9 switch their effect on and no other, 22 to 29 off again |
| `ModeEffects.Underlines` | crates/emux-term/src/performer.rs:380-405 | SGR 4, 21 and 24 |
| `ModeEffects.Colours` | crates/emux-term/src/performer.rs:412-437 | the sixteen colours and the default, before and behind |
| `ModeEffects.ResetsPen` | crates/emux-term/src/performer.rs:487-493 | SGR 0: a plain pen, but for the protection |
| `ModeEffects.UnderlineStyles` | crates/emux-term/src/performer.rs:380-399 | the styles of 4 with a subparameter |
| `ModeEffects.ExtendedColours` | crates/emux-term/src/performer.rs:446-483 | 38 and 48 with an index or three parts, of which the low bytes are taken |
| `ModeEffects.ColourCutShort` | crates/emux-term/src/performer.rs:446-483 | cut short they set no colour, and what there is of them is read as codes |
| `LinkEffects.EndsLink` | crates/emux-term/src/performer.rs:608-611 | without an address OSC 8 ends the link |
| `LinkEffects.LinkActions` | crates/emux-term/src/performer.rs:556-612 | without parameters it does nothing, nor do the other commands |
| `LinkEffects.Links` | crates/emux-term/src/performer.rs:598-612 | OSC 8: the link is its address up to the next semicolon, or none if that is empty or no UTF-8 |
| `Vectors.AlphabetIsStandard` | crates/emux-term/src/selection.rs:281-300 | the alphabet of RFC 4648 |
| `ModeEffects.AlreadyThere` | crates/emux-term/src/performer.rs:828-851 | set on the alternate screen, or reset on the main one, they do nothing |
| `ParserControls.OtherGroundBytes` | crates/emux-vt/src/parser.rs:265-311 | other C1 controls are executed in the ground state, stray bytes do nothing |
| `ParserControls.StrayInOsc` | crates/emux-vt/src/parser.rs:501-503 | controls in an OSC that do not end it are passed over |
| `StateEffects.NewModesAre` | crates/emux-term/src/modes.rs:95-114 | of the modes only autowrap is on |
| `TabLaws.StaysInPlace` | crates/emux-mux/src/tab.rs:953-962 | what is not floating changes nothing |
| `Vectors.ShortVectors` | crates/emux-term/src/selection.rs:278-301 | the examples of up to three bytes |
| `Vectors.Utf8Vectors` | crates/emux-vt/src/parser.rs:213-217 | the examples of RFC 3629 |
| `Vectors.LongVectors` | crates/emux-term/src/selection.rs:278-301 | its examples |

## Left out

- Integers are unbounded: `usize` sums in cursor arithmetic cannot overflow in the model. The 8-, 16- and 32-bit
  conversions that matter (parameters, `as u8`, `as u16`) are written out.
- A screen or grid without rows or columns: the program indexes row 0 of one in several operations, so the screen
  model starts from at least one row and one column; a change of width needs at least one new column, as the
  program divides by it.
- Layout ratios are `real` numbers rounded half up instead of `f32`; tiling does not depend on the rounding. The tree is a
  value that methods rebuild, so updating boxes in place is not captured.
- Pane ids are unbounded below the id the swap uses temporarily; the counter's overflow is not modelled.
- The parser hands its actions over at the end of a chunk instead of one by one; the performer never looks at the parser.
  The collected data of device control strings is not modelled.
- The library sort in the damage merge is an insertion sort by the same key.
- Title, working directory, palette, notifications, shell marks, clipboard, response buffer: no other state depends on them.
  A hyperlink is its bytes.
- Damage by cells is exact for characters that need neither a wrap nor room; of those that do, the row-mode condition is
  the one proved.
- The viewport's scroll offset into history, selections and `row_text`.
- Regular expression search, hints, rendering, status bar, key bindings, configuration, themes, persistence, PTYs,
  sockets, the daemon and event loops, recording, SSH, plugins, JSON framing.
- Tabs.Tab.RegisterSwapLayout: any layout is registered, but the tab's invariant is promised only for layouts whose template
  has one leaf, or no more leaves than the least number of panes they apply to; with fewer panes a template can keep leaf ids
  that are no panes, depending on the ids panes have by then (`TabState.TemplateKeepsPanes` has the condition for ids apart).
- Performer.HandleOsc: hyperlinks alone; the titles, palette, clipboard and notifications of other commands are not part of
  this model.
- The full-screen pane of a tab is not part of its invariant: it can name a floating pane that has closed.
- Pane titles, pixel sizes, notification counts, synchronized input, overlap queries and pane scrolling in a tab.
