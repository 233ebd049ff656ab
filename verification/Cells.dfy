/** Cells and rows of the terminal grid, and the shifts and spans its operations make. */
module Cells {
  import opened Options
  import opened Utf8

  datatype Color = DefaultColor | Indexed(index: Byte) | Rgb(r: Byte, g: Byte, b: Byte)

  datatype UnderlineStyle = NoUnderline | Single | Double | Curly

  datatype CellAttrs = CellAttrs(bold: bool, italic: bool, underline: UnderlineStyle, blink: bool, reverse: bool,
                                 invisible: bool, strikethrough: bool, protected: bool)

  const DEFAULT_ATTRS := CellAttrs(false, false, NoUnderline, false, false, false, false, false)

  /** Width 1 for normal characters, 2 for the head of a wide one, 0 for its tail. */
  datatype Cell = Cell(c: Scalar, width: nat, fg: Color, bg: Color, attrs: CellAttrs, hyperlink: Option<seq<Byte>>)

  const SPACE: Scalar := 0x20
  const BLANK := Cell(SPACE, 1, DefaultColor, DefaultColor, DEFAULT_ATTRS, None)

  /** A row; the flag says that it continues the row above (a soft wrap). */
  datatype Row = Row(cells: seq<Cell>, continuation: bool)

  function Fill<T>(n: nat, x: T): (s: seq<T>)
    ensures |s| == n && forall i :: 0 <= i < n ==> s[i] == x
  {
    seq(n, _ => x)
  }

  function BlankRow(cols: nat): Row {
    Row(Fill(cols, BLANK), false)
  }

  /** `Row::resize`: cut, or padded with blanks. */
  function FitCells(cells: seq<Cell>, cols: nat): (r: seq<Cell>)
    ensures |r| == cols
  {
    if cols <= |cells| then cells[..cols] else cells + Fill(cols - |cells|, BLANK)
  }

  function FitRow(row: Row, cols: nat): (r: Row)
    ensures |r.cells| == cols
  {
    row.(cells := FitCells(row.cells, cols))
  }

  /** Every row is `cols` wide. */
  ghost predicate AllWide(rows: seq<Row>, cols: nat) {
    forall i :: 0 <= i < |rows| ==> |rows[i].cells| == cols
  }

  /** Only blanks and colours: the test a shrinking grid applies to its last row. */
  predicate IsTextBlank(row: Row) {
    forall i :: 0 <= i < |row.cells| ==> row.cells[i].c == SPACE && row.cells[i].attrs == DEFAULT_ATTRS
  }

  // ----- Shifts -----

  /** `s[a..b)` moved left by `n`; the freed places hold `x`. */
  function ShiftLeft<T>(s: seq<T>, a: nat, b: nat, n: nat, x: T): (r: seq<T>)
    requires a + n <= b <= |s|
    ensures |r| == |s|
  {
    s[..a] + s[a + n..b] + Fill(n, x) + s[b..]
  }

  /** `s[a..b)` moved right by `n`; the freed places hold `x`. */
  function ShiftRight<T>(s: seq<T>, a: nat, b: nat, n: nat, x: T): (r: seq<T>)
    requires a + n <= b <= |s|
    ensures |r| == |s|
  {
    s[..a] + Fill(n, x) + s[a..b - n] + s[b..]
  }

  lemma ShiftLeftAt<T>(s: seq<T>, a: nat, b: nat, n: nat, x: T, i: nat)
    requires a + n <= b <= |s| && i < |s|
    ensures ShiftLeft(s, a, b, n, x)[i] == if a <= i < b - n then s[i + n] else if b - n <= i < b then x else s[i]
  {
  }

  lemma ShiftRightAt<T>(s: seq<T>, a: nat, b: nat, n: nat, x: T, i: nat)
    requires a + n <= b <= |s| && i < |s|
    ensures ShiftRight(s, a, b, n, x)[i] == if a + n <= i < b then s[i - n] else if a <= i < a + n then x else s[i]
  {
  }

  /** A shift given place by place. */
  lemma IsShiftLeft<T>(s: seq<T>, a: nat, b: nat, n: nat, x: T, r: seq<T>)
    requires a + n <= b <= |s| == |r|
    requires forall i :: 0 <= i < |s| ==>
               r[i] == if a <= i < b - n then s[i + n] else if b - n <= i < b then x else s[i]
    ensures r == ShiftLeft(s, a, b, n, x)
  {
    hide ShiftLeft;
    forall i | 0 <= i < |s|
      ensures r[i] == ShiftLeft(s, a, b, n, x)[i]
    {
      ShiftLeftAt(s, a, b, n, x, i);
      assert r[i] == if a <= i < b - n then s[i + n] else if b - n <= i < b then x else s[i];
    }
  }

  lemma IsShiftRight<T>(s: seq<T>, a: nat, b: nat, n: nat, x: T, r: seq<T>)
    requires a + n <= b <= |s| == |r|
    requires forall i :: 0 <= i < |s| ==>
               r[i] == if a + n <= i < b then s[i - n] else if a <= i < a + n then x else s[i]
    ensures r == ShiftRight(s, a, b, n, x)
  {
    hide ShiftRight;
    forall i | 0 <= i < |s|
      ensures r[i] == ShiftRight(s, a, b, n, x)[i]
    {
      ShiftRightAt(s, a, b, n, x, i);
      assert r[i] == if a + n <= i < b then s[i - n] else if a <= i < a + n then x else s[i];
    }
  }

  // ----- Spans of a row -----

  /** `cells` with `[left, right)` taken from `src`. */
  function Spliced<T>(cells: seq<T>, src: seq<T>, left: nat, right: nat): (r: seq<T>)
    requires left <= right <= |cells| && right <= |src|
    ensures |r| == |cells|
  {
    cells[..left] + src[left..right] + cells[right..]
  }

  /** Cells `left` to `right` inclusive blank, and with them the other half of a wide
      character cut at either end. */
  function ClearedSpan(cells: seq<Cell>, left: nat, right: nat): (r: seq<Cell>)
    requires right < |cells|
    ensures |r| == |cells|
  {
    seq(|cells|, c requires 0 <= c < |cells| =>
      if left <= c <= right then BLANK
      else if c + 1 == left <= right && cells[left].width == 0 then BLANK
      else if c == right + 1 && cells[right].width == 2 then BLANK
      else cells[c])
  }

  /** Cells `col` to `end`, exclusive, blank; the same care at both ends. */
  function ErasedSpan(cells: seq<Cell>, col: nat, end: nat): (r: seq<Cell>)
    requires col <= end <= |cells| && col < |cells|
    ensures |r| == |cells|
  {
    seq(|cells|, c requires 0 <= c < |cells| =>
      if col <= c < end then BLANK
      else if c + 1 == col && cells[col].width == 0 then BLANK
      else if c == end && end > col && cells[end - 1].width == 2 then BLANK
      else cells[c])
  }

  // ----- Wide characters -----

  /** Every head of a wide character is followed by its tail, and every tail follows a head. */
  ghost predicate Paired(cells: seq<Cell>) {
    && (forall i :: 0 <= i < |cells| && cells[i].width == 2 ==> i + 1 < |cells| && cells[i + 1].width == 0)
    && (forall i :: 0 <= i < |cells| && cells[i].width == 0 ==> i > 0 && cells[i - 1].width == 2)
  }

  lemma BlanksArePaired(n: nat)
    ensures Paired(Fill(n, BLANK))
  {
  }

  lemma ClearingKeepsPairs(cells: seq<Cell>, left: nat, right: nat)
    requires Paired(cells) && left <= right < |cells|
    ensures Paired(ClearedSpan(cells, left, right))
  {
    var r := ClearedSpan(cells, left, right);
    forall i | 0 <= i < |r|
      ensures r[i].width == 2 ==> i + 1 < |r| && r[i + 1].width == 0
      ensures r[i].width == 0 ==> i > 0 && r[i - 1].width == 2
    {
      if r[i].width == 2 {
        assert r[i] == cells[i] && cells[i + 1].width == 0;
      } else if r[i].width == 0 {
        assert r[i] == cells[i] && cells[i - 1].width == 2;
      }
    }
  }

  lemma ErasingKeepsPairs(cells: seq<Cell>, col: nat, end: nat)
    requires Paired(cells) && col < end <= |cells|
    ensures Paired(ErasedSpan(cells, col, end))
  {
    assert ErasedSpan(cells, col, end) == ClearedSpan(cells, col, end - 1);
    ClearingKeepsPairs(cells, col, end - 1);
  }

  /** The condition matters: erasing no cells at the tail of a wide character blanks
      its head and leaves the tail alone. */
  lemma ErasingNothingCanUnpair(cells: seq<Cell>, col: nat)
    requires Paired(cells) && col < |cells|
    ensures Paired(ErasedSpan(cells, col, col)) <==> cells[col].width != 0
  {
    var r := ErasedSpan(cells, col, col);
    if cells[col].width == 0 {
      assert r[col].width == 0 && r[col - 1] == BLANK;
    } else {
      assert r == cells;
    }
  }
}
