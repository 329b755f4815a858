/** What the canvas readers return, cell by cell and row by row. */
module CanvasCells {
  import opened Words
  import opened Canvas
  import opened CanvasRead

  /** Reading stops at the first zero byte; everything before it is the low byte of its cell. */
  lemma {:induction false} StopsAtZero(cells: seq<int>)
    ensures var s := UntilZero(cells);
            && (forall k :: 0 <= k < |s| ==> s[k] == cells[k] % 256 != 0)
            && (|s| < |cells| ==> cells[|s|] % 256 == 0)
  {
    if cells != [] && Low(cells[0]) != 0 {
      StopsAtZero(cells[1..]);
    }
  }

  lemma {:induction false} StopsAtBreak(cells: seq<int>)
    ensures var s := UntilBreak(cells);
            && |s| <= |cells|
            && (forall k :: 0 <= k < |s| ==> s[k] == cells[k] % 256 && s[k] != 0 && s[k] != 10)
            && (|s| < |cells| ==> cells[|s|] % 256 == 0 || cells[|s|] % 256 == 10)
  {
    if cells != [] && Low(cells[0]) != 0 && Low(cells[0]) != NEWLINE {
      StopsAtBreak(cells[1..]);
    }
  }

  /** A row's text is its low bytes up to the first zero or newline, or the end of its 128 columns. */
  lemma RowText(cells: seq<u32>, row: nat)
    requires (row + 1) * 128 <= |cells|
    ensures var s := UntilBreak(RowCells(cells, row));
            && |s| <= 128
            && (forall k :: 0 <= k < |s| ==> s[k] == cells[row * 128 + k] % 256 && s[k] != 0 && s[k] != 10)
            && (|s| < 128 ==> cells[row * 128 + |s|] % 256 == 0 || cells[row * 128 + |s|] % 256 == 10)
  {
    hide UntilBreak;
    StopsAtBreak(RowCells(cells, row));
  }

  /** `s` is the low bytes of the `n` cells from `at` on, up to the first zero byte. */
  ghost predicate TextOf(cells: seq<u32>, at: int, n: int, s: seq<Byte>) {
    && 0 <= at && |s| <= n && at + n <= |cells|
    && (forall k :: 0 <= k < |s| ==> s[k] == cells[at + k] % 256 != 0)
    && (|s| < n ==> cells[at + |s|] % 256 == 0)
  }

  lemma PartText(cells: seq<u32>, at: nat, end: nat)
    requires at <= end <= |cells|
    ensures TextOf(cells, at, end - at, UntilZero(cells[at..end]))
  {
    hide UntilZero;
    StopsAtZero(cells[at..end]);
  }

  lemma PartOfRow(cells: seq<u32>, row: nat, start: nat, end: nat)
    requires (row + 1) * COLS <= |cells| && start <= end <= COLS
    ensures RowCells(cells, row)[start..end] == cells[row * COLS + start..row * COLS + end]
  {
    SliceOfSlice(cells, row * COLS, (row + 1) * COLS, start, end);
  }

  lemma SliceOfSlice(s: seq<u32>, a: nat, b: nat, x: nat, y: nat)
    requires a <= b <= |s| && x <= y <= b - a
    ensures s[a..b][x..y] == s[a + x..a + y]
  {
    var l, r := s[a..b][x..y], s[a + x..a + y];
    forall k | 0 <= k < y - x ensures l[k] == r[k] {
      assert s[a..b][x + k] == s[a + x + k];
    }
  }

  lemma SpanText(cells: seq<u32>, row: nat, start: nat, end: nat)
    requires (row + 1) * COLS <= |cells| && end <= COLS
    ensures start >= end ==> Span(cells, row, start, end) == []
    ensures start < end ==> TextOf(cells, row * COLS + start, end - start, Span(cells, row, start, end))
  {
    hide UntilZero, RowCells, TextOf;
    if start < end {
      PartOfRow(cells, row, start, end);
      PartText(cells, row * COLS + start, row * COLS + end);
    }
  }

  /** The columns a selection takes from one row: from `start` to `end`, both taken, but no more than 128. */
  lemma RowSelection(cells: seq<u32>, row: nat, start: nat, end: nat)
    requires (row + 1) * 128 <= |cells| && start <= end
    ensures var s, last := Selection(cells, (row, start), (row, end)), if end < 127 then end else 127;
            if start > last then s == [] else TextOf(cells, row * 128 + start, last + 1 - start, s)
  {
    hide Span, TextOf;
    SpanText(cells, row, start, LastCol(end) + 1);
  }

  lemma {:induction false} FirstOfRows(cells: seq<u32>, start: nat, end: nat)
    requires start < end && end * COLS <= |cells|
    ensures WholeRows(cells, start, end) == Span(cells, start, 0, COLS) + [NEWLINE] + WholeRows(cells, start + 1, end)
    decreases end
  {
    hide Span;
    if start + 1 == end {
      assert WholeRows(cells, start, end - 1) == [] == WholeRows(cells, start + 1, end);
      var s := Span(cells, start, 0, COLS);
      assert [] + s + [NEWLINE] == s + [NEWLINE] + [];
    } else {
      FirstOfRows(cells, start, end - 1);
      var a, b, c := Span(cells, start, 0, COLS) + [NEWLINE], WholeRows(cells, start + 1, end - 1), Span(cells, end - 1, 0, COLS);
      assert (a + b) + c + [NEWLINE] == a + (b + c + [NEWLINE]);
    }
  }

  /** A selection over several rows is that of its first row to the row's end, a newline, and that of the
      rest from the next row's start. */
  lemma RowByRow(cells: seq<u32>, a: Position, b: Position)
    requires a.0 < b.0 && (b.0 + 1) * 128 <= |cells|
    ensures Selection(cells, a, b)
         == Selection(cells, a, (a.0, if a.1 < 127 then 127 else a.1)) + [10] + Selection(cells, (a.0 + 1, 0), b)
  {
    hide Span;
    var first, last := Span(cells, a.0, a.1, COLS) + [NEWLINE], Span(cells, b.0, 0, LastCol(b.1) + 1);
    if a.0 + 1 == b.0 {
      assert WholeRows(cells, a.0 + 1, b.0) == [];
      assert first + [] + last == first + last;
    } else {
      FirstOfRows(cells, a.0 + 1, b.0);
      var row, rest := Span(cells, a.0 + 1, 0, COLS) + [NEWLINE], WholeRows(cells, a.0 + 2, b.0);
      assert first + (row + rest) + last == first + (row + rest + last);
    }
  }
}
