/** The canvas text grid: a flat array of cells, written, loaded and read back row by row. */
module Canvas {
  import opened Words

  const COLS: nat := 128
  const MAX_ROWS: nat := 128

  const NEWLINE: nat := 10

  type Byte = x: int | 0 <= x < 0x100

  /** The code point of a character, as the loader stores it in a cell. */
  type Code = x: int | 0 <= x < 0x11_0000

  // ---- text as lines, lines as rows ----

  /** The text cut at its newlines; a text without any is one line. */
  function Lines(text: seq<int>): (lines: seq<seq<int>>)
    ensures lines != []
  {
    if text == [] then [[]] else Extend(Lines(text[..|text| - 1]), text[|text| - 1])
  }

  function Extend(lines: seq<seq<int>>, b: int): (r: seq<seq<int>>)
    requires lines != []
    ensures r != []
  {
    if b == NEWLINE then lines + [[]] else lines[..|lines| - 1] + [lines[|lines| - 1] + [b]]
  }

  /** The lines with a newline between each two. */
  function Joined(lines: seq<seq<int>>): seq<int>
    requires lines != []
  {
    if |lines| == 1 then lines[0] else Joined(lines[..|lines| - 1]) + [NEWLINE] + lines[|lines| - 1]
  }

  /** A line cut into rows of `COLS`; an empty line still takes a row. */
  function Wrapped(line: seq<int>): (rows: seq<seq<int>>)
    ensures rows != []
  {
    if |line| <= COLS then [line] else [line[..COLS]] + Wrapped(line[COLS..])
  }

  function WrappedAll(lines: seq<seq<int>>): seq<seq<int>> {
    if lines == [] then [] else WrappedAll(lines[..|lines| - 1]) + Wrapped(lines[|lines| - 1])
  }

  function Flat(rows: seq<seq<int>>): seq<int> {
    if rows == [] then [] else rows[0] + Flat(rows[1..])
  }

  /** One more byte on the last of the rows laid out so far. */
  function Place(rows: seq<seq<int>>, b: int): (r: seq<seq<int>>)
    requires rows != []
    ensures r != []
  {
    var last := rows[|rows| - 1];
    if b == NEWLINE then rows + [[]]
    else if |last| >= COLS then rows + [[b]]
    else rows[..|rows| - 1] + [last + [b]]
  }

  /** The rows a text is laid out in. */
  function Layout(text: seq<int>): (rows: seq<seq<int>>)
    ensures rows != []
  {
    if text == [] then [[]] else Place(Layout(text[..|text| - 1]), text[|text| - 1])
  }

  lemma WrappedShort(line: seq<int>)
    requires |line| <= COLS
    ensures Wrapped(line) == [line]
  {
  }

  lemma WrappedLong(front: seq<int>, rest: seq<int>)
    requires |front| == COLS && rest != []
    ensures Wrapped(front + rest) == [front] + Wrapped(rest)
  {
    assert (front + rest)[..COLS] == front && (front + rest)[COLS..] == rest;
  }

  lemma PlaceOnly(line: seq<int>, b: int)
    requires b != NEWLINE
    ensures Place([line], b) == if |line| >= COLS then [line] + [[b]] else [line + [b]]
  {
    assert [line][..0] == [];
  }

  lemma {:induction false} WrappedSnoc(line: seq<int>, b: int)
    requires b != NEWLINE
    ensures Wrapped(line + [b]) == Place(Wrapped(line), b)
    decreases |line|
  {
    hide Wrapped, Place;
    if |line| < COLS {
      WrappedShort(line);
      WrappedShort(line + [b]);
      PlaceOnly(line, b);
    } else if |line| == COLS {
      WrappedShort(line);
      WrappedShort([b]);
      WrappedLong(line, [b]);
      PlaceOnly(line, b);
    } else {
      var front, rest := line[..COLS], line[COLS..];
      WrappedSnoc(rest, b);
      WrappedLong(front, rest);
      WrappedLong(front, rest + [b]);
      assert front + rest == line && front + (rest + [b]) == line + [b];
      PlaceBehind([front], Wrapped(rest), b);
    }
  }

  lemma PlaceBehind(front: seq<seq<int>>, rows: seq<seq<int>>, b: int)
    requires rows != []
    ensures Place(front + rows, b) == front + Place(rows, b)
  {
    var all := front + rows;
    assert all[|all| - 1] == rows[|rows| - 1];
    assert all[..|all| - 1] == front + rows[..|rows| - 1];
  }

  /** Laying a text out byte by byte is wrapping each of its lines. */
  lemma {:induction false} LayoutWraps(text: seq<int>)
    ensures Layout(text) == WrappedAll(Lines(text))
  {
    if text == [] {
      WrappedOne([]);
    } else {
      var t, b := text[..|text| - 1], text[|text| - 1];
      var lines := Lines(t);
      var front, last := lines[..|lines| - 1], lines[|lines| - 1];
      LayoutWraps(t);
      WrappedAllSnoc(front, last);
      assert lines == front + [last];
      hide Layout, WrappedAll, Wrapped;
      LayoutStep(t, b);
      assert text == t + [b];
      if b == NEWLINE {
        WrappedAllSnoc(lines, []);
        WrappedOne([]);
      } else {
        WrappedAllSnoc(front, last + [b]);
        WrappedSnoc(last, b);
        PlaceBehind(WrappedAll(front), Wrapped(last), b);
      }
    }
  }

  lemma LayoutStep(t: seq<int>, b: int)
    ensures Layout(t + [b]) == Place(Layout(t), b)
  {
    assert (t + [b])[..|t|] == t;
  }

  lemma WrappedOne(line: seq<int>)
    requires |line| <= COLS
    ensures Wrapped(line) == [line] && WrappedAll([line]) == [line]
  {
    assert [line][..0] == [];
  }

  lemma WrappedAllSnoc(front: seq<seq<int>>, line: seq<int>)
    ensures WrappedAll(front + [line]) == WrappedAll(front) + Wrapped(line)
  {
    assert (front + [line])[..|front|] == front;
  }

  function RowsNeeded(n: nat): nat {
    if n == 0 then 1 else (n + COLS - 1) / COLS
  }

  lemma {:induction false} WrappedWhole(line: seq<int>)
    ensures Flat(Wrapped(line)) == line
    ensures |Wrapped(line)| == RowsNeeded(|line|)
    ensures forall r <- Wrapped(line) :: |r| <= COLS && forall b <- r :: b in line
  {
    if |line| <= COLS {
      assert Flat([line]) == line + Flat([]);
    } else {
      var rest := line[COLS..];
      WrappedWhole(rest);
      assert Wrapped(line)[1..] == Wrapped(rest);
      assert line == line[..COLS] + rest;
      assert RowsNeeded(|line|) == 1 + RowsNeeded(|rest|);
    }
  }

  lemma {:induction false} LinesOfPlain(text: seq<int>)
    requires NEWLINE !in text
    ensures Lines(text) == [text]
  {
    if text != [] {
      var t, b := text[..|text| - 1], text[|text| - 1];
      assert b in text && text == t + [b];
      LinesOfPlain(t);
    }
  }

  /** A text without newlines takes `max(1, ceil(n / COLS))` rows, which together are the text. */
  lemma PlainLayout(text: seq<int>)
    requires NEWLINE !in text
    ensures Layout(text) == Wrapped(text)
    ensures |Layout(text)| == RowsNeeded(|text|) && Flat(Layout(text)) == text
  {
    hide Layout, Wrapped;
    LayoutWraps(text);
    LinesOfPlain(text);
    WrappedAllSnoc([], text);
    assert [] + [text] == [text];
    WrappedWhole(text);
    assert WrappedAll([]) == [];
  }

  lemma PlaceKeeps(done: seq<seq<int>>, rows: seq<seq<int>>, b: int)
    requires done <= rows && |done| < |rows|
    ensures done <= Place(rows, b) && |rows| <= |Place(rows, b)|
  {
  }

  /** Rows already closed stay as they are however the text goes on. */
  lemma {:induction false} LayoutGrows(text: seq<int>, more: seq<int>, done: seq<seq<int>>)
    requires done <= Layout(text) && |done| < |Layout(text)|
    ensures done <= Layout(text + more) && |Layout(text)| <= |Layout(text + more)|
  {
    hide Layout, Place;
    if more == [] {
      assert text + more == text;
    } else {
      var m, b := more[..|more| - 1], more[|more| - 1];
      LayoutGrows(text, m, done);
      LayoutStep(text + m, b);
      PlaceKeeps(done, Layout(text + m), b);
      assert text + more == text + m + [b];
    }
  }

  // ---- the writer ----

  /** Cell `c` of row `i`, padded with zeros. */
  function Padded(rows: seq<seq<int>>, i: nat, c: nat): int
    requires i < |rows|
  {
    if c < |rows[i]| then rows[i][c] else 0
  }

  /** Cell `k` after the rows have been written from row `row` on, as far as the canvas goes. */
  function Written(cells: seq<u32>, row: nat, rows: seq<seq<int>>, k: nat): int
    requires k < |cells|
  {
    if row <= k / COLS < MAX_ROWS && k / COLS < row + |rows| then Padded(rows, k / COLS - row, k % COLS)
    else cells[k]
  }

  /** The same while the last row is still open: behind its last byte the old cells remain. */
  function Drafted(cells: seq<u32>, row: nat, rows: seq<seq<int>>, k: nat): int
    requires k < |cells|
  {
    if row <= k / COLS < row + |rows| && (k / COLS < row + |rows| - 1 || k % COLS < |rows[|rows| - 1]|) then
      Padded(rows, k / COLS - row, k % COLS)
    else cells[k]
  }

  predicate IsWritten(cells: seq<u32>, row: nat, rows: seq<seq<int>>, now: seq<u32>) {
    |now| == |cells| && forall k :: 0 <= k < |now| ==> now[k] == Written(cells, row, rows, k)
  }

  predicate IsDrafted(cells: seq<u32>, row: nat, rows: seq<seq<int>>, now: seq<u32>) {
    |now| == |cells| && forall k :: 0 <= k < |now| ==> now[k] == Drafted(cells, row, rows, k)
  }

  /** The canvas with row `r` cleared from column `start` on. */
  predicate IsCleared(before: seq<u32>, r: nat, start: nat, now: seq<u32>) {
    |now| == |before| &&
    forall k :: 0 <= k < |now| ==> now[k] == if k / COLS == r && k % COLS >= start then 0 else before[k]
  }

  lemma At(r: nat, c: nat)
    requires c < COLS
    ensures (r * COLS + c) / COLS == r && (r * COLS + c) % COLS == c
  {
  }

  /** Clearing the rest of the open row closes it; a new empty row is open behind it. */
  lemma CloseRow(cells: seq<u32>, row: nat, rows: seq<seq<int>>, now: seq<u32>, next: seq<u32>)
    requires rows != [] && row + |rows| <= MAX_ROWS && IsDrafted(cells, row, rows, now)
    requires IsCleared(now, row + |rows| - 1, |rows[|rows| - 1]|, next)
    ensures IsWritten(cells, row, rows, next) && IsDrafted(cells, row, rows + [[]], next)
  {
    var last := row + |rows| - 1;
    forall k | 0 <= k < |next|
      ensures next[k] == Written(cells, row, rows, k) && next[k] == Drafted(cells, row, rows + [[]], k)
    {
      assert now[k] == Drafted(cells, row, rows, k);
      if row <= k / COLS <= last {
        assert (rows + [[]])[k / COLS - row] == rows[k / COLS - row];
      }
    }
  }

  lemma PutByte(cells: seq<u32>, row: nat, rows: seq<seq<int>>, b: Byte, now: seq<u32>)
    requires rows != [] && |rows[|rows| - 1]| < COLS && (row + |rows|) * COLS <= |now| && b != NEWLINE
    requires IsDrafted(cells, row, rows, now)
    ensures var n := |rows| - 1;
            IsDrafted(cells, row, Place(rows, b), now[(row + n) * COLS + |rows[n]| := b])
  {
    var n := |rows| - 1;
    var c, i := |rows[n]|, (row + n) * COLS + |rows[n]|;
    var more, next := rows[..n] + [rows[n] + [b]], now[i := b];
    At(row + n, c);
    forall k | 0 <= k < |next| ensures next[k] == Drafted(cells, row, more, k) {
      assert now[k] == Drafted(cells, row, rows, k);
      if k == i {
        assert k / COLS == row + n && k % COLS == c;
      } else {
        assert k / COLS == row + n ==> k % COLS != c;
      }
    }
  }

  lemma NothingDrafted(cells: seq<u32>, row: nat)
    ensures IsDrafted(cells, row, [[]], cells)
  {
  }

  /** Rows below the canvas are not written. */
  lemma Truncated(cells: seq<u32>, row: nat, rows: seq<seq<int>>, all: seq<seq<int>>, now: seq<u32>)
    requires rows <= all && row + |rows| == MAX_ROWS && IsWritten(cells, row, rows, now)
    ensures IsWritten(cells, row, all, now)
  {
    forall k | 0 <= k < |now| ensures now[k] == Written(cells, row, all, k) {
      assert now[k] == Written(cells, row, rows, k);
    }
  }

  /** Clears the rest of a row. */
  method PadRow(canvas: array<u32>, r: nat, start: nat)
    requires start <= COLS && (r + 1) * COLS <= canvas.Length
    modifies canvas
    ensures IsCleared(old(canvas[..]), r, start, canvas[..])
  {
    var col := start;
    while col < COLS
      invariant start <= col <= COLS
      invariant forall k :: 0 <= k < canvas.Length ==>
        canvas[k] == if k / COLS == r && start <= k % COLS < col then 0 else old(canvas[k])
    {
      At(r, col);
      canvas[r * COLS + col] := 0;
      col := col + 1;
    }
  }

  method PutCell(canvas: array<u32>, r: nat, col: nat, b: Byte)
    requires col < COLS && (r + 1) * COLS <= canvas.Length
    modifies canvas
    ensures canvas[..] == old(canvas[..])[r * COLS + col := b]
  {
    canvas[r * COLS + col] := b;
  }

  lemma OutsideCanvas(cells: seq<u32>, row: nat, rows: seq<seq<int>>)
    requires row >= MAX_ROWS
    ensures IsWritten(cells, row, rows, cells)
  {
  }

  /** A byte that closes the last row leaves the rows so far for good. */
  lemma RowsStay(text: seq<int>, j: nat)
    requires j < |text|
    ensures Layout(text[..j + 1]) == Place(Layout(text[..j]), text[j])
    ensures var rows := Layout(text[..j]);
            |Place(rows, text[j])| > |rows| ==> rows <= Layout(text) && |Layout(text)| > |rows|
  {
    assert text[..j + 1] == text[..j] + [text[j]] && text == text[..j + 1] + text[j + 1..];
    LayoutStep(text[..j], text[j]);
    var rows, more := Layout(text[..j]), Layout(text[..j + 1]);
    LayoutGrows(text[..j + 1], text[j + 1..], if |more| > |rows| then rows else []);
  }

  /** A byte that does not fit starts a row of its own. */
  lemma PlaceFirst(rows: seq<seq<int>>, b: int)
    requires rows != [] && |rows[|rows| - 1]| >= COLS && b != NEWLINE
    ensures Place(rows + [[]], b) == Place(rows, b)
  {
    var open := rows + [[]];
    assert open[..|rows|] == rows && open[|rows|] + [b] == [b];
  }

  lemma WholeText(text: seq<int>)
    ensures text[..0] == [] && text[..|text|] == text && Layout([]) == [[]]
  {
  }

  method WriteLineToCanvas(canvas: array<u32>, row: nat, text: seq<Byte>) returns (r: nat)
    requires canvas.Length >= MAX_ROWS * COLS
    modifies canvas
    ensures r == if row >= MAX_ROWS then row
                 else if row + |Layout(text)| <= MAX_ROWS then row + |Layout(text)| else MAX_ROWS
    ensures IsWritten(old(canvas[..]), row, Layout(text), canvas[..])
  {
    hide IsDrafted, IsWritten, IsCleared, Layout;
    r := row;
    if r >= MAX_ROWS {
      OutsideCanvas(canvas[..], row, Layout(text));
      return;
    }
    ghost var cells, rows := canvas[..], [[]];
    var col := 0;
    NothingDrafted(cells, row);
    WholeText(text);
    for j := 0 to |text|
      invariant rows == Layout(text[..j])
      invariant row <= r < MAX_ROWS && r + 1 == row + |rows| && col == |rows[|rows| - 1]| <= COLS
      invariant IsDrafted(cells, row, rows, canvas[..])
    {
      var b := text[j];
      RowsStay(text, j);
      if b == NEWLINE || col >= COLS {
        ghost var now := canvas[..];
        PadRow(canvas, r, col);
        CloseRow(cells, row, rows, now, canvas[..]);
        r := r + 1;
        if r >= MAX_ROWS {
          Truncated(cells, row, rows, Layout(text), canvas[..]);
          return;
        }
        col := 0;
        if b == NEWLINE {
          rows := Place(rows, b);
          continue;
        }
        PutByte(cells, row, rows + [[]], b, canvas[..]);
        PlaceFirst(rows, b);
        PutCell(canvas, r, col, b);
        col := col + 1;
        rows := Place(rows, b);
      } else {
        PutByte(cells, row, rows, b, canvas[..]);
        PutCell(canvas, r, col, b);
        col := col + 1;
        rows := Place(rows, b);
      }
    }
    ghost var now := canvas[..];
    PadRow(canvas, r, col);
    CloseRow(cells, row, rows, now, canvas[..]);
    r := r + 1;
  }
}
