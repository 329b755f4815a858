/** Reading the canvas back: single rows, selections, and a source that was loaded onto it. */
module CanvasRead {
  import opened Words
  import opened Canvas

  type Position = (nat, nat)

  // ---- reading ----

  function Low(cell: int): Byte {
    cell % 0x100
  }

  /** The low bytes up to the first zero. */
  function UntilZero(cells: seq<int>): (s: seq<Byte>)
    ensures |s| <= |cells|
  {
    if cells == [] || Low(cells[0]) == 0 then [] else [Low(cells[0])] + UntilZero(cells[1..])
  }

  /** The low bytes up to the first zero or newline. */
  function UntilBreak(cells: seq<int>): seq<Byte> {
    if cells == [] || Low(cells[0]) == 0 || Low(cells[0]) == NEWLINE then []
    else [Low(cells[0])] + UntilBreak(cells[1..])
  }

  function RowCells(cells: seq<u32>, row: nat): (r: seq<u32>)
    requires (row + 1) * COLS <= |cells|
    ensures |r| == COLS
  {
    cells[row * COLS..(row + 1) * COLS]
  }

  method ReadCanvasLine(canvas: array<u32>, row: nat) returns (s: seq<Byte>)
    requires (row + 1) * COLS <= canvas.Length
    ensures s == UntilBreak(RowCells(canvas[..], row))
  {
    s := [];
    ghost var cells := RowCells(canvas[..], row);
    for col := 0 to COLS
      invariant s + UntilBreak(cells[col..]) == UntilBreak(cells)
    {
      var byte := Low(canvas[row * COLS + col]);
      assert cells[col..][1..] == cells[col + 1..] && cells[col..][0] == cells[col];
      if byte == 0 || byte == NEWLINE {
        assert s + [] == s;
        return;
      }
      s := s + [byte];
    }
    assert s + [] == s;
  }

  /** What is selected in one row, from column `start` to before column `end`. */
  function Span(cells: seq<u32>, row: nat, start: nat, end: nat): seq<Byte>
    requires (row + 1) * COLS <= |cells| && end <= COLS
  {
    if start >= end then [] else UntilZero(RowCells(cells, row)[start..end])
  }

  /** One of the selection's loops over columns. */
  method ReadSpan(canvas: array<u32>, row: nat, start: nat, end: nat) returns (s: seq<Byte>)
    requires (row + 1) * COLS <= canvas.Length && end <= COLS
    ensures s == Span(canvas[..], row, start, end)
  {
    hide UntilZero;
    s := [];
    if start >= end { return; }
    ghost var cells := RowCells(canvas[..], row)[start..end];
    assert cells[0..] == cells;
    for col := start to end
      invariant s + UntilZero(cells[col - start..]) == UntilZero(cells)
    {
      assert canvas[row * COLS + col] == cells[col - start];
      var byte := Low(canvas[row * COLS + col]);
      UntilZeroStep(cells, col - start, s);
      if byte == 0 {
        return;
      }
      s := s + [byte];
    }
    UntilZeroEnd(cells, s);
  }

  lemma UntilZeroStep(cells: seq<int>, i: nat, s: seq<Byte>)
    requires i < |cells|
    ensures s + UntilZero(cells[i..])
         == if Low(cells[i]) == 0 then s else (s + [Low(cells[i])]) + UntilZero(cells[i + 1..])
  {
    assert cells[i..][1..] == cells[i + 1..];
  }

  lemma UntilZeroEnd(cells: seq<int>, s: seq<Byte>)
    ensures s + UntilZero(cells[|cells|..]) == s
  {
  }

  predicate Before(a: Position, b: Position) {
    a.0 < b.0 || (a.0 == b.0 && a.1 <= b.1)
  }

  function LastCol(col: nat): nat {
    if col < COLS - 1 then col else COLS - 1
  }

  /** Whole rows, each with its newline. */
  function WholeRows(cells: seq<u32>, start: nat, end: nat): seq<Byte>
    requires end * COLS <= |cells|
    decreases end
  {
    if start >= end then [] else WholeRows(cells, start, end - 1) + Span(cells, end - 1, 0, COLS) + [NEWLINE]
  }

  /** The text between two ends given in reading order. */
  function Between(cells: seq<u32>, start: Position, end: Position): seq<Byte>
    requires start.0 <= end.0 && (end.0 + 1) * COLS <= |cells|
  {
    if start.0 == end.0 then Span(cells, start.0, start.1, LastCol(end.1) + 1)
    else Span(cells, start.0, start.1, COLS) + [NEWLINE] + WholeRows(cells, start.0 + 1, end.0)
         + Span(cells, end.0, 0, LastCol(end.1) + 1)
  }

  function Selection(cells: seq<u32>, a: Position, b: Position): seq<Byte>
    requires (a.0 + 1) * COLS <= |cells| && (b.0 + 1) * COLS <= |cells|
  {
    if Before(a, b) then Between(cells, a, b) else Between(cells, b, a)
  }

  /** Dragging from either end selects the same text. */
  lemma SelectionSymmetric(cells: seq<u32>, a: Position, b: Position)
    requires (a.0 + 1) * COLS <= |cells| && (b.0 + 1) * COLS <= |cells|
    ensures Selection(cells, a, b) == Selection(cells, b, a)
  {
    if Before(a, b) && Before(b, a) {
      assert a.0 == b.0 && a.1 == b.1;
    }
  }

  method ExtractSelection(canvas: array<u32>, a: Position, b: Position) returns (result: seq<Byte>)
    requires (a.0 + 1) * COLS <= canvas.Length && (b.0 + 1) * COLS <= canvas.Length
    ensures result == Selection(canvas[..], a, b)
  {
    hide Span, RowCells;
    var start, end := a, b;
    if !Before(a, b) {
      start, end := b, a;
    }
    if start.0 == end.0 {
      result := ReadSpan(canvas, start.0, start.1, LastCol(end.1) + 1);
    } else {
      result := ReadSpan(canvas, start.0, start.1, COLS);
      result := result + [NEWLINE];
      ghost var first := result;
      for row := start.0 + 1 to end.0
        invariant result == first + WholeRows(canvas[..], start.0 + 1, row)
      {
        var line := ReadSpan(canvas, row, 0, COLS);
        result := result + line;
        result := result + [NEWLINE];
      }
      var last := ReadSpan(canvas, end.0, 0, LastCol(end.1) + 1);
      result := result + last;
    }
  }

  // ---- loading ----

  /** Cell `k` of a canvas that holds the lines from the top, cut off at the right and at the bottom. */
  function Loaded(lines: seq<seq<int>>, k: nat): int {
    if k / COLS < |lines| && k / COLS < MAX_ROWS && k % COLS < |lines[k / COLS]| then lines[k / COLS][k % COLS] else 0
  }

  predicate IsLoaded(lines: seq<seq<int>>, cells: seq<u32>) {
    forall k :: 0 <= k < |cells| ==> cells[k] == Loaded(lines, k)
  }

  lemma LoadNewline(lines: seq<seq<int>>, cells: seq<u32>)
    requires lines != [] && IsLoaded(lines, cells)
    ensures IsLoaded(Extend(lines, NEWLINE), cells)
  {
    forall k | 0 <= k < |cells| ensures cells[k] == Loaded(Extend(lines, NEWLINE), k) {
      assert cells[k] == Loaded(lines, k);
    }
  }

  lemma LoadChar(lines: seq<seq<int>>, ch: Code, cells: seq<u32>)
    requires lines != [] && |lines| <= MAX_ROWS && IsLoaded(lines, cells) && |cells| >= MAX_ROWS * COLS
    requires ch != NEWLINE
    ensures var row, col := |lines| - 1, |lines[|lines| - 1]|;
            IsLoaded(Extend(lines, ch), if col < COLS then cells[row * COLS + col := ch] else cells)
  {
    var row, col := |lines| - 1, |lines[|lines| - 1]|;
    var next := if col < COLS then cells[row * COLS + col := ch] else cells;
    if col < COLS { At(row, col); }
    forall k | 0 <= k < |next| ensures next[k] == Loaded(Extend(lines, ch), k) {
      assert cells[k] == Loaded(lines, k);
      assert k / COLS == row && k % COLS == col ==> k == row * COLS + col;
    }
  }

  lemma LoadEmpty(cells: seq<u32>)
    requires forall k :: 0 <= k < |cells| ==> cells[k] == 0
    ensures IsLoaded([[]], cells)
  {
  }

  /** What lies below the canvas does not matter. */
  lemma LoadFull(lines: seq<seq<int>>, all: seq<seq<int>>, cells: seq<u32>)
    requires |lines| > MAX_ROWS && lines[..MAX_ROWS] <= all && IsLoaded(lines, cells)
    ensures IsLoaded(all, cells)
  {
    forall k | 0 <= k < |cells| ensures cells[k] == Loaded(all, k) {
      assert cells[k] == Loaded(lines, k);
      if k / COLS < MAX_ROWS {
        assert all[k / COLS] == lines[..MAX_ROWS][k / COLS];
      }
    }
  }

  lemma LinesStep(t: seq<int>, b: int)
    ensures Lines(t + [b]) == Extend(Lines(t), b)
  {
    assert (t + [b])[..|t|] == t;
  }

  lemma ExtendKeeps(done: seq<seq<int>>, lines: seq<seq<int>>, b: int)
    requires done <= lines && |done| < |lines|
    ensures done <= Extend(lines, b) && |lines| <= |Extend(lines, b)|
  {
  }

  lemma {:induction false} LinesGrow(text: seq<int>, more: seq<int>, done: seq<seq<int>>)
    requires done <= Lines(text) && |done| < |Lines(text)|
    ensures done <= Lines(text + more) && |Lines(text)| <= |Lines(text + more)|
  {
    hide Lines, Extend;
    if more == [] {
      assert text + more == text;
    } else {
      var m, b := more[..|more| - 1], more[|more| - 1];
      LinesGrow(text, m, done);
      LinesStep(text + m, b);
      ExtendKeeps(done, Lines(text + m), b);
      assert text + more == text + m + [b];
    }
  }

  lemma LoadRest(source: seq<int>, j: nat, cells: seq<u32>)
    requires j <= |source| && |Lines(source[..j])| > MAX_ROWS && IsLoaded(Lines(source[..j]), cells)
    ensures IsLoaded(Lines(source), cells)
  {
    hide Lines, IsLoaded;
    var lines := Lines(source[..j]);
    LinesGrow(source[..j], source[j..], lines[..MAX_ROWS]);
    assert source == source[..j] + source[j..];
    LoadFull(lines, Lines(source), cells);
  }

  method ClearCanvas(canvas: array<u32>)
    modifies canvas
    ensures forall k :: 0 <= k < canvas.Length ==> canvas[k] == 0
  {
    for i := 0 to canvas.Length
      invariant forall k :: 0 <= k < i ==> canvas[k] == 0
    {
      canvas[i] := 0;
    }
  }

  method SetCell(canvas: array<u32>, row: nat, col: nat, ch: Code)
    requires col < COLS && (row + 1) * COLS <= canvas.Length
    modifies canvas
    ensures canvas[..] == old(canvas[..])[row * COLS + col := ch]
  {
    canvas[row * COLS + col] := ch;
  }

  method LoadSourceToCanvas(canvas: array<u32>, source: seq<Code>) returns (cursorRow: nat, cursorCol: nat)
    requires canvas.Length >= MAX_ROWS * COLS
    modifies canvas
    ensures IsLoaded(Lines(source), canvas[..]) && cursorRow == 0 && cursorCol == 0
  {
    hide IsLoaded, Lines, Extend;
    ClearCanvas(canvas);
    LoadEmpty(canvas[..]);
    ghost var lines := [[]];
    NoText(source);
    var row, col, j := 0, 0, 0;
    while j < |source|
      invariant 0 <= j <= |source| && lines == Lines(source[..j])
      invariant row + 1 == |lines| && col == if |lines[row]| < COLS then |lines[row]| else COLS
      invariant IsLoaded(lines, canvas[..])
    {
      var ch := source[j];
      if row >= MAX_ROWS {
        LoadRest(source, j, canvas[..]);
        return 0, 0;
      }
      assert source[..j + 1] == source[..j] + [ch];
      LinesStep(source[..j], ch);
      ExtendLast(lines, ch);
      if ch == NEWLINE {
        LoadNewline(lines, canvas[..]);
        row := row + 1;
        col := 0;
      } else {
        LoadChar(lines, ch, canvas[..]);
        if col < COLS {
          SetCell(canvas, row, col, ch);
          col := col + 1;
        }
      }
      lines := Extend(lines, ch);
      j := j + 1;
    }
    assert source[..j] == source;
    return 0, 0;
  }

  lemma NoText(source: seq<int>)
    ensures Lines(source[..0]) == [[]]
  {
  }

  lemma ExtendLast(lines: seq<seq<int>>, b: int)
    requires lines != []
    ensures var n := |lines| - 1;
            if b == NEWLINE then |Extend(lines, b)| == n + 2 && Extend(lines, b)[n + 1] == []
            else |Extend(lines, b)| == n + 1 && Extend(lines, b)[n] == lines[n] + [b]
  {
  }

  // ---- loading a source and selecting all of it ----

  /** What a line shows once it is loaded. */
  function Shown(line: seq<int>): seq<Byte> {
    UntilZero(if |line| <= COLS then line else line[..COLS])
  }

  function AllShown(lines: seq<seq<int>>): (r: seq<seq<int>>)
    ensures |r| == |lines|
  {
    seq(|lines|, i requires 0 <= i < |lines| => Shown(lines[i]))
  }

  /** Zeros behind a row change nothing. */
  lemma {:induction false} UntilZeroPadded(cells: seq<int>, line: seq<int>)
    requires |line| <= |cells|
    requires forall c :: 0 <= c < |cells| ==> cells[c] == if c < |line| then line[c] else 0
    ensures UntilZero(cells) == UntilZero(line)
  {
    if line != [] {
      UntilZeroPadded(cells[1..], line[1..]);
    }
  }

  lemma LoadedRow(lines: seq<seq<int>>, cells: seq<u32>, row: nat)
    requires IsLoaded(lines, cells) && row < |lines| <= MAX_ROWS && |cells| >= MAX_ROWS * COLS
    ensures Span(cells, row, 0, COLS) == Shown(lines[row])
  {
    hide UntilZero;
    var r := RowCells(cells, row);
    var line := if |lines[row]| <= COLS then lines[row] else lines[row][..COLS];
    forall c | 0 <= c < |r| ensures r[c] == if c < |line| then line[c] else 0 {
      At(row, c);
      assert cells[row * COLS + c] == Loaded(lines, row * COLS + c);
    }
    UntilZeroPadded(r, line);
    assert r[0..COLS] == r;
  }

  lemma {:induction false} LoadedRows(lines: seq<seq<int>>, cells: seq<u32>, n: nat)
    requires IsLoaded(lines, cells) && 0 < n < |lines| <= MAX_ROWS && |cells| >= MAX_ROWS * COLS
    ensures Shown(lines[0]) + [NEWLINE] + WholeRows(cells, 1, n) + Shown(lines[n]) == Joined(AllShown(lines[..n + 1]))
  {
    hide Shown, IsLoaded, Span;
    var all := AllShown(lines[..n + 1]);
    assert all[..n] == AllShown(lines[..n]) && all[n] == Shown(lines[n]);
    if n == 1 {
      assert all[..1] == [Shown(lines[0])];
      assert Shown(lines[0]) + [NEWLINE] + [] == Shown(lines[0]) + [NEWLINE];
    } else {
      LoadedRows(lines, cells, n - 1);
      LoadedRow(lines, cells, n - 1);
    }
  }

  /** Selecting everything that was loaded gives the lines as the canvas shows them. */
  lemma SelectLoaded(lines: seq<seq<int>>, cells: seq<u32>, col: nat)
    requires lines != [] && IsLoaded(lines, cells) && |lines| <= MAX_ROWS && |cells| >= MAX_ROWS * COLS
    requires col >= COLS - 1
    ensures Selection(cells, (0, 0), (|lines| - 1, col)) == Joined(AllShown(lines))
  {
    hide IsLoaded, Shown, Span;
    var n := |lines| - 1;
    assert lines[..n + 1] == lines;
    LoadedRow(lines, cells, 0);
    LoadedRow(lines, cells, n);
    if n > 0 {
      LoadedRows(lines, cells, n);
    }
  }

  /** Characters that fit in a cell's low byte and are not the terminator. */
  predicate Plain(s: seq<int>) {
    forall i :: 0 <= i < |s| ==> 0 < s[i] < 0x100
  }

  /** A source the canvas can hold. */
  predicate Fits(source: seq<int>) {
    Plain(source) && forall i :: 0 <= i < |Lines(source)| ==> |Lines(source)[i]| <= COLS
  }

  lemma {:induction false} UntilZeroWhole(line: seq<int>)
    ensures UntilZero(line) == line <==> Plain(line)
  {
    if line != [] {
      var rest := line[1..];
      UntilZeroWhole(rest);
      assert line == [line[0]] + rest;
      assert Plain(line) <==> 0 < line[0] < 0x100 && Plain(rest) by {
        assert forall i :: 0 <= i < |rest| ==> rest[i] == line[i + 1];
        assert Plain(rest) ==> forall i :: 0 < i < |line| ==> line[i] == rest[i - 1];
      }
      if UntilZero(line) == line {
        assert UntilZero(line)[0] == line[0] && UntilZero(line)[1..] == rest;
      }
    }
  }

  lemma ShownWhole(line: seq<int>)
    ensures Shown(line) == line <==> |line| <= COLS && Plain(line)
  {
    hide UntilZero;
    if |line| <= COLS {
      UntilZeroWhole(line);
    }
  }

  lemma JoinedExtend(lines: seq<seq<int>>, b: int)
    requires lines != []
    ensures Joined(Extend(lines, b)) == Joined(lines) + [b]
  {
    var n := |lines| - 1;
    var more := Extend(lines, b);
    if b == NEWLINE {
      assert more[..n + 1] == lines && more[n + 1] == [];
      assert Joined(lines) + [NEWLINE] + [] == Joined(lines) + [b];
    } else if n > 0 {
      assert more[..n] == lines[..n];
      assert Joined(lines[..n]) + [NEWLINE] + (lines[n] + [b]) == Joined(lines[..n]) + [NEWLINE] + lines[n] + [b];
    }
  }

  predicate AllPlain(lines: seq<seq<int>>) {
    forall i :: 0 <= i < |lines| ==> Plain(lines[i])
  }

  lemma PlainExtend(lines: seq<seq<int>>, b: int)
    requires lines != []
    ensures AllPlain(Extend(lines, b)) <==> AllPlain(lines) && 0 < b < 0x100
  {
    var n, more := |lines| - 1, Extend(lines, b);
    if b == NEWLINE {
      assert forall i :: 0 <= i <= n ==> more[i] == lines[i];
    } else {
      assert forall i :: 0 <= i < n ==> more[i] == lines[i];
      PlainSnoc(lines[n], b);
      assert more[n] == lines[n] + [b];
    }
  }

  lemma PlainSnoc(s: seq<int>, b: int)
    ensures Plain(s + [b]) <==> Plain(s) && 0 < b < 0x100
  {
    assert (s + [b])[|s|] == b;
    assert forall i :: 0 <= i < |s| ==> (s + [b])[i] == s[i];
  }

  /** Cutting a text into lines loses nothing. */
  lemma {:induction false} LinesHold(text: seq<int>)
    ensures Joined(Lines(text)) == text
    ensures AllPlain(Lines(text)) <==> Plain(text)
  {
    if text != [] {
      var t, b := text[..|text| - 1], text[|text| - 1];
      assert text == t + [b];
      LinesHold(t);
      LinesStep(t, b);
      hide Lines, Joined, AllPlain, Plain, Extend;
      JoinedExtend(Lines(t), b);
      PlainExtend(Lines(t), b);
      PlainSnoc(t, b);
    }
  }

  lemma {:induction false} JoinedShorter(a: seq<seq<int>>, b: seq<seq<int>>)
    requires a != [] && |a| == |b|
    requires forall i :: 0 <= i < |a| ==> |a[i]| <= |b[i]|
    ensures |Joined(a)| <= |Joined(b)|
    ensures Joined(a) == Joined(b) ==> a == b
  {
    var n := |a| - 1;
    assert a == a[..n] + [a[n]] && b == b[..n] + [b[n]];
    if n > 0 {
      var x, y := Joined(a[..n]), Joined(b[..n]);
      JoinedShorter(a[..n], b[..n]);
      if Joined(a) == Joined(b) {
        assert |x| == |y| && |a[n]| == |b[n]|;
        assert x == Joined(a)[..|x|] && y == Joined(b)[..|y|];
        assert a[n] == Joined(a)[|x| + 1..] && b[n] == Joined(b)[|y| + 1..];
      }
    }
  }

  /** A source of at most `MAX_ROWS` lines comes back from the canvas exactly when it fits. */
  lemma LoadThenSelect(source: seq<int>, cells: seq<u32>, col: nat)
    requires IsLoaded(Lines(source), cells) && |Lines(source)| <= MAX_ROWS && |cells| >= MAX_ROWS * COLS
    requires col >= COLS - 1
    ensures Selection(cells, (0, 0), (|Lines(source)| - 1, col)) == source <==> Fits(source)
  {
    hide Lines, IsLoaded, Selection, Shown, Joined, Plain;
    var lines := Lines(source);
    var shown := AllShown(lines);
    SelectLoaded(lines, cells, col);
    LinesHold(source);
    forall i | 0 <= i < |lines| ensures shown[i] == lines[i] <==> |lines[i]| <= COLS && Plain(lines[i])
    {
      ShownWhole(lines[i]);
    }
    assert shown == lines <==> Fits(source);
    ShownShorter(lines);
    JoinedShorter(shown, lines);
  }

  lemma ShownShorter(lines: seq<seq<int>>)
    ensures forall i :: 0 <= i < |lines| ==> |AllShown(lines)[i]| <= |lines[i]|
  {
  }

  // ---- selecting a part of a loaded source ----

  /** The source up to column `col` of line `row`. */
  function UpTo(lines: seq<seq<int>>, row: nat, col: nat): seq<int>
    requires row < |lines| && col <= |lines[row]|
  {
    (if row == 0 then [] else Joined(lines[..row]) + [NEWLINE]) + lines[row][..col]
  }

  lemma UpToEnd(lines: seq<seq<int>>, row: nat)
    requires row < |lines|
    ensures UpTo(lines, row, |lines[row]|) == Joined(lines[..row + 1])
  {
    assert lines[..row + 1][..row] == lines[..row] && lines[row][..|lines[row]|] == lines[row];
  }

  lemma {:induction false} JoinedPrefix(lines: seq<seq<int>>, n: nat)
    requires 0 < n <= |lines|
    ensures Joined(lines[..n]) <= Joined(lines)
    decreases |lines|
  {
    if n == |lines| {
      assert lines[..n] == lines;
    } else {
      var front := lines[..|lines| - 1];
      JoinedPrefix(front, n);
      assert front[..n] == lines[..n];
    }
  }

  lemma UpToPrefix(lines: seq<seq<int>>, row: nat, col: nat)
    requires row < |lines| && col <= |lines[row]|
    ensures UpTo(lines, row, col) <= Joined(lines)
  {
    hide Joined;
    UpToEnd(lines, row);
    JoinedPrefix(lines, row + 1);
    var all := UpTo(lines, row, |lines[row]|);
    assert UpTo(lines, row, col) == all[..|UpTo(lines, row, col)|];
  }

  /** Where a line fits and holds no zero, a row shows the part of it asked for. */
  lemma SpanOf(lines: seq<seq<int>>, cells: seq<u32>, row: nat, start: nat, end: nat)
    requires IsLoaded(lines, cells) && row < |lines| <= MAX_ROWS && |cells| >= MAX_ROWS * COLS
    requires Plain(lines[row]) && start <= |lines[row]| <= COLS && end <= COLS
    ensures Span(cells, row, start, end)
         == if start >= end then [] else lines[row][start..if end < |lines[row]| then end else |lines[row]|]
  {
    hide UntilZero;
    if start < end {
      var part := RowCells(cells, row)[start..end];
      var line := lines[row][start..if end < |lines[row]| then end else |lines[row]|];
      forall c | 0 <= c < |part| ensures part[c] == if c < |line| then line[c] else 0 {
        At(row, start + c);
        assert cells[row * COLS + (start + c)] == Loaded(lines, row * COLS + (start + c));
      }
      UntilZeroPadded(part, line);
      UntilZeroWhole(line);
    }
  }

  lemma {:induction false} WholeRowsOf(lines: seq<seq<int>>, cells: seq<u32>, row: nat, n: nat)
    requires IsLoaded(lines, cells) && row < n < |lines| <= MAX_ROWS && |cells| >= MAX_ROWS * COLS
    requires AllPlain(lines) && forall i :: 0 <= i < |lines| ==> |lines[i]| <= COLS
    ensures Joined(lines[..row + 1]) + [NEWLINE] + WholeRows(cells, row + 1, n) == Joined(lines[..n]) + [NEWLINE]
    decreases n
  {
    hide IsLoaded, Span, Plain;
    if n == row + 1 {
      assert Joined(lines[..n]) + [NEWLINE] + [] == Joined(lines[..n]) + [NEWLINE];
    } else {
      WholeRowsOf(lines, cells, row, n - 1);
      SpanOf(lines, cells, n - 1, 0, COLS);
      var line := lines[n - 1];
      assert line[0..|line|] == line;
      JoinedSnoc(lines, n);
      var x, y := Joined(lines[..row + 1]) + [NEWLINE], WholeRows(cells, row + 1, n - 1);
      hide Joined;
      assert x + (y + line + [NEWLINE]) == (x + y) + line + [NEWLINE];
    }
  }

  lemma JoinedSnoc(lines: seq<seq<int>>, n: nat)
    requires 1 < n <= |lines|
    ensures Joined(lines[..n]) == Joined(lines[..n - 1]) + [NEWLINE] + lines[n - 1]
  {
    assert lines[..n][..n - 1] == lines[..n - 1];
  }

  /** Selecting between two characters of a loaded source that fits gives exactly the source between them. */
  lemma SelectPart(source: seq<int>, cells: seq<u32>, a: Position, b: Position)
    requires var lines := Lines(source);
             IsLoaded(lines, cells) && |lines| <= MAX_ROWS && |cells| >= MAX_ROWS * COLS && Fits(source)
             && Before(a, b) && b.0 < |lines| && a.1 < |lines[a.0]| && b.1 < |lines[b.0]|
    ensures var lines := Lines(source);
            && UpTo(lines, b.0, b.1 + 1) == UpTo(lines, a.0, a.1) + Selection(cells, a, b)
            && UpTo(lines, b.0, b.1 + 1) <= source
  {
    hide Lines, IsLoaded, Plain, Joined, Span, WholeRows, AllPlain, UpTo;
    var lines := Lines(source);
    LinesHold(source);
    UpToPrefix(lines, b.0, b.1 + 1);
    LinePlain(lines, a.0);
    LinePlain(lines, b.0);
    if a.0 == b.0 {
      SpanOf(lines, cells, a.0, a.1, LastCol(b.1) + 1);
      RowPart(lines, a.0, a.1, b.1 + 1);
    } else {
      SpanOf(lines, cells, a.0, a.1, COLS);
      SpanOf(lines, cells, b.0, 0, LastCol(b.1) + 1);
      WholeRowsOf(lines, cells, a.0, b.0);
      UpToEnd(lines, a.0);
      PartsJoin(lines, a, b, WholeRows(cells, a.0 + 1, b.0));
    }
  }

  lemma RowPart(lines: seq<seq<int>>, row: nat, start: nat, end: nat)
    requires row < |lines| && start <= end <= |lines[row]|
    ensures UpTo(lines, row, end) == UpTo(lines, row, start) + lines[row][start..end]
  {
    assert lines[row][..end] == lines[row][..start] + lines[row][start..end];
  }

  lemma LinePlain(lines: seq<seq<int>>, i: nat)
    requires AllPlain(lines) && i < |lines|
    ensures Plain(lines[i])
  {
  }

  lemma PartsJoin(lines: seq<seq<int>>, a: Position, b: Position, middle: seq<int>)
    requires a.0 < b.0 < |lines| && a.1 < |lines[a.0]| && b.1 < |lines[b.0]|
    requires UpTo(lines, a.0, |lines[a.0]|) + [NEWLINE] + middle == Joined(lines[..b.0]) + [NEWLINE]
    ensures UpTo(lines, b.0, b.1 + 1)
         == UpTo(lines, a.0, a.1) + (lines[a.0][a.1..] + [NEWLINE] + middle + lines[b.0][..b.1 + 1])
  {
    hide Joined;
    var line, x, last := lines[a.0], UpTo(lines, a.0, a.1), lines[b.0][..b.1 + 1];
    assert UpTo(lines, a.0, |line|) == x + line[a.1..] by {
      assert line[..|line|] == line[..a.1] + line[a.1..];
    }
    assert x + (line[a.1..] + [NEWLINE] + middle + last) == (x + line[a.1..]) + [NEWLINE] + middle + last;
  }

  // ---- writing a line and reading its rows ----

  lemma {:induction false} UntilBreakPadded(cells: seq<int>, line: seq<int>)
    requires |line| <= |cells| && NEWLINE !in line && Plain(line)
    requires forall c :: 0 <= c < |cells| ==> cells[c] == if c < |line| then line[c] else 0
    ensures UntilBreak(cells) == line
  {
    if line != [] {
      var rest := line[1..];
      assert cells[0] == line[0] && line[0] in line && line[0] != NEWLINE && 0 < line[0] < 0x100;
      assert forall b <- rest :: b in line;
      UntilBreakPadded(cells[1..], rest);
      hide Plain;
      assert UntilBreak(cells) == [line[0]] + UntilBreak(cells[1..]);
    }
  }

  /** The rows a canvas shows from `row` on, one after the other. */
  function ReadRows(cells: seq<u32>, row: nat, n: nat): seq<seq<Byte>>
    requires (row + n) * COLS <= |cells|
  {
    seq(n, i requires 0 <= i < n => UntilBreak(RowCells(cells, row + i)))
  }

  /** Rows hold no newline and fit the columns; they are free of zeros exactly when the text is. */
  lemma {:induction false} LayoutRows(text: seq<Byte>)
    ensures forall i :: 0 <= i < |Layout(text)| ==> |Layout(text)[i]| <= COLS && NEWLINE !in Layout(text)[i]
    ensures AllPlain(Layout(text)) <==> Plain(text)
  {
    hide Layout, Plain, AllPlain;
    if text == [] {
      NoRows();
    } else {
      var t, b := text[..|text| - 1], text[|text| - 1];
      assert text == t + [b];
      LayoutRows(t);
      LayoutStep(t, b);
      PlaceRows(Layout(t), b);
      PlainSnoc(t, b);
    }
  }

  lemma NoRows()
    ensures Layout([]) == [[]] && AllPlain([[]]) && Plain([])
  {
  }

  lemma PlaceRows(rows: seq<seq<int>>, b: Byte)
    requires rows != [] && forall i :: 0 <= i < |rows| ==> |rows[i]| <= COLS && NEWLINE !in rows[i]
    ensures forall i :: 0 <= i < |Place(rows, b)| ==> |Place(rows, b)[i]| <= COLS && NEWLINE !in Place(rows, b)[i]
    ensures AllPlain(Place(rows, b)) <==> AllPlain(rows) && 0 < b < 0x100
  {
    var n, more := |rows| - 1, Place(rows, b);
    assert forall i :: 0 <= i < n ==> more[i] == rows[i];
    if b == NEWLINE || |rows[n]| >= COLS {
      assert more[n] == rows[n] && more[n + 1] == if b == NEWLINE then [] else [b];
      assert Plain([b]) <==> 0 < b < 0x100 by { PlainSnoc([], b); assert [] + [b] == [b]; }
    } else {
      PlainSnoc(rows[n], b);
      assert more[n] == rows[n] + [b] && |more| == |rows|;
    }
  }

  lemma {:induction false} BreakPlain(cells: seq<int>)
    ensures Plain(UntilBreak(cells))
  {
    if cells != [] {
      BreakPlain(cells[1..]);
    }
  }

  lemma {:induction false} FlatPlain(rows: seq<seq<int>>)
    requires AllPlain(rows)
    ensures Plain(Flat(rows))
  {
    if rows != [] {
      assert forall i :: 0 <= i < |rows[1..]| ==> rows[1..][i] == rows[i + 1];
      FlatPlain(rows[1..]);
    }
  }

  /**
   * A text written with room to spare changes no cell outside its rows, and reading those one by one
   * gives the rows it was laid out in exactly when it has no zero byte. Without newlines it takes
   * `max(1, ceil(n / COLS))` rows, and then their readings together are the text exactly when it has none.
   */
  lemma WriteThenRead(before: seq<u32>, row: nat, text: seq<Byte>, now: seq<u32>)
    requires |before| >= MAX_ROWS * COLS
    requires row + |Layout(text)| <= MAX_ROWS && IsWritten(before, row, Layout(text), now)
    ensures forall k :: 0 <= k < |now| && !(row <= k / COLS < row + |Layout(text)|) ==> now[k] == before[k]
    ensures ReadRows(now, row, |Layout(text)|) == Layout(text) <==> Plain(text)
    ensures NEWLINE !in text ==> |Layout(text)| == RowsNeeded(|text|)
    ensures NEWLINE !in text ==> (Flat(ReadRows(now, row, |Layout(text)|)) == text <==> Plain(text))
  {
    hide Layout, UntilBreak, IsWritten, Plain, AllPlain, RowCells, Flat, RowsNeeded;
    var rows := Layout(text);
    ElsewhereUnchanged(before, row, rows, now);
    LayoutRows(text);
    var read := ReadRows(now, row, |rows|);
    ReadPlain(now, row, |rows|);
    FlatPlain(read);
    if Plain(text) {
      forall i | 0 <= i < |rows| ensures UntilBreak(RowCells(now, row + i)) == rows[i] {
        ReadBack(before, row, rows, now, i);
      }
      assert read == rows;
    }
    if NEWLINE !in text {
      PlainLayout(text);
    }
  }

  lemma ReadPlain(cells: seq<u32>, row: nat, n: nat)
    requires (row + n) * COLS <= |cells|
    ensures AllPlain(ReadRows(cells, row, n))
  {
    hide UntilBreak, Plain;
    forall i | 0 <= i < n ensures Plain(ReadRows(cells, row, n)[i]) {
      BreakPlain(RowCells(cells, row + i));
    }
  }

  lemma ElsewhereUnchanged(before: seq<u32>, row: nat, rows: seq<seq<int>>, now: seq<u32>)
    requires IsWritten(before, row, rows, now)
    ensures |now| == |before|
    ensures forall k :: 0 <= k < |now| && !(row <= k / COLS < row + |rows|) ==> now[k] == before[k]
  {
    forall k | 0 <= k < |now| && !(row <= k / COLS < row + |rows|) ensures now[k] == before[k] {
      assert now[k] == Written(before, row, rows, k);
    }
  }

  lemma ReadBack(before: seq<u32>, row: nat, rows: seq<seq<int>>, now: seq<u32>, i: nat)
    requires |before| >= MAX_ROWS * COLS && row + |rows| <= MAX_ROWS && IsWritten(before, row, rows, now)
    requires i < |rows| && |rows[i]| <= COLS && NEWLINE !in rows[i] && AllPlain(rows)
    ensures UntilBreak(RowCells(now, row + i)) == rows[i]
  {
    hide UntilBreak;
    var r := RowCells(now, row + i);
    forall c | 0 <= c < |r| ensures r[c] == if c < |rows[i]| then rows[i][c] else 0 {
      At(row + i, c);
      assert now[(row + i) * COLS + c] == Written(before, row, rows, (row + i) * COLS + c);
    }
    UntilBreakPadded(r, rows[i]);
  }
}
