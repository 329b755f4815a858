/** The terminal's scrollback: a ring of 1024 lines that must act as the tail of everything ever pushed. */
module Scrollback {
  import opened Words

  const COLS: nat := 32
  const VISIBLE_ROWS: nat := 32
  const CAPACITY: nat := 1024

  type Line = seq<u32>

  predicate Blank(line: Line) {
    forall c <- line :: c == 0
  }

  /** Row `row` of a canvas buffer with `COLS` cells to the row. */
  function Row(buffer: seq<u32>, row: nat): (line: Line)
    requires (row + 1) * COLS <= |buffer|
    ensures |line| == COLS
  {
    buffer[row * COLS..(row + 1) * COLS]
  }

  /** The rows of `from..to` that hold something, in order. */
  function WrittenRows(buffer: seq<u32>, start: nat, end: nat): (rows: seq<Line>)
    requires end * COLS <= |buffer|
    ensures start < end ==> |rows| <= end - start
    ensures forall i :: 0 <= i < |rows| ==> !Blank(rows[i]) && |rows[i]| == COLS
    decreases end
  {
    if start >= end then []
    else WrittenRows(buffer, start, end - 1) + if Blank(Row(buffer, end - 1)) then [] else [Row(buffer, end - 1)]
  }

  lemma NoRows(buffer: seq<u32>, start: nat, end: nat)
    requires end * COLS <= |buffer| && end <= start
    ensures WrittenRows(buffer, start, end) == []
  {
  }

  lemma MoreRows(buffer: seq<u32>, start: nat, row: nat)
    requires start <= row && (row + 1) * COLS <= |buffer|
    ensures WrittenRows(buffer, start, row + 1)
         == WrittenRows(buffer, start, row) + if Blank(Row(buffer, row)) then [] else [Row(buffer, row)]
  {
  }

  /** A row is taken, whole, exactly when one of its 32 cells is not zero. */
  lemma RowTaken(buffer: seq<u32>, row: nat)
    requires (row + 1) * 32 <= |buffer|
    ensures var line := buffer[row * 32..row * 32 + 32];
            WrittenRows(buffer, row, row + 1) == if exists c :: 0 <= c < 32 && line[c] != 0 then [line] else []
  {
    NoRows(buffer, row, row);
    MoreRows(buffer, row, row);
    var line := buffer[row * 32..row * 32 + 32];
    assert Row(buffer, row) == line;
    BlankExact(line);
    hide WrittenRows, Row, Blank;
  }

  lemma BlankExact(line: Line)
    ensures Blank(line) <==> forall c :: 0 <= c < |line| ==> line[c] == 0
  {
    if forall c :: 0 <= c < |line| ==> line[c] == 0 {
      forall x <- line ensures x == 0 {
        var c :| 0 <= c < |line| && line[c] == x;
      }
    }
    if Blank(line) {
      forall c | 0 <= c < |line| ensures line[c] == 0 {
        assert line[c] in line;
      }
    }
  }

  /** Rows are taken one after the other. */
  lemma {:induction false} RowsTaken(buffer: seq<u32>, start: nat, mid: nat, end: nat)
    requires start <= mid <= end && end * COLS <= |buffer|
    ensures WrittenRows(buffer, start, end) == WrittenRows(buffer, start, mid) + WrittenRows(buffer, mid, end)
    decreases end
  {
    hide Blank, Row;
    if mid < end {
      RowsTaken(buffer, start, mid, end - 1);
    }
  }

  function Min(a: nat, b: nat): nat {
    if a < b then a else b
  }

  /** The newest `CAPACITY` lines. */
  function Kept(history: seq<Line>): (kept: seq<Line>)
    ensures |kept| == Min(|history|, CAPACITY)
  {
    history[|history| - Min(|history|, CAPACITY)..]
  }

  /** Where line `i`, counted from the oldest, sits in the ring. */
  function Slot(oldest: nat, i: nat): (slot: nat)
    ensures slot < CAPACITY
  {
    (oldest + i) % CAPACITY
  }

  lemma SlotsDiffer(oldest: nat, i: nat, j: nat)
    requires i < j < i + CAPACITY
    ensures Slot(oldest, i) != Slot(oldest, j)
  {
  }

  lemma SlotMoves(oldest: nat, i: nat)
    ensures Slot(Slot(oldest, 1), i) == Slot(oldest, i + 1)
  {
  }

  /** The ring, read from slot `oldest` on, is `kept`. */
  predicate Holds(ring: seq<Line>, oldest: nat, kept: seq<Line>) {
    |ring| == CAPACITY && forall i :: 0 <= i < |kept| ==> ring[Slot(oldest, i)] == kept[i]
  }

  lemma SlotIs(oldest: nat, i: nat)
    ensures Slot(oldest, i) == (oldest + i) % CAPACITY
  {
  }

  /** The copy into one slot of the ring. */
  method SetSlot(lines: array<Line>, idx: nat, line: Line)
    requires idx < lines.Length
    modifies lines
    ensures lines[..] == old(lines[..])[idx := line]
  {
    lines[idx] := line;
  }

  class ScrollbackBuffer {
    const lines: array<Line>
    var totalWritten: nat
    var oldest: nat
    var count: nat
    ghost var history: seq<Line>

    /** The ring holds exactly the newest lines of the history. */
    ghost predicate Valid()
      reads this, lines
    {
      && lines.Length == CAPACITY && oldest < CAPACITY
      && totalWritten == |history| && count == |Kept(history)|
      && (forall line <- history :: |line| == COLS)
      && Holds(lines[..], oldest, Kept(history))
    }

    constructor ()
      ensures Valid() && history == [] && fresh(lines)
    {
      lines := new Line[CAPACITY](_ => seq(COLS, _ => 0));
      totalWritten := 0;
      oldest := 0;
      count := 0;
      history := [];
    }

    method PushLine(line: seq<u32>)
      requires Valid() && |line| >= COLS
      modifies this, lines
      ensures Valid() && history == old(history) + [line[..COLS]]
    {
      hide Slot, Kept, Holds;
      var idx := (oldest + count) % CAPACITY;
      SlotIs(oldest, count);
      SlotIs(oldest, 1);
      Overwritten(history, line[..COLS], lines[..], oldest, count);
      SetSlot(lines, idx, line[..COLS]);
      history := history + [line[..COLS]];
      if count < CAPACITY {
        count := count + 1;
      } else {
        oldest := (oldest + 1) % CAPACITY;
      }
      totalWritten := totalWritten + 1;
    }

    method PushCanvasRows(buffer: seq<u32>, startRow: nat, endRow: nat)
      requires Valid()
      modifies this, lines
      ensures Valid()
      ensures history == old(history) + WrittenRows(buffer, startRow, Min(endRow, |buffer| / COLS))
    {
      hide Valid, WrittenRows, Blank, Row;
      var maxRow := |buffer| / COLS;
      var end := if endRow < maxRow then endRow else maxRow;
      var row := startRow;
      NoRows(buffer, startRow, Min(row, end));
      while row < end
        invariant Valid()
        invariant startRow <= row && (row <= end || row == startRow)
        invariant history == old(history) + WrittenRows(buffer, startRow, Min(row, end))
      {
        MoreRows(buffer, startRow, row);
        var content := HasContent(buffer, row);
        if content {
          PushLine(Row(buffer, row));
          assert Row(buffer, row)[..COLS] == Row(buffer, row);
        }
        row := row + 1;
      }
    }

    /** `get_line`: 0 is the oldest line still in the ring. */
    method GetLine(index: nat) returns (r: Option<Line>)
      requires Valid()
      ensures r == if index < |Kept(history)| then Some(Kept(history)[index]) else None
    {
      if index >= count {
        return None;
      }
      assert Slot(oldest, index) == (oldest + index) % CAPACITY;
      return Some(lines[(oldest + index) % CAPACITY]);
    }

    method GetPage(scrollOffset: nat) returns (page: seq<Line>)
      requires Valid()
      ensures page == Page(Kept(history), scrollOffset)
    {
      hide Valid, Kept;
      page := [];
      for i := 0 to VISIBLE_ROWS
        invariant |page| == i
        invariant i > 0 ==> scrollOffset + i <= |Kept(history)|
        invariant forall j :: 0 <= j < i ==> page[j] == Kept(history)[scrollOffset + j]
      {
        var line := GetLine(scrollOffset + i);
        if line.None? {
          break;
        }
        page := page + [line.value];
      }
    }

    method MaxScroll() returns (n: nat)
      requires Valid()
      ensures n + |Page(Kept(history), n)| == |Kept(history)|
      ensures forall m :: 0 <= m < n ==> m + |Page(Kept(history), m)| < |Kept(history)|
    {
      if count > VISIBLE_ROWS {
        return count - VISIBLE_ROWS;
      } else {
        return 0;
      }
    }
  }

  /** What a screen shows when scrolled to `offset`. */
  function Page(kept: seq<Line>, offset: nat): seq<Line> {
    if offset >= |kept| then [] else kept[offset..Min(offset + VISIBLE_ROWS, |kept|)]
  }

  method HasContent(buffer: seq<u32>, row: nat) returns (content: bool)
    requires (row + 1) * COLS <= |buffer|
    ensures content <==> !Blank(Row(buffer, row))
  {
    var line := Row(buffer, row);
    for col := 0 to COLS
      invariant forall c :: 0 <= c < col ==> line[c] == 0
    {
      if buffer[row * COLS + col] != 0 {
        assert line[col] != 0 && line[col] in line;
        return true;
      }
      assert line[col] == 0;
    }
    return false;
  }

  /** One more line drops the oldest one once the ring is full. */
  lemma PushKept(history: seq<Line>, line: Line)
    ensures Kept(history + [line])
         == (if |history| < CAPACITY then Kept(history) else Kept(history)[1..]) + [line]
  {
  }

  /** Writing after the newest line, over the oldest one if the ring is full, gives the ring of the longer history. */
  lemma Overwritten(history: seq<Line>, line: Line, ring: seq<Line>, oldest: nat, count: nat)
    requires |ring| == CAPACITY && oldest < CAPACITY && count == |Kept(history)|
    requires Holds(ring, oldest, Kept(history))
    ensures var first := if count < CAPACITY then oldest else Slot(oldest, 1);
            var kept := Kept(history + [line]);
            && |kept| == (if count < CAPACITY then count + 1 else count)
            && Holds(ring[Slot(oldest, count) := line], first, kept)
  {
    PushKept(history, line);
    var first := if count < CAPACITY then oldest else Slot(oldest, 1);
    var kept := Kept(history + [line]);
    hide Slot, Kept;
    forall i | 0 <= i < |kept| ensures ring[Slot(oldest, count) := line][Slot(first, i)] == kept[i] {
      var j := if count < CAPACITY then i else i + 1;
      SlotMoves(oldest, i);
      assert Slot(first, i) == Slot(oldest, j);
      if j < count {
        SlotsDiffer(oldest, j, count);
      }
    }
  }

  /** Whatever is pushed in between, a line is readable for as long as fewer than 1024 lines follow it. */
  lemma LineSurvives(history: seq<Line>, line: Line, later: seq<Line>)
    ensures |later| < 1024 <==>
      |Kept(history + [line] + later)| > |later|
    ensures |later| < 1024 ==>
      var kept := Kept(history + [line] + later);
      kept[|kept| - |later| - 1] == line
  {
  }

  /** Scrolled to the end, the screen shows the newest lines ever pushed. */
  lemma LastPage(history: seq<Line>, n: nat)
    requires n + |Page(Kept(history), n)| == |Kept(history)|
    requires forall m :: 0 <= m < n ==> m + |Page(Kept(history), m)| < |Kept(history)|
    ensures Page(Kept(history), n) == history[|history| - Min(|history|, 32)..]
  {
    var kept := Kept(history);
    var top := |kept| - Min(|kept|, VISIBLE_ROWS);
    assert top + |Page(kept, top)| == |kept|;
    assert n == top;
  }
}
