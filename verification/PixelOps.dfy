/** The guest library's file operations, in place on the surface. */
module PixelOps {
  import opened Words
  import opened PixelFs

  // ---- What each operation makes of the surface ----

  function At(data: seq<byte>, k: nat): byte {
    if k < |data| then data[k] else 0
  }

  /** Four bytes of `data` from `4 * i` on, zero-padded. */
  function PackAt(data: seq<byte>, i: nat): u32 {
    Pack(At(data, 4 * i), At(data, 4 * i + 1), At(data, 4 * i + 2), At(data, 4 * i + 3))
  }

  function CreateCell(px: Surface, row: nat, name: Name, data: seq<byte>, c: nat): u32
    requires row < 256 && px[1] < MAX_FILES && c < CELLS
  {
    var start, base := row * COLS, row * COLS + GUEST_COL;
    if c == 1 then px[1] + 1
    else if c == 2 + px[1] then Entry(row, Hash16(name))
    else if c == start then Header(|data|, Hash16(name) % 256, 3)
    else if start < c <= start + |name| then name[c - start - 1]
    else if base <= c < base + CellCount(|data|) then PackAt(data, c - base)
    else px[c]
  }

  function CreateImage(px: Surface, row: nat, name: Name, data: seq<byte>): Surface
    requires row < 256 && px[1] < MAX_FILES
  {
    seq(CELLS, c requires 0 <= c < CELLS => CreateCell(px, row, name, data, c))
  }

  /** Byte `j` of cell `i` of a file of `count` bytes held there as `was`, once `data` follows them. */
  function MergedByte(was: u32, data: seq<byte>, count: nat, i: nat, j: nat): byte {
    var k := 4 * i + j;
    if k < count then ByteAt(was, j) else At(data, k - count)
  }

  function Merged(was: u32, data: seq<byte>, count: nat, i: nat): u32 {
    Pack(MergedByte(was, data, count, i, 0), MergedByte(was, data, count, i, 1),
         MergedByte(was, data, count, i, 2), MergedByte(was, data, count, i, 3))
  }

  function AppendCell(px: Surface, row: nat, data: seq<byte>, c: nat): u32
    requires row < 256 && c < CELLS
  {
    var h := px[row * COLS];
    var base := row * COLS + DataCol(IsGuest(h));
    if c == row * COLS then Header(High(h) + |data|, h / 256 % 256, h % 256)
    else if base <= c < base + CellCount(High(h) + |data|) then Merged(px[c], data, High(h), c - base)
    else px[c]
  }

  function AppendImage(px: Surface, row: nat, data: seq<byte>): Surface
    requires row < 256
  {
    seq(CELLS, c requires 0 <= c < CELLS => AppendCell(px, row, data, c))
  }

  /** The i-th directory entry. */
  function Slot(px: Surface, i: nat): u32
    requires i < MAX_FILES
  {
    px[2 + i]
  }

  function UnlinkCell(px: Surface, i: nat, c: nat): u32
    requires i < px[1] <= MAX_FILES && c < CELLS
  {
    var n := px[1];
    if c == 1 then n - 1
    else if 2 + i <= c < 2 + n - 1 then px[c + 1]
    else if c == 2 + n - 1 then 0
    else if c == High(Slot(px, i)) * COLS then px[c] - px[c] % 2
    else px[c]
  }

  function UnlinkImage(px: Surface, i: nat): Surface
    requires i < px[1] <= MAX_FILES
  {
    seq(CELLS, c requires 0 <= c < CELLS => UnlinkCell(px, i, c))
  }

  /** First bytes of the file at `row`, as many as there are and the buffer takes. */
  function ReadBytes(px: Surface, row: nat, room: nat): seq<byte>
    requires row < 256
  {
    var h := px[row * COLS];
    var base := row * COLS + DataCol(IsGuest(h));
    seq(Min(High(h), room), k requires 0 <= k => ByteAt(Cell(px, base + k / 4), k % 4))
  }

  // ---- The directory scans ----

  /** A surface with a well-formed directory: what the scans below read stays in range. */
  predicate DirOk(px: Surface) {
    px[1] <= MAX_FILES && forall i :: 0 <= i < px[1] ==> High(Slot(px, i)) < 256
  }

  /** Row of the first valid entry from `i` on with this hash, or 0. */
  function FindFrom(px: Surface, hash: nat, i: nat): nat
    requires DirOk(px)
    decreases px[1] - i
  {
    if i >= px[1] then 0
    else
      var e := Slot(px, i);
      if Low(e) == hash && High(e) > 0 && IsValid(px[High(e) * COLS]) then High(e) else FindFrom(px, hash, i + 1)
  }

  /** First entry from `i` on with a row and this hash, or the entry count. */
  function EntryFrom(px: Surface, hash: nat, i: nat): nat
    requires DirOk(px)
    decreases px[1] - i
  {
    if i >= px[1] then px[1]
    else if High(Slot(px, i)) != 0 && Low(Slot(px, i)) == hash then i
    else EntryFrom(px, hash, i + 1)
  }

  /** First row after the valid files among the first `i` entries. */
  function FreeUpTo(px: Surface, i: nat): nat
    requires DirOk(px) && i <= px[1]
  {
    if i == 0 then 1
    else
      var r, sr := FreeUpTo(px, i - 1), High(Slot(px, i - 1));
      var h := px[sr * COLS];
      var end := sr + RowSpan(GUEST_COL, High(h));
      if sr == 0 || !IsValid(h) || end <= r then r else end
  }

  method Find(px: array<u32>, name: Name) returns (row: nat)
    requires px.Length == CELLS && DirOk(px[..])
    ensures row == FindFrom(px[..], Hash16(name), 0)
  {
    var count := px[1];
    var hash := ComputeFnv1a(name);
    var i := 0;
    while i < count && i < MAX_FILES
      invariant 0 <= i <= count
      invariant FindFrom(px[..], Hash16(name), i) == FindFrom(px[..], Hash16(name), 0)
    {
      var entry := px[2 + i];
      assert Slot(px[..], i) == entry;
      if Low(entry) == Low(hash) {
        var sr := High(entry);
        if sr > 0 && sr < 256 {
          var header := px[sr * COLS];
          if IsValid(header) { return sr; }
        }
      }
      i := i + 1;
    }
    row := 0;
  }

  method ScanFreeRow(px: array<u32>) returns (freeRow: nat)
    requires px.Length == CELLS && DirOk(px[..])
    ensures freeRow == FreeUpTo(px[..], px[1])
  {
    var count := px[1];
    freeRow := 1;
    for i := 0 to count
      invariant freeRow == FreeUpTo(px[..], i)
    {
      assert Slot(px[..], i) == px[2 + i];
      var sr := High(px[2 + i]);
      if sr == 0 { continue; }
      var header := px[sr * COLS];
      if !IsValid(header) { continue; }
      var end := sr + RowSpan(GUEST_COL, High(header));
      if end > freeRow {
        freeRow := end;
      }
    }
  }

  // ---- The scans on a well-formed surface ----

  lemma RepDir(px: Surface, files: seq<File>)
    requires Rep(px, files)
    ensures DirOk(px) && px[1] == |files|
    ensures forall i :: 0 <= i < |files| ==>
              && High(Slot(px, i)) == files[i].row && Low(Slot(px, i)) == files[i].hash && 1 <= files[i].row < 256
              && High(px[files[i].row * COLS]) == |files[i].bytes| && IsValid(px[files[i].row * COLS])
              && IsGuest(px[files[i].row * COLS]) == files[i].guest
  {
    forall i | 0 <= i < |files|
      ensures && High(Slot(px, i)) == files[i].row && Low(Slot(px, i)) == files[i].hash && 1 <= files[i].row < 256
              && High(px[files[i].row * COLS]) == |files[i].bytes| && IsValid(px[files[i].row * COLS])
              && IsGuest(px[files[i].row * COLS]) == files[i].guest
    {
      var f := files[i];
      RowInRange(f);
      assert Listed(px, i, f);
      EntryFields(f.row, f.hash);
      HeaderFields(|f.bytes|, f.hash % 256, f.guest);
    }
  }

  lemma RowInRange(f: File)
    requires FileOk(f)
    ensures f.row < 256 && Base(f) + CellCount(|f.bytes|) <= End(f) * COLS <= CELLS
  {
  }

  lemma {:induction false} RepFree(px: Surface, files: seq<File>, i: nat)
    requires Rep(px, files) && i <= |files|
    ensures DirOk(px) && px[1] == |files| && FreeUpTo(px, i) == FreeRow(files[..i])
  {
    hide Rep;
    RepDir(px, files);
    if i > 0 {
      RepFree(px, files, i - 1);
      assert files[..i][..i - 1] == files[..i - 1];
    }
  }

  /** The row a lookup yields: that of the first file with the hash. */
  lemma {:induction false} RepFind(px: Surface, files: seq<File>, hash: nat, i: nat)
    requires Rep(px, files) && i <= |files|
    ensures DirOk(px) && px[1] == |files|
    ensures var k := i + IndexOf(files[i..], hash);
            && FindFrom(px, hash, i) == (if k < |files| then files[k].row else 0)
            && EntryFrom(px, hash, i) == k
    decreases |files| - i
  {
    hide Rep;
    RepDir(px, files);
    if i < |files| {
      RepFind(px, files, hash, i + 1);
      assert files[i..][1..] == files[i + 1..];
    }
  }

  // ---- The operations ----

  /** The cell with only its first `j` bytes in place. */
  function UpTo(b0: byte, b1: byte, b2: byte, b3: byte, j: nat): u32 {
    if j == 0 then 0
    else if j == 1 then Pack(b0, 0, 0, 0)
    else if j == 2 then Pack(b0, b1, 0, 0)
    else if j == 3 then Pack(b0, b1, b2, 0)
    else Pack(b0, b1, b2, b3)
  }

  /** Or-ing in a shifted byte puts the next byte in place. */
  lemma OneMore(b0: byte, b1: byte, b2: byte, b3: byte, j: nat, b: byte)
    requires j < 4 && b == (if j == 0 then b0 else if j == 1 then b1 else if j == 2 then b2 else b3)
    ensures UpTo(b0, b1, b2, b3, j + 1) == UpTo(b0, b1, b2, b3, j) + Shifted(b, j)
    ensures Shifted(0, j) == 0
    ensures UpTo(b0, b1, b2, b3, 0) == 0 && UpTo(b0, b1, b2, b3, 4) == Pack(b0, b1, b2, b3)
  {
  }

  lemma AtIs(data: seq<byte>, k: nat)
    ensures At(data, k) == if k < |data| then data[k] else 0
  {
  }

  /** Builds one cell byte by byte. */
  method PackCell(data: seq<byte>, i: nat) returns (pixel: u32)
    ensures pixel == PackAt(data, i)
  {
    hide UpTo, Pack, Shifted, At;
    ghost var b0, b1, b2, b3 := At(data, 4 * i), At(data, 4 * i + 1), At(data, 4 * i + 2), At(data, 4 * i + 3);
    OneMore(b0, b1, b2, b3, 0, b0);
    pixel := 0;
    for j := 0 to 4
      invariant pixel == UpTo(b0, b1, b2, b3, j)
    {
      var idx := i * 4 + j;
      OneMore(b0, b1, b2, b3, j, At(data, idx));
      AtIs(data, idx);
      if idx < |data| {
        pixel := pixel + Shifted(data[idx], j);
      }
    }
  }

  /** Writes the packed bytes of a new file. */
  method WriteData(px: array<u32>, base: nat, data: seq<byte>)
    requires px.Length == CELLS && base + CellCount(|data|) <= CELLS
    modifies px
    ensures forall c :: 0 <= c < CELLS ==>
              px[c] == if base <= c < base + CellCount(|data|) then PackAt(data, c - base) else old(px[c])
  {
    hide PackAt, CellCount;
    var pc := CellCount(|data|);
    for i := 0 to pc
      invariant forall c :: 0 <= c < CELLS ==>
                  px[c] == if base <= c < base + i then PackAt(data, c - base) else old(px[c])
    {
      var pixel := PackCell(data, i);
      px[base + i] := pixel;
    }
  }

  /** The writes of `vfs_create`, in its order. */
  method WriteFile(px: array<u32>, row: nat, name: Name, data: seq<byte>)
    requires px.Length == CELLS && 1 <= row < 255 && 1 <= |name| <= 63 && px[1] < MAX_FILES
    requires row * COLS + GUEST_COL + CellCount(|data|) <= CELLS
    modifies px
    ensures px[..] == CreateImage(old(px[..]), row, name, data)
  {
    hide PackAt, CellCount, Header, Entry, Fnv1a;
    var count := px[1];
    ghost var before: Surface := px[..];
    var hash := ComputeFnv1a(name);
    for i := 0 to |name|
      invariant forall c :: 0 <= c < CELLS ==>
                  px[c] == if row * COLS < c <= row * COLS + i then name[c - row * COLS - 1] else before[c]
    {
      px[row * COLS + 1 + i] := name[i];
    }
    px[row * COLS] := Header(|data|, hash % 256, 3);
    WriteData(px, row * COLS + GUEST_COL, data);
    px[2 + count] := Entry(row, Low(hash));
    px[1] := count + 1;
    LowByte(hash);
    hide Low, ByteAt;
    assert forall c :: 0 <= c < CELLS ==> px[..][c] == CreateCell(before, row, name, data, c);
  }

  /** `vfs_create`. The caller's part: the file fits below row 256. */
  method Create(px: array<u32>, name: Name, data: seq<byte>, ghost files: seq<File>) returns (row: nat)
    requires px.Length == CELLS && Rep(px[..], files)
    requires CreateRow(files, name) != 0 ==> CreateRow(files, name) * COLS + GUEST_COL + CellCount(|data|) <= CELLS
    modifies px
    ensures row == CreateRow(files, name)
    ensures px[..] == if row == 0 then old(px[..]) else CreateImage(old(px[..]), row, name, data)
  {
    hide CreateImage, CellCount, FreeRow, Rep;
    RepDir(px[..], files);
    RepFree(px[..], files, |files|);
    assert files[..|files|] == files;
    if name == [] || |name| > 63 { return 0; }
    if px[1] >= MAX_FILES { return 0; }
    var freeRow := ScanFreeRow(px);
    if freeRow == 0 || freeRow >= 255 { return 0; }
    WriteFile(px, freeRow, name, data);
    return freeRow;
  }

  /** `vfs_read`. Only the bytes reported as read are stored in the buffer. */
  method Read(px: array<u32>, name: Name, buf: array<byte>, ghost files: seq<File>) returns (n: int)
    requires px.Length == CELLS && Rep(px[..], files)
    modifies buf
    ensures var i := IndexOf(files, Hash16(name));
            if i == |files| then n == -1 && buf[..] == old(buf[..])
            else n == Min(|files[i].bytes|, buf.Length) && buf[..] == files[i].bytes[..n] + old(buf[n..])
  {
    hide FindFrom, Rep, IndexOf, Fnv1a;
    RepDir(px[..], files);
    RepFind(px[..], files, Hash16(name), 0);
    assert files[0..] == files;
    ghost var i := IndexOf(files, Hash16(name));
    var sr := Find(px, name);
    if sr == 0 { return -1; }
    var header := px[sr * COLS];
    var dc := if IsGuest(header) then GUEST_COL else HOST_COL;
    var toRead := Min(High(header), buf.Length);
    ghost var f := files[i];
    BytesStored(px[..], files, i);
    RowInRange(f);
    var pc := CellCount(toRead);
    for c := 0 to pc
      invariant forall k :: 0 <= k < buf.Length ==> buf[k] == if k < Min(4 * c, toRead) then f.bytes[k] else old(buf[k])
    {
      UnpackCell(px[sr * COLS + dc + c], c, toRead, buf);
    }
    n := toRead;
  }

  /** Stores the bytes of one cell that the read covers. */
  method UnpackCell(pixel: u32, c: nat, toRead: nat, buf: array<byte>)
    requires toRead <= buf.Length
    modifies buf
    ensures forall k :: 0 <= k < buf.Length ==>
              buf[k] == if k / 4 == c && k < toRead then ByteAt(pixel, k % 4) else old(buf[k])
  {
    for j := 0 to 4
      invariant forall k :: 0 <= k < buf.Length ==>
                  buf[k] == if 4 * c <= k < 4 * c + j && k < toRead then ByteAt(pixel, k - 4 * c) else old(buf[k])
    {
      var idx := c * 4 + j;
      if idx < toRead {
        buf[idx] := ByteAt(pixel, j);
      }
    }
  }

  lemma BytesStored(px: Surface, files: seq<File>, i: nat)
    requires Rep(px, files) && i < |files|
    ensures FileOk(files[i])
    ensures forall k :: 0 <= k < |files[i].bytes| ==> ByteAt(Cell(px, Base(files[i]) + k / 4), k % 4) == files[i].bytes[k]
  {
    assert Listed(px, i, files[i]);
  }

  lemma MergedByteIs(was: u32, data: seq<byte>, count: nat, i: nat, j: nat)
    ensures var k := 4 * i + j;
            MergedByte(was, data, count, i, j) ==
            if k < count then ByteAt(was, j) else if k < count + |data| then data[k - count] else 0
  {
  }

  /** Builds one cell of a grown file from its old contents and the appended bytes. */
  method MergeCell(was: u32, data: seq<byte>, count: nat, i: nat) returns (pixel: u32)
    ensures pixel == Merged(was, data, count, i)
  {
    hide UpTo, Pack, Shifted, ByteAt, MergedByte;
    ghost var b0, b1 := MergedByte(was, data, count, i, 0), MergedByte(was, data, count, i, 1);
    ghost var b2, b3 := MergedByte(was, data, count, i, 2), MergedByte(was, data, count, i, 3);
    OneMore(b0, b1, b2, b3, 0, b0);
    pixel := 0;
    for j := 0 to 4
      invariant pixel == UpTo(b0, b1, b2, b3, j)
    {
      var idx := i * 4 + j;
      OneMore(b0, b1, b2, b3, j, MergedByte(was, data, count, i, j));
      MergedByteIs(was, data, count, i, j);
      if idx >= count && idx < count + |data| {
        pixel := pixel + Shifted(data[idx - count], j);
      } else if idx < count {
        pixel := pixel + Shifted(ByteAt(was, j), j);
      }
    }
  }

  /** `vfs_append`. The caller's part: the grown file stays on the surface. */
  method Append(px: array<u32>, name: Name, data: seq<byte>, ghost files: seq<File>) returns (n: int)
    requires px.Length == CELLS && Rep(px[..], files)
    requires var i := IndexOf(files, Hash16(name));
             i < |files| ==> Base(files[i]) + CellCount(|files[i].bytes| + |data|) <= CELLS
    modifies px
    ensures var i := IndexOf(files, Hash16(name));
            if i == |files| then n == -1 && px[..] == old(px[..])
            else n == |data| && files[i].row < 256 && px[..] == AppendImage(old(px[..]), files[i].row, data)
  {
    hide FindFrom, Rep, IndexOf, Fnv1a, Merged, CellCount, Header;
    RepDir(px[..], files);
    RepFind(px[..], files, Hash16(name), 0);
    assert files[0..] == files;
    ghost var before: Surface := px[..];
    var sr := Find(px, name);
    if sr == 0 { return -1; }
    var header := px[sr * COLS];
    var bc := High(header);
    var base := sr * COLS + if IsGuest(header) then GUEST_COL else HOST_COL;
    var pc := CellCount(bc + |data|);
    for i := 0 to pc
      invariant forall c :: 0 <= c < CELLS ==>
                  px[c] == if base <= c < base + i then Merged(before[c], data, bc, c - base) else before[c]
    {
      var pixel := MergeCell(px[base + i], data, bc, i);
      px[base + i] := pixel;
    }
    px[sr * COLS] := Header(bc + |data|, header / 256 % 256, header % 256);
    assert forall c :: 0 <= c < CELLS ==> px[..][c] == AppendCell(before, sr, data, c);
    n := |data|;
  }

  /** Moves the later directory entries down by one. */
  method CloseGap(px: array<u32>, i: nat, count: nat)
    requires px.Length == CELLS && i < count <= MAX_FILES
    modifies px
    ensures forall c :: 0 <= c < CELLS ==> px[c] == if 2 + i <= c < 2 + count - 1 then old(px[c + 1]) else old(px[c])
  {
    for j := i to count - 1
      invariant forall c :: 0 <= c < CELLS ==> px[c] == if 2 + i <= c < 2 + j then old(px[c + 1]) else old(px[c])
    {
      px[2 + j] := px[2 + j + 1];
    }
  }

  /** `vfs_unlink`. */
  method Unlink(px: array<u32>, name: Name, ghost files: seq<File>) returns (n: int)
    requires px.Length == CELLS && Rep(px[..], files)
    modifies px
    ensures var i := IndexOf(files, Hash16(name));
            if i == |files| then n == -1 && px[..] == old(px[..])
            else n == 0 && i < old(px[1]) <= MAX_FILES && px[..] == UnlinkImage(old(px[..]), i)
  {
    hide Rep, IndexOf, Fnv1a;
    RepDir(px[..], files);
    RepFind(px[..], files, Hash16(name), 0);
    assert files[0..] == files;
    ghost var before: Surface := px[..];
    var count := px[1];
    var hash := ComputeFnv1a(name);
    for i := 0 to count
      invariant px[..] == before
      invariant EntryFrom(before, Hash16(name), i) == EntryFrom(before, Hash16(name), 0)
    {
      var entry := px[2 + i];
      assert Slot(before, i) == entry;
      var sr := High(entry);
      if sr == 0 { continue; }
      if Low(entry) != Low(hash) { continue; }
      var header := px[sr * COLS];
      px[sr * COLS] := header - header % 2;
      CloseGap(px, i, count);
      px[2 + count - 1] := 0;
      px[1] := count - 1;
      assert forall c :: 0 <= c < CELLS ==> px[..][c] == UnlinkCell(before, i, c);
      return 0;
    }
    n := -1;
  }
}
