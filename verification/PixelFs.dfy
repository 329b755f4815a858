/** Files kept as pixels: a directory row and packed file data in a 256 x 256 array of words. */
module PixelFs {
  import opened Words

  const COLS: nat := 256
  const CELLS: nat := 0x10000
  const MAX_FILES: nat := 254
  const GUEST_COL: nat := 64
  const HOST_COL: nat := 1

  type byte = x: int | 0 <= x < 256

  type Name = s: seq<byte> | forall b <- s :: b != 0
    witness []

  // ---- Words built from fields ----

  /** Directory entry: start row in the upper half, name hash in the lower. */
  function Entry(row: nat, hash: nat): u32
    requires row < 0x1_0000 && hash < 0x1_0000
  {
    row * 0x1_0000 + hash
  }

  /** File header: byte count, eight bits of the hash, flags. */
  function Header(count: nat, hash8: nat, flags: nat): u32
    requires hash8 < 256 && flags < 256
  {
    (count % 0x1_0000) * 0x1_0000 + hash8 * 256 + flags
  }

  function High(w: u32): nat {
    w / 0x1_0000
  }

  function Low(w: u32): nat {
    w % 0x1_0000
  }

  predicate IsValid(h: u32) {
    h % 2 == 1
  }

  predicate IsGuest(h: u32) {
    h / 2 % 2 == 1
  }

  /** A byte shifted to position `j` of its word. */
  function Shifted(b: byte, j: nat): u32 {
    if j == 0 then b else if j == 1 then b * 0x100 else if j == 2 then b * 0x1_0000 else b * 0x100_0000
  }

  function ByteAt(w: u32, j: nat): byte {
    (if j == 0 then w else if j == 1 then w / 0x100 else if j == 2 then w / 0x1_0000 else w / 0x100_0000) % 256
  }

  function Pack(b0: byte, b1: byte, b2: byte, b3: byte): u32 {
    b0 + 0x100 * b1 + 0x1_0000 * b2 + 0x100_0000 * b3
  }

  lemma Split8(lo: nat, hi: nat)
    requires lo < 256
    ensures (lo + 256 * hi) / 256 == hi && (lo + 256 * hi) % 256 == lo
  {
  }

  lemma Split16(lo: nat, hi: nat)
    requires lo < 0x1_0000
    ensures (lo + 0x1_0000 * hi) / 0x1_0000 == hi && (lo + 0x1_0000 * hi) % 0x1_0000 == lo
  {
  }

  lemma Split24(lo: nat, hi: nat)
    requires lo < 0x100_0000
    ensures (lo + 0x100_0000 * hi) / 0x100_0000 == hi
  {
  }

  lemma PackBytes(b0: byte, b1: byte, b2: byte, b3: byte)
    ensures ByteAt(Pack(b0, b1, b2, b3), 0) == b0
    ensures ByteAt(Pack(b0, b1, b2, b3), 1) == b1
    ensures ByteAt(Pack(b0, b1, b2, b3), 2) == b2
    ensures ByteAt(Pack(b0, b1, b2, b3), 3) == b3
  {
    var hi := b2 + 256 * b3;
    Split8(b0, b1 + 256 * hi);
    Split8(b1, hi);
    Split16(b0 + 256 * b1, hi);
    Split8(b2, b3);
    Split24(b0 + 256 * b1 + 0x1_0000 * b2, b3);
  }

  lemma HeaderFields(count: nat, hash8: nat, guest: bool)
    requires hash8 < 256 && count < 0x1_0000
    ensures var h := Header(count, hash8, Flags(guest));
            High(h) == count && IsValid(h) && IsGuest(h) == guest && h / 256 % 256 == hash8 && h % 256 == Flags(guest)
  {
    var f := Flags(guest);
    Split16(256 * hash8 + f, count);
    Split8(f, hash8 + 256 * count);
    Split8(hash8, count);
  }

  function Flags(guest: bool): nat {
    if guest then 3 else 1
  }

  // ---- The name hash ----

  function FnvStep(h: bv32, b: byte): bv32 {
    (h ^ (b as bv32)) * 0x01000193
  }

  function FnvFrom(h: bv32, name: seq<byte>): bv32
    decreases |name|
  {
    if name == [] then h else FnvFrom(FnvStep(h, name[0]), name[1..])
  }

  function Fnv1a(name: seq<byte>): u32 {
    FnvFrom(0x811c9dc5, name) as int
  }

  method ComputeFnv1a(name: seq<byte>) returns (r: u32)
    ensures r == Fnv1a(name)
  {
    hide FnvStep;
    var h: bv32 := 0x811c9dc5;
    var i := 0;
    while i < |name|
      invariant i <= |name|
      invariant FnvFrom(h, name[i..]) == FnvFrom(0x811c9dc5, name)
    {
      assert name[i..][1..] == name[i + 1..];
      h := FnvStep(h, name[i]);
      i := i + 1;
    }
    r := h as int;
  }

  function Hash16(name: seq<byte>): nat {
    Low(Fnv1a(name))
  }

  // ---- Files and their layout ----

  /** A stored file: name hash, first row, where its data begin, and its bytes. */
  datatype File = File(hash: nat, row: nat, guest: bool, bytes: seq<byte>)

  type Surface = px: seq<u32> | |px| == CELLS
    witness seq(CELLS, _ => 0)

  function DataCol(guest: bool): nat {
    if guest then GUEST_COL else HOST_COL
  }

  /** Cells that hold `n` bytes. */
  function CellCount(n: nat): nat {
    (n + 3) / 4
  }

  /** Rows taken by a file of `n` bytes whose data start in column `col`. */
  function RowSpan(col: nat, n: nat): nat {
    (col + CellCount(n) + 255) / 256
  }

  /** First row after the file. */
  function End(f: File): nat {
    f.row + RowSpan(DataCol(f.guest), |f.bytes|)
  }

  /** First data cell. */
  function Base(f: File): nat {
    f.row * COLS + DataCol(f.guest)
  }

  predicate FileOk(f: File) {
    f.hash < 0x1_0000 && 1 <= f.row && |f.bytes| < 0x1_0000 && End(f) <= 256
  }

  predicate Apart(f: File, g: File) {
    End(f) <= g.row || End(g) <= f.row
  }

  predicate Layout(files: seq<File>) {
    && |files| <= MAX_FILES
    && (forall i :: 0 <= i < |files| ==> FileOk(files[i]))
    && (forall i, j :: 0 <= i < j < |files| ==> Apart(files[i], files[j]))
  }

  function Cell(px: Surface, a: nat): u32 {
    if a < CELLS then px[a] else 0
  }

  /** The surface holds `f`: its header and, four to a cell, its bytes. */
  ghost predicate Stored(px: Surface, f: File) {
    && Cell(px, f.row * COLS) == Header(|f.bytes|, f.hash % 256, Flags(f.guest))
    && forall k :: 0 <= k < |f.bytes| ==> ByteAt(Cell(px, Base(f) + k / 4), k % 4) == f.bytes[k]
  }

  /** Directory entry `i` names `f`, and the surface holds it. */
  ghost predicate Listed(px: Surface, i: nat, f: File) {
    i < MAX_FILES && FileOk(f) && f.row < 256 && px[2 + i] == Entry(f.row, f.hash) && Stored(px, f)
  }

  /** The surface is a well-formed file system whose directory lists `files`, in order. */
  ghost predicate Rep(px: Surface, files: seq<File>) {
    && Layout(files)
    && px[1] == |files|
    && forall i :: 0 <= i < |files| ==> Listed(px, i, files[i])
  }

  // ---- The operations on the list of files ----

  function IndexOf(files: seq<File>, hash: nat): (i: nat)
    ensures i <= |files| && (i < |files| ==> files[i].hash == hash)
    ensures forall j :: 0 <= j < i ==> files[j].hash != hash
  {
    if files == [] || files[0].hash == hash then 0 else 1 + IndexOf(files[1..], hash)
  }

  /** First row after every file, counted as if all data began in the guest column. */
  function FreeRow(files: seq<File>): (r: nat)
    ensures r >= 1
    ensures forall i :: 0 <= i < |files| ==> End(files[i]) <= r
  {
    if files == [] then 1
    else
      var f := files[|files| - 1];
      assert DataCol(f.guest) <= GUEST_COL;
      var r := FreeRow(files[..|files| - 1]);
      var end := f.row + RowSpan(GUEST_COL, |f.bytes|);
      if end > r then end else r
  }

  /** The row a new file gets, or 0 when the name, the directory or the rows do not allow one. */
  function CreateRow(files: seq<File>, name: Name): nat {
    if name == [] || |name| > 63 || |files| >= MAX_FILES || FreeRow(files) >= 255 then 0 else FreeRow(files)
  }

  function CreateFiles(files: seq<File>, name: Name, data: seq<byte>): seq<File> {
    var row := CreateRow(files, name);
    if row == 0 then files else files + [File(Hash16(name), row, true, data)]
  }

  function AppendFiles(files: seq<File>, name: Name, data: seq<byte>): seq<File> {
    var i := IndexOf(files, Hash16(name));
    if i == |files| then files else files[i := files[i].(bytes := files[i].bytes + data)]
  }

  function UnlinkFiles(files: seq<File>, name: Name): seq<File> {
    var i := IndexOf(files, Hash16(name));
    if i == |files| then files else files[..i] + files[i + 1..]
  }

  function Min(a: nat, b: nat): nat {
    if a < b then a else b
  }

  lemma LowByte(w: u32)
    ensures Low(w) % 256 == w % 256
  {
    var hi, lo := w / 0x1_0000, w % 0x1_0000;
    Split8(lo % 256, lo / 256 + 256 * hi);
  }

  lemma EntryFields(row: nat, hash: nat)
    requires row < 0x1_0000 && hash < 0x1_0000
    ensures High(Entry(row, hash)) == row && Low(Entry(row, hash)) == hash
  {
    Split16(hash, row);
  }
}
