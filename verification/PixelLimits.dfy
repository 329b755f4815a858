/** What a create or an append that does not fit does to the files on the surface. */
module PixelLimits {
  import opened Words
  import opened PixelFs
  import opened PixelOps
  import opened PixelRefine

  /** The file is found valid at its row, and a read there gives its bytes, as far as the buffer goes. */
  ghost predicate Intact(px: Surface, f: File)
    requires f.row < 256
  {
    && IsValid(px[f.row * COLS])
    && forall room: nat :: ReadBytes(px, f.row, room) == f.bytes[..Min(|f.bytes|, room)]
  }

  ghost predicate AllIntact(px: Surface, files: seq<File>) {
    forall j :: 0 <= j < |files| ==> files[j].row < 256 && Intact(px, files[j])
  }

  /** The part of a length that the header's sixteen bits keep. */
  function Counted(n: nat): (r: nat)
    ensures r <= n && (r == n <==> n < 0x1_0000)
  {
    n % 0x1_0000
  }

  lemma HeaderWraps(count: nat, hash8: nat, guest: bool)
    requires hash8 < 256
    ensures var h := Header(count, hash8, Flags(guest));
            High(h) == count % 0x1_0000 && IsValid(h) && IsGuest(h) == guest
  {
    hide High, IsValid, IsGuest;
    HeaderFields(count % 0x1_0000, hash8, guest);
    assert Header(count, hash8, Flags(guest)) == Header(count % 0x1_0000, hash8, Flags(guest));
  }

  /** A stored file reads back up to its length modulo 65536: the header keeps sixteen bits of it. */
  lemma ReadStored(px: Surface, f: File, room: nat)
    requires Stored(px, f) && f.row < 256
    ensures IsValid(px[f.row * COLS])
    ensures ReadBytes(px, f.row, room) == f.bytes[..Min(Counted(|f.bytes|), room)]
  {
    hide ByteAt, Header, High, IsValid, IsGuest;
    HeaderWraps(|f.bytes|, f.hash % 256, f.guest);
  }

  /** So a stored file is intact exactly when its length fits the header. */
  lemma StoredIntact(px: Surface, f: File)
    requires Stored(px, f) && f.row < 256
    ensures Intact(px, f) <==> |f.bytes| < 0x1_0000
  {
    hide Stored, ReadBytes, IsValid, Counted;
    var n := |f.bytes|;
    ReadStored(px, f, n);
    assert n >= 0x1_0000 ==> |ReadBytes(px, f.row, n)| < n;
    forall room: nat ensures ReadBytes(px, f.row, room) == f.bytes[..Min(Counted(n), room)] {
      ReadStored(px, f, room);
    }
  }

  function Zeros(n: nat): seq<byte> {
    seq(n, _ => 0)
  }

  // ---- Creating ----

  /** A read after a create of any length gives the data up to the length modulo 65536. */
  lemma CreatedReads(px: Surface, files: seq<File>, name: Name, data: seq<byte>, room: nat)
    requires Rep(px, files) && CreateRow(files, name) != 0
    requires CreateRow(files, name) * COLS + GUEST_COL + CellCount(|data|) <= CELLS
    ensures px[1] < MAX_FILES && CreateRow(files, name) < 256
    ensures ReadBytes(CreateImage(px, CreateRow(files, name), name, data), CreateRow(files, name), room)
         == data[..Min(Counted(|data|), room)]
  {
    hide CreateImage, FreeRow, Hash16, ReadBytes, Stored;
    NewFileStored(px, CreateRow(files, name), name, data);
    ReadStored(CreateImage(px, CreateRow(files, name), name, data), File(Hash16(name), CreateRow(files, name), true, data), room);
  }

  /** Creating writes to no row of an older file. */
  lemma CreateSpares(px: Surface, files: seq<File>, name: Name, data: seq<byte>, j: nat)
    requires Rep(px, files) && CreateRow(files, name) != 0 && j < |files|
    ensures px[1] < MAX_FILES && CreateRow(files, name) < 256 && files[j].row < 256
    ensures Stored(CreateImage(px, CreateRow(files, name), name, data), files[j])
  {
    hide PackAt, Header, ByteAt, Entry, Fnv1a, Stored, FreeRow;
    assert Listed(px, j, files[j]);
    RowInRange(files[j]);
    SameCells(px, CreateImage(px, CreateRow(files, name), name, data), files[j]);
  }

  /** Of the files of length `n` that end on the surface, a create leaves the new one and all older
      ones intact, whatever the data, exactly when `n` fits sixteen bits. */
  lemma CreateExact(px: Surface, files: seq<File>, name: Name, n: nat)
    requires Rep(px, files) && CreateRow(files, name) != 0
    requires CreateRow(files, name) * COLS + GUEST_COL + CellCount(n) <= CELLS
    ensures px[1] < MAX_FILES && CreateRow(files, name) < 256
    ensures (forall data: seq<byte> :: |data| == n ==>
              AllIntact(CreateImage(px, CreateRow(files, name), name, data), CreateFiles(files, name, data)))
            <==> n < 0x1_0000
  {
    hide CreateImage, FreeRow, Hash16, ReadBytes, Stored, Intact, Listed, Layout;
    var row := CreateRow(files, name);
    forall data: seq<byte> | |data| == n
      ensures AllIntact(CreateImage(px, row, name, data), CreateFiles(files, name, data)) <==> n < 0x1_0000
    {
      var qx, after := CreateImage(px, row, name, data), CreateFiles(files, name, data);
      NewFileStored(px, row, name, data);
      StoredIntact(qx, File(Hash16(name), row, true, data));
      assert after[|files|] == File(Hash16(name), row, true, data);
      forall j | 0 <= j < |files| ensures files[j].row < 256 && Intact(qx, files[j]) {
        CreateSpares(px, files, name, data, j);
        StoredIntact(qx, files[j]);
        assert |files[j].bytes| < 0x1_0000 by { BytesFit(px, files, j); }
      }
    }
    assert |Zeros(n)| == n;
  }

  lemma BytesFit(px: Surface, files: seq<File>, j: nat)
    requires Rep(px, files) && j < |files|
    ensures |files[j].bytes| < 0x1_0000 && 1 <= files[j].row < 256 && Stored(px, files[j]) && FileOk(files[j])
  {
    hide Stored;
    assert Listed(px, j, files[j]);
  }

  // ---- Appending ----

  function Grown(f: File, data: seq<byte>): File {
    f.(bytes := f.bytes + data)
  }

  predicate GrownOnSurface(f: File, n: nat) {
    Base(f) + CellCount(|f.bytes| + n) <= CELLS
  }

  /** A read after an append of any length gives the old and new bytes up to their length modulo 65536. */
  lemma AppendedReads(px: Surface, files: seq<File>, i: nat, data: seq<byte>, room: nat)
    requires Rep(px, files) && i < |files| && GrownOnSurface(files[i], |data|)
    ensures files[i].row < 256
    ensures ReadBytes(AppendImage(px, files[i].row, data), files[i].row, room)
         == (files[i].bytes + data)[..Min(Counted(|files[i].bytes| + |data|), room)]
  {
    hide AppendImage, Stored, ReadBytes, FileOk;
    BytesFit(px, files, i);
    GrownFileStored(px, files[i], data);
    ReadStored(AppendImage(px, files[i].row, data), Grown(files[i], data), room);
  }

  /** The grown file reaches into the rows of file `j`. */
  predicate Reaches(files: seq<File>, i: nat, n: nat, j: nat)
    requires i < |files| && j < |files|
  {
    j != i && files[j].row < GrownEnd(files[i], n) && files[i].row < End(files[j])
  }

  /** Zero bytes appended into another file's first row wipe out its header. */
  lemma HeaderLost(px: Surface, files: seq<File>, i: nat, n: nat, j: nat)
    requires Rep(px, files) && i < |files| && j < |files| && Reaches(files, i, n, j)
    ensures files[i].row < 256 && files[j].row < 256
    ensures AppendImage(px, files[i].row, Zeros(n))[files[j].row * COLS] == 0
  {
    hide Merged, Header, ByteAt, Listed, CellCount;
    var f, g := files[i], files[j];
    BytesFit(px, files, i);
    BytesFit(px, files, j);
    HeaderFields(|f.bytes|, f.hash % 256, f.guest);
    assert Apart(files[if i < j then i else j], files[if i < j then j else i]);
    var cell := g.row * COLS - Base(f);
    CellsBefore(f, n, g.row);
    MergedZeros(px[g.row * COLS], |f.bytes|, n, cell);
  }

  /** Where a later row's first cell lies in a file that grows into it: behind the old bytes, within the new ones. */
  lemma CellsBefore(f: File, n: nat, row: nat)
    requires End(f) <= row < GrownEnd(f, n)
    ensures f.row < row && Base(f) + CellCount(|f.bytes|) <= row * COLS < Base(f) + CellCount(|f.bytes| + n)
  {
    assert DataCol(f.guest) == GUEST_COL || DataCol(f.guest) == HOST_COL;
  }

  lemma MergedZeros(was: u32, count: nat, n: nat, cell: nat)
    requires CellCount(count) <= cell
    ensures Merged(was, Zeros(n), count, cell) == 0
  {
    forall j: nat | j < 4 ensures MergedByte(was, Zeros(n), count, cell, j) == 0 {
      MergedByteIs(was, Zeros(n), count, cell, j);
    }
    hide MergedByte;
  }

  /** What fits leaves every file intact, the grown one with the bytes added. */
  lemma FittingAppend(px: Surface, files: seq<File>, i: nat, data: seq<byte>, j: nat)
    requires Rep(px, files) && i < |files| && AppendFits(files, i, |data|) && j < |files|
    ensures files[i].row < 256 && files[j].row < 256
    ensures Intact(AppendImage(px, files[i].row, data), if j == i then Grown(files[i], data) else files[j])
  {
    hide AppendImage, Stored, Intact, Layout, AppendFits;
    AppendListed(px, files, i, data, j);
    var g := if j == i then Grown(files[i], data) else files[j];
    StoredIntact(AppendImage(px, files[i].row, data), g);
  }

  /** Of the appends of `n` bytes that stay on the surface, the grown file and every other one are left
      intact, whatever the bytes, exactly when `n` more bytes fit: the length stays within sixteen bits and the
      new last row stays clear of every other file. */
  lemma AppendExact(px: Surface, files: seq<File>, i: nat, n: nat)
    requires Rep(px, files) && i < |files| && GrownOnSurface(files[i], n)
    ensures files[i].row < 256
    ensures (forall data: seq<byte> :: |data| == n ==>
              AllIntact(AppendImage(px, files[i].row, data), files[i := Grown(files[i], data)]))
            <==> AppendFits(files, i, n)
  {
    hide AppendImage, Stored, Intact, Rep, Reaches, FileOk, RowSpan, CellCount, AppendFits;
    BytesFit(px, files, i);
    var f, zeros := files[i], Zeros(n);
    if AppendFits(files, i, n) {
      forall data: seq<byte> | |data| == n
        ensures AllIntact(AppendImage(px, f.row, data), files[i := Grown(f, data)])
      {
        forall j | 0 <= j < |files|
          ensures files[j].row < 256
          ensures Intact(AppendImage(px, f.row, data), files[i := Grown(f, data)][j])
        {
          FittingAppend(px, files, i, data, j);
        }
      }
    } else {
      var qx, after := AppendImage(px, f.row, zeros), files[i := Grown(f, zeros)];
      assert |zeros| == n;
      if |f.bytes| + n >= 0x1_0000 {
        GrownFileStored(px, f, zeros) by { assert OnSurface(Grown(f, zeros)); }
        StoredIntact(qx, Grown(f, zeros));
        assert !Intact(qx, after[i]);
      } else {
        var j := ReachedFile(px, files, i, n);
        HeaderLost(px, files, i, n, j);
        assert after[j] == files[j];
        ZeroHeader(qx, files[j]);
      }
    }
  }

  lemma ZeroHeader(px: Surface, f: File)
    requires f.row < 256 && px[f.row * COLS] == 0
    ensures !Intact(px, f)
  {
  }

  lemma ReachedFile(px: Surface, files: seq<File>, i: nat, n: nat) returns (j: nat)
    requires Rep(px, files) && i < |files| && GrownOnSurface(files[i], n)
    requires |files[i].bytes| + n < 0x1_0000 && !AppendFits(files, i, n)
    ensures j < |files| && j != i && Reaches(files, i, n, j)
  {
    hide Rep, Stored, FileOk;
    assert GrownEnd(files[i], n) <= 256;
    j :| 0 <= j < |files| && j != i && !(GrownEnd(files[i], n) <= files[j].row || End(files[j]) <= files[i].row);
  }
}
