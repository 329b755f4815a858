/** The pixel surface refines an ordered list of (hash, bytes) files. */
module PixelRefine {
  import opened Words
  import opened PixelFs
  import opened PixelOps

  // ---- Single operations ----

  lemma SameCells(px: Surface, qx: Surface, f: File)
    requires FileOk(f) && Stored(px, f)
    requires forall c :: f.row * COLS <= c < End(f) * COLS && c < CELLS ==> qx[c] == px[c]
    ensures Stored(qx, f)
  {
    RowInRange(f);
  }

  lemma PackAtBytes(data: seq<byte>, k: nat)
    requires k < |data|
    ensures ByteAt(PackAt(data, k / 4), k % 4) == data[k]
  {
    hide Pack, ByteAt;
    var i := k / 4;
    PackBytes(At(data, 4 * i), At(data, 4 * i + 1), At(data, 4 * i + 2), At(data, 4 * i + 3));
  }

  /** The file's cells lie on the surface, whatever its length. */
  predicate OnSurface(f: File) {
    Base(f) + CellCount(|f.bytes|) <= CELLS
  }

  lemma NewFileStored(px: Surface, row: nat, name: Name, data: seq<byte>)
    requires px[1] < MAX_FILES && 1 <= |name| <= 63
    requires 1 <= row && OnSurface(File(Hash16(name), row, true, data))
    ensures row < 256 && Stored(CreateImage(px, row, name, data), File(Hash16(name), row, true, data))
  {
    hide PackAt, Header, ByteAt, Entry, Fnv1a;
    var f := File(Hash16(name), row, true, data);
    forall k | 0 <= k < |data|
      ensures ByteAt(Cell(CreateImage(px, row, name, data), Base(f) + k / 4), k % 4) == data[k]
    {
      PackAtBytes(data, k);
    }
  }

  lemma CreateLayout(files: seq<File>, f: File)
    requires Layout(files) && |files| < MAX_FILES && f.hash < 0x1_0000 && 1 <= f.row
    requires forall i :: 0 <= i < |files| ==> End(files[i]) <= f.row
    ensures Layout(files + [f]) <==> |f.bytes| < 0x1_0000 && End(f) <= 256
  {
    hide End;
    var after := files + [f];
    assert after[|files|] == f;
    if FileOk(f) {
      forall i, j | 0 <= i < j < |after| ensures Apart(after[i], after[j]) {
        assert j < |files| ==> Apart(files[i], files[j]);
      }
    }
  }

  lemma CreateListed(px: Surface, files: seq<File>, f: File, name: Name, i: nat)
    requires Rep(px, files) && |files| < MAX_FILES && 1 <= |name| <= 63
    requires FileOk(f) && f.guest && f.hash == Hash16(name) && i <= |files|
    requires forall j :: 0 <= j < |files| ==> End(files[j]) <= f.row
    ensures f.row < 256
    ensures Listed(CreateImage(px, f.row, name, f.bytes), i, (files + [f])[i])
  {
    hide PackAt, Header, ByteAt, Entry, Fnv1a, Stored, Layout;
    RowInRange(f);
    assert OnSurface(f);
    NewFileStored(px, f.row, name, f.bytes);
    if i < |files| {
      assert Listed(px, i, files[i]);
      RowInRange(files[i]);
      SameCells(px, CreateImage(px, f.row, name, f.bytes), files[i]);
    }
  }

  lemma CreateCount(px: Surface, row: nat, name: Name, data: seq<byte>)
    requires 1 <= row < 256 && px[1] < MAX_FILES
    ensures CreateImage(px, row, name, data)[1] == px[1] + 1
  {
    hide PackAt, Header, Entry, Fnv1a;
  }

  /** Creating a file that fits keeps the surface well formed, with the file added at the end of the
      list; a length past sixteen bits or rows past 256 leave no well-formed layout. */
  lemma CreateRefines(px: Surface, files: seq<File>, name: Name, data: seq<byte>)
    requires Rep(px, files) && CreateRow(files, name) != 0
    ensures px[1] < MAX_FILES && CreateRow(files, name) < 256
    ensures Rep(CreateImage(px, CreateRow(files, name), name, data), CreateFiles(files, name, data))
            <==> |data| < 0x1_0000 && CreateRow(files, name) + RowSpan(GUEST_COL, |data|) <= 256
  {
    hide CreateImage, FreeRow, Listed, Layout, RowSpan, Hash16;
    var row := CreateRow(files, name);
    var f := File(Hash16(name), row, true, data);
    var after := CreateFiles(files, name, data);
    assert f.hash < 0x1_0000 by { HashSmall(name); }
    CreateLayout(files, f);
    CreateCount(px, row, name, data);
    if Layout(after) {
      forall i | 0 <= i < |after| ensures Listed(CreateImage(px, row, name, data), i, after[i]) {
        CreateListed(px, files, f, name, i);
      }
    }
  }

  lemma HashSmall(name: Name)
    ensures Hash16(name) < 0x1_0000
  {
    hide Fnv1a;
  }

  /** First row after the file once `n` bytes have been added. */
  function GrownEnd(f: File, n: nat): nat {
    f.row + RowSpan(DataCol(f.guest), |f.bytes| + n)
  }

  /** `n` more bytes fit the length field, the surface, and the gap before every other file. */
  predicate AppendFits(files: seq<File>, i: nat, n: nat)
    requires i < |files|
  {
    && |files[i].bytes| + n < 0x1_0000 && GrownEnd(files[i], n) <= 256
    && forall j :: 0 <= j < |files| && j != i ==> GrownEnd(files[i], n) <= files[j].row || End(files[j]) <= files[i].row
  }

  lemma MergedBytes(was: u32, data: seq<byte>, count: nat, i: nat, j: nat)
    requires j < 4
    ensures ByteAt(Merged(was, data, count, i), j) == MergedByte(was, data, count, i, j)
  {
    hide Pack, ByteAt, MergedByte;
    PackBytes(MergedByte(was, data, count, i, 0), MergedByte(was, data, count, i, 1),
              MergedByte(was, data, count, i, 2), MergedByte(was, data, count, i, 3));
  }

  lemma GrownFileStored(px: Surface, f: File, data: seq<byte>)
    requires FileOk(f) && Stored(px, f) && OnSurface(f.(bytes := f.bytes + data))
    ensures f.row < 256 && Stored(AppendImage(px, f.row, data), f.(bytes := f.bytes + data))
  {
    hide Merged, ByteAt, Header, MergedByte;
    RowInRange(f);
    var g := f.(bytes := f.bytes + data);
    HeaderFields(|f.bytes|, f.hash % 256, f.guest);
    var qx := AppendImage(px, f.row, data);
    forall k | 0 <= k < |g.bytes| ensures ByteAt(Cell(qx, Base(g) + k / 4), k % 4) == g.bytes[k] {
      var c := Base(f) + k / 4;
      MergedBytes(px[c], data, |f.bytes|, k / 4, k % 4);
      MergedByteIs(px[c], data, |f.bytes|, k / 4, k % 4);
    }
  }

  /** An append touches only the rows of the grown file. */
  lemma AppendElsewhere(px: Surface, f: File, data: seq<byte>)
    requires FileOk(f) && Stored(px, f) && FileOk(f.(bytes := f.bytes + data))
    ensures f.row < 256
    ensures forall c :: 0 <= c < CELLS && !(f.row * COLS <= c < End(f.(bytes := f.bytes + data)) * COLS) ==>
              AppendImage(px, f.row, data)[c] == px[c]
  {
    hide Merged, ByteAt, Header;
    RowInRange(f);
    RowInRange(f.(bytes := f.bytes + data));
    HeaderFields(|f.bytes|, f.hash % 256, f.guest);
  }

  /** The grown file fits exactly when the new list is a legal layout. */
  lemma AppendLayout(files: seq<File>, i: nat, data: seq<byte>)
    requires Layout(files) && i < |files|
    ensures Layout(files[i := files[i].(bytes := files[i].bytes + data)]) <==> AppendFits(files, i, |data|)
  {
    hide RowSpan;
    var g := files[i].(bytes := files[i].bytes + data);
    var after := files[i := g];
    assert after[i] == g && End(g) == GrownEnd(files[i], |data|);
    if Layout(after) {
      forall j | 0 <= j < |files| && j != i ensures Apart(g, files[j]) {
        assert after[j] == files[j];
        assert Apart(after[if i < j then i else j], after[if i < j then j else i]);
      }
    }
  }

  lemma AppendListed(px: Surface, files: seq<File>, i: nat, data: seq<byte>, j: nat)
    requires Rep(px, files) && i < |files| && AppendFits(files, i, |data|) && j < |files|
    ensures files[i].row < 256
    ensures Listed(AppendImage(px, files[i].row, data), j,
                   if j == i then files[i].(bytes := files[i].bytes + data) else files[j])
  {
    hide Stored, Entry, AppendImage;
    var f, g := files[i], files[i].(bytes := files[i].bytes + data);
    assert Listed(px, j, files[j]) && Listed(px, i, f);
    RowInRange(g);
    AppendElsewhere(px, f, data);
    assert OnSurface(g);
    GrownFileStored(px, f, data);
    if j != i {
      RowInRange(files[j]);
      SameCells(px, AppendImage(px, f.row, data), files[j]);
    }
  }

  /** Appending what fits makes the file's bytes the old ones followed by the new ones and keeps every
      other file and directory entry; what does not fit leaves no well-formed layout. */
  lemma AppendRefines(px: Surface, files: seq<File>, name: Name, data: seq<byte>)
    requires Rep(px, files) && IndexOf(files, Hash16(name)) < |files|
    ensures var i := IndexOf(files, Hash16(name));
            files[i].row < 256 &&
            (Rep(AppendImage(px, files[i].row, data), AppendFiles(files, name, data)) <==> AppendFits(files, i, |data|))
  {
    hide Listed, AppendImage, Layout, AppendFits, Hash16;
    var i := IndexOf(files, Hash16(name));
    var after := AppendFiles(files, name, data);
    RepDir(px, files);
    AppendLayout(files, i, data);
    if AppendFits(files, i, |data|) {
      var qx := AppendImage(px, files[i].row, data);
      AppendCount(px, files[i].row, data);
      forall j | 0 <= j < |after| ensures Listed(qx, j, after[j]) {
        AppendListed(px, files, i, data, j);
      }
    }
  }

  lemma AppendCount(px: Surface, row: nat, data: seq<byte>)
    requires 1 <= row < 256
    ensures AppendImage(px, row, data)[1] == px[1]
  {
    hide Merged, Header;
  }

  lemma UnlinkLayout(files: seq<File>, i: nat)
    requires Layout(files) && i < |files|
    ensures Layout(files[..i] + files[i + 1..])
  {
    hide FileOk, Apart;
    var after := files[..i] + files[i + 1..];
    assert forall j :: 0 <= j < |after| ==> after[j] == files[if j < i then j else j + 1];
    forall a, b | 0 <= a < b < |after| ensures Apart(after[a], after[b]) {
      assert Apart(files[if a < i then a else a + 1], files[if b < i then b else b + 1]);
    }
  }

  lemma UnlinkListed(px: Surface, files: seq<File>, i: nat, k: nat)
    requires Rep(px, files) && i < |files| && k < |files| && k != i
    ensures px[1] == |files| <= MAX_FILES
    ensures Listed(UnlinkImage(px, i), if k < i then k else k - 1, files[k])
  {
    hide Stored, Entry, High, Low;
    RepDir(px, files);
    assert Listed(px, k, files[k]);
    assert Apart(files[if i < k then i else k], files[if i < k then k else i]);
    RowInRange(files[k]);
    SameCells(px, UnlinkImage(px, i), files[k]);
  }

  /** Unlinking takes the file out of the list and closes the gap in the directory. */
  lemma UnlinkRefines(px: Surface, files: seq<File>, name: Name)
    requires Rep(px, files) && IndexOf(files, Hash16(name)) < |files|
    ensures var i := IndexOf(files, Hash16(name));
            i < px[1] <= MAX_FILES && Rep(UnlinkImage(px, i), UnlinkFiles(files, name))
  {
    hide *;
    var i := IndexOf(files, Hash16(name));
    UnlinkAt(px, files, i);
    UnlinkFilesIs(files, name);
  }

  lemma UnlinkFilesIs(files: seq<File>, name: Name)
    requires IndexOf(files, Hash16(name)) < |files|
    ensures var i := IndexOf(files, Hash16(name));
            UnlinkFiles(files, name) == files[..i] + files[i + 1..]
  {
    hide IndexOf, Hash16;
  }

  lemma UnlinkAt(px: Surface, files: seq<File>, i: nat)
    requires Rep(px, files) && i < |files|
    ensures i < px[1] <= MAX_FILES && Rep(UnlinkImage(px, i), files[..i] + files[i + 1..])
  {
    hide Listed, UnlinkImage, Layout;
    RepSmall(px, files);
    UnlinkLayout(files, i);
    UnlinkCount(px, i);
    var after, qx := files[..i] + files[i + 1..], UnlinkImage(px, i);
    forall j | 0 <= j < |after| ensures Listed(qx, j, after[j]) {
      var k := if j < i then j else j + 1;
      assert after[j] == files[k];
      UnlinkListed(px, files, i, k);
    }
  }

  lemma RepSmall(px: Surface, files: seq<File>)
    requires Rep(px, files)
    ensures |files| <= MAX_FILES
  {
  }

  lemma UnlinkCount(px: Surface, i: nat)
    requires i < px[1] <= MAX_FILES
    ensures UnlinkImage(px, i)[1] == px[1] - 1
  {
    hide High;
  }
}
