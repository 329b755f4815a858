/** The cells of the surface after each operation, in the terms of its documented layout. */
module PixelCells {
  import opened Words
  import opened PixelFs
  import opened PixelOps

  // ---- Where a new file goes ----

  /** Rows up to the one behind a file's last, its data counted from column 64. */
  function Behind(f: File): nat {
    f.row + (64 + (|f.bytes| + 3) / 4 + 255) / 256
  }

  /** A new file goes to the first row behind all others, if its name has 1 to 63 bytes, the directory
      has room and the row is below 255. */
  lemma {:induction false} RowForNew(files: seq<File>, name: Name)
    ensures var row := FreeRow(files);
            && (forall i :: 0 <= i < |files| ==> Behind(files[i]) <= row)
            && (row == 1 || exists i :: 0 <= i < |files| && Behind(files[i]) == row)
            && CreateRow(files, name) == if 1 <= |name| <= 63 && |files| < 254 && row < 255 then row else 0
  {
    hide Behind, FreeRow;
    FreeRowStep(files);
    if files != [] {
      var n := |files| - 1;
      var front, last := files[..n], files[n];
      RowForNew(front, name);
      forall i | 0 <= i < |files| ensures Behind(files[i]) <= FreeRow(files) {
        if i < n { assert files[i] == front[i]; }
      }
      if FreeRow(front) >= Behind(last) && FreeRow(front) != 1 {
        var i :| 0 <= i < |front| && Behind(front[i]) == FreeRow(front);
        assert Behind(files[i]) == FreeRow(files);
      }
    }
  }

  lemma FreeRowStep(files: seq<File>)
    ensures files == [] ==> FreeRow(files) == 1
    ensures files != [] ==>
              var n := |files| - 1;
              FreeRow(files) == if Behind(files[n]) > FreeRow(files[..n]) then Behind(files[n]) else FreeRow(files[..n])
  {
  }

  // ---- Creating ----

  /** Four bytes of the data make one little-endian cell, zero beyond their end. */
  function DataCell(data: seq<byte>, i: nat): nat {
    At(data, 4 * i) + 0x100 * At(data, 4 * i + 1) + 0x1_0000 * At(data, 4 * i + 2) + 0x100_0000 * At(data, 4 * i + 3)
  }

  /** The cells a create writes. */
  predicate CreateTouches(px: Surface, row: nat, name: Name, data: seq<byte>, c: nat) {
    || c == 1 || c - 2 == px[1] || row * 256 <= c <= row * 256 + |name|
    || row * 256 + 64 <= c < row * 256 + 64 + (|data| + 3) / 4
  }

  /** A create adds one directory entry, of the row and the low 16 bits of the name's hash; in the row it
      writes the header, of length, low eight bits of the hash, and flags, the name from column 1, and the
      data from column 64; and it leaves every other cell alone. */
  lemma CreatedCells(px: Surface, row: nat, name: Name, data: seq<byte>)
    requires px[1] < MAX_FILES && 1 <= row < 255 && 1 <= |name| <= 63
    ensures var qx, hash, start := CreateImage(px, row, name, data), Fnv1a(name), row * 256;
            && qx[1] == px[1] + 1 && qx[2 + px[1]] == row * 65536 + hash % 65536
            && qx[start] == (|data| % 65536) * 65536 + (hash % 256) * 256 + 3
            && (forall k :: 0 <= k < |name| ==> qx[start + 1 + k] == name[k])
            && (forall k :: 0 <= k < (|data| + 3) / 4 && start + 64 + k < CELLS ==> qx[start + 64 + k] == DataCell(data, k))
            && forall c :: 0 <= c < CELLS && !CreateTouches(px, row, name, data, c) ==> qx[c] == px[c]
  {
    hide Fnv1a, At;
    LowByte(Fnv1a(name));
  }

  // ---- Appending ----

  /** An append changes the length in the header, keeps its other fields, and touches no cell outside the
      header and the grown file's data. */
  lemma AppendedCells(px: Surface, row: nat, data: seq<byte>)
    requires row < 256
    ensures var qx, h := AppendImage(px, row, data), px[row * 256];
            var count, base := h / 65536 + |data|, row * 256 + if h / 2 % 2 == 1 then 64 else 1;
            && qx[row * 256] / 65536 == count % 65536 && qx[row * 256] % 65536 == h % 65536
            && forall c :: 0 <= c < CELLS && c != row * 256 && !(base <= c < base + (count + 3) / 4) ==> qx[c] == px[c]
  {
    hide Merged;
    var h := px[row * 256];
    LowByte(h);
    SameFields(h, (h / 65536 + |data|) % 65536);
  }

  lemma SameFields(h: u32, count: nat)
    requires count < 65536
    ensures var g := count * 65536 + (h / 256 % 256) * 256 + h % 256;
            g / 65536 == count && g % 65536 == h % 65536
  {
    Split8(h % 256, h / 256);
    Split8(h % 256, h / 256 % 256);
    assert h % 65536 == h / 256 % 256 * 256 + h % 256;
    Split16(h % 65536, count);
  }

  // ---- Removing ----

  /** An unlink clears the valid bit of the removed file's header and keeps its other bits, moves the later
      directory entries down by one, clears the last, and touches nothing else. */
  lemma UnlinkedCells(px: Surface, files: seq<File>, i: nat)
    requires Rep(px, files) && i < |files|
    ensures i < px[1] <= MAX_FILES && 1 <= files[i].row < 256
    ensures var qx, n, head := UnlinkImage(px, i), |files|, files[i].row * 256;
            && qx[1] == n - 1 && qx[1 + n] == 0
            && (forall c :: 2 <= c < 1 + n ==> qx[c] == px[if c < 2 + i then c else c + 1])
            && qx[head] / 2 == px[head] / 2 && px[head] % 2 == 1 && qx[head] % 2 == 0
            && forall c :: 0 <= c < CELLS && c != head && !(1 <= c < 2 + n) ==> qx[c] == px[c]
  {
    RepDir(px, files);
    hide Rep, Stored;
  }
}
