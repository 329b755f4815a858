/** Whole sequences of calls on the pixel surface against the same calls on a list of files. */
module PixelRuns {
  import opened PixelFs
  import opened PixelHash
  import opened PixelOps
  import opened PixelRefine
  import opened PixelLimits

  datatype Cmd =
    | CreateCmd(name: Name, data: seq<byte>)
    | AppendCmd(name: Name, data: seq<byte>)
    | ReadCmd(name: Name, room: nat)
    | UnlinkCmd(name: Name)

  /** What a call returns, and for a read also the bytes it stored. */
  datatype Reply = Row(row: nat) | Code(code: int) | Data(count: nat, bytes: seq<byte>)

  // ---- On the list ----

  function ListStep(files: seq<File>, cmd: Cmd): (seq<File>, Reply) {
    match cmd
    case CreateCmd(name, data) => (CreateFiles(files, name, data), Row(CreateRow(files, name)))
    case AppendCmd(name, data) =>
      (AppendFiles(files, name, data), Code(if IndexOf(files, Hash16(name)) == |files| then -1 else |data|))
    case ReadCmd(name, room) =>
      var i := IndexOf(files, Hash16(name));
      if i == |files| then (files, Code(-1))
      else
        var n := Min(|files[i].bytes|, room);
        (files, Data(n, files[i].bytes[..n]))
    case UnlinkCmd(name) =>
      (UnlinkFiles(files, name), Code(if IndexOf(files, Hash16(name)) == |files| then -1 else 0))
  }

  function ListRun(files: seq<File>, cmds: seq<Cmd>): (seq<File>, seq<Reply>)
    decreases |cmds|
  {
    if cmds == [] then (files, [])
    else
      var (after, reply) := ListStep(files, cmds[0]);
      var (end, replies) := ListRun(after, cmds[1..]);
      (end, [reply] + replies)
  }

  /** What the library leaves to its caller: room for a new or grown file. */
  predicate Fits(files: seq<File>, cmd: Cmd) {
    match cmd
    case CreateCmd(name, data) =>
      CreateRow(files, name) != 0 ==> |data| < 0x1_0000 && CreateRow(files, name) + RowSpan(GUEST_COL, |data|) <= 256
    case AppendCmd(name, data) =>
      var i := IndexOf(files, Hash16(name)); i < |files| ==> AppendFits(files, i, |data|)
    case _ => true
  }

  predicate AllFit(files: seq<File>, cmds: seq<Cmd>)
    decreases |cmds|
  {
    cmds != [] ==> Fits(files, cmds[0]) && AllFit(ListStep(files, cmds[0]).0, cmds[1..])
  }

  // ---- On the surface ----

  /** The row `vfs_create` picks from the directory. */
  function NewRow(px: Surface, name: Name): nat
    requires DirOk(px)
  {
    if name == [] || |name| > 63 || px[1] >= MAX_FILES then 0
    else
      var row := FreeUpTo(px, px[1]);
      if row >= 255 then 0 else row
  }

  function PixelStep(px: Surface, cmd: Cmd): (Surface, Reply)
    requires DirOk(px)
  {
    match cmd
    case CreateCmd(name, data) =>
      var row := NewRow(px, name);
      (if row == 0 then px else CreateImage(px, row, name, data), Row(row))
    case AppendCmd(name, data) =>
      var row := FindFrom(px, Hash16(name), 0);
      if row == 0 || row >= 256 then (px, Code(-1)) else (AppendImage(px, row, data), Code(|data|))
    case ReadCmd(name, room) =>
      var row := FindFrom(px, Hash16(name), 0);
      if row == 0 || row >= 256 then (px, Code(-1))
      else
        var bytes := ReadBytes(px, row, room);
        (px, Data(|bytes|, bytes))
    case UnlinkCmd(name) =>
      var i := EntryFrom(px, Hash16(name), 0);
      if i >= px[1] then (px, Code(-1)) else (UnlinkImage(px, i), Code(0))
  }

  /** The calls `cmds` take the surface `px` to `qx`, answering `replies`. */
  predicate PixelRun(px: Surface, cmds: seq<Cmd>, qx: Surface, replies: seq<Reply>)
    decreases |cmds|
  {
    if cmds == [] then qx == px && replies == []
    else
      && DirOk(px) && replies != []
      && PixelStep(px, cmds[0]).1 == replies[0]
      && PixelRun(PixelStep(px, cmds[0]).0, cmds[1..], qx, replies[1..])
  }

  // ---- Refinement ----

  lemma ReadRefines(px: Surface, files: seq<File>, i: nat, room: nat)
    requires Rep(px, files) && i < |files|
    ensures files[i].row < 256
    ensures ReadBytes(px, files[i].row, room) == files[i].bytes[..Min(|files[i].bytes|, room)]
  {
    hide ByteAt, High, Rep;
    RepDir(px, files);
    BytesStored(px, files, i);
  }

  /** A call on the surface answers and acts as the same call on the list. */
  lemma StepRefines(px: Surface, files: seq<File>, cmd: Cmd)
    requires Rep(px, files) && Fits(files, cmd)
    ensures DirOk(px)
    ensures PixelStep(px, cmd).1 == ListStep(files, cmd).1
    ensures Rep(PixelStep(px, cmd).0, ListStep(files, cmd).0)
  {
    hide Rep, Hash16, CreateImage, AppendImage, UnlinkImage, ReadBytes, FindFrom, EntryFrom, FreeUpTo, FreeRow, AppendFits;
    RepDir(px, files);
    assert files[0..] == files;
    match cmd {
      case CreateCmd(name, data) =>
        RepFree(px, files, |files|);
        assert files[..|files|] == files;
        if CreateRow(files, name) != 0 {
          CreateRefines(px, files, name, data);
        }
      case AppendCmd(name, data) =>
        RepFind(px, files, Hash16(name), 0);
        if IndexOf(files, Hash16(name)) < |files| {
          AppendRefines(px, files, name, data);
        }
      case ReadCmd(name, room) =>
        RepFind(px, files, Hash16(name), 0);
        if IndexOf(files, Hash16(name)) < |files| {
          ReadRefines(px, files, IndexOf(files, Hash16(name)), room);
        }
      case UnlinkCmd(name) =>
        RepFind(px, files, Hash16(name), 0);
        if IndexOf(files, Hash16(name)) < |files| {
          UnlinkRefines(px, files, name);
        }
    }
  }

  /** The surface and the list go through the calls together: before each one and at the end the
      surface is well formed and holds the list's files, and the replies are the same. */
  ghost predicate Lockstep(px: Surface, files: seq<File>, cmds: seq<Cmd>)
    decreases |cmds|
  {
    && Rep(px, files)
    && (cmds != [] ==>
      && DirOk(px) && PixelStep(px, cmds[0]).1 == ListStep(files, cmds[0]).1
      && Lockstep(PixelStep(px, cmds[0]).0, ListStep(files, cmds[0]).0, cmds[1..]))
  }

  /** Any sequence of calls that fit gives, on the surface, the replies and the files that it gives
      on the list; every surface on the way is well formed. */
  lemma {:induction false} RunRefines(px: Surface, files: seq<File>, cmds: seq<Cmd>) returns (qx: Surface)
    requires Rep(px, files) && AllFit(files, cmds)
    ensures PixelRun(px, cmds, qx, ListRun(files, cmds).1)
    ensures Rep(qx, ListRun(files, cmds).0) && Lockstep(px, files, cmds)
    decreases |cmds|
  {
    hide Rep, ListStep, PixelStep, Fits;
    if cmds == [] {
      qx := px;
    } else {
      StepRefines(px, files, cmds[0]);
      qx := RunRefines(PixelStep(px, cmds[0]).0, ListStep(files, cmds[0]).0, cmds[1..]);
      assert ListRun(files, cmds).1[1..] == ListRun(ListStep(files, cmds[0]).0, cmds[1..]).1;
    }
  }

  /** Starting from an empty directory needs no more than a zero count. */
  lemma EmptySurface(px: Surface)
    ensures Rep(px, []) <==> px[1] == 0
  {
  }

  // ---- What the calls mean on the list ----

  lemma {:induction false} IndexInConcat(files: seq<File>, f: File, hash: nat)
    ensures IndexOf(files + [f], hash) ==
            if IndexOf(files, hash) < |files| then IndexOf(files, hash)
            else if f.hash == hash then |files| else |files| + 1
  {
    if files != [] && files[0].hash != hash {
      assert (files + [f])[1..] == files[1..] + [f];
      IndexInConcat(files[1..], f, hash);
    }
  }

  /** On the surface, reading a file just created returns the bytes written, as far as the buffer
      goes, unless an older file has the same sixteen hash bits: then that one is read. */
  lemma CreateThenRead(px: Surface, files: seq<File>, name: Name, data: seq<byte>, room: nat)
    requires Rep(px, files) && CreateRow(files, name) != 0 && Fits(files, CreateCmd(name, data))
    ensures DirOk(px) && DirOk(PixelStep(px, CreateCmd(name, data)).0)
    ensures var i := IndexOf(files, Hash16(name));
            var bytes := if i == |files| then data else files[i].bytes;
            PixelStep(PixelStep(px, CreateCmd(name, data)).0, ReadCmd(name, room)).1 ==
            Data(Min(|bytes|, room), bytes[..Min(|bytes|, room)])
  {
    hide Rep, Hash16, FreeRow, CreateRow, PixelStep, Fits;
    var cmd, read := CreateCmd(name, data), ReadCmd(name, room);
    StepRefines(px, files, cmd);
    var after := ListStep(files, cmd).0;
    assert Fits(after, read) by { ReadFits(after, name, room); }
    StepRefines(PixelStep(px, cmd).0, after, read);
    IndexInConcat(files, File(Hash16(name), CreateRow(files, name), true, data), Hash16(name));
  }

  lemma ReadFits(files: seq<File>, name: Name, room: nat)
    ensures Fits(files, ReadCmd(name, room))
  {
  }

  lemma {:induction false} IndexAfterUpdate(files: seq<File>, i: nat, f: File, hash: nat)
    requires i < |files| && f.hash == files[i].hash
    ensures IndexOf(files[i := f], hash) == IndexOf(files, hash)
  {
    if files[0].hash != hash && i > 0 {
      assert files[i := f][1..] == files[1..][i - 1 := f];
      IndexAfterUpdate(files[1..], i - 1, f, hash);
    } else if files[0].hash != hash {
      assert files[i := f][1..] == files[1..];
    }
  }

  /** On the list, an append shows up in the next read of that name and in no read of another hash. */
  lemma ListAppendThenRead(files: seq<File>, name: Name, data: seq<byte>, other: Name, room: nat)
    requires IndexOf(files, Hash16(name)) < |files|
    ensures var i := IndexOf(files, Hash16(name));
            var after := AppendFiles(files, name, data);
            && ListStep(after, ReadCmd(name, room)).1 == Answer(Grown(files[i], data), room)
            && (Hash16(other) != Hash16(name) ==> ListStep(after, ReadCmd(other, room)).1 == ListStep(files, ReadCmd(other, room)).1)
  {
    hide Hash16, IndexOf, ListStep;
    var i := IndexOf(files, Hash16(name));
    var f := Grown(files[i], data);
    var after := AppendFiles(files, name, data);
    IndexAfterUpdate(files, i, f, Hash16(name));
    IndexAfterUpdate(files, i, f, Hash16(other));
    ReadReply(after, name, room);
    ReadReply(after, other, room);
    ReadReply(files, other, room);
  }

  /** On the surface, an append that fits shows up in the next read of that name, behind the old
      bytes, and changes no read of a name with another hash. */
  lemma AppendThenRead(px: Surface, files: seq<File>, name: Name, data: seq<byte>, other: Name, room: nat)
    requires Rep(px, files) && IndexOf(files, Hash16(name)) < |files| && Fits(files, AppendCmd(name, data))
    ensures DirOk(px) && DirOk(PixelStep(px, AppendCmd(name, data)).0)
    ensures var i := IndexOf(files, Hash16(name));
            var qx := PixelStep(px, AppendCmd(name, data)).0;
            && PixelStep(qx, ReadCmd(name, room)).1 == Answer(Grown(files[i], data), room)
            && (Hash16(other) != Hash16(name) ==> PixelStep(qx, ReadCmd(other, room)).1 == PixelStep(px, ReadCmd(other, room)).1)
  {
    hide Rep, Hash16, IndexOf, PixelStep, Fits;
    var cmd := AppendCmd(name, data);
    StepRefines(px, files, cmd);
    var qx, after := PixelStep(px, cmd).0, AppendFiles(files, name, data);
    ReadFits(files, other, room);
    ReadFits(after, other, room);
    ReadFits(after, name, room);
    StepRefines(px, files, ReadCmd(other, room));
    StepRefines(qx, after, ReadCmd(other, room));
    StepRefines(qx, after, ReadCmd(name, room));
    ListAppendThenRead(files, name, data, other, room);
  }

  /** What a read answers, as far as the buffer goes. */
  function Answer(f: File, room: nat): Reply {
    Data(Min(|f.bytes|, room), f.bytes[..Min(|f.bytes|, room)])
  }

  lemma ReadReply(files: seq<File>, name: Name, room: nat)
    ensures var i := IndexOf(files, Hash16(name));
            ListStep(files, ReadCmd(name, room)).1 == if i == |files| then Code(-1) else Answer(files[i], room)
  {
  }

  // ---- A call that does not fit ----

  const A: Name := [97]
  const B: Name := [98]

  lemma NameHashes()
    ensures Hash16(A) == 0x292c && Hash16(B) == 0x2de5
  {
    hide FnvStep, FnvFrom;
    OneByteHash(97);
    OneByteHash(98);
    assert FnvStep(0x811c9dc5, 97) == 0xe40c292c by { StepOfA(); }
    assert FnvStep(0x811c9dc5, 98) == 0xe70c2de5 by { StepOfB(); }
  }

  lemma OneByteHash(b: byte)
    ensures FnvFrom(0x811c9dc5, [b]) == FnvStep(0x811c9dc5, b)
  {
    hide FnvStep;
    assert [b][1..] == [];
  }

  lemma StepOfB()
    ensures FnvStep(0x811c9dc5, 98) == 0xe70c2de5
  {
  }

  function TwoFiles(): seq<File> {
    [File(0x292c, 1, true, []), File(0x2de5, 2, true, [])]
  }

  /** Creating the empty files `a` and `b` on an empty surface puts them in rows 1 and 2. */
  lemma TwoCreates(px: Surface)
    requires px[1] == 0
    ensures DirOk(px) && DirOk(PixelStep(px, CreateCmd(A, [])).0)
    ensures Rep(PixelStep(PixelStep(px, CreateCmd(A, [])).0, CreateCmd(B, [])).0, TwoFiles())
  {
    hide Rep, Hash16, PixelStep;
    EmptySurface(px);
    NameHashes();
    var one := [TwoFiles()[0]];
    assert CreateFiles([], A, []) == one;
    StepRefines(px, [], CreateCmd(A, []));
    assert one[..0] == [];
    assert FreeRow(one) == 2 && CreateFiles(one, B, []) == TwoFiles();
    StepRefines(PixelStep(px, CreateCmd(A, [])).0, one, CreateCmd(B, []));
  }

  /** Appending 769 zero bytes to `a` then reaches row 2 and loses `b`: it reads before and not after. */
  lemma NeighbourLost(px: Surface)
    requires Rep(px, TwoFiles())
    ensures DirOk(px) && PixelStep(px, ReadCmd(B, 0)).1 == Data(0, [])
    ensures var (qx, reply) := PixelStep(px, AppendCmd(A, Zeros(769)));
            reply == Code(769) && DirOk(qx) && PixelStep(qx, ReadCmd(B, 0)).1 == Code(-1)
  {
    hide Rep, TwoFiles, Hash16, DirOk, AppendImage, FindFrom, ReadBytes, Zeros;
    NameHashes();
    var files, n := TwoFiles(), |Zeros(769)|;
    assert files[0].row == 1 && files[1].row == 2 && |files| == 2 && files[1].bytes == [] by { TwoFilesAre(); }
    assert n == 769 by { ZerosLong(769); }
    RepFind(px, files, 0x292c, 0);
    RepFind(px, files, 0x2de5, 0);
    assert files[0..] == files;
    assert IndexOf(files, 0x292c) == 0 && IndexOf(files, 0x2de5) == 1 by { TwoFilesAre(); }
    assert Reaches(files, 0, 769, 1) by { TwoFilesAre(); }
    ReadRefines(px, files, 1, 0);
    HeaderLost(px, files, 0, 769, 1);
    NotFound(px, AppendImage(px, 1, Zeros(769)));
  }

  lemma ZerosLong(n: nat)
    ensures |Zeros(n)| == n
  {
  }

  lemma TwoFilesAre()
    ensures var files := TwoFiles();
            && |files| == 2 && files[0].row == 1 && files[1].row == 2 && files[1].bytes == []
            && IndexOf(files, 0x292c) == 0 && IndexOf(files, 0x2de5) == 1 && Reaches(files, 0, 769, 1)
  {
    assert TwoFiles()[1..] == [TwoFiles()[1]];
  }

  /** With its header gone, `b` is not found. */
  lemma NotFound(px: Surface, qx: Surface)
    requires Rep(px, TwoFiles()) && qx == AppendImage(px, 1, Zeros(769)) && qx[2 * COLS] == 0
    ensures DirOk(qx) && FindFrom(qx, 0x2de5, 0) == 0
  {
    hide AppendImage, Rep, High, Low;
    RepDir(px, TwoFiles());
    DirectoryKept(px, 1, Zeros(769));
    assert Slot(qx, 0) == Slot(px, 0) && Slot(qx, 1) == Slot(px, 1);
    assert FindFrom(qx, 0x2de5, 2) == 0;
    assert FindFrom(qx, 0x2de5, 1) == 0;
  }

  /** An append leaves the directory row alone. */
  lemma DirectoryKept(px: Surface, row: nat, data: seq<byte>)
    requires 1 <= row < 256
    ensures forall c :: 0 <= c < COLS ==> AppendImage(px, row, data)[c] == px[c]
  {
    hide Merged, Header;
  }

  /** On an empty surface, creating `a` with 65536 bytes succeeds, and the next read returns none of them. */
  lemma LengthLost(px: Surface, room: nat)
    requires px[1] == 0
    ensures DirOk(px) && PixelStep(px, CreateCmd(A, Zeros(0x1_0000))).1 == Row(1)
    ensures var qx := PixelStep(px, CreateCmd(A, Zeros(0x1_0000))).0;
            DirOk(qx) && PixelStep(qx, ReadCmd(A, room)).1 == Data(0, [])
  {
    hide Rep, Hash16, CreateImage, FindFrom, ReadBytes, Zeros;
    EmptySurface(px);
    NameHashes();
    var data := Zeros(0x1_0000);
    ZerosLong(0x1_0000);
    CreatedReads(px, [], A, data, room);
    FoundFirst(px, data);
    assert data[..0] == [] && Counted(0x1_0000) == 0;
  }

  /** A file created first is found in row 1, whatever its length. */
  lemma FoundFirst(px: Surface, data: seq<byte>)
    requires px[1] == 0
    ensures var qx := CreateImage(px, 1, A, data);
            DirOk(qx) && FindFrom(qx, 0x292c, 0) == 1
  {
    hide Hash16, PackAt, Header, IsValid, High, Low, CellCount;
    NameHashes();
    var qx := CreateImage(px, 1, A, data);
    EntryFields(1, 0x292c);
    HeaderWraps(|data|, 0x292c % 256, true);
    assert qx[1] == 1 && Slot(qx, 0) == Entry(1, 0x292c);
    assert qx[COLS] == Header(|data|, 0x292c % 256, Flags(true));
    hide CreateImage, Entry;
  }
}
