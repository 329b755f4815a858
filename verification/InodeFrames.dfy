/** What creating and removing do to path resolution, and the laws of file data and listings. */
module InodeFrames {
  import opened Words
  import opened InodeFs
  import opened InodeDir
  import opened InodeTree

  /** The walk along `comps` from `at` passes inode `x`. */
  predicate Visits(inodes: map<nat, Inode>, at: nat, comps: seq<string>, x: nat)
    decreases |comps|
  {
    || at == x
    || (comps != [] && |comps[0]| <= MAX_NAME_LEN && at in inodes && inodes[at].itype == Directory
        && comps[0] in inodes[at].children && Visits(inodes, inodes[at].children[comps[0]], comps[1..], x))
  }

  ghost predicate PathVisits(fs: Fs, path: string, x: nat) {
    path != "" && Visits(fs.inodes, StartOf(fs, path), Components(path), x)
  }

  // ---- Every inode has a path ----

  /** Each inode of a tree is reached from the root by proper names. */
  lemma {:induction false} RootPath(fs: Fs, i: nat) returns (path: string)
    requires Tree(fs) && i in fs.inodes
    ensures path != "" && path[0] == '/' && Resolve(fs, path) == Some(i)
    decreases i
  {
    if i == ROOT {
      path := "/";
      assert "/"[1..] == "";
    } else {
      ParentIsBelow(fs, i);
      var p := fs.inodes[i].parent;
      var n :| Entry(fs, p, n, i);
      var dir := RootPath(fs, p);
      path := dir + "/" + n;
      ComponentsJoin(dir, n);
      ComponentsName(n);
      WalkConcat(fs.inodes, ROOT, Components(dir), [n]);
      assert [n][1..] == [];
    }
  }

  // ---- Creating ----

  lemma {:induction false} AttachWalk(fs: Fs, d: nat, name: string, n: Inode, at: nat, comps: seq<string>)
    requires d in fs.inodes && name !in fs.inodes[d].children && forall i <- fs.inodes :: i < fs.nextIno
    ensures var after := Attach(fs, d, name, n);
            && (Walk(fs.inodes, at, comps).Some? ==> Walk(after.inodes, at, comps) == Walk(fs.inodes, at, comps))
            && (!Visits(after.inodes, at, comps, fs.nextIno) ==> Walk(after.inodes, at, comps) == Walk(fs.inodes, at, comps))
    decreases |comps|
  {
    var after := Attach(fs, d, name, n);
    if comps != [] && at in fs.inodes {
      if comps[0] in fs.inodes[at].children {
        AttachWalk(fs, d, name, n, fs.inodes[at].children[comps[0]], comps[1..]);
      } else if comps[0] in after.inodes[at].children {
        assert after.inodes[at].children[comps[0]] == fs.nextIno;
        assert Visits(after.inodes, fs.nextIno, comps[1..], fs.nextIno);
      }
    }
  }

  lemma AttachFrame(fs: Fs, path: string, n: Inode, q: string)
    requires Tree(fs) && Slot(fs, path).Some?
    ensures var (d, name) := Slot(fs, path).value;
            var after := Attach(fs, d, name, n);
            && Resolve(after, path) == Some(fs.nextIno)
            && (Resolve(fs, q).Some? ==> Resolve(after, q) == Resolve(fs, q))
            && (!PathVisits(after, q, fs.nextIno) ==> Resolve(after, q) == Resolve(fs, q))
  {
    hide Tree, Components, SplitLast, Piece;
    var (d, name) := Slot(fs, path).value;
    var after := Attach(fs, d, name, n);
    NextFresh(fs);
    AttachWalk(fs, d, name, n, StartOf(fs, q), Components(q));
    SplitPath(fs, path);
    var (dir, _) := SplitLast(path).value;
    AttachWalk(fs, d, name, n, StartOf(fs, path), Components(dir));
    WalkConcat(after.inodes, StartOf(fs, path), Components(dir), [name]);
    assert [name][1..] == [];
  }

  /** A successful creation makes its path resolve to the new inode and leaves every path that
      resolved as it was; a path whose result changes is one whose walk enters the new inode. */
  lemma CreationFrame(fs: Fs, path: string, itype: InodeType, q: string)
    requires Tree(fs)
    ensures var (after, ino) := Mkdir(fs, path);
            ino != 0 ==>
              && Resolve(after, path) == Some(ino)
              && (Resolve(fs, q).Some? ==> Resolve(after, q) == Resolve(fs, q))
              && (Resolve(after, q) != Resolve(fs, q) ==> PathVisits(after, q, ino))
    ensures var (after, ino) := CreateFile(fs, path, itype);
            ino != 0 ==>
              && Resolve(after, path) == Some(ino)
              && (Resolve(fs, q).Some? ==> Resolve(after, q) == Resolve(fs, q))
              && (Resolve(after, q) != Resolve(fs, q) ==> PathVisits(after, q, ino))
  {
    hide Tree, Resolve, Slot, Attach, PathVisits;
    if Slot(fs, path).Some? {
      var (d, _) := Slot(fs, path).value;
      AttachFrame(fs, path, NewDirectory(fs.nextIno, d), q);
      AttachFrame(fs, path, NewInode(fs.nextIno, itype, d), q);
    }
  }

  // ---- Removing ----

  lemma {:induction false} DetachWalk(fs: Fs, d: nat, name: string, i: nat, at: nat, comps: seq<string>)
    requires Entry(fs, d, name, i)
    ensures var after := Detach(fs, d, name, i);
            && (Walk(after.inodes, at, comps).Some? ==> Walk(fs.inodes, at, comps) == Walk(after.inodes, at, comps))
            && (!Visits(fs.inodes, at, comps, i) ==> Walk(after.inodes, at, comps) == Walk(fs.inodes, at, comps))
    decreases |comps|
  {
    if comps != [] && at in fs.inodes && comps[0] in fs.inodes[at].children {
      DetachWalk(fs, d, name, i, fs.inodes[at].children[comps[0]], comps[1..]);
      assert Visits(fs.inodes, i, comps[1..], i);
    }
  }

  /** From an empty directory only dot entries lead on, and the root has none. */
  lemma LeafPath(fs: Fs, i: nat, comps: seq<string>, after: Fs)
    requires Tree(fs) && Leaf(fs, i) && Tree(after) && comps != []
    ensures Walk(fs.inodes, i, comps).None? || Walk(after.inodes, ROOT, comps).None?
  {
    hide EntriesDown, AllEntered, EnteredOnce;
    assert NodeOk(after, ROOT);
    if comps[0] in fs.inodes[i].children {
      LeafHasNoEntry(fs, i, comps[0], fs.inodes[i].children[comps[0]]);
    }
  }

  /** A walk that does not pass the removed inode is unchanged when nothing else is; one to that inode
      still gets there, through the entry left behind, unless it passes it before its last step. */
  lemma {:induction false} RemovedWalk(fs: Fs, i: nat, at: nat, comps: seq<string>)
    ensures !Visits(fs.inodes, at, comps, i) ==> Walk(fs.inodes - {i}, at, comps) == Walk(fs.inodes, at, comps)
    ensures comps != [] && Walk(fs.inodes, at, comps) == Some(i) ==>
              Walk(fs.inodes - {i}, at, comps) == if Visits(fs.inodes, at, comps[..|comps| - 1], i) then None else Some(i)
    decreases |comps|
  {
    if comps != [] && at in fs.inodes && comps[0] in fs.inodes[at].children {
      var rest := comps[1..];
      RemovedWalk(fs, i, fs.inodes[at].children[comps[0]], rest);
      if rest != [] {
        assert comps[..|comps| - 1][1..] == rest[..|rest| - 1];
      } else {
        assert comps[..0] == [];
      }
    }
  }

  /** A successful unlink with an improper name removes the inode and nothing else. */
  lemma ImproperUnlink(fs: Fs, path: string)
    requires Tree(fs) && Unlink(fs, path).1 && (LastName(path) == "" || LastName(path) == ".")
    ensures Resolve(fs, path).Some?
    ensures var i := Resolve(fs, path).value;
            Unlink(fs, path).0 == fs.(inodes := fs.inodes - {i}, cwd := if fs.cwd == i then ROOT else fs.cwd)
  {
    hide Tree, Unlink, Leaf;
    UnlinkShape(fs, path);
    var i := Resolve(fs, path).value;
    var (_, name) := SplitLast(path).value;
    assert Detach(fs, i, name, i).inodes == fs.inodes - {i};
  }

  /** What a walk visits on the way to its end includes that end. */
  lemma {:induction false} WalkVisitsEnd(fs: Fs, at: nat, comps: seq<string>)
    requires Walk(fs.inodes, at, comps).Some?
    ensures Visits(fs.inodes, at, comps, Walk(fs.inodes, at, comps).value)
    decreases |comps|
  {
    if comps != [] {
      WalkVisitsEnd(fs, fs.inodes[at].children[comps[0]], comps[1..]);
    }
  }

  /** From an empty directory a path leads nowhere once the walk starts at the root instead. */
  lemma LeafFromRoot(fs: Fs, i: nat, comps: seq<string>)
    requires Tree(fs) && Leaf(fs, i) && i != ROOT && comps != []
    ensures Walk(fs.inodes, i, comps).None? || Walk(fs.inodes - {i}, ROOT, comps).None?
  {
    hide EntriesDown, AllEntered, EnteredOnce;
    assert NodeOk(fs, ROOT);
    if comps[0] in fs.inodes[i].children {
      LeafHasNoEntry(fs, i, comps[0], fs.inodes[i].children[comps[0]]);
    }
  }

  /** Only slashes have no components. */
  lemma SomeComponents(fs: Fs, path: string)
    requires path != "" && Components(path) == []
    ensures path[0] == '/'
  {
  }

  /** The part of a path's walk before its last step passes inode `x`. */
  ghost predicate PassesBefore(fs: Fs, path: string, x: nat)
    requires Components(path) != []
  {
    var comps := Components(path);
    Visits(fs.inodes, StartOf(fs, path), comps[..|comps| - 1], x)
  }

  /** A successful unlink keeps the result of every path whose walk does not pass the removed inode. */
  lemma UnlinkKeeps(fs: Fs, path: string, q: string)
    requires Tree(fs) && Unlink(fs, path).1
    ensures Resolve(fs, path).Some?
    ensures !PathVisits(fs, q, Resolve(fs, path).value) ==> Resolve(Unlink(fs, path).0, q) == Resolve(fs, q)
  {
    hide Tree, Unlink, Leaf, Components;
    UnlinkShape(fs, path);
    var after, i := Unlink(fs, path).0, Resolve(fs, path).value;
    assert StartOf(fs, q) != i ==> StartOf(after, q) == StartOf(fs, q) by { StartMoves(fs, path, q); }
    if LastName(path) == "" || LastName(path) == "." {
      ImproperUnlink(fs, path);
      RemovedWalk(fs, i, StartOf(fs, q), Components(q));
    } else {
      var (dir, name) := SplitLast(path).value;
      DetachWalk(fs, Resolve(fs, OrRoot(dir)).value, name, i, StartOf(fs, q), Components(q));
    }
  }

  lemma StartMoves(fs: Fs, path: string, q: string)
    requires Tree(fs) && Unlink(fs, path).1
    ensures Resolve(fs, path).Some?
    ensures var i := Resolve(fs, path).value;
            StartOf(Unlink(fs, path).0, q) == if StartOf(fs, q) == i then ROOT else StartOf(fs, q)
  {
    hide Tree, Unlink, Leaf;
    UnlinkShape(fs, path);
  }

  /** A successful unlink of a proper name makes the path unresolvable. */
  lemma ProperUnlinkGone(fs: Fs, path: string)
    requires Tree(fs) && Unlink(fs, path).1 && LastName(path) != "" && LastName(path) != "."
    ensures Resolve(Unlink(fs, path).0, path) == None
  {
    UnlinkTree(fs, path);
    UnlinkShape(fs, path);
    var after := Unlink(fs, path).0;
    SplitPath(fs, path);
    var (dir, name) := SplitLast(path).value;
    var i, d := Resolve(fs, path).value, Resolve(fs, OrRoot(dir)).value;
    hide Tree, Unlink, Leaf;
    assert StartOf(after, path) in after.inodes by { CwdExists(after); }
    WalkStays(after, StartOf(after, path), Components(path));
    DetachWalk(fs, d, name, i, StartOf(fs, path), Components(path));
    if StartOf(after, path) != StartOf(fs, path) {
      LeafPath(fs, i, Components(path), after);
    }
  }

  /** With an improper name the path is gone exactly when its walk passed the inode before its last step. */
  lemma ImproperUnlinkGone(fs: Fs, path: string)
    requires Tree(fs) && Unlink(fs, path).1 && (LastName(path) == "" || LastName(path) == ".")
    ensures Components(path) != [] && Resolve(fs, path).Some?
    ensures Resolve(Unlink(fs, path).0, path) == None <==> PassesBefore(fs, path, Resolve(fs, path).value)
  {
    hide Tree, Unlink, Leaf, Components;
    UnlinkShape(fs, path);
    ImproperUnlink(fs, path);
    var i, comps, start := Resolve(fs, path).value, Components(path), StartOf(fs, path);
    if comps == [] { SomeComponents(fs, path); }
    assert comps != [];
    RemovedWalk(fs, i, start, comps);
    if start == i {
      LeafFromRoot(fs, i, comps);
    }
  }

  /** With `.` as the last name it did. */
  lemma DotPassesBefore(fs: Fs, path: string)
    requires Tree(fs) && Unlink(fs, path).1 && LastName(path) == "."
    ensures Components(path) != [] && Resolve(fs, path).Some?
    ensures PassesBefore(fs, path, Resolve(fs, path).value)
  {
    hide Tree, Unlink, Leaf, Components;
    UnlinkShape(fs, path);
    SplitPath(fs, path);
    var (dir, name) := SplitLast(path).value;
    var comps := Components(path);
    assert comps[..|comps| - 1] == Components(dir);
    WalkVisitsEnd(fs, StartOf(fs, path), Components(dir));
  }

  /** A successful unlink keeps the result of every path whose walk does not pass the removed inode, and
      makes its own path unresolvable exactly when that does not end in a slash, or passes the inode
      before its last step as well. */
  lemma UnlinkFrame(fs: Fs, path: string, q: string)
    requires Tree(fs) && Unlink(fs, path).1
    ensures Components(path) != [] && Resolve(fs, path).Some?
    ensures !PathVisits(fs, q, Resolve(fs, path).value) ==> Resolve(Unlink(fs, path).0, q) == Resolve(fs, q)
    ensures Resolve(Unlink(fs, path).0, path) == None
            <==> LastName(path) != "" || PassesBefore(fs, path, Resolve(fs, path).value)
  {
    hide Tree, Unlink, PathVisits, PassesBefore;
    UnlinkKeeps(fs, path, q);
    if LastName(path) == "" || LastName(path) == "." {
      ImproperUnlinkGone(fs, path);
      if LastName(path) == "." {
        DotPassesBefore(fs, path);
      }
    } else {
      ProperUnlinkGone(fs, path);
      ProperComponents(fs, path);
    }
  }

  lemma ProperComponents(fs: Fs, path: string)
    requires Tree(fs) && Unlink(fs, path).1 && LastName(path) != ""
    ensures Components(path) != []
  {
    hide Tree, Unlink, Leaf;
    UnlinkShape(fs, path);
    SplitPath(fs, path);
  }

  /** Removed as `/a/`, the directory made as `/a` still resolves under that path, to an inode that is gone. */
  lemma DanglingPath()
    ensures var fs := Mkdir(NewFs(), "/a").0;
            var after := Unlink(fs, "/a/").0;
            Tree(fs) && Unlink(fs, "/a/").1 && Resolve(after, "/a/") == Some(2) && 2 !in after.inodes
  {
    hide Tree, Components, SplitLast, Unlink, Mkdir;
    DanglingDirectory();
    SlashPaths();
    var fs := Mkdir(NewFs(), "/a").0;
    MadeFirst();
    ImproperUnlink(fs, "/a/");
    ImproperUnlinkGone(fs, "/a/");
    RemovedWalk(fs, 2, ROOT, ["a"]);
    assert ["a"][..0] == [];
  }

  lemma MadeFirst()
    ensures Resolve(Mkdir(NewFs(), "/a").0, "/a/") == Some(2)
  {
    hide Components, SplitLast;
    SlashPaths();
    assert Slot(NewFs(), "/a") == Some((ROOT, "a"));
    assert ["a"][1..] == [];
  }

  lemma CwdExists(fs: Fs)
    requires Tree(fs)
    ensures fs.cwd in fs.inodes && ROOT in fs.inodes
  {
  }

  /** Unlinking a directory just made undoes the making, but for the number used up. */
  lemma MkdirThenUnlink(fs: Fs, path: string)
    requires Tree(fs) && Mkdir(fs, path).1 != 0
    ensures Unlink(Mkdir(fs, path).0, path) == (fs.(nextIno := fs.nextIno + 1), true)
  {
    hide Tree, Attach, Detach, Resolve, NewDirectory;
    var (d, name) := Slot(fs, path).value;
    SlotIsGood(fs, path);
    var i, n, made := fs.nextIno, NewDirectory(fs.nextIno, d), Mkdir(fs, path).0;
    NextFresh(fs);
    CwdExists(fs);
    AttachFrame(fs, path, n, OrRoot(SplitLast(path).value.0));
    MadeIsEmpty(fs, d, name);
    assert Victim(made, path) == Some(i);
    UndoAttach(fs, d, name, n);
  }

  lemma MadeIsEmpty(fs: Fs, d: nat, name: string)
    requires d in fs.inodes && d < fs.nextIno
    ensures var made := Attach(fs, d, name, NewDirectory(fs.nextIno, d));
            fs.nextIno in made.inodes && UserNames(made.inodes[fs.nextIno].children) == {}
  {
    assert UserNames(NewDirectory(fs.nextIno, d).children) == {};
  }

  lemma UndoAttach(fs: Fs, d: nat, name: string, n: Inode)
    requires d in fs.inodes && name !in fs.inodes[d].children && fs.cwd < fs.nextIno && forall i <- fs.inodes :: i < fs.nextIno
    ensures Detach(Attach(fs, d, name, n), d, name, fs.nextIno) == fs.(nextIno := fs.nextIno + 1)
  {
    var made := Attach(fs, d, name, n);
    var back := Detach(made, d, name, fs.nextIno);
    assert made.inodes[d].children - {name} == fs.inodes[d].children;
    assert back.inodes == fs.inodes;
  }

  // ---- File data ----

  /** A write stores as many words as fit below the limit, zero-fills the gap, keeps all other words
      and inodes, and a read of those positions gives the words back. */
  lemma WriteThenRead(fs: Fs, i: nat, offset: nat, buf: seq<u32>)
    requires i in fs.inodes && HoldsData(fs.inodes[i].itype)
    ensures var (after, n) := WriteInode(fs, i, offset, buf);
            var was, now := fs.inodes[i].data, after.inodes[i].data;
            && n == Writable(offset, |buf|) <= |buf|
            && ReadInode(after, i, offset, n) == buf[..n]
            && (forall k :: 0 <= k < |now| && !(offset <= k < offset + n) ==> now[k] == if k < |was| then was[k] else 0)
            && |now| == (if n > 0 && offset + n > |was| then offset + n else |was|)
            && (forall j <- fs.inodes :: j != i ==> after.inodes[j] == fs.inodes[j])
  {
    hide Written, Writable, ReadInode;
    var n := Writable(offset, |buf|);
    assert n <= |buf| by { WritableFits(offset, |buf|); }
    WrittenWords(fs.inodes[i].data, offset, buf, n);
    ReadBack(WriteInode(fs, i, offset, buf).0, i, offset, buf[..n]);
  }

  lemma WritableFits(offset: nat, n: nat)
    ensures Writable(offset, n) <= n
  {
  }

  lemma WrittenWords(data: seq<u32>, offset: nat, buf: seq<u32>, n: nat)
    requires n <= |buf|
    ensures var now := Written(data, offset, buf, n);
            && |now| == (if n > 0 && offset + n > |data| then offset + n else |data|)
            && (forall k :: 0 <= k < |now| && !(offset <= k < offset + n) ==> now[k] == if k < |data| then data[k] else 0)
            && (n > 0 ==> now[offset..offset + n] == buf[..n])
  {
  }

  lemma ReadBack(fs: Fs, i: nat, offset: nat, words: seq<u32>)
    requires i in fs.inodes && HoldsData(fs.inodes[i].itype)
    requires words == [] || (offset + |words| <= |fs.inodes[i].data| && fs.inodes[i].data[offset..offset + |words|] == words)
    ensures ReadInode(fs, i, offset, |words|) == words
  {
  }

  lemma SetDataTwice(fs: Fs, i: nat, a: seq<u32>, b: seq<u32>)
    requires i in fs.inodes
    ensures SetData(SetData(fs, i, a), i, b) == SetData(fs, i, b)
  {
    assert SetData(SetData(fs, i, a), i, b).inodes == SetData(fs, i, b).inodes;
  }

  /** Writing two buffers one after the other is writing them joined, limit included. */
  lemma WriteJoin(fs: Fs, i: nat, offset: nat, a: seq<u32>, b: seq<u32>)
    requires i in fs.inodes && HoldsData(fs.inodes[i].itype)
    ensures var (one, m) := WriteInode(fs, i, offset, a);
            var (two, n) := WriteInode(one, i, offset + |a|, b);
            WriteInode(fs, i, offset, a + b) == (two, m + n)
  {
    var data := fs.inodes[i].data;
    var m, n := Writable(offset, |a|), Writable(offset + |a|, |b|);
    assert Writable(offset, |a + b|) == m + n;
    assert Written(Written(data, offset, a, m), offset + |a|, b, n) == Written(data, offset, a + b, m + n);
    hide Written, Writable;
    SetDataTwice(fs, i, Written(data, offset, a, m), Written(data, offset, a + b, m + n));
  }

  // ---- A run of writes and truncations ----

  datatype DataOp = Put(offset: nat, buf: seq<u32>) | Trim(size: nat)

  /** One word stored in a plain sequence of at most `MAX_FILE_SIZE` words, padded with zeros. */
  function PutWord(data: seq<u32>, k: nat, w: u32): (r: seq<u32>)
    ensures |data| <= MAX_FILE_SIZE ==> |r| <= MAX_FILE_SIZE
  {
    if k >= MAX_FILE_SIZE then data
    else if k < |data| then data[k := w]
    else data + seq(k - |data|, _ => 0) + [w]
  }

  function PutWords(data: seq<u32>, k: nat, ws: seq<u32>): seq<u32> {
    if ws == [] then data else PutWord(PutWords(data, k, ws[..|ws| - 1]), k + |ws| - 1, ws[|ws| - 1])
  }

  function OnSeq(data: seq<u32>, op: DataOp): seq<u32> {
    match op
    case Put(offset, buf) => PutWords(data, offset, buf)
    case Trim(size) => if size < |data| then data[..size] else data
  }

  function OnSeqAll(data: seq<u32>, ops: seq<DataOp>): seq<u32> {
    if ops == [] then data else OnSeq(OnSeqAll(data, ops[..|ops| - 1]), ops[|ops| - 1])
  }

  function OnInode(i: nat, op: DataOp): Op {
    match op
    case Put(offset, buf) => WriteOp(i, offset, buf)
    case Trim(size) => TruncateOp(i, size)
  }

  function OnInodeAll(i: nat, ops: seq<DataOp>): (r: seq<Op>)
    ensures |r| == |ops|
  {
    seq(|ops|, k requires 0 <= k < |ops| => OnInode(i, ops[k]))
  }

  lemma {:induction false} WrittenByWord(data: seq<u32>, offset: nat, buf: seq<u32>)
    ensures Written(data, offset, buf, Writable(offset, |buf|)) == PutWords(data, offset, buf)
  {
    if buf != [] {
      hide Written, PutWord;
      var front := buf[..|buf| - 1];
      WrittenByWord(data, offset, front);
      OneWordMore(data, offset, front, buf[|buf| - 1]);
      assert buf == front + [buf[|buf| - 1]];
    }
  }

  lemma OneWordMore(data: seq<u32>, offset: nat, front: seq<u32>, w: u32)
    ensures Written(data, offset, front + [w], Writable(offset, |front| + 1))
         == PutWord(Written(data, offset, front, Writable(offset, |front|)), offset + |front|, w)
  {
    var buf, n := front + [w], Writable(offset, |front|);
    var was := Written(data, offset, front, n);
    assert Written(data, offset, buf, n) == was;
    if offset + |front| < MAX_FILE_SIZE {
      var now := Written(data, offset, buf, n + 1);
      assert now == PutWord(was, offset + n, w);
    }
  }

  /** Any sequence of writes and truncations of a file acts on its data as word-by-word updates act
      on a plain sequence, and on nothing else. */
  lemma {:induction false} DataRun(fs: Fs, i: nat, ops: seq<DataOp>)
    requires i in fs.inodes && HoldsData(fs.inodes[i].itype)
    ensures var after := Run(fs, OnInodeAll(i, ops));
            && after.inodes.Keys == fs.inodes.Keys && after.nextIno == fs.nextIno && after.cwd == fs.cwd
            && after.inodes[i].itype == fs.inodes[i].itype
            && after.inodes[i].data == OnSeqAll(fs.inodes[i].data, ops)
            && forall j <- fs.inodes :: j != i ==> after.inodes[j] == fs.inodes[j]
  {
    hide Written, Writable, PutWords;
    if ops != [] {
      var front, op := ops[..|ops| - 1], ops[|ops| - 1];
      DataRun(fs, i, front);
      assert OnInodeAll(i, ops)[..|ops| - 1] == OnInodeAll(i, front);
      if op.Put? {
        WrittenByWord(Run(fs, OnInodeAll(i, front)).inodes[i].data, op.offset, op.buf);
      }
    }
  }

  // ---- Listings ----

  /** In a tree, a listing names exactly the user entries, each once and in order, and decoding the
      encoded listing, whatever follows it, gives those names back character by character. */
  lemma Listing(fs: Fs, i: nat, tail: seq<u32>)
    requires Tree(fs) && IsDirectory(fs, i)
    ensures var names := NamesIn(fs, i);
            && Encodable(names)
            && (forall n :: n in names <==> exists c :: Entry(fs, i, n, c))
            && (forall a, b :: 0 <= a < b < |names| ==> Less(names[a], names[b]))
            && DecodeNames(EncodeNames(names) + tail, |names|) == Some(AllBytes(names))
            && |AllBytes(names)| == |names| && forall k :: 0 <= k < |names| ==> Spells(AllBytes(names)[k], names[k])
  {
    hide Spells;
    hide Less, AllEntered, EnteredOnce;
    var names, children := NamesIn(fs, i), fs.inodes[i].children;
    forall n ensures n in names <==> exists c :: Entry(fs, i, n, c) {
      SortedMembers(UserNames(children), n);
      if n in UserNames(children) {
        assert Entry(fs, i, n, children[n]);
      }
    }
    SortedIsSorted(UserNames(children));
    forall n <- names ensures |n| < TWO_32 {
      var c :| Entry(fs, i, n, c);
    }
    DecodeEncode(names, tail);
  }
}
