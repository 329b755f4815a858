/** What paths and operations mean, in terms of names, inodes and each other. */
module InodePaths {
  import opened Words
  import opened InodeFs
  import opened InodeTree
  import opened InodeFrames

  // ---- Resolution ----

  /** One name followed from inode `at`. */
  function Step(fs: Fs, at: nat, name: string): Option<nat> {
    if at in fs.inodes && fs.inodes[at].itype == Directory && |name| <= 64 && name in fs.inodes[at].children
    then Some(fs.inodes[at].children[name]) else None
  }

  lemma WalkName(fs: Fs, at: nat, name: string)
    ensures Walk(fs.inodes, at, [name]) == Step(fs, at, name)
  {
    assert [name][1..] == [];
  }

  lemma ResolveJoin(fs: Fs, p: string, q: string)
    requires p != ""
    ensures Resolve(fs, p + "/" + q) ==
            match Resolve(fs, p)
            case Some(at) => Walk(fs.inodes, at, Components(q))
            case None => None
  {
    hide Components, Walk;
    ComponentsJoin(p, q);
    WalkConcat(fs.inodes, StartOf(fs, p), Components(p), Components(q));
  }

  /** Resolution is fixed by these laws: the empty path and the root, a redundant slash, and one more
      name after nothing, after a slash, and after a path. */
  lemma PathLaws(fs: Fs, p: string, name: string)
    requires name != "" && '/' !in name
    ensures Resolve(fs, "") == None && Resolve(fs, "/") == Some(1)
    ensures p != "" ==> Resolve(fs, p + "/") == Resolve(fs, p)
    ensures Resolve(fs, name) == Step(fs, fs.cwd, name) && Resolve(fs, "/" + name) == Step(fs, 1, name)
    ensures p != "" && Resolve(fs, p).Some? ==> Resolve(fs, p + "/" + name) == Step(fs, Resolve(fs, p).value, name)
    ensures p != "" && Resolve(fs, p).None? ==> Resolve(fs, p + "/" + name) == None
  {
    hide Components, Step;
    ComponentsName(name);
    ComponentsName("");
    ComponentsJoin("", "");
    ComponentsJoin("", name);
    assert "" + "/" + "" == "/" && "" + "/" + name == "/" + name;
    assert [] + [name] == [name];
    WalkName(fs, fs.cwd, name);
    WalkName(fs, 1, name);
    if p != "" {
      ResolveJoin(fs, p, "");
      ResolveJoin(fs, p, name);
      assert p + "/" + "" == p + "/";
      if Resolve(fs, p).Some? { WalkName(fs, Resolve(fs, p).value, name); }
    }
  }

  /** A relative path means what it means after any path of the current directory. */
  lemma RelativePath(fs: Fs, p: string, q: string)
    requires q != "" && q[0] != '/' && Resolve(fs, p) == Some(fs.cwd)
    ensures Resolve(fs, q) == Resolve(fs, p + "/" + q)
  {
    hide Components;
    ResolveJoin(fs, p, q);
  }

  /** A change of directory succeeds exactly for a path that leads to a directory, changes nothing but
      the meaning of relative paths, and makes them mean what they meant after that path. */
  lemma ChdirMoves(fs: Fs, d: string, q: string)
    ensures Chdir(fs, d).1 <==> exists i :: Resolve(fs, d) == Some(i) && IsDirectory(fs, i)
    ensures !Chdir(fs, d).1 ==> Chdir(fs, d).0 == fs
    ensures var after := Chdir(fs, d).0;
            && after.inodes == fs.inodes && after.nextIno == fs.nextIno
            && (Chdir(fs, d).1 && q != "" ==> Resolve(after, q) == if q[0] == '/' then Resolve(fs, q) else Resolve(fs, d + "/" + q))
  {
    hide Components;
    if Chdir(fs, d).1 {
      ResolveJoin(fs, d, q);
      assert Resolve(fs, d) == Some(Chdir(fs, d).0.cwd);
    }
  }

  // ---- Creation ----

  /** The inode `dir` leads to, 0 for none; nothing before the slash means the root. */
  function DirectoryOf(fs: Fs, dir: string): nat {
    match Resolve(fs, if dir == "" then "/" else dir)
    case Some(d) => d
    case None => 0
  }

  /** Creating succeeds exactly for a valid new name in an existing directory. */
  ghost predicate MayCreate(fs: Fs, dir: string, name: string) {
    && 0 < |name| <= 64 && '\0' !in name
    && Resolve(fs, if dir == "" then "/" else dir).Some? && IsDirectory(fs, DirectoryOf(fs, dir))
    && Resolve(fs, dir + "/" + name) == None
  }

  lemma SlotExact(fs: Fs, dir: string, name: string)
    requires '/' !in name
    ensures Slot(fs, dir + "/" + name).Some? <==> MayCreate(fs, dir, name)
    ensures MayCreate(fs, dir, name) ==> Slot(fs, dir + "/" + name) == Some((DirectoryOf(fs, dir), name))
  {
    hide Components, SplitLast, Walk;
    SplitJoin(dir, name);
    assert dir + "/" + name == "/" ==> name == "";
    if name != "" {
      PathLaws(fs, dir, name);
      assert dir == "" ==> dir + "/" + name == "/" + name;
      assert Step(fs, 1, name) == Step(fs, ROOT, name);
    }
  }

  lemma NoSlash(path: string)
    requires '/' !in path
    ensures SplitLast(path) == None
  {
  }

  /** All that is added by entering `n` under `name`: the new inode and one name in its directory. */
  ghost predicate Added(fs: Fs, after: Fs, d: nat, name: string, n: Inode) {
    && after.inodes.Keys == fs.inodes.Keys + {fs.nextIno} && fs.nextIno !in fs.inodes && d in fs.inodes
    && after.inodes[fs.nextIno] == n
    && (forall i <- fs.inodes :: i != d ==> after.inodes[i] == fs.inodes[i])
    && after.inodes[d] == fs.inodes[d].(children := fs.inodes[d].children[name := fs.nextIno])
    && after.cwd == fs.cwd && after.nextIno == fs.nextIno + 1
  }

  /** A node of the asked type, empty, goes into the directory under the new name, and nothing else
      changes; it is made exactly when it may be. */
  lemma FileCreated(fs: Fs, dir: string, name: string, itype: InodeType)
    requires Tree(fs) && '/' !in name
    ensures var (after, ino) := CreateFile(fs, dir + "/" + name, itype);
            && (ino != 0 <==> MayCreate(fs, dir, name))
            && (ino == 0 ==> after == fs)
            && (ino != 0 ==>
                  && var d := DirectoryOf(fs, dir);
                  && ino == fs.nextIno
                  && Added(fs, after, d, name, Inode(ino, itype, [], map[], d, 0, 0))
                  && Resolve(after, dir + "/" + name) == Some(ino))
  {
    hide Tree, Resolve, SplitLast, MayCreate, DirectoryOf, Slot;
    SlotExact(fs, dir, name);
    NextFresh(fs);
    CreationFrame(fs, dir + "/" + name, itype, "");
    if MayCreate(fs, dir, name) {
      SlotIsGood(fs, dir + "/" + name);
    }
  }

  ghost predicate DotsLead(fs: Fs, path: string, here: nat, up: nat) {
    Resolve(fs, path + "/.") == Some(here) && Resolve(fs, path + "/..") == Some(up)
  }

  /** The same for a directory, whose `.` is itself and whose `..` is the directory it is in. */
  lemma DirectoryCreated(fs: Fs, dir: string, name: string)
    requires Tree(fs) && '/' !in name
    ensures var path := dir + "/" + name;
            var (after, ino) := Mkdir(fs, path);
            && (ino != 0 <==> MayCreate(fs, dir, name))
            && (ino == 0 ==> after == fs)
            && (ino != 0 ==>
                  && var d := DirectoryOf(fs, dir);
                  && ino == fs.nextIno
                  && Added(fs, after, d, name, Inode(ino, Directory, [], map["." := ino, ".." := d], d, 0, 0))
                  && Resolve(after, path) == Some(ino) && DotsLead(after, path, ino, d))
  {
    hide Tree, Resolve, SplitLast, MayCreate, DirectoryOf, Slot;
    SlotExact(fs, dir, name);
    NextFresh(fs);
    var path := dir + "/" + name;
    CreationFrame(fs, path, Regular, "");
    if MayCreate(fs, dir, name) {
      SlotIsGood(fs, path);
      var after := Mkdir(fs, path).0;
      PathLaws(after, path, ".");
      PathLaws(after, path, "..");
      assert path + "/" + "." == path + "/." && path + "/" + ".." == path + "/..";
    }
  }

  /** Without a slash nothing is created, nor removed. */
  lemma SlashNeeded(fs: Fs, path: string, itype: InodeType)
    requires '/' !in path
    ensures Mkdir(fs, path) == (fs, 0) && CreateFile(fs, path, itype) == (fs, 0) && Unlink(fs, path) == (fs, false)
  {
    NoSlash(path);
  }

  /** What is written to a regular file or pipe just created is stored up to the limit and read back
      through its path; a node of another type takes nothing. */
  lemma CreateThenWrite(fs: Fs, path: string, itype: InodeType, buf: seq<u32>)
    requires Tree(fs) && CreateFile(fs, path, itype).1 != 0
    ensures var (made, ino) := CreateFile(fs, path, itype);
            var (after, n) := WriteInode(made, ino, 0, buf);
            && Resolve(after, path) == Some(ino)
            && (if itype == Regular || itype == Pipe
                then n == (if |buf| < 4096 then |buf| else 4096)
                     && forall room: nat :: ReadInode(after, ino, 0, room) == buf[..if room < n then room else n]
                else n == 0 && after == made)
  {
    hide Tree, Resolve, SplitLast, Written, ReadInode, Attach;
    CreationFrame(fs, path, itype, "");
    var (made, ino) := CreateFile(fs, path, itype);
    MadeNode(fs, path, itype);
    if HoldsData(itype) {
      var (after, n) := WriteInode(made, ino, 0, buf);
      WriteThenRead(made, ino, 0, buf);
      SameWalks(made, ino, Written([], 0, buf, n), path);
      EmptyWritten(buf, n);
      forall room: nat ensures ReadInode(after, ino, 0, room) == buf[..if room < n then room else n] {
        ReadWords(after, ino, 0, room);
        assert after.inodes[ino].data == buf[..n];
        assert ReadInode(after, ino, 0, room) == buf[..if room < n then room else n];
      }
    }
  }

  lemma MadeNode(fs: Fs, path: string, itype: InodeType)
    requires Tree(fs) && CreateFile(fs, path, itype).1 != 0
    ensures var (made, ino) := CreateFile(fs, path, itype);
            ino in made.inodes && made.inodes[ino].itype == itype && made.inodes[ino].data == []
  {
    hide Tree, Resolve, SplitLast, Slot;
    NextFresh(fs);
    SlotIsGood(fs, path);
  }

  lemma EmptyWritten(buf: seq<u32>, n: nat)
    requires n <= |buf|
    ensures Written([], 0, buf, n) == buf[..n]
  {
  }

  lemma {:induction false} SetDataWalk(fs: Fs, i: nat, data: seq<u32>, at: nat, comps: seq<string>)
    requires i in fs.inodes
    ensures Walk(SetData(fs, i, data).inodes, at, comps) == Walk(fs.inodes, at, comps)
    decreases |comps|
  {
    if comps != [] && at in fs.inodes && comps[0] in fs.inodes[at].children {
      SetDataWalk(fs, i, data, fs.inodes[at].children[comps[0]], comps[1..]);
    }
  }

  /** File data has no part in the meaning of paths. */
  lemma SameWalks(fs: Fs, i: nat, data: seq<u32>, path: string)
    requires i in fs.inodes
    ensures Resolve(SetData(fs, i, data), path) == Resolve(fs, path)
  {
    hide Walk, Components;
    SetDataWalk(fs, i, data, StartOf(fs, path), Components(path));
  }

  /** A read stores the words of a file from the offset on, as many as there are and as fit. */
  lemma ReadWords(fs: Fs, i: nat, offset: nat, room: nat)
    requires i in fs.inodes && (fs.inodes[i].itype == Regular || fs.inodes[i].itype == Pipe)
    ensures var words, data := ReadInode(fs, i, offset, room), fs.inodes[i].data;
            && |words| == (if offset >= |data| then 0 else if room < |data| - offset then room else |data| - offset)
            && forall k :: 0 <= k < |words| ==> words[k] == data[offset + k]
  {
  }

  // ---- Removal ----

  lemma {:induction false} SlashSplits(path: string)
    requires '/' in path
    ensures SplitLast(path).Some?
  {
    if path[|path| - 1] != '/' {
      assert path == path[..|path| - 1] + [path[|path| - 1]];
      SlashSplits(path[..|path| - 1]);
    }
  }

  lemma LeafExact(fs: Fs, i: nat)
    requires Tree(fs) && i in fs.inodes
    ensures Leaf(fs, i) <==> forall n, c :: !Entry(fs, i, n, c)
  {
    hide EntriesDown, AllEntered, EnteredOnce;
    if Leaf(fs, i) {
      forall n, c ensures !Entry(fs, i, n, c) { LeafHasNoEntry(fs, i, n, c); }
    } else {
      var n :| n in UserNames(fs.inodes[i].children);
      assert Entry(fs, i, n, fs.inodes[i].children[n]);
    }
  }

  /** In a tree, a path that leads somewhere leads to an inode of the table, and so does its directory part. */
  lemma ResolveStays(fs: Fs, path: string)
    requires Tree(fs) && Resolve(fs, path).Some?
    ensures Resolve(fs, path).value in fs.inodes
    ensures SplitLast(path).Some? ==> Resolve(fs, OrRoot(SplitLast(path).value.0)).Some?
  {
    hide Tree, Components, Walk, SplitLast;
    CwdExists(fs);
    WalkStays(fs, StartOf(fs, path), Components(path));
    if SplitLast(path).Some? {
      SplitPath(fs, path);
      var (dir, name) := SplitLast(path).value;
      WalkConcat(fs.inodes, StartOf(fs, path), Components(dir), if name == "" then [] else [name]);
    }
  }

  lemma UnlinkExact(fs: Fs, path: string)
    requires Tree(fs)
    ensures Unlink(fs, path).1 <==>
              '/' in path && Resolve(fs, path).Some? && Resolve(fs, path).value != 1
              && forall n, c :: !Entry(fs, Resolve(fs, path).value, n, c)
    ensures !Unlink(fs, path).1 ==> Unlink(fs, path).0 == fs
  {
    hide Tree, Components, Walk, SplitLast, Entry, UserNames;
    if Resolve(fs, path).Some? {
      ResolveStays(fs, path);
      LeafExact(fs, Resolve(fs, path).value);
      if '/' in path {
        SlashSplits(path);
        assert path == "/" ==> Resolve(fs, path) == Some(ROOT) by { PathLaws(fs, "", "a"); }
      } else {
        NoSlash(path);
      }
    }
  }

  /** The directory an inode is entered in under a name is its parent. */
  lemma EnteredIn(fs: Fs, d: nat, name: string, i: nat, j: nat)
    requires Tree(fs) && Entry(fs, d, name, i)
    ensures Entry(fs, j, name, i) <==> j == d
  {
    hide NodeOk, AllEntered, EnteredOnce, Entry;
  }

  lemma NoDotEntry(fs: Fs, j: nat, name: string, i: nat)
    requires Tree(fs) && (name == "" || name == ".")
    ensures !Entry(fs, j, name, i)
  {
    hide NodeOk, AllEntered, EnteredOnce;
  }

  /** Unlink succeeds exactly for a path with a slash that leads to a file, with or without data, or to
      a directory without user entries other than the root. Every other inode keeps all but the one
      entry taken from the directory, and from a removed current directory the root takes over. */
  lemma Removed(fs: Fs, path: string)
    requires Tree(fs)
    ensures Unlink(fs, path).1 <==>
              '/' in path && Resolve(fs, path).Some? && Resolve(fs, path).value != 1
              && forall n, c :: !Entry(fs, Resolve(fs, path).value, n, c)
    ensures !Unlink(fs, path).1 ==> Unlink(fs, path).0 == fs
    ensures Unlink(fs, path).1 ==>
              var i, after := Resolve(fs, path).value, Unlink(fs, path).0;
              && after.inodes.Keys == fs.inodes.Keys - {i} && after.nextIno == fs.nextIno
              && after.cwd == (if fs.cwd == i then 1 else fs.cwd)
              && forall j <- after.inodes :: after.inodes[j] ==
                   if Entry(fs, j, LastName(path), i) then fs.inodes[j].(children := fs.inodes[j].children - {LastName(path)})
                   else fs.inodes[j]
  {
    hide Tree, Resolve, SplitLast, Entry, Leaf, Unlink;
    UnlinkExact(fs, path);
    if Unlink(fs, path).1 {
      UnlinkShape(fs, path);
      var (dir, name) := SplitLast(path).value;
      var i, d, after := Resolve(fs, path).value, Resolve(fs, OrRoot(dir)).value, Unlink(fs, path).0;
      forall j <- after.inodes
        ensures after.inodes[j] == if Entry(fs, j, name, i) then fs.inodes[j].(children := fs.inodes[j].children - {name}) else fs.inodes[j]
      {
        if name == "" || name == "." { NoDotEntry(fs, j, name, i); } else { EnteredIn(fs, d, name, i, j); }
      }
    }
  }
}
