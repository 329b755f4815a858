/** The tree invariant of the inode table and the operations that keep it. */
module InodeTree {
  import opened Words
  import opened InodeFs

  // ---- Paths ----

  lemma {:induction false} SlashAtConcat(a: string, b: string)
    requires '/' in a || b == "" || b[0] == '/'
    ensures SlashAt(a + b) == SlashAt(a)
  {
    if a == "" {
      assert a + b == b;
    } else if a[0] != '/' {
      assert (a + b)[1..] == a[1..] + b;
      SlashAtConcat(a[1..], b);
    }
  }

  lemma {:induction false} ComponentsJoin(a: string, b: string)
    ensures Components(a + "/" + b) == Components(a) + Components(b)
    decreases |a|
  {
    hide Components, SlashAt;
    var p, k := a + "/" + b, SlashAt(a);
    SlashAtConcat(a, "/" + b);
    assert p == a + ("/" + b);
    ComponentsFirst(p);
    if k < |a| {
      ComponentsFirst(a);
      assert p[k + 1..] == a[k + 1..] + "/" + b && p[..k] == a[..k];
      ComponentsJoin(a[k + 1..], b);
      var first, x, y := Piece(a[..k]), Components(a[k + 1..]), Components(b);
      assert first + (x + y) == (first + x) + y;
    } else {
      assert p[..k] == a && p[k + 1..] == b;
      WholePiece(a);
    }
  }

  lemma ComponentsFirst(p: string)
    requires SlashAt(p) < |p|
    ensures Components(p) == Piece(p[..SlashAt(p)]) + Components(p[SlashAt(p) + 1..])
  {
    hide SlashAt, Piece;
  }

  lemma WholePiece(a: string)
    requires SlashAt(a) == |a|
    ensures Components(a) == Piece(a)
  {
    assert a[..|a|] == a;
    assert Piece(a) + [] == Piece(a);
  }

  lemma ComponentsName(name: string)
    requires '/' !in name
    ensures Components(name) == if name == "" then [] else [name]
  {
    if name != "" {
      assert SlashAt(name) == |name|;
      assert name[..|name|] == name;
    }
  }

  /** The components of a path are those of its directory part and its last name. */
  lemma SplitPath(fs: Fs, path: string)
    requires SplitLast(path).Some?
    ensures var (dir, name) := SplitLast(path).value;
            && Components(path) == Components(dir) + (if name == "" then [] else [name])
            && Resolve(fs, OrRoot(dir)) == Walk(fs.inodes, StartOf(fs, path), Components(dir))
            && '/' !in name
  {
    var (dir, name) := SplitLast(path).value;
    ComponentsJoin(dir, name);
    ComponentsName(name);
    if dir == "" {
      assert Components("/") == [] by { assert "/"[1..] == ""; }
    }
  }

  lemma {:induction false} WalkConcat(inodes: map<nat, Inode>, at: nat, a: seq<string>, b: seq<string>)
    ensures Walk(inodes, at, a + b) ==
            match Walk(inodes, at, a)
            case Some(x) => Walk(inodes, x, b)
            case None => None
    decreases |a|
  {
    if a == [] {
      assert a + b == b;
    } else {
      assert (a + b)[1..] == a[1..] + b;
      if at in inodes && a[0] in inodes[at].children {
        WalkConcat(inodes, inodes[at].children[a[0]], a[1..], b);
      }
    }
  }

  // ---- The invariant ----

  predicate GoodName(n: string) {
    n != "" && '/' !in n && |n| <= MAX_NAME_LEN
  }

  /** Directory `d` has the user entry `n` for inode `c`. */
  ghost predicate Entry(fs: Fs, d: nat, n: string, c: nat) {
    d in fs.inodes && n in fs.inodes[d].children && fs.inodes[d].children[n] == c && !IsDot(n)
  }

  ghost predicate NodeOk(fs: Fs, i: nat)
    requires i in fs.inodes
  {
    var x := fs.inodes[i];
    && 1 <= i < fs.nextIno && x.ino == i
    && x.size == |x.data| <= MAX_FILE_SIZE && (!HoldsData(x.itype) ==> x.data == [])
    && (x.itype != Directory ==> x.children == map[])
    && ("." in x.children ==> i != ROOT && x.children["."] == i)
    && (".." in x.children ==> i != ROOT && x.children[".."] == x.parent)
  }

  /** Every user entry leads down to an inode that knows its parent. */
  ghost predicate EntriesDown(fs: Fs) {
    forall d, n, c :: Entry(fs, d, n, c) ==> c in fs.inodes && fs.inodes[c].parent == d && d < c && GoodName(n)
  }

  /** Every inode but the root is entered in its parent. */
  ghost predicate AllEntered(fs: Fs) {
    forall i <- fs.inodes :: i != ROOT ==> exists n :: Entry(fs, fs.inodes[i].parent, n, i)
  }

  /** No inode is entered twice. */
  ghost predicate EnteredOnce(fs: Fs) {
    forall d, m, n, c :: Entry(fs, d, m, c) && Entry(fs, d, n, c) ==> m == n
  }

  ghost predicate IsDirectory(fs: Fs, i: nat) {
    i in fs.inodes && fs.inodes[i].itype == Directory
  }

  ghost predicate Tree(fs: Fs) {
    && IsDirectory(fs, ROOT) && fs.inodes[ROOT].parent == 0 && IsDirectory(fs, fs.cwd)
    && (forall i <- fs.inodes :: NodeOk(fs, i))
    && EntriesDown(fs) && AllEntered(fs) && EnteredOnce(fs)
  }

  lemma NewIsTree()
    ensures Tree(NewFs())
  {
    var fs := NewFs();
    assert fs.inodes.Keys == {ROOT};
  }

  lemma ParentIsBelow(fs: Fs, i: nat)
    requires Tree(fs) && i in fs.inodes && i != ROOT
    ensures IsDirectory(fs, fs.inodes[i].parent) && fs.inodes[i].parent < i
  {
    var n :| Entry(fs, fs.inodes[i].parent, n, i);
    assert NodeOk(fs, fs.inodes[i].parent);
  }

  /** Walking never leaves the table. */
  lemma {:induction false} WalkStays(fs: Fs, at: nat, comps: seq<string>)
    requires Tree(fs) && at in fs.inodes
    ensures Walk(fs.inodes, at, comps).Some? ==> Walk(fs.inodes, at, comps).value in fs.inodes
    decreases |comps|
  {
    if comps != [] && at in fs.inodes && comps[0] in fs.inodes[at].children {
      var c := fs.inodes[at].children[comps[0]];
      assert NodeOk(fs, at);
      if !IsDot(comps[0]) {
        assert Entry(fs, at, comps[0], c);
      } else if at != ROOT {
        ParentIsBelow(fs, at);
      }
      WalkStays(fs, c, comps[1..]);
    }
  }

  // ---- Creating ----

  /** A fresh inode of any type for directory `d`. */
  ghost predicate Fresh(fs: Fs, d: nat, n: Inode) {
    n == NewDirectory(fs.nextIno, d) || exists t :: n == NewInode(fs.nextIno, t, d)
  }

  lemma NextFresh(fs: Fs)
    requires Tree(fs)
    ensures fs.nextIno > 1 && forall i <- fs.inodes :: i < fs.nextIno
  {
    hide EntriesDown, AllEntered, EnteredOnce;
    assert NodeOk(fs, ROOT);
    forall i <- fs.inodes ensures i < fs.nextIno {
      assert NodeOk(fs, i);
    }
  }

  lemma AttachEntries(fs: Fs, d: nat, name: string, n: Inode, e: nat, m: string, c: nat)
    requires IsDirectory(fs, d) && name !in fs.inodes[d].children && Fresh(fs, d, n)
    requires forall i <- fs.inodes :: i < fs.nextIno
    ensures Entry(Attach(fs, d, name, n), e, m, c) <==>
            Entry(fs, e, m, c) || (e == d && m == name && c == fs.nextIno && !IsDot(name))
  {
  }

  ghost predicate OneMore(fs: Fs, after: Fs, d: nat, name: string) {
    && d in fs.inodes && after.inodes.Keys == fs.inodes.Keys + {fs.nextIno} && after.inodes[fs.nextIno].parent == d
    && (forall i <- fs.inodes :: i < fs.nextIno && after.inodes[i].parent == fs.inodes[i].parent)
    && (forall e, m, c :: Entry(after, e, m, c) <==> Entry(fs, e, m, c) || (e == d && m == name && c == fs.nextIno))
  }

  lemma AttachNodes(fs: Fs, d: nat, name: string, n: Inode)
    requires Tree(fs) && IsDirectory(fs, d) && name !in fs.inodes[d].children && Fresh(fs, d, n) && !IsDot(name)
    ensures forall i <- Attach(fs, d, name, n).inodes :: NodeOk(Attach(fs, d, name, n), i)
    ensures OneMore(fs, Attach(fs, d, name, n), d, name)
  {
    hide EntriesDown, AllEntered, EnteredOnce, Entry;
    NextFresh(fs);
    var after := Attach(fs, d, name, n);
    forall i <- after.inodes ensures NodeOk(after, i) {
      if i in fs.inodes { assert NodeOk(fs, i); }
    }
    forall e, m, c ensures Entry(after, e, m, c) <==> Entry(fs, e, m, c) || (e == d && m == name && c == fs.nextIno) {
      AttachEntries(fs, d, name, n, e, m, c);
    }
  }

  lemma OneMoreEntries(fs: Fs, after: Fs, d: nat, name: string)
    requires OneMore(fs, after, d, name) && GoodName(name) && d != fs.nextIno
    requires EntriesDown(fs) && AllEntered(fs) && EnteredOnce(fs) && ROOT in fs.inodes
    ensures EntriesDown(after) && AllEntered(after) && EnteredOnce(after)
  {
    hide Entry, GoodName;
    forall i <- after.inodes | i != ROOT ensures exists m :: Entry(after, after.inodes[i].parent, m, i) {
      if i in fs.inodes {
        var m :| Entry(fs, fs.inodes[i].parent, m, i);
        assert Entry(after, after.inodes[i].parent, m, i);
      } else {
        assert Entry(after, d, name, i);
      }
    }
  }

  lemma AttachKeepsTree(fs: Fs, d: nat, name: string, n: Inode)
    requires Tree(fs) && IsDirectory(fs, d) && name !in fs.inodes[d].children && GoodName(name) && Fresh(fs, d, n)
    requires !IsDot(name)
    ensures Tree(Attach(fs, d, name, n))
  {
    hide NodeOk, Entry, EntriesDown, AllEntered, EnteredOnce, OneMore;
    NextFresh(fs);
    AttachNodes(fs, d, name, n);
    OneMoreEntries(fs, Attach(fs, d, name, n), d, name);
  }

  /** A new entry keeps the tree exactly when it is not named like a dot entry. */
  lemma AttachTree(fs: Fs, d: nat, name: string, n: Inode)
    requires Tree(fs) && IsDirectory(fs, d) && name !in fs.inodes[d].children && GoodName(name) && Fresh(fs, d, n)
    ensures Tree(Attach(fs, d, name, n)) <==> !IsDot(name)
  {
    if IsDot(name) {
      var after := Attach(fs, d, name, n);
      assert NodeOk(fs, d);
      if d != ROOT {
        ParentIsBelow(fs, d);
      }
      assert name in after.inodes[d].children && !NodeOk(after, d);
    } else {
      AttachKeepsTree(fs, d, name, n);
    }
  }

  lemma SlotIsGood(fs: Fs, path: string)
    requires Slot(fs, path).Some?
    ensures var (d, name) := Slot(fs, path).value;
            IsDirectory(fs, d) && name !in fs.inodes[d].children && GoodName(name) && SplitLast(path).Some?
            && SplitLast(path).value.1 == name
  {
  }

  /** The last component of a path, empty after a trailing slash. */
  function LastName(path: string): string {
    match SplitLast(path)
    case Some((_, name)) => name
    case None => path
  }

  /** A successful creation keeps the tree exactly when the new name is not `.` or `..`. */
  lemma CreationTree(fs: Fs, path: string, itype: InodeType)
    requires Tree(fs)
    ensures Mkdir(fs, path).1 != 0 ==> (Tree(Mkdir(fs, path).0) <==> !IsDot(LastName(path)))
    ensures CreateFile(fs, path, itype).1 != 0 ==> (Tree(CreateFile(fs, path, itype).0) <==> !IsDot(LastName(path)))
    ensures Mkdir(fs, path).1 == 0 ==> Mkdir(fs, path).0 == fs
    ensures CreateFile(fs, path, itype).1 == 0 ==> CreateFile(fs, path, itype).0 == fs
  {
    hide Tree, Slot, Attach;
    if Slot(fs, path).Some? {
      SlotIsGood(fs, path);
      var (d, name) := Slot(fs, path).value;
      AttachTree(fs, d, name, NewDirectory(fs.nextIno, d));
      AttachTree(fs, d, name, NewInode(fs.nextIno, itype, d));
      NextFresh(fs);
    }
  }

  // ---- Removing ----

  /** A leaf: nothing is entered in it. */
  ghost predicate Leaf(fs: Fs, i: nat) {
    i in fs.inodes && (fs.inodes[i].itype == Directory ==> UserNames(fs.inodes[i].children) == {})
  }

  lemma LeafHasNoEntry(fs: Fs, i: nat, m: string, c: nat)
    requires Tree(fs) && Leaf(fs, i)
    ensures !Entry(fs, i, m, c)
  {
    hide EntriesDown, AllEntered, EnteredOnce;
    assert NodeOk(fs, i);
    var x := fs.inodes[i];
    assert m in x.children && !IsDot(m) ==> m in UserNames(x.children);
  }

  lemma DetachLookup(fs: Fs, d: nat, name: string, i: nat, e: nat, m: string, c: nat)
    requires d in fs.inodes
    ensures Entry(Detach(fs, d, name, i), e, m, c) <==> Entry(fs, e, m, c) && e != i && !(e == d && m == name)
  {
  }

  lemma DetachEntries(fs: Fs, d: nat, name: string, i: nat, e: nat, m: string, c: nat)
    requires Tree(fs) && Entry(fs, d, name, i) && Leaf(fs, i)
    ensures Entry(Detach(fs, d, name, i), e, m, c) <==> Entry(fs, e, m, c) && c != i
  {
    LeafHasNoEntry(fs, i, m, c);
    DetachLookup(fs, d, name, i, e, m, c);
    TreeParts(fs);
    hide Detach, Leaf, NodeOk, AllEntered, Tree;
    if Entry(fs, e, m, i) {
      assert e == fs.inodes[i].parent == d && m == name;
    }
  }

  lemma TreeParts(fs: Fs)
    requires Tree(fs)
    ensures EntriesDown(fs) && AllEntered(fs) && EnteredOnce(fs)
  {
  }

  ghost predicate OneLess(fs: Fs, after: Fs, i: nat) {
    && after.inodes.Keys == fs.inodes.Keys - {i}
    && (forall j <- after.inodes :: after.inodes[j].parent == fs.inodes[j].parent)
    && (forall e, m, c :: Entry(after, e, m, c) <==> Entry(fs, e, m, c) && c != i)
  }

  lemma DetachNodes(fs: Fs, d: nat, name: string, i: nat)
    requires Tree(fs) && Entry(fs, d, name, i) && Leaf(fs, i)
    ensures d < i && i != ROOT && OneLess(fs, Detach(fs, d, name, i), i)
    ensures forall j <- Detach(fs, d, name, i).inodes :: NodeOk(Detach(fs, d, name, i), j)
    ensures IsDirectory(Detach(fs, d, name, i), ROOT) && Detach(fs, d, name, i).inodes[ROOT].parent == 0
    ensures IsDirectory(Detach(fs, d, name, i), Detach(fs, d, name, i).cwd)
  {
    hide AllEntered, EnteredOnce, Leaf, UserNames;
    var after := Detach(fs, d, name, i);
    assert NodeOk(fs, d);
    assert d < i;
    hide EntriesDown;
    forall e, m, c ensures Entry(after, e, m, c) <==> Entry(fs, e, m, c) && c != i {
      DetachEntries(fs, d, name, i, e, m, c);
    }
    hide Entry;
    forall j <- after.inodes ensures NodeOk(after, j) {
      assert NodeOk(fs, j);
    }
  }

  lemma OneLessEntries(fs: Fs, after: Fs, i: nat)
    requires OneLess(fs, after, i)
    requires EntriesDown(fs) && AllEntered(fs) && EnteredOnce(fs)
    ensures EntriesDown(after) && AllEntered(after) && EnteredOnce(after)
  {
    hide Entry;
    forall j <- after.inodes | j != ROOT ensures exists m :: Entry(after, after.inodes[j].parent, m, j) {
      var m :| Entry(fs, fs.inodes[j].parent, m, j);
      assert Entry(after, after.inodes[j].parent, m, j);
    }
  }

  lemma DetachKeepsTree(fs: Fs, d: nat, name: string, i: nat)
    requires Tree(fs) && Entry(fs, d, name, i) && Leaf(fs, i)
    ensures Tree(Detach(fs, d, name, i))
  {
    hide NodeOk, Entry, EntriesDown, AllEntered, EnteredOnce, Leaf, OneLess;
    DetachNodes(fs, d, name, i);
    OneLessEntries(fs, Detach(fs, d, name, i), i);
  }

  /** Dropping an inode whose entry stays behind breaks the tree. */
  lemma DanglingEntry(fs: Fs, name: string, i: nat)
    requires Tree(fs) && i in fs.inodes && i != ROOT && (name == "" || name == ".")
    ensures !Tree(Detach(fs, i, name, i))
  {
    ParentIsBelow(fs, i);
    var p, after := fs.inodes[i].parent, Detach(fs, i, name, i);
    var m :| Entry(fs, p, m, i);
    DetachLookup(fs, i, name, i, p, m, i);
    assert i !in after.inodes;
    hide Detach, Entry, NodeOk, AllEntered, EnteredOnce;
    assert Entry(after, p, m, i);
  }

  /** What a successful unlink removed, and from where. */
  lemma UnlinkShape(fs: Fs, path: string)
    requires Tree(fs) && Unlink(fs, path).1
    ensures SplitLast(path).Some?
    ensures var (dir, name) := SplitLast(path).value;
            var i := Resolve(fs, path).value;
            && Resolve(fs, path).Some? && Leaf(fs, i) && i != ROOT
            && Resolve(fs, OrRoot(dir)).Some?
            && var d := Resolve(fs, OrRoot(dir)).value;
            && Unlink(fs, path).0 == Detach(fs, d, name, i)
            && (if name == "" || name == "." then d == i else Entry(fs, d, name, i))
  {
    hide EntriesDown, AllEntered, EnteredOnce;
    var (dir, name) := SplitLast(path).value;
    var i, d := Resolve(fs, path).value, Resolve(fs, OrRoot(dir)).value;
    SplitPath(fs, path);
    var start := StartOf(fs, path);
    WalkConcat(fs.inodes, start, Components(dir), if name == "" then [] else [name]);
    assert start in fs.inodes;
    WalkStays(fs, start, Components(dir));
    if name != "" {
      assert [name][1..] == [];
      assert Walk(fs.inodes, d, [name]) == Some(i);
      assert NodeOk(fs, d);
      if name == ".." {
        DotDotFails(fs, d, i);
      }
    }
  }

  /** The directory a `..` leads to is never empty. */
  lemma DotDotFails(fs: Fs, d: nat, i: nat)
    requires Tree(fs) && d in fs.inodes && ".." in fs.inodes[d].children && fs.inodes[d].children[".."] == i
    ensures !Leaf(fs, i)
  {
    assert NodeOk(fs, d);
    var m :| Entry(fs, i, m, d);
    if Leaf(fs, i) { LeafHasNoEntry(fs, i, m, d); }
  }

  /** A successful unlink keeps the tree exactly when the path ends in a proper name: after a
      trailing slash, or `.`, the inode goes but its entry stays. */
  lemma UnlinkTree(fs: Fs, path: string)
    requires Tree(fs)
    ensures Unlink(fs, path).1 ==> (Tree(Unlink(fs, path).0) <==> LastName(path) != "" && LastName(path) != ".")
    ensures !Unlink(fs, path).1 ==> Unlink(fs, path).0 == fs
  {
    hide Tree, Detach, Resolve;
    if Unlink(fs, path).1 {
      UnlinkShape(fs, path);
      var (dir, name) := SplitLast(path).value;
      var i := Resolve(fs, path).value;
      if name == "" || name == "." {
        DanglingEntry(fs, name, i);
      } else {
        DetachKeepsTree(fs, Resolve(fs, OrRoot(dir)).value, name, i);
      }
    }
  }

  // ---- Paths that break the tree ----

  lemma SlashPaths()
    ensures SplitLast("/a") == Some(("", "a")) && SplitLast("/a/") == Some(("/a", "")) && SplitLast("/.") == Some(("", "."))
    ensures Components("/") == [] && Components("/a") == ["a"] && Components("/a/") == ["a"]
  {
    hide SplitLast, Components;
    assert "" + "/" + "a" == "/a" && "" + "/" + "" == "/" && "/a" + "/" + "" == "/a/" && "" + "/" + "." == "/.";
    SplitJoin("", "a");
    SplitJoin("/a", "");
    SplitJoin("", ".");
    ComponentsName("a");
    ComponentsName("");
    ComponentsJoin("", "a");
    ComponentsJoin("", "");
    ComponentsJoin("/a", "");
  }

  /** A path is split at its last slash. */
  lemma {:induction false} SplitJoin(dir: string, name: string)
    requires '/' !in name
    ensures SplitLast(dir + "/" + name) == Some((dir, name))
  {
    var path := dir + "/" + name;
    if name == "" {
      assert path[|path| - 1] == '/' && path[..|path| - 1] == dir;
    } else {
      var front := name[..|name| - 1];
      assert path[..|path| - 1] == dir + "/" + front;
      SplitJoin(dir, front);
      assert front + [name[|name| - 1]] == name;
    }
  }

  /** From a new file system, making `/.` succeeds and leaves no tree. */
  lemma DotDirectory()
    ensures Mkdir(NewFs(), "/.").1 != 0 && !Tree(Mkdir(NewFs(), "/.").0)
  {
    hide Tree, Components, SplitLast, Attach;
    SlashPaths();
    NewIsTree();
    assert Slot(NewFs(), "/.") == Some((ROOT, "."));
    CreationTree(NewFs(), "/.", Directory);
  }

  /** Made as `/a` and removed as `/a/`, a directory leaves its name behind in the root. */
  lemma DanglingDirectory()
    ensures var fs := Mkdir(NewFs(), "/a").0;
            Tree(fs) && Unlink(fs, "/a/").1 && !Tree(Unlink(fs, "/a/").0)
  {
    hide Tree, Components, SplitLast;
    SlashPaths();
    NewIsTree();
    var fs := Mkdir(NewFs(), "/a").0;
    assert Slot(NewFs(), "/a") == Some((ROOT, "a"));
    CreationTree(NewFs(), "/a", Directory);
    assert Walk(fs.inodes, ROOT, ["a"]) == Some(2) by { assert ["a"][1..] == []; }
    assert UserNames(fs.inodes[2].children) == {};
    UnlinkTree(fs, "/a/");
  }

  // ---- The other operations ----

  lemma ChdirTree(fs: Fs, path: string)
    requires Tree(fs)
    ensures Tree(Chdir(fs, path).0)
  {
    hide Resolve;
    if Chdir(fs, path).1 {
      var after := Chdir(fs, path).0;
      forall e, m, c ensures Entry(after, e, m, c) <==> Entry(fs, e, m, c) {
      }
      forall i <- after.inodes ensures NodeOk(after, i) {
        assert NodeOk(fs, i);
      }
      SameEntries(fs, after);
    }
  }

  lemma SameEntries(fs: Fs, after: Fs)
    requires Tree(fs) && after.inodes.Keys == fs.inodes.Keys
    requires forall i <- fs.inodes :: after.inodes[i].parent == fs.inodes[i].parent && after.inodes[i].children == fs.inodes[i].children
    ensures EntriesDown(after) && AllEntered(after) && EnteredOnce(after)
  {
    forall e, m, c ensures Entry(after, e, m, c) <==> Entry(fs, e, m, c) {
    }
    forall i <- after.inodes | i != ROOT ensures exists n :: Entry(after, after.inodes[i].parent, n, i) {
      var n :| Entry(fs, fs.inodes[i].parent, n, i);
      assert Entry(after, after.inodes[i].parent, n, i);
    }
  }

  lemma SetDataTree(fs: Fs, i: nat, data: seq<u32>)
    requires Tree(fs) && i in fs.inodes && HoldsData(fs.inodes[i].itype) && |data| <= MAX_FILE_SIZE
    ensures Tree(SetData(fs, i, data))
  {
    hide EntriesDown, AllEntered, EnteredOnce, NodeOk;
    var after := SetData(fs, i, data);
    SameEntries(fs, after);
    forall j <- after.inodes ensures NodeOk(after, j) {
      SetDataNode(fs, i, data, j);
    }
  }

  lemma SetDataNode(fs: Fs, i: nat, data: seq<u32>, j: nat)
    requires i in fs.inodes && j in fs.inodes && NodeOk(fs, i) && NodeOk(fs, j)
    requires HoldsData(fs.inodes[i].itype) && |data| <= MAX_FILE_SIZE
    ensures NodeOk(SetData(fs, i, data), j)
  {
  }

  lemma DataTree(fs: Fs, i: nat, offset: nat, buf: seq<u32>, size: nat)
    requires Tree(fs)
    ensures Tree(WriteInode(fs, i, offset, buf).0) && Tree(Truncate(fs, i, size).0)
  {
    hide Tree, SetData;
    if i in fs.inodes && HoldsData(fs.inodes[i].itype) {
      var data := fs.inodes[i].data;
      assert |data| <= MAX_FILE_SIZE by { DataBound(fs, i); }
      SetDataTree(fs, i, Written(data, offset, buf, Writable(offset, |buf|)));
      SetDataTree(fs, i, if size < |data| then data[..size] else data);
    }
  }

  lemma DataBound(fs: Fs, i: nat)
    requires Tree(fs) && i in fs.inodes
    ensures |fs.inodes[i].data| <= MAX_FILE_SIZE
  {
    assert NodeOk(fs, i);
  }

  // ---- Runs ----

  datatype Op =
    | MkdirOp(path: string)
    | CreateOp(path: string, itype: InodeType)
    | UnlinkOp(path: string)
    | ChdirOp(path: string)
    | WriteOp(ino: nat, offset: nat, buf: seq<u32>)
    | TruncateOp(ino: nat, size: nat)

  function Apply(fs: Fs, op: Op): Fs {
    match op
    case MkdirOp(path) => Mkdir(fs, path).0
    case CreateOp(path, itype) => CreateFile(fs, path, itype).0
    case UnlinkOp(path) => Unlink(fs, path).0
    case ChdirOp(path) => Chdir(fs, path).0
    case WriteOp(i, offset, buf) => WriteInode(fs, i, offset, buf).0
    case TruncateOp(i, size) => Truncate(fs, i, size).0
  }

  function Run(fs: Fs, ops: seq<Op>): Fs {
    if ops == [] then fs else Apply(Run(fs, ops[..|ops| - 1]), ops[|ops| - 1])
  }

  /** The last component a caller must not use in this operation. */
  predicate Proper(op: Op) {
    match op
    case MkdirOp(path) => !IsDot(LastName(path))
    case CreateOp(path, _) => !IsDot(LastName(path))
    case UnlinkOp(path) => LastName(path) != "" && LastName(path) != "."
    case _ => true
  }

  /** From a fresh file system, every sequence of operations with proper last components leaves a
      tree. */
  lemma {:induction false} RunKeepsTree(ops: seq<Op>)
    requires forall op <- ops :: Proper(op)
    ensures Tree(Run(NewFs(), ops))
    decreases |ops|
  {
    hide Tree, Proper;
    if ops == [] {
      NewIsTree();
    } else {
      RunKeepsTree(ops[..|ops| - 1]);
      ApplyKeepsTree(Run(NewFs(), ops[..|ops| - 1]), ops[|ops| - 1]);
    }
  }

  lemma ApplyKeepsTree(fs: Fs, op: Op)
    requires Tree(fs) && Proper(op)
    ensures Tree(Apply(fs, op))
  {
    hide Tree, Mkdir, CreateFile, Unlink, Chdir, WriteInode, Truncate;
    match op {
      case MkdirOp(path) => CreationTree(fs, path, Regular);
      case CreateOp(path, itype) => CreationTree(fs, path, itype);
      case UnlinkOp(path) => UnlinkTree(fs, path);
      case ChdirOp(path) => ChdirTree(fs, path);
      case WriteOp(i, offset, buf) => DataTree(fs, i, offset, buf, 0);
      case TruncateOp(i, size) => DataTree(fs, i, 0, [], size);
    }
  }
}
