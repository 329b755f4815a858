/** The file system object: its methods, each equal to a function of the state. */
module InodeOps {
  import opened Words
  import opened InodeFs
  import opened InodeDir

  class FileSystem {
    var inodes: map<nat, Inode>
    var nextIno: nat
    var cwd: nat

    function State(): Fs
      reads this
    {
      Fs(inodes, nextIno, cwd)
    }

    /** Numbers are handed out in increasing order. */
    ghost predicate Valid()
      reads this
    {
      forall i <- inodes :: i < nextIno
    }

    constructor ()
      ensures Valid() && State() == NewFs()
    {
      inodes, nextIno, cwd := map[ROOT := NewInode(ROOT, Directory, 0)], 2, ROOT;
    }

    method AllocIno() returns (ino: nat)
      modifies this`nextIno
      ensures ino == old(nextIno) && nextIno == old(nextIno) + 1
    {
      ino := nextIno;
      nextIno := nextIno + 1;
    }

    method ResolvePath(path: string) returns (r: Option<nat>)
      ensures r == Resolve(State(), path)
    {
      if path == "" { return None; }
      var current: nat := if path[0] == '/' then ROOT else cwd;
      var components := Components(path);
      if components == [] && path[0] == '/' { return Some(ROOT); }
      ghost var start := current;
      for k := 0 to |components|
        invariant Walk(inodes, current, components[k..]) == Walk(inodes, start, components)
      {
        var component := components[k];
        assert components[k..][1..] == components[k + 1..];
        if |component| > MAX_NAME_LEN { return None; }
        if current !in inodes { return None; }
        var inode := inodes[current];
        if inode.itype != Directory { return None; }
        if component !in inode.children { return None; }
        current := inode.children[component];
      }
      r := Some(current);
    }

    /** The checks shared by the two creating operations. */
    method FindSlot(path: string) returns (r: Option<(nat, string)>)
      ensures r == Slot(State(), path)
    {
      if path == "" || path == "/" { return None; }
      var split := SplitLast(path);
      if split.None? || split.value.1 == "" { return None; }
      var (parentPath, name) := split.value;
      if |name| > MAX_NAME_LEN || '\0' in name { return None; }
      var parentIno := ResolvePath(if parentPath == "" then "/" else parentPath);
      if parentIno.None? { return None; }
      var d := parentIno.value;
      if d !in inodes || inodes[d].itype != Directory { return None; }
      if name in inodes[d].children { return None; }
      r := Some((d, name));
    }

    method MakeDir(path: string) returns (ino: nat)
      requires Valid()
      modifies this
      ensures Valid() && (State(), ino) == Mkdir(old(State()), path)
    {
      var slot := FindSlot(path);
      if slot.None? { return 0; }
      var (parentIno, name) := slot.value;
      var newIno := AllocIno();
      var newDir := NewInode(newIno, Directory, parentIno);
      newDir := newDir.(children := newDir.children["." := newIno]);
      newDir := newDir.(children := newDir.children[".." := parentIno]);
      inodes := inodes[newIno := newDir];
      if parentIno in inodes {
        var parent := inodes[parentIno];
        inodes := inodes[parentIno := parent.(children := parent.children[name := newIno])];
      }
      assert newDir == NewDirectory(newIno, parentIno);
      ino := newIno;
    }

    method MakeFile(path: string, itype: InodeType) returns (ino: nat)
      requires Valid()
      modifies this
      ensures Valid() && (State(), ino) == CreateFile(old(State()), path, itype)
    {
      var slot := FindSlot(path);
      if slot.None? { return 0; }
      var (parentIno, name) := slot.value;
      var newIno := AllocIno();
      inodes := inodes[newIno := NewInode(newIno, itype, parentIno)];
      if parentIno in inodes {
        var parent := inodes[parentIno];
        inodes := inodes[parentIno := parent.(children := parent.children[name := newIno])];
      }
      ino := newIno;
    }

    method Remove(path: string) returns (ok: bool)
      requires Valid()
      modifies this
      ensures Valid() && (State(), ok) == Unlink(old(State()), path)
    {
      hide Resolve, SplitLast, UserNames;
      if path == "" || path == "/" { return false; }
      var target := ResolvePath(path);
      if target.None? || target.value == ROOT { return false; }
      var ino := target.value;
      if ino !in inodes { return false; }
      var inode := inodes[ino];
      if inode.itype == Directory && UserNames(inode.children) != {} { return false; }
      var split := SplitLast(path);
      if split.None? { return false; }
      var (parentPath, name) := split.value;
      var parentIno := ResolvePath(if parentPath == "" then "/" else parentPath);
      if parentIno.None? { return false; }
      if parentIno.value in inodes {
        var parent := inodes[parentIno.value];
        inodes := inodes[parentIno.value := parent.(children := parent.children - {name})];
      }
      inodes := inodes - {ino};
      if cwd == ino {
        cwd := ROOT;
      }
      ok := true;
    }

    method ChangeDir(path: string) returns (ok: bool)
      modifies this`cwd
      ensures (State(), ok) == Chdir(old(State()), path)
    {
      var target := ResolvePath(path);
      if target.None? { return false; }
      var ino := target.value;
      if ino !in inodes { return false; }
      if inodes[ino].itype == Directory {
        cwd := ino;
        return true;
      }
      ok := false;
    }

    method Read(ino: nat, offset: nat, buf: array<u32>) returns (read: nat)
      modifies buf
      ensures var words := ReadInode(State(), ino, offset, buf.Length);
              read == |words| <= buf.Length && buf[..] == words + old(buf[read..])
    {
      read := 0;
      if ino !in inodes { return; }
      var inode := inodes[ino];
      if inode.itype != Regular && inode.itype != Pipe { return; }
      for i := 0 to buf.Length
        invariant read == i && (i > 0 ==> offset + i <= |inode.data|)
        invariant forall k :: 0 <= k < buf.Length ==> buf[k] == if k < i then inode.data[offset + k] else old(buf[k])
      {
        var idx := offset + i;
        if idx < |inode.data| {
          buf[i] := inode.data[idx];
          read := read + 1;
        } else {
          break;
        }
      }
    }

    method Write(ino: nat, offset: nat, buf: array<u32>) returns (written: nat)
      requires Valid()
      modifies this`inodes
      ensures Valid() && (State(), written) == WriteInode(old(State()), ino, offset, buf[..])
    {
      written := 0;
      if ino !in inodes { return; }
      var inode := inodes[ino];
      if inode.itype != Regular && inode.itype != Pipe { return; }
      var data := inode.data;
      for i := 0 to buf.Length
        invariant inodes == old(inodes)
        invariant written == i <= Writable(offset, buf.Length)
        invariant data == Written(inode.data, offset, buf[..], i)
      {
        var idx := offset + i;
        if idx >= MAX_FILE_SIZE {
          break;
        }
        data := Extend(data, idx);
        data := data[idx := buf[i]];
        written := written + 1;
        assert data == Written(inode.data, offset, buf[..], i + 1);
      }
      inodes := inodes[ino := inode.(data := data, size := |data|)];
    }

    method Cut(ino: nat, size: nat) returns (ok: bool)
      requires Valid()
      modifies this`inodes
      ensures Valid() && (State(), ok) == Truncate(old(State()), ino, size)
    {
      if ino !in inodes { return false; }
      var inode := inodes[ino];
      if inode.itype != Regular && inode.itype != Pipe { return false; }
      var data := if size < |inode.data| then inode.data[..size] else inode.data;
      inodes := inodes[ino := inode.(data := data, size := |data|)];
      ok := true;
    }

    /** The buffer receives as much of the encoded listing as fits; the count is of all entries. */
    method ListDir(ino: nat, buf: array<u32>) returns (count: nat)
      requires Encodable(NamesIn(State(), ino))
      modifies buf
      ensures count == |NamesIn(State(), ino)|
      ensures var words := EncodeNames(NamesIn(State(), ino));
              var n := if |words| < buf.Length then |words| else buf.Length;
              buf[..] == words[..n] + old(buf[n..])
    {
      hide Filled, EncodeName;
      count := 0;
      if ino !in inodes || inodes[ino].itype != Directory { return; }
      var entries := Sorted(UserNames(inodes[ino].children));
      var addr := 0;
      ghost var words: seq<u32> := [];
      ghost var before := buf[..];
      NothingFilled(before);
      for k := 0 to |entries|
        invariant count == k && words == EncodeNames(entries[..k])
        invariant Filled(buf[..], before, words, addr)
      {
        assert entries[..k + 1][..k] == entries[..k];
        words, addr := PutName(buf, before, words, addr, entries[k]);
        count := count + 1;
      }
      assert entries[..|entries|] == entries;
      FilledMeans(buf[..], before, words, addr);
    }
  }

  /** `while data.len() <= idx { data.push(0) }` */
  method Extend(data: seq<u32>, idx: nat) returns (r: seq<u32>)
    ensures r == data + seq(if idx < |data| then 0 else idx + 1 - |data|, _ => 0)
  {
    r := data;
    while |r| <= idx
      invariant |data| <= |r| && r == data + seq(|r| - |data|, _ => 0)
      invariant |r| == |data| || |r| <= idx + 1
      decreases idx + 1 - |r|
    {
      r := r + [0];
    }
  }

  /** The first `addr` cells hold the start of `words`, the others what they held before. */
  ghost predicate Filled(buf: seq<u32>, before: seq<u32>, words: seq<u32>, addr: nat) {
    && |buf| == |before| && addr == (if |words| < |buf| then |words| else |buf|)
    && buf == words[..addr] + before[addr..]
  }

  lemma NothingFilled(before: seq<u32>)
    ensures Filled(before, before, [], 0)
  {
  }

  lemma FilledMeans(buf: seq<u32>, before: seq<u32>, words: seq<u32>, addr: nat)
    requires Filled(buf, before, words, addr)
    ensures |buf| == |before| && addr == (if |words| < |buf| then |words| else |buf|) && buf == words[..addr] + before[addr..]
  {
  }

  /** One directory entry: length, characters, terminator. */
  method PutName(buf: array<u32>, ghost before: seq<u32>, ghost words: seq<u32>, addr: nat, name: string)
    returns (ghost words': seq<u32>, addr': nat)
    requires Filled(buf[..], before, words, addr) && |name| < TWO_32
    modifies buf
    ensures words' == words + EncodeName(name) && Filled(buf[..], before, words', addr')
  {
    hide Filled;
    words', addr' := PutWord(buf, before, words, addr, |name|);
    var nameBytes := Bytes(name);
    ghost var start := words';
    for b := 0 to |nameBytes|
      invariant words' == start + nameBytes[..b]
      invariant Filled(buf[..], before, words', addr')
    {
      words', addr' := PutWord(buf, before, words', addr', nameBytes[b]);
    }
    words', addr' := PutWord(buf, before, words', addr', 0);
  }

  /** One word of output, dropped when the buffer is full. */
  method PutWord(buf: array<u32>, ghost before: seq<u32>, ghost words: seq<u32>, addr: nat, w: u32)
    returns (ghost words': seq<u32>, addr': nat)
    requires Filled(buf[..], before, words, addr)
    modifies buf
    ensures words' == words + [w] && Filled(buf[..], before, words', addr')
  {
    words', addr' := words + [w], addr;
    if addr < buf.Length {
      buf[addr] := w;
      addr' := addr + 1;
    }
  }
}
