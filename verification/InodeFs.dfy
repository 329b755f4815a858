/** The in-memory inode tree: its state, its paths, and what each operation makes of it. */
module InodeFs {
  import opened Words

  const MAX_NAME_LEN: nat := 64
  const MAX_FILE_SIZE: nat := 4096
  const ROOT: nat := 1

  datatype InodeType = Regular | Directory | Device | Pipe

  datatype Inode = Inode(
    ino: nat,
    itype: InodeType,
    data: seq<u32>,
    children: map<string, nat>,
    parent: nat,
    size: nat,
    refCount: nat
  )

  /** The fields of the file system: the inode table, the next number, the current directory. */
  datatype Fs = Fs(inodes: map<nat, Inode>, nextIno: nat, cwd: nat)

  function NewInode(ino: nat, itype: InodeType, parent: nat): Inode {
    Inode(ino, itype, [], map[], parent, 0, 0)
  }

  function NewFs(): Fs {
    Fs(map[ROOT := NewInode(ROOT, Directory, 0)], 2, ROOT)
  }

  // ---- Paths; strings are sequences of bytes here ----

  function SlashAt(p: string): (k: nat)
    ensures k <= |p| && '/' !in p[..k] && (k < |p| ==> p[k] == '/')
  {
    if p == "" || p[0] == '/' then 0 else 1 + SlashAt(p[1..])
  }

  /** The non-empty pieces between slashes. */
  function Components(p: string): seq<string>
    decreases |p|
  {
    if p == "" then []
    else
      var k := SlashAt(p);
      Piece(p[..k]) + if k == |p| then [] else Components(p[k + 1..])
  }

  /** What stands between two slashes counts unless it is empty. */
  function Piece(s: string): seq<string> {
    if s == "" then [] else [s]
  }

  /** `rsplit_once('/')`: what stands before and after the last slash. */
  function SplitLast(p: string): (r: Option<(string, string)>)
    ensures r.Some? ==> p == r.value.0 + "/" + r.value.1 && '/' !in r.value.1
    ensures r.None? ==> '/' !in p
  {
    if p == "" then None
    else if p[|p| - 1] == '/' then Some((p[..|p| - 1], ""))
    else
      match SplitLast(p[..|p| - 1])
      case Some((a, b)) => Some((a, b + [p[|p| - 1]]))
      case None => None
  }

  /** Follows components through directory entries. */
  function Walk(inodes: map<nat, Inode>, at: nat, comps: seq<string>): Option<nat>
    decreases |comps|
  {
    if comps == [] then Some(at)
    else if |comps[0]| > MAX_NAME_LEN || at !in inodes || inodes[at].itype != Directory
            || comps[0] !in inodes[at].children then None
    else Walk(inodes, inodes[at].children[comps[0]], comps[1..])
  }

  function StartOf(fs: Fs, path: string): nat {
    if path != "" && path[0] == '/' then ROOT else fs.cwd
  }

  function Resolve(fs: Fs, path: string): Option<nat> {
    if path == "" then None else Walk(fs.inodes, StartOf(fs, path), Components(path))
  }

  function OrRoot(path: string): string {
    if path == "" then "/" else path
  }

  /** The directory and the name under which a new entry at `path` would go. */
  function Slot(fs: Fs, path: string): Option<(nat, string)> {
    match SplitLast(path)
    case None => None
    case Some((dir, name)) =>
      if path == "/" || name == "" || |name| > MAX_NAME_LEN || '\0' in name then None
      else match Resolve(fs, OrRoot(dir))
      case None => None
      case Some(d) =>
        if d in fs.inodes && fs.inodes[d].itype == Directory && name !in fs.inodes[d].children then Some((d, name)) else None
  }

  /** `n` entered under `name` in directory `d`. */
  function Attach(fs: Fs, d: nat, name: string, n: Inode): Fs
    requires d in fs.inodes
  {
    var dir := fs.inodes[d];
    fs.(inodes := fs.inodes[fs.nextIno := n][d := dir.(children := dir.children[name := fs.nextIno])], nextIno := fs.nextIno + 1)
  }

  function NewDirectory(ino: nat, parent: nat): Inode {
    NewInode(ino, Directory, parent).(children := map["." := ino, ".." := parent])
  }

  function Mkdir(fs: Fs, path: string): (Fs, nat) {
    match Slot(fs, path)
    case None => (fs, 0)
    case Some((d, name)) => (Attach(fs, d, name, NewDirectory(fs.nextIno, d)), fs.nextIno)
  }

  function CreateFile(fs: Fs, path: string, itype: InodeType): (Fs, nat) {
    match Slot(fs, path)
    case None => (fs, 0)
    case Some((d, name)) => (Attach(fs, d, name, NewInode(fs.nextIno, itype, d)), fs.nextIno)
  }

  predicate IsDot(name: string) {
    name == "." || name == ".."
  }

  function UserNames(children: map<string, nat>): set<string> {
    set n | n in children && !IsDot(n)
  }

  /** What `path` names if it may be removed: not the root, and no directory with user entries. */
  function Victim(fs: Fs, path: string): Option<nat> {
    match Resolve(fs, path)
    case None => None
    case Some(i) =>
      if path == "/" || i == ROOT || i !in fs.inodes then None
      else if fs.inodes[i].itype == Directory && UserNames(fs.inodes[i].children) != {} then None
      else Some(i)
  }

  /** The inode table after `name` is taken out of directory `d` and inode `i` is dropped. */
  function Detach(fs: Fs, d: nat, name: string, i: nat): Fs {
    var inodes :=
      if d in fs.inodes then
        var dir := fs.inodes[d];
        fs.inodes[d := dir.(children := dir.children - {name})]
      else fs.inodes;
    fs.(inodes := inodes - {i}, cwd := if fs.cwd == i then ROOT else fs.cwd)
  }

  function Unlink(fs: Fs, path: string): (Fs, bool) {
    match Victim(fs, path)
    case None => (fs, false)
    case Some(i) =>
      match SplitLast(path)
      case None => (fs, false)
      case Some((dir, name)) =>
        match Resolve(fs, OrRoot(dir))
        case None => (fs, false)
        case Some(d) => (Detach(fs, d, name, i), true)
  }

  function Chdir(fs: Fs, path: string): (Fs, bool) {
    match Resolve(fs, path)
    case None => (fs, false)
    case Some(i) => if i in fs.inodes && fs.inodes[i].itype == Directory then (fs.(cwd := i), true) else (fs, false)
  }

  // ---- File data ----

  predicate HoldsData(t: InodeType) {
    t == Regular || t == Pipe
  }

  /** How many of `n` words fit below the size limit from `offset` on. */
  function Writable(offset: nat, n: nat): nat {
    if offset >= MAX_FILE_SIZE then 0 else if offset + n > MAX_FILE_SIZE then MAX_FILE_SIZE - offset else n
  }

  /** The data with the first `n` words of `buf` at `offset`, any gap before them zero. */
  function Written(data: seq<u32>, offset: nat, buf: seq<u32>, n: nat): seq<u32>
    requires n <= |buf|
  {
    if n == 0 then data
    else
      seq(if |data| > offset + n then |data| else offset + n, k requires 0 <= k =>
        if offset <= k < offset + n then buf[k - offset] else if k < |data| then data[k] else 0)
  }

  function SetData(fs: Fs, i: nat, data: seq<u32>): Fs
    requires i in fs.inodes
  {
    fs.(inodes := fs.inodes[i := fs.inodes[i].(data := data, size := |data|)])
  }

  function WriteInode(fs: Fs, i: nat, offset: nat, buf: seq<u32>): (Fs, nat) {
    if i !in fs.inodes || !HoldsData(fs.inodes[i].itype) then (fs, 0)
    else
      var n := Writable(offset, |buf|);
      (SetData(fs, i, Written(fs.inodes[i].data, offset, buf, n)), n)
  }

  /** The words a read of `room` words at `offset` stores. */
  function ReadInode(fs: Fs, i: nat, offset: nat, room: nat): seq<u32> {
    if i !in fs.inodes || !HoldsData(fs.inodes[i].itype) || offset >= |fs.inodes[i].data| then []
    else
      var data := fs.inodes[i].data;
      data[offset..if offset + room < |data| then offset + room else |data|]
  }

  function Truncate(fs: Fs, i: nat, size: nat): (Fs, bool) {
    if i !in fs.inodes || !HoldsData(fs.inodes[i].itype) then (fs, false)
    else
      var data := fs.inodes[i].data;
      (SetData(fs, i, if size < |data| then data[..size] else data), true)
  }
}
