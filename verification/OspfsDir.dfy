/** The directory operations of the kernel module over the volume: entries,
    link counts, and runs of create, link, symlink, unlink, write, truncate. */
module OspfsDir {
  import opened Common
  import opened OspfsLayout
  import opened OspfsVolume
  import opened OspfsSafety
  import opened OspfsExact
  import opened OspfsResize
  import opened OspfsGrow

  const DIRENTRY_SIZE: nat := 128
  const MAXNAMELEN: nat := 123
  const MAXSYMLINKLEN: nat := 51

  /** The bytes of `od_name`. */
  type NameBuf = s: seq<char> | |s| == MAXNAMELEN + 1 witness seq(MAXNAMELEN + 1, _ => '\0')

  /** One directory entry; `od_ino` 0 means blank. */
  datatype Entry = Entry(ino: nat, raw: NameBuf)

  /** An entry of a new block. */
  function ZeroEntry(): (e: Entry)
    ensures e.ino == 0
  {
    Entry(0, seq(MAXNAMELEN + 1, _ => '\0'))
  }

  /** `dirs[d]` are the entries of directory inode `d`, [] for other inodes. */
  datatype Fs = Fs(v: Volume, dirs: seq<seq<Entry>>)

  datatype Code = Success | NameTooLong | Exists | NoSpc | IOErr | NoEnt | Perm

  datatype Reply = Done(code: Code) | Hung

  // ------------------------------------------------------------------ names

  function CName(raw: seq<char>): seq<char> {
    if raw == [] || raw[0] == '\0' then [] else [raw[0]] + CName(raw[1..])
  }

  /** `memcpy(od_name, name, len)`: no terminator is written. */
  function CopyName(raw: NameBuf, name: seq<char>): NameBuf
    requires |name| <= MAXNAMELEN
  {
    name + raw[|name|..]
  }

  function CopyNameZ(raw: NameBuf, name: seq<char>): NameBuf
    requires |name| <= MAXNAMELEN
  {
    name + ['\0'] + raw[|name| + 1..]
  }

  lemma {:induction false} CNameOfCopy(name: seq<char>, rest: seq<char>)
    requires '\0' !in name
    ensures CName(name + rest) == name + CName(rest)
  {
    if name == [] {
      assert [] + rest == rest;
    } else {
      assert (name + rest)[1..] == name[1..] + rest;
      CNameOfCopy(name[1..], rest);
    }
  }

  /** `ospfs_create` and `ospfs_symlink` store the name asked for; `ospfs_link`
      does exactly when the reused entry happens to hold a NUL at that place. */
  lemma StoredNames(raw: NameBuf, name: seq<char>)
    requires |name| <= MAXNAMELEN && '\0' !in name
    ensures CName(CopyNameZ(raw, name)) == name
    ensures CName(CopyName(raw, name)) == name <==> raw[|name|] == '\0'
  {
    CNameOfCopy(name, ['\0'] + raw[|name| + 1..]);
    assert CopyNameZ(raw, name) == name + (['\0'] + raw[|name| + 1..]);
    CNameOfCopy(name, raw[|name|..]);
  }

  /** The blank entry left by "abc", reused by a hard link called "x", is called
      "xbc". */
  lemma LinkNameTail(raw: NameBuf)
    requires raw[..4] == "abc" + ['\0']
    ensures CName(raw) == "abc" && CName(CopyName(raw, "x")) == "xbc"
  {
    assert raw == "abc" + raw[3..];
    assert CopyName(raw, "x") == "xbc" + raw[3..];
    CNameOfCopy("abc", raw[3..]);
    CNameOfCopy("xbc", raw[3..]);
  }

  // --------------------------------------------------------------- searches

  predicate Matches(e: Entry, name: seq<char>) {
    e.ino != 0 && CName(e.raw) == name
  }

  /** `find_direntry`: the first entry of that name. */
  function FindEntry(es: seq<Entry>, name: seq<char>): (r: Option<nat>)
    ensures r.Some? ==> r.value < |es| && Matches(es[r.value], name) && forall k :: 0 <= k < r.value ==>
        !Matches(es[k], name)
    ensures r.None? ==> forall k :: 0 <= k < |es| ==> !Matches(es[k], name)
  {
    if es == [] then None
    else if Matches(es[0], name) then Some(0)
    else match FindEntry(es[1..], name)
      case None => None
      case Some(k) => Some(k + 1)
  }

  function FindBlank(es: seq<Entry>): (r: Option<nat>)
    ensures r.Some? ==> r.value < |es| && es[r.value].ino == 0 && forall k :: 0 <= k < r.value ==> es[k].ino != 0
    ensures r.None? ==> forall k :: 0 <= k < |es| ==> es[k].ino != 0
  {
    if es == [] then None
    else if es[0].ino == 0 then Some(0)
    else match FindBlank(es[1..])
      case None => None
      case Some(k) => Some(k + 1)
  }

  /** The first unused inode from `i` on. */
  function FindInode(files: seq<File>, i: nat): (r: Option<nat>)
    requires i <= |files|
    ensures r.Some? ==> i <= r.value < |files| && files[r.value].nlink == 0
    ensures r.None? ==> forall k :: i <= k < |files| ==> files[k].nlink != 0
    decreases |files| - i
  {
    if i == |files| then None
    else if files[i].nlink == 0 then Some(i)
    else FindInode(files, i + 1)
  }

  // ------------------------------------------------------------- operations

  predicate IsDir(fs: Fs, d: nat) {
    d < |fs.v.files| == |fs.dirs| && fs.v.files[d].ftype.Directory?
  }

  datatype Slotting = At(k: nat) | NotFound(code: Code) | Stuck

  /** `create_blank_direntry`. */
  ghost function BlankEntry(l: Layout, fs: Fs, d: nat, fuel: nat): (r: (Fs, Slotting))
    requires IsDir(fs, d) && DirMayGrow(fs, d)
    ensures |r.0.v.files| == |fs.v.files| && |r.0.dirs| == |fs.dirs|
    ensures r.1.At? ==> r.1.k < |r.0.dirs[d]|
  {
    var es := fs.dirs[d];
    match FindBlank(es)
    case Some(k) => (fs, At(k))
    case None =>
      var (w, out) := ChangeSize(l, fs.v, d, fs.v.files[d].size + DIRENTRY_SIZE, fuel);
      match out
      case Spinning => (fs.(v := w), Stuck)
      case Finished(st) =>
        if st != Ok then (fs.(v := w), NotFound(if st == NoSpace then NoSpc else IOErr))
        else (Fs(w, fs.dirs[d := es + [ZeroEntry()]]), At(|es|))
  }

  /** The directory has a blank entry, or one block more is neither misfiled nor
      more than a file can have. */
  predicate DirMayGrow(fs: Fs, d: nat)
    requires IsDir(fs, d)
  {
    || FindBlank(fs.dirs[d]).Some?
    || (var size := fs.v.files[d].size + DIRENTRY_SIZE;
        size <= MAXFILEBLKS * BLKSIZE && CleanGrow(NBlocks(fs.v, d), Size2NBlocks(size)))
  }

  function PutEntry(fs: Fs, d: nat, k: nat, e: Entry): Fs
    requires d < |fs.dirs| && k < |fs.dirs[d]|
  {
    fs.(dirs := fs.dirs[d := fs.dirs[d][k := e]])
  }

  function SetFile(fs: Fs, i: nat, f: File): Fs
    requires i < |fs.v.files|
  {
    fs.(v := fs.v.(files := fs.v.files[i := f]))
  }

  /** `ospfs_link`. */
  ghost function Link(l: Layout, fs: Fs, d: nat, src: nat, name: seq<char>, fuel: nat): (Fs, Reply)
    requires Linkable(fs, d, src)
  {
    if |name| > MAXNAMELEN then (fs, Done(NameTooLong))
    else if FindEntry(fs.dirs[d], name).Some? then (fs, Done(Exists))
    else
      var (g, at) := BlankEntry(l, fs, d, fuel);
      match at
      case Stuck => (g, Hung)
      case NotFound(code) => (g, Done(code))
      case At(k) =>
        var h := PutEntry(g, d, k, Entry(src, CopyName(g.dirs[d][k].raw, name)));
        (SetFile(h, src, h.v.files[src].(nlink := h.v.files[src].nlink + 1)), Done(Success))
  }

  /** The part that `ospfs_create` and `ospfs_symlink` share. */
  ghost function MakeInode(l: Layout, fs: Fs, d: nat, name: seq<char>, f: File, fuel: nat): (Fs, Reply)
    requires IsDir(fs, d) && DirMayGrow(fs, d) && 2 <= |fs.v.files| && |name| <= MAXNAMELEN
  {
    if FindEntry(fs.dirs[d], name).Some? then (fs, Done(Exists))
    else
      var (g, at) := BlankEntry(l, fs, d, fuel);
      match at
      case Stuck => (g, Hung)
      case NotFound(code) => (g, Done(code))
      case At(k) =>
        match FindInode(g.v.files, 2)
        case None => (g, Done(NoSpc))
        case Some(i) =>
          (SetFile(PutEntry(g, d, k, Entry(i, CopyNameZ(g.dirs[d][k].raw, name))), i, f), Done(Success))
  }

  /** `ospfs_create`. */
  ghost function Create(l: Layout, fs: Fs, d: nat, name: seq<char>, fuel: nat): (Fs, Reply)
    requires IsDir(fs, d) && DirMayGrow(fs, d) && 2 <= |fs.v.files|
  {
    if |name| > MAXNAMELEN then (fs, Done(NameTooLong))
    else MakeInode(l, fs, d, name, File(0, Regular, 1, map[]), fuel)
  }

  /** `ospfs_symlink`. */
  ghost function MakeSymlink(l: Layout, fs: Fs, d: nat, name: seq<char>, target: seq<char>, fuel: nat): (Fs, Reply)
    requires IsDir(fs, d) && DirMayGrow(fs, d) && 2 <= |fs.v.files|
  {
    if |name| > MAXNAMELEN || |target| > MAXSYMLINKLEN then (fs, Done(NameTooLong))
    else MakeInode(l, fs, d, name, File(|target|, Symlink, 1, map[]), fuel)
  }

  function CodeOf(st: Status): Code {
    match st
    case Ok => Success
    case NoSpace => NoSpc
    case IOError => IOErr
  }

  ghost function Resize(l: Layout, fs: Fs, i: nat, size: uint32, fuel: nat): (r: (Fs, Reply))
    requires i < |fs.v.files| && Size2NBlocks(size) <= MAXFILEBLKS
    ensures |r.0.v.files| == |fs.v.files| && r.0.dirs == fs.dirs
  {
    var (w, out) := ChangeSize(l, fs.v, i, size, fuel);
    (fs.(v := w), match out case Spinning => Hung case Finished(st) => Done(CodeOf(st)))
  }

  /** `ospfs_unlink` of the entry called `name`, which names inode `i`. */
  ghost function Unlink(l: Layout, fs: Fs, d: nat, i: nat, name: seq<char>, fuel: nat): (Fs, Reply)
    requires IsDir(fs, d) && i < |fs.v.files| && fs.v.files[i].nlink > 0
  {
    match FindEntry(fs.dirs[d], name)
    case None => (fs, Done(NoEnt))
    case Some(k) =>
      var g := PutEntry(fs, d, k, fs.dirs[d][k].(ino := 0));
      var f := g.v.files[i].(nlink := g.v.files[i].nlink - 1);
      var h := SetFile(g, i, f);
      if !f.ftype.Symlink? && f.nlink == 0 then Resize(l, h, i, 0, fuel)
      else (h, Done(Success))
  }

  // ------------------------------------------------------------------- runs

  datatype Event =
    | CreateEv(d: nat, name: seq<char>)
    | LinkEv(d: nat, src: nat, name: seq<char>)
    | SymlinkEv(d: nat, name: seq<char>, target: seq<char>)
    | UnlinkEv(d: nat, i: nat, name: seq<char>)
    | WriteEv(i: nat, end: nat)
    | TruncateEv(i: nat, size: uint32)

  predicate Linkable(fs: Fs, d: nat, src: nat) {
    && IsDir(fs, d) && DirMayGrow(fs, d) && 0 < src < |fs.v.files|
    && !fs.v.files[src].ftype.Directory?
  }

  /** A regular file, with or without a name: one that was unlinked while it was
      open can still be written to and truncated. */
  predicate RegularFile(fs: Fs, i: nat) {
    2 <= i < |fs.v.files| && fs.v.files[i].ftype.Regular?
  }

  /** What Linux sees to before it calls the module, and the sizes that the
      module can handle. */
  predicate Legal(fs: Fs, ev: Event) {
    match ev
    case CreateEv(d, name) => IsDir(fs, d) && DirMayGrow(fs, d)
    case SymlinkEv(d, name, target) => IsDir(fs, d) && DirMayGrow(fs, d)
    case LinkEv(d, src, name) => Linkable(fs, d, src)
    case UnlinkEv(d, i, name) =>
      && IsDir(fs, d) && 0 < i < |fs.v.files| && !fs.v.files[i].ftype.Directory? && fs.v.files[i].nlink > 0
      && (FindEntry(fs.dirs[d], name).Some? ==> fs.dirs[d][FindEntry(fs.dirs[d], name).value].ino == i)
    case WriteEv(i, end) => RegularFile(fs, i) && end <= MAXFILEBLKS * BLKSIZE
    case TruncateEv(i, size) => RegularFile(fs, i) && size <= MAXFILEBLKS * BLKSIZE
  }

  ghost function Step(l: Layout, fs: Fs, ev: Event, fuel: nat): (Fs, Reply)
    requires Legal(fs, ev) && 2 <= |fs.v.files|
  {
    match ev
    case CreateEv(d, name) => Create(l, fs, d, name, fuel)
    case LinkEv(d, src, name) => Link(l, fs, d, src, name, fuel)
    case SymlinkEv(d, name, target) => MakeSymlink(l, fs, d, name, target, fuel)
    case UnlinkEv(d, i, name) => Unlink(l, fs, d, i, name, fuel)
    case WriteEv(i, end) =>
      if end > fs.v.files[i].size then Resize(l, fs, i, end, fuel) else (fs, Done(Success))
    case TruncateEv(i, size) => Resize(l, fs, i, size, fuel)
  }
}
