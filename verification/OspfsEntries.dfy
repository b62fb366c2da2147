/** What a directory call does to the entries and to the inode, in any directory of
    any volume that a run can reach: which entry is taken, what is stored in it,
    and what every look-up of a name finds afterwards. */
module OspfsEntries {
  import opened Common
  import opened OspfsLayout
  import opened OspfsVolume
  import opened OspfsSafety
  import opened OspfsExact
  import opened OspfsResize
  import opened OspfsGrow
  import opened OspfsDir
  import opened OspfsRuns

  // ------------------------------------------------------------ one entry more

  /** The entry that a new name goes into: the first blank one, or one behind the
      last. */
  function Place(es: seq<Entry>): (k: nat)
    ensures k < |es| ==> es[k].ino == 0
    ensures forall m :: 0 <= m < k <= |es| ==> es[m].ino != 0
    ensures k <= |es|
  {
    match FindBlank(es)
    case Some(k) => k
    case None => |es|
  }

  /** A character of the name field of that entry before the call; a new entry is
      zeroed. */
  function OldChar(es: seq<Entry>, m: nat): char
    requires m <= MAXNAMELEN
  {
    if Place(es) < |es| then es[Place(es)].raw[m] else '\0'
  }

  /** `after` is `before` but for the entry at that place. */
  ghost predicate OnlyPlace(before: seq<Entry>, after: seq<Entry>) {
    && |after| == (if Place(before) == |before| then |before| + 1 else |before|)
    && forall m :: 0 <= m < |before| && m != Place(before) ==> after[m] == before[m]
  }

  /** Directory `d` has one new entry, for inode `ino`, whose name field starts with
      `stored` and is otherwise as it was; all other directories are as they were. */
  ghost predicate OneName(fs: Fs, g: Fs, d: nat, ino: nat, stored: seq<char>)
    requires d < |fs.dirs| && |stored| <= MAXNAMELEN + 1
  {
    && |g.dirs| == |fs.dirs|
    && (forall c :: 0 <= c < |fs.dirs| && c != d ==> g.dirs[c] == fs.dirs[c])
    && OnlyPlace(fs.dirs[d], g.dirs[d])
    && var e := g.dirs[d][Place(fs.dirs[d])];
       && e.ino == ino && e.raw[..|stored|] == stored
       && forall m :: |stored| <= m <= MAXNAMELEN ==> e.raw[m] == OldChar(fs.dirs[d], m)
  }

  /** Inode `i` is `f`, and all inodes but it and the directory's are as before. */
  ghost predicate OneInode(fs: Fs, g: Fs, d: nat, i: nat, f: File) {
    && i < |fs.v.files| == |g.v.files| && g.v.files[i] == f
    && forall j :: 0 <= j < |fs.v.files| && j != d && j != i ==> g.v.files[j] == fs.v.files[j]
  }

  /** The directory entries after `create_blank_direntry`. */
  ghost predicate Blanked(fs: Fs, h: Fs, d: nat)
    requires d < |fs.dirs|
  {
    && |h.dirs| == |fs.dirs|
    && (forall c :: 0 <= c < |fs.dirs| && c != d ==> h.dirs[c] == fs.dirs[c])
    && OnlyPlace(fs.dirs[d], h.dirs[d])
    && forall m :: 0 <= m <= MAXNAMELEN ==> h.dirs[d][Place(fs.dirs[d])].raw[m] == OldChar(fs.dirs[d], m)
  }

  lemma PlaceMade(l: Layout, fs: Fs, d: nat, fuel: nat)
    requires IsDir(fs, d) && DirMayGrow(fs, d)
    ensures var (h, at) := BlankEntry(l, fs, d, fuel);
            at.At? ==> at.k == Place(fs.dirs[d]) && Blanked(fs, h, d)
  {
    hide ChangeSize, Size2NBlocks;
  }

  /** Filling that entry in. */
  lemma EntryFilled(fs: Fs, h: Fs, g: Fs, d: nat, ino: nat, stored: seq<char>)
    requires d < |fs.dirs| && |stored| <= MAXNAMELEN + 1 && Blanked(fs, h, d)
    requires var k := Place(fs.dirs[d]);
             g.dirs == h.dirs[d := h.dirs[d][k := Entry(ino, stored + h.dirs[d][k].raw[|stored|..])]]
    ensures OneName(fs, g, d, ino, stored)
  {
    hide Place, OldChar;
    var e := g.dirs[d][Place(fs.dirs[d])];
    assert e.raw[..|stored|] == stored;
  }

  lemma LinkNeeds(l: Layout, fs: Fs, d: nat, src: nat, name: seq<char>, fuel: nat)
    requires Linkable(fs, d, src) && !BlankEntry(l, fs, d, fuel).1.NotFound?
    requires Link(l, fs, d, src, name, fuel).1 == Done(Success)
    ensures |name| <= MAXNAMELEN && FindEntry(fs.dirs[d], name).None? && BlankEntry(l, fs, d, fuel).1.At?
  {
    hide BlankEntry, FindEntry, DirMayGrow, CopyName;
  }

  lemma LinkAt(l: Layout, fs: Fs, d: nat, src: nat, name: seq<char>, fuel: nat, h: Fs, k: nat)
    requires Linkable(fs, d, src) && |name| <= MAXNAMELEN && FindEntry(fs.dirs[d], name).None?
    requires BlankEntry(l, fs, d, fuel) == (h, At(k))
    ensures var put := PutEntry(h, d, k, Entry(src, CopyName(h.dirs[d][k].raw, name)));
            Link(l, fs, d, src, name, fuel).0 == SetFile(put, src, h.v.files[src].(nlink := h.v.files[src].nlink + 1))
  {
    hide BlankEntry, FindEntry, DirMayGrow, CopyName, Matches, FindBlank, CName, ZeroEntry, ChangeSize, Size2NBlocks;
    var put := PutEntry(h, d, k, Entry(src, CopyName(h.dirs[d][k].raw, name)));
    assert put.v == h.v;
  }

  /** `ospfs_link` that answers 0 has taken exactly one entry and written inode and
      name into it, without touching the rest of the name field, and has counted
      the link; nothing else has changed but what the directory's growth needs. */
  lemma LinkStores(l: Layout, fs: Fs, d: nat, src: nat, name: seq<char>, fuel: nat)
    requires Wired(l, fs) && Linkable(fs, d, src) && Link(l, fs, d, src, name, fuel).1 == Done(Success)
    ensures |name| <= MAXNAMELEN && FindEntry(fs.dirs[d], name).None?
    ensures var g := Link(l, fs, d, src, name, fuel).0;
            && OneName(fs, g, d, src, name)
            && OneInode(fs, g, d, src, fs.v.files[src].(nlink := fs.v.files[src].nlink + 1))
  {
    hide Link, Wired, BlankEntry, FindEntry, Place, Blanked, OneName, DirMayGrow, Tight, Sound;
    PlaceMade(l, fs, d, fuel);
    BlankEntryWired(l, fs, d, fuel);
    LinkNeeds(l, fs, d, src, name, fuel);
    var (h, at) := BlankEntry(l, fs, d, fuel);
    LinkAt(l, fs, d, src, name, fuel, h, at.k);
    EntryFilled(fs, h, Link(l, fs, d, src, name, fuel).0, d, src, name);
  }

  /** The inode that create and symlink take. */
  ghost predicate IsFirstUnused(files: seq<File>, i: nat) {
    2 <= i < |files| && files[i].nlink == 0 && forall j :: 2 <= j < i ==> files[j].nlink != 0
  }

  lemma {:induction false} FoundIsFirst(files: seq<File>, i: nat)
    requires 2 <= i <= |files| && FindInode(files, i).Some? && forall j :: 2 <= j < i ==> files[j].nlink != 0
    ensures IsFirstUnused(files, FindInode(files, i).value)
    decreases |files| - i
  {
    if files[i].nlink != 0 {
      FoundIsFirst(files, i + 1);
    }
  }

  /** What a new file or symbolic link looks like: one entry with the terminated
      name, for the first unused inode, which becomes `f`. */
  ghost predicate Stored(fs: Fs, g: Fs, d: nat, name: seq<char>, f: File)
    requires d < |fs.dirs| && |name| <= MAXNAMELEN
  {
    exists i: nat :: IsFirstUnused(fs.v.files, i) && OneName(fs, g, d, i, name + ['\0']) && OneInode(fs, g, d, i, f)
  }

  lemma MakeInodeNeeds(l: Layout, fs: Fs, d: nat, name: seq<char>, f: File, fuel: nat)
    requires IsDir(fs, d) && DirMayGrow(fs, d) && 2 <= |fs.v.files| && |name| <= MAXNAMELEN
    requires !BlankEntry(l, fs, d, fuel).1.NotFound? && MakeInode(l, fs, d, name, f, fuel).1 == Done(Success)
    ensures FindEntry(fs.dirs[d], name).None? && BlankEntry(l, fs, d, fuel).1.At?
    ensures 2 <= |BlankEntry(l, fs, d, fuel).0.v.files| && FindInode(BlankEntry(l, fs, d, fuel).0.v.files, 2).Some?
  {
    hide BlankEntry, FindEntry, DirMayGrow, CopyNameZ, Matches, FindBlank, CName, ChangeSize, Size2NBlocks, FindInode;
  }

  lemma MakeInodeAt(
      l: Layout, fs: Fs, d: nat, name: seq<char>, f: File, fuel: nat, h: Fs, k: nat, i: nat)
    requires IsDir(fs, d) && DirMayGrow(fs, d) && 2 <= |fs.v.files| && |name| <= MAXNAMELEN
    requires FindEntry(fs.dirs[d], name).None? && BlankEntry(l, fs, d, fuel) == (h, At(k))
    requires 2 <= |h.v.files| && FindInode(h.v.files, 2) == Some(i)
    ensures MakeInode(l, fs, d, name, f, fuel).0
         == SetFile(PutEntry(h, d, k, Entry(i, CopyNameZ(h.dirs[d][k].raw, name))), i, f)
  {
    hide BlankEntry, FindEntry, DirMayGrow, CopyNameZ, Matches, FindBlank, CName, ChangeSize, Size2NBlocks, FindInode;
  }

  lemma MakeInodeStores(l: Layout, fs: Fs, d: nat, name: seq<char>, f: File, fuel: nat)
    requires Wired(l, fs) && IsDir(fs, d) && DirMayGrow(fs, d) && |name| <= MAXNAMELEN
    requires MakeInode(l, fs, d, name, f, fuel).1 == Done(Success)
    ensures FindEntry(fs.dirs[d], name).None?
    ensures Stored(fs, MakeInode(l, fs, d, name, f, fuel).0, d, name, f)
  {
    assert 2 <= |fs.v.files|;
    hide MakeInode, Wired, BlankEntry, FindEntry, Place, FindInode, Blanked, OneName, DirMayGrow, Tight, Sound;
    PlaceMade(l, fs, d, fuel);
    BlankEntryWired(l, fs, d, fuel);
    MakeInodeNeeds(l, fs, d, name, f, fuel);
    var (h, at) := BlankEntry(l, fs, d, fuel);
    FoundIsFirst(h.v.files, 2);
    var i := FindInode(h.v.files, 2).value;
    MakeInodeAt(l, fs, d, name, f, fuel, h, at.k, i);
    InodeFilled(fs, h, MakeInode(l, fs, d, name, f, fuel).0, d, name, i, f);
  }

  lemma InodeFilled(fs: Fs, h: Fs, g: Fs, d: nat, name: seq<char>, i: nat, f: File)
    requires d < |fs.dirs| && d < |fs.v.files| == |h.v.files| && Blanked(fs, h, d) && |name| <= MAXNAMELEN
    requires forall j :: 0 <= j < |fs.v.files| && j != d ==> h.v.files[j] == fs.v.files[j]
    requires h.v.files[d].nlink == fs.v.files[d].nlink && IsFirstUnused(h.v.files, i)
    requires var k := Place(fs.dirs[d]);
             g == SetFile(PutEntry(h, d, k, Entry(i, CopyNameZ(h.dirs[d][k].raw, name))), i, f)
    ensures Stored(fs, g, d, name, f)
  {
    hide Place, OneName, OldChar;
    SameUnused(fs.v.files, h.v.files, i);
    ZCopied(h.dirs[d][Place(fs.dirs[d])].raw, name);
    EntryFilled(fs, h, g, d, i, name + ['\0']);
    assert OneInode(fs, g, d, i, f);
  }

  lemma SameUnused(before: seq<File>, after: seq<File>, i: nat)
    requires |after| == |before| && IsFirstUnused(after, i)
    requires forall j :: 0 <= j < |before| ==> after[j].nlink == before[j].nlink
    ensures IsFirstUnused(before, i)
  {
  }

  lemma ZCopied(raw: NameBuf, name: seq<char>)
    requires |name| <= MAXNAMELEN
    ensures CopyNameZ(raw, name) == (name + ['\0']) + raw[|name + ['\0']|..]
  {
  }

  // ------------------------------------------------------------------ look-ups

  lemma FoundExactly(es: seq<Entry>, name: seq<char>, k: nat)
    requires k < |es| && Matches(es[k], name) && forall m :: 0 <= m < k ==> !Matches(es[m], name)
    ensures FindEntry(es, name) == Some(k)
  {
    hide Matches;
    var r := FindEntry(es, name);
    assert r.Some? && !(r.value < k) && !(k < r.value);
  }

  /** Looking up a name that the new entry does not have finds what it found; the
      new entry is found under its name if nothing was. */
  lemma LookupAfter(before: seq<Entry>, after: seq<Entry>, q: seq<char>)
    requires OnlyPlace(before, after)
    ensures var e := after[Place(before)];
            && (!Matches(e, q) ==> FindEntry(after, q) == FindEntry(before, q))
            && (Matches(e, q) && FindEntry(before, q).None? ==> FindEntry(after, q) == Some(Place(before)))
  {
    hide Place, Matches;
    var e, k := after[Place(before)], Place(before);
    if Matches(e, q) {
      if FindEntry(before, q).None? {
        FoundExactly(after, q, k);
      }
    } else if FindEntry(before, q).Some? {
      var r := FindEntry(before, q).value;
      BlankMatchesNothing(before, q);
      FoundExactly(after, q, r);
    } else {
      FoundNowhere(after, q);
    }
  }

  lemma BlankMatchesNothing(es: seq<Entry>, q: seq<char>)
    ensures Place(es) < |es| ==> !Matches(es[Place(es)], q)
  {
  }

  lemma FoundNowhere(es: seq<Entry>, q: seq<char>)
    requires forall m :: 0 <= m < |es| ==> !Matches(es[m], q)
    ensures FindEntry(es, q) == None
  {
    hide Matches;
  }

  /** A name of a new entry in directory `d`: it is found there, and every other
      name finds what it found. */
  ghost predicate NameAdded(fs: Fs, g: Fs, d: nat, ino: nat, name: seq<char>)
    requires d < |fs.dirs| == |g.dirs|
  {
    && (forall c :: 0 <= c < |fs.dirs| && c != d ==> g.dirs[c] == fs.dirs[c])
    && FindEntry(fs.dirs[d], name).None?
    && FindEntry(g.dirs[d], name) == Some(Place(fs.dirs[d])) && g.dirs[d][Place(fs.dirs[d])].ino == ino
    && forall q :: q != name ==> SameFound(fs.dirs[d], g.dirs[d], q)
  }

  /** The name leads to the same entry. */
  ghost predicate SameFound(before: seq<Entry>, after: seq<Entry>, q: seq<char>) {
    && FindEntry(after, q) == FindEntry(before, q)
    && var r := FindEntry(before, q);
       (r.Some? ==> r.value < |after| && after[r.value] == before[r.value])
  }

  lemma SameAfter(before: seq<Entry>, after: seq<Entry>, q: seq<char>)
    requires OnlyPlace(before, after) && !Matches(after[Place(before)], q)
    ensures SameFound(before, after, q)
  {
    hide Place, Matches;
    LookupAfter(before, after, q);
    BlankMatchesNothing(before, q);
  }

  lemma TerminatedName(raw: NameBuf, name: seq<char>)
    requires |name| <= MAXNAMELEN && '\0' !in name && raw[..|name| + 1] == name + ['\0']
    ensures CName(raw) == name
  {
    assert raw == name + (['\0'] + raw[|name| + 1..]);
    CNameOfCopy(name, ['\0'] + raw[|name| + 1..]);
  }

  /** In every directory: a file or symbolic link that was created is found under
      the name asked for, and no other name leads anywhere else than before. */
  lemma CreatedIsFound(fs: Fs, g: Fs, d: nat, name: seq<char>, i: nat)
    requires d < |fs.dirs| && |name| <= MAXNAMELEN && '\0' !in name && i != 0
    requires FindEntry(fs.dirs[d], name).None? && OneName(fs, g, d, i, name + ['\0'])
    ensures NameAdded(fs, g, d, i, name)
  {
    hide Place, FindEntry, OldChar;
    TerminatedName(g.dirs[d][Place(fs.dirs[d])].raw, name);
    LookupAfter(fs.dirs[d], g.dirs[d], name);
    forall q | q != name
      ensures SameFound(fs.dirs[d], g.dirs[d], q)
    {
      SameAfter(fs.dirs[d], g.dirs[d], q);
    }
  }

  /** `ospfs_create` that answers 0. */
  lemma CreateStores(l: Layout, fs: Fs, d: nat, name: seq<char>, fuel: nat)
    requires Wired(l, fs) && Legal(fs, CreateEv(d, name)) && '\0' !in name
    requires Create(l, fs, d, name, fuel).1 == Done(Success)
    ensures var g := Create(l, fs, d, name, fuel).0;
            exists i: nat ::
              && IsFirstUnused(fs.v.files, i) && OneInode(fs, g, d, i, File(0, Regular, 1, map[]))
              && OneName(fs, g, d, i, name + ['\0']) && NameAdded(fs, g, d, i, name)
  {
    assert 2 <= |fs.v.files|;
    hide Wired, MakeInode, OneInode, OneName, NameAdded, FindEntry, DirMayGrow;
    MakeInodeStores(l, fs, d, name, File(0, Regular, 1, map[]), fuel);
    var g := Create(l, fs, d, name, fuel).0;
    var i: nat :| IsFirstUnused(fs.v.files, i) && OneName(fs, g, d, i, name + ['\0'])
      && OneInode(fs, g, d, i, File(0, Regular, 1, map[]));
    CreatedIsFound(fs, g, d, name, i);
  }

  /** `ospfs_symlink` that answers 0: the size is that of the target. */
  lemma SymlinkStores(l: Layout, fs: Fs, d: nat, name: seq<char>, target: seq<char>, fuel: nat)
    requires Wired(l, fs) && Legal(fs, SymlinkEv(d, name, target)) && '\0' !in name
    requires MakeSymlink(l, fs, d, name, target, fuel).1 == Done(Success)
    ensures |target| <= MAXSYMLINKLEN
    ensures var g := MakeSymlink(l, fs, d, name, target, fuel).0;
            exists i: nat ::
              && IsFirstUnused(fs.v.files, i) && OneInode(fs, g, d, i, File(|target|, Symlink, 1, map[]))
              && OneName(fs, g, d, i, name + ['\0']) && NameAdded(fs, g, d, i, name)
  {
    assert 2 <= |fs.v.files|;
    hide Wired, MakeInode, OneInode, OneName, NameAdded, FindEntry, DirMayGrow;
    MakeInodeStores(l, fs, d, name, File(|target|, Symlink, 1, map[]), fuel);
    var g := MakeSymlink(l, fs, d, name, target, fuel).0;
    var i: nat :| IsFirstUnused(fs.v.files, i) && OneName(fs, g, d, i, name + ['\0'])
      && OneInode(fs, g, d, i, File(|target|, Symlink, 1, map[]));
    CreatedIsFound(fs, g, d, name, i);
  }

  /** A hard link is found under its name if and only if the name field of the
      entry that was taken held a terminator at that place; every other name but
      the one stored by mistake finds what it found. */
  lemma LinkIsFound(l: Layout, fs: Fs, d: nat, src: nat, name: seq<char>, fuel: nat)
    requires Wired(l, fs) && Linkable(fs, d, src) && Link(l, fs, d, src, name, fuel).1 == Done(Success)
    requires '\0' !in name
    ensures var g := Link(l, fs, d, src, name, fuel).0;
            && |name| <= MAXNAMELEN && |g.dirs| == |fs.dirs|
            && (FindEntry(g.dirs[d], name).Some? <==> OldChar(fs.dirs[d], |name|) == '\0')
            && (OldChar(fs.dirs[d], |name|) == '\0' ==> NameAdded(fs, g, d, src, name))
            && forall q :: !(name <= q) ==> SameFound(fs.dirs[d], g.dirs[d], q)
  {
    hide Place, FindEntry, OldChar, Wired, Link, OneInode, DirMayGrow;
    LinkStores(l, fs, d, src, name, fuel);
    var g := Link(l, fs, d, src, name, fuel).0;
    var e := g.dirs[d][Place(fs.dirs[d])];
    var rest := e.raw[|name|..];
    assert e.raw == name + rest && rest[0] == OldChar(fs.dirs[d], |name|);
    CNameOfCopy(name, rest);
    assert CName(e.raw) == name + CName(rest);
    LookupAfter(fs.dirs[d], g.dirs[d], name);
    forall q | q != CName(e.raw)
      ensures SameFound(fs.dirs[d], g.dirs[d], q)
    {
      SameAfter(fs.dirs[d], g.dirs[d], q);
    }
  }

  // ------------------------------------------------------------------ removing

  lemma UnlinkDirs(l: Layout, fs: Fs, d: nat, i: nat, name: seq<char>, fuel: nat)
    requires Legal(fs, UnlinkEv(d, i, name)) && FindEntry(fs.dirs[d], name).Some?
    requires Size2NBlocks(0) <= MAXFILEBLKS
    ensures var k := FindEntry(fs.dirs[d], name).value;
            Unlink(l, fs, d, i, name, fuel).0.dirs == fs.dirs[d := fs.dirs[d][k := fs.dirs[d][k].(ino := 0)]]
  {
    hide FindEntry, ChangeSize;
  }

  /** `ospfs_unlink` blanks the entry found and keeps its name field; all other
      names lead where they led. */
  lemma UnlinkBlanks(l: Layout, fs: Fs, d: nat, i: nat, name: seq<char>, fuel: nat)
    requires Legal(fs, UnlinkEv(d, i, name)) && FindEntry(fs.dirs[d], name).Some?
    ensures var g := Unlink(l, fs, d, i, name, fuel).0;
            var k := FindEntry(fs.dirs[d], name).value;
            && |g.dirs| == |fs.dirs| && |g.dirs[d]| == |fs.dirs[d]|
            && (forall c :: 0 <= c < |fs.dirs| && c != d ==> g.dirs[c] == fs.dirs[c])
            && (forall m :: 0 <= m < |fs.dirs[d]| && m != k ==> g.dirs[d][m] == fs.dirs[d][m])
            && g.dirs[d][k].ino == 0 && g.dirs[d][k].raw == fs.dirs[d][k].raw
            && forall q :: q != name ==> SameFound(fs.dirs[d], g.dirs[d], q)
  {
    hide Unlink;
    UnlinkDirs(l, fs, d, i, name, fuel);
    var g, k := Unlink(l, fs, d, i, name, fuel).0, FindEntry(fs.dirs[d], name).value;
    forall q | q != name
      ensures SameFound(fs.dirs[d], g.dirs[d], q)
    {
      SameWithout(fs.dirs[d], g.dirs[d], k, name, q);
    }
  }

  lemma SameWithout(before: seq<Entry>, after: seq<Entry>, k: nat, name: seq<char>, q: seq<char>)
    requires k < |before| == |after| && Matches(before[k], name) && after[k].ino == 0 && q != name
    requires forall m :: 0 <= m < |before| && m != k ==> after[m] == before[m]
    ensures SameFound(before, after, q)
  {
    assert !Matches(before[k], q) && !Matches(after[k], q);
    hide Matches;
    if FindEntry(before, q).Some? {
      FoundExactly(after, q, FindEntry(before, q).value);
    } else {
      FoundNowhere(after, q);
    }
  }

  /** Creating a file and removing it again: every name in every directory leads
      where it led at first. */
  lemma CreateThenUnlink(l: Layout, fs: Fs, d: nat, name: seq<char>, i: nat, fuel: nat)
    requires Wired(l, fs) && Legal(fs, CreateEv(d, name)) && '\0' !in name
    requires Create(l, fs, d, name, fuel).1 == Done(Success)
    requires Legal(Create(l, fs, d, name, fuel).0, UnlinkEv(d, i, name))
    ensures var g := Create(l, fs, d, name, fuel).0;
            var h := Unlink(l, g, d, i, name, fuel).0;
            |h.dirs| == |fs.dirs| && forall c: nat, q :: c < |fs.dirs| ==> SameFound(fs.dirs[c], h.dirs[c], q)
  {
    assert 2 <= |fs.v.files|;
    hide Wired, Create, Unlink, FindEntry, DirMayGrow, OldChar, Place, OneInode, IsFirstUnused, Matches, SameFound;
    CreateStores(l, fs, d, name, fuel);
    var g := Create(l, fs, d, name, fuel).0;
    UnlinkBlanks(l, g, d, i, name, fuel);
    var h := Unlink(l, g, d, i, name, fuel).0;
    forall c: nat, q | c < |fs.dirs|
      ensures SameFound(fs.dirs[c], h.dirs[c], q)
    {
      if c == d && q == name {
        GoneAgain(fs.dirs[d], g.dirs[d], h.dirs[d], name);
      } else if c == d {
        SameFoundOn(fs.dirs[d], g.dirs[d], h.dirs[d], q);
      } else {
        assert h.dirs[c] == fs.dirs[c];
      }
    }
  }

  lemma GoneAgain(before: seq<Entry>, mid: seq<Entry>, after: seq<Entry>, name: seq<char>)
    requires OnlyPlace(before, mid) && |after| == |mid| && FindEntry(before, name).None?
    requires forall m :: 0 <= m < |mid| && m != Place(before) ==> after[m] == mid[m]
    requires after[Place(before)].ino == 0
    ensures SameFound(before, after, name)
  {
    hide Place;
    FoundNowhere(after, name);
  }

  lemma SameFoundOn(before: seq<Entry>, mid: seq<Entry>, after: seq<Entry>, q: seq<char>)
    requires SameFound(before, mid, q) && SameFound(mid, after, q)
    ensures SameFound(before, after, q)
  {
  }

  // --------------------------------------------------------------------- sizes

  /** A write or a truncation that succeeds leaves the size it stands for: the end of
      the write if that is behind the old end, or the size asked for.  It changes no
      name, no link count and no other inode. */
  lemma SizesSet(l: Layout, fs: Fs, ev: Event, fuel: nat)
    requires Legal(fs, ev) && 2 <= |fs.v.files| && (ev.WriteEv? || ev.TruncateEv?)
    requires Step(l, fs, ev, fuel).1 == Done(Success)
    ensures var (g, f) := (Step(l, fs, ev, fuel).0, fs.v.files[ev.i]);
            && g.dirs == fs.dirs && |g.v.files| == |fs.v.files|
            && g.v.files[ev.i].size == (if ev.TruncateEv? then ev.size else if ev.end > f.size then ev.end else f.size)
            && g.v.files[ev.i].nlink == f.nlink && g.v.files[ev.i].ftype == f.ftype
            && forall j :: 0 <= j < |fs.v.files| && j != ev.i ==> g.v.files[j] == fs.v.files[j]
  {
    var f := fs.v.files[ev.i];
    if ev.TruncateEv? {
      SizeAskedFor(l, fs.v, ev.i, ev.size, fuel);
    } else if ev.end > f.size {
      SizeAskedFor(l, fs.v, ev.i, ev.end, fuel);
    }
    hide ChangeSize;
  }

  lemma SizeAskedFor(l: Layout, v: Volume, i: nat, size: uint32, fuel: nat)
    requires i < |v.files| && size <= MAXFILEBLKS * BLKSIZE
    ensures Size2NBlocks(size) <= MAXFILEBLKS
    ensures var (w, out) := ChangeSize(l, v, i, size, fuel);
            out == Finished(Ok) ==> w.files[i].size == size
  {
    hide GrowTo, ShrinkTo;
  }

  // ------------------------------------------------------------------- answers

  ghost predicate Named(es: seq<Entry>, name: seq<char>) {
    exists m :: 0 <= m < |es| && Matches(es[m], name)
  }

  /** There is a blank entry, or a block for one more. */
  ghost predicate HasPlace(fs: Fs, d: nat)
    requires IsDir(fs, d)
  {
    || (exists m :: 0 <= m < |fs.dirs[d]| && fs.dirs[d][m].ino == 0)
    || Room(fs.v, d, Size2NBlocks((fs.v.files[d].size + DIRENTRY_SIZE) % TWO32))
  }

  lemma PlaceIff(l: Layout, fs: Fs, d: nat, fuel: nat)
    requires Wired(l, fs) && IsDir(fs, d) && DirMayGrow(fs, d) && fuel > 0
    ensures BlankEntry(l, fs, d, fuel).1 == if HasPlace(fs, d) then At(Place(fs.dirs[d])) else Stuck
  {
    hide Sound, Shaped, ChangeSize, Count, Size2NBlocks, Tight, RootHolds, Kept, Cut, CleanGrow, Room;
    if FindBlank(fs.dirs[d]).None? {
      GrowthStep(l, fs, d);
      var size := fs.v.files[d].size + DIRENTRY_SIZE;
      ChangeSizeGrows(l, fs.v, d, size, fuel);
      DirGrows(l, fs.v, d, size, fuel);
    } else {
      assert fs.dirs[d][FindBlank(fs.dirs[d]).value].ino == 0;
    }
  }

  /** What `ospfs_link` answers, in every state of every run: -ENOSPC is not among
      it; on a full disk the growing of the directory never ends. */
  lemma LinkAnswers(l: Layout, fs: Fs, d: nat, src: nat, name: seq<char>, fuel: nat)
    requires Wired(l, fs) && Linkable(fs, d, src) && fuel > 0
    ensures Link(l, fs, d, src, name, fuel).1
         == if |name| > MAXNAMELEN then Done(NameTooLong)
            else if Named(fs.dirs[d], name) then Done(Exists)
            else if HasPlace(fs, d) then Done(Success) else Hung
    ensures |name| > MAXNAMELEN || Named(fs.dirs[d], name) ==> Link(l, fs, d, src, name, fuel).0 == fs
  {
    hide Wired, BlankEntry, DirMayGrow, HasPlace, Matches;
    PlaceIff(l, fs, d, fuel);
  }

  /** What `ospfs_create` answers; -ENOSPC stands for no unused inode only. */
  lemma CreateAnswers(l: Layout, fs: Fs, d: nat, name: seq<char>, fuel: nat)
    requires Wired(l, fs) && Legal(fs, CreateEv(d, name)) && fuel > 0
    ensures Create(l, fs, d, name, fuel).1
         == if |name| > MAXNAMELEN then Done(NameTooLong)
            else if Named(fs.dirs[d], name) then Done(Exists)
            else if !HasPlace(fs, d) then Hung
            else if exists i :: IsFirstUnused(fs.v.files, i) then Done(Success) else Done(NoSpc)
  {
    assert 2 <= |fs.v.files|;
    hide Wired, BlankEntry, DirMayGrow, HasPlace, Matches;
    PlaceIff(l, fs, d, fuel);
    if HasPlace(fs, d) {
      InodeIff(l, fs, d, fuel);
    }
  }

  lemma InodeIff(l: Layout, fs: Fs, d: nat, fuel: nat)
    requires Wired(l, fs) && IsDir(fs, d) && DirMayGrow(fs, d) && 2 <= |fs.v.files| && BlankEntry(l, fs, d, fuel).1.At?
    ensures FindInode(BlankEntry(l, fs, d, fuel).0.v.files, 2).Some? <==> exists i :: IsFirstUnused(fs.v.files, i)
  {
    hide Wired, BlankEntry, DirMayGrow;
    BlankEntryWired(l, fs, d, fuel);
    SameInodeFound(fs.v.files, BlankEntry(l, fs, d, fuel).0.v.files, 2);
    if FindInode(fs.v.files, 2).Some? {
      FoundIsFirst(fs.v.files, 2);
    }
  }

  /** `ospfs_unlink` misses exactly the names that no entry has, and then changes
      nothing. */
  lemma UnlinkAnswers(l: Layout, fs: Fs, d: nat, i: nat, name: seq<char>, fuel: nat)
    requires Legal(fs, UnlinkEv(d, i, name))
    ensures Unlink(l, fs, d, i, name, fuel).1 == Done(NoEnt) <==> !Named(fs.dirs[d], name)
    ensures !Named(fs.dirs[d], name) ==> Unlink(l, fs, d, i, name, fuel).0 == fs
  {
    hide ChangeSize, Matches;
    if FindEntry(fs.dirs[d], name).Some? {
      assert Matches(fs.dirs[d][FindEntry(fs.dirs[d], name).value], name);
    }
  }

  /** What `ospfs_symlink` answers. */
  lemma SymlinkAnswers(l: Layout, fs: Fs, d: nat, name: seq<char>, target: seq<char>, fuel: nat)
    requires Wired(l, fs) && Legal(fs, SymlinkEv(d, name, target)) && fuel > 0
    ensures MakeSymlink(l, fs, d, name, target, fuel).1
         == if |name| > MAXNAMELEN || |target| > MAXSYMLINKLEN then Done(NameTooLong)
            else if Named(fs.dirs[d], name) then Done(Exists)
            else if !HasPlace(fs, d) then Hung
            else if exists i :: IsFirstUnused(fs.v.files, i) then Done(Success) else Done(NoSpc)
  {
    assert 2 <= |fs.v.files|;
    hide Wired, BlankEntry, DirMayGrow, HasPlace, Matches;
    PlaceIff(l, fs, d, fuel);
    if HasPlace(fs, d) {
      InodeIff(l, fs, d, fuel);
    }
  }
}
