/** Where runs start, and one input for each place where the kernel module
    departs from its comments. */
module OspfsWitness {
  import opened Common
  import opened OspfsLayout
  import opened OspfsVolume
  import opened OspfsSafety
  import opened OspfsExact
  import opened OspfsCount
  import opened OspfsResize
  import opened OspfsGrow
  import opened OspfsHang
  import opened OspfsDir
  import opened OspfsRuns

  // ------------------------------------------------------------ the start

  ghost function Area(l: Layout, from: nat): (s: set<nat>)
    requires from <= l.nblocks
    ensures |s| == l.nblocks - from
    ensures forall b :: b in s <==> from <= b < l.nblocks
  {
    Interval(from, l.nblocks)
  }

  function Unused(): File {
    File(0, Regular, 0, map[])
  }

  /** All inodes unused but the root directory. */
  function OnlyRoot(l: Layout, root: File): (files: seq<File>)
    requires l.Valid()
    ensures |files| == l.ninodes && files[ROOT] == root
    ensures forall i :: 0 <= i < |files| && i != ROOT ==> files[i] == Unused()
  {
    seq(l.ninodes, i => if i == ROOT then root else Unused())
  }

  function NoEntries(l: Layout): (dirs: seq<seq<Entry>>)
    ensures |dirs| == l.ninodes && forall i :: 0 <= i < |dirs| ==> dirs[i] == []
  {
    seq(l.ninodes, _ => [])
  }

  /** The image made from an empty directory: nothing taken behind the inodes. */
  ghost function Bare(l: Layout): Fs
    requires l.Valid()
  {
    Fs(Volume(Area(l, l.FirstData()), OnlyRoot(l, File(0, Directory, 1, map[]))), NoEntries(l))
  }

  /** The root directory has its first block, with one entry, which is blank. */
  ghost function Rooted(l: Layout): Fs
    requires l.Valid() && l.FirstData() < l.nblocks
  {
    Fs(Volume(Area(l, l.FirstData() + 1),
              OnlyRoot(l, File(DIRENTRY_SIZE, Directory, 1, map[Direct(0) := l.FirstData()]))),
       NoEntries(l)[ROOT := [ZeroEntry()]])
  }

  lemma {:induction false} CountNothing(dirs: seq<seq<Entry>>, i: nat)
    requires i > 0
    requires forall d, k :: 0 <= d < |dirs| && 0 <= k < |dirs[d]| ==> dirs[d][k].ino == 0
    requires forall d :: 0 <= d < |dirs| ==> |dirs[d]| <= 1
    ensures Count(dirs, i) == 0
  {
    if dirs != [] {
      CountNothing(dirs[1..], i);
      assert CountIn(dirs[0], i) == 0 by {
        if dirs[0] != [] {
          assert dirs[0][1..] == [] && dirs[0][0].ino == 0;
        }
      }
    }
  }

  lemma EmptyFileIsShaped(f: File)
    requires f.size == 0 && f.ptrs == map[]
    ensures Shaped(f)
  {
  }

  lemma BareTight(l: Layout)
    requires l.Valid()
    ensures RootHolds(l, Bare(l).v) && Tight(l, Bare(l).v)
            <==> l.nblocks == l.FirstData() || l.ninodes % BLKINODES != 0
  {
    var v := Bare(l).v;
    if l.FirstData() < l.nblocks {
      RefusedDataBlocks(l, l.FirstData());
    }
    forall b | l.InDataArea(b)
      ensures l.Refused(b) <==> b == l.FirstData() && l.ninodes % BLKINODES == 0
    {
      RefusedDataBlocks(l, b);
    }
    forall i | 0 <= i < |v.files| && !v.files[i].ftype.Symlink?
      ensures Shaped(v.files[i])
    {
      EmptyFileIsShaped(v.files[i]);
    }
    hide Shaped;
    assert Injective(v);
  }

  /** The image made from an empty directory is in order exactly when `free_block`
      refuses no block that the allocator may hand out. */
  lemma BareInOrder(l: Layout)
    requires l.Valid()
    ensures InOrder(l, Bare(l)) <==> l.nblocks == l.FirstData() || l.ninodes % BLKINODES != 0
  {
    var fs := Bare(l);
    BareTight(l);
    EmptyFileIsShaped(fs.v.files[ROOT]);
    hide Shaped, Sound, Tight, RootHolds;
    forall i | 0 <= i < |fs.dirs|
      ensures InodeWired(fs, i)
    {
      if i > 0 {
        CountNothing(fs.dirs, i);
      }
    }
    hide InodeWired;
    if Tight(l, fs.v) {
      TightIsSound(l, fs.v);
    }
  }

  lemma RootFileIsShaped(f: File, b: nat)
    requires f.size == DIRENTRY_SIZE && f.ptrs == map[Direct(0) := b]
    ensures Shaped(f)
  {
    assert Size2NBlocks(f.size) == 1;
  }

  lemma RootedTight(l: Layout)
    requires l.Valid() && l.FirstData() < l.nblocks
    ensures Tight(l, Rooted(l).v) && RootHolds(l, Rooted(l).v)
  {
    var v := Rooted(l).v;
    assert HasPtr(v, ROOT, Direct(0)) && v.files[ROOT].ptrs[Direct(0)] == l.FirstData();
    assert RootHas(v, l.FirstData()) && Reached(v, l.FirstData());
    forall b | l.InDataArea(b)
      ensures l.Refused(b) ==> b == l.FirstData()
    {
      RefusedDataBlocks(l, b);
    }
    forall i | 0 <= i < |v.files| && !v.files[i].ftype.Symlink?
      ensures Shaped(v.files[i])
    {
      if i == ROOT {
        RootFileIsShaped(v.files[i], l.FirstData());
      } else {
        EmptyFileIsShaped(v.files[i]);
      }
    }
    hide Shaped, Needed;
    assert Injective(v);
  }

  /** A base for all runs: every disk that has a data block has such a volume. */
  lemma RootedInOrder(l: Layout)
    requires l.Valid() && l.FirstData() < l.nblocks
    ensures InOrder(l, Rooted(l))
  {
    var fs := Rooted(l);
    RootedTight(l);
    RootFileIsShaped(fs.v.files[ROOT], l.FirstData());
    hide Tight, Shaped, Sound, RootHolds;
    forall i | 0 <= i < |fs.dirs|
      ensures InodeWired(fs, i)
    {
      if i > 0 {
        CountNothing(fs.dirs, i);
      }
    }
    TightIsSound(l, fs.v);
  }

  lemma TightIsSound(l: Layout, v: Volume)
    requires Tight(l, v)
    ensures Sound(l, v)
  {
  }

  /** The first name in an empty image goes into a block that the root directory
      gets then: the block that `free_block` refuses, if it refuses any.  From then
      on the volume is in order, whatever the number of inodes. */
  lemma FirstCreate(l: Layout, name: seq<char>, fuel: nat)
    requires l.Valid() && l.FirstData() < l.nblocks && 2 < l.ninodes && |name| <= MAXNAMELEN && fuel > 0
    ensures Create(l, Bare(l), ROOT, name, fuel) == Create(l, Rooted(l), ROOT, name, fuel)
    ensures var (g, reply) := Create(l, Bare(l), ROOT, name, fuel); reply == Done(Success) && InOrder(l, g)
  {
    FirstEntry(l, fuel);
    RootedInOrder(l);
    var bare, rooted := Bare(l), Rooted(l);
    assert FindEntry(bare.dirs[ROOT], name) == None && FindEntry(rooted.dirs[ROOT], name) == None;
    assert FindInode(rooted.v.files, 2) == Some(2);
    hide Wired, Tight, BlankEntry, Rooted;
    MakeInodeInOrder(l, rooted, ROOT, name, File(0, Regular, 1, map[]), fuel);
  }

  lemma FirstEntry(l: Layout, fuel: nat)
    requires l.Valid() && l.FirstData() < l.nblocks && fuel > 0
    ensures DirMayGrow(Bare(l), ROOT) && DirMayGrow(Rooted(l), ROOT)
    ensures BlankEntry(l, Bare(l), ROOT, fuel) == (Rooted(l), At(0)) == BlankEntry(l, Rooted(l), ROOT, fuel)
  {
    var bare, rooted := Bare(l), Rooted(l);
    FirstBlockOfRoot(l, fuel);
    hide ChangeSize, Size2NBlocks;
    assert FindBlank(bare.dirs[ROOT]) == None && FindBlank(rooted.dirs[ROOT]) == Some(0);
    assert bare.dirs[ROOT] + [ZeroEntry()] == [ZeroEntry()];
    assert bare.dirs[ROOT := [ZeroEntry()]] == rooted.dirs;
  }

  lemma FirstBlockOfRoot(l: Layout, fuel: nat)
    requires l.Valid() && l.FirstData() < l.nblocks && fuel > 0
    ensures DirMayGrow(Bare(l), ROOT)
    ensures ChangeSize(l, Bare(l).v, ROOT, DIRENTRY_SIZE, fuel) == (Rooted(l).v, Finished(Ok))
  {
    var v := Bare(l).v;
    var b := l.FirstData();
    assert Size2NBlocks(0) == 0 && Size2NBlocks(BLKSIZE) == 1 && Size2NBlocks(DIRENTRY_SIZE) == 1;
    assert NewSlots(v.files[ROOT].ptrs, 0) == [Direct(0)];
    assert Least(v.free) == b by { assert b in v.free; }
    var w := Fill(v, ROOT, Direct(0));
    assert FillAll(v, ROOT, [Direct(0)]) == w by { assert FillAll(w, ROOT, []) == w; assert [Direct(0)][1..] == []; }
    var x := SetSize(w, ROOT, BLKSIZE);
    assert |v.free| >= 1 by { assert b in v.free; }
    assert AddBlock(v, ROOT) == (x, Ok);
    assert GrowTo(l, x, ROOT, 0, 1, fuel - 1) == (x, Finished(Ok));
    assert GrowTo(l, v, ROOT, 0, 1, fuel) == (x, Finished(Ok));
    assert ShrinkTo(l, x, ROOT, 1) == (x, Ok);
    assert SetSize(x, ROOT, DIRENTRY_SIZE).free == Rooted(l).v.free;
    assert SetSize(x, ROOT, DIRENTRY_SIZE).files == Rooted(l).v.files;
  }

  // ------------------------------------------------------ a run that leaks

  /** The root directory after `ospfs_create` of `name`, or after that name is gone. */
  ghost function WithFile(l: Layout, e: Entry, nlink: nat): (fs: Fs)
    requires l.Valid() && l.FirstData() < l.nblocks && 2 < l.ninodes
    ensures |fs.v.files| == |fs.dirs| == l.ninodes && fs.dirs[ROOT] == [e]
    ensures fs.v.files[2] == File(0, Regular, nlink, map[])
  {
    Fs(Volume(Area(l, l.FirstData() + 1), Rooted(l).v.files[2 := File(0, Regular, nlink, map[])]),
       NoEntries(l)[ROOT := [e]])
  }

  lemma OneEntryPut(l: Layout, e: Entry, e': Entry)
    requires l.Valid()
    ensures NoEntries(l)[ROOT := [e]][ROOT := [e][0 := e']] == NoEntries(l)[ROOT := [e']]
  {
    assert [e][0 := e'] == [e'];
  }

  lemma CreateInRoot(l: Layout, e: Entry, name: seq<char>, fuel: nat)
    requires l.Valid() && l.FirstData() < l.nblocks && 2 < l.ninodes && |name| <= MAXNAMELEN && e.ino == 0
    ensures Legal(WithFile(l, e, 0), CreateEv(ROOT, name))
    ensures Step(l, WithFile(l, e, 0), CreateEv(ROOT, name), fuel)
         == (WithFile(l, Entry(2, CopyNameZ(e.raw, name)), 1), Done(Success))
  {
    var fs := WithFile(l, e, 0);
    assert fs.dirs[ROOT] == [e];
    assert FindBlank([e]) == Some(0) && FindEntry([e], name) == None;
    assert FindInode(fs.v.files, 2) == Some(2);
    OneEntryPut(l, e, Entry(2, CopyNameZ(e.raw, name)));
    var (g, reply) := Step(l, fs, CreateEv(ROOT, name), fuel);
    var h := WithFile(l, Entry(2, CopyNameZ(e.raw, name)), 1);
    assert g.v.files == h.v.files && g.dirs == h.dirs;
  }

  lemma UnlinkInRoot(l: Layout, raw: NameBuf, name: seq<char>, fuel: nat)
    requires l.Valid() && l.FirstData() < l.nblocks && 2 < l.ninodes && CName(raw) == name
    ensures Legal(WithFile(l, Entry(2, raw), 1), UnlinkEv(ROOT, 2, name))
    ensures Step(l, WithFile(l, Entry(2, raw), 1), UnlinkEv(ROOT, 2, name), fuel)
         == (WithFile(l, Entry(0, raw), 0), Done(Success))
  {
    var fs := WithFile(l, Entry(2, raw), 1);
    assert fs.dirs[ROOT] == [Entry(2, raw)] && FindEntry(fs.dirs[ROOT], name) == Some(0);
    var h := WithFile(l, Entry(0, raw), 0);
    OneEntryPut(l, Entry(2, raw), Entry(0, raw));
    var u := Unlinked(fs, ROOT, 0, 2);
    assert u.v.files == h.v.files && u.dirs == h.dirs && u.v.free == h.v.free;
    ResizeNothing(l, h.v, 2, fuel);
    assert h.v.files[2 := h.v.files[2]] == h.v.files;
  }

  lemma ResizeNothing(l: Layout, v: Volume, i: nat, fuel: nat)
    requires i < |v.files| && v.files[i].size == 0
    ensures ChangeSize(l, v, i, 0, fuel) == (SetSize(v, i, 0), Finished(Ok))
  {
    assert Size2NBlocks(0) == 0;
  }

  lemma WithFileInOrder(l: Layout, e: Entry)
    requires l.Valid() && l.FirstData() < l.nblocks && 2 < l.ninodes && e.ino == 0
    ensures InOrder(l, WithFile(l, e, 0))
  {
    var fs, base := WithFile(l, e, 0), Rooted(l);
    RootedInOrder(l);
    OneEntryPut(l, ZeroEntry(), e);
    assert fs == Fs(base.v, PutEntry(base, ROOT, 0, e).dirs) by { assert fs.v.files == base.v.files; }
    hide Tight, Sound, RootHolds, Shaped;
    forall i | 0 <= i < |fs.dirs|
      ensures InodeWired(fs, i)
    {
      assert InodeWired(base, i);
      CountPut(base, ROOT, 0, e, i);
    }
  }

  /** Writing one byte to the dead inode gives it a block. */
  lemma WriteToDead(l: Layout, e: Entry, fuel: nat)
    requires l.Valid() && l.FirstData() + 1 < l.nblocks && 2 < l.ninodes && e.ino == 0 && fuel >= MAXFILEBLKS
    ensures Legal(WithFile(l, e, 0), WriteEv(2, 1))
    ensures var (g, reply) := Step(l, WithFile(l, e, 0), WriteEv(2, 1), fuel);
      && reply == Done(Success) && InOrder(l, g) && ROOT < |g.dirs| && g.dirs[ROOT] == [e]
      && |g.v.files| > 2 && g.v.files[2].nlink == 0 && Direct(0) in g.v.files[2].ptrs
  {
    hide CleanResize, InOrder, Needed, WithFile, ChangeSize, Size2NBlocks;
    var fs := WithFile(l, e, 0);
    WithFileInOrder(l, e);
    RoomForOne(l, e);
    ResizeExact(l, fs, 2, 1, fuel);
    OneBlockIsDirect(l, fs.v, 2, Resize(l, fs, 2, 1, fuel).0.v);
  }

  lemma RoomForOne(l: Layout, e: Entry)
    requires l.Valid() && l.FirstData() + 1 < l.nblocks && 2 < l.ninodes
    ensures Size2NBlocks(1) == 1 && CleanResize(WithFile(l, e, 0).v, 2, 1)
  {
    assert Size2NBlocks(0) == 0 && Size2NBlocks(1) == 1;
    assert TreeSize(0) == 0 && TreeSize(1) == 1;
    assert |WithFile(l, e, 0).v.free| >= 1;
  }

  lemma OneBlockIsDirect(l: Layout, v: Volume, i: nat, w: Volume)
    requires IsFile(v, i) && Resized(l, v, i, 1, w)
    ensures i < |w.files| && Direct(0) in w.files[i].ptrs && w.files[i].nlink == v.files[i].nlink
  {
    assert Size2NBlocks(1) == 1;
    assert Needed(Direct(0), 1);
  }

  lemma CreateAgain(l: Layout, g: Fs, e: Entry, name: seq<char>, fuel: nat)
    requires InOrder(l, g) && |g.v.files| > 2 && g.v.files[2].nlink == 0
    requires ROOT < |g.dirs| && g.dirs[ROOT] == [e] && e.ino == 0
    requires Direct(0) in g.v.files[2].ptrs && |name| <= MAXNAMELEN
    ensures Legal(g, CreateEv(ROOT, name))
    ensures var (h, reply) := Step(l, g, CreateEv(ROOT, name), fuel);
      reply == Done(Success) && Lost(l, h.v, g.v.files[2].ptrs[Direct(0)])
  {
    assert FindBlank([e]) == Some(0) && FindEntry([e], name) == None;
    assert FindInode(g.v.files, 2) == Some(2);
    hide InodeWired, Tight, Sound, Lost;
    CreateLoses(l, g, ROOT, name, fuel, Direct(0));
  }

  ghost predicate Goes(l: Layout, before: Fs, call: Call, after: Fs) {
    && 2 <= |before.v.files| && Legal(before, call.ev)
    && Step(l, before, call.ev, call.fuel) == (after, Done(Success))
  }

  lemma FourCalls(l: Layout, run: seq<Fs>, calls: seq<Call>)
    requires |run| == 5 && |calls| == 4
    requires Goes(l, run[0], calls[0], run[1]) && Goes(l, run[1], calls[1], run[2])
    requires Goes(l, run[2], calls[2], run[3]) && Goes(l, run[3], calls[3], run[4])
    ensures IsRun(l, run, calls) && Succeeds(l, run, calls)
  {
    hide Step, Legal;
    forall k | 0 <= k < |calls|
      ensures Goes(l, run[k], calls[k], run[k + 1])
    {
    }
  }

  /** Create a file, open it, unlink it, write a byte to it, create another one:
      every call succeeds, and the block that the byte went to is marked used and
      belongs to nobody.  This happens on every disk with two data blocks. */
  lemma OpenUnlinkedRunLeaks(l: Layout, a: seq<char>, b: seq<char>)
    returns (run: seq<Fs>, calls: seq<Call>, lost: nat)
    requires l.Valid() && l.FirstData() + 1 < l.nblocks && 2 < l.ninodes
    requires |a| <= MAXNAMELEN && |b| <= MAXNAMELEN && '\0' !in a
    ensures |calls| == 4 && IsRun(l, run, calls) && InOrder(l, run[0]) && Succeeds(l, run, calls)
    ensures Lost(l, run[4].v, lost)
  {
    hide Step, Legal, InOrder, Lost, WithFile, CName, CopyNameZ, CopyName, ZeroEntry;
    var fuel := MAXFILEBLKS;
    var e := ZeroEntry();
    var raw := CopyNameZ(e.raw, a);
    StoredNames(e.raw, a);
    CreateInRoot(l, e, a, fuel);
    UnlinkInRoot(l, raw, a, fuel);
    WriteToDead(l, Entry(0, raw), fuel);
    WithFileInOrder(l, e);
    var s0, s1, s2 := WithFile(l, e, 0), WithFile(l, Entry(2, raw), 1), WithFile(l, Entry(0, raw), 0);
    var s3 := Step(l, s2, WriteEv(2, 1), fuel).0;
    CreateAgain(l, s3, Entry(0, raw), b, fuel);
    var s4 := Step(l, s3, CreateEv(ROOT, b), fuel).0;
    lost := s3.v.files[2].ptrs[Direct(0)];
    run := [s0, s1, s2, s3, s4];
    calls := [Call(CreateEv(ROOT, a), fuel), Call(UnlinkEv(ROOT, 2, a), fuel),
              Call(WriteEv(2, 1), fuel), Call(CreateEv(ROOT, b), fuel)];
    FourCalls(l, run, calls);
  }
}
