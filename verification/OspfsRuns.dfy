/** Whole runs of the kernel module: block ownership and link counts in every
    reachable state, and exactly when a run keeps the volume in order. */
module OspfsRuns {
  import opened Common
  import opened OspfsLayout
  import opened OspfsVolume
  import opened OspfsSafety
  import opened OspfsExact
  import opened OspfsCount
  import opened OspfsResize
  import opened OspfsGrow
  import opened OspfsDir

  // ----------------------------------------------------------- link counts

  function CountIn(es: seq<Entry>, i: nat): nat {
    if es == [] then 0 else (if es[0].ino == i then 1 else 0) + CountIn(es[1..], i)
  }

  /** How many entries of all directories name inode `i`. */
  function Count(dirs: seq<seq<Entry>>, i: nat): nat {
    if dirs == [] then 0 else CountIn(dirs[0], i) + Count(dirs[1..], i)
  }

  lemma {:induction false} CountInPut(es: seq<Entry>, k: nat, e: Entry, i: nat)
    requires k < |es|
    ensures CountIn(es[k := e], i) + (if es[k].ino == i then 1 else 0) == CountIn(es, i) + (if e.ino == i then 1 else 0)
  {
    if k == 0 {
      assert es[k := e][1..] == es[1..];
    } else {
      CountInPut(es[1..], k - 1, e, i);
      assert es[k := e][1..] == es[1..][k - 1 := e];
    }
  }

  lemma {:induction false} CountInAppend(es: seq<Entry>, e: Entry, i: nat)
    ensures CountIn(es + [e], i) == CountIn(es, i) + (if e.ino == i then 1 else 0)
  {
    if es == [] {
      assert [] + [e] == [e];
    } else {
      CountInAppend(es[1..], e, i);
      assert (es + [e])[1..] == es[1..] + [e];
    }
  }

  lemma {:induction false} CountReplace(dirs: seq<seq<Entry>>, d: nat, es: seq<Entry>, i: nat)
    requires d < |dirs|
    ensures Count(dirs[d := es], i) + CountIn(dirs[d], i) == Count(dirs, i) + CountIn(es, i)
  {
    if d == 0 {
      assert dirs[d := es][1..] == dirs[1..];
    } else {
      CountReplace(dirs[1..], d - 1, es, i);
      assert dirs[d := es][1..] == dirs[1..][d - 1 := es];
    }
  }

  lemma CountPut(fs: Fs, d: nat, k: nat, e: Entry, i: nat)
    requires d < |fs.dirs| && k < |fs.dirs[d]|
    ensures Count(PutEntry(fs, d, k, e).dirs, i) + (if fs.dirs[d][k].ino == i then 1 else 0)
            == Count(fs.dirs, i) + (if e.ino == i then 1 else 0)
  {
    CountInPut(fs.dirs[d], k, e, i);
    CountReplace(fs.dirs, d, fs.dirs[d][k := e], i);
  }

  // ------------------------------------------------------------- invariants

  const ROOT: nat := 1

  predicate DirShaped(fs: Fs, d: nat)
    requires d < |fs.v.files| == |fs.dirs|
  {
    && DIRENTRY_SIZE * |fs.dirs[d]| == fs.v.files[d].size
    && fs.v.files[d].nlink > 0
  }

  ghost predicate InodeWired(fs: Fs, i: nat)
    requires i < |fs.v.files| == |fs.dirs|
  {
    if fs.v.files[i].ftype.Directory? then DirShaped(fs, i) && Shaped(fs.v.files[i])
    else fs.dirs[i] == [] && (i > 0 ==> fs.v.files[i].nlink == Count(fs.dirs, i))
  }

  ghost predicate RootHas(v: Volume, b: nat) {
    exists s :: HasPtr(v, ROOT, s) && v.files[ROOT].ptrs[s] == b
  }

  /** The block that `free_block` refuses, if there is one in the data area,
      belongs to the root directory. */
  ghost predicate RootHolds(l: Layout, v: Volume) {
    && ROOT < |v.files| && v.files[ROOT].ftype.Directory?
    && forall b :: l.InDataArea(b) && l.Refused(b) ==> RootHas(v, b)
  }

  /** Ownership is sound, the root directory has the refused block, and the link
      count of every regular file and symbolic link is the number of entries that
      name it. */
  ghost predicate Wired(l: Layout, fs: Fs) {
    && Sound(l, fs.v)
    && 2 <= |fs.v.files| == |fs.dirs|
    && RootHolds(l, fs.v)
    && forall i :: 0 <= i < |fs.dirs| ==> InodeWired(fs, i)
  }

  lemma RootHoldsStill(l: Layout, v: Volume, w: Volume)
    requires RootHolds(l, v) && |w.files| == |v.files| && w.files[ROOT].ftype == v.files[ROOT].ftype
    requires forall s :: s in v.files[ROOT].ptrs ==>
               s in w.files[ROOT].ptrs && w.files[ROOT].ptrs[s] == v.files[ROOT].ptrs[s]
    ensures RootHolds(l, w)
  {
    forall b | l.InDataArea(b) && l.Refused(b)
      ensures RootHas(w, b)
    {
      assert RootHas(v, b);
      var s :| HasPtr(v, ROOT, s) && v.files[ROOT].ptrs[s] == b;
      assert HasPtr(w, ROOT, s);
    }
  }

  lemma OwnerOfRefused(l: Layout, v: Volume, i: nat, s: Slot)
    requires Sound(l, v) && RootHolds(l, v) && HasPtr(v, i, s)
    ensures l.Refused(v.files[i].ptrs[s]) ==> i == ROOT
  {
    assert PtrOk(l, v, i, s);
    var b := v.files[i].ptrs[s];
    if l.Refused(b) {
      assert RootHas(v, b);
    }
  }

  /** No other file can give the refused block back. */
  lemma NothingRefused(l: Layout, fs: Fs, i: nat, m: nat)
    requires Wired(l, fs) && i < |fs.v.files| && i != ROOT
    ensures !CutsRefused(l, fs.v.files[i].ptrs, m)
  {
    var p := fs.v.files[i].ptrs;
    forall s | s in p && !Needed(s, m)
      ensures !l.Refused(p[s])
    {
      OwnerOfRefused(l, fs.v, i, s);
    }
  }

  // --------------------------------------------------- growing a directory

  /** A directory that needs one block more either gets it, without losing
      anything, or waits for ever. */
  lemma DirGrows(l: Layout, v: Volume, d: nat, size: uint32, fuel: nat)
    requires GoodFile(l, v, d) && NBlocks(v, d) <= Size2NBlocks(size) <= NBlocks(v, d) + 1 <= MAXFILEBLKS + 1
    requires Size2NBlocks(size) <= MAXFILEBLKS && CleanGrow(NBlocks(v, d), Size2NBlocks(size))
    ensures var (w, out) := ChangeSize(l, v, d, size, fuel);
            out == Spinning || (out == Finished(Ok) && Resized(l, v, d, size, w) && (Tight(l, v) ==> Tight(l, w)))
  {
    hide Sound, Shaped, Needed, Size2NBlocks, GrowTo, ShrinkTo, Tight, TreeSize, GrownTo, Resized;
    var a, n := NBlocks(v, d), Size2NBlocks(size);
    ChangeSizeGrows(l, v, d, size, fuel);
    if !Room(v, d, n) {
      StartsGrown(l, v, d);
      GrowSpins(l, v, d, v, n, fuel);
    }
  }

  // ------------------------------------------------------ one step at a time

  /** Only names, link counts and types change: ownership does not. */
  lemma SamePtrsSound(l: Layout, v: Volume, i: nat, f: File)
    requires Sound(l, v) && i < |v.files|
    requires f.ptrs == map[] || (f.ptrs == v.files[i].ptrs && !f.ftype.Symlink?)
    ensures Sound(l, v.(files := v.files[i := f]))
  {
    var w := v.(files := v.files[i := f]);
    forall j: nat, s | HasPtr(w, j, s)
      ensures HasPtr(v, j, s) && w.files[j].ptrs == v.files[j].ptrs && PtrOk(l, w, j, s)
    {
      assert HasPtr(v, j, s) && PtrOk(l, v, j, s);
    }
  }

  lemma EntryChanged(l: Layout, g: Fs, d: nat, k: nat, e: Entry, i: nat, f: File)
    requires Wired(l, g) && IsDir(g, d) && k < |g.dirs[d]| && 0 < i < |g.v.files|
    requires !g.v.files[i].ftype.Directory? && !f.ftype.Directory?
    requires (g.dirs[d][k].ino == 0 && e.ino == i) || (g.dirs[d][k].ino == i && e.ino == 0)
    requires f.nlink == g.v.files[i].nlink + (if e.ino == i then 1 else -1)
    requires Sound(l, SetFile(g, i, f).v)
    ensures Wired(l, SetFile(PutEntry(g, d, k, e), i, f))
  {
    hide Sound, Shaped, Count;
    var h := SetFile(PutEntry(g, d, k, e), i, f);
    RootHoldsStill(l, g.v, h.v);
    hide RootHolds;
    forall j: nat | j < |h.dirs|
      ensures InodeWired(h, j)
    {
      assert InodeWired(g, j);
      CountPut(g, d, k, e, j);
    }
  }

  lemma GrowthStep(l: Layout, fs: Fs, d: nat)
    requires Wired(l, fs) && IsDir(fs, d) && DirMayGrow(fs, d) && FindBlank(fs.dirs[d]).None?
    ensures GoodFile(l, fs.v, d) && fs.v.files[d].nlink > 0
    ensures var size := fs.v.files[d].size + DIRENTRY_SIZE;
      && size <= MAXFILEBLKS * BLKSIZE && Size2NBlocks(size) <= MAXFILEBLKS
      && CleanGrow(NBlocks(fs.v, d), Size2NBlocks(size))
      && NBlocks(fs.v, d) <= Size2NBlocks(size) <= NBlocks(fs.v, d) + 1
  {
    assert InodeWired(fs, d);
  }

  lemma ResizedKeepsRoot(l: Layout, v: Volume, d: nat, size: uint32, w: Volume)
    requires RootHolds(l, v) && GoodFile(l, v, d) && Resized(l, v, d, size, w) && Size2NBlocks(size) >= NBlocks(v, d)
    requires |w.files| == |v.files| && w.files[d].ftype == v.files[d].ftype
    ensures RootHolds(l, w)
  {
    hide Sound, Size2NBlocks, Needed;
    forall s | s in v.files[ROOT].ptrs
      ensures s in w.files[ROOT].ptrs && w.files[ROOT].ptrs[s] == v.files[ROOT].ptrs[s]
    {
      assert d == ROOT ==> s in Kept(w.files[d].ptrs, NBlocks(v, d));
    }
    RootHoldsStill(l, v, w);
  }

  /** A new directory entry is blank, link counts are right, and no other file
      has changed. */
  lemma BlankEntryWired(l: Layout, fs: Fs, d: nat, fuel: nat)
    requires Wired(l, fs) && IsDir(fs, d) && DirMayGrow(fs, d)
    ensures var (g, at) := BlankEntry(l, fs, d, fuel);
            && Sound(l, g.v) && (at.At? || at.Stuck?)
            && |g.v.files| == |fs.v.files| && IsDir(g, d)
            && (at.At? ==> (Wired(l, g) && g.dirs[d][at.k].ino == 0))
            && (at.At? ==> forall j :: 0 <= j < |fs.v.files| && j != d ==> g.v.files[j] == fs.v.files[j])
            && (at.At? ==> g.v.files[d].nlink == fs.v.files[d].nlink > 0 && g.v.free <= fs.v.free)
            && (at.At? && Tight(l, fs.v) ==> Tight(l, g.v))
  {
    hide Sound, Shaped, ChangeSize, Count, Size2NBlocks, Tight, RootHolds, Kept, Cut;
    if FindBlank(fs.dirs[d]).None? {
      GrowthStep(l, fs, d);
      var size := fs.v.files[d].size + DIRENTRY_SIZE;
      ChangeSizeSound(l, fs.v, d, size, fuel);
      DirGrows(l, fs.v, d, size, fuel);
      var (g, at) := BlankEntry(l, fs, d, fuel);
      if at.At? {
        ResizedKeepsRoot(l, fs.v, d, size, g.v);
        forall j: nat | j < |g.dirs|
          ensures InodeWired(g, j)
        {
          assert InodeWired(fs, j);
          if j > 0 {
            CountInAppend(fs.dirs[d], ZeroEntry(), j);
            CountReplace(fs.dirs, d, fs.dirs[d] + [ZeroEntry()], j);
          }
        }
      }
    } else {
      assert InodeWired(fs, d);
    }
  }

  lemma LinkWired(l: Layout, fs: Fs, d: nat, src: nat, name: seq<char>, fuel: nat)
    requires Wired(l, fs) && Linkable(fs, d, src)
    ensures var (g, reply) := Link(l, fs, d, src, name, fuel);
            Sound(l, g.v) && (reply != Hung ==> Wired(l, g))
  {
    hide Sound, Shaped, BlankEntry;
    BlankEntryWired(l, fs, d, fuel);
    var (g, at) := BlankEntry(l, fs, d, fuel);
    if at.At? && |name| <= MAXNAMELEN {
      var f := g.v.files[src].(nlink := g.v.files[src].nlink + 1);
      LinkFileSound(l, g, src, f);
      EntryChanged(l, g, d, at.k, Entry(src, CopyName(g.dirs[d][at.k].raw, name)), src, f);
    }
  }

  lemma LinkFileSound(l: Layout, g: Fs, i: nat, f: File)
    requires Wired(l, g) && i < |g.v.files| && f.ptrs == g.v.files[i].ptrs && f.ftype == g.v.files[i].ftype
    ensures Sound(l, SetFile(g, i, f).v)
  {
    SymlinksOwnNothing(l, g.v, i);
    SamePtrsSound(l, g.v, i, f);
  }

  lemma MakeInodeWired(l: Layout, fs: Fs, d: nat, name: seq<char>, f: File, fuel: nat)
    requires Wired(l, fs) && IsDir(fs, d) && DirMayGrow(fs, d) && |name| <= MAXNAMELEN
    requires f.nlink == 1 && f.ptrs == map[] && !f.ftype.Directory?
    ensures var (g, reply) := MakeInode(l, fs, d, name, f, fuel);
            Sound(l, g.v) && (reply != Hung ==> Wired(l, g))
  {
    hide Sound, Shaped, BlankEntry;
    BlankEntryWired(l, fs, d, fuel);
    var (g, at) := BlankEntry(l, fs, d, fuel);
    if at.At? && FindInode(g.v.files, 2).Some? {
      var i := FindInode(g.v.files, 2).value;
      assert InodeWired(g, i);
      SamePtrsSound(l, g.v, i, f);
      EntryChanged(l, g, d, at.k, Entry(i, CopyNameZ(g.dirs[d][at.k].raw, name)), i, f);
    }
  }

  lemma ResizeWired(l: Layout, fs: Fs, i: nat, size: uint32, fuel: nat)
    requires Wired(l, fs) && IsFile(fs.v, i) && !fs.v.files[i].ftype.Directory? && Size2NBlocks(size) <= MAXFILEBLKS
    ensures Wired(l, Resize(l, fs, i, size, fuel).0)
  {
    hide Sound, Shaped, ChangeSize, Size2NBlocks;
    ChangeSizeSound(l, fs.v, i, size, fuel);
    var (g, _) := Resize(l, fs, i, size, fuel);
    RootHoldsStill(l, fs.v, g.v);
    hide RootHolds;
    forall j: nat | j < |g.dirs|
      ensures InodeWired(g, j)
    {
      assert InodeWired(fs, j);
    }
  }

  /** The volume and directories between the two halves of `ospfs_unlink`. */
  function Unlinked(fs: Fs, d: nat, k: nat, i: nat): Fs
    requires d < |fs.dirs| && k < |fs.dirs[d]| && i < |fs.v.files| && fs.v.files[i].nlink > 0
  {
    SetFile(PutEntry(fs, d, k, fs.dirs[d][k].(ino := 0)), i, fs.v.files[i].(nlink := fs.v.files[i].nlink - 1))
  }

  lemma UnlinkedWired(l: Layout, fs: Fs, d: nat, k: nat, i: nat)
    requires Wired(l, fs) && IsDir(fs, d) && k < |fs.dirs[d]| && 0 < i < |fs.v.files| && fs.v.files[i].nlink > 0
    requires !fs.v.files[i].ftype.Directory? && fs.dirs[d][k].ino == i
    ensures Wired(l, Unlinked(fs, d, k, i))
  {
    hide Sound, Shaped;
    var f := fs.v.files[i].(nlink := fs.v.files[i].nlink - 1);
    LinkFileSound(l, fs, i, f);
    EntryChanged(l, fs, d, k, fs.dirs[d][k].(ino := 0), i, f);
  }

  lemma UnlinkWired(l: Layout, fs: Fs, d: nat, i: nat, name: seq<char>, fuel: nat)
    requires Wired(l, fs) && Legal(fs, UnlinkEv(d, i, name))
    ensures Wired(l, Unlink(l, fs, d, i, name, fuel).0)
  {
    hide Sound, Shaped, Resize;
    match FindEntry(fs.dirs[d], name)
    case None =>
    case Some(k) =>
      UnlinkedWired(l, fs, d, k, i);
      var h := Unlinked(fs, d, k, i);
      if !h.v.files[i].ftype.Symlink? {
        ResizeWired(l, h, i, 0, fuel);
      }
  }

  /** Every event, whatever it answers, keeps ownership sound; every event that
      answers keeps the link counts. */
  lemma StepWired(l: Layout, fs: Fs, ev: Event, fuel: nat)
    requires Wired(l, fs) && Legal(fs, ev)
    ensures var (g, reply) := Step(l, fs, ev, fuel);
            Sound(l, g.v) && (reply != Hung ==> Wired(l, g))
  {
    hide Sound, Shaped, Resize, Link, MakeInode, Unlink;
    match ev
    case CreateEv(d, name) =>
      if |name| <= MAXNAMELEN {
        MakeInodeWired(l, fs, d, name, File(0, Regular, 1, map[]), fuel);
      }
    case SymlinkEv(d, name, target) =>
      if |name| <= MAXNAMELEN && |target| <= MAXSYMLINKLEN {
        MakeInodeWired(l, fs, d, name, File(|target|, Symlink, 1, map[]), fuel);
      }
    case LinkEv(d, src, name) => LinkWired(l, fs, d, src, name, fuel);
    case UnlinkEv(d, i, name) => UnlinkWired(l, fs, d, i, name, fuel);
    case WriteEv(i, end) =>
      if end > fs.v.files[i].size {
        ResizeWired(l, fs, i, end, fuel);
      }
    case TruncateEv(i, size) => ResizeWired(l, fs, i, size, fuel);
  }

  // ------------------------------------------------------------------- runs

  datatype Call = Call(ev: Event, fuel: nat)

  /** The states of a run; a call that hangs ends it. */
  ghost predicate IsRun(l: Layout, run: seq<Fs>, calls: seq<Call>) {
    && |run| == |calls| + 1
    && forall k :: 0 <= k < |calls| ==>
         && Legal(run[k], calls[k].ev) && 2 <= |run[k].v.files|
         && Step(l, run[k], calls[k].ev, calls[k].fuel).0 == run[k + 1]
         && (Step(l, run[k], calls[k].ev, calls[k].fuel).1 == Hung ==> k + 1 == |calls|)
  }

  /** In every state of every run no block is reached twice, every reached block
      is a used data block, and (unless the last call hangs) link counts are
      right. */
  lemma {:induction false} RunsAreSound(l: Layout, run: seq<Fs>, calls: seq<Call>, k: nat)
    requires IsRun(l, run, calls) && Wired(l, run[0]) && k <= |calls|
    ensures Sound(l, run[k].v)
    ensures k == 0 || Step(l, run[k - 1], calls[k - 1].ev, calls[k - 1].fuel).1 != Hung ==> Wired(l, run[k])
    decreases k
  {
    hide Sound, Wired, Legal, Step;
    if k == 0 {
      WiredIsSound(l, run[0]);
    } else {
      RunsAreSound(l, run, calls, k - 1);
      StepWired(l, run[k - 1], calls[k - 1].ev, calls[k - 1].fuel);
    }
  }

  lemma WiredIsSound(l: Layout, fs: Fs)
    requires Wired(l, fs)
    ensures Sound(l, fs.v)
  {
  }

  // -------------------------------------------------- runs kept in order

  /** In order: wired, trees in shape, nothing lost. */
  ghost predicate InOrder(l: Layout, fs: Fs) {
    Wired(l, fs) && Tight(l, fs.v)
  }

  /** The check for a resizing that a caller can make. */
  predicate CleanResize(v: Volume, i: nat, n: nat)
    requires i < |v.files|
  {
    if n >= NBlocks(v, i) then CleanGrow(NBlocks(v, i), n) && Room(v, i, n)
    else CleanCut(n, NBlocks(v, i))
  }

  lemma CleanResizeIs(l: Layout, fs: Fs, i: nat, n: nat)
    requires Wired(l, fs) && i < |fs.v.files| && i != ROOT
    ensures ChangesCleanly(l, fs.v, i, n) <==> CleanResize(fs.v, i, n)
  {
    NothingRefused(l, fs, i, n);
  }

  /** The inode that a new file would get owns nothing: it was not written to
      after its last name was removed. */
  predicate CleanInode(fs: Fs)
    requires 2 <= |fs.v.files|
  {
    FindInode(fs.v.files, 2).Some? ==> fs.v.files[FindInode(fs.v.files, 2).value].ptrs == map[]
  }

  /** The call gets as far as looking for an unused inode. */
  predicate Makes(fs: Fs, d: nat, name: seq<char>)
    requires d < |fs.dirs|
  {
    |name| <= MAXNAMELEN && FindEntry(fs.dirs[d], name).None?
  }

  /** What a caller can check so that the call keeps the volume in order: the
      resizing it causes is clean, and the inode it takes owns nothing. */
  predicate CleanStep(fs: Fs, ev: Event)
    requires Legal(fs, ev) && 2 <= |fs.v.files|
  {
    match ev
    case CreateEv(d, name) => Makes(fs, d, name) ==> CleanInode(fs)
    case LinkEv(d, src, name) => true
    case SymlinkEv(d, name, target) => Makes(fs, d, name) && |target| <= MAXSYMLINKLEN ==> CleanInode(fs)
    case UnlinkEv(d, i, name) =>
      FindEntry(fs.dirs[d], name).Some? && fs.v.files[i].ftype.Regular? && fs.v.files[i].nlink == 1
      ==> CleanResize(fs.v, i, 0)
    case WriteEv(i, end) => end > fs.v.files[i].size ==> CleanResize(fs.v, i, Size2NBlocks(end))
    case TruncateEv(i, size) => CleanResize(fs.v, i, Size2NBlocks(size))
  }

  lemma TightSetFile(l: Layout, v: Volume, i: nat, f: File)
    requires Tight(l, v) && i < |v.files| && f.ptrs == v.files[i].ptrs
    requires if f.ftype.Symlink? then f.ptrs == map[] else Shaped(f)
    ensures Tight(l, v.(files := v.files[i := f]))
  {
    var w := v.(files := v.files[i := f]);
    SamePtrsSound(l, v, i, f);
    hide Sound, Shaped;
    forall b | l.InDataArea(b) && b !in w.free
      ensures Reached(w, b)
    {
      var j: nat, s :| HasPtr(v, j, s) && v.files[j].ptrs[s] == b;
      assert HasPtr(w, j, s) && w.files[j].ptrs[s] == b;
    }
  }

  lemma SetFileInOrder(l: Layout, g: Fs, d: nat, k: nat, e: Entry, i: nat, f: File)
    requires InOrder(l, g) && i < |g.v.files| && d < |g.dirs| && k < |g.dirs[d]|
    requires f.ptrs == g.v.files[i].ptrs && (if f.ftype.Symlink? then f.ptrs == map[] else Shaped(f))
    requires Wired(l, SetFile(PutEntry(g, d, k, e), i, f))
    ensures InOrder(l, SetFile(PutEntry(g, d, k, e), i, f))
  {
    hide Sound, Shaped, Wired, Tight;
    TightSetFile(l, g.v, i, f);
  }

  lemma LinkInOrder(l: Layout, fs: Fs, d: nat, src: nat, name: seq<char>, fuel: nat)
    requires InOrder(l, fs) && Linkable(fs, d, src) && Link(l, fs, d, src, name, fuel).1 != Hung
    ensures InOrder(l, Link(l, fs, d, src, name, fuel).0)
  {
    hide Sound, Shaped, BlankEntry, Tight;
    LinkWired(l, fs, d, src, name, fuel);
    BlankEntryWired(l, fs, d, fuel);
    var (g, at) := BlankEntry(l, fs, d, fuel);
    if at.At? && |name| <= MAXNAMELEN && FindEntry(fs.dirs[d], name).None? {
      var f := g.v.files[src].(nlink := g.v.files[src].nlink + 1);
      FileShapeOf(l, g, src, f);
      SetFileInOrder(l, g, d, at.k, Entry(src, CopyName(g.dirs[d][at.k].raw, name)), src, f);
    }
  }

  lemma FileShapeOf(l: Layout, g: Fs, i: nat, f: File)
    requires InOrder(l, g) && i < |g.v.files|
    requires f.ptrs == g.v.files[i].ptrs && f.ftype == g.v.files[i].ftype && f.size == g.v.files[i].size
    ensures if f.ftype.Symlink? then f.ptrs == map[] else Shaped(f)
  {
    SymlinksOwnNothing(l, g.v, i);
    assert !f.ftype.Symlink? ==> Shaped(g.v.files[i]);
  }

  /** Growing a directory does not change which inode is the first unused. */
  lemma {:induction false} SameInodeFound(before: seq<File>, after: seq<File>, i: nat)
    requires |after| == |before| && i <= |before|
    requires forall j :: 0 <= j < |before| ==> after[j].nlink == before[j].nlink
    ensures FindInode(after, i) == FindInode(before, i)
    decreases |before| - i
  {
    if i < |before| {
      SameInodeFound(before, after, i + 1);
    }
  }

  lemma MakeInodeInOrder(l: Layout, fs: Fs, d: nat, name: seq<char>, f: File, fuel: nat)
    requires InOrder(l, fs) && IsDir(fs, d) && DirMayGrow(fs, d) && |name| <= MAXNAMELEN
    requires f.nlink == 1 && f.ptrs == map[] && !f.ftype.Directory? && (f.ftype.Regular? ==> f.size == 0)
    requires MakeInode(l, fs, d, name, f, fuel).1 != Hung
    requires Makes(fs, d, name) ==> CleanInode(fs)
    ensures InOrder(l, MakeInode(l, fs, d, name, f, fuel).0)
  {
    hide Sound, Shaped, BlankEntry, Tight, RootHolds;
    MakeInodeWired(l, fs, d, name, f, fuel);
    BlankEntryWired(l, fs, d, fuel);
    var (g, at) := BlankEntry(l, fs, d, fuel);
    if at.At? && FindEntry(fs.dirs[d], name).None? {
      SameInodeFound(fs.v.files, g.v.files, 2);
      if FindInode(g.v.files, 2).Some? {
        var i := FindInode(g.v.files, 2).value;
        if f.ftype.Regular? {
          EmptyIsShaped(f);
        }
        SetFileInOrder(l, g, d, at.k, Entry(i, CopyNameZ(g.dirs[d][at.k].raw, name)), i, f);
      }
    }
  }

  /** A new file whose inode still owned a block loses that block. */
  lemma MakeInodeLoses(l: Layout, fs: Fs, d: nat, name: seq<char>, f: File, fuel: nat, s: Slot)
    requires Wired(l, fs) && IsDir(fs, d) && DirMayGrow(fs, d) && |name| <= MAXNAMELEN && f.ptrs == map[]
    requires MakeInode(l, fs, d, name, f, fuel).1 == Done(Success)
    requires FindInode(fs.v.files, 2).Some? && s in fs.v.files[FindInode(fs.v.files, 2).value].ptrs
    ensures Lost(l, MakeInode(l, fs, d, name, f, fuel).0.v, fs.v.files[FindInode(fs.v.files, 2).value].ptrs[s])
  {
    hide Shaped, BlankEntry, Tight, RootHolds;
    BlankEntryWired(l, fs, d, fuel);
    var (g, at) := BlankEntry(l, fs, d, fuel);
    SameInodeFound(fs.v.files, g.v.files, 2);
    var i := FindInode(fs.v.files, 2).value;
    assert HasPtr(g.v, i, s) && PtrOk(l, g.v, i, s);
    OverwrittenIsLost(l, g.v, i, s, f);
  }

  lemma OverwrittenIsLost(l: Layout, v: Volume, i: nat, s: Slot, f: File)
    requires Sound(l, v) && HasPtr(v, i, s) && f.ptrs == map[]
    ensures Lost(l, v.(files := v.files[i := f]), v.files[i].ptrs[s])
  {
    var w := v.(files := v.files[i := f]);
    var b := v.files[i].ptrs[s];
    assert PtrOk(l, v, i, s);
    if Reached(w, b) {
      var j: nat, t :| HasPtr(w, j, t) && w.files[j].ptrs[t] == b;
      assert HasPtr(v, j, t);
    }
  }

  /** `ospfs_create` after a write to an unlinked file that is still open: the
      inode is taken again, and the block written to is lost. */
  lemma CreateLoses(l: Layout, fs: Fs, d: nat, name: seq<char>, fuel: nat, s: Slot)
    requires Wired(l, fs) && Legal(fs, CreateEv(d, name)) && Create(l, fs, d, name, fuel).1 == Done(Success)
    requires FindInode(fs.v.files, 2).Some? && s in fs.v.files[FindInode(fs.v.files, 2).value].ptrs
    ensures Lost(l, Create(l, fs, d, name, fuel).0.v, fs.v.files[FindInode(fs.v.files, 2).value].ptrs[s])
  {
    hide Wired, MakeInode, Lost;
    MakeInodeLoses(l, fs, d, name, File(0, Regular, 1, map[]), fuel, s);
  }

  lemma MakeInodeExact(l: Layout, fs: Fs, d: nat, name: seq<char>, f: File, fuel: nat)
    requires InOrder(l, fs) && IsDir(fs, d) && DirMayGrow(fs, d) && |name| <= MAXNAMELEN
    requires f.nlink == 1 && f.ptrs == map[] && !f.ftype.Directory? && (f.ftype.Regular? ==> f.size == 0)
    ensures var (g, reply) := MakeInode(l, fs, d, name, f, fuel);
      && (reply != Hung && (Makes(fs, d, name) ==> CleanInode(fs)) ==> InOrder(l, g))
      && (reply == Done(Success) && InOrder(l, g) ==> Makes(fs, d, name) && CleanInode(fs))
  {
    assert 2 <= |fs.v.files|;
    hide Wired, Tight, Lost, BlankEntry;
    var (g, reply) := MakeInode(l, fs, d, name, f, fuel);
    if reply != Hung && (Makes(fs, d, name) ==> CleanInode(fs)) {
      MakeInodeInOrder(l, fs, d, name, f, fuel);
    }
    if reply == Done(Success) && !CleanInode(fs) {
      var i := FindInode(fs.v.files, 2).value;
      var s := SomeSlot(fs.v.files[i].ptrs);
      MakeInodeLoses(l, fs, d, name, f, fuel, s);
      LostIsNotTight(l, g.v, fs.v.files[i].ptrs[s]);
    }
  }

  lemma SomeSlot(p: map<Slot, nat>) returns (s: Slot)
    requires p != map[]
    ensures s in p
  {
    assert p.Keys == {} ==> p == map[];
    s :| s in p.Keys;
  }

  lemma EmptyIsShaped(f: File)
    requires f.ptrs == map[] && f.size == 0
    ensures Shaped(f)
  {
  }

  /** A resizing that succeeds leaves the volume in order exactly when it was
      clean; whether the file still has a name does not matter. */
  lemma ResizeExact(l: Layout, fs: Fs, i: nat, size: uint32, fuel: nat)
    requires InOrder(l, fs) && IsFile(fs.v, i) && !fs.v.files[i].ftype.Directory? && Size2NBlocks(size) <= MAXFILEBLKS
    ensures var (g, reply) := Resize(l, fs, i, size, fuel);
            && (CleanResize(fs.v, i, Size2NBlocks(size)) && fuel >= MAXFILEBLKS ==>
                  reply == Done(Success) && InOrder(l, g) && Resized(l, fs.v, i, size, g.v))
            && (reply == Done(Success) && InOrder(l, g) ==> CleanResize(fs.v, i, Size2NBlocks(size)))
  {
    CleanResizeIs(l, fs, i, Size2NBlocks(size));
    hide Sound, Shaped, Tight, Size2NBlocks, ChangesCleanly, CleanResize, ChangeSize, Wired;
    ResizeWired(l, fs, i, size, fuel);
    ChangeSizeExact(l, fs.v, i, size, fuel);
  }

  lemma UnlinkedInOrder(l: Layout, fs: Fs, d: nat, k: nat, i: nat)
    requires InOrder(l, fs) && IsDir(fs, d) && k < |fs.dirs[d]| && 0 < i < |fs.v.files| && fs.v.files[i].nlink > 0
    requires !fs.v.files[i].ftype.Directory? && fs.dirs[d][k].ino == i
    ensures InOrder(l, Unlinked(fs, d, k, i))
    ensures forall n :: CleanResize(Unlinked(fs, d, k, i).v, i, n) <==> CleanResize(fs.v, i, n)
  {
    UnlinkedWired(l, fs, d, k, i);
    hide Sound, Shaped, Tight, Wired;
    var f := fs.v.files[i].(nlink := fs.v.files[i].nlink - 1);
    FileShapeOf(l, fs, i, f);
    TightSetFile(l, fs.v, i, f);
  }

  lemma UnlinkExact(l: Layout, fs: Fs, d: nat, i: nat, name: seq<char>, fuel: nat)
    requires InOrder(l, fs) && Legal(fs, UnlinkEv(d, i, name))
    ensures var (g, reply) := Unlink(l, fs, d, i, name, fuel);
            && (CleanStep(fs, UnlinkEv(d, i, name)) && fuel >= MAXFILEBLKS ==> reply != Hung && InOrder(l, g))
            && (reply == Done(Success) && InOrder(l, g) ==> CleanStep(fs, UnlinkEv(d, i, name)))
  {
    hide Sound, Shaped, Tight, Size2NBlocks, CleanResize, Resize, RootHolds;
    match FindEntry(fs.dirs[d], name)
    case None =>
    case Some(k) =>
      UnlinkedInOrder(l, fs, d, k, i);
      var h := Unlinked(fs, d, k, i);
      if !h.v.files[i].ftype.Symlink? && h.v.files[i].nlink == 0 {
        ZeroBlocks();
        ResizeExact(l, h, i, 0, fuel);
      }
  }

  lemma ZeroBlocks()
    ensures Size2NBlocks(0) == 0
  {
  }

  /** One event on a volume in order: with a clean event (and enough rounds) it
      leaves the volume in order if it answers, and an event that succeeds and
      leaves the volume in order was clean.  A hard link leaves it in order
      whenever it answers; resizing answers whenever it is clean. */
  lemma StepExact(l: Layout, fs: Fs, ev: Event, fuel: nat)
    requires InOrder(l, fs) && Legal(fs, ev)
    ensures var (g, reply) := Step(l, fs, ev, fuel);
            && (ev.LinkEv? ==> reply == Hung || InOrder(l, g))
            && (CleanStep(fs, ev) && fuel >= MAXFILEBLKS && reply != Hung ==> InOrder(l, g))
            && (CleanStep(fs, ev) && fuel >= MAXFILEBLKS && (ev.UnlinkEv? || ev.WriteEv? || ev.TruncateEv?) ==>
                  reply != Hung)
            && (reply == Done(Success) && InOrder(l, g) ==> CleanStep(fs, ev))
  {
    assert 2 <= |fs.v.files|;
    hide Sound, Shaped, Tight, Size2NBlocks, CleanResize, Resize, Link, MakeInode, Unlink, Wired, Makes, CleanInode;
    match ev
    case CreateEv(d, name) =>
      if |name| <= MAXNAMELEN {
        MakeInodeExact(l, fs, d, name, File(0, Regular, 1, map[]), fuel);
      }
    case SymlinkEv(d, name, target) =>
      if |name| <= MAXNAMELEN && |target| <= MAXSYMLINKLEN {
        MakeInodeExact(l, fs, d, name, File(|target|, Symlink, 1, map[]), fuel);
      }
    case LinkEv(d, src, name) =>
      if Link(l, fs, d, src, name, fuel).1 != Hung {
        LinkInOrder(l, fs, d, src, name, fuel);
      }
    case UnlinkEv(d, i, name) => UnlinkExact(l, fs, d, i, name, fuel);
    case WriteEv(i, end) =>
      if end > fs.v.files[i].size {
        BlocksInRange(end);
        ResizeExact(l, fs, i, end, fuel);
      }
    case TruncateEv(i, size) =>
      BlocksInRange(size);
      ResizeExact(l, fs, i, size, fuel);
  }

  lemma BlocksInRange(size: uint32)
    requires size <= MAXFILEBLKS * BLKSIZE
    ensures Size2NBlocks(size) <= MAXFILEBLKS
  {
  }

  /** Removing the last name of a file gives back every block it had; removing
      another name touches no block. */
  lemma LastUnlinkFrees(l: Layout, fs: Fs, d: nat, i: nat, name: seq<char>, fuel: nat)
    requires InOrder(l, fs) && Legal(fs, UnlinkEv(d, i, name)) && FindEntry(fs.dirs[d], name).Some?
    requires CleanStep(fs, UnlinkEv(d, i, name)) && fuel >= MAXFILEBLKS
    ensures var (g, reply) := Unlink(l, fs, d, i, name, fuel);
            && reply == Done(Success)
            && Count(g.dirs, i) == Count(fs.dirs, i) - 1 == g.v.files[i].nlink
            && (if Count(g.dirs, i) == 0 && fs.v.files[i].ftype.Regular?
                then g.v.files[i].ptrs == map[] && g.v.free == fs.v.free + fs.v.files[i].ptrs.Values
                else g.v.files[i].ptrs == fs.v.files[i].ptrs && g.v.free == fs.v.free)
  {
    hide Sound, Shaped, Tight, Size2NBlocks, CleanResize, Resize, RootHolds;
    var k := FindEntry(fs.dirs[d], name).value;
    var h := Unlinked(fs, d, k, i);
    UnlinkedInOrder(l, fs, d, k, i);
    assert InodeWired(fs, i) && InodeWired(h, i);
    if fs.v.files[i].ftype.Regular? && h.v.files[i].nlink == 0 {
      ZeroBlocks();
      ResizeExact(l, h, i, 0, fuel);
      CutToNothing(l, h.v, i, Resize(l, h, i, 0, fuel).0.v);
    }
  }

  lemma CutToNothing(l: Layout, v: Volume, i: nat, w: Volume)
    requires Tight(l, v) && IsFile(v, i) && Resized(l, v, i, 0, w) && Tight(l, w)
    ensures i < |w.files| && w.files[i].ptrs == map[] && w.free == v.free + v.files[i].ptrs.Values
  {
    assert Shaped(v.files[i]);
    var p := v.files[i].ptrs;
    assert forall s :: !Needed(s, 0);
    if NBlocks(v, i) > 0 {
      assert Kept(p, 0) == map[];
      assert Dropped(p, 0) == p.Values;
    } else {
      assert p == map[];
      LedgerOfTwo(l, v, w, i);
      SameSizeSubset(w.free, v.free);
    }
  }

  lemma SameSizeSubset(a: set<nat>, b: set<nat>)
    requires a <= b && |a| == |b|
    ensures a == b
  {
    assert b == a + (b - a);
  }

  /** Every call of the run answers, and has the rounds it may need. */
  ghost predicate Answers(l: Layout, run: seq<Fs>, calls: seq<Call>)
    requires IsRun(l, run, calls)
  {
    forall j :: 0 <= j < |calls| ==>
      calls[j].fuel >= MAXFILEBLKS && Step(l, run[j], calls[j].ev, calls[j].fuel).1 != Hung
  }

  ghost predicate Succeeds(l: Layout, run: seq<Fs>, calls: seq<Call>)
    requires IsRun(l, run, calls)
  {
    forall j :: 0 <= j < |calls| ==> Step(l, run[j], calls[j].ev, calls[j].fuel).1 == Done(Success)
  }

  ghost predicate CleanCalls(l: Layout, run: seq<Fs>, calls: seq<Call>)
    requires IsRun(l, run, calls)
  {
    forall j :: 0 <= j < |calls| ==> CleanStep(run[j], calls[j].ev)
  }

  /** As long as every call is clean and answers, every state of a run is in
      order, and the free blocks are exactly those the file sizes leave. */
  lemma {:induction false} RunsStayInOrder(l: Layout, run: seq<Fs>, calls: seq<Call>, k: nat)
    requires IsRun(l, run, calls) && InOrder(l, run[0]) && k <= |calls|
    requires CleanCalls(l, run, calls) && Answers(l, run, calls)
    ensures InOrder(l, run[k])
    ensures |run[k].v.free| + TotalOwed(run[k].v.files) == l.nblocks - l.FirstData()
    decreases k
  {
    hide Step, CleanStep, Wired, Legal;
    if k > 0 {
      RunsStayInOrder(l, run, calls, k - 1);
      StepExact(l, run[k - 1], calls[k - 1].ev, calls[k - 1].fuel);
    }
    Ledger(l, run[k].v);
  }

  /** A run of calls that succeed stays in order all the way if and only if every
      call was clean. */
  lemma RunsInOrderIff(l: Layout, run: seq<Fs>, calls: seq<Call>)
    requires IsRun(l, run, calls) && InOrder(l, run[0]) && Answers(l, run, calls) && Succeeds(l, run, calls)
    ensures (forall k :: 0 <= k <= |calls| ==> InOrder(l, run[k])) <==> CleanCalls(l, run, calls)
  {
    hide Step, CleanStep, Wired, Legal, Tight;
    if CleanCalls(l, run, calls) {
      forall k | 0 <= k <= |calls|
        ensures InOrder(l, run[k])
      {
        RunsStayInOrder(l, run, calls, k);
      }
    }
    if forall k :: 0 <= k <= |calls| ==> InOrder(l, run[k]) {
      forall j | 0 <= j < |calls|
        ensures CleanStep(run[j], calls[j].ev)
      {
        assert InOrder(l, run[j]) && InOrder(l, run[j + 1]);
        StepExact(l, run[j], calls[j].ev, calls[j].fuel);
      }
    }
  }
}
