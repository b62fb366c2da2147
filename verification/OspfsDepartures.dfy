/** A volume in order with a file of any size, and with it one input for each line
    of the block code that does not do what its comment says. */
module OspfsDepartures {
  import opened Common
  import opened OspfsLayout
  import opened OspfsVolume
  import opened OspfsExact
  import opened OspfsCount
  import opened OspfsResize
  import opened OspfsGrow
  import opened OspfsHang
  import opened OspfsWitness

  // ------------------------------------------- a tree in consecutive blocks

  const PER_INDIRECT: nat := NINDIRECT + 1

  /** The pointers of a file in the order in which a growing file needs them. */
  function NumberOf(s: Slot): nat {
    match s
    case Direct(k) => k
    case Ind => NDIRECT
    case IndEntry(k) => NDIRECT + 1 + k
    case Ind2 => NDIRECT + PER_INDIRECT
    case Und(j) => NDIRECT + PER_INDIRECT + 1 + PER_INDIRECT * j
    case UndEntry(j, k) => NDIRECT + PER_INDIRECT + 2 + PER_INDIRECT * j + k
  }

  function SlotOf(b: nat): Slot {
    if b < NDIRECT then Direct(b)
    else if b == NDIRECT then Ind
    else if b < NDIRECT + PER_INDIRECT then IndEntry(b - NDIRECT - 1)
    else if b == NDIRECT + PER_INDIRECT then Ind2
    else
      var m := b - NDIRECT - PER_INDIRECT - 1;
      if m % PER_INDIRECT == 0 then Und(m / PER_INDIRECT) else UndEntry(m / PER_INDIRECT, m % PER_INDIRECT - 1)
  }

  lemma SlotOfNumber(s: Slot)
    requires ValidSlot(s)
    ensures SlotOf(NumberOf(s)) == s
  {
    match s
    case Und(j) =>
      Quotient(PER_INDIRECT * j, PER_INDIRECT, j, 0);
    case UndEntry(j, k) =>
      Quotient(PER_INDIRECT * j + (k + 1), PER_INDIRECT, j, k + 1);
    case _ =>
  }

  lemma NumberOfSlot(b: nat)
    ensures NumberOf(SlotOf(b)) == b
  {
    if b > NDIRECT + PER_INDIRECT {
      var m := b - NDIRECT - PER_INDIRECT - 1;
      assert m == PER_INDIRECT * (m / PER_INDIRECT) + m % PER_INDIRECT;
    }
  }

  /** A file of `n` blocks needs exactly the first `TreeSize(n)` of them. */
  lemma NeededIsBelow(s: Slot, n: nat)
    requires n <= MAXFILEBLKS
    ensures Needed(s, n) ==> NumberOf(s) < TreeSize(n)
    ensures ValidSlot(s) && NumberOf(s) < TreeSize(n) ==> Needed(s, n)
  {
    if n > NDIRECT + NINDIRECT {
      var m := n - NDIRECT - NINDIRECT;
      var q := (m + NINDIRECT - 1) / NINDIRECT;
      assert NINDIRECT * (q - 1) < m <= NINDIRECT * q;
    }
  }

  lemma SlotOfIsValid(b: nat, n: nat)
    requires b < TreeSize(n) && n <= MAXFILEBLKS
    ensures ValidSlot(SlotOf(b))
  {
    if b > NDIRECT + PER_INDIRECT {
      var m := b - NDIRECT - PER_INDIRECT - 1;
      assert (n - NDIRECT - NINDIRECT + NINDIRECT - 1) / NINDIRECT <= NINDIRECT;
      assert m == PER_INDIRECT * (m / PER_INDIRECT) + m % PER_INDIRECT;
    }
  }

  /** The tree of `n` blocks laid out from block `first` on. */
  ghost function TreePtrs(n: nat, first: nat): (p: map<Slot, nat>)
    requires n <= MAXFILEBLKS
    ensures forall s :: s in p <==> Needed(s, n)
    ensures forall s :: s in p ==> p[s] == first + NumberOf(s)
  {
    map s | s in NeededSet(n) :: first + NumberOf(s)
  }

  function Files(l: Layout, f: File): (files: seq<File>)
    requires l.Valid() && 2 < l.ninodes
    ensures |files| == l.ninodes && files[2] == f
    ensures files[1] == File(0, Directory, 1, map[])
    ensures forall i :: 0 <= i < |files| && i > 2 ==> files[i] == Unused()
    ensures files[0] == Unused()
  {
    seq(l.ninodes, i => if i == 2 then f else if i == 1 then File(0, Directory, 1, map[]) else Unused())
  }

  /** One regular file of `n` blocks at the start of the data area. */
  ghost function Made(l: Layout, n: nat): Volume
    requires l.Valid() && 2 < l.ninodes && n <= MAXFILEBLKS && l.FirstData() + TreeSize(n) <= l.nblocks
  {
    Volume(Area(l, l.FirstData() + TreeSize(n)), Files(l, File(BLKSIZE * n, Regular, 1, TreePtrs(n, l.FirstData()))))
  }

  lemma MadePtrs(l: Layout, n: nat)
    requires l.Valid() && 2 < l.ninodes && 0 < n <= MAXFILEBLKS && l.FirstData() + TreeSize(n) <= l.nblocks
    ensures IsFile(Made(l, n), 2) && NBlocks(Made(l, n), 2) == n
    ensures forall b :: b in Made(l, n).free <==> l.FirstData() + TreeSize(n) <= b < l.nblocks
    ensures forall i: nat, s :: HasPtr(Made(l, n), i, s) ==> i == 2 && Needed(s, n)
    ensures forall s :: Needed(s, n) ==>
      s in Made(l, n).files[2].ptrs && Made(l, n).files[2].ptrs[s] == l.FirstData() + NumberOf(s)
  {
  }

  lemma NothingIsShaped(f: File)
    requires f.size == 0 && f.ptrs == map[]
    ensures Shaped(f)
  {
  }

  lemma NeededIsValid(s: Slot, n: nat)
    requires Needed(s, n)
    ensures ValidSlot(s)
    ensures match s
      case IndEntry(_) => Needed(Ind, n)
      case Und(_) => Needed(Ind2, n)
      case UndEntry(j, _) => Needed(Und(j), n)
      case _ => true
  {
  }

  lemma MadePtrOk(l: Layout, n: nat, i: nat, s: Slot)
    requires l.Valid() && 2 < l.ninodes && 0 < n <= MAXFILEBLKS && l.FirstData() + TreeSize(n) <= l.nblocks
    requires HasPtr(Made(l, n), i, s)
    ensures i == 2 && PtrOk(l, Made(l, n), i, s) && Made(l, n).files[i].ptrs[s] == l.FirstData() + NumberOf(s)
    ensures ValidSlot(s)
  {
    MadePtrs(l, n);
    hide Made, NumberOf, TreeSize, Size2NBlocks, Needed;
    NeededIsBelow(s, n);
    NeededIsValid(s, n);
  }

  lemma MadeFreeOk(l: Layout, n: nat, b: nat)
    requires l.Valid() && 2 < l.ninodes && 0 < n <= MAXFILEBLKS && l.FirstData() + TreeSize(n) <= l.nblocks
    requires b in Made(l, n).free
    ensures l.InDataArea(b) && !l.Refused(b)
  {
    TreeSizeMonotone(0, n);
    RefusedDataBlocks(l, b);
  }

  lemma MadeSound(l: Layout, n: nat)
    requires l.Valid() && 2 < l.ninodes && 0 < n <= MAXFILEBLKS && l.FirstData() + TreeSize(n) <= l.nblocks
    ensures Sound(l, Made(l, n))
  {
    var v := Made(l, n);
    assert |v.files| == l.ninodes;
    hide Made, NumberOf, TreeSize, SlotOf, PtrOk;
    forall b | b in v.free
      ensures l.InDataArea(b) && !l.Refused(b)
    {
      MadeFreeOk(l, n, b);
    }
    forall i: nat, s | HasPtr(v, i, s)
      ensures i == 2 && PtrOk(l, v, i, s)
      ensures v.files[i].ptrs[s] == l.FirstData() + NumberOf(s) && SlotOf(NumberOf(s)) == s
    {
      MadePtrOk(l, n, i, s);
      SlotOfNumber(s);
    }
    NumberedIsInjective(l, v);
  }

  lemma NumberedIsInjective(l: Layout, v: Volume)
    requires forall i: nat, s :: HasPtr(v, i, s) ==> i == 2
    requires forall i: nat, s :: HasPtr(v, i, s) ==>
               v.files[i].ptrs[s] == l.FirstData() + NumberOf(s) && SlotOf(NumberOf(s)) == s
    ensures Injective(v)
  {
    hide NumberOf, SlotOf;
    forall i: nat, s, j: nat, t | HasPtr(v, i, s) && HasPtr(v, j, t) && v.files[i].ptrs[s] == v.files[j].ptrs[t]
      ensures i == j && s == t
    {
      assert NumberOf(s) == NumberOf(t);
    }
  }

  /** For every file size there is a volume in order with such a file. */
  lemma MadeTight(l: Layout, n: nat)
    requires l.Valid() && 2 < l.ninodes && 0 < n <= MAXFILEBLKS && l.FirstData() + TreeSize(n) <= l.nblocks
    ensures Tight(l, Made(l, n)) && IsFile(Made(l, n), 2) && NBlocks(Made(l, n), 2) == n
  {
    var v := Made(l, n);
    MadePtrs(l, n);
    MadeSound(l, n);
    hide Needed, NumberOf, TreeSize, SlotOf, Sound, Size2NBlocks;
    forall i | 0 <= i < |v.files| && !v.files[i].ftype.Symlink?
      ensures Shaped(v.files[i])
    {
      if i != 2 {
        NothingIsShaped(v.files[i]);
      }
    }
    forall b: nat | l.InDataArea(b) && b !in v.free
      ensures Reached(v, b)
    {
      var s := SlotOf(b - l.FirstData());
      NumberOfSlot(b - l.FirstData());
      SlotOfIsValid(b - l.FirstData(), n);
      NeededIsBelow(s, n);
      assert HasPtr(v, 2, s);
    }
  }

  // -------------------------------------------------- one input for each line

  /** Four inodes fill a quarter of one block, so `free_block` refuses nothing. */
  function Disk(nblocks: nat): (l: Layout)
    requires 4 <= nblocks < TWO32
    ensures l.Valid() && l.FirstData() == 4 && l.nblocks == nblocks
    ensures forall b :: l.InDataArea(b) ==> !l.Refused(b)
  {
    Layout(nblocks, 4, 3)
  }

  /** File_System/ospfsmod.c:797: file block 266 goes to the place of file block 10. */
  lemma MisfiledBlock266()
    ensures var l := Disk(1000);
      var (w, st) := AddBlock(Made(l, 266), 2);
      && Tight(l, Made(l, 266)) && st == Ok && !Tight(l, w)
      && DataSlot(266) !in w.files[2].ptrs && StoreSlot(266) == DataSlot(10)
  {
    var l := Disk(1000);
    MadeTight(l, 266);
    hide Made, Size2NBlocks, AddBlock, Sound;
    assert |Made(l, 266).free| == 1000 - 4 - 267 by { MadeFree(l, 266); }
    TightIsGood(l, Made(l, 266), 2);
    AddBlockExact(l, Made(l, 266), 2);
    AddBlockBreaksShape(l, Made(l, 266), 2);
  }

  lemma MadeFree(l: Layout, n: nat)
    requires l.Valid() && 2 < l.ninodes && n <= MAXFILEBLKS && l.FirstData() + TreeSize(n) <= l.nblocks
    ensures |Made(l, n).free| == l.nblocks - l.FirstData() - TreeSize(n)
  {
  }

  /** File_System/ospfsmod.c:994: taking away file block 266 frees the first indirect
      block, so that file blocks 10 to 265 are no longer reached. */
  lemma MisfreedBlock266()
    ensures var l := Disk(1000);
      var (w, st) := RemoveBlock(l, Made(l, 267), 2);
      && Tight(l, Made(l, 267)) && st == Ok && NBlocks(w, 2) == 266 && !Tight(l, w)
      && forall k :: NDIRECT <= k < NDIRECT + NINDIRECT ==> DataSlot(k) !in w.files[2].ptrs
  {
    hide Made, Size2NBlocks, Tight, Needed, Removal, RemoveBlock, TreeSize;
    var l := Disk(1000);
    assert TreeSize(267) == 270 by { assert (267 - 266 + 255) / 256 == 1; TreeOf267(); }
    var v := Made(l, 267);
    MadeTight(l, 267);
    assert DirectIndex(266) == 0 && Misfreed(266);
    MisfreedIsNotTight(l, v, 2);
    RemoveCutsEntries(l, v, 2, 266);
  }

  lemma TreeOf267()
    ensures TreeSize(267) == 270
  {
  }

  lemma RemoveCutsEntries(l: Layout, v: Volume, i: nat, last: nat)
    requires i < |v.files| && NBlocks(v, i) == last + 1 && RemoveBlock(l, v, i).1 == Ok
    requires last >= NDIRECT + NINDIRECT && DirectIndex(last) == 0
    ensures forall k :: NDIRECT <= k < NDIRECT + NINDIRECT ==> DataSlot(k) !in RemoveBlock(l, v, i).0.files[i].ptrs
  {
    hide Removal, Size2NBlocks;
    RemovalCutsEntries(l, v.free, v.files[i].ptrs, last);
  }

  lemma RemovalCutsEntries(l: Layout, free: set<nat>, p: map<Slot, nat>, last: nat)
    requires Removal(l, free, p, last).2 == Ok && last >= NDIRECT + NINDIRECT && DirectIndex(last) == 0
    ensures forall k :: IndEntry(k) !in Removal(l, free, p, last).1
  {
  }

  /** File_System/ospfsmod.c:1067: a file of one block on a full disk.  Writing a byte
      behind that block never returns. */
  lemma FullDiskHangs(fuel: nat)
    ensures var l := Disk(5);
      && Tight(l, Made(l, 1)) && Made(l, 1).free == {}
      && ChangeSize(l, Made(l, 1), 2, BLKSIZE + 1, fuel).1 == Spinning
  {
    var l := Disk(5);
    var v := Made(l, 1);
    MadeTight(l, 1);
    MadeFree(l, 1);
    assert Size2NBlocks(BLKSIZE + 1) == 2 && TreeSize(1) == 1 && TreeSize(2) == 2;
    hide Made, Size2NBlocks, Sound, TreeSize;
    TightIsGood(l, v, 2);
    SmallFilesAreClean(1, 2);
    assert !CleanCut(1, 1) ==> false;
    ChangeSizeHangs(l, v, 2, BLKSIZE + 1, fuel);
  }

  /** The other outcome at the same line: a file of 532 blocks that wants 790, with one
      block too few.  The rollback frees the first indirect block, the second
      attempt succeeds with it, and the call reports success with file blocks 10
      to 265 cut off. */
  lemma OneShortSucceeds()
    ensures TreeSize(532) == 536 && TreeSize(790) == 795
    ensures var l := Disk(4 + 794);
      var (w, out) := ChangeSize(l, Made(l, 532), 2, 790 * BLKSIZE, 2 * MAXFILEBLKS);
      && Tight(l, Made(l, 532)) && out == Finished(Ok) && !Shaped(w.files[2])
  {
    hide Made, Size2NBlocks, Tight, Sound, Shaped, TreeSize, ChangeSize, Needed;
    var l := Disk(4 + 794);
    TreesOf532And790();
    var v := Made(l, 532);
    MadeTight(l, 532);
    MadeFree(l, 532);
    assert Size2NBlocks(790 * BLKSIZE) == 790 by { WholeBlocks(790); }
    FirstIndirectAt(l, 532);
    TightIsGood(l, v, 2);
    MisfreedBlock778();
    NoneMisfiled(532, 790);
    assert GetsThrough(l, v, 2, 790);
    ChangeSizeHangs(l, v, 2, 790 * BLKSIZE, 2 * MAXFILEBLKS);
  }

  lemma TreesOf532And790()
    ensures TreeSize(532) == 536 && TreeSize(790) == 795
  {
    assert (532 - 266 + 255) / 256 == 2 && (790 - 266 + 255) / 256 == 3;
  }

  lemma WholeBlocks(n: nat)
    requires n <= MAXFILEBLKS
    ensures Size2NBlocks(BLKSIZE * n) == n
  {
  }

  lemma FirstIndirectAt(l: Layout, n: nat)
    requires l.Valid() && 2 < l.ninodes && NDIRECT < n <= MAXFILEBLKS && l.FirstData() + TreeSize(n) <= l.nblocks
    ensures var p := Made(l, n).files[2].ptrs; Ind in p && p[Ind] == l.FirstData() + NDIRECT
  {
    MadePtrs(l, n);
    assert Needed(Ind, n);
  }

  lemma MisfreedBlock778()
    ensures !CleanCut(532, 789)
  {
    assert (778 - 10) % 256 == 0;
    assert Misfreed(778);
  }

  lemma NoneMisfiled(a: nat, n: nat)
    requires a >= DEEP
    ensures CleanGrow(a, n)
  {
  }

  /** File_System/ospfsmod.c:634: with sixteen inodes `free_block` refuses the first
      data block; the file that has it loses it when it is cut. */
  lemma RefusedFirstBlock()
    ensures var l := Layout(100, 16, 3);
      && l.Valid() && l.FirstData() == 4 && l.Refused(4) && Tight(l, Made(l, 1))
      && var (w, st) := RemoveBlock(l, Made(l, 1), 2);
         st == Ok && NBlocks(w, 2) == 0 && Lost(l, w, 4)
  {
    hide Made, Size2NBlocks, Tight, Sound, Shaped, Lost, RemoveBlock;
    var l := Layout(100, 16, 3);
    assert l.FirstData() == 4;
    var v := Made(l, 1);
    MadeTight(l, 1);
    FirstBlockOf(l, 1);
    MadeSound(l, 1);
    RefusedRemoval(l, v, 2);
  }

  lemma FirstBlockOf(l: Layout, n: nat)
    requires l.Valid() && 2 < l.ninodes && 0 < n <= MAXFILEBLKS && l.FirstData() + TreeSize(n) <= l.nblocks
    ensures var p := Made(l, n).files[2].ptrs; Direct(0) in p && p[Direct(0)] == l.FirstData()
  {
    MadePtrs(l, n);
    assert Needed(Direct(0), n);
  }

  lemma RefusedRemoval(l: Layout, v: Volume, i: nat)
    requires Sound(l, v) && IsFile(v, i) && NBlocks(v, i) == 1 && Direct(0) in v.files[i].ptrs
    requires l.Refused(v.files[i].ptrs[Direct(0)])
    ensures var (w, st) := RemoveBlock(l, v, i);
      st == Ok && NBlocks(w, i) == 0 && Lost(l, w, v.files[i].ptrs[Direct(0)])
  {
    hide Size2NBlocks, Lost;
    var r := Removal(l, v.free, v.files[i].ptrs, 0);
    assert r == (v.free, v.files[i].ptrs - {Direct(0)}, Ok);
    SizeStep(v.files[i].size);
    assert HasPtr(v, i, Direct(0)) && PtrOk(l, v, i, Direct(0));
    UnnamedIsLost(l, v, i, Direct(0), r);
  }
}
