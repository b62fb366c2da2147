/** Many files on one image: whatever the order in which the formatter gives
    blocks to files and directories, no block belongs to two of them and none
    that was taken belongs to nobody. */
module FormatFiles {
  import opened Common
  import opened OspfsLayout
  import opened FormatCache
  import opened FormatTree

  /** The pointer in a slot, 0 for slots that no inode has. */
  function PtrIn(im: Image, ino: Inode, s: Slot): nat {
    if Proper(im.blocks, ino) && ValidSlot(s) then Ptr(im.blocks, ino, s) else 0
  }

  /** Slot `s` of inode `k`, which has file blocks `bss[k]`, leads to block `b`. */
  ghost predicate Names(im: Image, inos: seq<Inode>, bss: seq<seq<nat>>, k: nat, s: Slot, b: nat) {
    k < |inos| == |bss| && Needed(s, |bss[k]|) && PtrIn(im, inos[k], s) == b
  }

  ghost predicate Named(im: Image, inos: seq<Inode>, bss: seq<seq<nat>>, b: nat) {
    exists k: nat, s :: Names(im, inos, bss, k, s, b)
  }

  ghost predicate NoneTwice(im: Image, inos: seq<Inode>, bss: seq<seq<nat>>) {
    forall j: nat, s, k: nat, t, b :: Names(im, inos, bss, j, s, b) && Names(im, inos, bss, k, t, b) ==>
      j == k && s == t
  }

  /** Every inode is the tree of its blocks, no block is in two trees or twice in
      one, and the blocks taken from `first` on are exactly those in the trees. */
  ghost predicate Trees(im: Image, first: nat, inos: seq<Inode>, bss: seq<seq<nat>>) {
    && |inos| == |bss| && 0 < first <= im.nextb <= |im.blocks|
    && (forall k: nat :: k < |inos| ==> Built(im, inos[k], first, bss[k]))
    && NoneTwice(im, inos, bss)
    && (forall b: nat :: first <= b < im.nextb ==> Named(im, inos, bss, b))
  }

  lemma NoTrees(im: Image, n: nat)
    requires 0 < im.nextb <= |im.blocks| < TWO32 && forall i :: 0 <= i < |im.blocks| ==> Full(im.blocks[i])
    ensures Trees(im, im.nextb, seq(n, _ => EmptyInode()), seq(n, _ => []))
  {
    var inos: seq<Inode> := seq(n, _ => EmptyInode());
    var bss: seq<seq<nat>> := seq(n, _ => []);
    forall k: nat | k < n
      ensures Built(im, inos[k], im.nextb, bss[k])
    {
      NothingBuilt(im, im.nextb);
    }
    assert forall s :: !Needed(s, 0);
  }

  // ------------------------------------------------------ one block more

  lemma NamesRange(im: Image, first: nat, inos: seq<Inode>, bss: seq<seq<nat>>, k: nat, s: Slot, b: nat)
    requires Trees(im, first, inos, bss) && Names(im, inos, bss, k, s, b)
    ensures first <= b < im.nextb && ValidSlot(s)
  {
    assert Built(im, inos[k], first, bss[k]);
  }

  /** Data in a block that nobody has yet. */
  lemma DataPut(im: Image, first: nat, inos: seq<Inode>, bss: seq<seq<nat>>, data: Contents)
    requires Trees(im, first, inos, bss) && im.nextb < |im.blocks| && Full(data)
    ensures var im1 := Image(im.blocks[im.nextb := data], im.nextb + 1);
      && (forall k: nat :: k < |inos| ==>
        Built(im1, inos[k], first, bss[k]) && Unused(im1, inos[k], first, bss[k], im.nextb))
      && (forall k: nat, s :: k < |inos| ==> PtrIn(im1, inos[k], s) == PtrIn(im, inos[k], s))
      && (forall k: nat, s, b :: Names(im1, inos, bss, k, s, b) <==> Names(im, inos, bss, k, s, b))
  {
    var im1 := Image(im.blocks[im.nextb := data], im.nextb + 1);
    hide Built, Unused, Full, Ptr, Needed;
    forall k: nat | k < |inos|
      ensures Built(im1, inos[k], first, bss[k]) && Unused(im1, inos[k], first, bss[k], im.nextb)
      ensures forall s :: PtrIn(im1, inos[k], s) == PtrIn(im, inos[k], s)
    {
      UnusedData(im, inos[k], first, bss[k], data);
      BuiltIsProper(im, inos[k], first, bss[k]);
      BuiltIsProper(im1, inos[k], first, bss[k]);
    }
  }

  lemma BuiltIsProper(im: Image, ino: Inode, lo: nat, bs: seq<nat>)
    requires Built(im, ino, lo, bs)
    ensures Proper(im.blocks, ino)
  {
  }

  /** The pointer blocks of `ino` are the same on both disks. */
  ghost predicate SamePointers(d: Disk, d': Disk, ino: Inode) {
    && |d'| == |d| && Proper(d, ino) && Proper(d', ino)
    && (0 < ino.indirect < |d| ==> d'[ino.indirect] == d[ino.indirect])
    && (0 < ino.indirect2 < |d| ==> d'[ino.indirect2] == d[ino.indirect2])
    && forall j: nat :: j < NINDIRECT && 0 < EntryAt(d, ino.indirect2, j) < |d| ==>
         d'[EntryAt(d, ino.indirect2, j)] == d[EntryAt(d, ino.indirect2, j)]
  }

  lemma SamePointersPtr(d: Disk, d': Disk, ino: Inode, s: Slot)
    requires SamePointers(d, d', ino) && ValidSlot(s)
    ensures Ptr(d', ino, s) == Ptr(d, ino, s)
  {
    assert forall k: nat :: k < BLKWORDS ==> EntryAt(d', ino.indirect2, k) == EntryAt(d, ino.indirect2, k);
  }

  lemma StillBuilt(im: Image, im': Image, ino: Inode, lo: nat, bs: seq<nat>)
    requires Built(im, ino, lo, bs) && im.nextb <= im'.nextb <= |im'.blocks| && SamePointers(im.blocks, im'.blocks, ino)
    ensures Built(im', ino, lo, bs) && forall s :: PtrIn(im', ino, s) == PtrIn(im, ino, s)
  {
    forall s | ValidSlot(s)
      ensures Ptr(im'.blocks, ino, s) == Ptr(im.blocks, ino, s)
    {
      SamePointersPtr(im.blocks, im'.blocks, ino, s);
    }
    hide Ptr;
  }

  /** The blocks of another file, with data or with pointers, are no pointer blocks
      of this one. */
  lemma ForeignPointer(im: Image, first: nat, inos: seq<Inode>, bss: seq<seq<nat>>, j: nat, k: nat, t: Slot)
    requires Trees(im, first, inos, bss) && j < |inos| && k < |inos| && j != k
    requires ValidSlot(t) && PtrIn(im, inos[j], t) != 0
    ensures var c, ino := PtrIn(im, inos[j], t), inos[k];
      && Proper(im.blocks, ino) && first <= c < im.nextb
      && c != ino.indirect && c != ino.indirect2 && forall e: nat :: e < NINDIRECT ==>
        c != EntryAt(im.blocks, ino.indirect2, e)
  {
    var c, ino := PtrIn(im, inos[j], t), inos[k];
    var d := im.blocks;
    assert Built(im, inos[j], first, bss[j]) && Built(im, ino, first, bss[k]);
    assert Names(im, inos, bss, j, t, c);
    forall s | ValidSlot(s)
      ensures Ptr(d, ino, s) != c
    {
      if Ptr(d, ino, s) == c {
        assert Names(im, inos, bss, k, s, c);
      }
    }
    assert ValidSlot(Ind) && ValidSlot(Ind2) && Ptr(d, ino, Ind) == ino.indirect && Ptr(d, ino, Ind2) == ino.indirect2;
    forall e: nat | e < NINDIRECT
      ensures c != EntryAt(d, ino.indirect2, e)
    {
      assert ValidSlot(Und(e)) && Ptr(d, ino, Und(e)) == EntryAt(d, ino.indirect2, e);
    }
  }

  /** `storeblk` for one file leaves the pointer blocks of the others alone. */
  lemma OthersStay(
      im: Image, first: nat, inos: seq<Inode>, bss: seq<seq<nat>>, k: nat, im1: Image, im': Image, ino': Inode, j: nat)
    requires Trees(im, first, inos, bss) && k < |inos| && |bss[k]| < MAXFILEBLKS && j < |inos| && j != k
    requires im.nextb < |im.blocks| && |im1.blocks| == |im.blocks| && im1.nextb == im.nextb + 1
    requires forall c :: 0 <= c < |im.blocks| && c != im.nextb ==> im1.blocks[c] == im.blocks[c]
    requires OnDisk(im1.blocks, inos[k]) && Apart(im1.blocks, inos[k], im1.nextb) && Proper(im1.blocks, inos[j])
    requires forall e: nat :: e < NINDIRECT ==>
        EntryAt(im1.blocks, inos[k].indirect2, e) == EntryAt(im.blocks, inos[k].indirect2, e)
    requires Store(im1, inos[k], im.nextb, |bss[k]|) == Some((im', ino')) && Proper(im'.blocks, inos[j])
    requires |im'.blocks| == |im.blocks|
    ensures SamePointers(im.blocks, im'.blocks, inos[j])
  {
    var ino := inos[j];
    var d := im.blocks;
    assert Built(im, ino, first, bss[j]);
    hide Store, Built, Apart, Full;
    forall t | ValidSlot(t) && !IsData(t) && PtrIn(im, ino, t) != 0
      ensures var c := PtrIn(im, ino, t); c < |d| && im'.blocks[c] == d[c]
    {
      var c := PtrIn(im, ino, t);
      ForeignPointer(im, first, inos, bss, j, k, t);
      StoreFrame(im1, inos[k], im.nextb, |bss[k]|, c);
    }
    assert ValidSlot(Ind) && ValidSlot(Ind2) && PtrIn(im, ino, Ind) == ino.indirect
        && PtrIn(im, ino, Ind2) == ino.indirect2;
    forall e: nat | e < NINDIRECT && 0 < EntryAt(d, ino.indirect2, e) < |d|
      ensures im'.blocks[EntryAt(d, ino.indirect2, e)] == d[EntryAt(d, ino.indirect2, e)]
    {
      assert ValidSlot(Und(e)) && PtrIn(im, ino, Und(e)) == EntryAt(d, ino.indirect2, e);
    }
  }

  /** What `storeblk` does: the data is in the next block, and that block is the
      next file block of inode `k`. */
  ghost predicate Adds(im: Image, ino: Inode, n: nat, data: Contents, im': Image, ino': Inode) {
    && im.nextb < |im.blocks| && Full(data) && n < MAXFILEBLKS
    && var im1 := Image(im.blocks[im.nextb := data], im.nextb + 1);
       OnDisk(im1.blocks, ino) && Store(im1, ino, im.nextb, n) == Some((im', ino'))
  }

  /** Nothing below the trees is written. */
  lemma AddsAbove(
      im: Image, first: nat, inos: seq<Inode>, bss: seq<seq<nat>>, k: nat, data: Contents, im': Image, ino': Inode)
    requires Trees(im, first, inos, bss) && k < |inos| && Adds(im, inos[k], |bss[k]|, data, im', ino')
    ensures |im'.blocks| == |im.blocks| && im.nextb <= im'.nextb && OnDisk(im'.blocks, ino')
    ensures forall c :: 0 < c < first ==> im'.blocks[c] == im.blocks[c]
  {
    var im1 := Image(im.blocks[im.nextb := data], im.nextb + 1);
    DataPut(im, first, inos, bss, data);
    BuiltApart(im1, inos[k], first, bss[k]);
    hide Built, Store, Apart, Unused, Full;
    forall c: nat | 0 < c < first
      ensures im'.blocks[c] == im.blocks[c]
    {
      NotPointer(im1, inos[k], first, bss[k], c);
      StoreFrame(im1, inos[k], im.nextb, |bss[k]|, c);
    }
  }

  // ------------------------------------------------------ what is in the files

  /** The blocks `bs` hold `host`, in that order. */
  ghost predicate Filled(d: Disk, bs: seq<nat>, host: seq<Contents>) {
    |bs| == |host| && forall i :: 0 <= i < |bs| ==> bs[i] < |d| && d[bs[i]] == host[i]
  }

  /** Every file block of every file holds what it held. */
  ghost predicate DataKept(d: Disk, d': Disk, bss: seq<seq<nat>>) {
    forall j: nat, i: nat :: j < |bss| && i < |bss[j]| ==> SameBlock(d, d', bss[j][i])
  }

  ghost predicate SameBlock(d: Disk, d': Disk, c: nat) {
    c < |d| == |d'| && d'[c] == d[c]
  }

  lemma FilledStill(d: Disk, d': Disk, bss: seq<seq<nat>>, j: nat, host: seq<Contents>)
    requires DataKept(d, d', bss) && j < |bss| && Filled(d, bss[j], host)
    ensures Filled(d', bss[j], host)
  {
    forall i | 0 <= i < |bss[j]|
      ensures bss[j][i] < |d'| && d'[bss[j][i]] == host[i]
    {
      assert SameBlock(d, d', bss[j][i]);
    }
  }

  /** A block that `storeblk` for inode `k` may not touch: somebody's data, or the
      block that it files. */
  lemma DataIsForeign(
      im: Image, first: nat, inos: seq<Inode>, bss: seq<seq<nat>>, k: nat, data: Contents, j: nat, i: nat)
    requires Trees(im, first, inos, bss) && k < |inos| && im.nextb < |im.blocks| && Full(data)
    requires j < |bss| && i < |bss[j]|
    ensures var im1 := Image(im.blocks[im.nextb := data], im.nextb + 1);
      && Proper(im1.blocks, inos[k]) && bss[j][i] < im.nextb
      && bss[j][i] != inos[k].indirect && bss[j][i] != inos[k].indirect2 && forall e: nat :: e < NINDIRECT ==>
        bss[j][i] != EntryAt(im1.blocks, inos[k].indirect2, e)
  {
    var c := bss[j][i];
    var im1 := Image(im.blocks[im.nextb := data], im.nextb + 1);
    DataPut(im, first, inos, bss, data);
    BuiltIsProper(im, inos[k], first, bss[k]);
    BuiltIsProper(im1, inos[k], first, bss[k]);
    BuiltBounds(im, inos[j], first, bss[j]);
    if j == k {
      assert c in bss[k];
      NotPointer(im1, inos[k], first, bss[k], c);
    } else {
      BlockIsPtr(im, inos[j], first, bss[j], i);
      ForeignPointer(im, first, inos, bss, j, k, DataSlot(i));
      hide Built, Unused, Trees, PtrIn, Full;
      SameUnder(im, im1, inos[k]);
    }
  }

  lemma BlockIsPtr(im: Image, ino: Inode, lo: nat, bs: seq<nat>, i: nat)
    requires Built(im, ino, lo, bs) && i < |bs|
    ensures ValidSlot(DataSlot(i)) && PtrIn(im, ino, DataSlot(i)) == bs[i] != 0
  {
    SlotIndexOfDataSlot(i);
    BuiltBounds(im, ino, lo, bs);
  }

  /** The new block holds the data, and all file blocks of all files hold what they
      held. */
  lemma AddsKeeps(
      im: Image, first: nat, inos: seq<Inode>, bss: seq<seq<nat>>, k: nat, data: Contents, im': Image, ino': Inode)
    requires Trees(im, first, inos, bss) && k < |inos| && Adds(im, inos[k], |bss[k]|, data, im', ino')
    ensures DataKept(im.blocks, im'.blocks, bss)
    ensures im.nextb < |im'.blocks| && im'.blocks[im.nextb] == data
  {
    var im1 := Image(im.blocks[im.nextb := data], im.nextb + 1);
    DataPut(im, first, inos, bss, data);
    BuiltApart(im1, inos[k], first, bss[k]);
    BuiltLast(im1, inos[k], first, bss[k], im.nextb);
    hide Built, Store, Apart, Unused, Full, NoneTwice;
    StoreFrame(im1, inos[k], im.nextb, |bss[k]|, im.nextb);
    forall j: nat, i: nat | j < |bss| && i < |bss[j]|
      ensures SameBlock(im.blocks, im'.blocks, bss[j][i])
    {
      DataIsForeign(im, first, inos, bss, k, data, j, i);
      StoreFrame(im1, inos[k], im.nextb, |bss[k]|, bss[j][i]);
    }
  }

  // ------------------------------------------------------ what is in the slots

  /** The slots of all inodes afterwards. */
  lemma AddsExtends(
      im: Image, first: nat, inos: seq<Inode>, bss: seq<seq<nat>>, k: nat, data: Contents, im': Image, ino': Inode)
    requires Trees(im, first, inos, bss) && k < |inos| && Adds(im, inos[k], |bss[k]|, data, im', ino')
    ensures var n := |bss[k]|;
      && Built(im', ino', first, bss[k] + [im.nextb])
      && im'.nextb == im.nextb + 1 + Taken(n)
      && (forall s :: ValidSlot(s) ==>
            PtrIn(im', ino', s) == if New(s, n) then NewPtr(s, im.nextb, n, im.nextb + 1) else PtrIn(im, inos[k], s))
      && (forall j: nat :: j < |inos| && j != k ==>
            Built(im', inos[j], first, bss[j]) && forall s :: PtrIn(im', inos[j], s) == PtrIn(im, inos[j], s))
  {
    hide Built, Adds, Ptr, PtrIn, New, NewPtr, Taken;
    AddsToFile(im, first, inos, bss, k, data, im', ino');
    forall j: nat | j < |inos| && j != k
      ensures Built(im', inos[j], first, bss[j]) && forall s :: PtrIn(im', inos[j], s) == PtrIn(im, inos[j], s)
    {
      AddsToNoOther(im, first, inos, bss, k, data, im', ino', j);
    }
  }

  lemma AddsToFile(
      im: Image, first: nat, inos: seq<Inode>, bss: seq<seq<nat>>, k: nat, data: Contents, im': Image, ino': Inode)
    requires Trees(im, first, inos, bss) && k < |inos| && Adds(im, inos[k], |bss[k]|, data, im', ino')
    ensures var n := |bss[k]|;
      && Built(im', ino', first, bss[k] + [im.nextb])
      && im'.nextb == im.nextb + 1 + Taken(n)
      && (forall s :: ValidSlot(s) ==>
            PtrIn(im', ino', s) == if New(s, n) then NewPtr(s, im.nextb, n, im.nextb + 1) else PtrIn(im, inos[k], s))
  {
    hide Built, Store, Ptr, New, NewPtr, Unused, Apart, Taken, Full;
    var im1 := Image(im.blocks[im.nextb := data], im.nextb + 1);
    DataPut(im, first, inos, bss, data);
    BuiltApart(im1, inos[k], first, bss[k]);
    StoreExtends(im1, inos[k], first, bss[k], im.nextb);
    StoreBuilds(im1, inos[k], first, bss[k], im.nextb);
    BuiltIsProper(im', ino', first, bss[k] + [im.nextb]);
    BuiltIsProper(im, inos[k], first, bss[k]);
    BuiltIsProper(im1, inos[k], first, bss[k]);
  }

  lemma AddsToNoOther(
      im: Image, first: nat, inos: seq<Inode>, bss: seq<seq<nat>>,
      k: nat, data: Contents, im': Image, ino': Inode, j: nat)
    requires Trees(im, first, inos, bss) && k < |inos| && Adds(im, inos[k], |bss[k]|, data, im', ino')
    requires j < |inos| && j != k
    ensures Built(im', inos[j], first, bss[j]) && forall s :: PtrIn(im', inos[j], s) == PtrIn(im, inos[j], s)
  {
    var im1 := Image(im.blocks[im.nextb := data], im.nextb + 1);
    AddsToFile(im, first, inos, bss, k, data, im', ino');
    BuiltIsProper(im', ino', first, bss[k] + [im.nextb]);
    BuiltOnDisk(im', ino', first, bss[k] + [im.nextb]);
    DataPut(im, first, inos, bss, data);
    BuiltApart(im1, inos[k], first, bss[k]);
    BuiltIsProper(im, inos[k], first, bss[k]);
    BuiltIsProper(im1, inos[k], first, bss[k]);
    BuiltIsProper(im, inos[j], first, bss[j]);
    hide Built, Store, Ptr, New, NewPtr, Unused, Apart, Taken, Full, PtrIn, Trees;
    SameUnder(im, im1, inos[k]);
    OthersStay(im, first, inos, bss, k, im1, im', ino', j);
    StillBuilt(im, im', inos[j], first, bss[j]);
  }

  lemma SameUnder(im: Image, im1: Image, ino: Inode)
    requires Proper(im.blocks, ino) && Proper(im1.blocks, ino)
    requires forall s :: PtrIn(im1, ino, s) == PtrIn(im, ino, s)
    ensures forall e: nat :: e < NINDIRECT ==>
        EntryAt(im1.blocks, ino.indirect2, e) == EntryAt(im.blocks, ino.indirect2, e)
  {
    forall e: nat | e < NINDIRECT
      ensures EntryAt(im1.blocks, ino.indirect2, e) == EntryAt(im.blocks, ino.indirect2, e)
    {
      assert ValidSlot(Und(e));
      assert PtrIn(im1, ino, Und(e)) == PtrIn(im, ino, Und(e));
    }
  }

  lemma NamesAfter(
      im: Image, first: nat, inos: seq<Inode>, bss: seq<seq<nat>>, k: nat, data: Contents, im': Image, ino': Inode,
      j: nat, s: Slot, b: nat)
    requires Trees(im, first, inos, bss) && k < |inos| && Adds(im, inos[k], |bss[k]|, data, im', ino')
    ensures Names(im', inos[k := ino'], bss[k := bss[k] + [im.nextb]], j, s, b) <==>
      || Names(im, inos, bss, j, s, b)
      || (j == k && New(s, |bss[k]|) && b == NewPtr(s, im.nextb, |bss[k]|, im.nextb + 1))
  {
    AddsExtends(im, first, inos, bss, k, data, im', ino');
    NeededMonotoneStep(s, |bss[k]|);
    hide Built, Adds, NewPtr, PtrIn;
  }

  lemma NeededMonotoneStep(s: Slot, n: nat)
    ensures Needed(s, n) ==> Needed(s, n + 1) && ValidSlot(s)
    ensures New(s, n) ==> ValidSlot(s)
    ensures Needed(s, n + 1) <==> Needed(s, n) || New(s, n)
    ensures !(Needed(s, n) && New(s, n))
  {
  }

  /** The blocks that one more file block takes: its own, and the new pointer
      blocks behind it, each for one of the new slots. */
  lemma TakenAreNamed(n: nat, b: nat, c: nat) returns (s: Slot)
    requires n < MAXFILEBLKS && b <= c < b + 1 + Taken(n)
    ensures New(s, n) && NewPtr(s, b, n, b + 1) == c
  {
    if c == b {
      s := DataSlot(n);
    } else if n == NDIRECT {
      s := Ind;
    } else if n == NDIRECT + NINDIRECT && c == b + 1 {
      s := Ind2;
    } else {
      s := Und((n - NDIRECT - NINDIRECT) / NINDIRECT);
    }
    NewSlots(s, n);
  }

  /** Whichever file gets the next block, the image stays a set of trees. */
  lemma TreesGrow(
      im: Image, first: nat, inos: seq<Inode>, bss: seq<seq<nat>>, k: nat, data: Contents, im': Image, ino': Inode)
    requires Trees(im, first, inos, bss) && k < |inos| && Adds(im, inos[k], |bss[k]|, data, im', ino')
    ensures Trees(im', first, inos[k := ino'], bss[k := bss[k] + [im.nextb]])
  {
    var inos', bss' := inos[k := ino'], bss[k := bss[k] + [im.nextb]];
    AddsExtends(im, first, inos, bss, k, data, im', ino');
    BuiltOnDisk(im', ino', first, bss[k] + [im.nextb]);
    NoneTwiceStill(im, first, inos, bss, k, data, im', ino');
    hide Built, Adds, Needed, New, NewPtr, PtrIn, NoneTwice;
    forall c: nat | first <= c < im'.nextb
      ensures Named(im', inos', bss', c)
    {
      NamedAfter(im, first, inos, bss, k, data, im', ino', c);
    }
  }

  lemma NamedAfter(
      im: Image, first: nat, inos: seq<Inode>, bss: seq<seq<nat>>,
      k: nat, data: Contents, im': Image, ino': Inode, c: nat)
    requires Trees(im, first, inos, bss) && k < |inos| && Adds(im, inos[k], |bss[k]|, data, im', ino')
    requires first <= c < im.nextb + 1 + Taken(|bss[k]|)
    ensures Named(im', inos[k := ino'], bss[k := bss[k] + [im.nextb]], c)
  {
    hide Built, Needed, New, NewPtr, PtrIn, NoneTwice, Names, Store, Full;
    if c < im.nextb {
      assert Named(im, inos, bss, c);
      var j: nat, s :| Names(im, inos, bss, j, s, c);
      NamesAfter(im, first, inos, bss, k, data, im', ino', j, s, c);
    } else {
      var s := TakenAreNamed(|bss[k]|, im.nextb, c);
      NamesAfter(im, first, inos, bss, k, data, im', ino', k, s, c);
    }
  }

  lemma NoneTwiceStill(
      im: Image, first: nat, inos: seq<Inode>, bss: seq<seq<nat>>, k: nat, data: Contents, im': Image, ino': Inode)
    requires Trees(im, first, inos, bss) && k < |inos| && Adds(im, inos[k], |bss[k]|, data, im', ino')
    ensures NoneTwice(im', inos[k := ino'], bss[k := bss[k] + [im.nextb]])
  {
    var inos', bss' := inos[k := ino'], bss[k := bss[k] + [im.nextb]];
    NewDistinct(im.nextb, |bss[k]|, im.nextb + 1);
    hide Built, Needed, New, NewPtr, PtrIn, Names, Store, Full, Named;
    forall j: nat, s, i: nat, t, c | Names(im', inos', bss', j, s, c) && Names(im', inos', bss', i, t, c)
      ensures j == i && s == t
    {
      NamesAfter(im, first, inos, bss, k, data, im', ino', j, s, c);
      NamesAfter(im, first, inos, bss, k, data, im', ino', i, t, c);
      if Names(im, inos, bss, j, s, c) {
        NamesRange(im, first, inos, bss, j, s, c);
      }
      if Names(im, inos, bss, i, t, c) {
        NamesRange(im, first, inos, bss, i, t, c);
      }
    }
  }

  lemma BuiltOnDisk(im: Image, ino: Inode, lo: nat, bs: seq<nat>)
    requires Built(im, ino, lo, bs)
    ensures im.nextb <= |im.blocks|
  {
  }

  // ---------------------------------------------------------- whole files

  /** What writing to inode `k` leaves, with file blocks `bs` so far: the trees, all
      below them, and all file blocks there were hold what they held; and if the
      file held the first blocks of `host`, it holds as many as it has now. */
  ghost predicate WrittenSoFar(
      im: Image, first: nat, inos: seq<Inode>, bss: seq<seq<nat>>, k: nat, host: seq<Contents>,
      im': Image, ino': Inode, bs: seq<nat>)
    requires k < |inos| == |bss|
  {
    && Trees(im', first, inos[k := ino'], bss[k := bs])
    && |im'.blocks| == |im.blocks| && OnDisk(im'.blocks, ino')
    && (forall c :: 0 < c < first ==> im'.blocks[c] == im.blocks[c])
    && DataKept(im.blocks, im'.blocks, bss)
    && bss[k] <= bs && |bs| <= |host|
    && (Filled(im.blocks, bss[k], host[..|bss[k]|]) ==> Filled(im'.blocks, bs, host[..|bs|]))
  }

  /** The loop of `writefile` for inode `k` ends with all of the host file. */
  lemma {:induction false} FileWritten(
      im: Image, first: nat, inos: seq<Inode>, bss: seq<seq<nat>>, k: nat, host: seq<Contents>, partial: bool)
    returns (all: seq<nat>)
    requires Trees(im, first, inos, bss) && k < |inos| == |bss| && |bss[k]| <= |host| && OnDisk(im.blocks, inos[k])
    requires forall i :: 0 <= i < |host| ==> Full(host[i])
    requires WriteFrom(im, inos[k], host, partial, |bss[k]|).Some?
    ensures var st := WriteFrom(im, inos[k], host, partial, |bss[k]|).value;
            |all| == |host| && WrittenSoFar(im, first, inos, bss, k, host, st.0, st.1, all)
    decreases |host| - |bss[k]|
  {
    var n := |bss[k]|;
    var st := WriteFrom(im, inos[k], host, partial, n).value;
    if n == |host| {
      all := bss[k];
      FileEnds(im, first, inos, bss, k, host);
    } else {
      var im1 := Image(im.blocks[im.nextb := host[n]], im.nextb + 1);
      var (im', ino') := Store(im1, inos[k], im.nextb, n).value;
      StoreInRange(im1, inos[k], im.nextb, n);
      assert Adds(im, inos[k], n, host[n], im', ino');
      hide Store, Trees, Adds, WrittenSoFar, Full;
      all := bss[k] + [im.nextb];
      FileGrows(im, first, inos, bss, k, host, im', ino');
      if !(partial && n == |host| - 1) {
        var bs := all;
        GrownFile(im, first, inos, bss, k, host, im', ino', bs);
        all := FileWritten(im', first, inos[k := ino'], bss[k := bs], k, host, partial);
        WrittenOn(im, first, inos, bss, k, host, im', ino', bs, st.0, st.1, all);
      }
    }
  }

  lemma GrownFile(
      im: Image, first: nat, inos: seq<Inode>, bss: seq<seq<nat>>, k: nat, host: seq<Contents>,
      im': Image, ino': Inode, bs: seq<nat>)
    requires k < |inos| == |bss| && WrittenSoFar(im, first, inos, bss, k, host, im', ino', bs)
    ensures Trees(im', first, inos[k := ino'], bss[k := bs]) && OnDisk(im'.blocks, ino') && |bs| <= |host|
  {
  }

  lemma WrittenOn(
      im: Image, first: nat, inos: seq<Inode>, bss: seq<seq<nat>>, k: nat, host: seq<Contents>,
      im1: Image, ino1: Inode, bs1: seq<nat>, im2: Image, ino2: Inode, bs2: seq<nat>)
    requires k < |inos| == |bss| && WrittenSoFar(im, first, inos, bss, k, host, im1, ino1, bs1)
    requires WrittenSoFar(im1, first, inos[k := ino1], bss[k := bs1], k, host, im2, ino2, bs2)
    ensures WrittenSoFar(im, first, inos, bss, k, host, im2, ino2, bs2)
  {
    hide Trees, Filled, DataKept, OnDisk;
    KeptOn(im.blocks, im1.blocks, im2.blocks, bss, bss[k := bs1], k);
    assert inos[k := ino1][k := ino2] == inos[k := ino2] && bss[k := bs1][k := bs2] == bss[k := bs2];
  }

  /** The end of the file is seen when one block too many has been cleared. */
  lemma FileEnds(im: Image, first: nat, inos: seq<Inode>, bss: seq<seq<nat>>, k: nat, host: seq<Contents>)
    requires Trees(im, first, inos, bss) && k < |inos| == |bss| && |bss[k]| == |host| && im.nextb < |im.blocks|
    requires OnDisk(im.blocks, inos[k])
    ensures var im' := im.(blocks := im.blocks[im.nextb := Zeroed()]);
            WrittenSoFar(im, first, inos, bss, k, host, im', inos[k], bss[k])
  {
    ZeroEntry(0);
    UnusedStays(im, first, inos, bss, Zeroed());
    DataBelow(im, first, inos, bss, Zeroed());
    assert inos[k := inos[k]] == inos && bss[k := bss[k]] == bss;
    if Filled(im.blocks, bss[k], host[..|bss[k]|]) {
      FilledStill(im.blocks, im.blocks[im.nextb := Zeroed()], bss, k, host[..|bss[k]|]);
    }
  }

  /** One turn of the loop. */
  lemma FileGrows(
      im: Image, first: nat, inos: seq<Inode>, bss: seq<seq<nat>>, k: nat, host: seq<Contents>, im': Image, ino': Inode)
    requires Trees(im, first, inos, bss) && k < |inos| == |bss| && |bss[k]| < |host|
    requires Adds(im, inos[k], |bss[k]|, host[|bss[k]|], im', ino')
    ensures WrittenSoFar(im, first, inos, bss, k, host, im', ino', bss[k] + [im.nextb])
  {
    hide Trees, Adds, DataKept, Filled;
    TreesGrow(im, first, inos, bss, k, host[|bss[k]|], im', ino');
    AddsAbove(im, first, inos, bss, k, host[|bss[k]|], im', ino');
    AddsKeeps(im, first, inos, bss, k, host[|bss[k]|], im', ino');
    if Filled(im.blocks, bss[k], host[..|bss[k]|]) {
      FilledStill(im.blocks, im'.blocks, bss, k, host[..|bss[k]|]);
      FilledOn(im'.blocks, bss[k], host, im.nextb);
    }
  }

  lemma DataBelow(im: Image, first: nat, inos: seq<Inode>, bss: seq<seq<nat>>, data: Contents)
    requires Trees(im, first, inos, bss) && im.nextb < |im.blocks|
    ensures DataKept(im.blocks, im.blocks[im.nextb := data], bss)
  {
    forall j: nat, i: nat | j < |bss| && i < |bss[j]|
      ensures SameBlock(im.blocks, im.blocks[im.nextb := data], bss[j][i])
    {
      BuiltBounds(im, inos[j], first, bss[j]);
    }
  }

  lemma FilledOn(d: Disk, bs: seq<nat>, host: seq<Contents>, b: nat)
    requires |bs| < |host| && Filled(d, bs, host[..|bs|]) && b < |d| && d[b] == host[|bs|]
    ensures Filled(d, bs + [b], host[..|bs + [b]|])
  {
  }

  lemma KeptOn(d0: Disk, d1: Disk, d2: Disk, bss: seq<seq<nat>>, bss1: seq<seq<nat>>, k: nat)
    requires DataKept(d0, d1, bss) && DataKept(d1, d2, bss1) && k < |bss| == |bss1|
    requires bss[k] <= bss1[k] && forall j :: 0 <= j < |bss| && j != k ==> bss1[j] == bss[j]
    ensures DataKept(d0, d2, bss)
  {
    forall j: nat, i: nat | j < |bss| && i < |bss[j]|
      ensures SameBlock(d0, d2, bss[j][i])
    {
      assert bss1[j][i] == bss[j][i];
      assert SameBlock(d0, d1, bss[j][i]) && SameBlock(d1, d2, bss1[j][i]);
    }
  }

  /** The same pointers on another disk: the same trees. */
  lemma SameTrees(im: Image, im': Image, first: nat, inos: seq<Inode>, bss: seq<seq<nat>>)
    requires Trees(im, first, inos, bss) && im'.nextb == im.nextb && |im'.blocks| == |im.blocks|
    requires forall k: nat :: k < |inos| ==> Built(im', inos[k], first, bss[k])
    requires forall k: nat, s :: k < |inos| ==> PtrIn(im', inos[k], s) == PtrIn(im, inos[k], s)
    ensures Trees(im', first, inos, bss)
  {
    hide Built, PtrIn, Needed;
    assert forall k: nat, s, b :: Names(im', inos, bss, k, s, b) <==> Names(im, inos, bss, k, s, b);
    forall b: nat | first <= b < im.nextb
      ensures Named(im', inos, bss, b)
    {
      assert Named(im, inos, bss, b);
      var k: nat, s :| Names(im, inos, bss, k, s, b);
      assert Names(im', inos, bss, k, s, b);
    }
  }

  /** The block cleared before the end of the file was seen is nobody's. */
  lemma UnusedStays(im: Image, first: nat, inos: seq<Inode>, bss: seq<seq<nat>>, data: Contents)
    requires Trees(im, first, inos, bss) && im.nextb < |im.blocks| && Full(data)
    ensures Trees(im.(blocks := im.blocks[im.nextb := data]), first, inos, bss)
  {
    var im' := im.(blocks := im.blocks[im.nextb := data]);
    forall k: nat | k < |inos|
      ensures Built(im', inos[k], first, bss[k])
      ensures forall s :: PtrIn(im', inos[k], s) == PtrIn(im, inos[k], s)
    {
      UnusedData(im, inos[k], first, bss[k], data);
      BuiltIsProper(im, inos[k], first, bss[k]);
    }
    hide Trees;
    SameTrees(im, im', first, inos, bss);
  }

  /** Whatever is written below the first block of the trees leaves them alone. */
  lemma TreesSeenAgain(im: Image, first: nat, inos: seq<Inode>, bss: seq<seq<nat>>, d: Disk)
    requires Trees(im, first, inos, bss) && |d| == |im.blocks| && forall b :: 0 <= b < |d| ==> Full(d[b])
    requires forall b :: first <= b < |d| ==> d[b] == im.blocks[b]
    ensures Trees(im.(blocks := d), first, inos, bss)
  {
    var im' := im.(blocks := d);
    hide Full;
    forall k: nat | k < |inos|
      ensures Built(im', inos[k], first, bss[k])
      ensures forall s :: PtrIn(im', inos[k], s) == PtrIn(im, inos[k], s)
    {
      PointersAbove(im, inos[k], first, bss[k], d);
      StillBuilt(im, im', inos[k], first, bss[k]);
    }
    hide Trees;
    SameTrees(im, im', first, inos, bss);
  }

  lemma PointersAbove(im: Image, ino: Inode, first: nat, bs: seq<nat>, d: Disk)
    requires Built(im, ino, first, bs) && |d| == |im.blocks| && forall b :: 0 <= b < |d| ==> Full(d[b])
    requires forall b :: first <= b < |d| ==> d[b] == im.blocks[b]
    ensures SamePointers(im.blocks, d, ino)
  {
    var e := im.blocks;
    assert ValidSlot(Ind) && ValidSlot(Ind2);
    assert Ptr(e, ino, Ind) == ino.indirect && Ptr(e, ino, Ind2) == ino.indirect2;
    forall j: nat | j < NINDIRECT && 0 < EntryAt(e, ino.indirect2, j) < |e|
      ensures d[EntryAt(e, ino.indirect2, j)] == e[EntryAt(e, ino.indirect2, j)]
    {
      assert ValidSlot(Und(j)) && Ptr(e, ino, Und(j)) == EntryAt(e, ino.indirect2, j);
    }
  }

  /** Blocks were taken exactly when some file has blocks. */
  lemma TakenIff(im: Image, first: nat, inos: seq<Inode>, bss: seq<seq<nat>>)
    requires Trees(im, first, inos, bss)
    ensures first < im.nextb <==> exists k :: 0 <= k < |bss| && bss[k] != []
  {
    if first < im.nextb {
      assert Named(im, inos, bss, first);
      var k: nat, s :| Names(im, inos, bss, k, s, first);
      assert bss[k] != [];
    }
    if k: nat :| k < |bss| && bss[k] != [] {
      assert Built(im, inos[k], first, bss[k]);
      assert Needed(DataSlot(0), |bss[k]|);
    }
  }
}
