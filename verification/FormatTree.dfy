/** How File_System/ospfsformat.c files the blocks of a new file: the pointer
    trees that `storeblk` builds, on the flat disk that its block cache shows,
    and what the kernel module finds in them. */
module FormatTree {
  import opened Common
  import opened OspfsLayout
  import opened FormatCache

  type Disk = seq<Contents>

  datatype Inode = Inode(direct: seq<nat>, indirect: nat, indirect2: nat)

  /** `nextb` is the next block never used. */
  datatype Image = Image(blocks: Disk, nextb: nat)

  function EmptyInode(): Inode { Inode(seq(NDIRECT, i => 0), 0, 0) }

  // ------------------------------------------------------------ words of a block

  predicate Full(c: Contents) { |c.words| == BLKWORDS && forall k :: 0 <= k < BLKWORDS ==> c.words[k] < TWO32 }

  function Entry(c: Contents, k: nat): nat
    requires Full(c) && k < BLKWORDS
  {
    c.words[k]
  }

  function WithEntry(c: Contents, k: nat, v: nat): Contents
    requires Full(c) && k < BLKWORDS && v < TWO32
  {
    Contents(c.words[k := v])
  }

  lemma EntryWritten(c: Contents, k: nat, v: nat, j: nat)
    requires Full(c) && k < BLKWORDS && v < TWO32 && j < BLKWORDS
    ensures Full(WithEntry(c, k, v)) && Entry(WithEntry(c, k, v), j) == if j == k then v else Entry(c, j)
  {
  }

  lemma ZeroEntry(j: nat)
    requires j < BLKWORDS
    ensures Full(Zeroed()) && Entry(Zeroed(), j) == 0
  {
  }

  // ------------------------------------------------------------ the tree

  /** The pointer in a slot; a block that is not there holds no pointers. */
  function EntryAt(d: Disk, b: nat, k: nat): nat
    requires k < BLKWORDS && forall i :: 0 <= i < |d| ==> Full(d[i])
  {
    if 0 < b < |d| then Entry(d[b], k) else 0
  }

  predicate Proper(d: Disk, ino: Inode) {
    |ino.direct| == NDIRECT && forall i :: 0 <= i < |d| ==> Full(d[i])
  }

  predicate OnDisk(d: Disk, ino: Inode) { Proper(d, ino) && ino.indirect < |d| && ino.indirect2 < |d| < TWO32 }

  function Ptr(d: Disk, ino: Inode, s: Slot): nat
    requires Proper(d, ino) && ValidSlot(s)
  {
    match s
    case Direct(k) => ino.direct[k]
    case Ind => ino.indirect
    case IndEntry(k) => EntryAt(d, ino.indirect, k)
    case Ind2 => ino.indirect2
    case Und(j) => EntryAt(d, ino.indirect2, j)
    case UndEntry(j, k) => EntryAt(d, EntryAt(d, ino.indirect2, j), k)
  }

  /** `ospfs_inode_blockno` of the kernel module, on a file that has block `n`. */
  function Lookup(d: Disk, ino: Inode, n: nat): nat
    requires Proper(d, ino) && n < MAXFILEBLKS
  {
    if n >= NDIRECT + NINDIRECT then
      var off := n - (NDIRECT + NINDIRECT);
      EntryAt(d, EntryAt(d, ino.indirect2, off / NINDIRECT), off % NINDIRECT)
    else if n >= NDIRECT then EntryAt(d, ino.indirect, n - NDIRECT)
    else ino.direct[n]
  }

  lemma LookupIsPtr(d: Disk, ino: Inode, n: nat)
    requires Proper(d, ino) && n < MAXFILEBLKS
    ensures Lookup(d, ino, n) == Ptr(d, ino, DataSlot(n))
  {
  }

  // ------------------------------------------------------------ storeblk

  /** `getblk(nextb++, 1, ...)`. */
  function Fresh(im: Image): Option<Image> {
    if im.nextb < |im.blocks| then Some(Image(im.blocks[im.nextb := Zeroed()], im.nextb + 1)) else None
  }

  function Poke(im: Image, b: nat, k: nat, v: nat): Image
    requires b < |im.blocks| && Full(im.blocks[b]) && k < BLKWORDS && v < TWO32
  {
    im.(blocks := im.blocks[b := WithEntry(im.blocks[b], k, v)])
  }

  /** The block with number `b` becomes file block `n`; nothing where the source
      aborts for want of blocks or because the file is too large. */
  function Store(im: Image, ino: Inode, b: nat, n: nat): (r: Option<(Image, Inode)>)
    requires OnDisk(im.blocks, ino) && b < TWO32
    ensures r.Some? ==>
        OnDisk(r.value.0.blocks, r.value.1) && |r.value.0.blocks| == |im.blocks| && im.nextb <= r.value.0.nextb
  {
    if n < NDIRECT then Some((im, ino.(direct := ino.direct[n := b])))
    else if n < NDIRECT + NINDIRECT then
      if ino.indirect == 0 then
        var i := im.nextb;
        var f := Fresh(im);
        if f.None? then None else Some((Poke(f.value, i, n - NDIRECT, b), ino.(indirect := i)))
      else Some((Poke(im, ino.indirect, n - NDIRECT, b), ino))
    else if n < MAXFILEBLKS then
      if ino.indirect2 == 0 then
        var i2 := im.nextb;
        var f := Fresh(im);
        if f.None? then None else
        StoreUnder(f.value, ino.(indirect2 := i2), b, n - NDIRECT - NINDIRECT)
      else StoreUnder(im, ino, b, n - NDIRECT - NINDIRECT)
    else None
  }

  /** `nblk` counted from the first block under the doubly indirect block. */
  function StoreUnder(im: Image, ino: Inode, b: nat, n: nat): (r: Option<(Image, Inode)>)
    requires OnDisk(im.blocks, ino) && b < TWO32 && n < NINDIRECT * NINDIRECT
    ensures r.Some? ==>
        OnDisk(r.value.0.blocks, r.value.1) && |r.value.0.blocks| == |im.blocks| && im.nextb <= r.value.0.nextb
  {
    var i2 := ino.indirect2;
    var (j, k) := (n / NINDIRECT, n % NINDIRECT);
    var u := Entry(im.blocks[i2], j);
    if u == 0 then
      var i := im.nextb;
      var f := Fresh(im);
      if f.None? then None else Some((Poke(Poke(f.value, i2, j, i), i, k, b), ino))
    else if u < |im.blocks| then Some((Poke(im, u, k, b), ino))
    else None
  }

  // ------------------------------------------------------------ what is built

  /** The inode is the tree of exactly the file blocks `bs`: every slot that a
      file of that length needs is filled and no other, with blocks from `lo` up
      to `nextb`, none of them twice. */
  ghost predicate Built(im: Image, ino: Inode, lo: nat, bs: seq<nat>) {
    && Proper(im.blocks, ino) && 0 < lo <= im.nextb <= |im.blocks| < TWO32 && |bs| <= MAXFILEBLKS
    && (forall s :: ValidSlot(s) ==> (Ptr(im.blocks, ino, s) != 0 <==> Needed(s, |bs|)))
    && (forall s :: Needed(s, |bs|) ==> lo <= Ptr(im.blocks, ino, s) < im.nextb)
    && (forall s, r :: Needed(s, |bs|) && Needed(r, |bs|) && Ptr(im.blocks, ino, s) == Ptr(im.blocks, ino, r) ==>
      s == r)
    && (forall k: nat :: k < |bs| ==> Ptr(im.blocks, ino, DataSlot(k)) == bs[k])
  }

  /** The blocks in which the tree keeps pointers. */
  ghost predicate Holds(im: Image, ino: Inode, n: nat, b: nat)
    requires Proper(im.blocks, ino)
  {
    exists s :: Needed(s, n) && !IsData(s) && Ptr(im.blocks, ino, s) == b
  }

  lemma NothingBuilt(im: Image, lo: nat)
    requires Proper(im.blocks, EmptyInode()) && 0 < lo <= im.nextb <= |im.blocks| < TWO32
    ensures Built(im, EmptyInode(), lo, [])
  {
  }

  /** A slot that file block `n` needs and the blocks before it do not. */
  predicate New(s: Slot, n: nat) { Needed(s, n + 1) && !Needed(s, n) }

  /** What `storeblk` puts into the slots that are new. */
  function NewPtr(s: Slot, b: nat, n: nat, nextb: nat): nat {
    if IsData(s) then b else if s.Und? && n == NDIRECT + NINDIRECT then nextb + 1 else nextb
  }

  function Taken(n: nat): nat {
    if n == NDIRECT then 1
    else if n == NDIRECT + NINDIRECT then 2
    else if n > NDIRECT + NINDIRECT && (n - NDIRECT - NINDIRECT) % NINDIRECT == 0 then 1 else 0
  }

  lemma NewSlots(s: Slot, n: nat)
    requires n < MAXFILEBLKS
    ensures New(s, n) <==>
      || s == DataSlot(n)
      || (s == Ind && n == NDIRECT)
      || (s == Ind2 && n == NDIRECT + NINDIRECT)
      || (n >= NDIRECT + NINDIRECT && (n - NDIRECT - NINDIRECT) % NINDIRECT == 0
        && s == Und((n - NDIRECT - NINDIRECT) / NINDIRECT))
  {
    if n >= NDIRECT + NINDIRECT {
      var off := n - NDIRECT - NINDIRECT;
      var (j, k) := (off / NINDIRECT, off % NINDIRECT);
      assert off == NINDIRECT * j + k;
    }
  }

  /** `b` is a block the tree does not have yet. */
  ghost predicate Unused(im: Image, ino: Inode, lo: nat, bs: seq<nat>, b: nat)
    requires Proper(im.blocks, ino)
  {
    lo <= b < im.nextb && forall s :: Needed(s, |bs|) ==> Ptr(im.blocks, ino, s) != b
  }

  /** Only slots that are new change. */
  ghost predicate Extended(im: Image, ino: Inode, im': Image, ino': Inode, b: nat, n: nat) {
    && Proper(im.blocks, ino) && Proper(im'.blocks, ino') && |im'.blocks| == |im.blocks|
    && im'.nextb == im.nextb + Taken(n) <= |im.blocks|
    && forall s :: ValidSlot(s) ==>
         Ptr(im'.blocks, ino', s) == if New(s, n) then NewPtr(s, b, n, im.nextb) else Ptr(im.blocks, ino, s)
  }

  lemma ExtendedDistinct(
      im: Image, ino: Inode, im': Image, ino': Inode, lo: nat, bs: seq<nat>, b: nat, s: Slot, r: Slot)
    requires Built(im, ino, lo, bs) && Unused(im, ino, lo, bs, b) && |bs| < MAXFILEBLKS
    requires Extended(im, ino, im', ino', b, |bs|)
    requires Needed(s, |bs| + 1) && Needed(r, |bs| + 1) && Ptr(im'.blocks, ino', s) == Ptr(im'.blocks, ino', r)
    ensures s == r
  {
    hide Ptr, Proper, NewPtr, Taken;
    NewDistinct(b, |bs|, im.nextb);
  }

  lemma ExtendedRange(im: Image, ino: Inode, im': Image, ino': Inode, lo: nat, bs: seq<nat>, b: nat, s: Slot)
    requires Built(im, ino, lo, bs) && Unused(im, ino, lo, bs, b) && |bs| < MAXFILEBLKS
    requires Extended(im, ino, im', ino', b, |bs|) && ValidSlot(s)
    ensures Ptr(im'.blocks, ino', s) != 0 <==> Needed(s, |bs| + 1)
    ensures Needed(s, |bs| + 1) ==> lo <= Ptr(im'.blocks, ino', s) < im'.nextb
  {
    hide Ptr, Proper;
    NewSlots(s, |bs|);
  }

  lemma ExtendedList(im: Image, ino: Inode, im': Image, ino': Inode, lo: nat, bs: seq<nat>, b: nat, k: nat)
    requires Built(im, ino, lo, bs) && |bs| < MAXFILEBLKS && k <= |bs|
    requires Extended(im, ino, im', ino', b, |bs|)
    ensures Ptr(im'.blocks, ino', DataSlot(k)) == (bs + [b])[k]
  {
    hide Ptr, Proper;
    NewSlots(DataSlot(k), |bs|);
    SlotIndexOfDataSlot(k);
    SlotIndexOfDataSlot(|bs|);
  }

  /** The new slots get distinct blocks, so the longer list is built. */
  lemma BuiltLonger(im: Image, ino: Inode, im': Image, ino': Inode, lo: nat, bs: seq<nat>, b: nat)
    requires Built(im, ino, lo, bs) && Unused(im, ino, lo, bs, b) && |bs| < MAXFILEBLKS
    requires Extended(im, ino, im', ino', b, |bs|)
    ensures Built(im', ino', lo, bs + [b])
  {
    hide Ptr, New, NewPtr, Taken;
    forall s | ValidSlot(s)
      ensures Ptr(im'.blocks, ino', s) != 0 <==> Needed(s, |bs| + 1)
      ensures Needed(s, |bs| + 1) ==> lo <= Ptr(im'.blocks, ino', s) < im'.nextb
    {
      ExtendedRange(im, ino, im', ino', lo, bs, b, s);
    }
    forall s, r | Needed(s, |bs| + 1) && Needed(r, |bs| + 1) && Ptr(im'.blocks, ino', s) == Ptr(im'.blocks, ino', r)
      ensures s == r
    {
      ExtendedDistinct(im, ino, im', ino', lo, bs, b, s, r);
    }
    forall k: nat | k < |bs| + 1 ensures Ptr(im'.blocks, ino', DataSlot(k)) == (bs + [b])[k] {
      ExtendedList(im, ino, im', ino', lo, bs, b, k);
    }
  }

  lemma NewDistinct(b: nat, n: nat, nextb: nat)
    requires b < nextb && n < MAXFILEBLKS
    ensures forall s, r :: New(s, n) && New(r, n) && NewPtr(s, b, n, nextb) == NewPtr(r, b, n, nextb) ==> s == r
    ensures forall s :: New(s, n) ==> NewPtr(s, b, n, nextb) == b || nextb <= NewPtr(s, b, n, nextb)
  {
    forall s, r | New(s, n) && New(r, n) && NewPtr(s, b, n, nextb) == NewPtr(r, b, n, nextb) ensures s == r {
      NewSlots(s, n);
      NewSlots(r, n);
    }
  }

  // ------------------------------------------------------------ storeblk builds it

  /** The pointer blocks are distinct and all used already. */
  ghost predicate Apart(d: Disk, ino: Inode, nextb: nat)
    requires Proper(d, ino)
  {
    && ino.indirect < nextb && ino.indirect2 < nextb <= |d| < TWO32
    && (ino.indirect == ino.indirect2 ==> ino.indirect == 0)
    && (forall j: nat :: j < NINDIRECT && EntryAt(d, ino.indirect2, j) != 0 ==>
          var u := EntryAt(d, ino.indirect2, j); u < nextb && u != ino.indirect && u != ino.indirect2)
    && (forall i: nat, j: nat :: i < j < NINDIRECT && EntryAt(d, ino.indirect2, i) == EntryAt(d, ino.indirect2, j) ==>
          EntryAt(d, ino.indirect2, i) == 0)
  }

  lemma BuiltApart(im: Image, ino: Inode, lo: nat, bs: seq<nat>)
    requires Built(im, ino, lo, bs)
    ensures Apart(im.blocks, ino, im.nextb)
  {
    var d := im.blocks;
    assert ValidSlot(Ind) && ValidSlot(Ind2);
    assert ino.indirect == Ptr(d, ino, Ind) && ino.indirect2 == Ptr(d, ino, Ind2);
    forall j: nat | j < NINDIRECT && EntryAt(d, ino.indirect2, j) != 0
      ensures var u := EntryAt(d, ino.indirect2, j); u < im.nextb && u != ino.indirect && u != ino.indirect2
    {
      assert ValidSlot(Und(j)) && Ptr(d, ino, Und(j)) == EntryAt(d, ino.indirect2, j);
      assert Needed(Und(j), |bs|);
    }
    forall i: nat, j: nat | i < j < NINDIRECT && EntryAt(d, ino.indirect2, i) == EntryAt(d, ino.indirect2, j)
      ensures EntryAt(d, ino.indirect2, i) == 0
    {
      assert ValidSlot(Und(i)) && Ptr(d, ino, Und(i)) == EntryAt(d, ino.indirect2, i);
      assert ValidSlot(Und(j)) && Ptr(d, ino, Und(j)) == EntryAt(d, ino.indirect2, j);
    }
  }

  /** A fresh block is all zeros and disturbs nobody. */
  lemma FreshIs(im: Image, b: nat, k: nat)
    requires Fresh(im).Some? && k < BLKWORDS && forall i :: 0 <= i < |im.blocks| ==> Full(im.blocks[i])
    ensures var f := Fresh(im).value;
      && |f.blocks| == |im.blocks| && f.nextb == im.nextb + 1
      && (forall i :: 0 <= i < |f.blocks| ==> Full(f.blocks[i]))
      && EntryAt(f.blocks, b, k) == if b == im.nextb then 0 else EntryAt(im.blocks, b, k)
  {
    ZeroEntry(k);
  }

  lemma PokeIs(im: Image, b: nat, k: nat, v: nat, c: nat, j: nat)
    requires 0 < b < |im.blocks| && k < BLKWORDS && v < TWO32 && j < BLKWORDS
    requires forall i :: 0 <= i < |im.blocks| ==> Full(im.blocks[i])
    ensures var p := Poke(im, b, k, v);
      && |p.blocks| == |im.blocks| && p.nextb == im.nextb
      && (forall i :: 0 <= i < |p.blocks| ==> Full(p.blocks[i]))
      && EntryAt(p.blocks, c, j) == if c == b && j == k then v else EntryAt(im.blocks, c, j)
  {
    EntryWritten(im.blocks[b], k, v, j);
  }

  lemma PokeProper(im: Image, b: nat, k: nat, v: nat)
    requires 0 < b < |im.blocks| && k < BLKWORDS && v < TWO32
    requires forall i :: 0 <= i < |im.blocks| ==> Full(im.blocks[i])
    ensures var p := Poke(im, b, k, v);
      |p.blocks| == |im.blocks| && p.nextb == im.nextb && forall i :: 0 <= i < |p.blocks| ==> Full(p.blocks[i])
  {
    PokeIs(im, b, k, v, b, k);
  }

  /** A block under the doubly indirect one: one slot gets it, and the indirect
      block above it is made when it is missing. */
  lemma UnderPtrs(im: Image, ino: Inode, b: nat, off: nat, s: Slot)
    requires Proper(im.blocks, ino) && Apart(im.blocks, ino, im.nextb) && ino.indirect2 != 0
    requires b < TWO32 && off < NINDIRECT * NINDIRECT && ValidSlot(s)
    requires StoreUnder(im, ino, b, off).Some?
    ensures var (im', ino') := StoreUnder(im, ino, b, off).value;
      var (j, k) := (off / NINDIRECT, off % NINDIRECT);
      var made := EntryAt(im.blocks, ino.indirect2, j) == 0;
      && Proper(im'.blocks, ino') && |im'.blocks| == |im.blocks|
      && im'.nextb == im.nextb + (if made then 1 else 0) <= |im.blocks|
      && Ptr(im'.blocks, ino', s) ==
         if s == UndEntry(j, k) then b else if s == Und(j) && made then im.nextb else Ptr(im.blocks, ino, s)
  {
    hide Poke, Fresh, Full, Entry, EntryAt;
    var d := im.blocks;
    var i2 := ino.indirect2;
    var (j, k) := (off / NINDIRECT, off % NINDIRECT);
    var u := EntryAt(d, i2, j);
    assert u == Entry(d[i2], j) by { EntryAtIs(d, i2, j); }
    if u == 0 {
      var i := im.nextb;
      FreshFull(im);
      var f := Fresh(im).value;
      PokeProper(f, i2, j, i);
      var p := Poke(f, i2, j, i);
      PokeProper(p, i, k, b);
      var q := Poke(p, i, k, b);
      forall c: nat, e: nat | e < BLKWORDS
        ensures EntryAt(q.blocks, c, e) ==
          if c == i then (if e == k then b else 0) else if c == i2 && e == j then i else EntryAt(d, c, e)
      {
        FreshIs(im, c, e);
        PokeIs(f, i2, j, i, c, e);
        PokeIs(p, i, k, b, c, e);
      }
      EntryOfZero(d);
    } else {
      PokeProper(im, u, k, b);
      forall c: nat, e: nat | e < BLKWORDS
        ensures EntryAt(Poke(im, u, k, b).blocks, c, e) == if c == u && e == k then b else EntryAt(d, c, e)
      {
        PokeIs(im, u, k, b, c, e);
      }
    }
  }

  lemma EntryAtIs(d: Disk, b: nat, k: nat)
    requires 0 < b < |d| && k < BLKWORDS && forall i :: 0 <= i < |d| ==> Full(d[i])
    ensures EntryAt(d, b, k) == Entry(d[b], k)
  {
  }

  lemma EntryOfZero(d: Disk)
    requires forall i :: 0 <= i < |d| ==> Full(d[i])
    ensures forall k: nat :: k < BLKWORDS ==> EntryAt(d, 0, k) == 0
  {
  }

  lemma FreshFull(im: Image)
    requires Fresh(im).Some? && forall i :: 0 <= i < |im.blocks| ==> Full(im.blocks[i])
    ensures var f := Fresh(im).value;
      && |f.blocks| == |im.blocks| && f.nextb == im.nextb + 1 && im.nextb < |im.blocks|
      && forall i :: 0 <= i < |f.blocks| ==> Full(f.blocks[i])
  {
    FreshIs(im, 0, 0);
  }

  lemma DirectExtends(im: Image, ino: Inode, b: nat, n: nat)
    requires Proper(im.blocks, ino) && im.nextb <= |im.blocks| < TWO32 && n < NDIRECT
    ensures Extended(im, ino, im, ino.(direct := ino.direct[n := b]), b, n)
  {
    forall s | ValidSlot(s)
      ensures Ptr(im.blocks, ino.(direct := ino.direct[n := b]), s)
           == if New(s, n) then NewPtr(s, b, n, im.nextb) else Ptr(im.blocks, ino, s)
    {
      NewSlots(s, n);
    }
  }

  /** Nothing hangs under a doubly indirect block that is not there. */
  lemma NoIndirect2(d: Disk, ino: Inode, s: Slot)
    requires Proper(d, ino) && ino.indirect2 == 0 && ValidSlot(s)
    ensures s.Und? || s.UndEntry? ==> Ptr(d, ino, s) == 0
  {
  }

  lemma IndirectExtends(im: Image, ino: Inode, b: nat, n: nat)
    requires Proper(im.blocks, ino) && Apart(im.blocks, ino, im.nextb) && b < TWO32
    requires NDIRECT <= n < NDIRECT + NINDIRECT && (ino.indirect == 0 <==> n == NDIRECT) && ino.indirect2 == 0
    requires Store(im, ino, b, n).Some?
    ensures Extended(im, ino, Store(im, ino, b, n).value.0, Store(im, ino, b, n).value.1, b, n)
  {
    hide Poke, Fresh, Full, Entry, EntryAt, Needed;
    var d := im.blocks;
    var (im', ino') := Store(im, ino, b, n).value;
    var k := n - NDIRECT;
    var i := ino'.indirect;
    EntryOfZero(d);
    IndirectFull(im, ino, b, n);
    EntryOfZero(im'.blocks);
    forall s | ValidSlot(s)
      ensures Ptr(im'.blocks, ino', s) == if New(s, n) then NewPtr(s, b, n, im.nextb) else Ptr(im.blocks, ino, s)
    {
      NewSlots(s, n);
      if s.IndEntry? {
        if ino.indirect == 0 {
          FreshIs(im, i, s.k);
          PokeIs(Fresh(im).value, i, k, b, i, s.k);
        } else {
          PokeIs(im, i, k, b, i, s.k);
        }
      } else if s.Und? || s.UndEntry? {
        NoIndirect2(d, ino, s);
        NoIndirect2(im'.blocks, ino', s);
      }
    }
  }

  lemma IndirectFull(im: Image, ino: Inode, b: nat, n: nat)
    requires Proper(im.blocks, ino) && Apart(im.blocks, ino, im.nextb) && b < TWO32
    requires NDIRECT <= n < NDIRECT + NINDIRECT && Store(im, ino, b, n).Some?
    ensures Proper(Store(im, ino, b, n).value.0.blocks, Store(im, ino, b, n).value.1)
    ensures var im' := Store(im, ino, b, n).value.0;
      |im'.blocks| == |im.blocks| && im'.nextb == im.nextb + (if ino.indirect == 0 then 1 else 0) <= |im.blocks|
  {
    hide Poke, Fresh, Full;
    if ino.indirect == 0 {
      FreshFull(im);
      PokeProper(Fresh(im).value, im.nextb, n - NDIRECT, b);
    } else {
      PokeProper(im, ino.indirect, n - NDIRECT, b);
    }
  }

  /** With the doubly indirect block just made, everything else looks the same. */
  lemma Indirect2Made(im: Image, ino: Inode, s: Slot)
    requires Proper(im.blocks, ino) && Apart(im.blocks, ino, im.nextb)
    requires ino.indirect2 == 0 && Fresh(im).Some? && im.nextb > 0
    requires ValidSlot(s)
    ensures var f := Fresh(im).value;
      var ino' := ino.(indirect2 := im.nextb);
      && Proper(f.blocks, ino') && Apart(f.blocks, ino', f.nextb)
      && Ptr(f.blocks, ino', s) == if s == Ind2 then im.nextb else Ptr(im.blocks, ino, s)
  {
    hide Fresh, Full, EntryAt;
    var f := Fresh(im).value;
    FreshFull(im);
    forall c: nat, e: nat | e < BLKWORDS
      ensures EntryAt(f.blocks, c, e) == if c == im.nextb then 0 else EntryAt(im.blocks, c, e)
    {
      FreshIs(im, c, e);
    }
    EntryOfZero(im.blocks);
    EntryOfZero(f.blocks);
  }

  lemma UnderExtends(im: Image, ino: Inode, b: nat, n: nat)
    requires Proper(im.blocks, ino) && Apart(im.blocks, ino, im.nextb) && b < TWO32 && im.nextb > 0
    requires NDIRECT + NINDIRECT <= n < MAXFILEBLKS && (ino.indirect2 == 0 <==> n == NDIRECT + NINDIRECT)
    requires var off := n - NDIRECT - NINDIRECT;
      EntryAt(im.blocks, ino.indirect2, off / NINDIRECT) == 0 <==> off % NINDIRECT == 0
    requires Store(im, ino, b, n).Some?
    ensures Extended(im, ino, Store(im, ino, b, n).value.0, Store(im, ino, b, n).value.1, b, n)
  {
    hide Fresh, Full, EntryAt, StoreUnder, Ptr, Needed;
    var off := n - NDIRECT - NINDIRECT;
    var (im', ino') := Store(im, ino, b, n).value;
    if ino.indirect2 == 0 {
      FreshFull(im);
      var f := Fresh(im).value;
      var ino2 := ino.(indirect2 := im.nextb);
      Indirect2Made(im, ino, Ind);
      assert EntryAt(f.blocks, im.nextb, 0) == 0 by { FreshIs(im, im.nextb, 0); }
      UnderPtrs(f, ino2, b, 0, Ind);
      forall s | ValidSlot(s)
        ensures Ptr(im'.blocks, ino', s) == if New(s, n) then NewPtr(s, b, n, im.nextb) else Ptr(im.blocks, ino, s)
      {
        NewSlots(s, n);
        Indirect2Made(im, ino, s);
        UnderPtrs(f, ino2, b, 0, s);
      }
    } else {
      UnderPtrs(im, ino, b, off, Ind);
      forall s | ValidSlot(s)
        ensures Ptr(im'.blocks, ino', s) == if New(s, n) then NewPtr(s, b, n, im.nextb) else Ptr(im.blocks, ino, s)
      {
        NewSlots(s, n);
        UnderPtrs(im, ino, b, off, s);
      }
    }
  }

  /** `storeblk` fills the slots that the next block needs, and no other. */
  lemma StoreExtends(im: Image, ino: Inode, lo: nat, bs: seq<nat>, b: nat)
    requires Built(im, ino, lo, bs) && Unused(im, ino, lo, bs, b) && |bs| < MAXFILEBLKS
    requires Apart(im.blocks, ino, im.nextb) && Store(im, ino, b, |bs|).Some?
    ensures Extended(im, ino, Store(im, ino, b, |bs|).value.0, Store(im, ino, b, |bs|).value.1, b, |bs|)
  {
    var n := |bs|;
    assert (ino.indirect == 0 <==> n <= NDIRECT) && (ino.indirect2 == 0 <==> n <= NDIRECT + NINDIRECT) by {
      assert ino.indirect == Ptr(im.blocks, ino, Ind) && ino.indirect2 == Ptr(im.blocks, ino, Ind2);
      assert ValidSlot(Ind) && ValidSlot(Ind2);
    }
    if n < NDIRECT {
      DirectExtends(im, ino, b, n);
    } else if n < NDIRECT + NINDIRECT {
      hide Built, Store;
      IndirectExtends(im, ino, b, n);
    } else {
      var off := n - NDIRECT - NINDIRECT;
      assert EntryAt(im.blocks, ino.indirect2, off / NINDIRECT) == 0 <==> off % NINDIRECT == 0 by {
        var s := Und(off / NINDIRECT);
        assert ValidSlot(s) && Ptr(im.blocks, ino, s) == EntryAt(im.blocks, ino.indirect2, off / NINDIRECT);
        assert off == NINDIRECT * (off / NINDIRECT) + off % NINDIRECT;
      }
      assert im.nextb > 0;
      hide Built, Store;
      UnderExtends(im, ino, b, n);
    }
  }

  /** `storeblk` in its place makes the tree one block longer. */
  lemma StoreBuilds(im: Image, ino: Inode, lo: nat, bs: seq<nat>, b: nat)
    requires Built(im, ino, lo, bs) && Unused(im, ino, lo, bs, b) && |bs| < MAXFILEBLKS
    requires Apart(im.blocks, ino, im.nextb) && Store(im, ino, b, |bs|).Some?
    ensures Built(Store(im, ino, b, |bs|).value.0, Store(im, ino, b, |bs|).value.1, lo, bs + [b])
  {
    StoreExtends(im, ino, lo, bs, b);
    hide Built, Store;
    BuiltLonger(im, ino, Store(im, ino, b, |bs|).value.0, Store(im, ino, b, |bs|).value.1, lo, bs, b);
  }

  // ------------------------------------------------------------ what stays as it was

  /** `storeblk` writes into pointer blocks of its own inode and into new ones. */
  lemma StoreFrame(im: Image, ino: Inode, b: nat, n: nat, c: nat)
    requires Proper(im.blocks, ino) && Apart(im.blocks, ino, im.nextb) && b < TWO32 && im.nextb > 0 && c < im.nextb
    requires c != ino.indirect && c != ino.indirect2 && forall j: nat :: j < NINDIRECT ==>
        c != EntryAt(im.blocks, ino.indirect2, j)
    requires Store(im, ino, b, n).Some?
    ensures var im' := Store(im, ino, b, n).value.0;
      |im'.blocks| == |im.blocks| && im'.blocks[c] == im.blocks[c] && im.nextb <= im'.nextb
    ensures Store(im, ino, b, n).value.1.direct == ino.direct || n < NDIRECT
  {
    if n >= NDIRECT + NINDIRECT {
      var j := (n - NDIRECT - NINDIRECT) / NINDIRECT;
      assert ino.indirect2 != 0 ==> EntryAt(im.blocks, ino.indirect2, j) == Entry(im.blocks[ino.indirect2], j);
    }
  }

  // ------------------------------------------------------------ whole files

  /** The loop of `writefile`: the next block is taken and cleared before the read
      that may find the end of the file; a partly filled block is the last. */
  function WriteFrom(im: Image, ino: Inode, host: seq<Contents>, partial: bool, k: nat): Option<(Image, Inode)>
    requires OnDisk(im.blocks, ino) && k <= |host|
    requires forall i :: 0 <= i < |host| ==> Full(host[i])
    decreases |host| - k
  {
    if im.nextb >= |im.blocks| then None
    else if k == |host| then Some((im.(blocks := im.blocks[im.nextb := Zeroed()]), ino))
    else
      var st := Store(Image(im.blocks[im.nextb := host[k]], im.nextb + 1), ino, im.nextb, k);
      if st.None? then None
      else if partial && k == |host| - 1 then st
      else WriteFrom(st.value.0, st.value.1, host, partial, k + 1)
  }

  /** The first blocks of the file are in place. */
  ghost predicate Written(im: Image, ino: Inode, lo: nat, bs: seq<nat>, host: seq<Contents>) {
    Built(im, ino, lo, bs) && |bs| <= |host| && forall i :: 0 <= i < |bs| ==>
      bs[i] < |im.blocks| && im.blocks[bs[i]] == host[i]
  }

  /** Data in a block the tree does not use does not disturb the tree. */
  lemma UnusedData(im: Image, ino: Inode, lo: nat, bs: seq<nat>, data: Contents)
    requires Built(im, ino, lo, bs) && im.nextb < |im.blocks| && Full(data)
    ensures var im' := Image(im.blocks[im.nextb := data], im.nextb + 1);
      && Built(im', ino, lo, bs) && Unused(im', ino, lo, bs, im.nextb)
      && (forall s :: ValidSlot(s) ==> Ptr(im'.blocks, ino, s) == Ptr(im.blocks, ino, s))
    ensures Built(im.(blocks := im.blocks[im.nextb := data]), ino, lo, bs)
  {
    var d := im.blocks[im.nextb := data];
    assert Proper(d, ino);
    forall s | ValidSlot(s) ensures Ptr(d, ino, s) == Ptr(im.blocks, ino, s) {
      SamePtr(im, ino, lo, bs, data, s);
    }
    hide Ptr;
  }

  lemma SamePtr(im: Image, ino: Inode, lo: nat, bs: seq<nat>, data: Contents, s: Slot)
    requires Built(im, ino, lo, bs) && im.nextb < |im.blocks| && Full(data) && ValidSlot(s)
    requires Proper(im.blocks[im.nextb := data], ino)
    ensures Ptr(im.blocks[im.nextb := data], ino, s) == Ptr(im.blocks, ino, s)
  {
    BuiltApart(im, ino, lo, bs);
    hide Built;
  }

  /** A data block of the tree, like any block below it, is not a pointer block. */
  lemma NotPointer(im: Image, ino: Inode, lo: nat, bs: seq<nat>, c: nat)
    requires Built(im, ino, lo, bs) && c != 0 && (c < lo || c in bs)
    ensures c != ino.indirect && c != ino.indirect2 && forall j: nat :: j < NINDIRECT ==>
        c != EntryAt(im.blocks, ino.indirect2, j)
  {
    var d := im.blocks;
    var k := 0;
    if c in bs {
      k :| 0 <= k < |bs| && bs[k] == c;
      assert Needed(DataSlot(k), |bs|) by { SlotIndexOfDataSlot(k); }
    }
    forall s | ValidSlot(s) && !IsData(s) ensures Ptr(d, ino, s) != c {
      assert Needed(s, |bs|) || Ptr(d, ino, s) == 0;
    }
    assert ino.indirect == Ptr(d, ino, Ind) && ino.indirect2 == Ptr(d, ino, Ind2);
    assert ValidSlot(Ind) && ValidSlot(Ind2);
    forall j: nat | j < NINDIRECT ensures c != EntryAt(d, ino.indirect2, j) {
      assert ValidSlot(Und(j)) && EntryAt(d, ino.indirect2, j) == Ptr(d, ino, Und(j));
    }
  }

  /** Storing the block leaves alone the data of the file and all below it. */
  lemma StoreKeeps(im: Image, ino: Inode, lo: nat, bs: seq<nat>, b: nat, c: nat)
    requires Built(im, ino, lo, bs) && Unused(im, ino, lo, bs, b) && OnDisk(im.blocks, ino)
    requires Store(im, ino, b, |bs|).Some? && (0 < c < lo || c in bs || c == b)
    ensures c < |im.blocks| && c < |Store(im, ino, b, |bs|).value.0.blocks|
    ensures Store(im, ino, b, |bs|).value.0.blocks[c] == im.blocks[c]
  {
    BuiltBounds(im, ino, lo, bs);
    BuiltApart(im, ino, lo, bs);
    if c == b {
      BuiltLast(im, ino, lo, bs, b);
    } else {
      NotPointer(im, ino, lo, bs, c);
    }
    assert c < im.nextb;
    hide Built, Store, Unused, Ptr;
    StoreFrame(im, ino, b, |bs|, c);
  }

  /** One turn of the loop. */
  lemma WriteStep(
      im: Image, ino: Inode, lo: nat, bs: seq<nat>, host: seq<Contents>, im1: Image, im': Image, ino': Inode)
    requires Written(im, ino, lo, bs, host) && |bs| < |host| && |bs| < MAXFILEBLKS && im.nextb < |im.blocks|
    requires Full(host[|bs|]) && im1 == Image(im.blocks[im.nextb := host[|bs|]], im.nextb + 1)
    requires OnDisk(im1.blocks, ino)
    requires Store(im1, ino, im.nextb, |bs|) == Some((im', ino'))
    ensures Written(im', ino', lo, bs + [im.nextb], host)
    ensures |im'.blocks| == |im.blocks| && forall c :: 0 < c < lo ==> im'.blocks[c] == im.blocks[c]
  {
    hide Built, Store, Unused, Ptr, OnDisk, Full, ValidSlot, Apart;
    var b := im.nextb;
    BuiltBounds(im, ino, lo, bs);
    UnusedData(im, ino, lo, bs, host[|bs|]);
    BuiltApart(im1, ino, lo, bs);
    StoreBuilds(im1, ino, lo, bs, b);
    forall c | 0 < c < lo || c in bs || c == b
      ensures c < |im.blocks| == |im'.blocks| && im'.blocks[c] == im1.blocks[c]
    {
      StoreKeeps(im1, ino, lo, bs, b, c);
    }
    forall i | 0 <= i < |bs| ensures bs[i] < |im'.blocks| && im'.blocks[bs[i]] == host[i] {
      assert bs[i] in bs;
    }
  }

  lemma BuiltBounds(im: Image, ino: Inode, lo: nat, bs: seq<nat>)
    requires Built(im, ino, lo, bs)
    ensures 0 < lo <= im.nextb && forall i :: 0 <= i < |bs| ==> lo <= bs[i] < im.nextb
  {
    forall i | 0 <= i < |bs| ensures lo <= bs[i] < im.nextb {
      SlotIndexOfDataSlot(i);
      assert Needed(DataSlot(i), |bs|);
    }
  }

  lemma BuiltLast(im: Image, ino: Inode, lo: nat, bs: seq<nat>, b: nat)
    requires Built(im, ino, lo, bs) && Unused(im, ino, lo, bs, b)
    ensures b != 0 && b != ino.indirect && b != ino.indirect2 && forall j: nat :: j < NINDIRECT ==>
        b != EntryAt(im.blocks, ino.indirect2, j)
  {
    var d := im.blocks;
    forall s | ValidSlot(s) ensures Ptr(d, ino, s) != b {
      assert Needed(s, |bs|) || Ptr(d, ino, s) == 0;
    }
    assert ino.indirect == Ptr(d, ino, Ind) && ino.indirect2 == Ptr(d, ino, Ind2);
    assert ValidSlot(Ind) && ValidSlot(Ind2);
    forall j: nat | j < NINDIRECT ensures b != EntryAt(d, ino.indirect2, j) {
      assert ValidSlot(Und(j)) && EntryAt(d, ino.indirect2, j) == Ptr(d, ino, Und(j));
    }
  }

  lemma StoreInRange(im: Image, ino: Inode, b: nat, n: nat)
    requires OnDisk(im.blocks, ino) && b < TWO32 && Store(im, ino, b, n).Some?
    ensures n < MAXFILEBLKS
  {
  }

  /** A file written is a file found: the module's lookup leads from each file
      block to the host's bytes, in all three tiers; and blocks below the first
      one taken keep what they had. */
  lemma {:induction false} WriteBuilds(im: Image, ino: Inode, lo: nat, bs: seq<nat>, host: seq<Contents>, partial: bool)
    returns (all: seq<nat>)
    requires OnDisk(im.blocks, ino) && Written(im, ino, lo, bs, host) && forall i :: 0 <= i < |host| ==> Full(host[i])
    requires WriteFrom(im, ino, host, partial, |bs|).Some?
    ensures var st := WriteFrom(im, ino, host, partial, |bs|).value;
      && |all| == |host| && Written(st.0, st.1, lo, all, host)
      && |st.0.blocks| == |im.blocks| && (forall c :: 0 < c < lo ==> st.0.blocks[c] == im.blocks[c])
      && (forall n: nat :: n < |host| ==> all[n] < |st.0.blocks| && Lookup(st.0.blocks, st.1, n) == all[n])
    decreases |host| - |bs|
  {
    hide Built, Lookup, Full;
    var st := WriteFrom(im, ino, host, partial, |bs|).value;
    if |bs| == |host| {
      all := bs;
      WriteDone(im, ino, lo, bs, host);
    } else {
      StoreInRange(Image(im.blocks[im.nextb := host[|bs|]], im.nextb + 1), ino, im.nextb, |bs|);
      var im1 := Image(im.blocks[im.nextb := host[|bs|]], im.nextb + 1);
      var next := Store(im1, ino, im.nextb, |bs|).value;
      WriteStep(im, ino, lo, bs, host, im1, next.0, next.1);
      hide Store, Written;
      if partial && |bs| == |host| - 1 {
        all := bs + [im.nextb];
      } else {
        all := WriteBuilds(next.0, next.1, lo, bs + [im.nextb], host, partial);
      }
    }
    WrittenIsFound(st.0, st.1, lo, all, host);
  }

  lemma WrittenIsFound(im: Image, ino: Inode, lo: nat, bs: seq<nat>, host: seq<Contents>)
    requires Written(im, ino, lo, bs, host)
    ensures |bs| <= MAXFILEBLKS && Proper(im.blocks, ino)
    ensures forall n: nat :: n < |bs| ==> bs[n] < |im.blocks| && Lookup(im.blocks, ino, n) == bs[n]
  {
    hide Lookup;
    forall n: nat | n < |bs|
      ensures Lookup(im.blocks, ino, n) == bs[n]
    {
      LookupIsPtr(im.blocks, ino, n);
    }
  }

  /** After the last block. */
  lemma WriteDone(im: Image, ino: Inode, lo: nat, bs: seq<nat>, host: seq<Contents>)
    requires Written(im, ino, lo, bs, host) && im.nextb < |im.blocks|
    ensures Full(Zeroed())
    ensures Written(im.(blocks := im.blocks[im.nextb := Zeroed()]), ino, lo, bs, host)
    ensures forall c :: 0 < c < lo ==> im.blocks[im.nextb := Zeroed()][c] == im.blocks[c]
  {
    BuiltBounds(im, ino, lo, bs);
    ZeroEntry(0);
    UnusedData(im, ino, lo, bs, Zeroed());
    hide Built;
  }

  // ------------------------------------------------------------ when it fits

  /** `storeblk` fails for want of blocks and for files that are too large only. */
  lemma StoreFits(im: Image, ino: Inode, lo: nat, bs: seq<nat>, b: nat)
    requires Built(im, ino, lo, bs) && OnDisk(im.blocks, ino) && b < TWO32
    ensures Store(im, ino, b, |bs|).Some? <==> |bs| < MAXFILEBLKS && im.nextb + Taken(|bs|) <= |im.blocks|
  {
    var n := |bs|;
    BuiltApart(im, ino, lo, bs);
    assert (ino.indirect == 0 <==> n <= NDIRECT) && (ino.indirect2 == 0 <==> n <= NDIRECT + NINDIRECT) by {
      assert ino.indirect == Ptr(im.blocks, ino, Ind) && ino.indirect2 == Ptr(im.blocks, ino, Ind2);
      assert ValidSlot(Ind) && ValidSlot(Ind2);
    }
    if NDIRECT + NINDIRECT < n < MAXFILEBLKS {
      var off := n - NDIRECT - NINDIRECT;
      var s := Und(off / NINDIRECT);
      assert ValidSlot(s) && Ptr(im.blocks, ino, s) == EntryAt(im.blocks, ino.indirect2, off / NINDIRECT);
      assert off == NINDIRECT * (off / NINDIRECT) + off % NINDIRECT;
      assert EntryAt(im.blocks, ino.indirect2, off / NINDIRECT) == 0 <==> off % NINDIRECT == 0;
    }
    if n == NDIRECT + NINDIRECT && im.nextb < |im.blocks| {
      ZeroEntry(0);
    }
    hide Built;
  }

  /** The blocks that the file blocks from `a` up to `n` take, with the pointer blocks
      above them. */
  function Cost(a: nat, n: nat): nat
    decreases n - a
  {
    if a >= n then 0 else 1 + Taken(a) + Cost(a + 1, n)
  }

  lemma TurnFits(im: Image, ino: Inode, lo: nat, bs: seq<nat>, data: Contents)
    requires OnDisk(im.blocks, ino) && Built(im, ino, lo, bs) && Full(data) && im.nextb < |im.blocks|
    ensures var im1 := Image(im.blocks[im.nextb := data], im.nextb + 1);
      && OnDisk(im1.blocks, ino) && im.nextb < TWO32
      && var st := Store(im1, ino, im.nextb, |bs|);
         && (st.Some? <==> |bs| < MAXFILEBLKS && im1.nextb + Taken(|bs|) <= |im.blocks|)
         && (st.Some? ==>
               && Built(st.value.0, st.value.1, lo, bs + [im.nextb])
               && st.value.0.nextb == im1.nextb + Taken(|bs|) && |st.value.0.blocks| == |im.blocks|)
  {
    var im1 := Image(im.blocks[im.nextb := data], im.nextb + 1);
    UnusedData(im, ino, lo, bs, data);
    BuiltApart(im1, ino, lo, bs);
    StoreFits(im1, ino, lo, bs, im.nextb);
    hide Store, Built, Unused, Apart, Ptr, New, NewPtr, Taken;
    if Store(im1, ino, im.nextb, |bs|).Some? {
      StoreExtends(im1, ino, lo, bs, im.nextb);
      StoreBuilds(im1, ino, lo, bs, im.nextb);
    }
  }

  /** Writing the rest of a file succeeds exactly when the file is not too large and
      there are blocks for it, and one more unless its last block is partly filled:
      that one is taken before the end is seen. */
  lemma {:induction false} WriteFits(
      im: Image, ino: Inode, lo: nat, bs: seq<nat>, host: seq<Contents>, partial: bool)
    requires OnDisk(im.blocks, ino) && Built(im, ino, lo, bs) && |bs| <= |host|
    requires forall i :: 0 <= i < |host| ==> Full(host[i])
    ensures WriteFrom(im, ino, host, partial, |bs|).Some?
       <==> |host| <= MAXFILEBLKS
            && im.nextb + Cost(|bs|, |host|) + (if partial && |bs| < |host| then 0 else 1) <= |im.blocks|
    ensures var r := WriteFrom(im, ino, host, partial, |bs|);
            r.Some? ==> r.value.0.nextb == im.nextb + Cost(|bs|, |host|)
    decreases |host| - |bs|
  {
    var n := |bs|;
    BuiltFits(im, ino, lo, bs);
    hide Store, Built, Taken, OnDisk, Full;
    if n < |host| && im.nextb < |im.blocks| {
      TurnFits(im, ino, lo, bs, host[n]);
      var st := Store(Image(im.blocks[im.nextb := host[n]], im.nextb + 1), ino, im.nextb, n);
      if st.Some? && !(partial && n == |host| - 1) {
        WriteFits(st.value.0, st.value.1, lo, bs + [im.nextb], host, partial);
      }
    }
  }

  lemma BuiltFits(im: Image, ino: Inode, lo: nat, bs: seq<nat>)
    requires Built(im, ino, lo, bs)
    ensures |bs| <= MAXFILEBLKS
  {
  }
}
