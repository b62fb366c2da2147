/** A formatted image as the kernel module sees it: the trees that the formatter
    built, read through the module's own look-ups, are a volume in order. */
module FormatVolume {
  import opened Common
  import opened OspfsLayout
  import opened OspfsVolume
  import opened FormatFiles
  import D = OspfsDisk
  import M = OspfsModule
  import F = OspfsFile
  import G = OspfsCount
  import C = FormatCache
  import T = FormatTree
  import I = FormatImage

  // ------------------------------------------------------- words and bytes

  /** A block of the module's byte disk, as the formatter's words. */
  function WordsOf(b: D.Block): (c: C.Contents)
    ensures T.Full(c)
  {
    C.Contents(seq(NINDIRECT, k requires 0 <= k < NINDIRECT => D.Word(b, k)))
  }

  function AsWords(disk: seq<D.Block>): (d: T.Disk)
    ensures |d| == |disk| && forall b :: 0 <= b < |d| ==> d[b] == WordsOf(disk[b])
  {
    seq(|disk|, b requires 0 <= b < |disk| => WordsOf(disk[b]))
  }

  function ByteOf(c: C.Contents, i: nat): D.Byte
    requires T.Full(c) && i < BLKSIZE
  {
    D.Bytes(c.words[i / 4])[i % 4]
  }

  function BytesOf(c: C.Contents): D.Block
    requires T.Full(c)
  {
    seq(BLKSIZE, i requires 0 <= i < BLKSIZE => ByteOf(c, i))
  }

  lemma ByteInWord(c: C.Contents, k: nat, e: nat)
    requires T.Full(c) && k < NINDIRECT && e < 4
    ensures ByteOf(c, 4 * k + e) == D.Bytes(c.words[k])[e]
  {
    Quotient(4 * k + e, 4, k, e);
  }

  lemma WordOfBytes(c: C.Contents, k: nat)
    requires T.Full(c) && k < NINDIRECT
    ensures D.Word(BytesOf(c), k) == c.words[k]
  {
    hide D.Bytes, D.FromBytes, ByteOf;
    ByteInWord(c, k, 0);
    ByteInWord(c, k, 1);
    ByteInWord(c, k, 2);
    ByteInWord(c, k, 3);
  }

  lemma WordsOfBytes(c: C.Contents)
    requires T.Full(c)
    ensures WordsOf(BytesOf(c)) == c
  {
    hide D.Word, BytesOf;
    forall k: nat | k < NINDIRECT
      ensures D.Word(BytesOf(c), k) == c.words[k]
    {
      WordOfBytes(c, k);
    }
    assert WordsOf(BytesOf(c)).words == c.words;
  }

  ghost predicate AllFull(d: T.Disk) {
    forall b :: 0 <= b < |d| ==> T.Full(d[b])
  }

  /** The image as bytes. */
  ghost function BytesDisk(d: T.Disk): (disk: seq<D.Block>)
    requires AllFull(d)
    ensures |disk| == |d| && AsWords(disk) == d
  {
    var disk := seq(|d|, b requires 0 <= b < |d| => BytesOf(d[b]));
    assert AsWords(disk) == d by {
      forall b | 0 <= b < |d|
        ensures AsWords(disk)[b] == d[b]
      {
        WordsOfBytes(d[b]);
      }
    }
    disk
  }

  // ------------------------------------------------------- the two look-ups

  /** The same pointers in the formatter's inode and in the module's. */
  predicate SameInode(ino: T.Inode, kino: D.Inode) {
    && D.ValidInode(kino) && |ino.direct| == NDIRECT
    && (forall k :: 0 <= k < NDIRECT ==> ino.direct[k] == kino.direct[k])
    && ino.indirect == kino.indirect && ino.indirect2 == kino.indirect2
  }

  lemma PointersAgree(ino: T.Inode, kino: D.Inode, disk: seq<D.Block>, s: Slot)
    requires SameInode(ino, kino) && ValidSlot(s)
    ensures T.Proper(AsWords(disk), ino) && T.Ptr(AsWords(disk), ino, s) == D.PtrAt(kino, disk, s)
  {
    var d := AsWords(disk);
    forall b: nat, k: nat | k < NINDIRECT
      ensures T.EntryAt(d, b, k) == D.WordAt(disk, b, k)
    {
    }
  }

  /** The formatter's account of `ospfs_inode_blockno` is the module's: both find
      the same block for every offset inside the file. */
  lemma LookupsAgree(ino: T.Inode, kino: D.Inode, disk: seq<D.Block>, offset: uint32)
    requires SameInode(ino, kino) && F.PointersInRange(kino, disk) && kino.size <= MAXFILEBLKS * BLKSIZE
    requires offset < kino.size && !kino.ftype.Symlink?
    ensures T.Proper(AsWords(disk), ino)
    ensures F.InodeBlockno(kino, disk, offset) == T.Lookup(AsWords(disk), ino, offset / BLKSIZE)
  {
    PointersAgree(ino, kino, disk, DataSlot(offset / BLKSIZE));
    T.LookupIsPtr(AsWords(disk), ino, offset / BLKSIZE);
  }

  // ------------------------------------------------------- the volume

  ghost predicate HasBitmap(d: T.Disk) {
    I.HasMap(d, I.BitBlocks(|d|))
  }

  /** The blocks that the bitmap calls free. */
  ghost function FreeOf(d: T.Disk): (free: set<nat>)
    requires HasBitmap(d)
    ensures forall b: nat :: b in free <==> b < |d| && I.MapBit(d, b)
  {
    set b: nat | b < |d| && I.MapBit(d, b)
  }

  ghost function KernelVolume(d: T.Disk, inodes: seq<D.Inode>): Volume
    requires AllFull(d) && HasBitmap(d) && M.ValidInodes(inodes)
  {
    Volume(FreeOf(d), M.FilesOf(inodes, BytesDisk(d)))
  }

  /** The inode table describes the trees: the same pointers, a size that fits the
      number of blocks, and nothing in the trees of symbolic links. */
  ghost predicate Describes(inodes: seq<D.Inode>, inos: seq<T.Inode>, lens: seq<nat>) {
    && |inodes| == |inos| == |lens| && M.ValidInodes(inodes)
    && forall k :: 0 <= k < |inodes| ==>
         && SameInode(inos[k], inodes[k])
         && (if inodes[k].ftype.Symlink? then lens[k] == 0 else Size2NBlocks(inodes[k].size) == lens[k])
  }

  function Lens(bss: seq<seq<nat>>): (lens: seq<nat>)
    ensures |lens| == |bss| && forall k :: 0 <= k < |bss| ==> lens[k] == |bss[k]|
  {
    seq(|bss|, k requires 0 <= k < |bss| => |bss[k]|)
  }

  lemma FilePtrs(
      d: T.Disk, inodes: seq<D.Inode>, im: T.Image, first: nat, inos: seq<T.Inode>, bss: seq<seq<nat>>, k: nat,
      s: Slot)
    requires AllFull(d) && HasBitmap(d) && d == im.blocks
    requires Trees(im, first, inos, bss) && Describes(inodes, inos, Lens(bss)) && k < |inos|
    ensures var p := KernelVolume(d, inodes).files[k].ptrs;
      && (s in p <==> Needed(s, |bss[k]|))
      && (s in p ==> Names(im, inos, bss, k, s, p[s]) && ValidSlot(s))
  {
    var disk := BytesDisk(d);
    var kino := inodes[k];
    assert T.Built(im, inos[k], first, bss[k]);
    assert KernelVolume(d, inodes).files[k] == M.FileOf(kino, disk);
    if ValidSlot(s) {
      PointersAgree(inos[k], kino, disk, s);
    }
  }

  lemma ParentNeeded(s: Slot, n: nat)
    requires Needed(s, n)
    ensures ValidSlot(s)
    ensures match s
      case IndEntry(_) => Needed(Ind, n)
      case Und(_) => Needed(Ind2, n)
      case UndEntry(j, _) => Needed(Und(j), n)
      case _ => true
  {
  }

  /** What `finishfs` leaves. */
  ghost predicate Finished(l: Layout, d: T.Disk, im: T.Image) {
    && l.Valid() && |d| == l.nblocks && d == im.blocks && AllFull(d) && HasBitmap(d)
    && forall b: nat :: b < |d| ==> (I.MapBit(d, b) <==> im.nextb <= b)
  }

  lemma FilesAre(
      l: Layout, d: T.Disk, inodes: seq<D.Inode>, im: T.Image, inos: seq<T.Inode>, bss: seq<seq<nat>>, k: nat,
      s: Slot)
    requires Finished(l, d, im) && Trees(im, l.FirstData(), inos, bss) && Describes(inodes, inos, Lens(bss))
    requires HasPtr(KernelVolume(d, inodes), k, s)
    ensures var v := KernelVolume(d, inodes);
      PtrOk(l, v, k, s) && Names(im, inos, bss, k, s, v.files[k].ptrs[s])
  {
    var v := KernelVolume(d, inodes);
    FilePtrs(d, inodes, im, l.FirstData(), inos, bss, k, s);
    var b := v.files[k].ptrs[s];
    NamesRange(im, l.FirstData(), inos, bss, k, s, b);
    ParentNeeded(s, |bss[k]|);
    match s
    case IndEntry(_) => FilePtrs(d, inodes, im, l.FirstData(), inos, bss, k, Ind);
    case Und(_) => FilePtrs(d, inodes, im, l.FirstData(), inos, bss, k, Ind2);
    case UndEntry(j, _) => FilePtrs(d, inodes, im, l.FirstData(), inos, bss, k, Und(j));
    case _ =>
  }

  lemma ImageInjective(l: Layout, d: T.Disk, inodes: seq<D.Inode>, im: T.Image, inos: seq<T.Inode>, bss: seq<seq<nat>>)
    requires Finished(l, d, im) && Trees(im, l.FirstData(), inos, bss) && Describes(inodes, inos, Lens(bss))
    ensures Injective(KernelVolume(d, inodes))
  {
    var v := KernelVolume(d, inodes);
    hide KernelVolume, Finished, Describes, Names;
    forall i: nat, s, j: nat, t | HasPtr(v, i, s) && HasPtr(v, j, t) && v.files[i].ptrs[s] == v.files[j].ptrs[t]
      ensures i == j && s == t
    {
      FilesAre(l, d, inodes, im, inos, bss, i, s);
      FilesAre(l, d, inodes, im, inos, bss, j, t);
    }
  }

  lemma ImageReached(
      l: Layout, d: T.Disk, inodes: seq<D.Inode>, im: T.Image, inos: seq<T.Inode>, bss: seq<seq<nat>>, b: nat)
    requires Finished(l, d, im) && Trees(im, l.FirstData(), inos, bss) && Describes(inodes, inos, Lens(bss))
    requires l.InDataArea(b)
    ensures var v := KernelVolume(d, inodes); b in v.free || Reached(v, b)
  {
    var v := KernelVolume(d, inodes);
    if b < im.nextb {
      assert Named(im, inos, bss, b);
      var k: nat, s :| Names(im, inos, bss, k, s, b);
      FilePtrs(d, inodes, im, l.FirstData(), inos, bss, k, s);
      assert HasPtr(v, k, s);
    }
  }

  lemma ImageShaped(
      l: Layout, d: T.Disk, inodes: seq<D.Inode>, im: T.Image, inos: seq<T.Inode>, bss: seq<seq<nat>>, k: nat)
    requires Finished(l, d, im) && Trees(im, l.FirstData(), inos, bss) && Describes(inodes, inos, Lens(bss))
    requires k < |inos| && !inodes[k].ftype.Symlink?
    ensures var v := KernelVolume(d, inodes); k < |v.files| && Shaped(v.files[k])
  {
    var v := KernelVolume(d, inodes);
    assert T.Built(im, inos[k], l.FirstData(), bss[k]);
    assert v.files[k].size == inodes[k].size;
    hide KernelVolume, Needed, Size2NBlocks;
    forall s
      ensures s in v.files[k].ptrs <==> Needed(s, |bss[k]|)
    {
      FilePtrs(d, inodes, im, l.FirstData(), inos, bss, k, s);
    }
  }

  /** The allocator may hand out a block that `free_block` refuses exactly when the
      first data block is refused and was not taken. */
  lemma FreeNotRefused(l: Layout, nextb: nat)
    requires l.Valid() && l.FirstData() <= nextb <= l.nblocks
    ensures (forall b :: nextb <= b < l.nblocks ==> l.InDataArea(b) && !l.Refused(b))
       <==> l.ninodes % BLKINODES != 0 || l.FirstData() < nextb || nextb == l.nblocks
  {
    forall b | l.InDataArea(b)
      ensures l.Refused(b) <==> b == l.FirstData() && l.ninodes % BLKINODES == 0
    {
      RefusedDataBlocks(l, b);
    }
    if l.FirstData() == nextb < l.nblocks {
      assert l.InDataArea(nextb);
    }
  }

  /** Whatever the allocator may hand out, ownership and shapes are right. */
  ghost predicate OwnedInShape(l: Layout, v: Volume) {
    && |v.files| == l.ninodes
    && (forall i: nat, s :: HasPtr(v, i, s) ==> PtrOk(l, v, i, s))
    && Injective(v)
    && (forall i :: 0 <= i < |v.files| && !v.files[i].ftype.Symlink? ==> Shaped(v.files[i]))
    && (forall b :: l.InDataArea(b) ==> b in v.free || Reached(v, b))
  }

  lemma OwnedIsTight(l: Layout, v: Volume)
    requires l.Valid() && OwnedInShape(l, v)
    ensures Tight(l, v) <==> forall b :: b in v.free ==> l.InDataArea(b) && !l.Refused(b)
  {
    hide PtrOk, Injective, Shaped, Reached;
  }

  lemma ImageOwned(l: Layout, d: T.Disk, inodes: seq<D.Inode>, im: T.Image, inos: seq<T.Inode>, bss: seq<seq<nat>>)
    requires Finished(l, d, im) && Trees(im, l.FirstData(), inos, bss) && Describes(inodes, inos, Lens(bss))
    requires |inos| == l.ninodes
    ensures OwnedInShape(l, KernelVolume(d, inodes))
  {
    var v := KernelVolume(d, inodes);
    assert |v.files| == l.ninodes && forall k :: 0 <= k < |v.files| ==> v.files[k].ftype == inodes[k].ftype;
    ImageInjective(l, d, inodes, im, inos, bss);
    hide KernelVolume, Finished, Trees, Describes, Injective, Shaped, PtrOk, Reached;
    forall i: nat, s | HasPtr(v, i, s)
      ensures PtrOk(l, v, i, s)
    {
      FilesAre(l, d, inodes, im, inos, bss, i, s);
    }
    forall k | 0 <= k < |v.files| && !v.files[k].ftype.Symlink?
      ensures Shaped(v.files[k])
    {
      ImageShaped(l, d, inodes, im, inos, bss, k);
    }
    forall b | l.InDataArea(b)
      ensures b in v.free || Reached(v, b)
    {
      ImageReached(l, d, inodes, im, inos, bss, b);
    }
  }

  /** A finished image is a volume in order, in all parts of its trees and with no
      block lost, exactly when the allocator cannot hand out a block that
      `free_block` refuses: for every number of inodes once a block has been taken. */
  lemma ImageInOrder(l: Layout, d: T.Disk, inodes: seq<D.Inode>, im: T.Image, inos: seq<T.Inode>, bss: seq<seq<nat>>)
    requires Finished(l, d, im) && Trees(im, l.FirstData(), inos, bss) && Describes(inodes, inos, Lens(bss))
    requires |inos| == l.ninodes
    ensures Tight(l, KernelVolume(d, inodes))
       <==> l.ninodes % BLKINODES != 0 || l.FirstData() < im.nextb || im.nextb == l.nblocks
  {
    hide Trees, OwnedInShape, Tight;
    var v := KernelVolume(d, inodes);
    ImageOwned(l, d, inodes, im, inos, bss);
    TreesBounds(im, l.FirstData(), inos, bss);
    FreeNotRefused(l, im.nextb);
    assert forall b :: b in v.free <==> im.nextb <= b < l.nblocks;
    OwnedIsTight(l, v);
  }

  lemma TreesBounds(im: T.Image, first: nat, inos: seq<T.Inode>, bss: seq<seq<nat>>)
    requires Trees(im, first, inos, bss)
    ensures 0 < first <= im.nextb <= |im.blocks|
  {
  }

  // ------------------------------------------------------- the host's bytes

  /** The bytes of a host file that comes in blocks. */
  function TextOf(host: seq<C.Contents>): (text: seq<D.Byte>)
    requires AllFull(host)
    ensures |text| == BLKSIZE * |host|
  {
    seq(BLKSIZE * |host|, q requires 0 <= q < BLKSIZE * |host| => ByteOf(host[q / BLKSIZE], q % BLKSIZE))
  }

  /** The kernel module finds the host's bytes in the blocks of file `k`. */
  ghost predicate Reads(d: T.Disk, inodes: seq<D.Inode>, k: nat, host: seq<C.Contents>)
    requires AllFull(d) && HasBitmap(d) && M.ValidInodes(inodes)
  {
    && AllFull(host)
    && F.Backed(KernelVolume(d, inodes), BytesDisk(d), k)
    && F.Contents(KernelVolume(d, inodes), BytesDisk(d), k) == TextOf(host)
  }

  /** The data block of one file block, in the module's volume. */
  lemma DataFound(
      l: Layout, d: T.Disk, inodes: seq<D.Inode>, im: T.Image, inos: seq<T.Inode>, bss: seq<seq<nat>>, k: nat, n: nat)
    requires Finished(l, d, im) && Trees(im, l.FirstData(), inos, bss) && Describes(inodes, inos, Lens(bss))
    requires k < |inos| && n < |bss[k]|
    ensures var p := KernelVolume(d, inodes).files[k].ptrs;
            n < MAXFILEBLKS && DataSlot(n) in p && p[DataSlot(n)] == bss[k][n] < |d|
  {
    assert T.Built(im, inos[k], l.FirstData(), bss[k]);
    SlotIndexOfDataSlot(n);
    T.BuiltBounds(im, inos[k], l.FirstData(), bss[k]);
    FilePtrs(d, inodes, im, l.FirstData(), inos, bss, k, DataSlot(n));
  }

  /** A file whose blocks hold the host's contents is read as the host's bytes. */
  lemma ReadsBack(
      l: Layout, d: T.Disk, inodes: seq<D.Inode>, im: T.Image, inos: seq<T.Inode>, bss: seq<seq<nat>>, k: nat,
      host: seq<C.Contents>)
    requires Finished(l, d, im) && Trees(im, l.FirstData(), inos, bss) && Describes(inodes, inos, Lens(bss))
    requires k < |inos| && !inodes[k].ftype.Symlink? && Filled(d, bss[k], host)
    ensures Reads(d, inodes, k, host)
  {
    var v, disk := KernelVolume(d, inodes), BytesDisk(d);
    assert T.Built(im, inos[k], l.FirstData(), bss[k]);
    assert v.files[k].size == inodes[k].size && NBlocks(v, k) == |host|;
    hide KernelVolume, Trees, Describes, Size2NBlocks;
    forall n: nat | n < |host|
      ensures DataSlot(n) in v.files[k].ptrs && v.files[k].ptrs[DataSlot(n)] == bss[k][n] < |d|
    {
      DataFound(l, d, inodes, im, inos, bss, k, n);
    }
    assert F.Backed(v, disk, k);
    var c := F.Contents(v, disk, k);
    forall q: nat | q < |c|
      ensures c[q] == TextOf(host)[q]
    {
      assert q / BLKSIZE < |host|;
    }
    assert c == TextOf(host);
  }

  /** A file of `n` blocks costs the formatter the blocks that the module accounts
      for it. */
  lemma {:induction false} CostIsTreeSize(a: nat, n: nat)
    requires a <= n <= MAXFILEBLKS
    ensures T.Cost(a, n) + G.TreeSize(a) == G.TreeSize(n)
    decreases n - a
  {
    if a < n {
      CostIsTreeSize(a + 1, n);
    }
  }
}
