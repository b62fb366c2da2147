/** Sizes, block layout and the arithmetic on file-block numbers of the OSPFS
    kernel module (File_System/ospfs.h, File_System/ospfsmod.c). */
module OspfsLayout {

  const BLKSIZE: nat := 1024
  const NDIRECT: nat := 10
  const NINDIRECT: nat := 256
  const MAXFILEBLKS: nat := NDIRECT + NINDIRECT + NINDIRECT * NINDIRECT
  const BLKINODES: nat := 16
  const TWO32: nat := 0x1_0000_0000

  type uint32 = x: int | 0 <= x < TWO32

  /** The superblock fields that the module reads. */
  datatype Layout = Layout(nblocks: nat, ninodes: nat, firstinob: nat) {
    /** Block 0 boots, block 1 is the superblock, block 2 starts the bitmap. */
    predicate Valid() {
      && 2 < firstinob
      && 1 < ninodes
      && FirstData() <= nblocks < TWO32
    }

    /** The first block behind the inode table. */
    function FirstData(): nat {
      firstinob + (ninodes + BLKINODES - 1) / BLKINODES
    }

    predicate InDataArea(b: nat) {
      FirstData() <= b < nblocks
    }

    /** The test with which `free_block` throws a request away. */
    predicate Refused(b: nat) {
      b <= firstinob + ninodes / BLKINODES
    }
  }

  /** The guard of `free_block` is right for every data block when the inode
      table does not fill its last block; otherwise it also protects exactly
      one data block, the first. */
  lemma RefusedDataBlocks(l: Layout, b: nat)
    requires l.Valid() && l.InDataArea(b)
    ensures l.Refused(b) <==> b == l.FirstData() && l.ninodes % BLKINODES == 0
  {
    var n := l.ninodes;
    assert n == BLKINODES * (n / BLKINODES) + n % BLKINODES;
    if n % BLKINODES == 0 {
      assert (n + BLKINODES - 1) / BLKINODES == n / BLKINODES;
    } else {
      assert (n + BLKINODES - 1) / BLKINODES == n / BLKINODES + 1;
    }
  }

  /** Blocks needed for `size` bytes, with the wrap-around of the 32-bit sum. */
  function Size2NBlocks(size: uint32): (n: nat)
    ensures size <= TWO32 - BLKSIZE ==> BLKSIZE * n >= size && (n == 0 || BLKSIZE * (n - 1) < size)
    ensures size > TWO32 - BLKSIZE ==> n == 0
  {
    ((size + BLKSIZE - 1) % TWO32) / BLKSIZE
  }

  function GrowSize(size: uint32): uint32 {
    (size + BLKSIZE) % TWO32
  }

  function ShrinkSize(size: uint32): uint32 {
    (size - BLKSIZE) % TWO32
  }

  /** One step of `oi_size` is one step of the block count, although a partly
      filled last block makes the size itself wrap below zero on the way. */
  lemma SizeStep(size: uint32)
    ensures Size2NBlocks(size) < MAXFILEBLKS ==> Size2NBlocks(GrowSize(size)) == Size2NBlocks(size) + 1
    ensures Size2NBlocks(size) > 0 ==> Size2NBlocks(ShrinkSize(size)) == Size2NBlocks(size) - 1
    ensures ShrinkSize(GrowSize(size)) == size && GrowSize(ShrinkSize(size)) == size
  {
    if size > TWO32 - BLKSIZE {
      assert GrowSize(size) == size + BLKSIZE - TWO32;
    } else if size == TWO32 - BLKSIZE {
      assert Size2NBlocks(size) == (TWO32 - 1) / BLKSIZE;
    } else {
      assert GrowSize(size) == size + BLKSIZE;
    }
  }

  // ---------------------------------------------------------------- indices

  function IndirIndex(b: nat): int {
    if b < NDIRECT then -1
    else if b < NDIRECT + NINDIRECT then 0
    else (b - NDIRECT - NINDIRECT) / NINDIRECT
  }

  function DirectIndex(b: nat): nat {
    if b < NDIRECT then b else (b - NDIRECT) % NINDIRECT
  }

  /** A place where a block number is stored: in the inode, in an indirect
      block, or in the doubly indirect block. */
  datatype Slot =
    | Direct(k: nat)
    | Ind
    | IndEntry(k: nat)
    | Ind2
    | Und(j: nat)
    | UndEntry(j: nat, k: nat)

  predicate ValidSlot(s: Slot) {
    match s
    case Direct(k) => k < NDIRECT
    case Ind => true
    case IndEntry(k) => k < NINDIRECT
    case Ind2 => true
    case Und(j) => j < NINDIRECT
    case UndEntry(j, k) => j < NINDIRECT && k < NINDIRECT
  }

  predicate IsData(s: Slot) {
    s.Direct? || s.IndEntry? || s.UndEntry?
  }

  /** Where the comments put the pointer to file block `b`. */
  function DataSlot(b: nat): (s: Slot)
    requires b < MAXFILEBLKS
    ensures ValidSlot(s) && IsData(s)
  {
    if b < NDIRECT then Direct(b)
    else if b < NDIRECT + NINDIRECT then IndEntry(b - NDIRECT)
    else UndEntry((b - NDIRECT - NINDIRECT) / NINDIRECT, (b - NDIRECT - NINDIRECT) % NINDIRECT)
  }

  /** The file block behind a data slot: the inverse of `DataSlot`. */
  function SlotIndex(s: Slot): (b: nat)
    requires ValidSlot(s) && IsData(s)
    ensures b < MAXFILEBLKS
  {
    match s
    case Direct(k) => k
    case IndEntry(k) => NDIRECT + k
    case UndEntry(j, k) => NDIRECT + NINDIRECT + NINDIRECT * j + k
  }

  lemma SlotIndexOfDataSlot(b: nat)
    requires b < MAXFILEBLKS
    ensures SlotIndex(DataSlot(b)) == b
  {
  }

  lemma DataSlotOfSlotIndex(s: Slot)
    requires ValidSlot(s) && IsData(s)
    ensures DataSlot(SlotIndex(s)) == s
  {
    if s.UndEntry? {
      assert (NINDIRECT * s.j + s.k) / NINDIRECT == s.j;
      assert (NINDIRECT * s.j + s.k) % NINDIRECT == s.k;
    }
  }

  /** The slots a file of `n` blocks has to fill, and no others. */
  predicate Needed(s: Slot, n: nat) {
    && ValidSlot(s)
    && match s
       case Direct(k) => k < n
       case Ind => n > NDIRECT
       case IndEntry(k) => NDIRECT + k < n
       case Ind2 => n > NDIRECT + NINDIRECT
       case Und(j) => n > NDIRECT + NINDIRECT + NINDIRECT * j
       case UndEntry(j, k) => n > NDIRECT + NINDIRECT + NINDIRECT * j + k
  }

  /** Where `add_block` really stores the pointer to file block `n`: the test
      for the first indirect block, `indir_index(n) == 0`, also catches the
      256 file blocks behind it. */
  function StoreSlot(n: nat): (s: Slot)
    requires n < MAXFILEBLKS
    ensures ValidSlot(s) && IsData(s)
  {
    if IndirIndex(n) == -1 then Direct(n)
    else if IndirIndex(n) == 0 then IndEntry(DirectIndex(n))
    else UndEntry(IndirIndex(n), DirectIndex(n))
  }

  /** The file blocks that `add_block` stores in another block's place. */
  predicate Misfiled(n: nat) {
    NDIRECT + NINDIRECT <= n < NDIRECT + 2 * NINDIRECT
  }

  /** The file blocks whose removal makes `remove_block` drop the first
      indirect block instead of the one that became empty. */
  predicate Misfreed(last: nat) {
    NDIRECT + NINDIRECT <= last && DirectIndex(last) == 0
  }

  lemma StoredInPlaceIff(n: nat)
    requires n < MAXFILEBLKS
    ensures StoreSlot(n) == DataSlot(n) <==> !Misfiled(n)
  {
    if n >= NDIRECT + NINDIRECT {
      var m := n - NDIRECT - NINDIRECT;
      assert n - NDIRECT == m + NINDIRECT;
      assert (m + NINDIRECT) % NINDIRECT == m % NINDIRECT;
      assert IndirIndex(n) == m / NINDIRECT;
    }
  }

  /** A misfiled pointer lands on a slot of an earlier block of the file. */
  lemma MisfiledOverwrites(n: nat)
    requires Misfiled(n)
    ensures StoreSlot(n) == IndEntry(n - NDIRECT - NINDIRECT)
    ensures Needed(StoreSlot(n), n)
  {
  }
}
