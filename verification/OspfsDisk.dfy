/** Block numbers stored as little-endian words in the blocks of the disk, and
    what storing one word does to the pointers of a file. */
module OspfsDisk {
  import opened OspfsLayout
  import opened OspfsVolume

  type Byte = x: int | 0 <= x < 256

  type Block = b: seq<Byte> | |b| == BLKSIZE witness seq(BLKSIZE, _ => 0 as Byte)

  function ZeroedBlock(): (b: Block)
    ensures forall k :: 0 <= k < BLKSIZE ==> b[k] == 0
  {
    seq(BLKSIZE, _ => 0 as Byte)
  }

  /** `((uint32_t *) block)[k]` on a little-endian machine. */
  function Word(b: Block, k: nat): uint32
    requires k < NINDIRECT
  {
    FromBytes(b[4 * k], b[4 * k + 1], b[4 * k + 2], b[4 * k + 3])
  }

  function FromBytes(b0: Byte, b1: Byte, b2: Byte, b3: Byte): uint32 {
    b0 as int + 0x100 * b1 as int + 0x1_0000 * b2 as int + 0x100_0000 * b3 as int
  }

  function Bytes(w: uint32): (r: seq<Byte>)
    ensures |r| == 4 && FromBytes(r[0], r[1], r[2], r[3]) == w
  {
    var w1 := w / 0x100;
    var w2 := w1 / 0x100;
    [w % 0x100, w1 % 0x100, w2 % 0x100, w2 / 0x100]
  }

  function PutWord(b: Block, k: nat, w: uint32): (r: Block)
    requires k < NINDIRECT
    ensures forall j: nat :: j < NINDIRECT ==> Word(r, j) == if j == k then w else Word(b, j)
  {
    b[..4 * k] + Bytes(w) + b[4 * k + 4..]
  }

  datatype Inode = Inode(size: uint32, ftype: FType, nlink: nat,
                         direct: seq<uint32>, indirect: uint32, indirect2: uint32)

  predicate ValidInode(ino: Inode) {
    |ino.direct| == NDIRECT
  }

  ghost function AllSlots(): (r: set<Slot>)
    ensures forall s :: s in r <==> ValidSlot(s)
  {
    (set k: nat | k < NDIRECT :: Direct(k)) + {Ind, Ind2}
    + (set k: nat | k < NINDIRECT :: IndEntry(k))
    + (set j: nat | j < NINDIRECT :: Und(j))
    + (set j: nat, k: nat | j < NINDIRECT && k < NINDIRECT :: UndEntry(j, k))
  }

  function WordAt(disk: seq<Block>, b: nat, k: nat): uint32
    requires k < NINDIRECT
  {
    if b == 0 || b >= |disk| then 0 else Word(disk[b], k)
  }

  /** The block number in slot `s`, 0 when the slot cannot be reached. */
  function PtrAt(ino: Inode, disk: seq<Block>, s: Slot): uint32
    requires ValidInode(ino) && ValidSlot(s)
  {
    match s
    case Direct(k) => ino.direct[k]
    case Ind => ino.indirect
    case IndEntry(k) => WordAt(disk, ino.indirect, k)
    case Ind2 => ino.indirect2
    case Und(j) => WordAt(disk, ino.indirect2, j)
    case UndEntry(j, k) => WordAt(disk, WordAt(disk, ino.indirect2, j), k)
  }

  ghost function Ptrs(ino: Inode, disk: seq<Block>): (p: map<Slot, nat>)
    requires ValidInode(ino)
    ensures forall s :: s in p <==> !ino.ftype.Symlink? && ValidSlot(s) && PtrAt(ino, disk, s) != 0
    ensures forall s :: s in p ==> p[s] == PtrAt(ino, disk, s)
  {
    if ino.ftype.Symlink? then map[]
    else map s | s in AllSlots() && PtrAt(ino, disk, s) != 0 :: PtrAt(ino, disk, s)
  }

  /** Storing `w` in slot `s`; 0 clears it. */
  function Put(p: map<Slot, nat>, s: Slot, w: nat): map<Slot, nat> {
    if w == 0 then p - {s} else p[s := w]
  }

  /** Block `b` holds no pointers of this file. */
  ghost predicate HoldsNone(p: map<Slot, nat>, b: nat) {
    && PtrOr0(p, Ind) != b && PtrOr0(p, Ind2) != b
    && forall j :: Und(j) in p ==> p[Und(j)] != b
  }

  lemma SamePtrs(ino: Inode, ino': Inode, disk: seq<Block>, disk': seq<Block>)
    requires ValidInode(ino) && ValidInode(ino') && ino.ftype == ino'.ftype
    requires forall s :: ValidSlot(s) ==> PtrAt(ino, disk, s) == PtrAt(ino', disk', s)
    ensures Ptrs(ino, disk) == Ptrs(ino', disk')
  {
  }

  lemma OtherBlockWritten(ino: Inode, disk: seq<Block>, b: nat, x: Block)
    requires ValidInode(ino) && 0 < b < |disk| && HoldsNone(Ptrs(ino, disk), b)
    ensures Ptrs(ino, disk[b := x]) == Ptrs(ino, disk)
  {
    if !ino.ftype.Symlink? {
      var p := Ptrs(ino, disk);
      forall s | ValidSlot(s)
        ensures PtrAt(ino, disk, s) == PtrAt(ino, disk[b := x], s)
      {
        assert Ind in p <==> PtrAt(ino, disk, Ind) != 0;
        assert Ind2 in p <==> PtrAt(ino, disk, Ind2) != 0;
        if s.UndEntry? {
          assert ValidSlot(Und(s.j));
          assert Und(s.j) in p <==> PtrAt(ino, disk, Und(s.j)) != 0;
        }
      }
      SamePtrs(ino, ino, disk, disk[b := x]);
    }
  }

  lemma IndWritten(ino: Inode, disk: seq<Block>, k: nat, w: uint32)
    requires ValidInode(ino) && !ino.ftype.Symlink? && k < NINDIRECT
    requires 0 < ino.indirect < |disk| && ino.indirect != ino.indirect2
    requires var p := Ptrs(ino, disk); forall j :: Und(j) in p ==> p[Und(j)] != ino.indirect
    ensures Ptrs(ino, disk[ino.indirect := PutWord(disk[ino.indirect], k, w)])
            == Put(Ptrs(ino, disk), IndEntry(k), w)
  {
    var p := Ptrs(ino, disk);
    var disk' := disk[ino.indirect := PutWord(disk[ino.indirect], k, w)];
    forall s | ValidSlot(s)
      ensures PtrAt(ino, disk', s) == if s == IndEntry(k) then w else PtrAt(ino, disk, s)
    {
      if s.UndEntry? {
        assert ValidSlot(Und(s.j));
        assert Und(s.j) in p <==> PtrAt(ino, disk, Und(s.j)) != 0;
      }
    }
    assert Ptrs(ino, disk') == Put(p, IndEntry(k), w);
  }

  lemma UndWritten(ino: Inode, disk: seq<Block>, j: nat, k: nat, w: uint32)
    requires ValidInode(ino) && !ino.ftype.Symlink? && j < NINDIRECT && k < NINDIRECT
    requires var p := Ptrs(ino, disk);
             && Und(j) in p && p[Und(j)] < |disk|
             && p[Und(j)] != ino.indirect && p[Und(j)] != ino.indirect2
             && forall i :: Und(i) in p && p[Und(i)] == p[Und(j)] ==> i == j
    ensures var b := PtrAt(ino, disk, Und(j));
            Ptrs(ino, disk[b := PutWord(disk[b], k, w)]) == Put(Ptrs(ino, disk), UndEntry(j, k), w)
  {
    var p := Ptrs(ino, disk);
    var b := PtrAt(ino, disk, Und(j));
    var disk' := disk[b := PutWord(disk[b], k, w)];
    forall s | ValidSlot(s)
      ensures PtrAt(ino, disk', s) == if s == UndEntry(j, k) then w else PtrAt(ino, disk, s)
    {
      if s.UndEntry? {
        assert ValidSlot(Und(s.j));
        assert Und(s.j) in p <==> PtrAt(ino, disk, Und(s.j)) != 0;
      }
    }
    assert Ptrs(ino, disk') == Put(p, UndEntry(j, k), w);
  }

  ghost predicate EmptyUnder(p: map<Slot, nat>, j: nat) {
    forall k :: UndEntry(j, k) !in p
  }

  /** A block that reads as 256 zero words. */
  predicate Blank(b: Block) {
    forall k: nat :: k < NINDIRECT ==> Word(b, k) == 0
  }

  lemma ZeroBlockIsBlank()
    ensures Blank(ZeroedBlock())
  {
  }

  lemma Ind2Written(ino: Inode, disk: seq<Block>, j: nat, w: uint32)
    requires ValidInode(ino) && !ino.ftype.Symlink? && j < NINDIRECT
    requires 0 < ino.indirect2 < |disk| && ino.indirect != ino.indirect2 && w != ino.indirect2
    requires w != 0 ==> w < |disk| && Blank(disk[w])
    requires var p := Ptrs(ino, disk);
             && (forall i :: Und(i) in p ==> p[Und(i)] != ino.indirect2)
             && EmptyUnder(p, j)
    ensures Ptrs(ino, disk[ino.indirect2 := PutWord(disk[ino.indirect2], j, w)])
            == Put(Ptrs(ino, disk), Und(j), w)
  {
    var p := Ptrs(ino, disk);
    var disk' := disk[ino.indirect2 := PutWord(disk[ino.indirect2], j, w)];
    forall s | ValidSlot(s)
      ensures PtrAt(ino, disk', s) == if s == Und(j) then w else PtrAt(ino, disk, s)
    {
      Ind2WrittenAt(ino, disk, j, w, s);
    }
    hide PtrAt, PutWord;
    assert Ptrs(ino, disk') == Put(p, Und(j), w);
  }

  lemma Ind2WrittenAt(ino: Inode, disk: seq<Block>, j: nat, w: uint32, s: Slot)
    requires ValidInode(ino) && !ino.ftype.Symlink? && j < NINDIRECT && ValidSlot(s)
    requires 0 < ino.indirect2 < |disk| && ino.indirect != ino.indirect2 && w != ino.indirect2
    requires w != 0 ==> w < |disk| && Blank(disk[w])
    requires var p := Ptrs(ino, disk);
             && (forall i :: Und(i) in p ==> p[Und(i)] != ino.indirect2)
             && EmptyUnder(p, j)
    ensures PtrAt(ino, disk[ino.indirect2 := PutWord(disk[ino.indirect2], j, w)], s)
            == if s == Und(j) then w else PtrAt(ino, disk, s)
  {
    var p := Ptrs(ino, disk);
    if s.UndEntry? {
      assert ValidSlot(Und(s.j));
      assert Und(s.j) in p <==> PtrAt(ino, disk, Und(s.j)) != 0;
      assert s in p <==> PtrAt(ino, disk, s) != 0;
    }
  }

  lemma DirectSet(ino: Inode, disk: seq<Block>, k: nat, w: uint32)
    requires ValidInode(ino) && !ino.ftype.Symlink? && k < NDIRECT
    ensures Ptrs(ino.(direct := ino.direct[k := w]), disk) == Put(Ptrs(ino, disk), Direct(k), w)
  {
    var ino' := ino.(direct := ino.direct[k := w]);
    assert forall s :: ValidSlot(s) ==> PtrAt(ino', disk, s) == if s == Direct(k) then w else PtrAt(ino, disk, s);
    assert Ptrs(ino', disk) == Put(Ptrs(ino, disk), Direct(k), w);
  }

  lemma IndSet(ino: Inode, disk: seq<Block>, w: uint32)
    requires ValidInode(ino) && !ino.ftype.Symlink? && ino.indirect == 0
    requires 0 < w < |disk| && Blank(disk[w])
    ensures Ptrs(ino.(indirect := w), disk) == Ptrs(ino, disk)[Ind := w]
  {
    var ino' := ino.(indirect := w);
    assert forall s :: ValidSlot(s) ==> PtrAt(ino', disk, s) == if s == Ind then w else PtrAt(ino, disk, s);
    assert Ptrs(ino', disk) == Ptrs(ino, disk)[Ind := w];
  }

  lemma IndCleared(ino: Inode, disk: seq<Block>)
    requires ValidInode(ino) && !ino.ftype.Symlink?
    ensures Ptrs(ino.(indirect := 0), disk) == DropInd(Ptrs(ino, disk))
  {
    var ino' := ino.(indirect := 0);
    assert forall s :: ValidSlot(s) ==>
        PtrAt(ino', disk, s) == if s.Ind? || s.IndEntry? then 0 else PtrAt(ino, disk, s);
    assert Ptrs(ino', disk) == DropInd(Ptrs(ino, disk));
  }

  lemma Ind2Set(ino: Inode, disk: seq<Block>, w: uint32)
    requires ValidInode(ino) && !ino.ftype.Symlink? && ino.indirect2 == 0
    requires 0 < w < |disk| && Blank(disk[w])
    ensures Ptrs(ino.(indirect2 := w), disk) == Ptrs(ino, disk)[Ind2 := w]
  {
    var ino' := ino.(indirect2 := w);
    assert forall s :: ValidSlot(s) ==> PtrAt(ino', disk, s) == if s == Ind2 then w else PtrAt(ino, disk, s);
    assert Ptrs(ino', disk) == Ptrs(ino, disk)[Ind2 := w];
  }

  lemma Ind2Cleared(ino: Inode, disk: seq<Block>)
    requires ValidInode(ino) && !ino.ftype.Symlink?
    ensures Ptrs(ino.(indirect2 := 0), disk) == DropInd2(Ptrs(ino, disk))
  {
    var ino' := ino.(indirect2 := 0);
    assert forall s :: ValidSlot(s) ==>
        PtrAt(ino', disk, s) == if s.Ind2? || s.Und? || s.UndEntry? then 0 else PtrAt(ino, disk, s);
    assert Ptrs(ino', disk) == DropInd2(Ptrs(ino, disk));
  }
}
