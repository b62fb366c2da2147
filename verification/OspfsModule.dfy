/** The kernel module's block code on the disk array itself: bitmap words,
    inode fields and pointer words updated in place.  Each method is proved to
    do to the volume what `OspfsVolume` says, and to no other block anything. */
module OspfsModule {
  import opened OspfsLayout
  import opened OspfsVolume
  import opened OspfsBits
  import opened OspfsDisk
  import opened OspfsSafety
  import opened OspfsExact
  import opened OspfsResize
  import opened OspfsGrow
  import opened OspfsContents

  ghost function FileOf(ino: Inode, disk: seq<Block>): File
    requires ValidInode(ino)
  {
    File(ino.size, ino.ftype, ino.nlink, Ptrs(ino, disk))
  }

  ghost predicate ValidInodes(inodes: seq<Inode>) {
    forall i :: 0 <= i < |inodes| ==> ValidInode(inodes[i])
  }

  ghost function FilesOf(inodes: seq<Inode>, disk: seq<Block>): (r: seq<File>)
    requires ValidInodes(inodes)
    ensures |r| == |inodes|
    ensures forall i :: 0 <= i < |r| ==> r[i] == FileOf(inodes[i], disk)
  {
    seq(|inodes|, i requires 0 <= i < |inodes| => FileOf(inodes[i], disk))
  }

  /** All pointers lead into the data area, no two to the same block. */
  ghost predicate Named(l: Layout, v: Volume) {
    && l.Valid()
    && Injective(v)
    && forall i: nat, s :: HasPtr(v, i, s) ==> ValidSlot(s) && l.InDataArea(v.files[i].ptrs[s])
  }

  lemma SoundIsNamed(l: Layout, v: Volume)
    requires Sound(l, v)
    ensures Named(l, v)
  {
    assert forall i: nat, s :: HasPtr(v, i, s) ==> PtrOk(l, v, i, s);
  }

  lemma NamedWhateverFree(l: Layout, v: Volume, free: set<nat>)
    requires Named(l, v)
    ensures Named(l, v.(free := free))
  {
    var w := v.(free := free);
    assert forall i: nat, s :: HasPtr(w, i, s) ==> HasPtr(v, i, s);
  }

  /** No file keeps pointers in block `b`. */
  ghost predicate NoPointersIn(v: Volume, b: nat) {
    forall i :: 0 <= i < |v.files| ==> HoldsNone(v.files[i].ptrs, b)
  }

  lemma FilesSameElsewhere(inodes: seq<Inode>, disk: seq<Block>, b: nat, x: Block, v: Volume)
    requires ValidInodes(inodes) && v.files == FilesOf(inodes, disk)
    requires 0 < b < |disk| && NoPointersIn(v, b)
    ensures FilesOf(inodes, disk[b := x]) == v.files
  {
    forall i | 0 <= i < |inodes|
      ensures FileOf(inodes[i], disk[b := x]) == v.files[i]
    {
      OtherBlockWritten(inodes[i], disk, b, x);
    }
  }

  /** Writing a block named by a pointer slot of file `i` leaves the other
      files alone. */
  lemma FilesSameButOne(l: Layout, inodes: seq<Inode>, disk: seq<Block>, i: nat, s: Slot, x: Block, v: Volume)
    requires ValidInodes(inodes) && v.files == FilesOf(inodes, disk) && l.nblocks == |disk|
    requires Named(l, v) && HasPtr(v, i, s)
    ensures var b := v.files[i].ptrs[s];
            0 < b < |disk| && FilesOf(inodes, disk[b := x]) == v.files[i := FileOf(inodes[i], disk[b := x])]
  {
    var b := v.files[i].ptrs[s];
    assert l.InDataArea(b);
    forall j: nat | j < |inodes| && j != i
      ensures FileOf(inodes[j], disk[b := x]) == v.files[j]
    {
      assert forall t :: t in v.files[j].ptrs ==> HasPtr(v, j, t) && v.files[j].ptrs[t] != b;
      OtherBlockWritten(inodes[j], disk, b, x);
    }
  }

  /** Neither a free block nor block 0 holds pointers. */
  lemma FreeHoldsNothing(l: Layout, v: Volume, b: nat)
    requires Sound(l, v) && b in v.free
    ensures NoPointersIn(v, b) && b < l.nblocks && 0 < b
  {
    forall i: nat | i < |v.files|
      ensures HoldsNone(v.files[i].ptrs, b)
    {
      assert forall s :: s in v.files[i].ptrs ==> HasPtr(v, i, s);
      assert forall s :: HasPtr(v, i, s) ==> PtrOk(l, v, i, s);
    }
  }

  function PutPtr(v: Volume, i: nat, s: Slot, w: nat): Volume
    requires i < |v.files|
  {
    v.(files := v.files[i := v.files[i].(ptrs := Put(v.files[i].ptrs, s, w))])
  }

  function SetPtrs(v: Volume, i: nat, p: map<Slot, nat>): Volume
    requires i < |v.files|
  {
    v.(files := v.files[i := v.files[i].(ptrs := p)])
  }

  lemma InodeReplaced(inodes: seq<Inode>, disk: seq<Block>, i: nat, ino: Inode)
    requires ValidInodes(inodes) && i < |inodes| && ValidInode(ino)
    ensures ValidInodes(inodes[i := ino])
    ensures FilesOf(inodes[i := ino], disk) == FilesOf(inodes, disk)[i := FileOf(ino, disk)]
  {
  }

  /** Storing a pointer word in the first indirect block. */
  lemma IndEntryStored(l: Layout, inodes: seq<Inode>, disk: seq<Block>, i: nat, k: nat, w: uint32, v: Volume)
    requires ValidInodes(inodes) && v.files == FilesOf(inodes, disk) && l.nblocks == |disk| && Named(l, v)
    requires i < |inodes| && !inodes[i].ftype.Symlink? && inodes[i].indirect != 0 && k < NINDIRECT
    ensures var b := inodes[i].indirect;
            0 < b < |disk| && FilesOf(inodes, disk[b := PutWord(disk[b], k, w)]) == PutPtr(v, i, IndEntry(k), w).files
  {
    var ino := inodes[i];
    var p := v.files[i].ptrs;
    assert HasPtr(v, i, Ind) && l.InDataArea(ino.indirect);
    assert forall t :: t in p ==> HasPtr(v, i, t);
    assert Ind2 in p <==> ino.indirect2 != 0;
    IndWritten(ino, disk, k, w);
    FilesSameButOne(l, inodes, disk, i, Ind, PutWord(disk[ino.indirect], k, w), v);
  }

  lemma UndStored(l: Layout, inodes: seq<Inode>, disk: seq<Block>, i: nat, j: nat, w: uint32, v: Volume)
    requires ValidInodes(inodes) && v.files == FilesOf(inodes, disk) && l.nblocks == |disk| && Named(l, v)
    requires i < |inodes| && !inodes[i].ftype.Symlink? && inodes[i].indirect2 != 0 && j < NINDIRECT
    requires w != inodes[i].indirect2 && (w != 0 ==> w < |disk| && Blank(disk[w]))
    requires EmptyUnder(v.files[i].ptrs, j)
    ensures var b := inodes[i].indirect2;
            0 < b < |disk| && FilesOf(inodes, disk[b := PutWord(disk[b], j, w)]) == PutPtr(v, i, Und(j), w).files
  {
    var ino := inodes[i];
    var p := v.files[i].ptrs;
    assert HasPtr(v, i, Ind2) && l.InDataArea(ino.indirect2);
    assert forall t :: t in p ==> HasPtr(v, i, t);
    assert Ind in p <==> ino.indirect != 0;
    Ind2Written(ino, disk, j, w);
    FilesSameButOne(l, inodes, disk, i, Ind2, PutWord(disk[ino.indirect2], j, w), v);
  }

  lemma UndEntryStored(l: Layout, inodes: seq<Inode>, disk: seq<Block>, i: nat, j: nat, k: nat, w: uint32, v: Volume)
    requires ValidInodes(inodes) && v.files == FilesOf(inodes, disk) && l.nblocks == |disk| && Named(l, v)
    requires i < |inodes| && !inodes[i].ftype.Symlink? && j < NINDIRECT && k < NINDIRECT && Und(j) in v.files[i].ptrs
    ensures var b := v.files[i].ptrs[Und(j)];
            && 0 < inodes[i].indirect2 < |disk| && b == Word(disk[inodes[i].indirect2], j)
            && 0 < b < |disk|
            && FilesOf(inodes, disk[b := PutWord(disk[b], k, w)]) == PutPtr(v, i, UndEntry(j, k), w).files
  {
    var ino := inodes[i];
    var p := v.files[i].ptrs;
    assert HasPtr(v, i, Und(j)) && l.InDataArea(p[Und(j)]);
    assert forall t :: t in p ==> HasPtr(v, i, t);
    assert PtrAt(ino, disk, Und(j)) != 0;
    assert Ind in p <==> ino.indirect != 0;
    assert Ind2 in p <==> ino.indirect2 != 0;
    UndWritten(ino, disk, j, k, w);
    FilesSameButOne(l, inodes, disk, i, Und(j), PutWord(disk[p[Und(j)]], k, w), v);
  }

  /** What `NewSlots` asks for in the first indirect block's range. */
  lemma IndSlots(v: Volume, i: nat, n: nat)
    requires i < |v.files| && IndirIndex(n) == 0
    ensures n < MAXFILEBLKS
    ensures var p, slots, d := v.files[i].ptrs, NewSlots(v.files[i].ptrs, n), IndEntry(DirectIndex(n));
            && (|slots| > |v.free| <==> v.free == {} || (Ind !in p && Fill(v, i, Ind).free == {}))
            && (|slots| <= |v.free| ==>
                  FillAll(v, i, slots) == if Ind in p then Fill(v, i, d) else Fill(Fill(v, i, Ind), i, d))
  {
    var slots := NewSlots(v.files[i].ptrs, n);
    FillAllUpTo2(v, i, slots);
  }

  lemma FillAllUpTo2(v: Volume, i: nat, slots: seq<Slot>)
    requires i < |v.files| && 1 <= |slots| <= 2
    ensures |slots| > |v.free| <==> v.free == {} || (|slots| == 2 && Fill(v, i, slots[0]).free == {})
    ensures |slots| <= |v.free| ==>
              FillAll(v, i, slots)
              == if |slots| == 1 then Fill(v, i, slots[0]) else Fill(Fill(v, i, slots[0]), i, slots[1])
  {
    if v.free != {} {
      var x := Fill(v, i, slots[0]);
      assert |x.free| == |v.free| - 1;
      if |slots| == 2 && |slots| <= |v.free| {
        assert slots[1..] == [slots[1]];
        assert FillAll(x, i, [slots[1]]) == Fill(x, i, slots[1]);
      }
    }
  }

  lemma OthersKeptLast(d0: seq<Block>, d1: seq<Block>, d2: seq<Block>, v: Volume, i: nat, b: nat)
    requires i < |v.files| && OthersKept(d0, d1, v, i) && |d2| == |d1|
    requires PtrOr0(v.files[i].ptrs, Ind2) == b
    requires forall c :: 0 <= c < |d1| && c != b ==> d1[c] == d2[c]
    ensures OthersKept(d0, d2, v, i)
  {
  }

  lemma WithoutIndNoEntries(l: Layout, v: Volume, i: nat)
    requires Sound(l, v) && i < |v.files|
    ensures Ind !in v.files[i].ptrs ==> DropInd(v.files[i].ptrs) == v.files[i].ptrs
    ensures Ind2 !in v.files[i].ptrs ==> DropInd2(v.files[i].ptrs) == v.files[i].ptrs
    ensures forall j :: Und(j) !in v.files[i].ptrs ==> EmptyUnder(v.files[i].ptrs, j)
  {
    SoundIsClosed(l, v, i);
    var p := v.files[i].ptrs;
    assert forall s :: s in p ==> ParentPresent(p.Keys, s);
  }

  lemma Undone2IsSame(l: Layout, v: Volume, i: nat, b: nat, w: Volume)
    requires Sound(l, v) && i < |v.files| && v.free != {} && Ind2 !in v.files[i].ptrs && b == Least(v.free)
    requires var x := Fill(v, i, Ind2);
             w == SetPtrs(x.(free := Release(l, x.free, b)), i, DropInd2(x.files[i].ptrs))
    ensures w == v
  {
    WithoutIndNoEntries(l, v, i);
    assert w.files[i].ptrs == v.files[i].ptrs;
    assert w.files == v.files;
    assert w.free == v.free;
  }

  lemma UndoneUndIsSame(l: Layout, v: Volume, i: nat, j: nat, b: nat, w: Volume)
    requires Sound(l, v) && i < |v.files| && v.free != {} && Und(j) !in v.files[i].ptrs && b == Least(v.free)
    requires var x := Fill(v, i, Und(j));
             w == PutPtr(x.(free := Release(l, x.free, b)), i, Und(j), 0)
    ensures w == v
  {
    assert w.files[i].ptrs == v.files[i].ptrs;
    assert w.files == v.files;
    assert w.free == v.free;
  }

  ghost function FillUnder(v: Volume, i: nat, j: nat, d: nat): (r: (Volume, bool))
    requires i < |v.files|
    ensures |r.0.files| == |v.files|
  {
    if Und(j) in v.files[i].ptrs then
      if v.free == {} then (v, false) else (Fill(v, i, UndEntry(j, d)), true)
    else if v.free == {} then (v, false)
    else
      var w := Fill(v, i, Und(j));
      if w.free == {} then (v, false) else (Fill(w, i, UndEntry(j, d)), true)
  }

  /** What `NewSlots` asks for behind the doubly indirect block. */
  ghost function FillTree(v: Volume, i: nat, j: nat, d: nat): (r: (Volume, bool))
    requires i < |v.files|
    ensures |r.0.files| == |v.files|
  {
    if Ind2 in v.files[i].ptrs then FillUnder(v, i, j, d)
    else if v.free == {} then (v, false)
    else
      var (w, ok) := FillUnder(Fill(v, i, Ind2), i, j, d);
      if ok then (w, true) else (v, false)
  }

  lemma FillAllStep(v: Volume, i: nat, s: Slot, rest: seq<Slot>)
    requires i < |v.files|
    ensures |[s] + rest| <= |v.free| <==> v.free != {} && |rest| <= |Fill(v, i, s).free|
    ensures |[s] + rest| <= |v.free| ==> FillAll(v, i, [s] + rest) == FillAll(Fill(v, i, s), i, rest)
  {
    if v.free != {} {
      assert |Fill(v, i, s).free| == |v.free| - 1;
      assert ([s] + rest)[1..] == rest;
    }
  }

  lemma UnderSlots(v: Volume, i: nat, j: nat, d: nat)
    requires i < |v.files|
    ensures var slots := (if Und(j) in v.files[i].ptrs then [] else [Und(j)]) + [UndEntry(j, d)];
            var (w, ok) := FillUnder(v, i, j, d);
            && (ok <==> |slots| <= |v.free|)
            && (ok ==> w == FillAll(v, i, slots))
  {
    hide FillAll;
    var last := [UndEntry(j, d)];
    assert last == last + [] && [] + last == last;
    var x := if Und(j) in v.files[i].ptrs || v.free == {} then v else Fill(v, i, Und(j));
    FillAllStep(x, i, UndEntry(j, d), []);
    if x.free != {} {
      FillAllNone(Fill(x, i, UndEntry(j, d)), i);
    }
    if Und(j) !in v.files[i].ptrs {
      FillAllStep(v, i, Und(j), last);
    }
  }

  lemma TreeSlots(v: Volume, i: nat, n: nat)
    requires i < |v.files| && IndirIndex(n) > 0 && n < MAXFILEBLKS
    ensures var slots := NewSlots(v.files[i].ptrs, n);
            var (w, ok) := FillTree(v, i, IndirIndex(n), DirectIndex(n));
            && (ok <==> |slots| <= |v.free|)
            && (ok ==> w == FillAll(v, i, slots))
  {
    var j, d := IndirIndex(n), DirectIndex(n);
    var p := v.files[i].ptrs;
    var tail := (if Und(j) in p then [] else [Und(j)]) + [UndEntry(j, d)];
    hide FillAll, FillUnder;
    if Ind2 in p {
      assert NewSlots(p, n) == tail;
      UnderSlots(v, i, j, d);
    } else {
      assert NewSlots(p, n) == [Ind2] + tail;
      FillAllStep(v, i, Ind2, tail);
      if v.free != {} {
        UnderSlots(Fill(v, i, Ind2), i, j, d);
      }
    }
  }

  lemma FillAllNone(v: Volume, i: nat)
    requires i < |v.files|
    ensures FillAll(v, i, []) == v
  {
  }

  lemma UndoneIsSame(l: Layout, v: Volume, i: nat, b: nat, w: Volume)
    requires Sound(l, v) && i < |v.files| && v.free != {} && Ind !in v.files[i].ptrs && b == Least(v.free)
    requires var x := Fill(v, i, Ind);
             w == SetPtrs(x.(free := Release(l, x.free, b)), i, DropInd(x.files[i].ptrs))
    ensures w == v
  {
    WithoutIndNoEntries(l, v, i);
    assert w.files[i].ptrs == v.files[i].ptrs;
    assert w.files == v.files;
    assert w.free == v.free;
  }

  lemma OthersKeptOn(d0: seq<Block>, d1: seq<Block>, d2: seq<Block>, v: Volume, i: nat, s: Slot)
    requires i < |v.files| && v.free != {} && !IsData(s)
    requires OthersKept(d0, d1, v, i) && OthersKept(d1, d2, Fill(v, i, s), i)
    ensures OthersKept(d0, d2, v, i)
  {
    var w := Fill(v, i, s);
    forall b: nat | b < |d0| && b !in v.free && HoldsNone(v.files[i].ptrs, b)
      ensures HoldsNone(w.files[i].ptrs, b)
    {
    }
  }

  lemma NothingWritten(disk: seq<Block>, v: Volume, i: nat)
    requires i < |v.files|
    ensures OthersKept(disk, disk, v, i)
  {
  }

  /** A free block cleared, and one word stored in a pointer block of the file. */
  lemma OthersKeptStore(d0: seq<Block>, d1: seq<Block>, d2: seq<Block>, v: Volume, i: nat, b: nat, s: Slot)
    requires i < |v.files| && b in v.free && b < |d0| && d1 == d0[b := ZeroedBlock()] && |d2| == |d1|
    requires s in v.files[i].ptrs && (s.Ind? || s.Ind2? || s.Und?)
    requires forall c :: 0 <= c < |d1| && c != v.files[i].ptrs[s] ==> d2[c] == d1[c]
    ensures OthersKept(d0, d2, v, i)
  {
  }

  /** Shrinking adds no pointers. */
  ghost predicate FewerPointers(v: Volume, w: Volume, i: nat) {
    && i < |v.files| == |w.files|
    && forall s :: s in w.files[i].ptrs ==> s in v.files[i].ptrs && w.files[i].ptrs[s] == v.files[i].ptrs[s]
  }

  lemma RemoveBlockFewer(l: Layout, v: Volume, i: nat)
    requires Sound(l, v) && IsFile(v, i)
    ensures FewerPointers(v, RemoveBlock(l, v, i).0, i)
  {
    hide Removal;
    SoundIsClosed(l, v, i);
    if NBlocks(v, i) > 0 {
      RemovalGivesUp(l, v.free, v.files[i].ptrs, NBlocks(v, i) - 1);
    }
  }

  lemma RemoveBlockShrinks(l: Layout, v: Volume, i: nat)
    requires IsFile(v, i) && NBlocks(v, i) > 0
    ensures RemoveBlock(l, v, i).1 == Ok ==>
              IsFile(RemoveBlock(l, v, i).0, i) && NBlocks(RemoveBlock(l, v, i).0, i) == NBlocks(v, i) - 1
  {
    hide Removal;
    SizeStep(v.files[i].size);
  }

  lemma DataKeptOn(d0: seq<Block>, d1: seq<Block>, d2: seq<Block>, v: Volume, x: Volume, i: nat)
    requires FewerPointers(v, x, i) && DataKept(d0, d1, v, i) && DataKept(d1, d2, x, i)
    ensures DataKept(d0, d2, v, i)
  {
    forall b: nat | 0 < b && HoldsNone(v.files[i].ptrs, b)
      ensures HoldsNone(x.files[i].ptrs, b)
    {
    }
  }

  lemma RemovalTooFar(l: Layout, free: set<nat>, p: map<Slot, nat>, last: nat)
    requires last >= MAXFILEBLKS
    ensures Removal(l, free, p, last) == (free, p, IOError)
  {
  }

  lemma RemovalFailed(l: Layout, v: Volume, i: nat, last: nat)
    requires i < |v.files| && Removal(l, v.free, v.files[i].ptrs, last).2 != Ok
    ensures WithRemoval(v, i, Removal(l, v.free, v.files[i].ptrs, last)) == v
    ensures Removal(l, v.free, v.files[i].ptrs, last).2 == IOError
  {
    assert v.files[i := v.files[i]] == v.files;
  }

  lemma RemovalDone(l: Layout, v: Volume, i: nat)
    requires i < |v.files| && NBlocks(v, i) > 0
    requires Removal(l, v.free, v.files[i].ptrs, NBlocks(v, i) - 1).2 == Ok
    ensures var w := WithRemoval(v, i, Removal(l, v.free, v.files[i].ptrs, NBlocks(v, i) - 1));
            (SetSize(w, i, ShrinkSize(v.files[i].size)), Ok) == RemoveBlock(l, v, i)
  {
    hide Removal;
    var r := Removal(l, v.free, v.files[i].ptrs, NBlocks(v, i) - 1);
    var w := SetSize(WithRemoval(v, i, r), i, ShrinkSize(v.files[i].size));
    assert w.files == Shrunk(v, i, r).0.files;
  }

  function WithRemoval(v: Volume, i: nat, r: (set<nat>, map<Slot, nat>, Status)): Volume
    requires i < |v.files|
  {
    Volume(r.0, v.files[i := v.files[i].(ptrs := r.1)])
  }

  class Ospfs {
    const layout: Layout
    const bitmap: array<bv32>
    const disk: array<Block>
    const inodes: array<Inode>

    constructor (layout: Layout, bitmap: array<bv32>, disk: array<Block>, inodes: array<Inode>)
      ensures this.layout == layout && this.bitmap == bitmap && this.disk == disk && this.inodes == inodes
    {
      this.layout := layout;
      this.bitmap := bitmap;
      this.disk := disk;
      this.inodes := inodes;
    }

    ghost predicate Shape()
      reads disk, inodes
    {
      && layout.Valid()
      && bitmap as object != disk as object && bitmap as object != inodes as object
      && disk as object != inodes as object
      && layout.nblocks <= 32 * bitmap.Length
      && disk.Length == layout.nblocks
      && inodes.Length == layout.ninodes
      && ValidInodes(inodes[..])
      && Blank(disk[0])
    }

    ghost function View(): (v: Volume)
      requires Shape()
      reads bitmap, disk, inodes
      ensures |v.files| == layout.ninodes
    {
      Volume(FreeBelow(bitmap[..], layout.nblocks), FilesOf(inodes[..], disk[..]))
    }

    ghost predicate Valid()
      reads bitmap, disk, inodes
    {
      Shape() && Sound(layout, View())
    }

    /** `allocate_block`: the lowest free block, or 0. */
    method AllocateBlock() returns (b: nat)
      requires Shape() && 0 !in View().free
      modifies bitmap
      ensures Shape()
      ensures old(View()).free == {} ==> b == 0 && View() == old(View())
      ensures old(View()).free != {} ==>
                b == Least(old(View()).free) && View() == old(View()).(free := old(View()).free - {b})
    {
      var i := 0;
      while i < layout.nblocks
        invariant i <= layout.nblocks
        invariant bitmap[..] == old(bitmap[..])
        invariant forall c: nat :: c < i ==> c !in old(View()).free
      {
        var r := Test(bitmap, i);
        if r {
          Clear(bitmap, i);
          assert i in old(View()).free;
          assert View().free == old(View()).free - {i};
          return i;
        }
        i := i + 1;
      }
      assert old(View()).free == {};
      return 0;
    }

    /** `free_block`: refuses everything up to one block behind the inode table
        as `ninodes / 16` counts it. */
    method FreeBlock(b: nat)
      requires Shape() && b < layout.nblocks
      modifies bitmap
      ensures Shape()
      ensures View() == old(View()).(free := Release(layout, old(View()).free, b))
    {
      if b <= layout.firstinob + layout.ninodes / BLKINODES {
        return;
      }
      Set(bitmap, b);
      assert View().free == old(View()).free + {b};
    }

    // ------------------------------------------- storing block numbers

    method SetDirect(i: nat, k: nat, w: uint32)
      requires Shape() && i < inodes.Length && !inodes[i].ftype.Symlink? && k < NDIRECT
      modifies inodes
      ensures Shape() && View() == PutPtr(old(View()), i, Direct(k), w)
      ensures inodes[..] == old(inodes[..])[i := old(inodes[i]).(direct := old(inodes[i]).direct[k := w])]
    {
      var ino := inodes[i].(direct := inodes[i].direct[k := w]);
      DirectSet(inodes[i], disk[..], k, w);
      SetInode(i, ino);
    }

    method SetInode(i: nat, ino: Inode)
      requires Shape() && i < inodes.Length && ValidInode(ino)
      modifies inodes
      ensures Shape() && inodes[..] == old(inodes[..])[i := ino]
      ensures View() == old(View()).(files := old(View()).files[i := FileOf(ino, disk[..])])
    {
      InodeReplaced(inodes[..], disk[..], i, ino);
      inodes[i] := ino;
      assert inodes[..] == old(inodes[..])[i := ino];
    }

    method SetIndirect(i: nat, w: uint32)
      requires Shape() && i < inodes.Length && !inodes[i].ftype.Symlink?
      requires w == 0 || (inodes[i].indirect == 0 && w < layout.nblocks && Blank(disk[w]))
      modifies inodes
      ensures Shape()
      ensures View() == if w == 0 then SetPtrs(old(View()), i, DropInd(old(View()).files[i].ptrs))
                        else PutPtr(old(View()), i, Ind, w)
      ensures inodes[..] == old(inodes[..])[i := old(inodes[i]).(indirect := w)]
    {
      if w == 0 {
        IndCleared(inodes[i], disk[..]);
      } else {
        IndSet(inodes[i], disk[..], w);
      }
      SetInode(i, inodes[i].(indirect := w));
    }

    method SetIndirect2(i: nat, w: uint32)
      requires Shape() && i < inodes.Length && !inodes[i].ftype.Symlink?
      requires w == 0 || (inodes[i].indirect2 == 0 && w < layout.nblocks && Blank(disk[w]))
      modifies inodes
      ensures Shape()
      ensures View() == if w == 0 then SetPtrs(old(View()), i, DropInd2(old(View()).files[i].ptrs))
                        else PutPtr(old(View()), i, Ind2, w)
      ensures inodes[..] == old(inodes[..])[i := old(inodes[i]).(indirect2 := w)]
    {
      if w == 0 {
        Ind2Cleared(inodes[i], disk[..]);
      } else {
        Ind2Set(inodes[i], disk[..], w);
      }
      SetInode(i, inodes[i].(indirect2 := w));
    }

    /** `((uint32_t *) ospfs_block(b))[k] = w`. */
    method StoreWord(b: nat, k: nat, w: uint32)
      requires Shape() && 0 < b < disk.Length && k < NINDIRECT
      modifies disk
      ensures Shape()
      ensures disk[..] == old(disk[..])[b := PutWord(old(disk[b]), k, w)]
      ensures View() == old(View()).(files := FilesOf(inodes[..], disk[..]))
    {
      disk[b] := PutWord(disk[b], k, w);
    }

    method SetIndEntry(i: nat, k: nat, w: uint32)
      requires Shape() && i < inodes.Length && !inodes[i].ftype.Symlink? && k < NINDIRECT
      requires Named(layout, View()) && inodes[i].indirect != 0
      modifies disk
      ensures Shape() && View() == PutPtr(old(View()), i, IndEntry(k), w)
      ensures forall b :: 0 <= b < disk.Length && b != inodes[i].indirect ==> disk[b] == old(disk[b])
    {
      IndEntryStored(layout, inodes[..], disk[..], i, k, w, View());
      StoreWord(inodes[i].indirect, k, w);
    }

    method SetUnd(i: nat, j: nat, w: uint32)
      requires Shape() && i < inodes.Length && !inodes[i].ftype.Symlink? && j < NINDIRECT
      requires Named(layout, View()) && inodes[i].indirect2 != 0
      requires w != inodes[i].indirect2 && (w != 0 ==> w < layout.nblocks && Blank(disk[w]))
      requires EmptyUnder(View().files[i].ptrs, j)
      modifies disk
      ensures Shape() && View() == PutPtr(old(View()), i, Und(j), w)
      ensures forall b :: 0 <= b < disk.Length && b != inodes[i].indirect2 ==> disk[b] == old(disk[b])
    {
      hide Blank, Word, PutWord, Injective, HasPtr;
      UndStored(layout, inodes[..], disk[..], i, j, w, View());
      StoreWord(inodes[i].indirect2, j, w);
    }

    method SetUndEntry(i: nat, j: nat, k: nat, w: uint32)
      requires Shape() && i < inodes.Length && !inodes[i].ftype.Symlink? && j < NINDIRECT && k < NINDIRECT
      requires Named(layout, View()) && Und(j) in View().files[i].ptrs
      modifies disk
      ensures Shape() && View() == PutPtr(old(View()), i, UndEntry(j, k), w)
      ensures forall b :: 0 <= b < disk.Length && b != old(View()).files[i].ptrs[Und(j)] ==> disk[b] == old(disk[b])
    {
      UndEntryStored(layout, inodes[..], disk[..], i, j, k, w, View());
      StoreWord(Word(disk[inodes[i].indirect2], j), k, w);
    }
  
    /** `memset(ospfs_block(b), 0, OSPFS_BLKSIZE)` on a block no pointers are in. */
    method ZeroBlock(b: nat)
      requires Shape() && 0 < b < disk.Length && NoPointersIn(View(), b)
      modifies disk
      ensures Shape() && View() == old(View())
      ensures disk[..] == old(disk[..])[b := ZeroedBlock()] && Blank(disk[b])
    {
      FilesSameElsewhere(inodes[..], disk[..], b, ZeroedBlock(), View());
      ZeroBlockIsBlank();
      disk[b] := ZeroedBlock();
      assert disk[..] == old(disk[..])[b := ZeroedBlock()];
    }

    // ---------------------------------------------------------- add_block

    /** `allocate_block` and `memset`. */
    method TakeBlock() returns (b: nat)
      requires Valid()
      modifies bitmap, disk
      ensures Shape() && b < layout.nblocks && (b == 0 <==> old(View()).free == {})
      ensures b == 0 ==> View() == old(View()) && disk[..] == old(disk[..])
      ensures b != 0 ==>
                && b == Least(old(View()).free) && View() == old(View()).(free := old(View()).free - {b})
                && disk[..] == old(disk[..])[b := ZeroedBlock()] && Blank(disk[b])
    {
      ghost var v := View();
      b := AllocateBlock();
      if b == 0 {
        return;
      }
      FreeHoldsNothing(layout, v, b);
      ZeroBlock(b);
    }

    method AddDirect(i: nat, n: nat) returns (r: Status, new_block: nat)
      requires Valid() && IsFile(View(), i) && n < NDIRECT
      modifies bitmap, disk, inodes
      ensures Valid() && OthersKept(old(disk[..]), disk[..], old(View()), i) && r != IOError
      ensures r == Ok <==> old(View()).free != {}
      ensures View() == if r == Ok then Fill(old(View()), i, Direct(n)) else old(View())
      ensures r == Ok ==> new_block < disk.Length && disk[new_block] == ZeroedBlock()
                          && Direct(n) in View().files[i].ptrs && View().files[i].ptrs[Direct(n)] == new_block
    {
      ghost var v := View();
      new_block := TakeBlock();
      if new_block == 0 {
        return NoSpace, 0;
      }
      SetDirect(i, n, new_block);
      FillSound(layout, v, i, Direct(n));
      return Ok, new_block;
    }

    /** A slot of the map is present when the word on the disk is not 0. */
    lemma Present(i: nat)
      requires Shape() && IsFile(View(), i)
      ensures View().files[i].size == inodes[i].size && !inodes[i].ftype.Symlink?
      ensures Ind in View().files[i].ptrs <==> inodes[i].indirect != 0
      ensures Ind2 in View().files[i].ptrs <==> inodes[i].indirect2 != 0
      ensures PtrOr0(View().files[i].ptrs, Ind2) == inodes[i].indirect2
      ensures PtrOr0(View().files[i].ptrs, Ind) == inodes[i].indirect
    {
      assert Ind in View().files[i].ptrs <==> PtrAt(inodes[i], disk[..], Ind) != 0;
      assert Ind2 in View().files[i].ptrs <==> PtrAt(inodes[i], disk[..], Ind2) != 0;
    }

    /** Allocate and clear the block for the pointer slot `Ind`. */
    method AddIndirect(i: nat) returns (b: nat)
      requires Valid() && IsFile(View(), i) && inodes[i].indirect == 0
      modifies bitmap, disk, inodes
      ensures Valid() && OthersKept(old(disk[..]), disk[..], old(View()), i) && b < layout.nblocks
      ensures b == 0 ==> old(View()).free == {} && View() == old(View())
      ensures b != 0 ==> old(View()).free != {} && View() == Fill(old(View()), i, Ind) && b == Least(old(View()).free)
    {
      ghost var v := View();
      b := TakeBlock();
      if b == 0 {
        return;
      }
      SetIndirect(i, b);
      assert Ind !in v.files[i].ptrs;
      FillSound(layout, v, i, Ind);
    }

    /** Allocate and clear a data block and store it in slot `IndEntry(d)`. */
    method AddIndEntry(i: nat, d: nat) returns (b: nat)
      requires Valid() && IsFile(View(), i) && inodes[i].indirect != 0 && d < NINDIRECT
      modifies bitmap, disk
      ensures Valid() && OthersKept(old(disk[..]), disk[..], old(View()), i) && b < layout.nblocks
      ensures b == 0 ==> old(View()).free == {} && View() == old(View())
      ensures b != 0 ==> old(View()).free != {} && View() == Fill(old(View()), i, IndEntry(d))
                         && b == Least(old(View()).free) && disk[b] == ZeroedBlock()
    {
      hide OthersKept, View;
      Present(i);
      ghost var v, d0 := View(), disk[..];
      b := TakeBlock();
      if b == 0 {
        NothingWritten(d0, v, i);
        return;
      }
      ghost var d1 := disk[..];
      assert Ind in v.files[i].ptrs && HasPtr(v, i, Ind);
      FillSound(layout, v, i, IndEntry(d));
      SoundIsNamed(layout, v);
      NamedWhateverFree(layout, v, v.free - {b});
      SetIndEntry(i, d, b);
      OthersKeptStore(d0, d1, disk[..], v, i, b, Ind);
    }
  
    /** Give back an indirect block that was just added. */
    method UndoIndirect(i: nat, newInd: nat, ghost v: Volume)
      requires Shape() && IsFile(View(), i) && newInd < layout.nblocks && Sound(layout, v) && i < |v.files|
      requires if newInd == 0 then View() == v
               else v.free != {} && Ind !in v.files[i].ptrs && newInd == Least(v.free) && View() == Fill(v, i, Ind)
      modifies bitmap, inodes
      ensures Shape() && View() == v
    {
      assert layout.Refused(0);
      FreeBlock(newInd);
      if newInd != 0 {
        SetIndirect(i, 0);
        WithoutIndNoEntries(layout, v, i);
        UndoneIsSame(layout, v, i, newInd, View());
      }
    }

    method AddUnderIndirect(i: nat, n: nat) returns (r: Status, new_block: nat)
      requires Valid() && IsFile(View(), i) && IndirIndex(n) == 0
      modifies bitmap, disk, inodes
      ensures Valid() && OthersKept(old(disk[..]), disk[..], old(View()), i) && r != IOError
      ensures var v, slots := old(View()), NewSlots(old(View()).files[i].ptrs, n);
              && (r == Ok <==> |slots| <= |v.free|)
              && View() == if r == Ok then FillAll(v, i, slots) else v
      ensures r == Ok ==> new_block < disk.Length && disk[new_block] == ZeroedBlock()
                          && IndEntry(DirectIndex(n)) in View().files[i].ptrs
                          && View().files[i].ptrs[IndEntry(DirectIndex(n))] == new_block
    {
      hide NewSlots, FillAll, View, Sound, OthersKept;
      ghost var v := View();
      ghost var d0 := disk[..];
      IndSlots(v, i, n);
      Present(i);
      var newInd := 0;
      if inodes[i].indirect == 0 {
        newInd := AddIndirect(i);
        if newInd == 0 {
          return NoSpace, 0;
        }
      }
      ghost var d1 := disk[..];
      Present(i);
      new_block := AddIndEntry(i, DirectIndex(n));
      if newInd != 0 {
        OthersKeptOn(d0, d1, disk[..], v, i, Ind);
      }
      if new_block == 0 {
        UndoIndirect(i, newInd, v);
        return NoSpace, 0;
      }
      return Ok, new_block;
    }
  
    method AddIndirect2(i: nat) returns (b: nat)
      requires Valid() && IsFile(View(), i) && inodes[i].indirect2 == 0
      modifies bitmap, disk, inodes
      ensures Valid() && OthersKept(old(disk[..]), disk[..], old(View()), i) && b < layout.nblocks
      ensures b == 0 ==> old(View()).free == {} && View() == old(View())
      ensures b != 0 ==> old(View()).free != {} && View() == Fill(old(View()), i, Ind2) && b == Least(old(View()).free)
    {
      ghost var v := View();
      b := TakeBlock();
      if b == 0 {
        return;
      }
      SetIndirect2(i, b);
      assert Ind2 !in v.files[i].ptrs;
      FillSound(layout, v, i, Ind2);
    }

    method AddUnd(i: nat, j: nat) returns (b: nat)
      requires Valid() && IsFile(View(), i) && inodes[i].indirect2 != 0 && j < NINDIRECT
      requires Und(j) !in View().files[i].ptrs
      modifies bitmap, disk
      ensures Valid() && OthersKept(old(disk[..]), disk[..], old(View()), i) && b < layout.nblocks
      ensures b == 0 ==> old(View()).free == {} && View() == old(View())
      ensures b != 0 ==>
          old(View()).free != {} && View() == Fill(old(View()), i, Und(j)) && b == Least(old(View()).free)
    {
      hide OthersKept, View;
      Present(i);
      ghost var v, d0 := View(), disk[..];
      b := TakeBlock();
      if b == 0 {
        NothingWritten(d0, v, i);
        return;
      }
      ghost var d1 := disk[..];
      Present(i);
      assert HasPtr(v, i, Ind2);
      FillSound(layout, v, i, Und(j));
      SoundIsNamed(layout, v);
      NamedWhateverFree(layout, v, v.free - {b});
      WithoutIndNoEntries(layout, v, i);
      SetUnd(i, j, b);
      OthersKeptStore(d0, d1, disk[..], v, i, b, Ind2);
    }

    method AddUndEntry(i: nat, j: nat, d: nat) returns (b: nat)
      requires Valid() && IsFile(View(), i) && j < NINDIRECT && d < NINDIRECT && Und(j) in View().files[i].ptrs
      modifies bitmap, disk
      ensures Valid() && OthersKept(old(disk[..]), disk[..], old(View()), i) && b < layout.nblocks
      ensures b == 0 ==> old(View()).free == {} && View() == old(View())
      ensures b != 0 ==> old(View()).free != {} && View() == Fill(old(View()), i, UndEntry(j, d))
                         && b == Least(old(View()).free) && disk[b] == ZeroedBlock()
    {
      hide OthersKept, View;
      Present(i);
      ghost var v, d0 := View(), disk[..];
      b := TakeBlock();
      if b == 0 {
        NothingWritten(d0, v, i);
        return;
      }
      ghost var d1 := disk[..];
      assert HasPtr(v, i, Und(j));
      FillSound(layout, v, i, UndEntry(j, d));
      SoundIsNamed(layout, v);
      NamedWhateverFree(layout, v, v.free - {b});
      SetUndEntry(i, j, d, b);
      OthersKeptStore(d0, d1, disk[..], v, i, b, Und(j));
    }
  
    method UndoUnd(i: nat, j: nat, newUnd: nat, ghost v: Volume)
      requires Shape() && IsFile(View(), i) && newUnd < layout.nblocks
      requires Sound(layout, v) && i < |v.files| && j < NINDIRECT
      requires inodes[i].indirect2 != 0 && Named(layout, View())
      requires if newUnd == 0 then View() == v
               else (&& v.free != {} && Und(j) !in v.files[i].ptrs
                     && newUnd == Least(v.free) && View() == Fill(v, i, Und(j)))
      modifies bitmap, disk
      ensures Shape() && View() == v
      ensures forall b :: 0 <= b < disk.Length && b != inodes[i].indirect2 ==> disk[b] == old(disk[b])
    {
      assert layout.Refused(0);
      ghost var x := View();
      FreeBlock(newUnd);
      if newUnd != 0 {
        NamedWhateverFree(layout, x, View().free);
        WithoutIndNoEntries(layout, v, i);
        SetUnd(i, j, 0);
        UndoneUndIsSame(layout, v, i, j, newUnd, View());
      }
    }

    method UndoIndirect2(i: nat, newInd2: nat, ghost v: Volume)
      requires Shape() && IsFile(View(), i) && newInd2 < layout.nblocks && Sound(layout, v) && i < |v.files|
      requires if newInd2 == 0 then View() == v
               else v.free != {} && Ind2 !in v.files[i].ptrs && newInd2 == Least(v.free) && View() == Fill(v, i, Ind2)
      modifies bitmap, inodes
      ensures Shape() && View() == v
    {
      assert layout.Refused(0);
      FreeBlock(newInd2);
      if newInd2 != 0 {
        SetIndirect2(i, 0);
        Undone2IsSame(layout, v, i, newInd2, View());
      }
    }

    /** `indirect2_block[j] == 0`. */
    lemma PresentUnd(i: nat, j: nat)
      requires Shape() && IsFile(View(), i) && Named(layout, View()) && inodes[i].indirect2 != 0 && j < NINDIRECT
      ensures inodes[i].indirect2 < disk.Length
      ensures Und(j) in View().files[i].ptrs <==> Word(disk[inodes[i].indirect2], j) != 0
      ensures Und(j) in View().files[i].ptrs ==>
          View().files[i].ptrs[Und(j)] == Word(disk[inodes[i].indirect2], j) < disk.Length
    {
      Present(i);
      assert HasPtr(View(), i, Ind2);
      assert Und(j) in View().files[i].ptrs <==> PtrAt(inodes[i], disk[..], Und(j)) != 0;
      if Und(j) in View().files[i].ptrs {
        assert HasPtr(View(), i, Und(j));
      }
    }

    method AddUnder(i: nat, j: nat, d: nat) returns (r: Status, new_block: nat)
      requires Valid() && IsFile(View(), i) && inodes[i].indirect2 != 0 && j < NINDIRECT && d < NINDIRECT
      modifies bitmap, disk
      ensures Valid() && OthersKept(old(disk[..]), disk[..], old(View()), i) && r != IOError
      ensures FillUnder(old(View()), i, j, d) == (if r == Ok then View() else old(View()), r == Ok)
      ensures r != Ok ==> View() == old(View())
      ensures r == Ok ==> new_block < disk.Length && disk[new_block] == ZeroedBlock()
                          && UndEntry(j, d) in View().files[i].ptrs
                          && View().files[i].ptrs[UndEntry(j, d)] == new_block
    {
      hide View, Sound, OthersKept, Named, Word, PtrOr0, HoldsNone, Injective, HasPtr;
      ghost var v := View();
      ghost var d0 := disk[..];
      SoundIsNamed(layout, v);
      Present(i);
      PresentUnd(i, j);
      var newUnd := 0;
      if Word(disk[inodes[i].indirect2], j) == 0 {
        newUnd := AddUnd(i, j);
        if newUnd == 0 {
          return NoSpace, 0;
        }
      }
      ghost var d1 := disk[..];
      new_block := AddUndEntry(i, j, d);
      if newUnd != 0 {
        OthersKeptOn(d0, d1, disk[..], v, i, Und(j));
      }
      if new_block == 0 {
        SoundIsNamed(layout, View());
        ghost var d2 := disk[..];
        UndoUnd(i, j, newUnd, v);
        OthersKeptLast(d0, d2, disk[..], v, i, inodes[i].indirect2);
        return NoSpace, 0;
      }
      return Ok, new_block;
    }
  
    method AddUnderIndirect2(i: nat, n: nat) returns (r: Status, new_block: nat)
      requires Valid() && IsFile(View(), i) && IndirIndex(n) > 0 && n < MAXFILEBLKS
      modifies bitmap, disk, inodes
      ensures Valid() && OthersKept(old(disk[..]), disk[..], old(View()), i) && r != IOError
      ensures var v, slots := old(View()), NewSlots(old(View()).files[i].ptrs, n);
              && (r == Ok <==> |slots| <= |v.free|)
              && View() == if r == Ok then FillAll(v, i, slots) else v
      ensures r == Ok ==> new_block < disk.Length && disk[new_block] == ZeroedBlock()
                          && UndEntry(IndirIndex(n), DirectIndex(n)) in View().files[i].ptrs
                          && View().files[i].ptrs[UndEntry(IndirIndex(n), DirectIndex(n))] == new_block
    {
      hide NewSlots, FillAll, View, Sound, OthersKept, FillUnder;
      ghost var v := View();
      ghost var d0 := disk[..];
      TreeSlots(v, i, n);
      Present(i);
      var newInd2 := 0;
      if inodes[i].indirect2 == 0 {
        newInd2 := AddIndirect2(i);
        if newInd2 == 0 {
          return NoSpace, 0;
        }
      }
      ghost var d1 := disk[..];
      Present(i);
      r, new_block := AddUnder(i, IndirIndex(n), DirectIndex(n));
      if newInd2 != 0 {
        OthersKeptOn(d0, d1, disk[..], v, i, Ind2);
      }
      if r != Ok {
        UndoIndirect2(i, newInd2, v);
      }
    }

    /** `add_block`. */
    method AddBlock(i: nat) returns (r: Status)
      requires Valid() && IsFile(View(), i) && NBlocks(View(), i) < MAXFILEBLKS
      modifies bitmap, disk, inodes
      ensures Valid() && OthersKept(old(disk[..]), disk[..], old(View()), i)
      ensures (View(), r) == OspfsVolume.AddBlock(old(View()), i)
      ensures r == Ok ==> var s := StoreSlot(old(NBlocks(View(), i)));
                          s in View().files[i].ptrs && View().files[i].ptrs[s] < disk.Length
                          && disk[View().files[i].ptrs[s]] == ZeroedBlock()
    {
      hide View, Sound, OthersKept, FillAll;
      ghost var v := View();
      Present(i);
      AddBlockSound(layout, v, i);
      var n := Size2NBlocks(inodes[i].size);
      var new_block;
      if IndirIndex(n) == -1 {
        FillAllUpTo2(v, i, [Direct(n)]);
        r, new_block := AddDirect(i, n);
      } else if IndirIndex(n) == 0 {
        r, new_block := AddUnderIndirect(i, n);
      } else {
        r, new_block := AddUnderIndirect2(i, n);
      }
      Present(i);
      if r == Ok {
        SetSizeField(i, GrowSize(inodes[i].size));
      }
    }

    method SetSizeField(i: nat, size: uint32)
      requires Shape() && i < inodes.Length
      modifies inodes
      ensures Shape() && inodes[..] == old(inodes[..])[i := old(inodes[i]).(size := size)]
      ensures View() == SetSize(old(View()), i, size)
    {
      SamePtrs(inodes[i], inodes[i].(size := size), disk[..], disk[..]);
      SetInode(i, inodes[i].(size := size));
    }
  
    // ------------------------------------------------------- remove_block

    /** The data pointers of file `i` as the words on the disk. */
    lemma PresentData(i: nat, s: Slot)
      requires Shape() && IsFile(View(), i) && Named(layout, View()) && ValidSlot(s)
      ensures s in View().files[i].ptrs <==> PtrAt(inodes[i], disk[..], s) != 0
      ensures s in View().files[i].ptrs ==> View().files[i].ptrs[s] == PtrAt(inodes[i], disk[..], s) < disk.Length
    {
      if s in View().files[i].ptrs {
        assert HasPtr(View(), i, s);
      }
    }

    method RemoveDirect(i: nat, last: nat) returns (r: Status)
      requires Valid() && IsFile(View(), i) && last < NDIRECT
      modifies bitmap, inodes
      ensures Shape()
      ensures View() == WithRemoval(old(View()), i, Removal(layout, old(View()).free, old(View()).files[i].ptrs, last))
      ensures r == Removal(layout, old(View()).free, old(View()).files[i].ptrs, last).2
    {
      hide View, Sound, Named;
      SoundIsNamed(layout, View());
      PresentData(i, Direct(last));
      Present(i);
      if inodes[i].direct[last] == 0 {
        return IOError;
      }
      FreeBlock(inodes[i].direct[last]);
      SetDirect(i, last, 0);
      return Ok;
    }

    method RemoveUnderIndirect(i: nat, last: nat) returns (r: Status)
      requires Valid() && IsFile(View(), i) && NDIRECT <= last < NDIRECT + NINDIRECT
      modifies bitmap, disk, inodes
      ensures Shape() && DataKept(old(disk[..]), disk[..], old(View()), i)
      ensures View() == WithRemoval(old(View()), i, Removal(layout, old(View()).free, old(View()).files[i].ptrs, last))
      ensures r == Removal(layout, old(View()).free, old(View()).files[i].ptrs, last).2
    {
      hide View, Sound, Named, Word;
      ghost var v := View();
      SoundIsNamed(layout, v);
      Present(i);
      PresentData(i, Ind);
      if inodes[i].indirect == 0 {
        return IOError;
      }
      var index := DirectIndex(last);
      PresentData(i, IndEntry(index));
      var b := Word(disk[inodes[i].indirect], index);
      if b == 0 {
        return IOError;
      }
      FreeBlock(b);
      NamedWhateverFree(layout, v, View().free);
      SetIndEntry(i, index, 0);
      if index == 0 {
        FreeBlock(inodes[i].indirect);
        SetIndirect(i, 0);
      }
      return Ok;
    }
  
    /** The pointer cleared when a block under the doubly indirect one becomes
        empty is `oi_indirect`, as in the source. */
    method RemoveUnderIndirect2(i: nat, last: nat) returns (r: Status)
      requires Valid() && IsFile(View(), i) && NDIRECT + NINDIRECT <= last < MAXFILEBLKS
      modifies bitmap, disk, inodes
      ensures Shape() && DataKept(old(disk[..]), disk[..], old(View()), i)
      ensures View() == WithRemoval(old(View()), i, Removal(layout, old(View()).free, old(View()).files[i].ptrs, last))
      ensures r == Removal(layout, old(View()).free, old(View()).files[i].ptrs, last).2
    {
      hide View, Sound, Named, Word;
      ghost var v := View();
      SoundIsNamed(layout, v);
      Present(i);
      if inodes[i].indirect2 == 0 {
        return IOError;
      }
      var j, d := IndirIndex(last), DirectIndex(last);
      PresentUnd(i, j);
      var indirect_block := Word(disk[inodes[i].indirect2], j);
      if indirect_block == 0 {
        return IOError;
      }
      PresentData(i, UndEntry(j, d));
      PresentData(i, Ind);
      PresentData(i, Ind2);
      var b := Word(disk[indirect_block], d);
      if b == 0 {
        return IOError;
      }
      FreeBlock(b);
      NamedWhateverFree(layout, v, View().free);
      SetUndEntry(i, j, d, 0);
      if d == 0 {
        Present(i);
        FreeBlock(inodes[i].indirect);
        SetIndirect(i, 0);
        if j == 0 {
          Present(i);
          FreeBlock(inodes[i].indirect2);
          SetIndirect2(i, 0);
        }
      }
      return Ok;
    }

    /** `remove_block`. */
    method RemoveBlock(i: nat) returns (r: Status)
      requires Valid() && IsFile(View(), i)
      modifies bitmap, disk, inodes
      ensures Valid() && DataKept(old(disk[..]), disk[..], old(View()), i)
      ensures (View(), r) == OspfsVolume.RemoveBlock(layout, old(View()), i)
    {
      hide View, Sound, Removal;
      ghost var v := View();
      Present(i);
      RemoveBlockSound(layout, v, i);
      var n := Size2NBlocks(inodes[i].size);
      if n == 0 {
        return Ok;
      }
      var last := n - 1;
      if last < NDIRECT {
        r := RemoveDirect(i, last);
      } else if last < NDIRECT + NINDIRECT {
        r := RemoveUnderIndirect(i, last);
      } else if last < MAXFILEBLKS {
        r := RemoveUnderIndirect2(i, last);
      } else {
        RemovalTooFar(layout, v.free, v.files[i].ptrs, last);
        return IOError;
      }
      Present(i);
      if r == Ok {
        RemovalDone(layout, v, i);
        SetSizeField(i, ShrinkSize(inodes[i].size));
      } else {
        RemovalFailed(layout, v, i, last);
      }
    }

    /** The second loop of `change_size`. */
    method ShrinkTo(i: nat, n: nat) returns (r: Status)
      requires Valid() && IsFile(View(), i)
      modifies bitmap, disk, inodes
      ensures Valid() && IsFile(View(), i) && DataKept(old(disk[..]), disk[..], old(View()), i)
      ensures (View(), r) == OspfsVolume.ShrinkTo(layout, old(View()), i, n)
      ensures NBlocks(old(View()), i) <= n ==> r == Ok && View() == old(View()) && disk[..] == old(disk[..])
    {
      hide View, Sound, OspfsVolume.RemoveBlock, Size2NBlocks;
      ghost var v := View();
      r := Ok;
      Present(i);
      while Size2NBlocks(inodes[i].size) > n
        invariant Valid() && IsFile(View(), i) && r == Ok
        invariant View().files[i].size == inodes[i].size
        invariant DataKept(old(disk[..]), disk[..], v, i)
        invariant FewerPointers(v, View(), i)
        invariant NBlocks(v, i) <= n ==> View() == v && disk[..] == old(disk[..])
        invariant OspfsVolume.ShrinkTo(layout, View(), i, n) == OspfsVolume.ShrinkTo(layout, v, i, n)
        decreases Size2NBlocks(inodes[i].size)
      {
        ghost var x, d1 := View(), disk[..];
        RemoveBlockShrinks(layout, x, i);
        r := RemoveBlock(i);
        RemoveBlockFewer(layout, x, i);
        DataKeptOn(old(disk[..]), d1, disk[..], v, x, i);
        if r != Ok {
          return;
        }
        Present(i);
      }
    }
  
    /** The first loop of `change_size`, stopped after `fuel` rounds: on a full
        disk it does not end. */
    method GrowTo(i: nat, base: nat, n: nat, fuel: nat) returns (out: Outcome)
      requires Valid() && IsFile(View(), i) && n <= MAXFILEBLKS
      modifies bitmap, disk, inodes
      ensures Valid() && IsFile(View(), i)
      ensures (View(), out) == OspfsVolume.GrowTo(layout, old(View()), i, base, n, fuel)
      ensures ElsewhereKept(old(disk[..]), disk[..], old(View()), i) && Within(old(View()), View(), i)
      ensures NBlocks(old(View()), i) >= n ==> disk[..] == old(disk[..])
      ensures GrowsCleanly(layout, old(View()), i, n) ==> NBlocks(View(), i) <= n
      ensures GrowsCleanly(layout, old(View()), i, n) ==>
                && OthersKept(old(disk[..]), disk[..], old(View()), i)
                && ZeroFrom(View(), disk[..], i, NBlocks(old(View()), i), NBlocks(View(), i))
    {
      hide View, Sound, Shaped, OspfsVolume.AddBlock, OspfsVolume.ShrinkTo,
          Size2NBlocks, OthersKept, DataKept, ZeroFrom;
      hide GrownTo, Room, CleanGrow, Elsewhere;
      ghost var v := View();
      ghost var clean := GrowsCleanly(layout, v, i, n);
      Present(i);
      ghost var a := NBlocks(v, i);
      if clean {
        StartsGrown(layout, v, i);
        StartsZero(v, disk[..], i);
      }
      var left := fuel;
      while Size2NBlocks(inodes[i].size) < n
        invariant Valid() && IsFile(View(), i)
        invariant View().files[i].size == inodes[i].size
        invariant OspfsVolume.GrowTo(layout, View(), i, base, n, left)
            == OspfsVolume.GrowTo(layout, v, i, base, n, fuel)
        invariant ElsewhereKept(old(disk[..]), disk[..], v, i) && Within(v, View(), i)
        invariant NBlocks(v, i) >= n ==> View() == v && disk[..] == old(disk[..])
        invariant clean ==> GrowthSoFar(layout, v, i, n, old(disk[..]), View(), disk[..])
        decreases left
      {
        if left == 0 {
          return Spinning;
        }
        ghost var x, d1 := View(), disk[..];
        var r := AddBlock(i);
        if clean {
          GrowthGoesOn(layout, v, i, n, old(disk[..]), x, d1, disk[..]);
        }
        AddBlockWithin(x, i);
        OthersAreElsewhere(d1, disk[..], x, i);
        ElsewhereOn(old(disk[..]), d1, disk[..], v, x, i);
        WithinOn(v, x, View(), i);
        if r != Ok {
          ghost var w, d2 := View(), disk[..];
          ShrinkToWithin(layout, w, i, base);
          r := ShrinkTo(i, base);
          DataIsElsewhere(d2, disk[..], w, i);
          ElsewhereOn(old(disk[..]), d2, disk[..], v, w, i);
          WithinOn(v, w, View(), i);
          if r != Ok {
            return Finished(r);
          }
        }
        left := left - 1;
        Present(i);
      }
      return Finished(Ok);
    }

    /** `change_size`. */
    method ChangeSize(i: nat, size: uint32, fuel: nat) returns (out: Outcome)
      requires Valid() && IsFile(View(), i) && Size2NBlocks(size) <= MAXFILEBLKS
      modifies bitmap, disk, inodes
      ensures Valid()
      ensures (View(), out) == OspfsVolume.ChangeSize(layout, old(View()), i, size, fuel)
      ensures ElsewhereKept(old(disk[..]), disk[..], old(View()), i) && Within(old(View()), View(), i)
      ensures GrowsCleanly(layout, old(View()), i, Size2NBlocks(size)) ==>
                && OthersKept(old(disk[..]), disk[..], old(View()), i)
                && ZeroFrom(View(), disk[..], i, NBlocks(old(View()), i), NBlocks(View(), i))
      ensures Size2NBlocks(size) <= NBlocks(old(View()), i) ==>
                DataKept(old(disk[..]), disk[..], old(View()), i)
    {
      hide View, Sound, Shaped, OspfsVolume.ShrinkTo, Size2NBlocks, OthersKept, ZeroFrom, DataKept, Elsewhere;
      ghost var v := View();
      ghost var d0 := disk[..];
      Present(i);
      var n := Size2NBlocks(size);
      out := GrowTo(i, Size2NBlocks(inodes[i].size), n, fuel);
      if n <= NBlocks(v, i) {
        assert View() == v;
      }
      if out != Finished(Ok) {
        return;
      }
      ghost var w, d1 := View(), disk[..];
      ShrinkToWithin(layout, w, i, n);
      var r := ShrinkTo(i, n);
      DataIsElsewhere(d1, disk[..], w, i);
      ElsewhereOn(d0, d1, disk[..], v, w, i);
      WithinOn(v, w, View(), i);
      if r != Ok {
        return Finished(r);
      }
      ChangeSizeSound(layout, v, i, size, fuel);
      if NBlocks(v, i) <= n {
        GrowLands(layout, v, i, NBlocks(v, i), n, fuel);
        ZeroFromSize(View(), disk[..], i, NBlocks(v, i), n, size);
      }
      WithinSize(View(), i, size);
      WithinOn(v, View(), SetSize(View(), i, size), i);
      SetSizeField(i, size);
    }
  }
}
