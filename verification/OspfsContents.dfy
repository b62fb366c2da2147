/** The bytes of a file, and what growing and shrinking any file does to them. */
module OspfsContents {
  import opened OspfsLayout
  import opened OspfsVolume
  import opened OspfsDisk
  import opened OspfsSafety
  import opened OspfsExact
  import opened OspfsCount
  import opened OspfsResize
  import opened OspfsGrow

  /** Growing file `i` of `v` writes only to free blocks and to those that
      hold the file's pointers. */
  ghost predicate OthersKept(before: seq<Block>, after: seq<Block>, v: Volume, i: nat)
    requires i < |v.files|
  {
    && |before| == |after|
    && forall b: nat :: b < |before| && b !in v.free && HoldsNone(v.files[i].ptrs, b) ==> before[b] == after[b]
  }

  /** Shrinking file `i` of `v` writes only to blocks that hold its pointers. */
  ghost predicate DataKept(before: seq<Block>, after: seq<Block>, v: Volume, i: nat)
    requires i < |v.files|
  {
    && |before| == |after|
    && forall b: nat :: 0 < b < |before| && HoldsNone(v.files[i].ptrs, b) ==> before[b] == after[b]
  }

  /** Block `b` is neither free nor one of file `i`'s own. */
  ghost predicate Elsewhere(v: Volume, i: nat, b: nat)
    requires i < |v.files|
  {
    b !in v.free && forall s :: s in v.files[i].ptrs ==> v.files[i].ptrs[s] != b
  }

  /** Only blocks that were free or file `i`'s own have been written. */
  ghost predicate ElsewhereKept(before: seq<Block>, after: seq<Block>, v: Volume, i: nat)
    requires i < |v.files|
  {
    && |before| == |after|
    && forall b: nat :: 0 < b < |before| && Elsewhere(v, i, b) ==> before[b] == after[b]
  }

  /** The free blocks and file `i`'s own in `w` were so in `v`. */
  ghost predicate Within(v: Volume, w: Volume, i: nat) {
    && i < |v.files| == |w.files|
    && forall b: nat :: Elsewhere(v, i, b) ==> Elsewhere(w, i, b)
  }

  lemma OthersAreElsewhere(before: seq<Block>, after: seq<Block>, v: Volume, i: nat)
    requires i < |v.files| && OthersKept(before, after, v, i)
    ensures ElsewhereKept(before, after, v, i)
  {
  }

  lemma DataIsElsewhere(before: seq<Block>, after: seq<Block>, v: Volume, i: nat)
    requires i < |v.files| && DataKept(before, after, v, i)
    ensures ElsewhereKept(before, after, v, i)
  {
  }

  lemma ElsewhereOn(d0: seq<Block>, d1: seq<Block>, d2: seq<Block>, v: Volume, x: Volume, i: nat)
    requires Within(v, x, i) && ElsewhereKept(d0, d1, v, i) && ElsewhereKept(d1, d2, x, i)
    ensures ElsewhereKept(d0, d2, v, i)
  {
    hide Elsewhere;
  }

  lemma WithinOn(v: Volume, x: Volume, w: Volume, i: nat)
    requires Within(v, x, i) && Within(x, w, i)
    ensures Within(v, w, i)
  {
    hide Elsewhere;
  }

  lemma WithinSize(v: Volume, i: nat, size: uint32)
    requires i < |v.files|
    ensures Within(v, SetSize(v, i, size), i)
  {
  }

  lemma {:induction false} FillAllWithin(v: Volume, i: nat, slots: seq<Slot>)
    requires i < |v.files| && |slots| <= |v.free|
    ensures Within(v, FillAll(v, i, slots), i)
    decreases |slots|
  {
    if slots != [] {
      assert v.free != {};
      FillAllWithin(Fill(v, i, slots[0]), i, slots[1..]);
    }
  }

  lemma AddBlockWithin(v: Volume, i: nat)
    requires i < |v.files| && NBlocks(v, i) < MAXFILEBLKS
    ensures Within(v, AddBlock(v, i).0, i)
  {
    var slots := NewSlots(v.files[i].ptrs, NBlocks(v, i));
    if |slots| <= |v.free| {
      FillAllWithin(v, i, slots);
    }
  }

  lemma {:induction false} ShrinkToWithin(l: Layout, v: Volume, i: nat, n: nat)
    requires Sound(l, v) && IsFile(v, i)
    ensures Within(v, ShrinkTo(l, v, i, n).0, i)
    decreases NBlocks(v, i)
  {
    hide Sound, Removal, Size2NBlocks, Elsewhere;
    if NBlocks(v, i) > n {
      var (w, st) := RemoveBlock(l, v, i);
      RemoveBlockWithin(l, v, i);
      if st == Ok {
        RemoveBlockSound(l, v, i);
        SizeStep(v.files[i].size);
        ShrinkToWithin(l, w, i, n);
      }
    }
  }

  lemma RemoveBlockWithin(l: Layout, v: Volume, i: nat)
    requires Sound(l, v) && IsFile(v, i)
    ensures Within(v, RemoveBlock(l, v, i).0, i)
  {
    hide Sound, Removal, Size2NBlocks;
    if NBlocks(v, i) > 0 {
      SoundIsClosed(l, v, i);
      RemovalGivesUp(l, v.free, v.files[i].ptrs, NBlocks(v, i) - 1);
    }
  }

  predicate IsZeroAt(p: map<Slot, nat>, disk: seq<Block>, s: Slot) {
    s in p && p[s] < |disk| && disk[p[s]] == ZeroedBlock()
  }

  /** File blocks `a` up to `n` are there and hold zeros only. */
  ghost predicate ZeroFrom(v: Volume, disk: seq<Block>, i: nat, a: nat, n: nat)
    requires i < |v.files|
  {
    forall k :: a <= k < n && k < MAXFILEBLKS ==> IsZeroAt(v.files[i].ptrs, disk, DataSlot(k))
  }

  /** A block of a data slot holds nobody's pointers. */
  lemma DataHoldsNone(v: Volume, i: nat, s: Slot, j: nat)
    requires Injective(v) && HasPtr(v, i, s) && IsData(s) && j < |v.files| && v.files[i].ptrs[s] != 0
    ensures HoldsNone(v.files[j].ptrs, v.files[i].ptrs[s])
  {
    assert forall t :: t in v.files[j].ptrs ==> HasPtr(v, j, t);
  }

  lemma OthersKeptGrown(l: Layout, d0: seq<Block>, d1: seq<Block>, d2: seq<Block>, v: Volume, i: nat, c: nat, x: Volume)
    requires IsFile(v, i) && GrownTo(l, v, i, c, x)
    requires OthersKept(d0, d1, v, i) && OthersKept(d1, d2, x, i)
    ensures OthersKept(d0, d2, v, i)
  {
    hide Sound, Shaped, Needed, Size2NBlocks, TreeSize;
    var a := NBlocks(v, i);
    var p, q := v.files[i].ptrs, x.files[i].ptrs;
    assert p == Kept(q, a) && v.free == x.free + Dropped(q, a);
    forall b: nat | b < |d0| && b !in v.free && HoldsNone(p, b)
      ensures b !in x.free && (b == 0 || HoldsNone(q, b))
    {
      assert forall s :: s in q && s !in p ==> q[s] in Dropped(q, a);
    }
  }

  /** The file is in shape, there is room for the new blocks, and none of them is
      misfiled.  The other files may be in any state. */
  ghost predicate GrowsCleanly(l: Layout, v: Volume, i: nat, n: nat) {
    && GoodFile(l, v, i) && NBlocks(v, i) <= n <= MAXFILEBLKS
    && CleanGrow(NBlocks(v, i), n) && Room(v, i, n)
  }

  ghost predicate GrowthSoFar(l: Layout, v: Volume, i: nat, n: nat, d0: seq<Block>, x: Volume, d1: seq<Block>)
    requires IsFile(v, i) && IsFile(x, i)
  {
    && NBlocks(v, i) <= NBlocks(x, i) <= n
    && GrownTo(l, v, i, NBlocks(x, i), x)
    && OthersKept(d0, d1, v, i)
    && ZeroFrom(x, d1, i, NBlocks(v, i), NBlocks(x, i))
  }

  lemma ZeroFromSize(v: Volume, disk: seq<Block>, i: nat, a: nat, n: nat, size: uint32)
    requires i < |v.files|
    ensures ZeroFrom(v, disk, i, a, n) ==> ZeroFrom(SetSize(v, i, size), disk, i, a, n)
  {
  }

  lemma StartsZero(v: Volume, disk: seq<Block>, i: nat)
    requires i < |v.files|
    ensures ZeroFrom(v, disk, i, NBlocks(v, i), NBlocks(v, i)) && OthersKept(disk, disk, v, i)
  {
  }

  lemma GrowthGoesOn(l: Layout, v: Volume, i: nat, n: nat, d0: seq<Block>, x: Volume, d1: seq<Block>, d2: seq<Block>)
    requires GrowsCleanly(l, v, i, n) && IsFile(x, i) && NBlocks(x, i) < n
    requires GrowthSoFar(l, v, i, n, d0, x, d1) && OthersKept(d1, d2, x, i)
    requires AddBlock(x, i).1 == Ok ==> IsZeroAt(AddBlock(x, i).0.files[i].ptrs, d2, StoreSlot(NBlocks(x, i)))
    ensures AddBlock(x, i).1 == Ok
    ensures GrowthSoFar(l, v, i, n, d0, AddBlock(x, i).0, d2)
  {
    hide Sound, Shaped, Size2NBlocks, NewSlots, TreeSize, Cut, CutsRefused;
    var a, c := NBlocks(v, i), NBlocks(x, i);
    RoomKept(l, v, i, x, n);
    RoomForLess(x, i, c + 1, n);
    AddSucceedsIff(l, x, i);
    GrownOneMore(l, v, i, x);
    OthersKeptGrown(l, d0, d1, d2, v, i, c, x);
    StoredInPlaceIff(c);
    ZeroOneMore(l, x, d1, d2, i, a);
  }

  lemma ZeroOneMore(l: Layout, x: Volume, d1: seq<Block>, d2: seq<Block>, i: nat, a: nat)
    requires GoodFile(l, x, i) && NBlocks(x, i) < MAXFILEBLKS && !Misfiled(NBlocks(x, i))
    requires AddBlock(x, i).1 == Ok && OthersKept(d1, d2, x, i) && ZeroFrom(x, d1, i, a, NBlocks(x, i))
    requires IsZeroAt(AddBlock(x, i).0.files[i].ptrs, d2, DataSlot(NBlocks(x, i)))
    ensures ZeroFrom(AddBlock(x, i).0, d2, i, a, NBlocks(x, i) + 1)
  {
    hide AddBlock, Size2NBlocks;
    var w := AddBlock(x, i).0;
    CutUndoesAdd(l, x, i);
    var p, q := x.files[i].ptrs, w.files[i].ptrs;
    assert Kept(q, NBlocks(x, i)) == p;
    forall k: nat | a <= k < NBlocks(x, i)
      ensures IsZeroAt(q, d2, DataSlot(k))
    {
      var s := DataSlot(k);
      assert IsZeroAt(p, d1, s);
      assert HasPtr(x, i, s) && PtrOk(l, x, i, s);
      DataHoldsNone(x, i, s, i);
    }
  }
}
