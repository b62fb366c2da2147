/** Exactly when the code as it stands keeps the trees in shape and loses no
    block: one step of `add_block` and of `remove_block`. */
module OspfsExact {
  import opened OspfsLayout
  import opened OspfsVolume
  import opened OspfsSafety

  predicate Distinct(slots: seq<Slot>) {
    forall a, b :: 0 <= a < b < |slots| ==> slots[a] != slots[b]
  }

  /** What a run of allocations leaves: every block taken is named by one of
      the slots, every other slot is as before. */
  lemma FillAllFacts(v: Volume, i: nat, slots: seq<Slot>)
    requires i < |v.files| && |slots| <= |v.free| && Distinct(slots)
    ensures var w := FillAll(v, i, slots);
            && w.free <= v.free && |w.free| == |v.free| - |slots|
            && w.files[i].ptrs.Keys == v.files[i].ptrs.Keys + (set s | s in slots)
            && (forall s :: s in v.files[i].ptrs && s !in slots ==> w.files[i].ptrs[s] == v.files[i].ptrs[s])
            && (forall b :: b in v.free && b !in w.free ==>
              exists s :: s in slots && s in w.files[i].ptrs && w.files[i].ptrs[s] == b)
    decreases |slots|
  {
    if slots != [] {
      assert v.free != {};
      var x := Fill(v, i, slots[0]);
      FillAllFacts(x, i, slots[1..]);
      var w := FillAll(x, i, slots[1..]);
      assert slots == [slots[0]] + slots[1..];
      assert slots[0] !in slots[1..];
      assert w.files[i].ptrs[slots[0]] == Least(v.free);
    }
  }

  lemma NewSlotsAreNeeded(p: map<Slot, nat>, n: nat)
    requires n < MAXFILEBLKS && !Misfiled(n)
    requires forall s :: s in p <==> Needed(s, n)
    ensures Distinct(NewSlots(p, n))
    ensures forall s :: Needed(s, n + 1) <==> Needed(s, n) || s in NewSlots(p, n)
    ensures forall s :: s in NewSlots(p, n) ==> s !in p
  {
    StoredInPlaceIff(n);
    if n >= NDIRECT + NINDIRECT {
      var m := n - NDIRECT - NINDIRECT;
      assert m == NINDIRECT * (m / NINDIRECT) + m % NINDIRECT;
    }
  }

  /** Filling fresh slots loses no block. */
  lemma FillAllLosesNothing(l: Layout, v: Volume, i: nat, slots: seq<Slot>)
    requires i < |v.files| && |slots| <= |v.free| && Distinct(slots)
    requires forall s :: s in slots ==> s !in v.files[i].ptrs
    requires forall b :: l.InDataArea(b) ==> b in v.free || Reached(v, b)
    ensures var w := FillAll(v, i, slots);
            forall b :: l.InDataArea(b) ==> b in w.free || Reached(w, b)
  {
    FillAllFacts(v, i, slots);
    var w := FillAll(v, i, slots);
    forall b | l.InDataArea(b) && b !in w.free
      ensures Reached(w, b)
    {
      if b in v.free {
        var s :| s in slots && s in w.files[i].ptrs && w.files[i].ptrs[s] == b;
        assert HasPtr(w, i, s);
      } else {
        var j: nat, s :| HasPtr(v, j, s) && v.files[j].ptrs[s] == b;
        assert HasPtr(w, j, s) && w.files[j].ptrs[s] == b;
      }
    }
  }

  lemma ReachedBySize(v: Volume, i: nat, size: uint32, b: nat)
    requires i < |v.files|
    ensures Reached(SetSize(v, i, size), b) <==> Reached(v, b)
  {
    var w := SetSize(v, i, size);
    if Reached(v, b) {
      var j: nat, s :| HasPtr(v, j, s) && v.files[j].ptrs[s] == b;
      assert HasPtr(w, j, s);
    }
    if Reached(w, b) {
      var j: nat, s :| HasPtr(w, j, s) && w.files[j].ptrs[s] == b;
      assert HasPtr(v, j, s);
    }
  }

  lemma TightIsGood(l: Layout, v: Volume, i: nat)
    requires Tight(l, v) && IsFile(v, i)
    ensures GoodFile(l, v, i)
  {
  }

  /** A block that fits in its own place keeps the file in shape, whatever the
      other files look like. */
  lemma AddBlockKeepsGood(l: Layout, v: Volume, i: nat)
    requires GoodFile(l, v, i) && NBlocks(v, i) < MAXFILEBLKS
    requires !Misfiled(NBlocks(v, i)) && AddBlock(v, i).1 == Ok
    ensures GoodFile(l, AddBlock(v, i).0, i)
    ensures NBlocks(AddBlock(v, i).0, i) == NBlocks(v, i) + 1
  {
    hide Sound, NewSlots, Needed, Size2NBlocks, FillAll;
    var f := v.files[i];
    var n := NBlocks(v, i);
    NewSlotsAreNeeded(f.ptrs, n);
    AddBlockSound(l, v, i);
    SizeStep(f.size);
    FillAllFacts(v, i, NewSlots(f.ptrs, n));
  }

  lemma AddBlockKeepsTight(l: Layout, v: Volume, i: nat)
    requires Tight(l, v) && IsFile(v, i) && NBlocks(v, i) < MAXFILEBLKS
    requires !Misfiled(NBlocks(v, i)) && AddBlock(v, i).1 == Ok
    ensures Tight(l, AddBlock(v, i).0)
  {
    hide Sound, Size2NBlocks, NewSlots;
    var f := v.files[i];
    var n := NBlocks(v, i);
    TightIsGood(l, v, i);
    AddBlockKeepsGood(l, v, i);
    NewSlotsAreNeeded(f.ptrs, n);
    var w := FillAll(v, i, NewSlots(f.ptrs, n));
    FillAllLosesNothing(l, v, i, NewSlots(f.ptrs, n));
    forall b {
      ReachedBySize(w, i, GrowSize(f.size), b);
    }
  }

  lemma AddBlockBreaksShape(l: Layout, v: Volume, i: nat)
    requires GoodFile(l, v, i) && NBlocks(v, i) < MAXFILEBLKS
    requires Misfiled(NBlocks(v, i)) && AddBlock(v, i).1 == Ok
    ensures DataSlot(NBlocks(v, i)) !in AddBlock(v, i).0.files[i].ptrs
    ensures !Shaped(AddBlock(v, i).0.files[i])
  {
    hide Size2NBlocks;
    var f := v.files[i];
    var n := NBlocks(v, i);
    var slots := NewSlots(f.ptrs, n);
    assert Needed(Ind, n);
    assert slots == [IndEntry(DirectIndex(n))];
    FillAllFacts(v, i, slots);
    SizeStep(f.size);
    var w := AddBlock(v, i).0;
    assert Needed(DataSlot(n), n + 1) && !Needed(DataSlot(n), n) by { NeededData(n, n); NeededData(n, n + 1); }
    assert !Shaped(w.files[i]);
  }

  lemma NeededData(b: nat, n: nat)
    requires b < MAXFILEBLKS
    ensures Needed(DataSlot(b), n) <==> b < n
  {
    SlotIndexOfDataSlot(b);
  }

  /** What file block `n` costs a file in shape: itself, and the pointer blocks
      it is the first to need.  A misfiled block finds its pointer block there. */
  function AddCost(n: nat): nat {
    if n < NDIRECT + NINDIRECT then if n == NDIRECT then 2 else 1
    else if Misfiled(n) then 1
    else if (n - NDIRECT - NINDIRECT) % NINDIRECT == 0 then 2 else 1
  }

  lemma NewSlotsCost(p: map<Slot, nat>, n: nat)
    requires n < MAXFILEBLKS && forall s :: s in p <==> Needed(s, n)
    ensures |NewSlots(p, n)| == AddCost(n)
  {
    assert Ind in p <==> n > NDIRECT;
    assert Ind2 in p <==> n > NDIRECT + NINDIRECT;
    if n >= NDIRECT + 2 * NINDIRECT {
      var m := n - NDIRECT - NINDIRECT;
      assert m == NINDIRECT * (m / NINDIRECT) + m % NINDIRECT;
      assert Und(m / NINDIRECT) in p <==> m % NINDIRECT != 0;
    }
  }

  /** `add_block` for a file in shape: it succeeds exactly when as many blocks are
      free as the new file block costs, changes nothing otherwise, and leaves the
      file in shape (and the volume in order, if it was) exactly when the new file
      block is not one of the 256 that the test for the first indirect block
      catches by mistake. */
  lemma AddBlockExact(l: Layout, v: Volume, i: nat)
    requires GoodFile(l, v, i) && NBlocks(v, i) < MAXFILEBLKS
    ensures var (w, st) := AddBlock(v, i);
            && (st == Ok <==> AddCost(NBlocks(v, i)) <= |v.free|)
            && (st != Ok ==> st == NoSpace && w == v)
            && (st == Ok ==> (GoodFile(l, w, i) <==> !Misfiled(NBlocks(v, i))))
            && (st == Ok && Tight(l, v) ==> (Tight(l, w) <==> !Misfiled(NBlocks(v, i))))
  {
    hide Size2NBlocks, AddBlock, Sound, NewSlots;
    AddBlockAnswer(l, v, i);
    if AddBlock(v, i).1 == Ok {
      if Misfiled(NBlocks(v, i)) {
        AddBlockBreaksShape(l, v, i);
      } else {
        AddBlockKeepsGood(l, v, i);
        if Tight(l, v) {
          AddBlockKeepsTight(l, v, i);
        }
      }
    }
  }

  lemma AddBlockAnswer(l: Layout, v: Volume, i: nat)
    requires GoodFile(l, v, i) && NBlocks(v, i) < MAXFILEBLKS
    ensures AddBlock(v, i).1 == Ok <==> AddCost(NBlocks(v, i)) <= |v.free|
    ensures AddBlock(v, i).1 != Ok ==> AddBlock(v, i) == (v, NoSpace)
  {
    NewSlotsCost(v.files[i].ptrs, NBlocks(v, i));
  }

  // ---------------------------------------------------------- remove_block

  /** The blocks a file gives back when it is cut to `m` blocks. */
  ghost function Dropped(p: map<Slot, nat>, m: nat): set<nat> {
    set s | s in p && !Needed(s, m) :: p[s]
  }

  ghost function Kept(p: map<Slot, nat>, m: nat): map<Slot, nat> {
    map s | s in p && Needed(s, m) :: p[s]
  }

  function CutSize(size: uint32, m: nat): uint32 {
    (size - BLKSIZE * (Size2NBlocks(size) - m)) % TWO32
  }

  /** The volume with file `i` cut to its first `m` blocks and everything
      behind them free. */
  ghost function Cut(v: Volume, i: nat, m: nat): Volume
    requires i < |v.files|
  {
    var f := v.files[i];
    Volume(v.free + Dropped(f.ptrs, m),
           v.files[i := f.(size := CutSize(f.size, m), ptrs := Kept(f.ptrs, m))])
  }

  /** Cutting to `m` blocks would give back the block that `free_block` refuses. */
  ghost predicate CutsRefused(l: Layout, p: map<Slot, nat>, m: nat) {
    exists s :: s in p && !Needed(s, m) && l.Refused(p[s])
  }

  ghost predicate ShapedPtrs(p: map<Slot, nat>, n: nat) {
    forall s :: s in p <==> Needed(s, n)
  }

  /** The pointers left do not depend on what `free_block` refuses. */
  lemma RemovalKeeps(l: Layout, free: set<nat>, p: map<Slot, nat>, last: nat)
    requires last < MAXFILEBLKS && ShapedPtrs(p, last + 1) && !Misfreed(last)
    ensures Removal(l, free, p, last).1 == Kept(p, last) && Removal(l, free, p, last).2 == Ok
  {
    RemovedSlotsAre(p, last);
    var (free', p', st) := Removal(l, free, p, last);
    var d := DataSlot(last);
    assert d in p && d in RemovedSlots(last);
    assert last == NDIRECT ==> Ind in p && Ind in RemovedSlots(last);
    assert st == Ok;
    assert p' == Kept(p, last);
  }

  lemma RemovalIsCut(l: Layout, free: set<nat>, p: map<Slot, nat>, last: nat)
    requires last < MAXFILEBLKS && ShapedPtrs(p, last + 1) && !Misfreed(last)
    requires !CutsRefused(l, p, last)
    ensures Removal(l, free, p, last) == (free + Dropped(p, last), Kept(p, last), Ok)
  {
    RemovedSlotsAre(p, last);
    var (free', p', st) := Removal(l, free, p, last);
    var d := DataSlot(last);
    assert d in p && d in RemovedSlots(last);
    if last == NDIRECT {
      assert Ind in p && Ind in RemovedSlots(last);
      assert Dropped(p, last) == {p[d], p[Ind]};
    } else {
      assert Dropped(p, last) == {p[d]};
    }
    assert !l.Refused(p[d]);
    assert st == Ok;
    assert free' == free + Dropped(p, last);
    RemovalKeeps(l, free, p, last);
  }

  /** The slots that the last block of a file takes with it. */
  function RemovedSlots(last: nat): set<Slot>
    requires last < MAXFILEBLKS
  {
    if last == NDIRECT then {DataSlot(last), Ind} else {DataSlot(last)}
  }

  lemma RemovedSlotsAre(p: map<Slot, nat>, last: nat)
    requires last < MAXFILEBLKS && ShapedPtrs(p, last + 1) && !Misfreed(last)
    ensures forall s :: s in p && !Needed(s, last) <==> s in RemovedSlots(last)
    ensures DataSlot(last) ==
      if last < NDIRECT then Direct(last)
      else if last < NDIRECT + NINDIRECT then IndEntry(DirectIndex(last))
      else UndEntry(IndirIndex(last), DirectIndex(last))
    ensures last >= NDIRECT + NINDIRECT ==> Needed(Ind2, last + 1) && Needed(Und(IndirIndex(last)), last + 1)
  {
    LastIndices(last);
    forall s ensures s in p && !Needed(s, last) <==> s in RemovedSlots(last) {
      assert s in p <==> Needed(s, last + 1);
      LastNeeded(last, s);
    }
  }

  lemma LastIndices(last: nat)
    requires last < MAXFILEBLKS
    ensures last >= NDIRECT + NINDIRECT ==> DirectIndex(last) == (last - NDIRECT - NINDIRECT) % NINDIRECT
  {
    if last >= NDIRECT + NINDIRECT {
      assert last - NDIRECT == last - NDIRECT - NINDIRECT + NINDIRECT;
    }
  }

  /** Which slots the last block alone needs. */
  lemma LastNeeded(last: nat, s: Slot)
    requires last < MAXFILEBLKS && !Misfreed(last)
    ensures Needed(s, last + 1) && !Needed(s, last) <==> s in RemovedSlots(last)
  {
    LastIndices(last);
    if last >= NDIRECT + NINDIRECT {
      var m := last - NDIRECT - NINDIRECT;
      assert m == NINDIRECT * (m / NINDIRECT) + m % NINDIRECT && m % NINDIRECT != 0;
    }
  }

  lemma NeededMonotone(m: nat, n: nat)
    requires m <= n
    ensures forall s :: Needed(s, m) ==> Needed(s, n)
  {
  }

  lemma KeptIsClosed(p: map<Slot, nat>, m: nat)
    requires Closed(p)
    ensures Closed(Kept(p, m))
  {
  }

  lemma CutSizeBlocks(size: uint32, m: nat)
    requires m <= Size2NBlocks(size)
    ensures Size2NBlocks(CutSize(size, m)) == m
  {
    var n := Size2NBlocks(size);
    if n > m {
      var k := size - BLKSIZE * (n - m);
      if k >= 0 {
        assert CutSize(size, m) == k;
      } else {
        assert m == 0;
        assert CutSize(size, m) == k + TWO32;
      }
    }
  }

  /** A file that is cut back stays in shape. */
  lemma CutKeepsGood(l: Layout, v: Volume, i: nat, m: nat)
    requires GoodFile(l, v, i) && m <= NBlocks(v, i)
    requires !CutsRefused(l, v.files[i].ptrs, m)
    ensures GoodFile(l, Cut(v, i, m), i) && NBlocks(Cut(v, i, m), i) == m
  {
    var f := v.files[i];
    var w := Cut(v, i, m);
    SoundIsClosed(l, v, i);
    KeptIsClosed(f.ptrs, m);
    CutSizeBlocks(f.size, m);
    NeededMonotone(m, NBlocks(v, i));
    forall b | b in w.free && b !in v.free
      ensures GivenUp(l, f.ptrs, Kept(f.ptrs, m), b)
    {
      var s :| s in f.ptrs && !Needed(s, m) && f.ptrs[s] == b;
    }
    GiveUpSound(l, v, i, CutSize(f.size, m), Kept(f.ptrs, m), w.free);
  }

  /** Cutting a file loses nothing as long as no refused block goes. */
  lemma CutKeepsTight(l: Layout, v: Volume, i: nat, m: nat)
    requires Tight(l, v) && IsFile(v, i) && m <= NBlocks(v, i)
    requires !CutsRefused(l, v.files[i].ptrs, m)
    ensures Tight(l, Cut(v, i, m)) && NBlocks(Cut(v, i, m), i) == m
  {
    hide Sound, Size2NBlocks, Kept, CutSize;
    TightIsGood(l, v, i);
    CutKeepsGood(l, v, i, m);
    CutLosesNothing(l, v, i, m);
  }

  lemma CutLosesNothing(l: Layout, v: Volume, i: nat, m: nat)
    requires i < |v.files|
    requires forall b :: l.InDataArea(b) ==> b in v.free || Reached(v, b)
    ensures var w := Cut(v, i, m);
            forall b :: l.InDataArea(b) ==> b in w.free || Reached(w, b)
  {
    var w := Cut(v, i, m);
    forall b | l.InDataArea(b) && b !in w.free
      ensures Reached(w, b)
    {
      var j: nat, s :| HasPtr(v, j, s) && v.files[j].ptrs[s] == b;
      assert HasPtr(w, j, s) && w.files[j].ptrs[s] == b;
    }
  }

  lemma KeptAgain(p: map<Slot, nat>, m: nat, k: nat)
    requires k <= m
    ensures Kept(Kept(p, m), k) == Kept(p, k)
  {
    NeededMonotone(k, m);
    hide Needed;
  }

  lemma DroppedAgain(p: map<Slot, nat>, m: nat, k: nat)
    requires k <= m
    ensures Dropped(p, m) + Dropped(Kept(p, m), k) == Dropped(p, k)
  {
    NeededMonotone(k, m);
    hide Needed;
    forall b | b in Dropped(p, k)
      ensures b in Dropped(p, m) + Dropped(Kept(p, m), k)
    {
      var s :| s in p && !Needed(s, k) && p[s] == b;
      assert Needed(s, m) ==> s in Kept(p, m);
    }
  }

  lemma CutSizeAgain(size: uint32, m: nat, k: nat)
    requires k <= m <= Size2NBlocks(size)
    ensures CutSize(CutSize(size, m), k) == CutSize(size, k)
  {
    CutSizeBlocks(size, m);
    hide Size2NBlocks;
  }

  lemma CutAgain(v: Volume, i: nat, m: nat, k: nat)
    requires i < |v.files| && k <= m <= NBlocks(v, i)
    ensures Cut(Cut(v, i, m), i, k) == Cut(v, i, k)
  {
    hide Needed, Size2NBlocks, CutSize, Kept, Dropped;
    var f := v.files[i];
    KeptAgain(f.ptrs, m, k);
    DroppedAgain(f.ptrs, m, k);
    CutSizeAgain(f.size, m, k);
  }

  lemma CutNothing(v: Volume, i: nat)
    requires IsFile(v, i) && Shaped(v.files[i])
    ensures Cut(v, i, NBlocks(v, i)) == v
  {
    var f := v.files[i];
    assert Dropped(f.ptrs, NBlocks(v, i)) == {};
    assert Kept(f.ptrs, NBlocks(v, i)) == f.ptrs;
  }

  lemma RemoveBlockIsCut(l: Layout, v: Volume, i: nat)
    requires GoodFile(l, v, i) && NBlocks(v, i) > 0
    requires !Misfreed(NBlocks(v, i) - 1) && !CutsRefused(l, v.files[i].ptrs, NBlocks(v, i) - 1)
    ensures RemoveBlock(l, v, i) == (Cut(v, i, NBlocks(v, i) - 1), Ok)
  {
    var last := NBlocks(v, i) - 1;
    RemovalIsCut(l, v.free, v.files[i].ptrs, last);
    assert CutSize(v.files[i].size, last) == ShrinkSize(v.files[i].size);
  }

  lemma FilledIsDropped(l: Layout, v: Volume, i: nat, slots: seq<Slot>, n: nat)
    requires Sound(l, v) && i < |v.files| && |slots| <= |v.free| && Distinct(slots)
    requires ShapedPtrs(v.files[i].ptrs, n) && forall s :: s in slots ==> !Needed(s, n)
    ensures var w := FillAll(v, i, slots);
            && Kept(w.files[i].ptrs, n) == v.files[i].ptrs
            && w.free + Dropped(w.files[i].ptrs, n) == v.free
            && !CutsRefused(l, w.files[i].ptrs, n)
  {
    hide Needed;
    FillAllFacts(v, i, slots);
    var q := FillAll(v, i, slots).files[i].ptrs;
    assert Kept(q, n) == v.files[i].ptrs;
    forall s | s in q && !Needed(s, n)
      ensures q[s] in v.free && !l.Refused(q[s])
    {
      assert s in slots;
      TakenFromFree(v, i, slots, s);
    }
  }

  /** `add_block` undone by `remove_block`: the very same volume. */
  lemma CutUndoesAdd(l: Layout, v: Volume, i: nat)
    requires GoodFile(l, v, i) && NBlocks(v, i) < MAXFILEBLKS
    requires !Misfiled(NBlocks(v, i)) && AddBlock(v, i).1 == Ok
    ensures Cut(AddBlock(v, i).0, i, NBlocks(v, i)) == v
    ensures !CutsRefused(l, AddBlock(v, i).0.files[i].ptrs, NBlocks(v, i))
  {
    hide NewSlots, FillAll, Needed, Sound, Size2NBlocks, CutSize, Kept, Dropped, CutsRefused, GrowSize;
    var f := v.files[i];
    var n := NBlocks(v, i);
    NewSlotsAreNeeded(f.ptrs, n);
    FilledIsDropped(l, v, i, NewSlots(f.ptrs, n), n);
    CutSizeOfGrown(f.size);
  }

  lemma CutSizeOfGrown(size: uint32)
    requires Size2NBlocks(size) < MAXFILEBLKS
    ensures CutSize(GrowSize(size), Size2NBlocks(size)) == size
  {
    SizeStep(size);
    assert CutSize(GrowSize(size), Size2NBlocks(size)) == ShrinkSize(GrowSize(size));
  }

  lemma TakenFromFree(v: Volume, i: nat, slots: seq<Slot>, s: Slot)
    requires i < |v.files| && |slots| <= |v.free| && Distinct(slots) && s in slots
    ensures var w := FillAll(v, i, slots);
            s in w.files[i].ptrs && w.files[i].ptrs[s] in v.free && w.files[i].ptrs[s] !in w.free
    decreases |slots|
  {
    assert v.free != {};
    var x := Fill(v, i, slots[0]);
    FillAllFacts(x, i, slots[1..]);
    assert slots == [slots[0]] + slots[1..];
    assert slots[0] !in slots[1..];
    if s != slots[0] {
      TakenFromFree(x, i, slots[1..], s);
    }
  }

  /** Dropping the first indirect block of a file that still needs it. */
  lemma MisfreedRemoval(l: Layout, free: set<nat>, p: map<Slot, nat>, last: nat)
    requires last < MAXFILEBLKS && ShapedPtrs(p, last + 1) && Misfreed(last)
    ensures var (_, p', st) := Removal(l, free, p, last);
            st == Ok && Ind !in p'
  {
    var m := last - NDIRECT - NINDIRECT;
    assert m == NINDIRECT * (m / NINDIRECT) + m % NINDIRECT;
    assert DirectIndex(last) == m % NINDIRECT by { assert last - NDIRECT == m + NINDIRECT; }
    assert Needed(Ind2, last + 1) && Needed(Und(IndirIndex(last)), last + 1);
    assert Needed(UndEntry(IndirIndex(last), DirectIndex(last)), last + 1);
  }

  lemma RemovalFreesNoRefused(l: Layout, free: set<nat>, p: map<Slot, nat>, last: nat, b: nat)
    requires l.Refused(b) && b !in free
    ensures b !in Removal(l, free, p, last).0
  {
  }

  ghost predicate Lost(l: Layout, v: Volume, b: nat) {
    l.InDataArea(b) && b !in v.free && !Reached(v, b)
  }

  lemma UnnamedIsLost(l: Layout, v: Volume, i: nat, s: Slot, r: (set<nat>, map<Slot, nat>, Status))
    requires Sound(l, v) && HasPtr(v, i, s) && r.2 == Ok
    requires r.1.Keys <= v.files[i].ptrs.Keys && s !in r.1
    requires forall t :: t in r.1 ==> r.1[t] == v.files[i].ptrs[t]
    requires v.files[i].ptrs[s] !in r.0
    ensures Lost(l, Shrunk(v, i, r).0, v.files[i].ptrs[s])
  {
    var w := Shrunk(v, i, r).0;
    var b := v.files[i].ptrs[s];
    assert PtrOk(l, v, i, s);
    if Reached(w, b) {
      var j: nat, t :| HasPtr(w, j, t) && w.files[j].ptrs[t] == b;
      assert HasPtr(v, j, t);
    }
  }

  lemma RefusedIsLost(l: Layout, v: Volume, i: nat, last: nat) returns (b: nat)
    requires Tight(l, v) && IsFile(v, i) && NBlocks(v, i) == last + 1 && !Misfreed(last)
    requires CutsRefused(l, v.files[i].ptrs, last)
    ensures Lost(l, Shrunk(v, i, Removal(l, v.free, v.files[i].ptrs, last)).0, b)
  {
    var p := v.files[i].ptrs;
    var s :| s in p && !Needed(s, last) && l.Refused(p[s]);
    b := p[s];
    assert Shaped(v.files[i]);
    assert HasPtr(v, i, s) && PtrOk(l, v, i, s);
    RemovalKeeps(l, v.free, p, last);
    RemovalFreesNoRefused(l, v.free, p, last, b);
    UnnamedIsLost(l, v, i, s, Removal(l, v.free, p, last));
  }

  /** `remove_block` on a volume in order never fails, and what it leaves is in
      order exactly when (1) the block removed is not the first one under a
      block of the doubly indirect tree, and (2) it does not give back the
      block that `free_block` refuses. */
  lemma RemoveBlockExact(l: Layout, v: Volume, i: nat)
    requires Tight(l, v) && IsFile(v, i) && NBlocks(v, i) > 0
    ensures var (w, st) := RemoveBlock(l, v, i);
            var last := NBlocks(v, i) - 1;
            && st == Ok && NBlocks(w, i) == last
            && (Tight(l, w) <==> !Misfreed(last) && !CutsRefused(l, v.files[i].ptrs, last))
  {
    hide Tight, RemoveBlock, CutsRefused;
    var last := NBlocks(v, i) - 1;
    if Misfreed(last) {
      MisfreedIsNotTight(l, v, i);
    } else if CutsRefused(l, v.files[i].ptrs, last) {
      RefusedIsNotTight(l, v, i);
    } else {
      CutIsTight(l, v, i);
    }
  }

  lemma RefusedIsNotTight(l: Layout, v: Volume, i: nat)
    requires Tight(l, v) && IsFile(v, i) && NBlocks(v, i) > 0 && !Misfreed(NBlocks(v, i) - 1)
    requires CutsRefused(l, v.files[i].ptrs, NBlocks(v, i) - 1)
    ensures var (w, st) := RemoveBlock(l, v, i);
            st == Ok && NBlocks(w, i) == NBlocks(v, i) - 1 && !Tight(l, w)
  {
    hide Tight, Lost, Removal, Kept, CutsRefused, Misfreed, Needed, Size2NBlocks, ShrinkSize;
    var f := v.files[i];
    var last := NBlocks(v, i) - 1;
    ShapeOf(l, v, i);
    SizeStep(f.size);
    RemovalKeeps(l, v.free, f.ptrs, last);
    var b := RefusedIsLost(l, v, i, last);
    LostIsNotTight(l, RemoveBlock(l, v, i).0, b);
  }

  lemma ShapeOf(l: Layout, v: Volume, i: nat)
    requires Tight(l, v) && IsFile(v, i)
    ensures ShapedPtrs(v.files[i].ptrs, NBlocks(v, i)) && NBlocks(v, i) <= MAXFILEBLKS
  {
    assert Shaped(v.files[i]);
  }

  lemma LostIsNotTight(l: Layout, v: Volume, b: nat)
    requires Lost(l, v, b)
    ensures !Tight(l, v)
  {
  }

  lemma CutIsTight(l: Layout, v: Volume, i: nat)
    requires Tight(l, v) && IsFile(v, i) && NBlocks(v, i) > 0 && !Misfreed(NBlocks(v, i) - 1)
    requires !CutsRefused(l, v.files[i].ptrs, NBlocks(v, i) - 1)
    ensures var (w, st) := RemoveBlock(l, v, i);
            st == Ok && NBlocks(w, i) == NBlocks(v, i) - 1 && Tight(l, w)
  {
    hide Tight, RemoveBlock, Cut, CutsRefused, Misfreed, Needed, Size2NBlocks;
    TightIsGood(l, v, i);
    RemoveBlockIsCut(l, v, i);
    CutKeepsTight(l, v, i, NBlocks(v, i) - 1);
  }

  lemma MisfreedIsNotTight(l: Layout, v: Volume, i: nat)
    requires Tight(l, v) && IsFile(v, i) && NBlocks(v, i) > 0 && Misfreed(NBlocks(v, i) - 1)
    ensures var (w, st) := RemoveBlock(l, v, i);
            st == Ok && NBlocks(w, i) == NBlocks(v, i) - 1 && !Tight(l, w)
  {
    hide Sound, Removal, Size2NBlocks, ShrinkSize, DataSlot;
    var f := v.files[i];
    var last := NBlocks(v, i) - 1;
    ShapeOf(l, v, i);
    SizeStep(f.size);
    MisfreedRemoval(l, v.free, f.ptrs, last);
    var w := RemoveBlock(l, v, i).0;
    assert Needed(Ind, last) && Ind !in w.files[i].ptrs;
    assert !Shaped(w.files[i]);
  }
}
