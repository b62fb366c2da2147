/** The growing half of `change_size`: it ends in good order exactly when the
    disk has room and no file block is misfiled on the way; without room it
    neither ends nor reports -ENOSPC. */
module OspfsGrow {
  import opened OspfsLayout
  import opened OspfsVolume
  import opened OspfsSafety
  import opened OspfsExact
  import opened OspfsCount
  import opened OspfsResize

  predicate Room(v: Volume, i: nat, n: nat)
    requires i < |v.files|
  {
    |v.free| + TreeSize(NBlocks(v, i)) >= TreeSize(n)
  }

  /** `w` is `v` with file `i` grown to `n` blocks: in shape, every old block in its
      place, cutting the new blocks off gives `v` back, and each of them was paid
      for with a free block. */
  ghost predicate GrownTo(l: Layout, v: Volume, i: nat, n: nat, w: Volume)
    requires IsFile(v, i)
  {
    && GoodFile(l, w, i) && NBlocks(w, i) == n
    && w.files == v.files[i := w.files[i]]
    && Cut(w, i, NBlocks(v, i)) == v
    && !CutsRefused(l, w.files[i].ptrs, NBlocks(v, i))
    && |w.free| + TreeSize(n) == |v.free| + TreeSize(NBlocks(v, i))
  }

  lemma StartsGrown(l: Layout, v: Volume, i: nat)
    requires GoodFile(l, v, i)
    ensures GrownTo(l, v, i, NBlocks(v, i), v)
  {
    CutNothing(v, i);
    NothingToCut(l, v, i);
  }

  /** Growth loses nothing: a volume in order stays in order. */
  lemma GrownTight(l: Layout, v: Volume, i: nat, n: nat, w: Volume)
    requires IsFile(v, i) && GrownTo(l, v, i, n, w)
    ensures Tight(l, v) ==> Tight(l, w)
  {
    hide Sound, Needed, CutSize, Size2NBlocks;
    if Tight(l, v) {
      forall b | l.InDataArea(b) && b !in w.free
        ensures Reached(w, b)
      {
        if b in v.free {
          var s :| s in w.files[i].ptrs && w.files[i].ptrs[s] == b;
          assert HasPtr(w, i, s);
        } else {
          var j: nat, s :| HasPtr(v, j, s) && v.files[j].ptrs[s] == b;
          assert j == i ==> s in Kept(w.files[i].ptrs, NBlocks(v, i));
          assert HasPtr(w, j, s) && w.files[j].ptrs[s] == b;
        }
      }
    }
  }

  /** One successful `add_block` more. */
  lemma GrownOneMore(l: Layout, v: Volume, i: nat, x: Volume)
    requires GoodFile(l, v, i) && IsFile(x, i)
    requires NBlocks(v, i) <= NBlocks(x, i) < MAXFILEBLKS && GrownTo(l, v, i, NBlocks(x, i), x)
    requires !Misfiled(NBlocks(x, i)) && AddBlock(x, i).1 == Ok
    ensures GrownTo(l, v, i, NBlocks(x, i) + 1, AddBlock(x, i).0)
  {
    hide Sound, Shaped, Size2NBlocks, NewSlots, TreeSize, CutsRefused, Kept, Dropped, CutSize;
    var a := NBlocks(v, i);
    var c := NBlocks(x, i);
    var w := AddBlock(x, i).0;
    AddBlockKeepsGood(l, x, i);
    CutUndoesAdd(l, x, i);
    CutAgain(w, i, c, a);
    RefusalOfParts(l, w.files[i].ptrs, a, c);
    AddBlockPays(l, x, i);
  }

  /** Each block added is one block less free. */
  lemma AddBlockPays(l: Layout, x: Volume, i: nat)
    requires GoodFile(l, x, i) && NBlocks(x, i) < MAXFILEBLKS && !Misfiled(NBlocks(x, i)) && AddBlock(x, i).1 == Ok
    ensures |AddBlock(x, i).0.free| + TreeSize(NBlocks(x, i) + 1) == |x.free| + TreeSize(NBlocks(x, i))
  {
    hide Sound, Size2NBlocks, NewSlots, TreeSize;
    var p, n := x.files[i].ptrs, NBlocks(x, i);
    NewSlotsAreNeeded(p, n);
    NewSlotsCount(p, n);
    FillAllFacts(x, i, NewSlots(p, n));
  }

  lemma RefusalOfParts(l: Layout, p: map<Slot, nat>, m: nat, n: nat)
    requires m <= n && !CutsRefused(l, p, n) && !CutsRefused(l, Kept(p, n), m)
    ensures !CutsRefused(l, p, m)
  {
    forall s | s in p && !Needed(s, m)
      ensures !l.Refused(p[s])
    {
      if Needed(s, n) {
        assert s in Kept(p, n);
      }
    }
  }

  /** Whether the next block can be had. */
  lemma AddSucceedsIff(l: Layout, x: Volume, i: nat)
    requires GoodFile(l, x, i) && NBlocks(x, i) < MAXFILEBLKS && !Misfiled(NBlocks(x, i))
    ensures AddBlock(x, i).1 == Ok <==> Room(x, i, NBlocks(x, i) + 1)
    ensures AddBlock(x, i).1 != Ok ==> AddBlock(x, i) == (x, NoSpace)
  {
    NewSlotsCount(x.files[i].ptrs, NBlocks(x, i));
  }

  lemma RoomKept(l: Layout, v: Volume, i: nat, w: Volume, n: nat)
    requires IsFile(v, i) && IsFile(w, i) && GrownTo(l, v, i, NBlocks(w, i), w)
    ensures Room(v, i, n) <==> Room(w, i, n)
  {
  }

  lemma RoomForLess(v: Volume, i: nat, m: nat, n: nat)
    requires i < |v.files| && m <= n && Room(v, i, n)
    ensures Room(v, i, m)
  {
    TreeSizeMonotone(m, n);
  }

  /** With room and no misfiled block the first loop ends after as many rounds
      as blocks are missing; the old blocks stay where they were. */
  lemma {:induction false} GrowSucceeds(l: Layout, v: Volume, i: nat, x: Volume, n: nat, fuel: nat)
    requires GoodFile(l, v, i) && IsFile(x, i)
    requires NBlocks(v, i) <= NBlocks(x, i) <= n <= MAXFILEBLKS && GrownTo(l, v, i, NBlocks(x, i), x)
    requires CleanGrow(NBlocks(v, i), n) && Room(v, i, n)
    ensures var (w, out) := GrowTo(l, x, i, NBlocks(v, i), n, fuel);
            if fuel >= n - NBlocks(x, i) then out == Finished(Ok) && GrownTo(l, v, i, n, w) else out == Spinning
    decreases fuel
  {
    hide Sound, Shaped, Size2NBlocks, AddBlock, ShrinkTo, TreeSize, Cut, CutsRefused;
    var c := NBlocks(x, i);
    if c < n && fuel > 0 {
      RoomKept(l, v, i, x, n);
      RoomForLess(x, i, c + 1, n);
      AddSucceedsIff(l, x, i);
      GrownOneMore(l, v, i, x);
      GrowSucceeds(l, v, i, AddBlock(x, i).0, n, fuel - 1);
    }
  }

  /** Whatever part of the growth there is room for can be cut off again. */
  predicate RollsBack(v: Volume, i: nat, n: nat)
    requires i < |v.files|
  {
    forall c :: NBlocks(v, i) <= c < n && Room(v, i, c) ==> CleanCut(NBlocks(v, i), c)
  }

  /** The rollback of a growth that got as far as `x` restores the volume exactly,
      if and only if none of the blocks it takes away is misfreed. */
  lemma RollbackExact(l: Layout, v: Volume, i: nat, x: Volume)
    requires GoodFile(l, v, i) && IsFile(x, i)
    requires NBlocks(v, i) <= NBlocks(x, i) && GrownTo(l, v, i, NBlocks(x, i), x)
    ensures ShrinkTo(l, x, i, NBlocks(v, i)) == (v, Ok) <==> CleanCut(NBlocks(v, i), NBlocks(x, i))
  {
    hide ShrinkTo, Cut, Sound, Size2NBlocks;
    ShrinkBackExact(l, x, i, NBlocks(v, i));
  }

  /** Without room, as long as what there is room for can be cut off again, the
      rollback restores the volume as it was, and the loop, which does not leave
      after it, starts over: for ever. */
  lemma {:induction false} GrowSpins(l: Layout, v: Volume, i: nat, x: Volume, n: nat, fuel: nat)
    requires GoodFile(l, v, i) && IsFile(x, i)
    requires NBlocks(v, i) <= NBlocks(x, i) < n <= MAXFILEBLKS && GrownTo(l, v, i, NBlocks(x, i), x)
    requires CleanGrow(NBlocks(v, i), n) && RollsBack(v, i, n) && !Room(v, i, n)
    ensures var (w, out) := GrowTo(l, x, i, NBlocks(v, i), n, fuel);
            out == Spinning && IsFile(w, i) && GrownTo(l, v, i, NBlocks(w, i), w)
    decreases fuel
  {
    hide Sound, Shaped, Size2NBlocks, AddBlock, ShrinkTo, GrownTo, Room, Cut, CleanGrow, CleanCut, RollsBack;
    if fuel > 0 {
      if AddBlock(x, i).1 == Ok {
        SpinsOneMore(l, v, i, x, n);
        GrowSpins(l, v, i, AddBlock(x, i).0, n, fuel - 1);
      } else {
        SpinsBack(l, v, i, x, n);
        GrowSpins(l, v, i, v, n, fuel - 1);
      }
    } else {
      SameSizeIsFile(l, v, i, x);
    }
  }

  lemma SameSizeIsFile(l: Layout, v: Volume, i: nat, x: Volume)
    requires IsFile(v, i) && IsFile(x, i) && GrownTo(l, v, i, NBlocks(x, i), x)
    ensures GoodFile(l, x, i)
  {
  }

  /** Without room for all of it, a block that is still had is not the last. */
  lemma SpinsOneMore(l: Layout, v: Volume, i: nat, x: Volume, n: nat)
    requires GoodFile(l, v, i) && IsFile(x, i)
    requires NBlocks(v, i) <= NBlocks(x, i) < n <= MAXFILEBLKS && GrownTo(l, v, i, NBlocks(x, i), x)
    requires CleanGrow(NBlocks(v, i), n) && !Room(v, i, n) && AddBlock(x, i).1 == Ok
    ensures var w := AddBlock(x, i).0;
      IsFile(w, i) && NBlocks(w, i) == NBlocks(x, i) + 1 < n && GrownTo(l, v, i, NBlocks(w, i), w)
  {
    hide Sound, Shaped, Size2NBlocks, AddBlock, TreeSize, Cut, CutsRefused;
    AddSucceedsIff(l, x, i);
    RoomKept(l, v, i, x, NBlocks(x, i) + 1);
    GrownOneMore(l, v, i, x);
  }

  /** A failure puts everything back and starts over. */
  lemma SpinsBack(l: Layout, v: Volume, i: nat, x: Volume, n: nat)
    requires GoodFile(l, v, i) && IsFile(x, i)
    requires NBlocks(v, i) <= NBlocks(x, i) < n <= MAXFILEBLKS && GrownTo(l, v, i, NBlocks(x, i), x)
    requires CleanGrow(NBlocks(v, i), n) && RollsBack(v, i, n) && AddBlock(x, i).1 != Ok
    ensures AddBlock(x, i) == (x, NoSpace) && ShrinkTo(l, x, i, NBlocks(v, i)) == (v, Ok)
    ensures GrownTo(l, v, i, NBlocks(v, i), v)
  {
    hide Sound, Shaped, Size2NBlocks, AddBlock, ShrinkTo, TreeSize, Cut, CutsRefused;
    AddSucceedsIff(l, x, i);
    assert Room(v, i, NBlocks(x, i));
    RollbackExact(l, v, i, x);
    StartsGrown(l, v, i);
  }

  // ------------------------------------------- after a misfiled block

  ghost predicate Gap(v: Volume, i: nat, k: nat) {
    IsFile(v, i) && Misfiled(k) && k < NBlocks(v, i) && DataSlot(k) !in v.files[i].ptrs
  }

  lemma {:induction false} FillAllKeys(v: Volume, i: nat, slots: seq<Slot>, s: Slot)
    requires i < |v.files| && |slots| <= |v.free| && s !in slots && s !in v.files[i].ptrs
    ensures s !in FillAll(v, i, slots).files[i].ptrs
    decreases |slots|
  {
    if slots != [] {
      assert v.free != {};
      FillAllKeys(Fill(v, i, slots[0]), i, slots[1..], s);
    }
  }

  lemma NewSlotsSkipGap(p: map<Slot, nat>, n: nat, k: nat)
    requires Misfiled(k) && k < n < MAXFILEBLKS
    ensures DataSlot(k) !in NewSlots(p, n)
  {
  }

  lemma AddBlockKeepsGap(v: Volume, i: nat, k: nat)
    requires Gap(v, i, k) && NBlocks(v, i) < MAXFILEBLKS
    ensures Gap(AddBlock(v, i).0, i, k)
  {
    hide NewSlots;
    var n := NBlocks(v, i);
    var slots := NewSlots(v.files[i].ptrs, n);
    NewSlotsSkipGap(v.files[i].ptrs, n, k);
    SizeStep(v.files[i].size);
    if |slots| <= |v.free| {
      FillAllKeys(v, i, slots, DataSlot(k));
    }
  }

  lemma RemovalAtGap(l: Layout, free: set<nat>, p: map<Slot, nat>, last: nat, k: nat)
    requires Misfiled(k) && k <= last && DataSlot(k) !in p
    ensures DataSlot(k) !in Removal(l, free, p, last).1
    ensures last == k ==> Removal(l, free, p, last).2 == IOError
  {
    if last == k {
      StoreSlotBehind(k);
    }
  }

  lemma StoreSlotBehind(k: nat)
    requires Misfiled(k)
    ensures DataSlot(k) == UndEntry(IndirIndex(k), DirectIndex(k))
  {
    assert k - NDIRECT == (k - NDIRECT - NINDIRECT) + NINDIRECT;
  }

  /** The rollback runs into the gap and gives up with -EIO. */
  lemma {:induction false} RollbackHitsGap(l: Layout, v: Volume, i: nat, m: nat, k: nat)
    requires Gap(v, i, k) && m <= k
    ensures ShrinkTo(l, v, i, m).1 == IOError
    decreases NBlocks(v, i)
  {
    hide Removal, Size2NBlocks;
    RemovalAtGap(l, v.free, v.files[i].ptrs, NBlocks(v, i) - 1, k);
    var (w, st) := RemoveBlock(l, v, i);
    if st == Ok {
      SizeStep(v.files[i].size);
      RollbackHitsGap(l, w, i, m, k);
    }
  }

  lemma {:induction false} GrowAcrossGap(l: Layout, v: Volume, i: nat, base: nat, n: nat, fuel: nat, k: nat)
    requires Gap(v, i, k) && base <= k && n <= MAXFILEBLKS
    ensures var (w, out) := GrowTo(l, v, i, base, n, fuel);
            out == Finished(Ok) ==> Gap(w, i, k)
    decreases fuel
  {
    hide Size2NBlocks, AddBlock, ShrinkTo;
    if NBlocks(v, i) < n && fuel > 0 {
      AddBlockKeepsGap(v, i, k);
      var (w, st) := AddBlock(v, i);
      if st == Ok {
        GrowAcrossGap(l, w, i, base, n, fuel - 1, k);
      } else {
        RollbackHitsGap(l, w, i, base, k);
      }
    }
  }

  lemma GapIsNotShaped(v: Volume, i: nat, k: nat)
    requires Gap(v, i, k)
    ensures !Shaped(v.files[i])
  {
    NeededData(k, NBlocks(v, i));
  }

  /** The first file block from `a` on that is misfiled. */
  function FirstMisfiled(a: nat): nat {
    if a < NDIRECT + NINDIRECT then NDIRECT + NINDIRECT else a
  }

  lemma {:induction false} GrowUnclean(l: Layout, v: Volume, i: nat, x: Volume, n: nat, fuel: nat)
    requires GoodFile(l, v, i) && IsFile(x, i)
    requires NBlocks(v, i) <= NBlocks(x, i) <= FirstMisfiled(NBlocks(v, i)) < n <= MAXFILEBLKS
    requires GrownTo(l, v, i, NBlocks(x, i), x)
    requires Misfiled(FirstMisfiled(NBlocks(v, i)))
    ensures var (w, out) := GrowTo(l, x, i, NBlocks(v, i), n, fuel);
            !(out == Finished(Ok) && Shaped(w.files[i]))
    decreases fuel
  {
    hide Sound, Shaped, Size2NBlocks, AddBlock, ShrinkTo, TreeSize, Cut, CutsRefused;
    var a := NBlocks(v, i);
    var c := NBlocks(x, i);
    if fuel > 0 {
      var (w, st) := AddBlock(x, i);
      AddBlockExact(l, x, i);
      if st == NoSpace {
        RollbackExact(l, v, i, x);
        StartsGrown(l, v, i);
        GrowUnclean(l, v, i, v, n, fuel - 1);
      } else if c < FirstMisfiled(a) {
        GrownOneMore(l, v, i, x);
        GrowUnclean(l, v, i, w, n, fuel - 1);
      } else {
        AddBlockMakesGap(l, x, i);
        GrowAcrossGap(l, w, i, a, n, fuel - 1, c);
        var (u, out) := GrowTo(l, w, i, a, n, fuel - 1);
        if out == Finished(Ok) {
          GapIsNotShaped(u, i, c);
        }
      }
    }
  }

  lemma AddBlockMakesGap(l: Layout, v: Volume, i: nat)
    requires GoodFile(l, v, i) && NBlocks(v, i) < MAXFILEBLKS
    requires Misfiled(NBlocks(v, i)) && AddBlock(v, i).1 == Ok
    ensures Gap(AddBlock(v, i).0, i, NBlocks(v, i))
  {
    AddBlockBreaksShape(l, v, i);
    SizeStep(v.files[i].size);
  }

  lemma FirstMisfiledIsFirst(a: nat, n: nat)
    requires a <= n
    ensures CleanGrow(a, n) <==> !(Misfiled(FirstMisfiled(a)) && FirstMisfiled(a) < n)
  {
  }

  lemma {:induction false} GrowLands(l: Layout, v: Volume, i: nat, base: nat, n: nat, fuel: nat)
    requires IsFile(v, i) && NBlocks(v, i) <= n <= MAXFILEBLKS
    ensures var (w, out) := GrowTo(l, v, i, base, n, fuel);
            out == Finished(Ok) ==> NBlocks(w, i) == n
    decreases fuel
  {
    hide ShrinkTo, Size2NBlocks;
    if NBlocks(v, i) < n && fuel > 0 {
      var (w, st) := AddBlock(v, i);
      if st == Ok {
        SizeStep(v.files[i].size);
        GrowLands(l, w, i, base, n, fuel - 1);
      } else {
        var (u, st') := ShrinkTo(l, w, i, base);
        ShrinkToNoBigger(l, w, i, base);
        if st' == Ok {
          GrowLands(l, u, i, base, n, fuel - 1);
        }
      }
    }
  }

  lemma {:induction false} ShrinkToNoBigger(l: Layout, v: Volume, i: nat, m: nat)
    requires i < |v.files|
    ensures NBlocks(ShrinkTo(l, v, i, m).0, i) <= NBlocks(v, i)
    decreases NBlocks(v, i)
  {
    hide Removal, Size2NBlocks;
    if NBlocks(v, i) > m {
      var (w, st) := RemoveBlock(l, v, i);
      if st == Ok {
        SizeStep(v.files[i].size);
        ShrinkToNoBigger(l, w, i, m);
      }
    }
  }

  // ---------------------------------------------- no block comes from nowhere

  lemma {:induction false} FillAllConserves(v: Volume, i: nat, slots: seq<Slot>)
    requires i < |v.files| && |slots| <= |v.free|
    ensures var w := FillAll(v, i, slots); |w.free| + |w.files[i].ptrs| <= |v.free| + |v.files[i].ptrs|
    decreases |slots|
  {
    if slots != [] {
      assert v.free != {};
      var x := Fill(v, i, slots[0]);
      assert |x.files[i].ptrs| <= |v.files[i].ptrs| + 1 by {
        assert x.files[i].ptrs.Keys == v.files[i].ptrs.Keys + {slots[0]};
      }
      FillAllConserves(x, i, slots[1..]);
    }
  }

  lemma GivenUpCount(l: Layout, free: set<nat>, p: map<Slot, nat>, free': set<nat>, p': map<Slot, nat>)
    requires GivesUp(l, free, p, free', p')
    ensures |free'| + |p'| <= |free| + |p|
  {
    hide Closed;
    var gone := p.Keys - p'.Keys;
    var freed := set s | s in gone :: p[s];
    ImageCount(p, gone);
    assert free' <= free + freed;
    SubsetCount(free', free + freed);
    assert p'.Keys <= p.Keys;
    SplitCount(p.Keys, p'.Keys);
  }

  lemma {:induction false} ImageCount(p: map<Slot, nat>, gone: set<Slot>)
    requires gone <= p.Keys
    ensures |set s | s in gone :: p[s]| <= |gone|
    decreases |gone|
  {
    if gone == {} {
      assert (set s | s in gone :: p[s]) == {};
    } else {
      var t :| t in gone;
      ImageCount(p, gone - {t});
      assert (set s | s in gone :: p[s]) == (set s | s in gone - {t} :: p[s]) + {p[t]};
    }
  }

  lemma SubsetCount(a: set<nat>, b: set<nat>)
    requires a <= b
    ensures |a| <= |b|
  {
    assert b == a + (b - a);
  }

  /** The free blocks and those of file `i` together. */
  ghost function Holdings(v: Volume, i: nat): nat
    requires i < |v.files|
  {
    |v.free| + |v.files[i].ptrs|
  }

  lemma AddBlockConserves(v: Volume, i: nat)
    requires i < |v.files| && NBlocks(v, i) < MAXFILEBLKS
    ensures Holdings(AddBlock(v, i).0, i) <= Holdings(v, i)
  {
    var slots := NewSlots(v.files[i].ptrs, NBlocks(v, i));
    if |slots| <= |v.free| {
      FillAllConserves(v, i, slots);
    }
  }

  lemma {:induction false} ShrinkToConserves(l: Layout, v: Volume, i: nat, m: nat)
    requires Sound(l, v) && IsFile(v, i)
    ensures Holdings(ShrinkTo(l, v, i, m).0, i) <= Holdings(v, i)
    decreases NBlocks(v, i)
  {
    hide Sound, Removal, Size2NBlocks;
    if NBlocks(v, i) > m {
      var (w, st) := RemoveBlock(l, v, i);
      if st == Ok {
        SoundIsClosed(l, v, i);
        RemovalGivesUp(l, v.free, v.files[i].ptrs, NBlocks(v, i) - 1);
        GivenUpCount(l, v.free, v.files[i].ptrs, w.free, w.files[i].ptrs);
        RemoveBlockSound(l, v, i);
        SizeStep(v.files[i].size);
        ShrinkToConserves(l, w, i, m);
      }
    }
  }

  /** However often it goes round, the loop makes no block out of nothing. */
  lemma {:induction false} GrowToConserves(l: Layout, v: Volume, i: nat, base: nat, n: nat, fuel: nat)
    requires Sound(l, v) && IsFile(v, i) && n <= MAXFILEBLKS
    ensures Holdings(GrowTo(l, v, i, base, n, fuel).0, i) <= Holdings(v, i)
    decreases fuel
  {
    hide Sound, AddBlock, ShrinkTo, Size2NBlocks, Holdings;
    if NBlocks(v, i) < n && fuel > 0 {
      AddBlockSound(l, v, i);
      AddBlockConserves(v, i);
      var (w, st) := AddBlock(v, i);
      if st == Ok {
        GrowToConserves(l, w, i, base, n, fuel - 1);
      } else {
        ShrinkToSound(l, w, i, base);
        ShrinkToConserves(l, w, i, base);
        var (u, st') := ShrinkTo(l, w, i, base);
        if st' == Ok {
          GrowToConserves(l, u, i, base, n, fuel - 1);
        }
      }
    }
  }

  /** A file that ended in shape had the room for it. */
  lemma ShapedHadRoom(l: Layout, v: Volume, i: nat, n: nat, fuel: nat)
    requires GoodFile(l, v, i) && NBlocks(v, i) <= n <= MAXFILEBLKS
    requires var (w, out) := GrowTo(l, v, i, NBlocks(v, i), n, fuel); out == Finished(Ok) && Shaped(w.files[i])
    ensures Room(v, i, n)
  {
    hide Sound, GrowTo, Size2NBlocks, TreeSize, Needed;
    var (w, _) := GrowTo(l, v, i, NBlocks(v, i), n, fuel);
    GrowLands(l, v, i, NBlocks(v, i), n, fuel);
    GrowToConserves(l, v, i, NBlocks(v, i), n, fuel);
    ShapedCount(v.files[i].ptrs.Keys, NBlocks(v, i));
    ShapedCount(w.files[i].ptrs.Keys, n);
  }

  /** Growing a file in shape leaves it in shape exactly when no block is misfiled
      and there is room; the rest of the volume need not be in order. */
  lemma GrowExact(l: Layout, v: Volume, i: nat, n: nat, fuel: nat)
    requires GoodFile(l, v, i) && NBlocks(v, i) <= n <= MAXFILEBLKS
    ensures var (w, out) := GrowTo(l, v, i, NBlocks(v, i), n, fuel);
            && (out == Finished(Ok) && Shaped(w.files[i]) ==>
                  CleanGrow(NBlocks(v, i), n) && Room(v, i, n) && GrownTo(l, v, i, n, w))
            && (CleanGrow(NBlocks(v, i), n) && Room(v, i, n) ==>
                  if fuel >= n - NBlocks(v, i) then out == Finished(Ok) && Shaped(w.files[i]) else out == Spinning)
  {
    hide Size2NBlocks, GrowTo, Sound, TreeSize, Cut, CutsRefused, Needed;
    var a := NBlocks(v, i);
    var (w, out) := GrowTo(l, v, i, a, n, fuel);
    StartsGrown(l, v, i);
    FirstMisfiledIsFirst(a, n);
    if !CleanGrow(a, n) {
      GrowUnclean(l, v, i, v, n, fuel);
    } else {
      if out == Finished(Ok) && Shaped(w.files[i]) {
        ShapedHadRoom(l, v, i, n, fuel);
      }
      if Room(v, i, n) {
        GrowSucceeds(l, v, i, v, n, fuel);
      }
    }
  }

  // -------------------------------------------------------- change_size

  /** A caller can check this before the call. */
  ghost predicate ChangesCleanly(l: Layout, v: Volume, i: nat, n: nat)
    requires i < |v.files|
  {
    if n >= NBlocks(v, i) then CleanGrow(NBlocks(v, i), n) && Room(v, i, n)
    else CleanCut(n, NBlocks(v, i)) && !CutsRefused(l, v.files[i].ptrs, n)
  }

  ghost predicate Resized(l: Layout, v: Volume, i: nat, size: uint32, w: Volume)
    requires IsFile(v, i)
  {
    && GoodFile(l, w, i)
    && w.files == v.files[i := w.files[i]] && w.files[i].size == size && w.files[i].nlink == v.files[i].nlink
    && (Size2NBlocks(size) >= NBlocks(v, i) ==>
          w.free <= v.free && Kept(w.files[i].ptrs, NBlocks(v, i)) == v.files[i].ptrs)
    && (Size2NBlocks(size) < NBlocks(v, i) ==> w == SetSize(Cut(v, i, Size2NBlocks(size)), i, size))
  }

  lemma SetSizeTight(l: Layout, v: Volume, i: nat, size: uint32)
    requires IsFile(v, i) && Size2NBlocks(size) == NBlocks(v, i)
    ensures Tight(l, v) <==> Tight(l, SetSize(v, i, size))
  {
    SetSizeTightOneWay(l, v, i, size);
    assert SetSize(SetSize(v, i, size), i, v.files[i].size) == v;
    SetSizeTightOneWay(l, SetSize(v, i, size), i, v.files[i].size);
  }

  lemma SetSizeSound(l: Layout, v: Volume, i: nat, size: uint32)
    requires i < |v.files| && Sound(l, v)
    ensures Sound(l, SetSize(v, i, size))
  {
    var w := SetSize(v, i, size);
    assert forall j: nat, t :: HasPtr(w, j, t) ==> HasPtr(v, j, t) && PtrOk(l, v, j, t);
  }

  lemma SetSizeTightOneWay(l: Layout, v: Volume, i: nat, size: uint32)
    requires IsFile(v, i) && Size2NBlocks(size) == NBlocks(v, i)
    ensures Tight(l, v) ==> Tight(l, SetSize(v, i, size))
  {
    hide Size2NBlocks, Needed, Sound;
    if Tight(l, v) {
      SetSizeSound(l, v, i, size);
      forall b {
        ReachedBySize(v, i, size, b);
      }
      assert Shaped(v.files[i]);
    }
  }

  /** Growing through `change_size`, in a volume that need not be in order: it ends
      successfully with the file in shape exactly when no block is misfiled and
      there is room, and then every old block is in its place. */
  lemma ChangeSizeGrows(l: Layout, v: Volume, i: nat, size: uint32, fuel: nat)
    requires GoodFile(l, v, i) && NBlocks(v, i) <= Size2NBlocks(size) <= MAXFILEBLKS
    ensures var (w, out) := ChangeSize(l, v, i, size, fuel);
            && (out == Finished(Ok) && Shaped(w.files[i]) ==>
                  && CleanGrow(NBlocks(v, i), Size2NBlocks(size))
                  && Room(v, i, Size2NBlocks(size)) && Resized(l, v, i, size, w))
            && (CleanGrow(NBlocks(v, i), Size2NBlocks(size)) && Room(v, i, Size2NBlocks(size)) ==>
                  if fuel >= Size2NBlocks(size) - NBlocks(v, i) then out == Finished(Ok) && Shaped(w.files[i])
                  else out == Spinning)
            && (out == Finished(Ok) && Shaped(w.files[i]) && Tight(l, v) ==> Tight(l, w))
  {
    hide Size2NBlocks, Sound, TreeSize, CutsRefused, Needed, GrowTo, ShrinkTo, CleanGrow;
    var a, n := NBlocks(v, i), Size2NBlocks(size);
    var (w, out) := GrowTo(l, v, i, a, n, fuel);
    GrowExact(l, v, i, n, fuel);
    GrowLands(l, v, i, a, n, fuel);
    if out == Finished(Ok) {
      ShrinkToNothing(l, w, i, n);
      if Shaped(w.files[i]) {
        GrownTight(l, v, i, n, w);
        SetSizeTight(l, w, i, size);
        SetSizeSound(l, w, i, size);
      }
    }
  }

  lemma ShrinkToNothing(l: Layout, v: Volume, i: nat, n: nat)
    requires i < |v.files| && NBlocks(v, i) <= n
    ensures ShrinkTo(l, v, i, n) == (v, Ok)
  {
  }

  /** `change_size` ends successfully with the volume in order exactly when the
      caller's check holds, however long it runs; and when the check holds it
      does end. */
  lemma ChangeSizeExact(l: Layout, v: Volume, i: nat, size: uint32, fuel: nat)
    requires Tight(l, v) && IsFile(v, i) && Size2NBlocks(size) <= MAXFILEBLKS
    ensures var (w, out) := ChangeSize(l, v, i, size, fuel);
            && (out == Finished(Ok) && Tight(l, w) ==>
                  ChangesCleanly(l, v, i, Size2NBlocks(size)) && Resized(l, v, i, size, w))
            && (ChangesCleanly(l, v, i, Size2NBlocks(size)) && fuel >= MAXFILEBLKS ==>
                  out == Finished(Ok) && Tight(l, w))
  {
    hide Size2NBlocks, Sound, CutsRefused, Room, CleanGrow, CleanCut;
    var a, n := NBlocks(v, i), Size2NBlocks(size);
    TightIsGood(l, v, i);
    var (w, out) := GrowTo(l, v, i, a, n, fuel);
    if n >= a {
      ChangeSizeGrows(l, v, i, size, fuel);
    } else {
      assert w == v && out == Finished(Ok);
      ShrinkExact(l, v, i, n);
      var (u, st) := ShrinkTo(l, v, i, n);
      if st == Ok {
        ShrinkLands(l, v, i, n);
        SetSizeTight(l, u, i, size);
      }
    }
  }

  lemma {:induction false} ShrinkLands(l: Layout, v: Volume, i: nat, m: nat)
    requires i < |v.files| && m <= NBlocks(v, i)
    ensures ShrinkTo(l, v, i, m).1 == Ok ==> NBlocks(ShrinkTo(l, v, i, m).0, i) == m
    decreases NBlocks(v, i)
  {
    hide Removal, Size2NBlocks;
    if NBlocks(v, i) > m {
      var (w, st) := RemoveBlock(l, v, i);
      if st == Ok {
        SizeStep(v.files[i].size);
        ShrinkLands(l, w, i, m);
      }
    }
  }

  lemma {:induction false} GrowNeverNoSpace(l: Layout, v: Volume, i: nat, base: nat, n: nat, fuel: nat)
    requires i < |v.files| && n <= MAXFILEBLKS
    ensures GrowTo(l, v, i, base, n, fuel).1 != Finished(NoSpace)
    decreases fuel
  {
    hide AddBlock, ShrinkTo, Size2NBlocks;
    if NBlocks(v, i) < n && fuel > 0 {
      var (w, st) := AddBlock(v, i);
      var (u, st') := ShrinkTo(l, w, i, base);
      ShrinkNeverNoSpace(l, w, i, base);
      if st == Ok {
        GrowNeverNoSpace(l, w, i, base, n, fuel - 1);
      } else if st' == Ok {
        GrowNeverNoSpace(l, u, i, base, n, fuel - 1);
      }
    }
  }

  lemma {:induction false} ShrinkNeverNoSpace(l: Layout, v: Volume, i: nat, m: nat)
    requires i < |v.files|
    ensures ShrinkTo(l, v, i, m).1 != NoSpace
    decreases NBlocks(v, i)
  {
    hide Removal, Size2NBlocks;
    if NBlocks(v, i) > m {
      var (w, st) := RemoveBlock(l, v, i);
      if st == Ok {
        SizeStep(v.files[i].size);
        ShrinkNeverNoSpace(l, w, i, m);
      }
    }
  }

  /** The documented -ENOSPC is never returned, on any volume. */
  lemma ChangeSizeNeverNoSpace(l: Layout, v: Volume, i: nat, size: uint32, fuel: nat)
    requires i < |v.files| && Size2NBlocks(size) <= MAXFILEBLKS
    ensures ChangeSize(l, v, i, size, fuel).1 != Finished(NoSpace)
  {
    var n := Size2NBlocks(size);
    GrowNeverNoSpace(l, v, i, NBlocks(v, i), n, fuel);
    ShrinkNeverNoSpace(l, GrowTo(l, v, i, NBlocks(v, i), n, fuel).0, i, n);
  }
}
