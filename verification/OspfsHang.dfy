/** Exactly when `change_size` goes round for ever: the growing loop that does
    not leave after a rollback, on every disk that is too full. */
module OspfsHang {
  import opened OspfsLayout
  import opened OspfsVolume
  import opened OspfsSafety
  import opened OspfsExact
  import opened OspfsCount
  import opened OspfsResize
  import opened OspfsGrow

  const DEEP: nat := NDIRECT + 2 * NINDIRECT

  /** The free blocks are one too few. */
  predicate OneShort(v: Volume, i: nat, n: nat)
    requires i < |v.files|
  {
    |v.free| + TreeSize(NBlocks(v, i)) + 1 == TreeSize(n)
  }

  /** The rollback passes a misfreed block, so that it frees the first indirect
      block, and just that block was missing. */
  ghost predicate GetsThrough(l: Layout, v: Volume, i: nat, n: nat)
    requires i < |v.files|
  {
    && n > 0 && OneShort(v, i, n) && !CleanCut(NBlocks(v, i), n - 1)
    && Ind in v.files[i].ptrs && !l.Refused(v.files[i].ptrs[Ind])
  }

  /** A caller can check this before the call. */
  ghost predicate Hangs(l: Layout, v: Volume, i: nat, n: nat)
    requires i < |v.files|
  {
    var a := NBlocks(v, i);
    if CleanGrow(a, n) then !Room(v, i, n) && !GetsThrough(l, v, i, n)
    else |v.free| + TreeSize(a) < TreeSize(FirstMisfiled(a)) + 1
  }

  // ------------------------------------------------------ counting slots

  function NeededSet(n: nat): (r: set<Slot>)
    requires n <= MAXFILEBLKS
    ensures forall s :: s in r <==> Needed(s, n)
  {
    if n == 0 then {}
    else
      NeededGrows(n - 1);
      NeededSet(n - 1) + NewlyNeeded(n - 1)
  }

  lemma NeededGrows(n: nat)
    requires n < MAXFILEBLKS
    ensures forall s :: Needed(s, n + 1) <==> Needed(s, n) || s in NewlyNeeded(n)
  {
    forall s
      ensures Needed(s, n + 1) <==> Needed(s, n) || s in NewlyNeeded(n)
    {
      NewlyNeededAre(n, s);
    }
  }

  /** The places behind the doubly indirect block, and that block's own. */
  predicate IsUpper(s: Slot) {
    s.Ind2? || s.Und? || s.UndEntry?
  }

  ghost function Upper(p: map<Slot, nat>): set<Slot> {
    set s | s in p && IsUpper(s)
  }

  function UpperNeeded(n: nat): (r: set<Slot>)
    requires DEEP <= n <= MAXFILEBLKS
    ensures forall s :: s in r <==> IsUpper(s) && Needed(s, n)
  {
    NeededSet(n) - NeededSet(NDIRECT + NINDIRECT)
  }

  lemma UpperCount(n: nat)
    requires DEEP <= n <= MAXFILEBLKS
    ensures |UpperNeeded(n)| + TreeSize(NDIRECT + NINDIRECT) == TreeSize(n)
  {
    ShapedCount(NeededSet(n), n);
    ShapedCount(NeededSet(NDIRECT + NINDIRECT), NDIRECT + NINDIRECT);
    NeededMonotone(NDIRECT + NINDIRECT, n);
    SplitCount(NeededSet(n), NeededSet(NDIRECT + NINDIRECT));
  }

  lemma SlotSubset(a: set<Slot>, b: set<Slot>)
    requires a <= b
    ensures |a| <= |b|
  {
    assert b == a + (b - a);
  }

  // -------------------------------------- trees that lost an indirect block

  /** A file that was grown from `a` blocks towards `n`, possibly after rollbacks
      that left indirect blocks behind the doubly indirect one standing and
      freed the first indirect block instead. */
  ghost predicate Deep(l: Layout, a: nat, n: nat, z: Volume, i: nat) {
    && Sound(l, z) && IsFile(z, i)
    && DEEP <= a <= NBlocks(z, i) <= n <= MAXFILEBLKS
    && Ind2 in z.files[i].ptrs
    && (forall s :: s in z.files[i].ptrs && IsUpper(s) ==> Needed(s, n))
    && (forall s: Slot :: s.UndEntry? ==> (s in z.files[i].ptrs <==> Needed(s, NBlocks(z, i))))
    && (forall s :: s in z.files[i].ptrs && !Needed(s, a) ==> !l.Refused(z.files[i].ptrs[s]))
  }

  ghost function Spare(l: Layout, p: map<Slot, nat>): nat {
    if Ind in p && !l.Refused(p[Ind]) then 1 else 0
  }

  /** Everything the loop can ever use behind the doubly indirect block. */
  ghost function Cap(l: Layout, z: Volume, i: nat): nat
    requires i < |z.files|
  {
    |z.free| + |Upper(z.files[i].ptrs)| + Spare(l, z.files[i].ptrs)
  }

  lemma DeepSlots(p: map<Slot, nat>, m: nat)
    requires DEEP <= m < MAXFILEBLKS && Ind2 in p
    requires forall s: Slot :: s.UndEntry? ==> (s in p <==> Needed(s, m))
    ensures var slots := NewSlots(p, m);
      && Distinct(slots)
      && (forall s :: s in slots ==> IsUpper(s) && s !in p && Needed(s, m + 1))
      && (forall s: Slot :: s.UndEntry? ==> (Needed(s, m + 1) <==> Needed(s, m) || s in slots))
      && (forall s :: s in slots ==> !Needed(s, m) || s.Und?)
  {
    StoredInPlaceIff(m);
    var k := m - NDIRECT - NINDIRECT;
    assert k == NINDIRECT * (k / NINDIRECT) + k % NINDIRECT;
  }

  lemma SlotsCount(p: map<Slot, nat>, q: map<Slot, nat>, slots: seq<Slot>)
    requires Distinct(slots) && q.Keys == p.Keys + SlotsOf(slots)
    requires forall s :: s in slots ==> IsUpper(s) && s !in p
    ensures |Upper(q)| == |Upper(p)| + |slots|
  {
    hide Distinct, Upper, IsUpper;
    var added := SlotsOf(slots);
    DistinctCount(slots);
    UpperOfMore(p, q, slots);
    DisjointCount(Upper(p), added);
  }

  function SlotsOf(slots: seq<Slot>): set<Slot> {
    set s | s in slots
  }

  lemma DisjointCount(a: set<Slot>, b: set<Slot>)
    requires a !! b
    ensures |a + b| == |a| + |b|
  {
  }

  lemma UpperOfMore(p: map<Slot, nat>, q: map<Slot, nat>, slots: seq<Slot>)
    requires q.Keys == p.Keys + SlotsOf(slots)
    requires forall s :: s in slots ==> IsUpper(s) && s !in p
    ensures Upper(q) == Upper(p) + SlotsOf(slots) && Upper(p) !! SlotsOf(slots)
  {
    hide IsUpper;
    forall s
      ensures s in Upper(q) <==> s in Upper(p) + SlotsOf(slots)
    {
      assert s in q.Keys <==> s in p.Keys || s in slots;
    }
  }

  lemma AddDeep(l: Layout, a: nat, n: nat, z: Volume, i: nat)
    requires Deep(l, a, n, z, i) && NBlocks(z, i) < n
    ensures var (w, st) := AddBlock(z, i);
      && (st == Ok ==> Deep(l, a, n, w, i) && NBlocks(w, i) == NBlocks(z, i) + 1 && Cap(l, w, i) == Cap(l, z, i))
      && (st == Ok ==> (Ind in w.files[i].ptrs <==> Ind in z.files[i].ptrs))
      && (st != Ok ==> w == z)
  {
    hide Sound, NewSlots, Size2NBlocks, FillAll;
    var m := NBlocks(z, i);
    var p := z.files[i].ptrs;
    var slots := NewSlots(p, m);
    DeepSlots(p, m);
    SizeStep(z.files[i].size);
    NeededMonotone(m + 1, n);
    if |slots| <= |z.free| {
      FillAllFacts(z, i, slots);
      AddBlockSound(l, z, i);
      var q := FillAll(z, i, slots).files[i].ptrs;
      SlotsCount(p, q, slots);
      forall s | s in q && !Needed(s, a)
        ensures !l.Refused(q[s])
      {
        if s in slots {
          TakenFromFree(z, i, slots, s);
          FreeIsNotRefused(l, z, q[s]);
        }
      }
      assert Ind !in slots;
    }
  }

  lemma FreeIsNotRefused(l: Layout, z: Volume, b: nat)
    requires Sound(l, z) && b in z.free
    ensures !l.Refused(b)
  {
  }

  lemma LastSlot(last: nat)
    requires DEEP <= last < MAXFILEBLKS
    ensures var s := UndEntry(IndirIndex(last), DirectIndex(last));
      && ValidSlot(s) && IndirIndex(last) > 0 && Needed(s, last + 1) && !Needed(s, last)
      && (forall t: Slot :: t.UndEntry? && t != s ==> (Needed(t, last + 1) <==> Needed(t, last)))
      && (forall m: nat :: m <= last ==> !Needed(s, m))
  {
    LastIndices(last);
    var k := last - NDIRECT - NINDIRECT;
    assert k == NINDIRECT * (k / NINDIRECT) + k % NINDIRECT;
  }

  lemma RemoveDeep(l: Layout, a: nat, n: nat, z: Volume, i: nat)
    requires Deep(l, a, n, z, i) && NBlocks(z, i) > a
    ensures var (w, st) := RemoveBlock(l, z, i);
      && st == Ok && Deep(l, a, n, w, i) && NBlocks(w, i) == NBlocks(z, i) - 1 && Cap(l, w, i) == Cap(l, z, i)
      && (Ind in w.files[i].ptrs ==> Ind in z.files[i].ptrs && !Misfreed(NBlocks(z, i) - 1))
  {
    hide Sound, Size2NBlocks, Upper, Release;
    var last := NBlocks(z, i) - 1;
    var p := z.files[i].ptrs;
    var s := UndEntry(IndirIndex(last), DirectIndex(last));
    LastSlot(last);
    SoundIsClosed(l, z, i);
    assert ParentPresent(p.Keys, s);
    SizeStep(z.files[i].size);
    RemoveBlockSound(l, z, i);
    assert s in p;
    hide Needed;
    RemovalCap(l, z, i, last);
  }

  /** A block under the doubly indirect one changes hands; the first indirect
      block may do so too. */
  lemma RemovalCap(l: Layout, z: Volume, i: nat, last: nat)
    requires Sound(l, z) && IsFile(z, i) && DEEP <= last < MAXFILEBLKS && IndirIndex(last) > 0
    requires var p, s := z.files[i].ptrs, UndEntry(IndirIndex(last), DirectIndex(last));
      Ind2 in p && Und(IndirIndex(last)) in p && s in p && !l.Refused(p[s])
    ensures var p, s := z.files[i].ptrs, UndEntry(IndirIndex(last), DirectIndex(last));
      var (free', p', st) := Removal(l, z.free, p, last);
      && st == Ok && p' == (if DirectIndex(last) != 0 then p - {s} else DropInd(p - {s}))
      && |free'| + |Upper(p')| + Spare(l, p') == |z.free| + |Upper(p)| + Spare(l, p)
  {
    var p, s := z.files[i].ptrs, UndEntry(IndirIndex(last), DirectIndex(last));
    OwnBlocksAreUsed(l, z, i, s);
    hide Sound, IndirIndex, DirectIndex;
    var p1 := p - {s};
    var free1 := z.free + {p[s]};
    assert |free1| == |z.free| + 1;
    UpperWithout(p, s);
    if DirectIndex(last) == 0 {
      UpperWithoutInd(p1);
      assert l.Refused(0);
      if Spare(l, p) == 1 {
        OwnBlocksAreUsed(l, z, i, Ind);
        assert |free1 + {p[Ind]}| == |free1| + 1;
      }
    }
  }

  lemma OwnBlocksAreUsed(l: Layout, z: Volume, i: nat, s: Slot)
    requires Sound(l, z) && HasPtr(z, i, s)
    ensures z.files[i].ptrs[s] !in z.free
    ensures forall t :: t in z.files[i].ptrs && t != s ==> z.files[i].ptrs[t] != z.files[i].ptrs[s]
  {
    assert PtrOk(l, z, i, s);
    assert forall t :: t in z.files[i].ptrs ==> HasPtr(z, i, t);
  }

  lemma UpperWithout(p: map<Slot, nat>, s: Slot)
    requires s in p && IsUpper(s)
    ensures |Upper(p - {s})| + 1 == |Upper(p)|
  {
    assert Upper(p) == Upper(p - {s}) + {s};
  }

  lemma UpperWithoutInd(p: map<Slot, nat>)
    ensures Upper(DropInd(p)) == Upper(p) && Ind !in DropInd(p)
  {
  }

  /** The rollback never fails; it keeps the first indirect block only if it
      passes no misfreed block. */
  lemma {:induction false} ShrinkDeep(l: Layout, a: nat, n: nat, z: Volume, i: nat)
    requires Deep(l, a, n, z, i)
    ensures var (u, st) := ShrinkTo(l, z, i, a);
      && st == Ok && Deep(l, a, n, u, i) && NBlocks(u, i) == a && Cap(l, u, i) == Cap(l, z, i)
      && (Ind in u.files[i].ptrs ==> Ind in z.files[i].ptrs && CleanCut(a, NBlocks(z, i)))
    decreases NBlocks(z, i)
  {
    hide RemoveBlock, Sound, Size2NBlocks, Needed, Cap, Misfreed;
    if NBlocks(z, i) > a {
      RemoveDeep(l, a, n, z, i);
      ShrinkDeep(l, a, n, RemoveBlock(l, z, i).0, i);
    }
  }

  /** A file that reached `n` blocks has used that many. */
  lemma ReachedCap(l: Layout, a: nat, n: nat, z: Volume, i: nat)
    requires Deep(l, a, n, z, i)
    ensures NBlocks(z, i) == n ==> |UpperNeeded(n)| <= Cap(l, z, i)
  {
    if NBlocks(z, i) == n {
      var p := z.files[i].ptrs;
      SoundIsClosed(l, z, i);
      forall s | s in UpperNeeded(n)
        ensures s in Upper(p)
      {
        if s.Und? {
          assert Needed(UndEntry(s.j, 0), n);
          assert ParentPresent(p.Keys, UndEntry(s.j, 0));
        }
      }
      SlotSubset(UpperNeeded(n), Upper(p));
    }
  }

  lemma {:induction false} NeverReaches(l: Layout, a: nat, n: nat, z: Volume, i: nat, fuel: nat)
    requires Deep(l, a, n, z, i) && Cap(l, z, i) < |UpperNeeded(n)|
    ensures GrowTo(l, z, i, a, n, fuel).1 == Spinning
    decreases fuel
  {
    hide AddBlock, ShrinkTo, Sound, Size2NBlocks, Needed, Cap, UpperNeeded;
    ReachedCap(l, a, n, z, i);
    if fuel > 0 {
      AddDeep(l, a, n, z, i);
      var (w, st) := AddBlock(z, i);
      if st == Ok {
        NeverReaches(l, a, n, w, i, fuel - 1);
      } else {
        ShrinkDeep(l, a, n, w, i);
        NeverReaches(l, a, n, ShrinkTo(l, w, i, a).0, i, fuel - 1);
      }
    }
  }

  /** Without the first indirect block the free blocks are all there is, and they
      suffice: no call fails any more. */
  lemma {:induction false} Reaches(l: Layout, a: nat, n: nat, z: Volume, i: nat, fuel: nat)
    requires Deep(l, a, n, z, i) && Cap(l, z, i) >= |UpperNeeded(n)| && Ind !in z.files[i].ptrs
    requires fuel >= n - NBlocks(z, i)
    ensures var (w, out) := GrowTo(l, z, i, a, n, fuel);
      out == Finished(Ok) && !Shaped(w.files[i])
    decreases fuel
  {
    hide AddBlock, ShrinkTo, Sound, Size2NBlocks, Cap, UpperNeeded;
    if NBlocks(z, i) < n {
      AddDeep(l, a, n, z, i);
      AddDeepSucceeds(l, a, n, z, i);
      Reaches(l, a, n, AddBlock(z, i).0, i, fuel - 1);
    } else {
      assert Needed(Ind, n);
    }
  }

  lemma AddDeepSucceeds(l: Layout, a: nat, n: nat, z: Volume, i: nat)
    requires Deep(l, a, n, z, i) && Cap(l, z, i) >= |UpperNeeded(n)| && Ind !in z.files[i].ptrs && NBlocks(z, i) < n
    ensures AddBlock(z, i).1 == Ok
  {
    hide Sound, NewSlots, Size2NBlocks, FillAll, Distinct, UpperNeeded;
    var m := NBlocks(z, i);
    var p := z.files[i].ptrs;
    DeepSlots(p, m);
    NeededMonotone(m + 1, n);
    FitsUpper(p, NewSlots(p, m), n);
  }

  /** The slots filled and those to fill are among the slots needed at the end. */
  lemma FitsUpper(p: map<Slot, nat>, slots: seq<Slot>, n: nat)
    requires DEEP <= n <= MAXFILEBLKS && Distinct(slots)
    requires forall s :: s in p && IsUpper(s) ==> Needed(s, n)
    requires forall s :: s in slots ==> IsUpper(s) && s !in p && Needed(s, n)
    ensures |Upper(p)| + |slots| <= |UpperNeeded(n)|
  {
    hide Distinct, Needed, IsUpper;
    var added := SlotsOf(slots);
    DistinctCount(slots);
    assert Upper(p) + added <= UpperNeeded(n);
    assert Upper(p) !! added;
    hide Upper, UpperNeeded, SlotsOf;
    SlotSubset(Upper(p) + added, UpperNeeded(n));
    DisjointCount(Upper(p), added);
  }

  /** A file in shape, large enough, starts the story. */
  lemma StartsDeep(l: Layout, a: nat, n: nat, x: Volume, i: nat)
    requires GoodFile(l, x, i) && DEEP <= a <= NBlocks(x, i) <= n <= MAXFILEBLKS
    requires !CutsRefused(l, x.files[i].ptrs, a)
    ensures Deep(l, a, n, x, i)
    ensures Cap(l, x, i) + TreeSize(NDIRECT + NINDIRECT)
         == |x.free| + TreeSize(NBlocks(x, i)) + Spare(l, x.files[i].ptrs)
  {
    StartsDeepShape(l, a, n, x, i);
    hide Sound, Size2NBlocks, TreeSize, Needed, Upper, UpperNeeded, Spare, CutsRefused;
    UpperCount(NBlocks(x, i));
    ShapedUpper(x.files[i].ptrs, NBlocks(x, i));
  }

  lemma StartsDeepShape(l: Layout, a: nat, n: nat, x: Volume, i: nat)
    requires GoodFile(l, x, i) && DEEP <= a <= NBlocks(x, i) <= n <= MAXFILEBLKS
    requires !CutsRefused(l, x.files[i].ptrs, a)
    ensures Deep(l, a, n, x, i)
  {
    hide Sound, Size2NBlocks;
    NeededMonotone(NBlocks(x, i), n);
    assert Needed(Ind2, NBlocks(x, i));
    hide Needed;
  }

  lemma ShapedUpper(p: map<Slot, nat>, c: nat)
    requires DEEP <= c <= MAXFILEBLKS && ShapedPtrs(p, c)
    ensures Upper(p) == UpperNeeded(c)
  {
    hide Needed, IsUpper;
  }

  lemma SameInd(l: Layout, v: Volume, i: nat, x: Volume)
    requires GoodFile(l, v, i) && IsFile(x, i) && NBlocks(v, i) > NDIRECT && GrownTo(l, v, i, NBlocks(x, i), x)
    ensures Ind in v.files[i].ptrs && Ind in x.files[i].ptrs && x.files[i].ptrs[Ind] == v.files[i].ptrs[Ind]
  {
    assert Ind in Kept(x.files[i].ptrs, NBlocks(v, i));
  }

  // -------------------------------------------------------- the two ends

  /** One block short: the first attempt stops one block before the end, the
      rollback frees the first indirect block, and the second attempt reaches the
      end with 256 blocks of the file cut off. */
  lemma {:induction false} SecondAttempt(l: Layout, v: Volume, i: nat, x: Volume, n: nat, fuel: nat)
    requires GoodFile(l, v, i) && IsFile(x, i) && GetsThrough(l, v, i, n)
    requires DEEP <= NBlocks(v, i) <= NBlocks(x, i) < n <= MAXFILEBLKS && GrownTo(l, v, i, NBlocks(x, i), x)
    requires fuel >= n - NBlocks(x, i) + (n - NBlocks(v, i))
    ensures var (w, out) := GrowTo(l, x, i, NBlocks(v, i), n, fuel);
      out == Finished(Ok) && !Shaped(w.files[i])
    decreases fuel
  {
    hide AddBlock, ShrinkTo, Sound, Shaped, Size2NBlocks, Needed, TreeSize, Cut, CutsRefused, Cap, UpperNeeded;
    var a, c := NBlocks(v, i), NBlocks(x, i);
    NoneMisfiledFrom(c);
    AddSucceedsIff(l, x, i);
    ShortUntilLast(l, v, i, x, n);
    if AddBlock(x, i).1 == Ok {
      GrownOneMore(l, v, i, x);
      SecondAttempt(l, v, i, AddBlock(x, i).0, n, fuel - 1);
    } else {
      StartsDeep(l, a, n, x, i);
      SameInd(l, v, i, x);
      UpperCount(n);
      ShrinkDeep(l, a, n, x, i);
      Reaches(l, a, n, ShrinkTo(l, x, i, a).0, i, fuel - 1);
    }
  }

  lemma NoneMisfiledFrom(c: nat)
    ensures c >= DEEP ==> !Misfiled(c)
  {
  }

  lemma ShortUntilLast(l: Layout, v: Volume, i: nat, x: Volume, n: nat)
    requires GoodFile(l, v, i) && IsFile(x, i) && OneShort(v, i, n)
    requires NBlocks(v, i) <= NBlocks(x, i) < n <= MAXFILEBLKS && GrownTo(l, v, i, NBlocks(x, i), x)
    ensures Room(x, i, NBlocks(x, i) + 1) <==> NBlocks(x, i) + 1 < n
  {
    var c := NBlocks(x, i);
    if c + 1 < n {
      TreeSizeMonotone(c + 1, n);
    }
  }

  /** Past the misfiled blocks: the loop ends exactly when the first indirect
      block was all that was missing. */
  lemma DeepHang(l: Layout, v: Volume, i: nat, n: nat, fuel: nat)
    requires GoodFile(l, v, i) && DEEP <= NBlocks(v, i) < n <= MAXFILEBLKS && !Room(v, i, n)
    ensures !(OneShort(v, i, n) && Spare(l, v.files[i].ptrs) == 1) ==>
        GrowTo(l, v, i, NBlocks(v, i), n, fuel).1 == Spinning
    ensures GetsThrough(l, v, i, n) && fuel >= 2 * MAXFILEBLKS ==>
      var (w, out) := GrowTo(l, v, i, NBlocks(v, i), n, fuel); out == Finished(Ok) && !Shaped(w.files[i])
  {
    hide Sound, Shaped, Size2NBlocks, Needed, TreeSize, CutsRefused, GrowTo, Cap, UpperNeeded;
    var a := NBlocks(v, i);
    StartsGrown(l, v, i);
    NothingToCut(l, v, i);
    StartsDeep(l, a, n, v, i);
    UpperCount(n);
    if !(OneShort(v, i, n) && Spare(l, v.files[i].ptrs) == 1) {
      NeverReaches(l, a, n, v, i, fuel);
    }
    if GetsThrough(l, v, i, n) && fuel >= 2 * MAXFILEBLKS {
      SecondAttempt(l, v, i, v, n, fuel);
    }
  }

  /** A misfreed block among the ones to be added lies behind all misfiled ones. */
  lemma MisfreedIsDeep(a: nat, n: nat, c: nat)
    requires CleanGrow(a, n) && a <= c <= n && !CleanCut(a, c)
    ensures a >= DEEP
  {
    var k :| a <= k < c && Misfreed(k);
    if a < DEEP {
      assert Misfiled(if a < NDIRECT + NINDIRECT then NDIRECT + NINDIRECT else a);
    }
  }

  lemma OneShortRoom(v: Volume, i: nat, n: nat)
    requires i < |v.files| && NBlocks(v, i) < n && OneShort(v, i, n)
    ensures Room(v, i, n - 1) && !Room(v, i, n)
  {
    TreeSizeMonotone(n - 1, n);
  }

  /** No room, no misfiled block on the way. */
  lemma CleanHang(l: Layout, v: Volume, i: nat, n: nat, fuel: nat)
    requires GoodFile(l, v, i) && NBlocks(v, i) < n <= MAXFILEBLKS && CleanGrow(NBlocks(v, i), n) && !Room(v, i, n)
    ensures !GetsThrough(l, v, i, n) ==> GrowTo(l, v, i, NBlocks(v, i), n, fuel).1 == Spinning
    ensures GetsThrough(l, v, i, n) && fuel >= 2 * MAXFILEBLKS ==>
      var (w, out) := GrowTo(l, v, i, NBlocks(v, i), n, fuel); out == Finished(Ok) && !Shaped(w.files[i])
  {
    hide Sound, Shaped, Size2NBlocks, Needed, TreeSize, GrowTo, CleanGrow, Room, OneShort;
    var a := NBlocks(v, i);
    StartsGrown(l, v, i);
    if RollsBack(v, i, n) {
      if GetsThrough(l, v, i, n) {
        OneShortRoom(v, i, n);
      }
      GrowSpins(l, v, i, v, n, fuel);
    } else {
      var c :| a <= c < n && Room(v, i, c) && !CleanCut(a, c);
      MisfreedIsDeep(a, n, c);
      if OneShort(v, i, n) {
        CutLonger(a, c, n - 1);
      }
      DeepHang(l, v, i, n, fuel);
    }
  }

  lemma CutLonger(a: nat, c: nat, n: nat)
    requires a <= c <= n && !CleanCut(a, c)
    ensures !CleanCut(a, n)
  {
  }

  // ------------------------------------------------ with a misfiled block

  /** Once a block is misfiled every further round ends the loop or brings it one
      block further: the rollback gives up at the gap. */
  lemma {:induction false} GapEnds(l: Layout, v: Volume, i: nat, base: nat, n: nat, fuel: nat, k: nat)
    requires Gap(v, i, k) && base <= k && n <= MAXFILEBLKS && fuel + NBlocks(v, i) >= n
    ensures GrowTo(l, v, i, base, n, fuel).1 != Spinning
    decreases fuel
  {
    hide Size2NBlocks, AddBlock, ShrinkTo;
    if NBlocks(v, i) < n {
      AddBlockKeepsGap(v, i, k);
      AddBlockLonger(v, i);
      var (w, st) := AddBlock(v, i);
      if st == Ok {
        GapEnds(l, w, i, base, n, fuel - 1, k);
      } else {
        RollbackHitsGap(l, w, i, base, k);
      }
    }
  }

  lemma AddBlockLonger(v: Volume, i: nat)
    requires i < |v.files| && NBlocks(v, i) < MAXFILEBLKS
    ensures AddBlock(v, i).1 == Ok ==> NBlocks(AddBlock(v, i).0, i) == NBlocks(v, i) + 1
  {
    hide Size2NBlocks, NewSlots;
    SizeStep(v.files[i].size);
  }

  /** The way to the first misfiled block is always clean. */
  lemma WayToMisfiled(a: nat, n: nat)
    requires a <= n && !CleanGrow(a, n)
    ensures a <= FirstMisfiled(a) < n && Misfiled(FirstMisfiled(a))
    ensures CleanGrow(a, FirstMisfiled(a)) && CleanCut(a, FirstMisfiled(a))
  {
  }

  lemma {:induction false} UncleanHang(l: Layout, v: Volume, i: nat, x: Volume, n: nat, fuel: nat)
    requires GoodFile(l, v, i) && IsFile(x, i) && NBlocks(v, i) <= n <= MAXFILEBLKS && !CleanGrow(NBlocks(v, i), n)
    requires NBlocks(v, i) <= NBlocks(x, i) <= FirstMisfiled(NBlocks(v, i)) && GrownTo(l, v, i, NBlocks(x, i), x)
    ensures Hangs(l, v, i, n) ==> GrowTo(l, x, i, NBlocks(v, i), n, fuel).1 == Spinning
    ensures !Hangs(l, v, i, n) && fuel + NBlocks(x, i) >= n ==> GrowTo(l, x, i, NBlocks(v, i), n, fuel).1 != Spinning
    decreases fuel
  {
    hide Sound, Shaped, Size2NBlocks, Needed, TreeSize, AddBlock, ShrinkTo, Cut, CutsRefused, Misfiled, FirstMisfiled;
    var a, c := NBlocks(v, i), NBlocks(x, i);
    var f := FirstMisfiled(a);
    WayToMisfiled(a, n);
    if fuel > 0 {
      AddTowardsMisfiled(l, v, i, x);
      if AddBlock(x, i).1 != Ok {
        CleanCutLess(a, c, f);
        RollbackExact(l, v, i, x);
        StartsGrown(l, v, i);
        UncleanHang(l, v, i, v, n, fuel - 1);
      } else if c < f {
        GrownOneMore(l, v, i, x);
        UncleanHang(l, v, i, AddBlock(x, i).0, n, fuel - 1);
      } else {
        AddBlockMakesGap(l, x, i);
        AddBlockLonger(x, i);
        if fuel + c >= n {
          GapEnds(l, AddBlock(x, i).0, i, a, n, fuel - 1, c);
        }
      }
    }
  }

  lemma CleanCutLess(a: nat, c: nat, f: nat)
    requires c <= f && CleanCut(a, f)
    ensures CleanCut(a, c)
  {
  }

  /** Each block on the way costs what the tree grows by, the misfiled one just
      itself. */
  lemma AddTowardsMisfiled(l: Layout, v: Volume, i: nat, x: Volume)
    requires GoodFile(l, v, i) && IsFile(x, i) && Misfiled(FirstMisfiled(NBlocks(v, i)))
    requires NBlocks(v, i) <= NBlocks(x, i) <= FirstMisfiled(NBlocks(v, i)) && GrownTo(l, v, i, NBlocks(x, i), x)
    ensures var a, c := NBlocks(v, i), NBlocks(x, i);
      && (c < FirstMisfiled(a) ==> !Misfiled(c))
      && (AddBlock(x, i).1 == Ok <==>
        |v.free| + TreeSize(a) >= if c < FirstMisfiled(a) then TreeSize(c + 1) else TreeSize(c) + 1)
      && (AddBlock(x, i).1 != Ok ==> AddBlock(x, i) == (x, NoSpace))
      && (c < FirstMisfiled(a) ==> TreeSize(c + 1) <= TreeSize(FirstMisfiled(a)))
  {
    var a, c := NBlocks(v, i), NBlocks(x, i);
    hide Sound, Size2NBlocks, Needed, TreeSize, AddBlock, Cut, CutsRefused, NewSlots;
    AddBlockExact(l, x, i);
    if c < FirstMisfiled(a) {
      AddSucceedsIff(l, x, i);
      TreeSizeMonotone(c + 1, FirstMisfiled(a));
    }
  }

  // ------------------------------------------------------------ the theorem

  /** For every file in shape and every larger size: the growing loop runs for
      ever exactly under the condition that a caller can check; otherwise it ends
      within two passes. */
  lemma GrowHangsExactly(l: Layout, v: Volume, i: nat, n: nat, fuel: nat)
    requires GoodFile(l, v, i) && NBlocks(v, i) <= n <= MAXFILEBLKS
    ensures Hangs(l, v, i, n) ==> GrowTo(l, v, i, NBlocks(v, i), n, fuel).1 == Spinning
    ensures !Hangs(l, v, i, n) && fuel >= 2 * MAXFILEBLKS ==> GrowTo(l, v, i, NBlocks(v, i), n, fuel).1 != Spinning
  {
    hide Sound, Shaped, Size2NBlocks, Needed, TreeSize, GrowTo, GetsThrough;
    var a := NBlocks(v, i);
    StartsGrown(l, v, i);
    if !CleanGrow(a, n) {
      WayToMisfiled(a, n);
      UncleanHang(l, v, i, v, n, fuel);
    } else if !Room(v, i, n) {
      RoomForNothing(v, i, n);
      CleanHang(l, v, i, n, fuel);
    } else {
      GrowSucceeds(l, v, i, v, n, fuel);
    }
  }

  lemma RoomForNothing(v: Volume, i: nat, n: nat)
    requires i < |v.files| && NBlocks(v, i) <= n && !Room(v, i, n)
    ensures NBlocks(v, i) < n
  {
  }

  /** `change_size` towards a larger size runs for ever exactly then, and when it
      gets through on the second attempt it reports success with the tree out of
      shape. */
  lemma ChangeSizeHangs(l: Layout, v: Volume, i: nat, size: uint32, fuel: nat)
    requires GoodFile(l, v, i) && NBlocks(v, i) <= Size2NBlocks(size) <= MAXFILEBLKS
    ensures var n := Size2NBlocks(size);
      var (w, out) := ChangeSize(l, v, i, size, fuel);
      && (Hangs(l, v, i, n) ==> out == Spinning)
      && (!Hangs(l, v, i, n) && fuel >= 2 * MAXFILEBLKS ==> out != Spinning)
      && (CleanGrow(NBlocks(v, i), n) && GetsThrough(l, v, i, n) && fuel >= 2 * MAXFILEBLKS ==>
            out == Finished(Ok) && !Shaped(w.files[i]))
  {
    hide Sound, Shaped, Size2NBlocks, Needed, TreeSize, GrowTo, ShrinkTo, Hangs, CleanGrow, OneShort;
    var a, n := NBlocks(v, i), Size2NBlocks(size);
    GrowHangsExactly(l, v, i, n, fuel);
    var (w, out) := GrowTo(l, v, i, a, n, fuel);
    GrowLands(l, v, i, a, n, fuel);
    if out == Finished(Ok) {
      ShrinkToNothing(l, w, i, n);
    }
    if CleanGrow(a, n) && GetsThrough(l, v, i, n) && fuel >= 2 * MAXFILEBLKS {
      OneShortIsShort(v, i, n);
      CleanHang(l, v, i, n, fuel);
      SizeDoesNotShape(w, i, size);
    }
  }

  lemma OneShortIsShort(v: Volume, i: nat, n: nat)
    requires i < |v.files| && NBlocks(v, i) <= n && OneShort(v, i, n)
    ensures NBlocks(v, i) < n && !Room(v, i, n)
  {
  }

  lemma SizeDoesNotShape(v: Volume, i: nat, size: uint32)
    requires i < |v.files| && NBlocks(v, i) == Size2NBlocks(size)
    ensures Shaped(SetSize(v, i, size).files[i]) <==> Shaped(v.files[i])
  {
  }
}
