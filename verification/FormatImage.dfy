/** The formatter of File_System/ospfsformat.c at work through its cache: storing
    the blocks of a file, and the free-block bitmap at the end. */
module FormatImage {
  import opened Common
  import opened OspfsLayout
  import opened FormatCache
  import opened FormatTree

  // ------------------------------------------------------------ bits of a word

  function Pow2(k: nat): (p: nat)
    ensures p > 0
  {
    if k == 0 then 1 else 2 * Pow2(k - 1)
  }

  predicate Bit(w: nat, k: nat) { w / Pow2(k) % 2 == 1 }

  /** `w & ~(1 << k)`. */
  function Cleared(w: nat, k: nat): (r: nat)
    ensures r <= w
  {
    if Bit(w, k) then (BitFits(w, k); w - Pow2(k)) else w
  }

  lemma BitFits(w: nat, k: nat)
    ensures Bit(w, k) ==> Pow2(k) <= w
  {
    if w < Pow2(k) { Quotient(w, Pow2(k), 0, w); }
  }

  lemma {:induction false} PowSum(a: nat, b: nat)
    ensures Pow2(a + b) == Pow2(a) * Pow2(b)
  {
    if a > 0 {
      PowSum(a - 1, b);
      assert Pow2(a + b) == 2 * (Pow2(a - 1) * Pow2(b)) == (2 * Pow2(a - 1)) * Pow2(b);
    }
  }

  lemma {:induction false} MulGrows(p: nat, z: nat, q: nat)
    requires z < q
    ensures p * z + p <= p * q
  {
    if z + 1 < q { MulGrows(p, z, q - 1); }
    assert p * q == p * (q - 1) + p;
  }

  lemma Regroup(p: nat, q: nat, y: nat, z: nat, r: nat)
    ensures p * (q * y + z) + r == (p * q) * y + (p * z + r)
  {
    assert p * (q * y + z) == p * (q * y) + p * z;
    assert p * (q * y) == (p * q) * y;
  }

  lemma Nested(w: nat, p: nat, q: nat, x: nat, r: nat, y: nat, z: nat)
    requires w == p * x + r && r < p && x == q * y + z && z < q
    ensures w == (p * q) * y + (p * z + r) && p * z + r < p * q
  {
    Regroup(p, q, y, z, r);
    MulGrows(p, z, q);
  }

  lemma DivDiv(w: nat, p: nat, q: nat)
    requires p > 0 && q > 0 && p * q > 0
    ensures w / (p * q) == w / p / q
  {
    var (x, r) := (w / p, w % p);
    var (y, z) := (x / q, x % q);
    Nested(w, p, q, x, r, y, z);
    Quotient(w, p * q, y, p * z + r);
  }

  /** A higher bit is a bit of the quotient. */
  lemma BitShift(w: nat, a: nat, b: nat)
    ensures w / Pow2(a + b) == w / Pow2(a) / Pow2(b)
  {
    PowSum(a, b);
    DivDiv(w, Pow2(a), Pow2(b));
  }

  lemma TakeOne(w: nat, p: nat)
    requires 0 < p <= w
    ensures (w - p) / p == w / p - 1
  {
    var (x, r) := (w / p, w % p);
    assert p * (x - 1) == p * x - p;
    Quotient(w - p, p, x - 1, r);
  }

  /** Clearing bit `k` clears it and no other. */
  lemma ClearedExact(w: nat, k: nat, j: nat)
    ensures Bit(Cleared(w, k), j) <==> j != k && Bit(w, j)
  {
    if Bit(w, k) {
      BitFits(w, k);
      if j >= k {
        TakeOne(w, Pow2(k));
        var v := w - Pow2(k);
        BitShift(w, k, j - k);
        BitShift(v, k, j - k);
        OddMinusOne(w / Pow2(k), j - k);
        assert k + (j - k) == j;
      } else {
        LowerBit(w, k, j);
      }
    }
  }

  lemma LowerBit(w: nat, k: nat, j: nat)
    requires j < k && Pow2(k) <= w
    ensures Bit(w - Pow2(k), j) <==> Bit(w, j)
  {
    var (p, h) := (Pow2(j), Pow2(k - j - 1));
    assert Pow2(k) == p * (2 * h) by {
      PowSum(j, k - j);
      assert j + (k - j) == k && Pow2(k - j) == 2 * h;
    }
    EvenAway(w, p, 2 * h);
    EvenSub(w / p, h);
  }

  /** Taking one from an odd number changes its last bit and no other. */
  lemma OddMinusOne(x: nat, b: nat)
    requires x % 2 == 1
    ensures b == 0 ==> (x - 1) / Pow2(b) % 2 == 0
    ensures b > 0 ==> (x - 1) / Pow2(b) == x / Pow2(b)
  {
    if b > 0 {
      BitShift(x, 1, b - 1);
      BitShift(x - 1, 1, b - 1);
      assert Pow2(1) == 2;
    }
  }

  lemma EvenSub(x: int, h: int)
    ensures (x - 2 * h) % 2 == x % 2
  {
  }

  lemma EvenAway(w: nat, p: nat, q: nat)
    requires p > 0 && p * q <= w
    ensures (w - p * q) / p == w / p - q
  {
    assert p * (w / p - q) == p * (w / p) - p * q;
    Quotient(w - p * q, p, w / p - q, w % p);
  }

  // ------------------------------------------------------------ the bitmap

  const FREEMAP_BLK: nat := 2
  const BLKBITSIZE: nat := 8192

  /** Bit `i` of the bitmap: one means free. */
  predicate MapBit(d: Disk, i: nat)
    requires FREEMAP_BLK + i / BLKBITSIZE < |d| && Full(d[FREEMAP_BLK + i / BLKBITSIZE])
  {
    Bit(Entry(d[FREEMAP_BLK + i / BLKBITSIZE], i % BLKBITSIZE / 32), i % 32)
  }

  function WithoutBit(c: Contents, i: nat): Contents
    requires Full(c) && i < BLKBITSIZE
  {
    WithEntry(c, i / 32, Cleared(Entry(c, i / 32), i % 32))
  }

  lemma WithoutBitExact(c: Contents, i: nat, j: nat)
    requires Full(c) && i < BLKBITSIZE && j < BLKBITSIZE
    ensures Full(WithoutBit(c, i))
    ensures Bit(Entry(WithoutBit(c, i), j / 32), j % 32) <==> j != i && Bit(Entry(c, j / 32), j % 32)
  {
    hide Cleared, Bit;
    EntryWritten(c, i / 32, Cleared(Entry(c, i / 32), i % 32), j / 32);
    ClearedExact(Entry(c, i / 32), i % 32, j % 32);
  }

  /** The boot block, and the blocks behind the bitmap. */
  predicate OffMap(b: nat, nbitblock: nat) {
    b == 0 || FREEMAP_BLK + nbitblock <= b
  }

  /** The blocks of the bitmap are there and in order. */
  ghost predicate HasMap(d: Disk, nbitblock: nat) {
    FREEMAP_BLK + nbitblock <= |d| && forall b :: FREEMAP_BLK <= b < FREEMAP_BLK + nbitblock ==> Full(d[b])
  }

  lemma MapBitCleared(d: Disk, nbitblock: nat, i: nat, j: nat)
    requires HasMap(d, nbitblock) && i < nbitblock * BLKBITSIZE && j < nbitblock * BLKBITSIZE
    ensures var b := FREEMAP_BLK + i / BLKBITSIZE;
      && HasMap(d[b := WithoutBit(d[b], i % BLKBITSIZE)], nbitblock)
      && (MapBit(d[b := WithoutBit(d[b], i % BLKBITSIZE)], j) <==> j != i && MapBit(d, j))
  {
    hide WithoutBit, Full, Bit, Entry;
    var b := FREEMAP_BLK + i / BLKBITSIZE;
    WithoutBitExact(d[b], i % BLKBITSIZE, j % BLKBITSIZE);
    assert j % BLKBITSIZE % 32 == j % 32;
    assert i == i / BLKBITSIZE * BLKBITSIZE + i % BLKBITSIZE;
    assert j == j / BLKBITSIZE * BLKBITSIZE + j % BLKBITSIZE;
  }

  // ------------------------------------------------------------ the formatter

  class Formatter {
    const cache: BlockCache
    var nextb: nat

    constructor (nblocks: nat)
      ensures fresh(cache) && fresh(cache.cache) && fresh(cache.disk) && cache.Valid() && cache.disk.Length == nblocks
      ensures nextb == 0 && forall b :: 0 <= b < nblocks ==> cache.View()[b] == Zeroed()
      ensures Only({})
    {
      cache := new BlockCache(nblocks);
      nextb := 0;
    }

    ghost predicate Valid()
      reads this, cache, cache.cache, cache.disk
    {
      cache.Valid() && nextb > 0
    }

    /** The disk as the cache shows it, and how much of it is taken. */
    ghost function Img(): Image
      reads this, cache, cache.cache, cache.disk
    {
      Image(cache.View(), nextb)
    }

    /** The slot shows block `bno` and will not be reused before it is put back. */
    ghost predicate Held(slot: nat, bno: nat)
      reads cache, cache.cache, cache.disk
    {
      && slot < cache.cache.Length && cache.cache[slot].bno == bno && cache.cache[slot].busy > 0
      && bno < cache.disk.Length && cache.cache[slot].data == cache.View()[bno]
    }

    /** Nobody holds a slot but for these blocks, each once. */
    ghost predicate Only(held: set<nat>)
      reads cache, cache.cache
    {
      OnlyHeld(cache.cache[..], held)
    }

    /** `getblk` of a block that is not held: it aborts behind the end of the disk
        only, as the sixteen slots are never all held. */
    method Hold(bno: nat, clr: bool, kind: Kind, ghost held: set<nat>) returns (r: Option<nat>)
      requires cache.Valid() && bno > 0 && Only(held) && |held| < NSLOTS && bno !in held
      modifies cache, cache.cache, cache.disk
      ensures r.Some? <==> bno < cache.disk.Length
      ensures r.Some? ==> Only(held + {bno})
      ensures r.Some? ==> cache.Valid() && bno < cache.disk.Length && Held(r.value, bno)
      ensures r.Some? ==> cache.View() == if clr then old(cache.View())[bno := Zeroed()] else old(cache.View())
      ensures r.Some? ==> forall j, c :: old(Held(j, c)) && (clr ==> c != bno) ==> Held(j, c)
    {
      hide Seen, Flat, Sound, Zeroed, Refused, OnlyHeld, Holder;
      ghost var slots := cache.cache[..];
      if bno < cache.disk.Length {
        SlotLeft(slots, cache.disk.Length, cache.t, bno, kind, held);
      } else {
        RefusedPastEnd(slots, cache.disk.Length, bno, kind);
      }
      r := cache.GetBlk(bno, clr, kind);
      if r.Some? {
        HeldOneMore(slots, cache.cache[..], r.value, bno, kind, held);
      }
    }

    /** `u.u[k] = v` in a slot that is held. */
    method SetEntry(slot: nat, bno: nat, k: nat, v: nat, ghost held: set<nat>)
      requires cache.Valid() && Held(slot, bno) && k < BLKWORDS && v < TWO32 && Full(cache.View()[bno])
      requires Only(held)
      modifies cache.cache
      ensures Only(held)
      ensures cache.Valid() && cache.View() == old(cache.View())[bno := WithEntry(old(cache.View())[bno], k, v)]
      ensures forall j, c :: old(Held(j, c)) && (c != bno || j == slot) ==> Held(j, c)
    {
      hide Seen, Flat, Sound, Zeroed, WithEntry, Full;
      assert slot < NSLOTS by { SlotCount(cache.cache[..], cache.disk.Length, cache.t); }
      cache.Store(slot, WithEntry(cache.cache[slot].data, k, v));
    }

    method Put(slot: nat, bno: nat, ghost held: set<nat>)
      requires cache.Valid() && Held(slot, bno) && Only(held)
      modifies cache.cache
      ensures Only(held - {bno})
      ensures cache.Valid() && cache.View() == old(cache.View())
      ensures forall j, c :: old(Held(j, c)) && c != bno ==> Held(j, c)
    {
      hide Seen, Flat, Sound, OnlyHeld;
      assert slot < NSLOTS by { SlotCount(cache.cache[..], cache.disk.Length, cache.t); }
      HeldOneLess(cache.cache[..], cache.disk.Length, cache.t, slot,
          cache.cache[slot].(busy := cache.cache[slot].busy - 1), held);
      cache.PutBlk(slot);
    }

    /** `storeblk` of the block in `slot`; nothing where the source aborts. */
    method StoreBlk(ino: Inode, slot: nat, b: nat, nblk: nat) returns (r: Option<Inode>)
      requires Valid() && OnDisk(cache.View(), ino) && Apart(cache.View(), ino, nextb) && b < TWO32
      requires Held(slot, b) && Foreign(cache.View(), ino, nextb, b) && Only({b})
      modifies this, cache, cache.cache, cache.disk
      ensures r.Some? <==> Store(old(Img()), ino, b, nblk).Some?
      ensures r.Some? ==> Valid() && Store(old(Img()), ino, b, nblk) == Some((Img(), r.value))
      ensures r.Some? ==> Held(slot, b) && Only({b})
    {
      if nblk < NDIRECT {
        r := Some(ino.(direct := ino.direct[nblk := b]));
      } else if nblk < NDIRECT + NINDIRECT {
        r := StoreIndirect(ino, slot, b, nblk);
      } else if nblk < MAXFILEBLKS {
        r := StoreIndirect2(ino, slot, b, nblk);
      } else {
        r := None;
      }
    }

    /** The block for pointers: the one there is, or else the next one, cleared. */
    method HoldPointers(blk: nat, slot: nat, b: nat) returns (r: Option<nat>, bno: nat)
      requires Valid() && Held(slot, b) && Only({b}) && b < nextb && b != blk && blk < cache.disk.Length
      modifies this, cache, cache.cache, cache.disk
      ensures bno == (if blk == 0 then old(nextb) else blk)
      ensures nextb == old(nextb) + if blk == 0 then 1 else 0
      ensures r.None? <==> blk == 0 && old(nextb) >= cache.disk.Length
      ensures bno != b
      ensures r.Some? ==> Valid() && Held(r.value, bno) && Held(slot, b) && Only({b, bno})
      ensures r.Some? ==> Img() == WithPointers(old(Img()), blk) && bno == PointersBlock(old(Img()), blk)
    {
      hide Held, Only, Zeroed, Flat, Seen;
      bno := if blk == 0 then nextb else blk;
      assert {b} + {bno} == {b, bno};
      r := Hold(bno, blk == 0, Bits, {b});
      if blk == 0 {
        nextb := nextb + 1;
      }
    }

    /** `b` becomes a pointer in the held block `i`, which is put back. */
    method Enter(bindir: nat, i: nat, slot: nat, b: nat, k: nat)
      requires Valid() && Held(bindir, i) && Held(slot, b) && i != b && Only({b, i})
      requires k < BLKWORDS && b < TWO32 && Full(cache.View()[i])
      modifies cache.cache
      ensures Valid() && Held(slot, b) && Only({b})
      ensures cache.View() == old(cache.View())[i := WithEntry(old(cache.View())[i], k, b)]
    {
      hide WithEntry, Zeroed, Held, Full, Flat, Seen, Only;
      SetEntry(bindir, i, k, b, {b, i});
      Put(bindir, i, {b, i});
      assert {b, i} - {i} == {b};
    }

    method StoreIndirect(ino: Inode, slot: nat, b: nat, nblk: nat) returns (r: Option<Inode>)
      requires Valid() && OnDisk(cache.View(), ino) && b < TWO32 && NDIRECT <= nblk < NDIRECT + NINDIRECT
      requires Held(slot, b) && Foreign(cache.View(), ino, nextb, b) && Only({b})
      modifies this, cache, cache.cache, cache.disk
      ensures r.Some? <==> Store(old(Img()), ino, b, nblk).Some?
      ensures r.Some? ==> Valid() && Store(old(Img()), ino, b, nblk) == Some((Img(), r.value))
      ensures r.Some? ==> Held(slot, b) && Only({b})
    {
      ghost var im := Img();
      IndirectNone(im, ino, b, nblk);
      assert b < nextb && b != ino.indirect < cache.disk.Length;
      hide WithEntry, Zeroed, Held, Full, Store, Flat, Seen, Only, Foreign, EntryAt, Entry, OnDisk;
      hide WithPointers, PointersBlock;
      var bindir, i := HoldPointers(ino.indirect, slot, b);
      if bindir == None { return None; }
      IndirectIs(im, ino, b, nblk);
      Enter(bindir.value, i, slot, b, nblk - NDIRECT);
      return Some(ino.(indirect := i));
    }

    method StoreIndirect2(ino: Inode, slot: nat, b: nat, nblk: nat) returns (r: Option<Inode>)
      requires Valid() && OnDisk(cache.View(), ino) && Apart(cache.View(), ino, nextb) && b < TWO32
      requires Held(slot, b) && Foreign(cache.View(), ino, nextb, b) && Only({b})
      requires NDIRECT + NINDIRECT <= nblk < MAXFILEBLKS
      modifies this, cache, cache.cache, cache.disk
      ensures r.Some? <==> Store(old(Img()), ino, b, nblk).Some?
      ensures r.Some? ==> Valid() && Store(old(Img()), ino, b, nblk) == Some((Img(), r.value))
      ensures r.Some? ==> Held(slot, b) && Only({b})
    {
      ghost var im := Img();
      Indirect2None(im, ino, b, nblk);
      assert b < nextb && b != ino.indirect2;
      hide WithPointers, PointersBlock;
      hide WithEntry, Zeroed, Held, Full, StoreUnder, Apart, Entry, EntryAt, Store, Foreign, Only, Flat, Seen;
      var bindir2, i := HoldPointers(ino.indirect2, slot, b);
      if bindir2 == None { return None; }
      Indirect2Is(im, ino, b, nblk);
      var ok := StoreUnderHeld(bindir2.value, ino.(indirect2 := i), slot, b, nblk - (NDIRECT + NINDIRECT));
      return if ok then Some(ino.(indirect2 := i)) else None;
    }

    /** `opendisk`: a bitmap of ones, an empty inode table, and the data area next. */
    method OpenDisk(ninodes: nat) returns (ok: bool)
      requires cache.Valid() && cache.disk.Length >= 2 && forall b :: 0 <= b < cache.disk.Length ==>
          Full(cache.View()[b])
      requires Only({})
      modifies this, cache, cache.cache, cache.disk
      ensures ok <==> LayoutOf(cache.disk.Length, ninodes).FirstData() <= cache.disk.Length
      ensures ok ==> Only({})
      ensures ok ==> Valid() && HasMap(cache.View(), BitBlocks(cache.disk.Length))
      ensures ok ==> nextb == LayoutOf(cache.disk.Length, ninodes).FirstData() <= |cache.View()|
      ensures ok ==> forall b :: 0 <= b < |cache.View()| ==> Full(cache.View()[b])
      ensures ok ==> forall i: nat :: i < BitBlocks(cache.disk.Length) * BLKBITSIZE ==> MapBit(cache.View(), i)
      ensures ok ==> forall b :: LayoutOf(cache.disk.Length, ninodes).firstinob <= b < nextb ==>
          cache.View()[b] == Zeroed()
    {
      hide Seen, Flat, Zeroed, Ones, Full, MapBit, Only;
      var nbitblock := BitBlocks(cache.disk.Length);
      ok := FillBitmap(nbitblock);
      if !ok { return; }
      var ninodeblock := (ninodes + BLKINODES - 1) / BLKINODES;
      ok := ClearInodes(FREEMAP_BLK + nbitblock, ninodeblock);
      if !ok { return; }
      nextb := FREEMAP_BLK + nbitblock + ninodeblock;
      AllBitsSet(cache.View(), nbitblock);
    }

    method FillBitmap(nbitblock: nat) returns (ok: bool)
      requires cache.Valid() && nbitblock > 0 && forall b :: 0 <= b < cache.disk.Length ==> Full(cache.View()[b])
      requires Only({})
      modifies cache, cache.cache, cache.disk
      ensures (ok <==> FREEMAP_BLK + nbitblock <= cache.disk.Length) && (ok ==> Only({}))
      ensures ok ==> cache.Valid() && FREEMAP_BLK + nbitblock <= cache.disk.Length
      ensures ok ==> forall b :: 0 <= b < |cache.View()| ==> Full(cache.View()[b])
      ensures ok ==> forall b :: FREEMAP_BLK <= b < FREEMAP_BLK + nbitblock ==> cache.View()[b] == Ones()
    {
      hide Held, Seen, Flat, Zeroed, Ones, Full, Only;
      OnesFull();
      var i := 0;
      while i < nbitblock
        invariant Only({})
        invariant i <= nbitblock && cache.Valid() && (i > 0 ==> FREEMAP_BLK + i <= cache.disk.Length)
        invariant forall b :: 0 <= b < |cache.View()| ==> Full(cache.View()[b])
        invariant forall b :: FREEMAP_BLK <= b < FREEMAP_BLK + i ==> cache.View()[b] == Ones()
      {
        ghost var held := {} + {FREEMAP_BLK + i};
        var slot := Hold(FREEMAP_BLK + i, false, Bits, {});
        if slot == None { return false; }
        Fill(slot.value, FREEMAP_BLK + i, Ones(), held);
        Put(slot.value, FREEMAP_BLK + i, held);
        assert held - {FREEMAP_BLK + i} == {};
        i := i + 1;
      }
      return true;
    }

    method ClearInodes(first: nat, ninodeblock: nat) returns (ok: bool)
      requires cache.Valid() && 0 < first <= cache.disk.Length && forall b :: 0 <= b < cache.disk.Length ==>
          Full(cache.View()[b])
      requires Only({})
      modifies cache, cache.cache, cache.disk
      ensures (ok <==> first + ninodeblock <= cache.disk.Length) && (ok ==> Only({}))
      ensures ok ==> cache.Valid() && first + ninodeblock <= cache.disk.Length
      ensures ok ==> forall b :: 0 <= b < |cache.View()| ==> Full(cache.View()[b])
      ensures ok ==> forall b :: 0 <= b < |cache.View()| ==>
        cache.View()[b] == if first <= b < first + ninodeblock then Zeroed() else old(cache.View())[b]
    {
      hide Held, Seen, Flat, Zeroed, Full, Only;
      ZeroEntry(0);
      var i := 0;
      while i < ninodeblock
        invariant Only({})
        invariant i <= ninodeblock && cache.Valid() && first + i <= cache.disk.Length
        invariant forall b :: 0 <= b < |cache.View()| ==> Full(cache.View()[b])
        invariant forall b :: 0 <= b < |cache.View()| ==>
          cache.View()[b] == if first <= b < first + i then Zeroed() else old(cache.View())[b]
      {
        ghost var before := cache.View();
        ghost var held := {} + {first + i};
        var slot := Hold(first + i, true, Inodes, {});
        if slot == None { return false; }
        Put(slot.value, first + i, held);
        assert cache.View() == before[first + i := Zeroed()];
        assert held - {first + i} == {};
        i := i + 1;
      }
      return true;
    }

    /** `finishfs`: the free bits are then exactly the blocks never taken, also in
        the last block of a bitmap that the disk does not fill. */
    method FinishFs(super: Contents) returns (ok: bool)
      requires Valid() && nextb <= cache.disk.Length && HasMap(cache.View(), BitBlocks(cache.disk.Length))
      requires forall i: nat :: i < BitBlocks(cache.disk.Length) * BLKBITSIZE ==> MapBit(cache.View(), i)
      requires Only({}) && 2 <= cache.disk.Length
      modifies cache, cache.cache, cache.disk
      ensures ok
      ensures ok ==> cache.Valid() && HasMap(cache.View(), BitBlocks(cache.disk.Length))
      ensures ok ==> forall i: nat :: i < BitBlocks(cache.disk.Length) * BLKBITSIZE ==>
        (MapBit(cache.View(), i) <==> nextb <= i < cache.disk.Length)
      ensures ok ==> cache.View()[1] == super
      ensures ok ==> forall b :: 0 <= b < |cache.View()| && OffMap(b, BitBlocks(cache.disk.Length)) ==>
        cache.View()[b] == old(cache.View())[b]
    {
      hide Held, Seen, Flat, MapBit, WithoutBit, Full, Only;
      var nbitblock := BitBlocks(cache.disk.Length);
      var i := 0;
      while i < nextb
        invariant Only({})
        invariant i <= nextb && cache.Valid() && HasMap(cache.View(), nbitblock)
        invariant forall j: nat :: j < nbitblock * BLKBITSIZE ==> (MapBit(cache.View(), j) <==> i <= j)
        invariant forall b :: 0 <= b < |cache.View()| && OffMap(b, nbitblock) ==>
            cache.View()[b] == old(cache.View())[b]
      {
        ok := ClearBit(i, nbitblock);
        if !ok { return; }
        i := i + 1;
      }
      if cache.disk.Length != nbitblock * BLKBITSIZE {
        ok := ClearRest(nbitblock);
        if !ok { return; }
      }
      ok := WriteSuper(super, nbitblock);
    }

    /** The bits of the last bitmap block that stand for no block. */
    method ClearRest(nbitblock: nat) returns (ok: bool)
      requires cache.Valid() && HasMap(cache.View(), nbitblock) && nbitblock == BitBlocks(cache.disk.Length)
      requires cache.disk.Length != nbitblock * BLKBITSIZE && Only({}) && 2 <= cache.disk.Length
      modifies cache, cache.cache, cache.disk
      ensures ok && Only({})
      ensures ok ==> cache.Valid() && HasMap(cache.View(), nbitblock)
      ensures ok ==> forall j: nat :: j < nbitblock * BLKBITSIZE ==>
        (MapBit(cache.View(), j) <==> j < cache.disk.Length && old(MapBit(cache.View(), j)))
      ensures ok ==> forall b :: 0 <= b < |cache.View()| && OffMap(b, nbitblock) ==>
          cache.View()[b] == old(cache.View())[b]
    {
      hide Held, Seen, Flat, MapBit, WithoutBit, Full, Only;
      var nblocks := cache.disk.Length;
      var last := FREEMAP_BLK + nbitblock - 1;
      ghost var held := {} + {last};
      var slot := Hold(last, false, Bits, {});
      if slot == None { return false; }
      var i := nblocks % BLKBITSIZE;
      ghost var base := (nbitblock - 1) * BLKBITSIZE;
      assert base + i == nblocks;
      while i < BLKBITSIZE
        invariant nblocks <= base + i <= nbitblock * BLKBITSIZE && cache.Valid() && HasMap(cache.View(), nbitblock)
        invariant Held(slot.value, last) && Only(held)
        invariant forall j: nat :: j < nbitblock * BLKBITSIZE ==>
          (MapBit(cache.View(), j) <==> !(nblocks <= j < base + i) && old(MapBit(cache.View(), j)))
        invariant forall b :: 0 <= b < |cache.View()| && OffMap(b, nbitblock) ==>
            cache.View()[b] == old(cache.View())[b]
      {
        ClearHeld(slot.value, last, i, base + i, nbitblock, held);
        i := i + 1;
      }
      Put(slot.value, last, held);
      assert held - {last} == {};
      return true;
    }

    method WriteSuper(super: Contents, ghost nbitblock: nat) returns (ok: bool)
      requires cache.Valid() && HasMap(cache.View(), nbitblock) && Only({}) && 2 <= cache.disk.Length
      modifies cache, cache.cache, cache.disk
      ensures ok
      ensures ok ==> cache.Valid() && HasMap(cache.View(), nbitblock) && cache.View()[1] == super
      ensures ok ==> forall j: nat :: j < nbitblock * BLKBITSIZE ==>
          (MapBit(cache.View(), j) <==> old(MapBit(cache.View(), j)))
      ensures ok ==> forall b :: 0 <= b < |cache.View()| && OffMap(b, nbitblock) ==>
          cache.View()[b] == old(cache.View())[b]
    {
      hide Held, Seen, Flat, MapBit, Full, Only;
      ghost var before, held := cache.View(), {} + {1};
      var slot := Hold(1, true, Super, {});
      if slot == None { return false; }
      Fill(slot.value, 1, super, held);
      Put(slot.value, 1, held);
      assert cache.View() == before[1 := super];
      SuperApart(before, nbitblock, super);
      return true;
    }

    /** `&= ~(1 << ...)` in the held block of the bitmap that has bit `i`. */
    method ClearHeld(slot: nat, blk: nat, bit: nat, ghost i: nat, ghost nbitblock: nat, ghost held: set<nat>)
      requires Only(held)
      requires cache.Valid() && HasMap(cache.View(), nbitblock) && i < nbitblock * BLKBITSIZE
      requires blk == FREEMAP_BLK + i / BLKBITSIZE && bit == i % BLKBITSIZE && Held(slot, blk)
      modifies cache.cache
      ensures cache.Valid() && HasMap(cache.View(), nbitblock) && Held(slot, blk) && Only(held)
      ensures forall j: nat :: j < nbitblock * BLKBITSIZE ==>
          (MapBit(cache.View(), j) <==> j != i && old(MapBit(cache.View(), j)))
      ensures forall b :: 0 <= b < |cache.View()| && OffMap(b, nbitblock) ==> cache.View()[b] == old(cache.View())[b]
    {
      ghost var d := cache.View();
      hide Seen, Flat, MapBit, WithoutBit, Full, Sound;
      assert cache.cache[slot].data == d[blk];
      hide Held, Only;
      forall j: nat | j < nbitblock * BLKBITSIZE
        ensures HasMap(d[blk := WithoutBit(d[blk], i % BLKBITSIZE)], nbitblock)
        ensures MapBit(d[blk := WithoutBit(d[blk], i % BLKBITSIZE)], j) <==> j != i && MapBit(d, j)
      {
        MapBitCleared(d, nbitblock, i, j);
      }
      MapBitCleared(d, nbitblock, i, i);
      Fill(slot, blk, WithoutBit(cache.cache[slot].data, bit), held);
    }

    method ClearBit(i: nat, nbitblock: nat) returns (ok: bool)
      requires cache.Valid() && HasMap(cache.View(), nbitblock) && i < nbitblock * BLKBITSIZE && Only({})
      modifies cache, cache.cache, cache.disk
      ensures ok && Only({})
      ensures ok ==> cache.Valid() && HasMap(cache.View(), nbitblock)
      ensures ok ==> forall j: nat :: j < nbitblock * BLKBITSIZE ==>
          (MapBit(cache.View(), j) <==> j != i && old(MapBit(cache.View(), j)))
      ensures ok ==> forall b :: 0 <= b < |cache.View()| && OffMap(b, nbitblock) ==>
          cache.View()[b] == old(cache.View())[b]
    {
      hide Held, Seen, Flat, MapBit, WithoutBit, Full, Only;
      var blk := FREEMAP_BLK + i / BLKBITSIZE;
      ghost var held := {} + {blk};
      var slot := Hold(blk, false, Bits, {});
      if slot == None { return false; }
      ClearHeld(slot.value, blk, i % BLKBITSIZE, i, nbitblock, held);
      Put(slot.value, blk, held);
      assert held - {blk} == {};
      return true;
    }

    /** The loop of `writefile` over a host file that comes in blocks, the last one
        partly filled or not. */
    method WriteBlocks(host: seq<Contents>, partial: bool) returns (r: Option<Inode>)
      requires Valid() && nextb <= |cache.View()| < TWO32 && Proper(cache.View(), EmptyInode())
      requires forall i :: 0 <= i < |host| ==> Full(host[i])
      requires Only({})
      modifies this, cache, cache.cache, cache.disk
      ensures r.Some? <==> WriteFrom(old(Img()), EmptyInode(), host, partial, 0).Some?
      ensures r.Some? ==> Only({})
      ensures r.Some? ==> Valid() && WriteFrom(old(Img()), EmptyInode(), host, partial, 0) == Some((Img(), r.value))
    {
      hide WriteFrom, Written, Built, Apart, Held, Foreign, Store, Full, Zeroed, Seen, Flat, OnDisk, Proper, Only;
      ghost var lo, im0 := nextb, Img();
      ghost var bs: seq<nat> := [];
      var ino := EmptyInode();
      var nblk := 0;
      StartWriting(im0, host);
      while true
        invariant Valid() && nblk <= |host| && |bs| == nblk && OnDisk(cache.View(), ino) && Only({})
        invariant Written(Img(), ino, lo, bs, host)
        invariant WriteFrom(im0, EmptyInode(), host, partial, 0) == WriteFrom(Img(), ino, host, partial, nblk)
        decreases |host| - nblk
      {
        ghost var im := Img();
        var b := nextb;
        assert {} + {b} == {b} && {b} - {b} == {};
        var slot := Hold(b, true, FileData, {});
        if slot == None {
          WriteStops(im, ino, host, partial, nblk);
          return None;
        }
        if nblk == |host| {
          Put(slot.value, b, {b});
          WriteEnds(im, ino, host, partial);
          return Some(ino);
        }
        var st := WriteTurn(ino, slot.value, host, partial, nblk, im, lo, bs);
        if st == None { return None; }
        ino := st.value;
        if partial && nblk == |host| - 1 { return Some(ino); }
        bs := bs + [b];
        nblk := nblk + 1;
      }
    }

    /** One turn of the loop, with the next block held and cleared. */
    method WriteTurn(
        ino: Inode, slot: nat, host: seq<Contents>, partial: bool, nblk: nat,
        ghost im: Image, ghost lo: nat, ghost bs: seq<nat>)
      returns (st: Option<Inode>)
      requires Valid() && Held(slot, nextb) && Only({nextb}) && nextb == im.nextb < |im.blocks|
      requires cache.View() == im.blocks[nextb := Zeroed()] && OnDisk(im.blocks, ino)
      requires nblk == |bs| < |host| && Written(im, ino, lo, bs, host) && forall i :: 0 <= i < |host| ==> Full(host[i])
      modifies this, cache, cache.cache, cache.disk
      ensures st.None? ==> WriteFrom(im, ino, host, partial, nblk).None?
      ensures st.Some? ==> Valid() && Only({}) && OnDisk(cache.View(), st.value)
      ensures st.Some? ==> Written(Img(), st.value, lo, bs + [old(nextb)], host)
      ensures st.Some? ==>
        WriteFrom(im, ino, host, partial, nblk)
        == if partial && nblk == |host| - 1 then Some((Img(), st.value))
           else WriteFrom(Img(), st.value, host, partial, nblk + 1)
    {
      hide WriteFrom, Written, Built, Apart, Held, Foreign, Store, Full, Zeroed, Seen, Flat, OnDisk, Proper, Only;
      ghost var im1 := Image(im.blocks[nextb := host[nblk]], nextb + 1);
      TurnStarts(im, ino, lo, bs, host, im1);
      assert cache.View()[nextb := host[nblk]] == im1.blocks;
      assert im.nextb < TWO32 by { DiskIsSmall(im, ino); }
      st := FileBlock(ino, slot, host[nblk], nblk);
      if st == None {
        WriteStops(im, ino, host, partial, nblk);
      } else {
        StoreInRange(im1, ino, im.nextb, nblk);
        TurnEnds(im, ino, lo, bs, host, partial, im1, Img(), st.value);
      }
    }

    /** The block just read goes into the image and into the inode. */
    method FileBlock(ino: Inode, slot: nat, data: Contents, nblk: nat) returns (r: Option<Inode>)
      requires Valid() && Held(slot, nextb) && nextb < TWO32 && Only({nextb})
      requires var d := cache.View()[nextb := data];
        OnDisk(d, ino) && Apart(d, ino, nextb + 1) && Foreign(d, ino, nextb + 1, nextb)
      modifies this, cache, cache.cache, cache.disk
      ensures r.Some? <==>
        Store(Image(old(cache.View())[old(nextb) := data], old(nextb) + 1), ino, old(nextb), nblk).Some?
      ensures r.Some? ==> Valid() && Only({})
      ensures r.Some? ==>
        Store(Image(old(cache.View())[old(nextb) := data], old(nextb) + 1), ino, old(nextb), nblk)
          == Some((Img(), r.value))
    {
      hide OnDisk, Apart, Foreign, Held, Store, Full, Seen, Flat, Only;
      var b := nextb;
      Fill(slot, b, data, {b});
      nextb := nextb + 1;
      r := StoreBlk(ino, slot, b, nblk);
      if r.Some? {
        Put(slot, b, {b});
        assert {b} - {b} == {};
      }
    }

    method Fill(slot: nat, bno: nat, data: Contents, ghost held: set<nat>)
      requires cache.Valid() && Held(slot, bno) && Only(held)
      modifies cache.cache
      ensures Only(held)
      ensures cache.Valid() && cache.View() == old(cache.View())[bno := data] && Held(slot, bno)
    {
      hide Seen, Flat, Sound;
      assert slot < NSLOTS by { SlotCount(cache.cache[..], cache.disk.Length, cache.t); }
      cache.Store(slot, data);
    }

    /** A new indirect block, entered in the held doubly indirect one. */
    method MakeIndirect(bindir2: nat, i2: nat, slot: nat, b: nat, j: nat) returns (r: Option<nat>)
      requires Valid() && Held(bindir2, i2) && Held(slot, b) && b != i2 && nextb != i2 && nextb != b
      requires i2 < |cache.View()| && j < BLKWORDS && nextb < TWO32 && Full(cache.View()[i2])
      requires Only({b, i2})
      modifies this, cache, cache.cache, cache.disk
      ensures nextb == old(nextb) + 1 && (r.Some? <==> old(nextb) < cache.disk.Length)
      ensures r.Some? ==> Only({b, i2, old(nextb)})
      ensures r.Some? ==> Valid() && old(nextb) < |cache.View()| && Full(Zeroed())
      ensures r.Some? ==> Held(r.value, old(nextb)) && Held(bindir2, i2) && Held(slot, b)
      ensures r.Some? ==>
        var d := old(cache.View())[old(nextb) := Zeroed()];
        cache.View() == d[i2 := WithEntry(d[i2], j, old(nextb))]
    {
      hide WithEntry, Zeroed, Held, Full, Flat, Seen, Only;
      var i := nextb;
      r := Hold(i, true, Bits, {b, i2});
      nextb := nextb + 1;
      ZeroEntry(0);
      if r.Some? {
        assert cache.View()[i2] == old(cache.View())[i2];
        assert {b, i2} + {i} == {b, i2, i};
        SetEntry(bindir2, i2, j, i, {b, i2, i});
      }
    }

    /** The rest of `storeblk` with the doubly indirect block in a held slot. */
    method StoreUnderHeld(bindir2: nat, ino: Inode, slot: nat, b: nat, n: nat) returns (ok: bool)
      requires Valid() && OnDisk(cache.View(), ino) && Apart(cache.View(), ino, nextb) && b < TWO32
      requires Held(slot, b) && Foreign(cache.View(), ino, nextb, b)
      requires n < NINDIRECT * NINDIRECT && ino.indirect2 > 0 && Held(bindir2, ino.indirect2)
      requires Only({b, ino.indirect2})
      modifies this, cache, cache.cache, cache.disk
      ensures ok <==> StoreUnder(old(Img()), ino, b, n).Some?
      ensures ok ==> Valid() && StoreUnder(old(Img()), ino, b, n) == Some((Img(), ino))
      ensures ok ==> Held(slot, b) && Only({b})
    {
      ghost var im := Img();
      UnderFacts(im, ino, b, n / NINDIRECT);
      UnderNone(im, ino, b, n);
      hide WithEntry, Zeroed, Full, Apart, EntryAt, StoreUnder, Foreign, Flat, Seen, OnDisk, Only;
      var u := Entry(cache.cache[bindir2].data, n / NINDIRECT);
      assert u == Entry(im.blocks[ino.indirect2], n / NINDIRECT);
      hide Held, Entry;
      if u == 0 {
        ok := UnderNew(bindir2, ino.indirect2, slot, b, n / NINDIRECT, n % NINDIRECT);
        if ok { UnderNewIs(im, ino, b, n); }
      } else {
        var bindir := Hold(u, false, Bits, {b, ino.indirect2});
        if bindir == None { return false; }
        assert {b, ino.indirect2} + {u} == {b, ino.indirect2, u};
        FinishUnder(bindir.value, u, bindir2, ino.indirect2, slot, b, n % NINDIRECT);
        UnderOldIs(im, ino, b, n, u);
        ok := true;
      }
    }

    method UnderNew(bindir2: nat, i2: nat, slot: nat, b: nat, j: nat, k: nat) returns (ok: bool)
      requires Valid() && Held(bindir2, i2) && Held(slot, b) && b != i2 && nextb != i2 && nextb != b
      requires i2 < |cache.View()| < TWO32 && j < BLKWORDS && k < BLKWORDS
      requires b < TWO32 && nextb < TWO32 && Full(cache.View()[i2]) && Only({b, i2})
      modifies this, cache, cache.cache, cache.disk
      ensures ok <==> old(nextb) < cache.disk.Length
      ensures ok ==> Valid() && Held(slot, b) && old(nextb) < |cache.View()| && Only({b})
      ensures ok ==> Img() == Under(old(Img()), i2, j, k, b)
    {
      hide WithEntry, Zeroed, Full, Flat, Seen, Held, Only;
      ghost var im := Img();
      var i := nextb;
      var bindir := MakeIndirect(bindir2, i2, slot, b, j);
      if bindir == None { return false; }
      FullAfter(im, i2, j);
      FinishUnder(bindir.value, i, bindir2, i2, slot, b, k);
      return true;
    }

    /** The last store, and both blocks put back. */
    method FinishUnder(bindir: nat, i: nat, bindir2: nat, i2: nat, slot: nat, b: nat, k: nat)
      requires Valid() && Held(bindir, i) && Held(bindir2, i2) && Held(slot, b) && b != i2 && i != i2 && i != b
      requires k < BLKWORDS && b < TWO32 && Full(cache.View()[i]) && Only({b, i2, i})
      modifies cache.cache
      ensures Valid() && Held(slot, b) && Only({b})
      ensures cache.View() == old(cache.View())[i := WithEntry(old(cache.View())[i], k, b)]
    {
      hide WithEntry, Zeroed, Held, Full, Flat, Seen, Only;
      SetEntry(bindir, i, k, b, {b, i2, i});
      Put(bindir, i, {b, i2, i});
      assert {b, i2, i} - {i} == {b, i2};
      Put(bindir2, i2, {b, i2});
      assert {b, i2} - {i2} == {b};
    }
  }

  lemma UnderFacts(im: Image, ino: Inode, b: nat, j: nat)
    requires OnDisk(im.blocks, ino) && Apart(im.blocks, ino, im.nextb) && ino.indirect2 > 0 && j < NINDIRECT
    requires Foreign(im.blocks, ino, im.nextb, b)
    ensures im.nextb <= |im.blocks| < TWO32 && ino.indirect2 < im.nextb && Full(im.blocks[ino.indirect2])
    ensures var u := Entry(im.blocks[ino.indirect2], j);
      u < im.nextb && u != ino.indirect2 && b != ino.indirect2 && b != u && b < im.nextb && Full(im.blocks[u])
  {
    assert Entry(im.blocks[ino.indirect2], j) == EntryAt(im.blocks, ino.indirect2, j);
  }

  lemma FullAfter(im: Image, i2: nat, j: nat)
    requires i2 < |im.blocks| && im.nextb < |im.blocks| < TWO32 && i2 != im.nextb && Full(im.blocks[i2]) && j < BLKWORDS
    ensures Full(Zeroed())
    ensures var d := im.blocks[im.nextb := Zeroed()];
      Full(d[i2]) && Full(d[i2 := WithEntry(d[i2], j, im.nextb)][im.nextb])
  {
    ZeroEntry(0);
  }

  /** A block in use that holds no pointers of this inode. */
  ghost predicate Foreign(d: Disk, ino: Inode, nextb: nat, c: nat)
    requires Proper(d, ino)
  {
    c < nextb && c != ino.indirect && c != ino.indirect2 && forall j: nat :: j < NINDIRECT ==>
      c != EntryAt(d, ino.indirect2, j)
  }

  lemma ForeignStill(im: Image, ino: Inode, c: nat)
    requires Proper(im.blocks, ino) && ino.indirect2 == 0 && Fresh(im).Some?
    requires Proper(Fresh(im).value.blocks, ino.(indirect2 := im.nextb))
    requires Foreign(im.blocks, ino, im.nextb, c)
    ensures c != im.nextb && Foreign(Fresh(im).value.blocks, ino.(indirect2 := im.nextb), im.nextb + 1, c)
  {
    var f := Fresh(im).value;
    forall j: nat | j < NINDIRECT ensures EntryAt(f.blocks, im.nextb, j) == 0 {
      FreshIs(im, im.nextb, j);
    }
  }

  lemma StartWriting(im: Image, host: seq<Contents>)
    requires Proper(im.blocks, EmptyInode()) && 0 < im.nextb <= |im.blocks| < TWO32
    ensures OnDisk(im.blocks, EmptyInode()) && Written(im, EmptyInode(), im.nextb, [], host)
  {
    NothingBuilt(im, im.nextb);
  }

  lemma WriteEnds(im: Image, ino: Inode, host: seq<Contents>, partial: bool)
    requires OnDisk(im.blocks, ino) && im.nextb < |im.blocks| && forall i :: 0 <= i < |host| ==> Full(host[i])
    ensures WriteFrom(im, ino, host, partial, |host|) == Some((im.(blocks := im.blocks[im.nextb := Zeroed()]), ino))
  {
  }

  lemma WriteStops(im: Image, ino: Inode, host: seq<Contents>, partial: bool, k: nat)
    requires OnDisk(im.blocks, ino) && k <= |host| && forall i :: 0 <= i < |host| ==> Full(host[i])
    requires im.nextb < |im.blocks| && k < |host| ==>
      OnDisk(im.blocks[im.nextb := host[k]], ino)
      && Store(Image(im.blocks[im.nextb := host[k]], im.nextb + 1), ino, im.nextb, k).None?
    requires k == |host| ==> im.nextb >= |im.blocks|
    ensures WriteFrom(im, ino, host, partial, k).None?
  {
  }

  /** Without a block for the indirect block nothing is stored. */
  lemma IndirectNone(im: Image, ino: Inode, b: nat, n: nat)
    requires OnDisk(im.blocks, ino) && b < TWO32 && NDIRECT <= n < NDIRECT + NINDIRECT
    ensures Store(im, ino, b, n).None? <==> ino.indirect == 0 && im.nextb >= |im.blocks|
  {
  }

  lemma Indirect2None(im: Image, ino: Inode, b: nat, n: nat)
    requires OnDisk(im.blocks, ino) && b < TWO32 && NDIRECT + NINDIRECT <= n < MAXFILEBLKS
    ensures ino.indirect2 == 0 && im.nextb >= |im.blocks| ==> Store(im, ino, b, n).None?
  {
  }

  lemma UnderNone(im: Image, ino: Inode, b: nat, n: nat)
    requires OnDisk(im.blocks, ino) && b < TWO32 && n < NINDIRECT * NINDIRECT && ino.indirect2 > 0
    requires Entry(im.blocks[ino.indirect2], n / NINDIRECT) < |im.blocks|
    ensures StoreUnder(im, ino, b, n).None?
       <==> Entry(im.blocks[ino.indirect2], n / NINDIRECT) == 0 && im.nextb >= |im.blocks|
  {
  }

  lemma DiskIsSmall(im: Image, ino: Inode)
    requires OnDisk(im.blocks, ino)
    ensures |im.blocks| < TWO32
  {
  }

  lemma TurnStarts(im: Image, ino: Inode, lo: nat, bs: seq<nat>, host: seq<Contents>, im1: Image)
    requires OnDisk(im.blocks, ino) && Written(im, ino, lo, bs, host) && |bs| < |host| && im.nextb < |im.blocks|
    requires Full(host[|bs|]) && im1 == Image(im.blocks[im.nextb := host[|bs|]], im.nextb + 1)
    ensures OnDisk(im1.blocks, ino) && Apart(im1.blocks, ino, im1.nextb)
    ensures Foreign(im1.blocks, ino, im1.nextb, im.nextb)
  {
    UnusedData(im, ino, lo, bs, host[|bs|]);
    BuiltApart(im1, ino, lo, bs);
    BuiltLast(im1, ino, lo, bs, im.nextb);
  }

  lemma TurnEnds(
    im: Image, ino: Inode, lo: nat, bs: seq<nat>, host: seq<Contents>,
    partial: bool, im1: Image, im': Image, ino': Inode)
    requires OnDisk(im.blocks, ino) && Written(im, ino, lo, bs, host) && |bs| < |host| && im.nextb < |im.blocks|
    requires |bs| < MAXFILEBLKS && forall i :: 0 <= i < |host| ==> Full(host[i])
    requires im1 == Image(im.blocks[im.nextb := host[|bs|]], im.nextb + 1) && OnDisk(im1.blocks, ino)
    requires Store(im1, ino, im.nextb, |bs|) == Some((im', ino'))
    ensures OnDisk(im'.blocks, ino') && Written(im', ino', lo, bs + [im.nextb], host)
    ensures WriteFrom(im, ino, host, partial, |bs|) ==
      if partial && |bs| == |host| - 1 then Some((im', ino')) else WriteFrom(im', ino', host, partial, |bs| + 1)
  {
    hide Store, Written;
    WriteStep(im, ino, lo, bs, host, im1, im', ino');
  }

  function BitBlocks(nblocks: nat): nat { (nblocks + BLKBITSIZE - 1) / BLKBITSIZE }

  function LayoutOf(nblocks: nat, ninodes: nat): Layout { Layout(nblocks, ninodes, FREEMAP_BLK + BitBlocks(nblocks)) }

  function Ones(): Contents { Contents(seq(BLKWORDS, i => 0xffff_ffff)) }

  lemma OnesFull()
    ensures Full(Ones())
  {
  }

  lemma OnesBit(k: nat)
    requires k < 32
    ensures Bit(0xffff_ffff, k)
  {
    assert Pow2(8) == 0x100;
    PowSum(8, 8);
    PowSum(16, 16);
    var (p, h) := (Pow2(k), Pow2(31 - k));
    assert 0x1_0000_0000 == p * (2 * h) by {
      PowSum(k, 32 - k);
      assert k + (32 - k) == 32 && Pow2(32 - k) == 2 * h;
    }
    AllBelow(p, h);
  }

  lemma AllBelow(p: nat, h: nat)
    requires p > 0 && h > 0
    ensures (p * (2 * h) - 1) / p % 2 == 1
  {
    assert p * (2 * h) - 1 == p * (2 * h - 1) + (p - 1);
    Quotient(p * (2 * h) - 1, p, 2 * h - 1, p - 1);
  }

  lemma AllBitsSet(d: Disk, nbitblock: nat)
    requires FREEMAP_BLK + nbitblock <= |d| && forall b :: FREEMAP_BLK <= b < FREEMAP_BLK + nbitblock ==> d[b] == Ones()
    ensures HasMap(d, nbitblock) && forall i: nat :: i < nbitblock * BLKBITSIZE ==> MapBit(d, i)
  {
    OnesFull();
    forall i: nat | i < nbitblock * BLKBITSIZE ensures MapBit(d, i) {
      OnesBit(i % 32);
    }
  }

  lemma SuperApart(d: Disk, nbitblock: nat, super: Contents)
    requires HasMap(d, nbitblock) && |d| > 1
    ensures HasMap(d[1 := super], nbitblock)
    ensures forall i: nat :: i < nbitblock * BLKBITSIZE ==> (MapBit(d[1 := super], i) <==> MapBit(d, i))
  {
  }

  lemma SlotCount(slots: seq<Buffer>, nblocks: nat, t: nat)
    requires Sound(slots, nblocks, t)
    ensures |slots| == NSLOTS
  {
  }

  lemma FreshIsImage(im: Image)
    requires im.nextb < |im.blocks|
    ensures Fresh(im) == Some(Image(im.blocks[im.nextb := Zeroed()], im.nextb + 1))
  {
  }

  /** The image when the pointer block `blk`, or a new one for 0, is at hand. */
  function WithPointers(im: Image, blk: nat): Image
    requires blk == 0 ==> im.nextb < |im.blocks|
  {
    if blk == 0 then Image(im.blocks[im.nextb := Zeroed()], im.nextb + 1) else im
  }

  function PointersBlock(im: Image, blk: nat): nat { if blk == 0 then im.nextb else blk }

  /** `Store` in the two tiers with an indirect block, from the blocks it touches. */
  lemma IndirectIs(im: Image, ino: Inode, b: nat, n: nat)
    requires OnDisk(im.blocks, ino) && b < TWO32 && NDIRECT <= n < NDIRECT + NINDIRECT
    requires ino.indirect == 0 ==> im.nextb < |im.blocks|
    ensures Full(Zeroed())
    ensures var (w, i) := (WithPointers(im, ino.indirect), PointersBlock(im, ino.indirect));
      && i < |w.blocks| && Full(w.blocks[i])
      && Store(im, ino, b, n) == Some((
           Image(w.blocks[i := WithEntry(w.blocks[i], n - NDIRECT, b)], w.nextb), ino.(indirect := i)))
  {
    ZeroEntry(0);
  }

  lemma Indirect2Is(im: Image, ino: Inode, b: nat, n: nat)
    requires OnDisk(im.blocks, ino) && Apart(im.blocks, ino, im.nextb) && b < TWO32
    requires NDIRECT + NINDIRECT <= n < MAXFILEBLKS && Foreign(im.blocks, ino, im.nextb, b)
    requires (ino.indirect2 == 0 ==> im.nextb < |im.blocks|) && im.nextb > 0
    ensures var (w, ino') := (WithPointers(im, ino.indirect2), ino.(indirect2 := PointersBlock(im, ino.indirect2)));
      && OnDisk(w.blocks, ino') && Apart(w.blocks, ino', w.nextb) && Foreign(w.blocks, ino', w.nextb, b)
      && Store(im, ino, b, n) == StoreUnder(w, ino', b, n - NDIRECT - NINDIRECT)
  {
    if ino.indirect2 == 0 {
      Indirect2Made(im, ino, Ind);
      ForeignStill(im, ino, b);
    }
    hide StoreUnder;
  }

  /** A new indirect block, entered in the doubly indirect one, with one entry. */
  ghost function Under(im: Image, i2: nat, j: nat, k: nat, b: nat): Image
    requires i2 < |im.blocks| < TWO32 && j < BLKWORDS && k < BLKWORDS && b < TWO32
    requires im.nextb < |im.blocks| && i2 != im.nextb && Full(im.blocks[i2])
  {
    FullAfter(im, i2, j);
    var d := im.blocks[im.nextb := Zeroed()];
    var e := d[i2 := WithEntry(d[i2], j, im.nextb)];
    Image(e[im.nextb := WithEntry(e[im.nextb], k, b)], im.nextb + 1)
  }

  lemma UnderNewIs(im: Image, ino: Inode, b: nat, n: nat)
    requires OnDisk(im.blocks, ino) && b < TWO32 && n < NINDIRECT * NINDIRECT && 0 < ino.indirect2 != im.nextb
    requires Entry(im.blocks[ino.indirect2], n / NINDIRECT) == 0 && im.nextb < |im.blocks|
    ensures StoreUnder(im, ino, b, n) == Some((Under(im, ino.indirect2, n / NINDIRECT, n % NINDIRECT, b), ino))
  {
  }

  lemma UnderOldIs(im: Image, ino: Inode, b: nat, n: nat, u: nat)
    requires OnDisk(im.blocks, ino) && b < TWO32 && n < NINDIRECT * NINDIRECT && ino.indirect2 > 0
    requires u == Entry(im.blocks[ino.indirect2], n / NINDIRECT) && 0 < u < |im.blocks|
    ensures StoreUnder(im, ino, b, n)
        == Some((Image(im.blocks[u := WithEntry(im.blocks[u], n % NINDIRECT, b)], im.nextb), ino))
  {
  }
}
