/** The block cache of File_System/ospfsformat.c: sixteen slots that are written
    back when they are reused, except while somebody holds them.  Behind it the
    disk looks flat. */
module FormatCache {
  import opened Common

  const NSLOTS: nat := 16
  const BLKWORDS: nat := 256

  /** The union in `struct Block`, as its 32-bit words. */
  datatype Contents = Contents(words: seq<nat>)

  function Zeroed(): Contents { Contents(seq(BLKWORDS, i => 0)) }

  datatype Kind = Super | Dir | FileData | Bits | Inodes

  datatype Buffer = Buffer(bno: nat, kind: Kind, busy: nat, used: nat, data: Contents)

  /** The slot that holds block `b`, or the number of slots. */
  function Holder(slots: seq<Buffer>, b: nat): (i: nat)
    ensures i <= |slots|
    ensures i < |slots| ==> slots[i].bno == b
    ensures forall j :: 0 <= j < i ==> slots[j].bno != b
  {
    if slots == [] then 0
    else if slots[0].bno == b then 0
    else 1 + Holder(slots[1..], b)
  }

  /** What a reader of block `b` gets to see. */
  function Seen(slots: seq<Buffer>, disk: seq<Contents>, b: nat): Contents
    requires b < |disk|
  {
    var i := Holder(slots, b);
    if i < |slots| && slots[i].used > 0 then slots[i].data else disk[b]
  }

  function Flat(slots: seq<Buffer>, disk: seq<Contents>): (r: seq<Contents>)
    ensures |r| == |disk|
    ensures forall b :: 0 <= b < |r| ==> r[b] == Seen(slots, disk, b)
  {
    seq(|disk|, b requires 0 <= b < |disk| => Seen(slots, disk, b))
  }

  /** A slot in use holds a block of the disk other than block 0, which marks the
      slots not yet used; no block sits in two slots. */
  predicate Sound(slots: seq<Buffer>, nblocks: nat, t: nat) {
    && |slots| == NSLOTS
    && (forall i :: 0 <= i < |slots| ==> slots[i].used <= t)
    && (forall i :: 0 <= i < |slots| && slots[i].used == 0 ==> slots[i].bno == 0 && slots[i].busy == 0)
    && (forall i :: 0 <= i < |slots| && slots[i].used > 0 ==> 0 < slots[i].bno < nblocks)
    && (forall i, j :: 0 <= i < j < |slots| && slots[i].used > 0 && slots[j].used > 0 ==> slots[i].bno != slots[j].bno)
  }

  lemma HolderIs(slots: seq<Buffer>, nblocks: nat, t: nat, i: nat)
    requires Sound(slots, nblocks, t) && i < |slots| && slots[i].used > 0
    ensures Holder(slots, slots[i].bno) == i
  {
    assert Holder(slots, slots[i].bno) <= i;
  }

  /** New contents in a slot change that block for readers, and no other. */
  lemma SlotWritten(slots: seq<Buffer>, disk: seq<Contents>, t: nat, t': nat, i: nat, s: Buffer, b: nat)
    requires Sound(slots, |disk|, t) && i < |slots| && 0 < b < |disk|
    requires slots[i].used > 0 && s.used > 0 && s.bno == slots[i].bno
    requires Sound(slots[i := s], |disk|, t')
    ensures Seen(slots[i := s], disk, b) == if b == s.bno then s.data else Seen(slots, disk, b)
  {
    HolderIs(slots, |disk|, t, i);
    HolderIs(slots[i := s], |disk|, t', i);
    SameHolder(slots, i, s, b);
  }

  lemma {:induction false} SameHolder(slots: seq<Buffer>, i: nat, s: Buffer, b: nat)
    requires i < |slots| && (s.bno == b <==> slots[i].bno == b)
    ensures Holder(slots[i := s], b) == Holder(slots, b)
    decreases |slots|
  {
    if i > 0 && slots[0].bno != b {
      assert slots[i := s][1..] == slots[1..][i - 1 := s];
      SameHolder(slots[1..], i - 1, s, b);
    } else if i == 0 {
      assert slots[i := s][1..] == slots[1..];
    }
  }

  /** Taking a slot over for a block that had none, after writing it back, loses
      nothing: every block looks as before. */
  lemma SlotReplaced(slots: seq<Buffer>, disk: seq<Contents>, disk': seq<Contents>, t: nat, i: nat, s: Buffer, b: nat)
    requires Sound(slots, |disk|, t) && i < |slots| && 0 < b < |disk| && |disk'| == |disk|
    requires 0 < s.bno < |disk| && Holder(slots, s.bno) == |slots|
    requires disk' == if slots[i].used > 0 then disk[slots[i].bno := slots[i].data] else disk
    requires s.used > 0 && s.data == disk'[s.bno] && Sound(slots[i := s], |disk|, s.used)
    ensures Seen(slots[i := s], disk', b) == Seen(slots, disk, b)
  {
    HolderIs(slots[i := s], |disk|, s.used, i);
    if slots[i].used > 0 { HolderIs(slots, |disk|, t, i); }
    if b != s.bno && b != slots[i].bno {
      SameHolder(slots, i, s, b);
    }
  }

  // ------------------------------------------------------------ the cache

  /** Among the slots that nobody holds, the one used longest ago. */
  predicate LeastUsed(slots: seq<Buffer>, i: nat) {
    i < |slots| && slots[i].busy == 0 && forall j :: 0 <= j < |slots| && slots[j].busy == 0 ==>
      slots[i].used <= slots[j].used
  }

  class BlockCache {
    const cache: array<Buffer>
    const disk: array<Contents>
    var t: nat

    ghost predicate Valid()
      reads this, cache, disk
    {
      Sound(cache[..], disk.Length, t) && t >= 1
    }

    ghost function View(): (v: seq<Contents>)
      reads this, cache, disk
      ensures |v| == disk.Length
    {
      Flat(cache[..], disk[..])
    }

    /** A file just truncated to `nblocks` blocks, and no slot in use. */
    constructor (nblocks: nat)
      ensures Valid() && fresh(cache) && fresh(disk) && disk.Length == nblocks
      ensures forall i :: 0 <= i < NSLOTS ==> cache[i].busy == 0
      ensures forall b :: 0 <= b < nblocks ==> View()[b] == Zeroed()
    {
      cache := new Buffer[NSLOTS](_ => Buffer(0, Super, 0, 0, Zeroed()));
      disk := new Contents[nblocks](_ => Zeroed());
      t := 1;
    }

    method FlushB(i: nat)
      requires i < cache.Length && cache[i].bno < disk.Length
      modifies disk
      ensures disk[..] == old(disk[..])[cache[i].bno := cache[i].data]
    {
      disk[cache[i].bno] := cache[i].data;
    }

    /** The search through the slots: the block's own, else the least used one. */
    method Search(bno: nat) returns (i: nat, least: int)
      requires cache.Length == NSLOTS
      ensures i == Holder(cache[..], bno)
      ensures i == NSLOTS ==>
        if least == -1 then forall j :: 0 <= j < NSLOTS ==> cache[j].busy > 0
        else least >= 0 && LeastUsed(cache[..], least)
    {
      i, least := 0, -1;
      while i < NSLOTS
        invariant i <= NSLOTS && -1 <= least < i
        invariant forall j :: 0 <= j < i ==> cache[j].bno != bno
        invariant least == -1 ==> forall j :: 0 <= j < i ==> cache[j].busy > 0
        invariant least != -1 ==> cache[least].busy == 0
        invariant least != -1 ==> forall j :: 0 <= j < i && cache[j].busy == 0 ==> cache[least].used <= cache[j].used
      {
        if cache[i].bno == bno {
          FirstHolder(cache[..], bno, i);
          return;
        }
        if cache[i].busy == 0 && (least == -1 || cache[i].used < cache[least].used) {
          least := i;
        }
        i := i + 1;
      }
      FirstHolder(cache[..], bno, i);
    }

    /** The first half of `getblk`: find the slot, or write one back and read. */
    method Load(bno: nat, kind: Kind) returns (r: Option<nat>)
      requires Valid() && 0 < bno < disk.Length
      modifies cache, disk
      ensures Loaded(old(cache[..]), old(disk[..]), cache[..], disk[..], bno, kind, r)
    {
      var i, least := Search(bno);
      if i == NSLOTS {
        if least == -1 { return None; }
        i := least;
        if cache[i].used > 0 {
          FlushB(i);
        }
        cache[i] := Buffer(bno, kind, 0, cache[i].used, disk[bno]);
      }
      return Some(i);
    }

    /** The second half of `getblk`: clear on request, hold once more. */
    method Claim(i: nat, clr: bool, kind: Kind) returns (ok: bool)
      requires i < cache.Length
      modifies cache, this`t
      ensures t == old(t) + 1
      ensures Claimed(old(cache[..]), cache[..], i, t, clr, kind, ok)
    {
      if clr {
        cache[i] := cache[i].(data := Zeroed());
      }
      t := t + 1;
      cache[i] := cache[i].(used := t, busy := cache[i].busy + 1);
      ok := cache[i].kind == kind || cache[i].busy == 1;
      cache[i] := cache[i].(kind := kind);
    }

    /** `getblk`; nothing is returned where the source aborts. */
    method GetBlk(bno: nat, clr: bool, kind: Kind) returns (r: Option<nat>)
      requires Valid() && bno > 0
      modifies this, cache, disk
      ensures r.None? <==> Refused(old(cache[..]), disk.Length, bno, kind)
      ensures r.Some? ==> r.value < NSLOTS && bno < disk.Length && Valid()
      ensures r.Some? ==> Pinned(old(cache[..]), cache[..], r.value, bno, kind)
      ensures r.Some? ==> View() == if clr then old(View())[bno := Zeroed()] else old(View())
      ensures r.Some? ==> cache[r.value].data == View()[bno]
    {
      hide Seen, Flat, Sound, Zeroed, Loaded, Claimed, Refused, Pinned;
      if bno >= disk.Length {
        assert Refused(cache[..], disk.Length, bno, kind) by { RefusedPastEnd(cache[..], disk.Length, bno, kind); }
        return None;
      }
      ghost var slots, before, t0 := cache[..], disk[..], t;
      r := Load(bno, kind);
      ghost var slots1, disk1 := cache[..], disk[..];
      if r.Some? {
        LoadedSlot(slots, before, slots1, disk1, t0, bno, kind, r);
        var ok := Claim(r.value, clr, kind);
        GetBlkRight(slots, before, slots1, disk1, cache[..], t0, bno, clr, kind, r, ok);
        if !ok {
          r := None;
        }
      } else {
        GetBlkFull(slots, before, slots1, disk1, t0, bno, kind);
      }
    }

    /** `putblk`. */
    method PutBlk(i: nat)
      requires Valid() && i < NSLOTS && cache[i].busy > 0
      modifies cache
      ensures Valid() && View() == old(View())
      ensures cache[..] == old(cache[..])[i := old(cache[i]).(busy := old(cache[i]).busy - 1)]
    {
      ghost var slots := cache[..];
      cache[i] := cache[i].(busy := cache[i].busy - 1);
      assert cache[..] == slots[i := cache[i]];
      Released(slots, disk[..], t, i, cache[i]);
    }

    /** The holder of a slot stores into it. */
    method Store(i: nat, data: Contents)
      requires Valid() && i < NSLOTS && cache[i].busy > 0
      modifies cache
      ensures Valid() && cache[..] == old(cache[..])[i := old(cache[i]).(data := data)]
      ensures View() == old(View())[cache[i].bno := data]
    {
      ghost var slots := cache[..];
      cache[i] := cache[i].(data := data);
      assert cache[..] == slots[i := cache[i]];
      forall b | 0 < b < disk.Length
        ensures Seen(cache[..], disk[..], b) == if b == cache[i].bno then data else Seen(slots, disk[..], b)
      {
        SlotWritten(slots, disk[..], t, t, i, cache[i], b);
      }
      BlockZero(slots, disk[..], t);
      BlockZero(cache[..], disk[..], t);
    }

    /** `flushdisk`: then the disk is what readers saw. */
    method FlushDisk()
      requires Valid()
      modifies disk
      ensures Valid() && disk[..] == View() == old(View())
    {
      ghost var before := disk[..];
      var i := 0;
      while i < NSLOTS
        invariant i <= NSLOTS && disk.Length == |before|
        invariant forall b :: 0 <= b < disk.Length ==>
          var h := Holder(cache[..], b);
          disk[b] == if h < i && cache[h].used > 0 then Seen(cache[..], before, b) else before[b]
      {
        if cache[i].used > 0 {
          HolderIs(cache[..], disk.Length, t, i);
          FlushB(i);
        }
        i := i + 1;
      }
      forall b | 0 <= b < disk.Length
        ensures disk[b] == Seen(cache[..], before, b) && disk[b] == Seen(cache[..], disk[..], b)
      {
      }
    }
  }

  /** When `getblk` aborts: past the end of the disk, with every slot held, or for
      another kind of block than the holder of the slot has it for. */
  predicate Refused(slots: seq<Buffer>, nblocks: nat, bno: nat, kind: Kind) {
    var i := Holder(slots, bno);
    || bno >= nblocks
    || (i == |slots| && forall j :: 0 <= j < |slots| ==> slots[j].busy > 0)
    || (i < |slots| && slots[i].kind != kind && slots[i].busy > 0)
  }

  /** Only the blocks in `held` are held, each by one holder. */
  ghost predicate OnlyHeld(slots: seq<Buffer>, held: set<nat>) {
    forall j :: 0 <= j < |slots| && slots[j].busy > 0 ==>
      slots[j].busy == 1 && slots[j].used > 0 && slots[j].bno in held
  }

  lemma {:induction false} HeldBlocks(slots: seq<Buffer>, n: nat, held: set<nat>) returns (bnos: set<nat>)
    requires n <= |slots| && forall j :: 0 <= j < n ==> slots[j].bno in held
    requires forall i, j :: 0 <= i < j < n ==> slots[i].bno != slots[j].bno
    ensures |bnos| == n && bnos <= held && forall b :: b in bnos ==> exists j :: 0 <= j < n && slots[j].bno == b
  {
    bnos := {};
    if n > 0 {
      bnos := HeldBlocks(slots, n - 1, held);
      assert slots[n - 1].bno !in bnos;
      bnos := bnos + {slots[n - 1].bno};
    }
  }

  lemma {:induction false} SubsetSize(a: set<nat>, b: set<nat>)
    requires a <= b
    ensures |a| <= |b|
  {
    assert b == a + (b - a);
  }

  /** While fewer blocks are held than there are slots, a block on the disk that
      nobody holds is not refused. */
  lemma SlotLeft(slots: seq<Buffer>, nblocks: nat, t: nat, bno: nat, kind: Kind, held: set<nat>)
    requires Sound(slots, nblocks, t) && OnlyHeld(slots, held) && |held| < NSLOTS
    requires 0 < bno < nblocks && bno !in held
    ensures !Refused(slots, nblocks, bno, kind)
  {
    if forall j :: 0 <= j < |slots| ==> slots[j].busy > 0 {
      var bnos := HeldBlocks(slots, |slots|, held);
      SubsetSize(bnos, held);
    }
  }

  lemma HeldOneMore(slots: seq<Buffer>, slots': seq<Buffer>, i: nat, bno: nat, kind: Kind, held: set<nat>)
    requires |slots'| == |slots| && OnlyHeld(slots, held) && Pinned(slots, slots', i, bno, kind) && bno !in held
    ensures OnlyHeld(slots', held + {bno})
  {
  }

  lemma HeldOneLess(slots: seq<Buffer>, nblocks: nat, t: nat, i: nat, s: Buffer, held: set<nat>)
    requires Sound(slots, nblocks, t) && OnlyHeld(slots, held) && i < |slots| && slots[i].busy > 0
    requires s == slots[i].(busy := slots[i].busy - 1)
    ensures OnlyHeld(slots[i := s], held - {slots[i].bno})
  {
  }

  /** The block's own slot, or else the least recently used that nobody holds, is
      held once more; the other slots stay as they are. */
  ghost predicate Pinned(slots: seq<Buffer>, slots': seq<Buffer>, i: nat, bno: nat, kind: Kind)
    requires |slots| == |slots'|
  {
    var h := Holder(slots, bno);
    && i < |slots| && slots' == slots[i := slots'[i]]
    && slots'[i].bno == bno && slots'[i].kind == kind && slots'[i].used > 0
    && (if h < |slots| then i == h && slots'[i].busy == slots[h].busy + 1
        else LeastUsed(slots, i) && slots'[i].busy == 1)
  }

  ghost predicate Loaded(
    slots: seq<Buffer>, before: seq<Contents>, slots': seq<Buffer>,
    after: seq<Contents>, bno: nat, kind: Kind, r: Option<nat>)
  {
    var h := Holder(slots, bno);
    if h < |slots| then r == Some(h) && slots' == slots && after == before
    else if r.None? then forall j :: 0 <= j < |slots| ==> slots[j].busy > 0
    else
      var i := r.value;
      && LeastUsed(slots, i) && bno < |before|
      && (slots[i].used > 0 ==> slots[i].bno < |before|)
      && after == (if slots[i].used > 0 then before[slots[i].bno := slots[i].data] else before)
      && slots' == slots[i := Buffer(bno, kind, 0, slots[i].used, after[bno])]
  }

  ghost predicate Claimed(slots: seq<Buffer>, slots': seq<Buffer>, i: nat, t: nat, clr: bool, kind: Kind, ok: bool)
    requires i < |slots|
  {
    var s := slots[i];
    && ok == (s.kind == kind || s.busy == 0)
    && slots' == slots[i := Buffer(s.bno, kind, s.busy + 1, t, if clr then Zeroed() else s.data)]
  }

  lemma RefusedPastEnd(slots: seq<Buffer>, nblocks: nat, bno: nat, kind: Kind)
    requires bno >= nblocks
    ensures Refused(slots, nblocks, bno, kind)
  {
  }

  lemma LoadedSlot(
    slots: seq<Buffer>, before: seq<Contents>, slots': seq<Buffer>,
    after: seq<Contents>, t: nat, bno: nat, kind: Kind, r: Option<nat>)
    requires Sound(slots, |before|, t) && Loaded(slots, before, slots', after, bno, kind, r) && r.Some?
    ensures r.value < |slots| == |slots'| == NSLOTS && slots'[r.value].bno == bno && |before| == |after|
  {
  }

  lemma GetBlkFull(
    slots: seq<Buffer>, before: seq<Contents>, slots': seq<Buffer>, after: seq<Contents>, t: nat, bno: nat, kind: Kind)
    requires Sound(slots, |before|, t) && Loaded(slots, before, slots', after, bno, kind, None)
    ensures Refused(slots, |before|, bno, kind)
  {
  }

  lemma GetBlkRight(
    slots: seq<Buffer>, before: seq<Contents>, slots1: seq<Buffer>, after: seq<Contents>, slots2: seq<Buffer>,
    t: nat, bno: nat, clr: bool, kind: Kind, r: Option<nat>, ok: bool)
    requires Sound(slots, |before|, t) && 0 < bno < |before| && |after| == |before|
    requires Loaded(slots, before, slots1, after, bno, kind, r) && r.Some?
    requires r.value < |slots1| && slots1[r.value].bno == bno && Claimed(slots1, slots2, r.value, t + 1, clr, kind, ok)
    ensures ok <==> !Refused(slots, |before|, bno, kind)
    ensures ok ==> Sound(slots2, |before|, t + 1) && |slots| == |slots2| && Pinned(slots, slots2, r.value, bno, kind)
    ensures ok ==> forall b :: 0 <= b < |before| ==>
      Seen(slots2, after, b) == if b == bno && clr then Zeroed() else Seen(slots, before, b)
    ensures ok ==> slots2[r.value].data == Seen(slots2, after, bno)
  {
    var i := r.value;
    InUse(slots, |before|, t, i, bno);
    assert |slots| == NSLOTS;
    hide Sound, Seen, Zeroed;
    assert slots2 == slots[i := slots2[i]];
    if ok {
      GotBlk(slots, before, after, t, i, slots1[i].data, slots2[i], clr);
      BlockZero(slots, before, t);
      BlockZero(slots2, after, t + 1);
      assert after[0] == before[0] by { if slots[i].used > 0 { NotBlockZero(slots, before, t, i); } }
    }
  }

  lemma NotBlockZero(slots: seq<Buffer>, disk: seq<Contents>, t: nat, i: nat)
    requires Sound(slots, |disk|, t) && i < |slots| && slots[i].used > 0
    ensures slots[i].bno > 0
  {
  }

  lemma BlockZero(slots: seq<Buffer>, disk: seq<Contents>, t: nat)
    requires Sound(slots, |disk|, t) && |disk| > 0
    ensures Seen(slots, disk, 0) == disk[0]
  {
  }

  lemma Released(slots: seq<Buffer>, disk: seq<Contents>, t: nat, i: nat, s: Buffer)
    requires Sound(slots, |disk|, t) && i < |slots| && slots[i].busy > 0 && s == slots[i].(busy := s.busy)
    ensures Sound(slots[i := s], |disk|, t) && Flat(slots[i := s], disk) == Flat(slots, disk)
  {
    forall b | 0 <= b < |disk| ensures Seen(slots[i := s], disk, b) == Seen(slots, disk, b) {
      SameHolder(slots, i, s, b);
    }
  }

  lemma GotBlk(
      slots: seq<Buffer>, disk: seq<Contents>, disk': seq<Contents>, t: nat, i: nat, loaded: Contents, s: Buffer,
      clr: bool)
    requires Sound(slots, |disk|, t) && i < |slots| && 0 < s.bno < |disk| && |disk'| == |disk|
    requires s.used == t + 1 && s.busy > 0 && s.data == if clr then Zeroed() else loaded
    requires if Holder(slots, s.bno) < |slots|
      then i == Holder(slots, s.bno) && disk' == disk && loaded == slots[i].data
      else disk' == (if slots[i].used > 0 then disk[slots[i].bno := slots[i].data] else disk) && loaded == disk'[s.bno]
    ensures Sound(slots[i := s], |disk|, t + 1)
    ensures forall b :: 0 < b < |disk| ==>
      Seen(slots[i := s], disk', b) == if b == s.bno && clr then Zeroed() else Seen(slots, disk, b)
    ensures Seen(slots[i := s], disk', s.bno) == s.data
  {
    var s' := s.(data := loaded);
    TakenIsSound(slots, |disk|, t, i, s);
    TakenIsSound(slots, |disk|, t, i, s');
    hide Sound, Seen;
    forall b | 0 < b < |disk|
      ensures Seen(slots[i := s], disk', b) == if b == s.bno && clr then Zeroed() else Seen(slots, disk, b)
    {
      GotBlkAt(slots, disk, disk', t, i, loaded, s, clr, b);
    }
    HolderIs(slots[i := s], |disk|, t + 1, i);
    assert Seen(slots[i := s], disk', s.bno) == s.data by { SeenHere(slots[i := s], disk', s.bno); }
  }

  lemma SeenHere(slots: seq<Buffer>, disk: seq<Contents>, b: nat)
    requires b < |disk| && Holder(slots, b) < |slots| && slots[Holder(slots, b)].used > 0
    ensures Seen(slots, disk, b) == slots[Holder(slots, b)].data
  {
  }

  lemma TakenIsSound(slots: seq<Buffer>, nblocks: nat, t: nat, i: nat, s: Buffer)
    requires Sound(slots, nblocks, t) && i < |slots| && 0 < s.bno < nblocks && s.used == t + 1
    requires Holder(slots, s.bno) == i || Holder(slots, s.bno) == |slots|
    ensures Sound(slots[i := s], nblocks, t + 1)
  {
    assert forall j :: 0 <= j < |slots| && slots[j].bno == s.bno ==> Holder(slots, s.bno) <= j;
  }

  lemma GotBlkAt(
      slots: seq<Buffer>, disk: seq<Contents>, disk': seq<Contents>, t: nat, i: nat, loaded: Contents, s: Buffer,
      clr: bool, b: nat)
    requires Sound(slots, |disk|, t) && i < |slots| && 0 < s.bno < |disk| && |disk'| == |disk| && 0 < b < |disk|
    requires s.used == t + 1 && s.busy > 0 && s.data == if clr then Zeroed() else loaded
    requires if Holder(slots, s.bno) < |slots|
      then i == Holder(slots, s.bno) && disk' == disk && loaded == slots[i].data
      else disk' == (if slots[i].used > 0 then disk[slots[i].bno := slots[i].data] else disk) && loaded == disk'[s.bno]
    requires Sound(slots[i := s], |disk|, t + 1) && Sound(slots[i := s.(data := loaded)], |disk|, t + 1)
    ensures Seen(slots[i := s], disk', b) == if b == s.bno && clr then Zeroed() else Seen(slots, disk, b)
  {
    var s' := s.(data := loaded);
    LoadedAt(slots, disk, disk', t, i, s', b);
    hide Sound, Seen;
    ClearedAt(slots, disk', t, i, s', s, b);
  }

  /** Reading a block into a slot changes nothing for readers. */
  lemma LoadedAt(slots: seq<Buffer>, disk: seq<Contents>, disk': seq<Contents>, t: nat, i: nat, s: Buffer, b: nat)
    requires Sound(slots, |disk|, t) && i < |slots| && 0 < s.bno < |disk|
    requires |disk'| == |disk| && 0 < b < |disk| && s.used > 0
    requires if Holder(slots, s.bno) < |slots|
      then i == Holder(slots, s.bno) && disk' == disk && s.data == slots[i].data
      else disk' == (if slots[i].used > 0 then disk[slots[i].bno := slots[i].data] else disk) && s.data == disk'[s.bno]
    requires Sound(slots[i := s], |disk|, t + 1) && s.used == t + 1
    ensures Seen(slots[i := s], disk', b) == Seen(slots, disk, b)
  {
    hide Sound, Seen;
    if Holder(slots, s.bno) < |slots| {
      HitAt(slots, disk, t, i, s, b);
    } else {
      SlotReplaced(slots, disk, disk', t, i, s, b);
    }
  }

  lemma ClearedAt(slots: seq<Buffer>, disk: seq<Contents>, t: nat, i: nat, s: Buffer, s': Buffer, b: nat)
    requires i < |slots| && 0 < b < |disk| && s.used > 0 && s'.used > 0 && s.bno == s'.bno < |disk|
    requires Sound(slots[i := s], |disk|, t + 1) && Sound(slots[i := s'], |disk|, t + 1)
    ensures Seen(slots[i := s'], disk, b) == if b == s.bno then s'.data else Seen(slots[i := s], disk, b)
    ensures Seen(slots[i := s], disk, s.bno) == s.data
  {
    var mid := slots[i := s];
    assert mid[i := s'] == slots[i := s'];
    SlotWritten(mid, disk, t + 1, t + 1, i, s', b);
    HolderIs(mid, |disk|, t + 1, i);
  }

  /** A block found in its slot is what readers saw. */
  lemma HitAt(slots: seq<Buffer>, disk: seq<Contents>, t: nat, i: nat, s: Buffer, b: nat)
    requires Sound(slots, |disk|, t) && i < |slots| && 0 < s.bno < |disk| && 0 < b < |disk|
    requires i == Holder(slots, s.bno) && s.data == slots[i].data && s.used > 0
    requires Sound(slots[i := s], |disk|, t + 1)
    ensures Seen(slots[i := s], disk, b) == Seen(slots, disk, b)
  {
    InUse(slots, |disk|, t, i, s.bno);
    SlotWritten(slots, disk, t, t + 1, i, s, b);
  }

  lemma InUse(slots: seq<Buffer>, nblocks: nat, t: nat, i: nat, b: nat)
    requires Sound(slots, nblocks, t) && i < |slots| && b > 0
    ensures Holder(slots, b) < |slots| ==> slots[Holder(slots, b)].used > 0
  {
  }

  lemma FirstHolder(slots: seq<Buffer>, b: nat, i: nat)
    requires i <= |slots| && forall j :: 0 <= j < i ==> slots[j].bno != b
    requires i < |slots| ==> slots[i].bno == b
    ensures Holder(slots, b) == i
  {
  }
}
