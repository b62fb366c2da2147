/** The block allocator and the pointer trees of all files, seen as sets and
    maps: what `add_block`, `remove_block` and `change_size` of
    File_System/ospfsmod.c do to them, line for line where the lines differ
    from the comments above them. */
module OspfsVolume {
  import opened OspfsLayout

  datatype FType = Regular | Directory | Symlink

  /** `ptrs` holds the non-zero block numbers that can be reached from the inode. */
  datatype File = File(size: uint32, ftype: FType, nlink: nat, ptrs: map<Slot, nat>)

  datatype Volume = Volume(free: set<nat>, files: seq<File>)

  datatype Status = Ok | NoSpace | IOError

  // ------------------------------------------------------------ invariants

  /** The slot through which `s` is reached. */
  predicate ParentPresent(p: set<Slot>, s: Slot) {
    match s
    case Direct(_) => true
    case Ind => true
    case IndEntry(_) => Ind in p
    case Ind2 => true
    case Und(_) => Ind2 in p
    case UndEntry(j, _) => Und(j) in p
  }

  ghost predicate HasPtr(v: Volume, i: nat, s: Slot) {
    i < |v.files| && s in v.files[i].ptrs
  }

  ghost predicate PtrOk(l: Layout, v: Volume, i: nat, s: Slot)
    requires HasPtr(v, i, s)
  {
    var f := v.files[i];
    && ValidSlot(s) && ParentPresent(f.ptrs.Keys, s)
    && !f.ftype.Symlink?
    && l.InDataArea(f.ptrs[s])
    && f.ptrs[s] !in v.free
  }

  ghost predicate Injective(v: Volume) {
    forall i: nat, s, j: nat, t ::
      HasPtr(v, i, s) && HasPtr(v, j, t) && v.files[i].ptrs[s] == v.files[j].ptrs[t]
      ==> i == j && s == t
  }

  /** No block is reached twice, from one file or from two, in any role; every
      reached block lies in the data area and is marked used; the allocator
      never holds a block that it would refuse to take back. */
  ghost predicate Sound(l: Layout, v: Volume) {
    && l.Valid()
    && |v.files| == l.ninodes
    && (forall b :: b in v.free ==> l.InDataArea(b) && !l.Refused(b))
    && (forall i: nat, s :: HasPtr(v, i, s) ==> PtrOk(l, v, i, s))
    && Injective(v)
  }

  ghost predicate Reached(v: Volume, b: nat) {
    exists i: nat, s :: HasPtr(v, i, s) && v.files[i].ptrs[s] == b
  }

  /** The tree of a file has exactly the shape that its size calls for. */
  ghost predicate Shaped(f: File) {
    && Size2NBlocks(f.size) <= MAXFILEBLKS
    && forall s :: s in f.ptrs <==> Needed(s, Size2NBlocks(f.size))
  }

  /** `Sound`, every tree has the shape its size calls for, and no used data
      block is lost. */
  ghost predicate Tight(l: Layout, v: Volume) {
    && Sound(l, v)
    && (forall i :: 0 <= i < |v.files| && !v.files[i].ftype.Symlink? ==> Shaped(v.files[i]))
    && (forall b :: l.InDataArea(b) ==> b in v.free || Reached(v, b))
  }

  /** File `i` of a sound volume has the shape its size calls for; other files
      may be in any state. */
  ghost predicate GoodFile(l: Layout, v: Volume, i: nat) {
    Sound(l, v) && IsFile(v, i) && Shaped(v.files[i])
  }

  /** A file that may own blocks. */
  predicate IsFile(v: Volume, i: nat) {
    i < |v.files| && !v.files[i].ftype.Symlink?
  }

  function NBlocks(v: Volume, i: nat): nat
    requires i < |v.files|
  {
    Size2NBlocks(v.files[i].size)
  }

  // ------------------------------------------------------------- allocator

  lemma LeastExists(s: set<nat>)
    requires s != {}
    ensures exists b :: b in s && forall c :: c in s ==> b <= c
  {
    var b :| b in s;
    if c :| c in s && c < b {
      LeastBelow(s, c);
    }
  }

  lemma LeastBelow(s: set<nat>, b: nat)
    requires b in s
    ensures exists m :: m in s && forall c :: c in s ==> m <= c
    decreases b
  {
    if c :| c in s && c < b {
      LeastBelow(s, c);
    }
  }

  /** `allocate_block` takes the lowest free block. */
  ghost function Least(s: set<nat>): (b: nat)
    requires s != {}
    ensures b in s && forall c :: c in s ==> b <= c
  {
    LeastExists(s);
    var b :| b in s && forall c :: c in s ==> b <= c;
    b
  }

  /** `free_block`. */
  function Release(l: Layout, free: set<nat>, b: nat): set<nat> {
    if l.Refused(b) then free else free + {b}
  }

  // ------------------------------------------------------------- add_block

  function SetPtr(v: Volume, i: nat, s: Slot, b: nat): Volume
    requires i < |v.files|
  {
    v.(files := v.files[i := v.files[i].(ptrs := v.files[i].ptrs[s := b])])
  }

  function SetSize(v: Volume, i: nat, size: uint32): Volume
    requires i < |v.files|
  {
    v.(files := v.files[i := v.files[i].(size := size)])
  }

  /** Allocate one block and store its number in slot `s`. */
  ghost function Fill(v: Volume, i: nat, s: Slot): Volume
    requires i < |v.files| && v.free != {}
  {
    var b := Least(v.free);
    SetPtr(v.(free := v.free - {b}), i, s, b)
  }

  /** The slots that `add_block` fills, in order, for file block `n`. */
  function NewSlots(p: map<Slot, nat>, n: nat): (r: seq<Slot>)
    requires n < MAXFILEBLKS
    ensures 1 <= |r| <= 3
  {
    if IndirIndex(n) == -1 then [Direct(n)]
    else if IndirIndex(n) == 0 then
      (if Ind in p then [] else [Ind]) + [IndEntry(DirectIndex(n))]
    else
      (if Ind2 in p then [] else [Ind2])
      + (if Und(IndirIndex(n)) in p then [] else [Und(IndirIndex(n))])
      + [UndEntry(IndirIndex(n), DirectIndex(n))]
  }

  ghost function FillAll(v: Volume, i: nat, slots: seq<Slot>): (w: Volume)
    requires i < |v.files| && |slots| <= |v.free|
    ensures |w.files| == |v.files|
    ensures w.files == v.files[i := v.files[i].(ptrs := w.files[i].ptrs)]
    decreases |slots|
  {
    if slots == [] then v
    else
      assert v.free != {};
      FillAll(Fill(v, i, slots[0]), i, slots[1..])
  }

  /** `add_block`: all the blocks it needs, or none and -ENOSPC. */
  ghost function AddBlock(v: Volume, i: nat): (r: (Volume, Status))
    requires i < |v.files| && NBlocks(v, i) < MAXFILEBLKS
    ensures |r.0.files| == |v.files|
    ensures r.0.files == v.files[i := v.files[i].(size := r.0.files[i].size, ptrs := r.0.files[i].ptrs)]
    ensures r.1 == Ok || r == (v, NoSpace)
  {
    var f := v.files[i];
    var slots := NewSlots(f.ptrs, NBlocks(v, i));
    if |v.free| < |slots| then (v, NoSpace)
    else (SetSize(FillAll(v, i, slots), i, GrowSize(f.size)), Ok)
  }

  // ---------------------------------------------------------- remove_block

  /** Clearing `oi_indirect` also cuts off the entries behind it. */
  function DropInd(p: map<Slot, nat>): map<Slot, nat> {
    map s | s in p && !s.Ind? && !s.IndEntry? :: p[s]
  }

  function DropInd2(p: map<Slot, nat>): map<Slot, nat> {
    map s | s in p && !s.Ind2? && !s.Und? && !s.UndEntry? :: p[s]
  }

  function PtrOr0(p: map<Slot, nat>, s: Slot): nat {
    if s in p then p[s] else 0
  }

  /** The pointers and the free set after `remove_block` took away file block
      `last`, or None for -EIO. */
  function Removal(l: Layout, free: set<nat>, p: map<Slot, nat>, last: nat): (r: (set<nat>, map<Slot, nat>, Status))
    ensures r.2 != NoSpace
  {
    if last < NDIRECT then
      if Direct(last) !in p then (free, p, IOError)
      else (Release(l, free, p[Direct(last)]), p - {Direct(last)}, Ok)
    else if last < NDIRECT + NINDIRECT then
      var s := IndEntry(DirectIndex(last));
      if Ind !in p || s !in p then (free, p, IOError)
      else
        var free1 := Release(l, free, p[s]);
        var p1 := p - {s};
        if DirectIndex(last) != 0 then (free1, p1, Ok)
        else (Release(l, free1, p[Ind]), DropInd(p1), Ok)
    else if last < MAXFILEBLKS then
      var s := UndEntry(IndirIndex(last), DirectIndex(last));
      if Ind2 !in p || Und(IndirIndex(last)) !in p || s !in p then (free, p, IOError)
      else
        var free1 := Release(l, free, p[s]);
        var p1 := p - {s};
        if DirectIndex(last) != 0 then (free1, p1, Ok)
        else
          var free2 := Release(l, free1, PtrOr0(p1, Ind));
          var p2 := DropInd(p1);
          if IndirIndex(last) != 0 then (free2, p2, Ok)
          else (Release(l, free2, p[Ind2]), DropInd2(p2), Ok)
    else (free, p, IOError)
  }

  function Shrunk(v: Volume, i: nat, r: (set<nat>, map<Slot, nat>, Status)): (Volume, Status)
    requires i < |v.files|
  {
    if r.2 != Ok then (v, r.2)
    else
      var f := v.files[i];
      (Volume(r.0, v.files[i := f.(size := ShrinkSize(f.size), ptrs := r.1)]), Ok)
  }

  function RemoveBlock(l: Layout, v: Volume, i: nat): (r: (Volume, Status))
    requires i < |v.files|
    ensures r.1 != NoSpace && |r.0.files| == |v.files|
    ensures r.0.files == v.files[i := v.files[i].(size := r.0.files[i].size, ptrs := r.0.files[i].ptrs)]
  {
    var n := NBlocks(v, i);
    if n == 0 then (v, Ok)
    else Shrunk(v, i, Removal(l, v.free, v.files[i].ptrs, n - 1))
  }

  // ------------------------------------------------------------ change_size

  /** The second loop of `change_size`, also run as its rollback. */
  function ShrinkTo(l: Layout, v: Volume, i: nat, n: nat): (r: (Volume, Status))
    requires i < |v.files|
    ensures |r.0.files| == |v.files|
    ensures r.0.files == v.files[i := v.files[i].(size := r.0.files[i].size, ptrs := r.0.files[i].ptrs)]
    decreases NBlocks(v, i)
  {
    if NBlocks(v, i) <= n then (v, Ok)
    else
      var (w, st) := RemoveBlock(l, v, i);
      if st != Ok then (w, st)
      else
        SizeStep(v.files[i].size);
        ShrinkTo(l, w, i, n)
  }

  /** `Spinning`: still in the first loop when the fuel ran out. */
  datatype Outcome = Finished(st: Status) | Spinning

  /** The first loop of `change_size`.  After a rollback it does not return;
      it goes round again. */
  ghost function GrowTo(l: Layout, v: Volume, i: nat, base: nat, n: nat, fuel: nat): (r: (Volume, Outcome))
    requires i < |v.files| && n <= MAXFILEBLKS
    ensures |r.0.files| == |v.files|
    ensures r.0.files == v.files[i := v.files[i].(size := r.0.files[i].size, ptrs := r.0.files[i].ptrs)]
    decreases fuel
  {
    if NBlocks(v, i) >= n then (v, Finished(Ok))
    else if fuel == 0 then (v, Spinning)
    else
      var (w, st) := AddBlock(v, i);
      if st == Ok then GrowTo(l, w, i, base, n, fuel - 1)
      else
        var (u, st') := ShrinkTo(l, w, i, base);
        if st' != Ok then (u, Finished(st'))
        else GrowTo(l, u, i, base, n, fuel - 1)
  }

  /** `change_size`. */
  ghost function ChangeSize(l: Layout, v: Volume, i: nat, size: uint32, fuel: nat): (r: (Volume, Outcome))
    requires i < |v.files| && Size2NBlocks(size) <= MAXFILEBLKS
    ensures |r.0.files| == |v.files|
    ensures r.0.files == v.files[i := v.files[i].(size := r.0.files[i].size, ptrs := r.0.files[i].ptrs)]
  {
    var (w, out) := GrowTo(l, v, i, NBlocks(v, i), Size2NBlocks(size), fuel);
    if out != Finished(Ok) then (w, out)
    else
      var (u, st) := ShrinkTo(l, w, i, Size2NBlocks(size));
      if st != Ok then (u, Finished(st))
      else (SetSize(u, i, size), Finished(Ok))
  }
}
