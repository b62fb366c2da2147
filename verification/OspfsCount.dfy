/** Used = metadata + reached, in numbers: on a volume in order the number of
    free blocks is determined by the sizes of the files. */
module OspfsCount {
  import opened OspfsLayout
  import opened OspfsVolume
  import opened OspfsExact

  /** Data, indirect and doubly indirect blocks of a file of `n` blocks. */
  function TreeSize(n: nat): nat {
    n + (if n > NDIRECT then 1 else 0)
    + (if n > NDIRECT + NINDIRECT
       then 1 + (n - NDIRECT - NINDIRECT + NINDIRECT - 1) / NINDIRECT
       else 0)
  }

  /** The slots that become needed with file block `n`. */
  function NewlyNeeded(n: nat): set<Slot>
    requires n < MAXFILEBLKS
  {
    {DataSlot(n)}
    + (if n == NDIRECT then {Ind} else {})
    + (if n == NDIRECT + NINDIRECT then {Ind2} else {})
    + (if n >= NDIRECT + NINDIRECT && (n - NDIRECT - NINDIRECT) % NINDIRECT == 0
       then {Und((n - NDIRECT - NINDIRECT) / NINDIRECT)} else {})
  }

  lemma NewlyNeededCount(n: nat)
    requires n < MAXFILEBLKS
    ensures |NewlyNeeded(n)| == TreeSize(n + 1) - TreeSize(n)
  {
    if n >= NDIRECT + NINDIRECT {
      var m := n - NDIRECT - NINDIRECT;
      var q := m / NINDIRECT;
      assert m == NINDIRECT * q + m % NINDIRECT;
      assert (m + 1 + NINDIRECT - 1) / NINDIRECT == q + 1;
      if m % NINDIRECT == 0 {
        assert (m + NINDIRECT - 1) / NINDIRECT == q;
      } else {
        assert (m + NINDIRECT - 1) / NINDIRECT == q + 1;
      }
      assert TreeSize(n + 1) - TreeSize(n) == 1 + (if m == 0 then 1 else 0) + (if m % NINDIRECT == 0 then 1 else 0);
    }
  }

  lemma NewlyNeededAre(n: nat, s: Slot)
    requires n < MAXFILEBLKS
    ensures Needed(s, n + 1) <==> Needed(s, n) || s in NewlyNeeded(n)
    ensures s in NewlyNeeded(n) ==> !Needed(s, n)
  {
    if n >= NDIRECT + NINDIRECT {
      var m := n - NDIRECT - NINDIRECT;
      assert m == NINDIRECT * (m / NINDIRECT) + m % NINDIRECT;
      match s
      case UndEntry(j, k) =>
        if ValidSlot(s) && m == NINDIRECT * j + k {
          assert m / NINDIRECT == j && m % NINDIRECT == k;
        }
      case Und(j) =>
        if m == NINDIRECT * j {
          assert m / NINDIRECT == j && m % NINDIRECT == 0;
        }
      case _ =>
    }
  }

  lemma ShapedStep(keys: set<Slot>, n: nat)
    requires n < MAXFILEBLKS
    requires forall s :: s in keys <==> Needed(s, n + 1)
    ensures NewlyNeeded(n) <= keys
    ensures forall s :: s in keys - NewlyNeeded(n) <==> Needed(s, n)
  {
    forall s
      ensures s in keys - NewlyNeeded(n) <==> Needed(s, n)
      ensures s in NewlyNeeded(n) ==> s in keys
    {
      NewlyNeededAre(n, s);
    }
  }

  lemma SplitCount(keys: set<Slot>, part: set<Slot>)
    requires part <= keys
    ensures |keys| == |keys - part| + |part|
  {
    assert keys == (keys - part) + part;
  }

  lemma NothingNeeded(keys: set<Slot>)
    requires forall s :: s in keys <==> Needed(s, 0)
    ensures |keys| == TreeSize(0)
  {
    assert keys == {};
  }

  lemma {:induction false} ShapedCount(keys: set<Slot>, n: nat)
    requires n <= MAXFILEBLKS
    requires forall s :: s in keys <==> Needed(s, n)
    ensures |keys| == TreeSize(n)
    decreases n
  {
    hide Needed, NewlyNeeded, TreeSize;
    if n == 0 {
      NothingNeeded(keys);
    } else {
      ShapedStep(keys, n - 1);
      NewlyNeededCount(n - 1);
      var part := NewlyNeeded(n - 1);
      SplitCount(keys, part);
      ShapedCount(keys - part, n - 1);
    }
  }

  lemma {:induction false} NewSlotsCount(p: map<Slot, nat>, n: nat)
    requires n < MAXFILEBLKS && ShapedPtrs(p, n) && !Misfiled(n)
    ensures |NewSlots(p, n)| == TreeSize(n + 1) - TreeSize(n)
  {
    NewSlotsAreNeeded(p, n);
    NewlyNeededCount(n);
    forall s
      ensures s in NewSlots(p, n) <==> s in NewlyNeeded(n)
    {
      NewlyNeededAre(n, s);
    }
    var slots := NewSlots(p, n);
    assert (set s | s in slots) == NewlyNeeded(n);
    DistinctCount(slots);
  }

  lemma {:induction false} DistinctCount(slots: seq<Slot>)
    requires Distinct(slots)
    ensures |set s | s in slots| == |slots|
  {
    if slots == [] {
      assert (set s | s in slots) == {};
    } else {
      var rest := slots[1..];
      DistinctCount(rest);
      assert slots == [slots[0]] + rest;
      assert slots[0] !in rest;
      assert (set s | s in slots) == {slots[0]} + (set s | s in rest);
    }
  }

  // ----------------------------------------------------------- the ledger

  function Total(files: seq<File>): nat {
    if files == [] then 0 else Total(files[1..]) + |files[0].ptrs|
  }

  ghost function Blocks(files: seq<File>): set<nat> {
    if files == [] then {} else Blocks(files[1..]) + files[0].ptrs.Values
  }

  lemma {:induction false} ValuesCount(m: map<Slot, nat>)
    requires forall s, t :: s in m && t in m && m[s] == m[t] ==> s == t
    ensures |m.Values| == |m|
    decreases |m|
  {
    if m.Keys == {} {
      assert m.Values == {};
    } else {
      var s :| s in m;
      var rest := m - {s};
      assert |rest| < |m| by { assert rest.Keys == m.Keys - {s}; }
      ValuesCount(rest);
      assert m.Values == rest.Values + {m[s]} by {
        forall b | b in m.Values
          ensures b in rest.Values + {m[s]}
        {
          var t :| t in m && m[t] == b;
          assert t != s ==> t in rest && rest[t] == b;
        }
      }
      assert m[s] !in rest.Values;
      assert rest.Keys == m.Keys - {s};
    }
  }

  ghost predicate NoSharing(files: seq<File>) {
    forall i, s, j, t ::
      0 <= i < |files| && 0 <= j < |files| && s in files[i].ptrs && t in files[j].ptrs
      && files[i].ptrs[s] == files[j].ptrs[t]
      ==> i == j && s == t
  }

  lemma {:induction false} InBlocks(files: seq<File>, b: nat)
    ensures b in Blocks(files) <==> exists i, s :: 0 <= i < |files| && s in files[i].ptrs && files[i].ptrs[s] == b
  {
    if files != [] {
      InBlocks(files[1..], b);
      if i, s :| 0 <= i < |files| && s in files[i].ptrs && files[i].ptrs[s] == b {
        if i > 0 {
          assert files[1..][i - 1] == files[i];
        }
      }
      if b in Blocks(files[1..]) {
        var i, s :| 0 <= i < |files[1..]| && s in files[1..][i].ptrs && files[1..][i].ptrs[s] == b;
        assert files[i + 1] == files[1..][i];
      }
    }
  }

  lemma {:induction false} BlocksCount(files: seq<File>)
    requires NoSharing(files)
    ensures |Blocks(files)| == Total(files)
  {
    if files != [] {
      var rest := files[1..];
      assert forall i :: 0 <= i < |rest| ==> rest[i] == files[i + 1];
      assert NoSharing(rest);
      BlocksCount(rest);
      ValuesCount(files[0].ptrs);
      forall b | b in files[0].ptrs.Values
        ensures b !in Blocks(rest)
      {
        var s :| s in files[0].ptrs && files[0].ptrs[s] == b;
        InBlocks(rest, b);
        forall i, t | 0 <= i < |rest| && t in rest[i].ptrs
          ensures rest[i].ptrs[t] != b
        {
          assert rest[i] == files[i + 1];
        }
      }
    }
  }

  function Owed(f: File): nat {
    if f.ftype.Symlink? then 0 else TreeSize(Size2NBlocks(f.size))
  }

  function TotalOwed(files: seq<File>): nat {
    if files == [] then 0 else TotalOwed(files[1..]) + Owed(files[0])
  }

  lemma {:induction false} TotalIsOwed(files: seq<File>)
    requires forall i :: 0 <= i < |files| ==>
        if files[i].ftype.Symlink? then files[i].ptrs == map[] else Shaped(files[i])
    ensures Total(files) == TotalOwed(files)
  {
    if files != [] {
      TotalIsOwed(files[1..]);
      if !files[0].ftype.Symlink? {
        ShapedCount(files[0].ptrs.Keys, Size2NBlocks(files[0].size));
      }
    }
  }

  function Interval(lo: nat, hi: nat): (s: set<nat>)
    requires lo <= hi
    ensures |s| == hi - lo
    ensures forall b :: b in s <==> lo <= b < hi
    decreases hi
  {
    if lo == hi then {} else Interval(lo, hi - 1) + {hi - 1}
  }

  lemma SymlinksOwnNothing(l: Layout, v: Volume, i: nat)
    requires Sound(l, v) && i < |v.files|
    ensures v.files[i].ftype.Symlink? ==> v.files[i].ptrs == map[]
  {
    assert forall s :: s in v.files[i].ptrs ==> HasPtr(v, i, s);
    assert forall s :: HasPtr(v, i, s) ==> PtrOk(l, v, i, s);
  }

  /** Nothing leaks, nothing is counted twice: every block of the data area is
      free or pays for the size of some file. */
  lemma {:induction false} Ledger(l: Layout, v: Volume)
    requires Tight(l, v)
    ensures |v.free| + TotalOwed(v.files) == l.nblocks - l.FirstData()
  {
    var area := Interval(l.FirstData(), l.nblocks);
    var used := Blocks(v.files);
    AreaIsUsedOrFree(l, v);
    NothingTwice(l, v);
    BlocksCount(v.files);
    OwedInFull(l, v);
    assert forall b :: b in v.free ==> l.InDataArea(b);
    hide Tight, Blocks, Total, TotalOwed;
    assert area == used + v.free;
  }

  lemma NothingTwice(l: Layout, v: Volume)
    requires Sound(l, v)
    ensures NoSharing(v.files)
  {
    forall i, s, j, t | 0 <= i < |v.files| && 0 <= j < |v.files| && s in v.files[i].ptrs && t in v.files[j].ptrs
      && v.files[i].ptrs[s] == v.files[j].ptrs[t]
      ensures i == j && s == t
    {
      assert HasPtr(v, i, s) && HasPtr(v, j, t);
    }
  }

  lemma OwedInFull(l: Layout, v: Volume)
    requires Tight(l, v)
    ensures Total(v.files) == TotalOwed(v.files)
  {
    forall i | 0 <= i < |v.files|
      ensures if v.files[i].ftype.Symlink? then v.files[i].ptrs == map[] else Shaped(v.files[i])
    {
      SymlinksOwnNothing(l, v, i);
    }
    TotalIsOwed(v.files);
  }

  lemma AreaIsUsedOrFree(l: Layout, v: Volume)
    requires Tight(l, v)
    ensures forall b: nat :: b in Blocks(v.files) <==> l.InDataArea(b) && b !in v.free
  {
    var used := Blocks(v.files);
    forall b: nat
      ensures b in used <==> l.InDataArea(b) && b !in v.free
    {
      InBlocks(v.files, b);
      if b in used {
        var i, s :| 0 <= i < |v.files| && s in v.files[i].ptrs && v.files[i].ptrs[s] == b;
        assert HasPtr(v, i, s) && PtrOk(l, v, i, s);
      }
      if l.InDataArea(b) && b !in v.free {
        var i: nat, s :| HasPtr(v, i, s) && v.files[i].ptrs[s] == b;
      }
    }
  }

  lemma {:induction false} OwedUpdate(files: seq<File>, i: nat, g: File)
    requires i < |files|
    ensures TotalOwed(files[i := g]) - Owed(g) == TotalOwed(files) - Owed(files[i])
    decreases i
  {
    var after := files[i := g];
    if i == 0 {
      assert after[1..] == files[1..];
    } else {
      OwedUpdate(files[1..], i - 1, g);
      assert after[1..] == files[1..][i - 1 := g];
    }
  }

  /** Two volumes in order that differ in one file: the free blocks make up
      for the difference of the trees. */
  lemma LedgerOfTwo(l: Layout, v: Volume, w: Volume, i: nat)
    requires Tight(l, v) && Tight(l, w) && IsFile(v, i) && IsFile(w, i)
    requires w.files == v.files[i := w.files[i]]
    ensures |v.free| + TreeSize(NBlocks(v, i)) == |w.free| + TreeSize(NBlocks(w, i))
  {
    Ledger(l, v);
    Ledger(l, w);
    OwedUpdate(v.files, i, w.files[i]);
  }

  lemma {:induction false} TreeSizeMonotone(m: nat, n: nat)
    requires m <= n
    ensures TreeSize(m) + (n - m) <= TreeSize(n)
  {
    if n > NDIRECT + NINDIRECT && m > NDIRECT + NINDIRECT {
      assert (m - NDIRECT - NINDIRECT + NINDIRECT - 1) / NINDIRECT
          <= (n - NDIRECT - NINDIRECT + NINDIRECT - 1) / NINDIRECT;
    }
  }
}
