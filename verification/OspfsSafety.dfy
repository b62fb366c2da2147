/** Ownership of blocks under the code as it stands: `Sound` survives every
    step, also the steps that lose blocks or leave a tree misshapen. */
module OspfsSafety {
  import opened OspfsLayout
  import opened OspfsVolume

  lemma FillSound(l: Layout, v: Volume, i: nat, s: Slot)
    requires Sound(l, v) && IsFile(v, i) && v.free != {}
    requires ValidSlot(s) && ParentPresent(v.files[i].ptrs.Keys, s)
    ensures Sound(l, Fill(v, i, s))
  {
    var w := Fill(v, i, s);
    var b := Least(v.free);
    forall j: nat, t | HasPtr(w, j, t)
      ensures PtrOk(l, w, j, t)
      ensures (j, t) != (i, s) ==> HasPtr(v, j, t) && w.files[j].ptrs[t] == v.files[j].ptrs[t] != b
    {
      if (j, t) != (i, s) {
        assert HasPtr(v, j, t);
        assert PtrOk(l, v, j, t);
      }
    }
    assert Injective(w);
  }

  /** Each slot's parent is there by the time the slot is filled. */
  predicate Fillable(keys: set<Slot>, slots: seq<Slot>)
    decreases |slots|
  {
    slots == [] ||
    (ValidSlot(slots[0]) && ParentPresent(keys, slots[0]) && Fillable(keys + {slots[0]}, slots[1..]))
  }

  lemma FillAllSound(l: Layout, v: Volume, i: nat, slots: seq<Slot>)
    requires Sound(l, v) && IsFile(v, i) && |slots| <= |v.free|
    requires Fillable(v.files[i].ptrs.Keys, slots)
    ensures Sound(l, FillAll(v, i, slots))
    decreases |slots|
  {
    if slots != [] {
      assert v.free != {};
      FillSound(l, v, i, slots[0]);
      assert Fill(v, i, slots[0]).files[i].ptrs.Keys == v.files[i].ptrs.Keys + {slots[0]};
      FillAllSound(l, Fill(v, i, slots[0]), i, slots[1..]);
    }
  }

  lemma NewSlotsFillable(p: map<Slot, nat>, n: nat)
    requires n < MAXFILEBLKS
    ensures Fillable(p.Keys, NewSlots(p, n))
  {
    var slots := NewSlots(p, n);
    if |slots| == 2 {
      assert slots[1..] == [slots[1]];
    } else if |slots| == 3 {
      assert slots[1..] == [slots[1], slots[2]];
      assert Fillable(p.Keys + {slots[0]} + {slots[1]}, [slots[2]]);
      assert [slots[1], slots[2]][1..] == [slots[2]];
    }
  }

  lemma AddBlockSound(l: Layout, v: Volume, i: nat)
    requires Sound(l, v) && IsFile(v, i) && NBlocks(v, i) < MAXFILEBLKS
    ensures Sound(l, AddBlock(v, i).0)
  {
    var slots := NewSlots(v.files[i].ptrs, NBlocks(v, i));
    if |slots| <= |v.free| {
      NewSlotsFillable(v.files[i].ptrs, NBlocks(v, i));
      FillAllSound(l, v, i, slots);
      var w := FillAll(v, i, slots);
      var u := AddBlock(v, i).0;
      assert forall j: nat, t :: HasPtr(u, j, t) <==> HasPtr(w, j, t);
      assert forall j: nat, t :: HasPtr(u, j, t) ==> PtrOk(l, w, j, t);
    }
  }

  /** A file may give up any set of slots that is closed downwards, and the
      blocks they named may become free. */
  lemma GiveUpSound(l: Layout, v: Volume, i: nat, size: uint32, p: map<Slot, nat>, free: set<nat>)
    requires Sound(l, v) && IsFile(v, i)
    requires GivesUp(l, v.free, v.files[i].ptrs, free, p)
    ensures Sound(l, Volume(free, v.files[i := v.files[i].(size := size, ptrs := p)]))
  {
    var w := Volume(free, v.files[i := v.files[i].(size := size, ptrs := p)]);
    forall j: nat, t | HasPtr(w, j, t)
      ensures HasPtr(v, j, t) && w.files[j].ptrs[t] == v.files[j].ptrs[t]
      ensures PtrOk(l, w, j, t)
    {
      assert HasPtr(v, j, t) && PtrOk(l, v, j, t);
      var b := v.files[j].ptrs[t];
      if b in free {
        var s :| s in v.files[i].ptrs && s !in p && v.files[i].ptrs[s] == b;
        assert HasPtr(v, i, s);
      }
    }
    forall b | b in free
      ensures l.InDataArea(b) && !l.Refused(b)
    {
      if b !in v.free {
        var s :| s in v.files[i].ptrs && s !in p && v.files[i].ptrs[s] == b;
        assert HasPtr(v, i, s) && PtrOk(l, v, i, s);
      }
    }
    assert Injective(w);
  }

  ghost predicate GivenUp(l: Layout, before: map<Slot, nat>, after: map<Slot, nat>, b: nat) {
    !l.Refused(b) && exists s :: s in before && s !in after && before[s] == b
  }

  ghost predicate Closed(p: map<Slot, nat>) {
    forall s :: s in p ==> ParentPresent(p.Keys, s)
  }

  /** `p'` gives up some slots of `p`, and `free'` gains only blocks these named. */
  ghost predicate GivesUp(l: Layout, free: set<nat>, p: map<Slot, nat>, free': set<nat>, p': map<Slot, nat>) {
    && (forall s :: s in p' ==> s in p && p'[s] == p[s])
    && Closed(p')
    && (forall b :: b in free' ==> b in free || GivenUp(l, p, p', b))
  }

  lemma RemovalGivesUp(l: Layout, free: set<nat>, p: map<Slot, nat>, last: nat)
    requires Closed(p)
    ensures var (free', p', _) := Removal(l, free, p, last);
            GivesUp(l, free, p, free', p')
  {
    var (free', p', st) := Removal(l, free, p, last);
    if st == Ok {
      assert forall s :: s in p' ==> s in p && p'[s] == p[s];
      assert Closed(p');
      assert l.Refused(0);
      forall b | b in free' && b !in free
        ensures GivenUp(l, p, p', b)
      {
      }
    }
  }

  lemma SoundIsClosed(l: Layout, v: Volume, i: nat)
    requires Sound(l, v) && i < |v.files|
    ensures Closed(v.files[i].ptrs)
  {
    var p := v.files[i].ptrs;
    forall s | s in p
      ensures ParentPresent(p.Keys, s)
    {
      assert HasPtr(v, i, s) && PtrOk(l, v, i, s);
    }
  }

  lemma ShrunkSound(l: Layout, v: Volume, i: nat, last: nat)
    requires Sound(l, v) && IsFile(v, i)
    ensures Sound(l, Shrunk(v, i, Removal(l, v.free, v.files[i].ptrs, last)).0)
  {
    SoundIsClosed(l, v, i);
    var f := v.files[i];
    var r := Removal(l, v.free, f.ptrs, last);
    RemovalGivesUp(l, v.free, f.ptrs, last);
    GiveUpSound(l, v, i, ShrinkSize(f.size), r.1, r.0);
  }

  lemma RemoveBlockSound(l: Layout, v: Volume, i: nat)
    requires Sound(l, v) && IsFile(v, i)
    ensures Sound(l, RemoveBlock(l, v, i).0)
  {
    hide Sound, Removal, Size2NBlocks;
    if NBlocks(v, i) != 0 {
      ShrunkSound(l, v, i, NBlocks(v, i) - 1);
    }
  }

  lemma ShrinkToSound(l: Layout, v: Volume, i: nat, n: nat)
    requires Sound(l, v) && IsFile(v, i)
    ensures Sound(l, ShrinkTo(l, v, i, n).0) && IsFile(ShrinkTo(l, v, i, n).0, i)
    decreases NBlocks(v, i)
  {
    if NBlocks(v, i) > n {
      RemoveBlockSound(l, v, i);
      var (w, st) := RemoveBlock(l, v, i);
      if st == Ok {
        SizeStep(v.files[i].size);
        ShrinkToSound(l, w, i, n);
      }
    }
  }

  lemma GrowToSound(l: Layout, v: Volume, i: nat, base: nat, n: nat, fuel: nat)
    requires Sound(l, v) && IsFile(v, i) && n <= MAXFILEBLKS
    ensures Sound(l, GrowTo(l, v, i, base, n, fuel).0) && IsFile(GrowTo(l, v, i, base, n, fuel).0, i)
    decreases fuel
  {
    if NBlocks(v, i) < n && fuel > 0 {
      AddBlockSound(l, v, i);
      var (w, st) := AddBlock(v, i);
      if st == Ok {
        GrowToSound(l, w, i, base, n, fuel - 1);
      } else {
        ShrinkToSound(l, w, i, base);
        var (u, st') := ShrinkTo(l, w, i, base);
        if st' == Ok {
          GrowToSound(l, u, i, base, n, fuel - 1);
        }
      }
    }
  }

  /** However often `change_size` has gone round, whatever it returns and
      whatever it lost on the way: ownership is intact. */
  lemma ChangeSizeSound(l: Layout, v: Volume, i: nat, size: uint32, fuel: nat)
    requires Sound(l, v) && IsFile(v, i) && Size2NBlocks(size) <= MAXFILEBLKS
    ensures Sound(l, ChangeSize(l, v, i, size, fuel).0)
  {
    hide GrowTo, ShrinkTo, Size2NBlocks;
    GrowToSound(l, v, i, NBlocks(v, i), Size2NBlocks(size), fuel);
    var (w, out) := GrowTo(l, v, i, NBlocks(v, i), Size2NBlocks(size), fuel);
    if out == Finished(Ok) {
      ShrinkToSound(l, w, i, Size2NBlocks(size));
      var (u, st) := ShrinkTo(l, w, i, Size2NBlocks(size));
      var z := SetSize(u, i, size);
      assert forall j: nat, t :: HasPtr(z, j, t) ==> HasPtr(u, j, t) && PtrOk(l, u, j, t);
    }
  }
}
