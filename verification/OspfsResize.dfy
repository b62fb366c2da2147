/** `change_size`: when it ends, with what, and what it never does. */
module OspfsResize {
  import opened OspfsLayout
  import opened OspfsVolume
  import opened OspfsSafety
  import opened OspfsExact
  import opened OspfsCount

  /** No file block from `a` up to `n` is stored in another one's place. */
  predicate CleanGrow(a: nat, n: nat) {
    forall k :: a <= k < n ==> !Misfiled(k)
  }

  /** No file block from `m` up to `a` takes the wrong indirect block along. */
  predicate CleanCut(m: nat, a: nat) {
    forall k :: m <= k < a ==> !Misfreed(k)
  }

  /** Files of at most 266 blocks stay clear of both lines. */
  lemma SmallFilesAreClean(a: nat, n: nat)
    requires n <= NDIRECT + NINDIRECT
    ensures CleanGrow(a, n) && CleanCut(a, n)
  {
  }

  // ---------------------------------------------------------- shrinking

  lemma ShrinkToStep(l: Layout, v: Volume, i: nat, m: nat, w: Volume)
    requires i < |v.files| && NBlocks(v, i) > m && RemoveBlock(l, v, i) == (w, Ok)
    ensures |w.files| == |v.files| && ShrinkTo(l, v, i, m) == ShrinkTo(l, w, i, m)
  {
  }

  lemma CutStep(l: Layout, v: Volume, i: nat, m: nat)
    requires GoodFile(l, v, i) && m < NBlocks(v, i)
    requires !Misfreed(NBlocks(v, i) - 1) && !CutsRefused(l, v.files[i].ptrs, NBlocks(v, i) - 1)
    ensures ShrinkTo(l, v, i, m) == ShrinkTo(l, Cut(v, i, NBlocks(v, i) - 1), i, m)
  {
    RemoveBlockIsCut(l, v, i);
    ShrinkToStep(l, v, i, m, Cut(v, i, NBlocks(v, i) - 1));
  }

  lemma CutSmallerRefusal(l: Layout, p: map<Slot, nat>, m: nat, n: nat)
    requires m <= n && !CutsRefused(l, p, m)
    ensures !CutsRefused(l, p, n) && !CutsRefused(l, Kept(p, n), m)
  {
    NeededMonotone(m, n);
  }

  lemma CutStart(v: Volume, i: nat, l: Layout)
    requires GoodFile(l, v, i)
    ensures ShrinkTo(l, v, i, NBlocks(v, i)) == (Cut(v, i, NBlocks(v, i)), Ok)
  {
    CutNothing(v, i);
  }

  lemma {:induction false} ShrinkToIsCut(l: Layout, v: Volume, i: nat, m: nat)
    requires GoodFile(l, v, i) && m <= NBlocks(v, i)
    requires CleanCut(m, NBlocks(v, i)) && !CutsRefused(l, v.files[i].ptrs, m)
    ensures ShrinkTo(l, v, i, m) == (Cut(v, i, m), Ok)
    decreases NBlocks(v, i)
  {
    hide ShrinkTo, Sound, Shaped, Size2NBlocks;
    var a := NBlocks(v, i);
    if m == a {
      CutStart(v, i, l);
    } else {
      CutSmallerRefusal(l, v.files[i].ptrs, m, a - 1);
      CutStep(l, v, i, m);
      CutKeepsGood(l, v, i, a - 1);
      ShrinkToIsCut(l, Cut(v, i, a - 1), i, m);
      CutAgain(v, i, a - 1, m);
    }
  }

  /** A tree without its first indirect block never shrinks back into shape. */
  lemma {:induction false} ShrinkWithoutInd(l: Layout, v: Volume, i: nat, m: nat)
    requires IsFile(v, i) && Ind !in v.files[i].ptrs && NBlocks(v, i) > NDIRECT
    ensures var (w, st) := ShrinkTo(l, v, i, m);
            st == Ok ==> IsFile(w, i) && Ind !in w.files[i].ptrs && NBlocks(w, i) > NDIRECT
    decreases NBlocks(v, i)
  {
    if NBlocks(v, i) > m {
      var (w, st) := RemoveBlock(l, v, i);
      if st == Ok {
        RemovalWithoutInd(l, v.free, v.files[i].ptrs, NBlocks(v, i) - 1);
        SizeStep(v.files[i].size);
        ShrinkWithoutInd(l, w, i, m);
      }
    }
  }

  lemma RemovalWithoutInd(l: Layout, free: set<nat>, p: map<Slot, nat>, last: nat)
    requires Ind !in p && last >= NDIRECT
    ensures Ind !in Removal(l, free, p, last).1
    ensures Removal(l, free, p, last).2 == Ok ==> last >= NDIRECT + NINDIRECT
  {
  }

  /** A lost block stays lost. */
  lemma RemoveBlockFindsNothing(l: Layout, v: Volume, i: nat, b: nat)
    requires Sound(l, v) && IsFile(v, i) && Lost(l, v, b)
    ensures Lost(l, RemoveBlock(l, v, i).0, b)
  {
    hide Sound, Removal, Size2NBlocks, Lost;
    if NBlocks(v, i) > 0 {
      ShrunkFindsNothing(l, v, i, NBlocks(v, i) - 1, b);
    }
  }

  lemma ShrunkFindsNothing(l: Layout, v: Volume, i: nat, last: nat, b: nat)
    requires Sound(l, v) && IsFile(v, i) && Lost(l, v, b)
    ensures Lost(l, Shrunk(v, i, Removal(l, v.free, v.files[i].ptrs, last)).0, b)
  {
    var p := v.files[i].ptrs;
    SoundIsClosed(l, v, i);
    RemovalGivesUp(l, v.free, p, last);
    GivesUpFindsNothing(l, v, i, Removal(l, v.free, p, last), b);
  }

  lemma GivesUpFindsNothing(l: Layout, v: Volume, i: nat, r: (set<nat>, map<Slot, nat>, Status), b: nat)
    requires i < |v.files| && Lost(l, v, b)
    requires GivesUp(l, v.free, v.files[i].ptrs, r.0, r.1)
    ensures Lost(l, Shrunk(v, i, r).0, b)
  {
    var w := Shrunk(v, i, r).0;
    forall j: nat, t | HasPtr(w, j, t)
      ensures w.files[j].ptrs[t] != b
    {
      assert HasPtr(v, j, t);
    }
    assert forall s :: s in v.files[i].ptrs ==> HasPtr(v, i, s);
  }

  lemma {:induction false} ShrinkFindsNothing(l: Layout, v: Volume, i: nat, m: nat, b: nat)
    requires Sound(l, v) && IsFile(v, i) && Lost(l, v, b)
    ensures Lost(l, ShrinkTo(l, v, i, m).0, b)
    decreases NBlocks(v, i)
  {
    if NBlocks(v, i) > m {
      RemoveBlockSound(l, v, i);
      RemoveBlockFindsNothing(l, v, i, b);
      var (w, st) := RemoveBlock(l, v, i);
      if st == Ok {
        SizeStep(v.files[i].size);
        ShrinkFindsNothing(l, w, i, m, b);
      }
    }
  }

  ghost predicate EndsTight(l: Layout, r: (Volume, Status)) {
    r.1 == Ok && Tight(l, r.0)
  }

  /** Past a misfreed block the tree is out of shape for good. */
  lemma ShrinkThroughMisfreed(l: Layout, v: Volume, i: nat, m: nat)
    requires GoodFile(l, v, i) && m < NBlocks(v, i) && Misfreed(NBlocks(v, i) - 1)
    ensures var (u, st) := ShrinkTo(l, v, i, m); st == Ok ==> !Shaped(u.files[i])
  {
    hide Removal, Size2NBlocks, Sound;
    MisfreedRemoval(l, v.free, v.files[i].ptrs, NBlocks(v, i) - 1);
    SizeStep(v.files[i].size);
    var (w, _) := RemoveBlock(l, v, i);
    ShrinkWithoutInd(l, w, i, m);
    var (u, st) := ShrinkTo(l, w, i, m);
    if st == Ok {
      assert Needed(Ind, NBlocks(u, i));
    }
  }

  /** A rollback ends with exactly the cut-back file if and only if none of the
      blocks it removes is misfreed. */
  lemma {:induction false} ShrinkBackExact(l: Layout, v: Volume, i: nat, m: nat)
    requires GoodFile(l, v, i) && m <= NBlocks(v, i) && !CutsRefused(l, v.files[i].ptrs, m)
    ensures ShrinkTo(l, v, i, m) == (Cut(v, i, m), Ok) <==> CleanCut(m, NBlocks(v, i))
    decreases NBlocks(v, i)
  {
    hide ShrinkTo, Sound, Shaped, Size2NBlocks, CutsRefused;
    var a := NBlocks(v, i);
    CutKeepsGood(l, v, i, m);
    if CleanCut(m, a) {
      ShrinkToIsCut(l, v, i, m);
    } else if Misfreed(a - 1) {
      ShrinkThroughMisfreed(l, v, i, m);
    } else {
      CutSmallerRefusal(l, v.files[i].ptrs, m, a - 1);
      CutStep(l, v, i, m);
      CutKeepsGood(l, v, i, a - 1);
      ShrinkBackExact(l, Cut(v, i, a - 1), i, m);
      CutAgain(v, i, a - 1, m);
    }
  }

  lemma ShrinkThroughRefused(l: Layout, v: Volume, i: nat, m: nat)
    requires Tight(l, v) && IsFile(v, i) && m < NBlocks(v, i) && !Misfreed(NBlocks(v, i) - 1)
    requires CutsRefused(l, v.files[i].ptrs, NBlocks(v, i) - 1)
    ensures !EndsTight(l, ShrinkTo(l, v, i, m))
  {
    hide Removal;
    RemoveBlockExact(l, v, i);
    RemoveBlockSound(l, v, i);
    var b := RefusedIsLost(l, v, i, NBlocks(v, i) - 1);
    var (w, _) := RemoveBlock(l, v, i);
    ShrinkFindsNothing(l, w, i, m, b);
  }

  /** Shrinking a file of a volume in order leaves a volume in order exactly
      when no removed block is the first under a doubly-indirect entry and the
      refused block is not among the removed ones; and then nothing but the
      removed blocks has changed. */
  lemma {:induction false} ShrinkExact(l: Layout, v: Volume, i: nat, m: nat)
    requires Tight(l, v) && IsFile(v, i) && m <= NBlocks(v, i)
    ensures EndsTight(l, ShrinkTo(l, v, i, m))
            <==> CleanCut(m, NBlocks(v, i)) && !CutsRefused(l, v.files[i].ptrs, m)
    ensures EndsTight(l, ShrinkTo(l, v, i, m)) ==> ShrinkTo(l, v, i, m).0 == Cut(v, i, m)
    decreases NBlocks(v, i)
  {
    hide ShrinkTo, Tight, Size2NBlocks, CutsRefused, Misfreed, GoodFile, Kept, Dropped;
    TightIsGood(l, v, i);
    var a := NBlocks(v, i);
    if CleanCut(m, a) && !CutsRefused(l, v.files[i].ptrs, m) {
      ShrinkToIsCut(l, v, i, m);
      CutKeepsTight(l, v, i, m);
    } else if m == a {
      NothingToCut(l, v, i);
    } else if Misfreed(a - 1) {
      ShrinkThroughMisfreed(l, v, i, m);
      if ShrinkTo(l, v, i, m).1 == Ok {
        MisshapenIsNotTight(l, ShrinkTo(l, v, i, m).0, i);
      }
    } else if CutsRefused(l, v.files[i].ptrs, a - 1) {
      ShrinkThroughRefused(l, v, i, m);
    } else {
      CutStep(l, v, i, m);
      CutKeepsTight(l, v, i, a - 1);
      CleanCutRest(l, v.files[i].ptrs, m, a);
      ShrinkExact(l, Cut(v, i, a - 1), i, m);
    }
  }

  lemma MisshapenIsNotTight(l: Layout, v: Volume, i: nat)
    requires IsFile(v, i) && !Shaped(v.files[i])
    ensures !Tight(l, v)
  {
  }

  lemma NothingToCut(l: Layout, v: Volume, i: nat)
    requires GoodFile(l, v, i)
    ensures !CutsRefused(l, v.files[i].ptrs, NBlocks(v, i))
  {
  }

  /** What is wrong further down is still wrong after one clean step. */
  lemma CleanCutRest(l: Layout, p: map<Slot, nat>, m: nat, a: nat)
    requires m < a && !Misfreed(a - 1) && !CutsRefused(l, p, a - 1)
    requires !(CleanCut(m, a) && !CutsRefused(l, p, m))
    ensures !(CleanCut(m, a - 1) && !CutsRefused(l, Kept(p, a - 1), m))
  {
    if CutsRefused(l, p, m) {
      var s :| s in p && !Needed(s, m) && l.Refused(p[s]);
      assert Needed(s, a - 1);
      assert s in Kept(p, a - 1);
    }
  }
}
