/** The formatter from end to end: an empty disk, one file after the other with a
    directory block for every eight of them, the bitmap, and the cache written
    back.  The kernel module finds a volume in order on the disk. */
module FormatMain {
  import opened Common
  import opened OspfsLayout
  import opened FormatCache
  import opened FormatTree
  import opened FormatImage
  import opened FormatFiles
  import V = OspfsVolume
  import D = OspfsDisk
  import K = FormatVolume

  const ROOT_INO: nat := 1
  const DIRENTRIES: nat := 8

  /** The number of blocks of inode `k` when `m` files have been written. */
  function LenAfter(hosts: seq<seq<Contents>>, m: nat, k: nat): nat
    requires m <= |hosts|
  {
    if k == ROOT_INO then (m + DIRENTRIES - 1) / DIRENTRIES
    else if 2 <= k < 2 + m then |hosts[k - 2]|
    else 0
  }

  /** The state between two files. */
  ghost predicate Half(im: Image, first: nat, inos: seq<Inode>, bss: seq<seq<nat>>, hosts: seq<seq<Contents>>, m: nat) {
    && m <= |hosts| && |hosts| + 2 <= |inos| && Trees(im, first, inos, bss)
    && (forall k: nat :: k < |inos| ==> |bss[k]| == LenAfter(hosts, m, k))
    && (forall k: nat :: k < |inos| && k != ROOT_INO && !(2 <= k < 2 + m) ==> inos[k] == EmptyInode())
    && FirstFilled(im.blocks, bss, hosts, m)
  }

  /** The blocks of the first `m` files hold what the hosts hold. */
  ghost predicate FirstFilled(d: Disk, bss: seq<seq<nat>>, hosts: seq<seq<Contents>>, m: nat)
    requires m <= |hosts| && |hosts| + 2 <= |bss|
  {
    forall j: nat :: j < m ==> Filled(d, bss[j + 2], hosts[j])
  }

  lemma FirstFilledStill(
      d: Disk, d': Disk, bss: seq<seq<nat>>, bss': seq<seq<nat>>, hosts: seq<seq<Contents>>, m: nat)
    requires m <= |hosts| && |hosts| + 2 <= |bss| == |bss'| && FirstFilled(d, bss, hosts, m) && DataKept(d, d', bss)
    requires forall k :: 2 <= k < 2 + m ==> bss'[k] == bss[k]
    ensures FirstFilled(d', bss', hosts, m)
  {
    hide Filled, DataKept;
    forall j: nat | j < m
      ensures Filled(d', bss'[j + 2], hosts[j])
    {
      FilledStill(d, d', bss, j + 2, hosts[j]);
    }
  }

  lemma TreesOnDisk(im: Image, first: nat, inos: seq<Inode>, bss: seq<seq<nat>>, k: nat)
    requires Trees(im, first, inos, bss) && k < |inos|
    ensures OnDisk(im.blocks, inos[k]) && im.nextb <= |im.blocks| < TWO32 && K.AllFull(im.blocks) && |bss| == |inos|
  {
    var ino := inos[k];
    assert Built(im, ino, first, bss[k]);
    assert ValidSlot(Ind) && ValidSlot(Ind2);
    assert Ptr(im.blocks, ino, Ind) == ino.indirect && Ptr(im.blocks, ino, Ind2) == ino.indirect2;
  }

  /** What storing the next block of inode `k` may rely on. */
  lemma ReadyToStore(im: Image, first: nat, inos: seq<Inode>, bss: seq<seq<nat>>, k: nat, data: Contents)
    requires Trees(im, first, inos, bss) && k < |inos| && im.nextb < |im.blocks| && Full(data)
    ensures var d := im.blocks[im.nextb := data];
      OnDisk(d, inos[k]) && Apart(d, inos[k], im.nextb + 1) && Foreign(d, inos[k], im.nextb + 1, im.nextb)
  {
    var im1 := Image(im.blocks[im.nextb := data], im.nextb + 1);
    TreesOnDisk(im, first, inos, bss, k);
    UnusedData(im, inos[k], first, bss[k], data);
    BuiltApart(im1, inos[k], first, bss[k]);
    BuiltLast(im1, inos[k], first, bss[k], im.nextb);
  }

  // ------------------------------------------------------ when there is room

  /** A directory block is due before every eighth file. */
  predicate DirDue(m: nat) { m % DIRENTRIES == 0 }

  function AfterDir(m: nat, nextb: nat): nat {
    if DirDue(m) then nextb + 1 + Taken(m / DIRENTRIES) else nextb
  }

  /** File `m` fits behind `nextb`, with its directory block if one is due and, when
      its last block is full, one block more. */
  predicate OneFits(host: seq<Contents>, partial: bool, m: nat, nextb: nat, nblocks: nat) {
    && (DirDue(m) ==> m / DIRENTRIES < MAXFILEBLKS)
    && |host| <= MAXFILEBLKS
    && AfterDir(m, nextb) + Cost(0, |host|) + (if partial && host != [] then 0 else 1) <= nblocks
  }

  predicate AllFit(hosts: seq<seq<Contents>>, partial: seq<bool>, m: nat, nextb: nat, nblocks: nat)
    requires m <= |hosts| == |partial|
    decreases |hosts| - m
  {
    m == |hosts|
    || (&& OneFits(hosts[m], partial[m], m, nextb, nblocks)
        && AllFit(hosts, partial, m + 1, AfterDir(m, nextb) + Cost(0, |hosts[m]|), nblocks))
  }

  /** `new_dirb` in `allocdirentry`: a cleared block becomes the next one of the
      directory; all file blocks there were hold what they held. */
  method AddDirBlock(f: Formatter, inos: seq<Inode>, k: nat, nblk: nat, ghost first: nat, ghost bss: seq<seq<nat>>)
    returns (r: Option<Inode>)
    requires f.Valid() && Trees(f.Img(), first, inos, bss) && k < |inos| && nblk == |bss[k]| && f.Only({})
    modifies f, f.cache, f.cache.cache, f.cache.disk
    ensures r.Some? <==> nblk < MAXFILEBLKS && old(f.nextb) + 1 + Taken(nblk) <= f.cache.disk.Length
    ensures r.Some? ==> f.Only({}) && f.nextb == old(f.nextb) + 1 + Taken(nblk)
    ensures r.Some? ==> f.Valid() && Trees(f.Img(), first, inos[k := r.value], bss[k := bss[k] + [old(f.nextb)]])
    ensures r.Some? ==> forall c :: 0 < c < first ==> f.cache.View()[c] == old(f.cache.View())[c]
    ensures r.Some? ==> DataKept(old(f.cache.View()), f.cache.View(), bss)
    ensures r.Some? ==> old(f.nextb) < |f.cache.View()| && f.cache.View()[old(f.nextb)] == Zeroed()
  {
    hide DataKept, Trees, Store, OnDisk, Apart, Foreign, Zeroed, Full, Proper, Formatter.Held, BlockCache.View, Sound;
    hide Formatter.Only;
    ghost var im := f.Img();
    TreesOnDisk(im, first, inos, bss, k);
    ZeroEntry(0);
    assert {} + {im.nextb} == {im.nextb};
    var slot := f.Hold(f.nextb, true, Dir, {});
    if slot == None {
      return None;
    }
    ghost var d := im.blocks[im.nextb := Zeroed()];
    ReadyToStore(im, first, inos, bss, k, Zeroed());
    DirBlockFits(im, first, inos, bss, k);
    assert f.cache.View() == d && d[f.nextb := Zeroed()] == d;
    r := f.FileBlock(inos[k], slot.value, Zeroed(), nblk);
    if r.Some? {
      DirBlockAdded(im, first, inos, bss, k, f.Img(), r.value);
    }
  }

  lemma DirBlockFits(im: Image, first: nat, inos: seq<Inode>, bss: seq<seq<nat>>, k: nat)
    requires Trees(im, first, inos, bss) && k < |inos| == |bss| && im.nextb < |im.blocks| && Full(Zeroed())
    requires OnDisk(im.blocks, inos[k])
    ensures var im1 := Image(im.blocks[im.nextb := Zeroed()], im.nextb + 1);
      && OnDisk(im1.blocks, inos[k]) && im.nextb < TWO32
      && var st := Store(im1, inos[k], im.nextb, |bss[k]|);
         && (st.Some? <==> |bss[k]| < MAXFILEBLKS && im1.nextb + Taken(|bss[k]|) <= |im.blocks|)
         && (st.Some? ==> st.value.0.nextb == im1.nextb + Taken(|bss[k]|))
  {
    assert Built(im, inos[k], first, bss[k]);
    TurnFits(im, inos[k], first, bss[k], Zeroed());
  }

  lemma DirBlockAdded(im: Image, first: nat, inos: seq<Inode>, bss: seq<seq<nat>>, k: nat, im': Image, ino': Inode)
    requires Trees(im, first, inos, bss) && k < |inos| == |bss| && im.nextb < |im.blocks| && Full(Zeroed())
    requires OnDisk(im.blocks[im.nextb := Zeroed()], inos[k]) && im.nextb < TWO32
    requires Store(Image(im.blocks[im.nextb := Zeroed()], im.nextb + 1), inos[k], im.nextb, |bss[k]|)
        == Some((im', ino'))
    ensures Trees(im', first, inos[k := ino'], bss[k := bss[k] + [im.nextb]])
    ensures |im'.blocks| == |im.blocks| && forall c :: 0 < c < first ==> im'.blocks[c] == im.blocks[c]
    ensures DataKept(im.blocks, im'.blocks, bss) && im'.blocks[im.nextb] == Zeroed()
  {
    hide DataKept, Trees, Store, OnDisk, Full, Zeroed;
    StoreInRange(Image(im.blocks[im.nextb := Zeroed()], im.nextb + 1), inos[k], im.nextb, |bss[k]|);
    assert Adds(im, inos[k], |bss[k]|, Zeroed(), im', ino');
    TreesGrow(im, first, inos, bss, k, Zeroed(), im', ino');
    AddsAbove(im, first, inos, bss, k, Zeroed(), im', ino');
    AddsKeeps(im, first, inos, bss, k, Zeroed(), im', ino');
  }

  /** `writefile` for a new inode: the tree of the new file leads to the host's
      blocks, in their order; all other file blocks hold what they held. */
  method AddFile(f: Formatter, inos: seq<Inode>, k: nat, host: seq<Contents>, partial: bool,
                 ghost first: nat, ghost bss: seq<seq<nat>>)
    returns (r: Option<Inode>, ghost bs: seq<nat>)
    requires f.Valid() && Trees(f.Img(), first, inos, bss) && k < |inos| && bss[k] == [] && inos[k] == EmptyInode()
    requires forall i :: 0 <= i < |host| ==> Full(host[i])
    requires f.Only({})
    modifies f, f.cache, f.cache.cache, f.cache.disk
    ensures r.Some? <==>
      && |host| <= MAXFILEBLKS
      && old(f.nextb) + Cost(0, |host|) + (if partial && host != [] then 0 else 1) <= f.cache.disk.Length
    ensures r.Some? ==> f.Only({}) && f.nextb == old(f.nextb) + Cost(0, |host|)
    ensures r.Some? ==> f.Valid() && |bs| == |host| && Trees(f.Img(), first, inos[k := r.value], bss[k := bs])
    ensures r.Some? ==> forall c :: 0 < c < first ==> f.cache.View()[c] == old(f.cache.View())[c]
    ensures r.Some? ==> Written(f.Img(), r.value, first, bs, host)
    ensures r.Some? ==> DataKept(old(f.cache.View()), f.cache.View(), bss)
  {
    ghost var im := f.Img();
    TreesOnDisk(im, first, inos, bss, k);
    FileFits(im, first, inos, bss, k, host, partial);
    hide Trees, Store, WriteFrom, Full, Written, WrittenSoFar, DataKept, Cost, Formatter.Only;
    r := f.WriteBlocks(host, partial);
    bs := [];
    if r.Some? {
      bs := FileWritten(im, first, inos, bss, k, host, partial);
      NewFile(im, first, inos, bss, k, host, f.Img(), r.value, bs);
    }
  }

  lemma FileFits(
      im: Image, first: nat, inos: seq<Inode>, bss: seq<seq<nat>>, k: nat, host: seq<Contents>, partial: bool)
    requires Trees(im, first, inos, bss) && k < |inos| == |bss| && bss[k] == [] && OnDisk(im.blocks, inos[k])
    requires forall i :: 0 <= i < |host| ==> Full(host[i])
    ensures var r := WriteFrom(im, inos[k], host, partial, 0);
      && (r.Some? <==>
            && |host| <= MAXFILEBLKS
            && im.nextb + Cost(0, |host|) + (if partial && host != [] then 0 else 1) <= |im.blocks|)
      && (r.Some? ==> r.value.0.nextb == im.nextb + Cost(0, |host|))
  {
    assert Built(im, inos[k], first, bss[k]);
    WriteFits(im, inos[k], first, bss[k], host, partial);
  }

  lemma NewFile(
      im: Image, first: nat, inos: seq<Inode>, bss: seq<seq<nat>>, k: nat, host: seq<Contents>,
      im': Image, ino': Inode, bs: seq<nat>)
    requires k < |inos| == |bss| && bss[k] == [] && |bs| == |host|
    requires WrittenSoFar(im, first, inos, bss, k, host, im', ino', bs)
    ensures Trees(im', first, inos[k := ino'], bss[k := bs]) && Written(im', ino', first, bs, host)
    ensures |im'.blocks| == |im.blocks| && forall c :: 0 < c < first ==> im'.blocks[c] == im.blocks[c]
    ensures DataKept(im.blocks, im'.blocks, bss) && Filled(im'.blocks, bs, host)
  {
    hide DataKept, NoneTwice, Built, OnDisk;
    assert Filled(im.blocks, bss[k], host[..0]);
    assert host[..|bs|] == host;
    assert inos[k := ino'][k] == ino' && bss[k := bs][k] == bs;
  }

  lemma SameMap(d: Disk, d': Disk, nbitblock: nat)
    requires HasMap(d, nbitblock) && |d'| == |d|
    requires forall c :: FREEMAP_BLK <= c < FREEMAP_BLK + nbitblock ==> d'[c] == d[c]
    ensures HasMap(d', nbitblock)
    ensures forall i: nat :: i < nbitblock * BLKBITSIZE ==> (MapBit(d', i) <==> MapBit(d, i))
  {
  }

  lemma StartsHalf(im: Image, hosts: seq<seq<Contents>>, ninodes: nat)
    requires 0 < im.nextb <= |im.blocks| < TWO32 && K.AllFull(im.blocks) && |hosts| + 2 <= ninodes
    ensures Half(im, im.nextb, seq(ninodes, _ => EmptyInode()), seq(ninodes, _ => []), hosts, 0)
  {
    NoTrees(im, ninodes);
  }

  lemma DirBlocks(m: nat)
    ensures DirDue(m) ==> (m + DIRENTRIES - 1) / DIRENTRIES == m / DIRENTRIES
    ensures (m + 1 + DIRENTRIES - 1) / DIRENTRIES
         == (m + DIRENTRIES - 1) / DIRENTRIES + if m % DIRENTRIES == 0 then 1 else 0
  {
  }

  /** One file, with a new directory block first when the last one is full. */
  method OneFile(f: Formatter, inos: seq<Inode>, hosts: seq<seq<Contents>>, m: nat, partial: bool,
                 ghost first: nat, ghost bss: seq<seq<nat>>)
    returns (ok: bool, inos': seq<Inode>, ghost bss': seq<seq<nat>>)
    requires f.Valid() && m < |hosts| && Half(f.Img(), first, inos, bss, hosts, m) && f.Only({})
    requires forall i :: 0 <= i < |hosts[m]| ==> Full(hosts[m][i])
    modifies f, f.cache, f.cache.cache, f.cache.disk
    ensures ok <==> OneFits(hosts[m], partial, m, old(f.nextb), f.cache.disk.Length)
    ensures ok ==> f.Only({}) && f.nextb == AfterDir(m, old(f.nextb)) + Cost(0, |hosts[m]|)
    ensures ok ==> f.Valid() && |inos'| == |inos| && Half(f.Img(), first, inos', bss', hosts, m + 1)
    ensures ok ==> forall c :: 0 < c < first ==> f.cache.View()[c] == old(f.cache.View())[c]
  {
    hide Full, Trees, Formatter.Valid, DataKept, FirstFilled, Built, Zeroed, Formatter.Only, Cost, Taken;
    ghost var d := f.cache.View();
    DirBlocks(m);
    HalfLengths(f.Img(), first, inos, bss, hosts, m);
    inos', bss' := inos, bss;
    if m % DIRENTRIES == 0 {
      ghost var b := f.nextb;
      var dir := AddDirBlock(f, inos, ROOT_INO, (m + DIRENTRIES - 1) / DIRENTRIES, first, bss);
      if dir == None {
        return false, inos, bss;
      }
      inos', bss' := inos[ROOT_INO := dir.value], bss[ROOT_INO := bss[ROOT_INO] + [b]];
      FirstFilledStill(d, f.cache.View(), bss, bss', hosts, m);
    }
    ghost var d1, bss1 := f.cache.View(), bss';
    ghost var bs;
    var r;
    r, bs := AddFile(f, inos', m + 2, hosts[m], partial, first, bss');
    if r == None {
      return false, inos, bss;
    }
    inos', bss' := inos'[m + 2 := r.value], bss'[m + 2 := bs];
    FirstFilledStill(d1, f.cache.View(), bss1, bss', hosts, m);
    NextFilled(f.Img(), r.value, first, bss', hosts, m);
    ok := true;
  }

  lemma NextFilled(im: Image, ino: Inode, first: nat, bss: seq<seq<nat>>, hosts: seq<seq<Contents>>, m: nat)
    requires m < |hosts| && |hosts| + 2 <= |bss| && FirstFilled(im.blocks, bss, hosts, m)
    requires |bss[m + 2]| == |hosts[m]| && Written(im, ino, first, bss[m + 2], hosts[m])
    ensures FirstFilled(im.blocks, bss, hosts, m + 1)
  {
    hide Built;
    assert Filled(im.blocks, bss[m + 2], hosts[m]);
  }

  lemma HalfLengths(im: Image, first: nat, inos: seq<Inode>, bss: seq<seq<nat>>, hosts: seq<seq<Contents>>, m: nat)
    requires Half(im, first, inos, bss, hosts, m)
    ensures |bss| == |inos|
  {
  }

  /** The loop over the arguments. */
  method AllFiles(f: Formatter, ninodes: nat, hosts: seq<seq<Contents>>, partial: seq<bool>)
    returns (ok: bool, inos: seq<Inode>, ghost bss: seq<seq<nat>>)
    requires f.Valid() && f.Only({}) && |hosts| + 2 <= ninodes && |partial| == |hosts|
    requires f.nextb <= f.cache.disk.Length < TWO32 && K.AllFull(f.cache.View())
    requires forall m, i :: 0 <= m < |hosts| && 0 <= i < |hosts[m]| ==> Full(hosts[m][i])
    modifies f, f.cache, f.cache.cache, f.cache.disk
    ensures ok <==> AllFit(hosts, partial, 0, old(f.nextb), f.cache.disk.Length)
    ensures ok ==> f.Valid() && f.Only({}) && |inos| == ninodes
    ensures ok ==> Half(f.Img(), old(f.nextb), inos, bss, hosts, |hosts|)
    ensures ok ==> forall c :: 0 < c < old(f.nextb) ==> f.cache.View()[c] == old(f.cache.View())[c]
  {
    hide Full, Zeroed, Half, Formatter.Only, OneFits, AfterDir, Cost;
    ghost var first, nblocks, before := f.nextb, f.cache.disk.Length, f.cache.View();
    inos := seq(ninodes, _ => EmptyInode());
    bss := seq(ninodes, _ => []);
    StartsHalf(f.Img(), hosts, ninodes);
    var m := 0;
    while m < |hosts|
      invariant m <= |hosts| && |inos| == ninodes && f.Valid() && f.Only({})
      invariant AllFit(hosts, partial, 0, first, nblocks) == AllFit(hosts, partial, m, f.nextb, nblocks)
      invariant Half(f.Img(), first, inos, bss, hosts, m)
      invariant forall c :: 0 < c < first ==> f.cache.View()[c] == before[c]
    {
      ok, inos, bss := OneFile(f, inos, hosts, m, partial[m], first, bss);
      if !ok {
        return;
      }
      m := m + 1;
    }
    ok := true;
  }

  /** From the arguments to the disk: a file for every host file, in that order,
      all names in the root directory.  It goes through exactly when there are
      blocks for the bitmap, the inode table and all files. */
  method Format(f: Formatter, ninodes: nat, hosts: seq<seq<Contents>>, partial: seq<bool>, super: Contents)
    returns (ok: bool, inos: seq<Inode>)
    requires f.cache.Valid() && 2 <= f.cache.disk.Length < TWO32 && 2 <= ninodes && |hosts| + 2 <= ninodes
    requires forall b :: 0 <= b < f.cache.disk.Length ==> f.cache.View()[b] == Zeroed()
    requires |partial| == |hosts| && Full(super) && f.Only({})
    requires forall m, i :: 0 <= m < |hosts| && 0 <= i < |hosts[m]| ==> Full(hosts[m][i])
    modifies f, f.cache, f.cache.cache, f.cache.disk
    ensures ok <==>
      var l := LayoutOf(f.cache.disk.Length, ninodes);
      l.FirstData() <= l.nblocks && AllFit(hosts, partial, 0, l.FirstData(), l.nblocks)
    ensures ok ==> FormattedWell(LayoutOf(f.cache.disk.Length, ninodes), f.cache.disk[..], inos, hosts)
  {
    hide Full, Zeroed, Half, MapBit, HasMap, LenAfter, Formatter.Only, AllFit;
    ZeroEntry(0);
    ok := f.OpenDisk(ninodes);
    inos := [];
    if !ok {
      return;
    }
    ghost var l, empty := LayoutOf(f.cache.disk.Length, ninodes), f.cache.View();
    ghost var bss;
    ok, inos, bss := AllFiles(f, ninodes, hosts, partial);
    if !ok {
      return;
    }
    ghost var im := f.Img();
    SameMap(empty, f.cache.View(), BitBlocks(f.cache.disk.Length));
    HalfBounds(im, l.FirstData(), inos, bss, hosts, |hosts|);
    ok := f.FinishFs(super);
    FinishedWell(l, im, f.cache.View(), inos, bss, hosts, super);
    f.cache.FlushDisk();
  }

  lemma HalfBounds(im: Image, first: nat, inos: seq<Inode>, bss: seq<seq<nat>>, hosts: seq<seq<Contents>>, m: nat)
    requires Half(im, first, inos, bss, hosts, m)
    ensures first <= im.nextb <= |im.blocks| && K.AllFull(im.blocks)
  {
    TreesOnDisk(im, first, inos, bss, 0);
  }

  function LensOf(hosts: seq<seq<Contents>>, ninodes: nat): seq<nat> {
    seq(ninodes, k requires k >= 0 => LenAfter(hosts, |hosts|, k))
  }

  /** The look-up of file block `n` leads to a block that holds `c`. */
  ghost predicate FoundAt(d: Disk, ino: Inode, n: nat, c: Contents) {
    Proper(d, ino) && n < MAXFILEBLKS && Lookup(d, ino, n) < |d| && d[Lookup(d, ino, n)] == c
  }

  /** Every block of every host file is found in its place. */
  ghost predicate HostsFound(d: Disk, inos: seq<Inode>, hosts: seq<seq<Contents>>)
    requires |hosts| + 2 <= |inos|
  {
    forall m: nat, n: nat :: m < |hosts| && n < |hosts[m]| ==> FoundAt(d, inos[m + 2], n, hosts[m][n])
  }

  /** What the kernel module finds: every host file's blocks in their places; and with
      any inode table that has these pointers and sizes to match, every host file's
      bytes, on a volume that is in order unless the disk is as good as empty and
      `free_block` refuses its first block. */
  ghost predicate FormattedWell(l: Layout, d: Disk, inos: seq<Inode>, hosts: seq<seq<Contents>>) {
    && l.Valid() && |d| == l.nblocks && |inos| == l.ninodes
    && K.AllFull(d) && K.HasBitmap(d) && |hosts| + 2 <= |inos| && HostsFound(d, inos, hosts)
    && forall inodes {:trigger K.Describes(inodes, inos, LensOf(hosts, l.ninodes))} ::
         K.Describes(inodes, inos, LensOf(hosts, l.ninodes)) ==>
           && (V.Tight(l, K.KernelVolume(d, inodes))
               <==> hosts != [] || l.ninodes % BLKINODES != 0 || l.FirstData() == l.nblocks)
           && ReadByKernel(d, inodes, hosts)
  }

  /** The kernel module reads every host file, byte for byte. */
  ghost predicate ReadByKernel(d: Disk, inodes: seq<D.Inode>, hosts: seq<seq<Contents>>)
    requires K.AllFull(d) && K.HasBitmap(d) && K.M.ValidInodes(inodes) && |hosts| + 2 <= |inodes|
  {
    forall m: nat :: m < |hosts| && !inodes[m + 2].ftype.Symlink? ==> K.Reads(d, inodes, m + 2, hosts[m])
  }

  /** After `finishfs`. */
  lemma FinishedWell(
      l: Layout, im: Image, d: Disk, inos: seq<Inode>, bss: seq<seq<nat>>, hosts: seq<seq<Contents>>, super: Contents)
    requires l.ninodes == |inos| && l == LayoutOf(|d|, l.ninodes) && 2 <= |d| && l.ninodes >= 2
    requires Half(im, l.FirstData(), inos, bss, hosts, |hosts|) && |d| == |im.blocks|
    requires HasMap(d, BitBlocks(|d|))
    requires forall i: nat :: i < BitBlocks(|d|) * BLKBITSIZE ==> (MapBit(d, i) <==> im.nextb <= i < |d|)
    requires d[1] == super && Full(super)
    requires forall b :: 0 <= b < |d| && OffMap(b, BitBlocks(|d|)) ==> d[b] == im.blocks[b]
    ensures FormattedWell(l, d, inos, hosts)
  {
    var im' := im.(blocks := d);
    TreesOnDisk(im, l.FirstData(), inos, bss, 0);
    EveryFull(im.blocks, d, super);
    TreesSeenAgain(im, l.FirstData(), inos, bss, d);
    assert K.Lens(bss) == LensOf(hosts, l.ninodes);
    TakenIff(im, l.FirstData(), inos, bss);
    AnyBlocks(hosts, bss, l.ninodes);
    assert K.Finished(l, d, im');
    AboveKept(im, l.FirstData(), inos, bss, d);
    FirstFilledStill(im.blocks, d, bss, bss, hosts, |hosts|);
    hide Trees, K.Finished, Full, MapBit, HasMap, FirstFilled, HostsFound, ReadByKernel;
    AllFound(im', l.FirstData(), inos, bss, hosts);
    forall inodes | K.Describes(inodes, inos, LensOf(hosts, l.ninodes))
      ensures V.Tight(l, K.KernelVolume(d, inodes))
         <==> hosts != [] || l.ninodes % BLKINODES != 0 || l.FirstData() == l.nblocks
      ensures ReadByKernel(d, inodes, hosts)
    {
      K.ImageInOrder(l, d, inodes, im', inos, bss);
      AllRead(l, d, inodes, im', inos, bss, hosts);
    }
  }

  /** What `finishfs` writes is below all trees. */
  lemma AboveKept(im: Image, first: nat, inos: seq<Inode>, bss: seq<seq<nat>>, d: Disk)
    requires Trees(im, first, inos, bss) && |d| == |im.blocks|
    requires forall b :: first <= b < |d| ==> d[b] == im.blocks[b]
    ensures DataKept(im.blocks, d, bss)
  {
    forall j: nat, i: nat | j < |bss| && i < |bss[j]|
      ensures SameBlock(im.blocks, d, bss[j][i])
    {
      BuiltBounds(im, inos[j], first, bss[j]);
    }
  }

  lemma AllFound(im: Image, first: nat, inos: seq<Inode>, bss: seq<seq<nat>>, hosts: seq<seq<Contents>>)
    requires Trees(im, first, inos, bss) && |hosts| + 2 <= |inos| == |bss|
    requires FirstFilled(im.blocks, bss, hosts, |hosts|)
    ensures HostsFound(im.blocks, inos, hosts)
  {
    forall m: nat, n: nat | m < |hosts| && n < |hosts[m]|
      ensures FoundAt(im.blocks, inos[m + 2], n, hosts[m][n])
    {
      assert Filled(im.blocks, bss[m + 2], hosts[m]);
      assert Built(im, inos[m + 2], first, bss[m + 2]);
      LookupIsPtr(im.blocks, inos[m + 2], n);
    }
  }

  lemma AllRead(
      l: Layout, d: Disk, inodes: seq<D.Inode>, im: Image, inos: seq<Inode>, bss: seq<seq<nat>>,
      hosts: seq<seq<Contents>>)
    requires K.Finished(l, d, im) && Trees(im, l.FirstData(), inos, bss) && K.Describes(inodes, inos, K.Lens(bss))
    requires |hosts| + 2 <= |inos| == |bss| && FirstFilled(d, bss, hosts, |hosts|)
    ensures ReadByKernel(d, inodes, hosts)
  {
    hide Trees, K.Reads;
    forall m: nat | m < |hosts| && !inodes[m + 2].ftype.Symlink?
      ensures K.Reads(d, inodes, m + 2, hosts[m])
    {
      assert Filled(d, bss[m + 2], hosts[m]);
      K.ReadsBack(l, d, inodes, im, inos, bss, m + 2, hosts[m]);
    }
  }

  lemma EveryFull(before: Disk, d: Disk, super: Contents)
    requires K.AllFull(before) && |d| == |before| && 2 <= |d|
    requires HasMap(d, BitBlocks(|d|)) && d[1] == super && Full(super)
    requires forall b :: 0 <= b < |d| && OffMap(b, BitBlocks(|d|)) ==> d[b] == before[b]
    ensures K.AllFull(d)
  {
    forall b | 0 <= b < |d|
      ensures Full(d[b])
    {
      if b == 1 || OffMap(b, BitBlocks(|d|)) {
      } else {
        assert FREEMAP_BLK <= b < FREEMAP_BLK + BitBlocks(|d|);
      }
    }
  }

  /** The first name costs a directory block. */
  lemma AnyBlocks(hosts: seq<seq<Contents>>, bss: seq<seq<nat>>, ninodes: nat)
    requires |bss| == ninodes && |hosts| + 2 <= ninodes
    requires forall k: nat :: k < ninodes ==> |bss[k]| == LenAfter(hosts, |hosts|, k)
    ensures (exists k :: 0 <= k < |bss| && bss[k] != []) <==> hosts != []
  {
    if hosts != [] {
      assert bss[ROOT_INO] != [];
    }
  }
}
