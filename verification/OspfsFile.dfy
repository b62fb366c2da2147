/** `ospfs_inode_blockno`, `ospfs_read` and `ospfs_write`: the walk from block to
    block refines reads and writes of one byte array per file. */
module OspfsFile {
  import opened OspfsLayout
  import opened OspfsVolume
  import opened OspfsDisk
  import opened OspfsSafety
  import opened OspfsExact
  import opened OspfsGrow
  import opened OspfsContents
  import opened OspfsModule

  // ----------------------------------------------------------- byte arrays

  /** Every file block has its data block on the disk. */
  ghost predicate Backed(v: Volume, disk: seq<Block>, i: nat) {
    && i < |v.files| && NBlocks(v, i) <= MAXFILEBLKS
    && forall k :: 0 <= k < NBlocks(v, i) ==>
         DataSlot(k) in v.files[i].ptrs && v.files[i].ptrs[DataSlot(k)] < |disk|
  }

  ghost function ByteAt(v: Volume, disk: seq<Block>, i: nat, pos: nat): Byte
    requires Backed(v, disk, i) && pos < BLKSIZE * NBlocks(v, i)
  {
    disk[v.files[i].ptrs[DataSlot(pos / BLKSIZE)]][pos % BLKSIZE]
  }

  /** The bytes in all blocks of file `i`; the first `oi_size` are the file. */
  ghost function Contents(v: Volume, disk: seq<Block>, i: nat): (c: seq<Byte>)
    requires Backed(v, disk, i)
    ensures |c| == BLKSIZE * NBlocks(v, i)
    ensures forall pos :: 0 <= pos < |c| ==> c[pos] == ByteAt(v, disk, i, pos)
  {
    seq(BLKSIZE * NBlocks(v, i), pos requires 0 <= pos < BLKSIZE * NBlocks(v, i) => ByteAt(v, disk, i, pos))
  }

  function Overlay(c: seq<Byte>, pos: nat, data: seq<Byte>): seq<Byte>
    requires pos + |data| <= |c|
  {
    c[..pos] + data + c[pos + |data|..]
  }

  function Zeros(n: nat): seq<Byte> {
    seq(n, _ => 0 as Byte)
  }

  lemma GoodIsBacked(l: Layout, v: Volume, disk: seq<Block>, i: nat)
    requires GoodFile(l, v, i) && |disk| == l.nblocks
    ensures Backed(v, disk, i)
  {
    forall k: nat | k < NBlocks(v, i)
      ensures DataSlot(k) in v.files[i].ptrs && v.files[i].ptrs[DataSlot(k)] < |disk|
    {
      NeededData(k, NBlocks(v, i));
      assert HasPtr(v, i, DataSlot(k)) && PtrOk(l, v, i, DataSlot(k));
    }
  }

  // ----------------------------------------------------------- the look-up

  /** `((uint32_t *) ospfs_block(b))[k]`. */
  function WordOf(disk: seq<Block>, b: nat, k: nat): uint32
    requires b < |disk| && k < NINDIRECT
  {
    Word(disk[b], k)
  }

  /** All block numbers a look-up may follow stay on the disk. */
  ghost predicate PointersInRange(ino: Inode, disk: seq<Block>) {
    && ValidInode(ino) && 0 < |disk| && Blank(disk[0])
    && forall s :: ValidSlot(s) ==> PtrAt(ino, disk, s) < |disk|
  }

  lemma LookupWords(ino: Inode, disk: seq<Block>, b: nat)
    requires PointersInRange(ino, disk) && b < MAXFILEBLKS
    ensures ino.indirect < |disk| && ino.indirect2 < |disk|
    ensures b >= NDIRECT + NINDIRECT ==>
              var off := b - (NDIRECT + NINDIRECT);
              && WordOf(disk, ino.indirect2, off / NINDIRECT) < |disk|
              && WordOf(disk, WordOf(disk, ino.indirect2, off / NINDIRECT), off % NINDIRECT)
                == PtrAt(ino, disk, DataSlot(b))
    ensures NDIRECT <= b < NDIRECT + NINDIRECT ==>
              WordOf(disk, ino.indirect, b - NDIRECT) == PtrAt(ino, disk, DataSlot(b))
  {
    assert PtrAt(ino, disk, Ind) < |disk|;
    assert PtrAt(ino, disk, Ind2) < |disk|;
    if b >= NDIRECT + NINDIRECT {
      var off := b - (NDIRECT + NINDIRECT);
      assert PtrAt(ino, disk, Und(off / NINDIRECT)) < |disk|;
      assert WordOf(disk, ino.indirect2, off / NINDIRECT) == PtrAt(ino, disk, Und(off / NINDIRECT));
    }
  }

  /** `ospfs_inode_blockno`: also defined when a tree lacks the blocks that the
      size calls for; it then reads block numbers out of block 0. */
  function InodeBlockno(ino: Inode, disk: seq<Block>, offset: uint32): (r: nat)
    requires PointersInRange(ino, disk) && ino.size <= MAXFILEBLKS * BLKSIZE
    ensures r == if offset >= ino.size || ino.ftype.Symlink? then 0 else PtrAt(ino, disk, DataSlot(offset / BLKSIZE))
  {
    var blockno := offset / BLKSIZE;
    if offset >= ino.size || ino.ftype.Symlink? then 0
    else
      LookupWords(ino, disk, blockno);
      if blockno >= NDIRECT + NINDIRECT then
        var blockoff := blockno - (NDIRECT + NINDIRECT);
        var indirect_block := WordOf(disk, ino.indirect2, blockoff / NINDIRECT);
        WordOf(disk, indirect_block, blockoff % NINDIRECT)
      else if blockno >= NDIRECT then WordOf(disk, ino.indirect, blockno - NDIRECT)
      else ino.direct[blockno]
  }

  lemma SoundPointersInRange(fs: Ospfs, i: nat)
    requires fs.Valid() && IsFile(fs.View(), i)
    ensures PointersInRange(fs.inodes[i], fs.disk[..])
    ensures fs.View().files[i].size == fs.inodes[i].size && !fs.inodes[i].ftype.Symlink?
    ensures forall s :: ValidSlot(s) ==> PtrOr0(fs.View().files[i].ptrs, s) == PtrAt(fs.inodes[i], fs.disk[..], s)
  {
    var v := fs.View();
    forall s | ValidSlot(s)
      ensures PtrAt(fs.inodes[i], fs.disk[..], s) < fs.disk.Length
      ensures PtrOr0(v.files[i].ptrs, s) == PtrAt(fs.inodes[i], fs.disk[..], s)
    {
      assert s in v.files[i].ptrs <==> PtrAt(fs.inodes[i], fs.disk[..], s) != 0;
      if s in v.files[i].ptrs {
        assert HasPtr(v, i, s) && PtrOk(fs.layout, v, i, s);
      }
    }
  }

  /** The block for that offset is there. */
  predicate HasByte(v: Volume, i: nat, pos: nat) {
    i < |v.files| && pos / BLKSIZE < MAXFILEBLKS && DataSlot(pos / BLKSIZE) in v.files[i].ptrs
  }

  /** All blocks for the bytes from `pos` up to `end` are there. */
  ghost predicate HasBytes(v: Volume, i: nat, pos: nat, end: nat) {
    forall p: nat :: pos <= p < end ==> HasByte(v, i, p)
  }

  lemma HasBytesOn(v: Volume, i: nat, pos: nat, p: nat, n: nat)
    requires HasBytes(v, i, pos, p) && HasByte(v, i, p) && p % BLKSIZE + n <= BLKSIZE
    ensures HasBytes(v, i, pos, p + n)
  {
    forall q: nat | p <= q < p + n
      ensures HasByte(v, i, q)
    {
      assert q / BLKSIZE == p / BLKSIZE;
    }
  }

  lemma BackedHasBytes(v: Volume, disk: seq<Block>, i: nat, pos: nat, end: nat)
    requires Backed(v, disk, i) && end <= BLKSIZE * NBlocks(v, i)
    ensures HasBytes(v, i, pos, end)
  {
    forall p: nat | pos <= p < end
      ensures HasByte(v, i, p)
    {
      assert p / BLKSIZE < NBlocks(v, i);
    }
  }

  /** Where the first byte without a block is, from `pos` on and before `end`. */
  ghost function FirstMissing(v: Volume, i: nat, pos: nat, end: nat): (r: nat)
    requires pos <= end
    ensures pos <= r <= end && HasBytes(v, i, pos, r)
    ensures r < end ==> !HasByte(v, i, r)
    ensures r == end <==> HasBytes(v, i, pos, end)
    decreases end - pos
  {
    if pos == end || !HasByte(v, i, pos) then pos else FirstMissing(v, i, pos + 1, end)
  }

  lemma FirstMissingIs(v: Volume, i: nat, pos: nat, r: nat, end: nat)
    requires pos <= r <= end && HasBytes(v, i, pos, r) && (r < end ==> !HasByte(v, i, r))
    ensures FirstMissing(v, i, pos, end) == r
  {
  }

  /** The place on the disk of one byte of a file. */
  ghost predicate IsAt(v: Volume, i: nat, pos: nat, b: nat, o: nat) {
    HasByte(v, i, pos) && b == v.files[i].ptrs[DataSlot(pos / BLKSIZE)] && o == pos % BLKSIZE
  }

  /** The blocks of file `i` hold `data` from offset `pos` on. */
  ghost predicate BytesAt(v: Volume, disk: seq<Block>, i: nat, pos: nat, data: seq<Byte>) {
    forall q: nat :: q < |data| ==> ByteIsAt(v, disk, i, pos + q, data[q])
  }

  ghost predicate ByteIsAt(v: Volume, disk: seq<Block>, i: nat, pos: nat, c: Byte) {
    && HasByte(v, i, pos)
    && v.files[i].ptrs[DataSlot(pos / BLKSIZE)] < |disk|
    && disk[v.files[i].ptrs[DataSlot(pos / BLKSIZE)]][pos % BLKSIZE] == c
  }

  /** In a file that has all its blocks, that is a slice of its contents. */
  lemma BytesAreSlice(v: Volume, disk: seq<Block>, i: nat, pos: nat, data: seq<Byte>)
    requires Backed(v, disk, i) && pos + |data| <= BLKSIZE * NBlocks(v, i)
    requires BytesAt(v, disk, i, pos, data)
    ensures data == Contents(v, disk, i)[pos..pos + |data|]
  {
    hide Backed, HasByte;
    var c := Contents(v, disk, i);
    forall q: nat | q < |data|
      ensures data[q] == c[pos + q]
    {
      assert ByteIsAt(v, disk, i, pos + q, data[q]);
    }
    assert data == c[pos..pos + |data|];
  }

  /** One chunk more, out of one block. */
  lemma BytesOn(v: Volume, disk: seq<Block>, i: nat, pos: nat, data: seq<Byte>, n: nat)
    requires BytesAt(v, disk, i, pos, data) && HasByte(v, i, pos + |data|)
    requires (pos + |data|) % BLKSIZE + n <= BLKSIZE && v.files[i].ptrs[DataSlot((pos + |data|) / BLKSIZE)] < |disk|
    ensures var p := pos + |data|;
            var b := disk[v.files[i].ptrs[DataSlot(p / BLKSIZE)]];
            BytesAt(v, disk, i, pos, data + b[p % BLKSIZE..p % BLKSIZE + n])
  {
    var p := pos + |data|;
    var chunk := disk[v.files[i].ptrs[DataSlot(p / BLKSIZE)]][p % BLKSIZE..p % BLKSIZE + n];
    forall q: nat | q < |data + chunk|
      ensures ByteIsAt(v, disk, i, pos + q, (data + chunk)[q])
    {
      if q < |data| {
        assert ByteIsAt(v, disk, i, pos + q, data[q]);
      } else {
        var k := q - |data|;
        assert (p + k) / BLKSIZE == p / BLKSIZE && (p + k) % BLKSIZE == p % BLKSIZE + k;
      }
    }
  }

  const EIO: int := 5

  function Min(a: nat, b: nat): nat {
    if a < b then a else b
  }

  /** `count = oi->oi_size - *f_pos` when the range passes the end; behind the end
      the 32-bit difference wraps and asks for nearly everything. */
  function CountToEnd(size: uint32, count: uint32, f_pos: uint32): (r: uint32)
    ensures f_pos <= size ==> r == Min(count, size - f_pos)
    ensures f_pos > size ==> r > 0
  {
    if f_pos + count > size then (size - f_pos) % TWO32 else count
  }

  /** `ospfs_read`: `retval` is the number of bytes or minus the error; `data`
      is what was copied out, up to the first block that is missing. */
  method Read(fs: Ospfs, i: nat, count0: uint32, f_pos0: uint32) returns (retval: int, data: seq<Byte>)
    requires fs.Valid() && IsFile(fs.View(), i) && fs.inodes[i].size <= MAXFILEBLKS * BLKSIZE
    ensures f_pos0 > fs.inodes[i].size ==> retval == -EIO && data == []
    ensures f_pos0 <= fs.inodes[i].size ==>
              var end := f_pos0 + Min(count0, fs.inodes[i].size - f_pos0);
              && retval == (if HasBytes(fs.View(), i, f_pos0, end) then end - f_pos0 else -EIO)
              && |data| == FirstMissing(fs.View(), i, f_pos0, end) - f_pos0
              && BytesAt(fs.View(), fs.disk[..], i, f_pos0, data)
    ensures f_pos0 <= fs.inodes[i].size && Backed(fs.View(), fs.disk[..], i) ==>
              && retval == Min(count0, fs.inodes[i].size - f_pos0)
              && fs.inodes[i].size <= BLKSIZE * NBlocks(fs.View(), i)
              && data == Contents(fs.View(), fs.disk[..], i)[f_pos0..f_pos0 + retval]
  {
    hide Contents, InodeBlockno, Backed, PointersInRange, Size2NBlocks,
        Sound, Ospfs.View, ValidInode, DataSlot, CountToEnd, HasByte, HasBytes, BytesAt, FirstMissing;
    SoundPointersInRange(fs, i);
    var size := fs.inodes[i].size;
    var count, f_pos := CountToEnd(size, count0, f_pos0), f_pos0;
    ghost var v, disk := fs.View(), fs.disk[..];
    var amount := 0;
    data := [];
    NothingYet(v, disk, i, f_pos0);
    while amount < count
      invariant amount <= count && |data| == amount
      invariant f_pos0 <= size ==> f_pos == f_pos0 + amount && f_pos0 + count <= size
      invariant f_pos0 > size ==> f_pos == f_pos0 && amount == 0 < count
      invariant HasBytes(v, i, f_pos0, f_pos0 + amount) && BytesAt(v, disk, i, f_pos0, data)
    {
      LookupToRead(fs, i, f_pos);
      var blockno := InodeBlockno(fs.inodes[i], fs.disk[..], f_pos);
      if blockno == 0 {
        if f_pos0 <= size {
          ReadEnds(v, disk, i, f_pos0, f_pos0 + count, data, size);
        }
        return -EIO, data;
      }
      var block_offset := f_pos % BLKSIZE;
      var n := Min(BLKSIZE - block_offset, count - amount);
      var chunk := fs.disk[blockno][block_offset..block_offset + n];
      HasBytesOn(v, i, f_pos0, f_pos, n);
      BytesOn(v, disk, i, f_pos0, data, n);
      data := data + chunk;
      amount := amount + n;
      f_pos := f_pos + n;
    }
    if f_pos0 <= size {
      ReadEnds(v, disk, i, f_pos0, f_pos0 + count, data, size);
    }
    return amount, data;
  }

  lemma NothingYet(v: Volume, disk: seq<Block>, i: nat, pos: nat)
    ensures HasBytes(v, i, pos, pos) && BytesAt(v, disk, i, pos, [])
  {
  }

  /** Where reading ends, and what has been read by then. */
  lemma ReadEnds(v: Volume, disk: seq<Block>, i: nat, pos: nat, end: nat, data: seq<Byte>, size: uint32)
    requires pos + |data| <= end <= size <= MAXFILEBLKS * BLKSIZE && i < |v.files| && v.files[i].size == size
    requires HasBytes(v, i, pos, pos + |data|) && BytesAt(v, disk, i, pos, data)
    requires pos + |data| < end ==> !HasByte(v, i, pos + |data|)
    ensures FirstMissing(v, i, pos, end) == pos + |data|
    ensures HasBytes(v, i, pos, end) <==> pos + |data| == end
    ensures Backed(v, disk, i) ==>
              && pos + |data| == end && size <= BLKSIZE * NBlocks(v, i)
              && data == Contents(v, disk, i)[pos..pos + |data|]
  {
    hide Backed, Contents, HasByte, HasBytes, BytesAt, Size2NBlocks;
    FirstMissingIs(v, i, pos, pos + |data|, end);
    if Backed(v, disk, i) {
      SizeFits(size);
      BackedHasBytes(v, disk, i, pos, end);
      BytesAreSlice(v, disk, i, pos, data);
    }
  }

  /** What reading needs to know of the look-up. */
  lemma LookupToRead(fs: Ospfs, i: nat, pos: uint32)
    requires fs.Valid() && IsFile(fs.View(), i) && fs.inodes[i].size <= MAXFILEBLKS * BLKSIZE
    ensures PointersInRange(fs.inodes[i], fs.disk[..])
    ensures InodeBlockno(fs.inodes[i], fs.disk[..], pos) < fs.disk.Length
    ensures pos >= fs.inodes[i].size ==> InodeBlockno(fs.inodes[i], fs.disk[..], pos) == 0
    ensures pos < fs.inodes[i].size ==>
        (InodeBlockno(fs.inodes[i], fs.disk[..], pos) != 0 <==> HasByte(fs.View(), i, pos))
    ensures InodeBlockno(fs.inodes[i], fs.disk[..], pos) != 0 ==>
              && HasByte(fs.View(), i, pos)
              && InodeBlockno(fs.inodes[i], fs.disk[..], pos) == fs.View().files[i].ptrs[DataSlot(pos / BLKSIZE)]
  {
    hide Sound, Backed, InodeBlockno, PointersInRange, Ospfs.View;
    LookupInRange(fs, i, pos);
  }

  lemma SizeFits(size: uint32)
    requires size <= MAXFILEBLKS * BLKSIZE
    ensures size <= BLKSIZE * Size2NBlocks(size)
  {
  }

  /** Inside a file the look-up finds the data block exactly when the tree has it;
      behind the end it finds nothing. */
  lemma LookupInRange(fs: Ospfs, i: nat, pos: uint32)
    requires fs.Valid() && IsFile(fs.View(), i) && fs.inodes[i].size <= MAXFILEBLKS * BLKSIZE
    ensures PointersInRange(fs.inodes[i], fs.disk[..])
    ensures InodeBlockno(fs.inodes[i], fs.disk[..], pos) < fs.disk.Length
    ensures pos >= fs.inodes[i].size ==> InodeBlockno(fs.inodes[i], fs.disk[..], pos) == 0
    ensures pos < fs.inodes[i].size && Backed(fs.View(), fs.disk[..], i) ==>
              && pos < BLKSIZE * NBlocks(fs.View(), i)
              && InodeBlockno(fs.inodes[i], fs.disk[..], pos) == fs.View().files[i].ptrs[DataSlot(pos / BLKSIZE)] != 0
    ensures pos < fs.inodes[i].size ==>
        (InodeBlockno(fs.inodes[i], fs.disk[..], pos) != 0 <==> HasByte(fs.View(), i, pos))
    ensures InodeBlockno(fs.inodes[i], fs.disk[..], pos) != 0 ==>
              && pos / BLKSIZE < MAXFILEBLKS && HasPtr(fs.View(), i, DataSlot(pos / BLKSIZE))
              && InodeBlockno(fs.inodes[i], fs.disk[..], pos) == fs.View().files[i].ptrs[DataSlot(pos / BLKSIZE)]
  {
    SoundPointersInRange(fs, i);
    SizeFits(fs.inodes[i].size);
    if pos < fs.inodes[i].size {
      var s := DataSlot(pos / BLKSIZE);
      assert PtrOr0(fs.View().files[i].ptrs, s) == PtrAt(fs.inodes[i], fs.disk[..], s);
      if s in fs.View().files[i].ptrs {
        assert HasPtr(fs.View(), i, s) && PtrOk(fs.layout, fs.View(), i, s);
      }
    }
  }

  /** The bytes of one block from `pos` on, up to the end of the block. */
  lemma ChunkIsSlice(v: Volume, disk: seq<Block>, i: nat, pos: nat, n: nat)
    requires Backed(v, disk, i) && pos % BLKSIZE + n <= BLKSIZE && pos < BLKSIZE * NBlocks(v, i)
    ensures pos + n <= BLKSIZE * NBlocks(v, i)
    ensures disk[v.files[i].ptrs[DataSlot(pos / BLKSIZE)]][pos % BLKSIZE..pos % BLKSIZE + n]
        == Contents(v, disk, i)[pos..pos + n]
  {
    var b := disk[v.files[i].ptrs[DataSlot(pos / BLKSIZE)]];
    var c := Contents(v, disk, i);
    assert pos == BLKSIZE * (pos / BLKSIZE) + pos % BLKSIZE;
    forall k: nat {:trigger c[pos + k]} | k < n
      ensures c[pos + k] == b[pos % BLKSIZE + k]
    {
      assert (pos + k) / BLKSIZE == pos / BLKSIZE && (pos + k) % BLKSIZE == pos % BLKSIZE + k;
    }
  }

  // ---------------------------------------------------------------- write

  function Spliced(b: Block, off: nat, chunk: seq<Byte>): Block
    requires off + |chunk| <= BLKSIZE
  {
    b[..off] + chunk + b[off + |chunk|..]
  }

  /** Writing inside one data block: one file's bytes are overlaid, no other
      file's bytes move. */
  lemma BlockWritten(l: Layout, v: Volume, disk: seq<Block>, i: nat, pos: nat, chunk: seq<Byte>)
    requires Sound(l, v) && |disk| == l.nblocks && Backed(v, disk, i)
    requires pos < BLKSIZE * NBlocks(v, i) && pos % BLKSIZE + |chunk| <= BLKSIZE
    ensures var b := v.files[i].ptrs[DataSlot(pos / BLKSIZE)];
            var disk' := disk[b := Spliced(disk[b], pos % BLKSIZE, chunk)];
            && pos + |chunk| <= BLKSIZE * NBlocks(v, i)
            && Backed(v, disk', i)
            && Contents(v, disk', i) == Overlay(Contents(v, disk, i), pos, chunk)
  {
    var b := v.files[i].ptrs[DataSlot(pos / BLKSIZE)];
    var disk' := disk[b := Spliced(disk[b], pos % BLKSIZE, chunk)];
    assert pos == BLKSIZE * (pos / BLKSIZE) + pos % BLKSIZE;
    var c, c' := Contents(v, disk, i), Contents(v, disk', i);
    hide Sound;
    forall q: nat | q < |c|
      ensures c'[q] == Overlay(c, pos, chunk)[q]
    {
      ByteWritten(l, v, disk, i, pos, chunk, q);
    }
    hide Contents, Backed;
    assert c' == Overlay(c, pos, chunk);
  }

  lemma ByteWritten(l: Layout, v: Volume, disk: seq<Block>, i: nat, pos: nat, chunk: seq<Byte>, q: nat)
    requires Sound(l, v) && |disk| == l.nblocks && Backed(v, disk, i)
    requires pos < BLKSIZE * NBlocks(v, i) && pos % BLKSIZE + |chunk| <= BLKSIZE
    requires pos + |chunk| <= BLKSIZE * NBlocks(v, i)
    requires q < |Contents(v, disk, i)|
    requires var b := v.files[i].ptrs[DataSlot(pos / BLKSIZE)];
      Backed(v, disk[b := Spliced(disk[b], pos % BLKSIZE, chunk)], i)
    ensures var b := v.files[i].ptrs[DataSlot(pos / BLKSIZE)];
      Contents(v, disk[b := Spliced(disk[b], pos % BLKSIZE, chunk)], i)[q]
        == Overlay(Contents(v, disk, i), pos, chunk)[q]
  {
    assert pos == BLKSIZE * (pos / BLKSIZE) + pos % BLKSIZE && q == BLKSIZE * (q / BLKSIZE) + q % BLKSIZE;
    if q / BLKSIZE == pos / BLKSIZE {
      assert q - pos == q % BLKSIZE - pos % BLKSIZE;
    } else {
      OtherSlot(l, v, i, q / BLKSIZE, i, pos / BLKSIZE);
      assert q < pos || q >= pos + |chunk|;
    }
  }

  lemma OtherSlot(l: Layout, v: Volume, i: nat, k: nat, j: nat, m: nat)
    requires Sound(l, v) && i < |v.files| && j < |v.files| && k < MAXFILEBLKS && m < MAXFILEBLKS && (i != j || k != m)
    requires DataSlot(k) in v.files[i].ptrs && DataSlot(m) in v.files[j].ptrs
    ensures v.files[i].ptrs[DataSlot(k)] != v.files[j].ptrs[DataSlot(m)]
  {
    assert HasPtr(v, i, DataSlot(k)) && HasPtr(v, j, DataSlot(m));
    SlotIndexOfDataSlot(k);
    SlotIndexOfDataSlot(m);
  }

  lemma OverlayOn(c: seq<Byte>, pos: nat, done: seq<Byte>, chunk: seq<Byte>)
    requires pos + |done| + |chunk| <= |c|
    ensures Overlay(Overlay(c, pos, done), pos + |done|, chunk) == Overlay(c, pos, done + chunk)
  {
  }

  /** Growing keeps the old bytes and appends zeros. */
  lemma GrownContents(l: Layout, v: Volume, d0: seq<Block>, w: Volume, d1: seq<Block>, i: nat)
    requires GoodFile(l, v, i) && GoodFile(l, w, i) && |d0| == |d1| == l.nblocks
    requires NBlocks(v, i) <= NBlocks(w, i) && Kept(w.files[i].ptrs, NBlocks(v, i)) == v.files[i].ptrs
    requires OthersKept(d0, d1, v, i) && ZeroFrom(w, d1, i, NBlocks(v, i), NBlocks(w, i))
    ensures Backed(v, d0, i) && Backed(w, d1, i)
    ensures Contents(w, d1, i) == Contents(v, d0, i) + Zeros(BLKSIZE * (NBlocks(w, i) - NBlocks(v, i)))
  {
    hide Sound, Shaped, Size2NBlocks, OthersKept;
    GoodIsBacked(l, v, d0, i);
    GoodIsBacked(l, w, d1, i);
    var a := NBlocks(v, i);
    var c0, c1 := Contents(v, d0, i), Contents(w, d1, i);
    var grown := c0 + Zeros(BLKSIZE * (NBlocks(w, i) - a));
    forall q: nat | q < |c1|
      ensures c1[q] == grown[q]
    {
      var k := q / BLKSIZE;
      if k < a {
        DataBlockKept(l, v, d0, d1, i, k);
        assert DataSlot(k) in Kept(w.files[i].ptrs, a);
      } else {
        assert IsZeroAt(w.files[i].ptrs, d1, DataSlot(k));
      }
    }
    assert c1 == grown;
  }

  lemma DataBlockKept(l: Layout, v: Volume, d0: seq<Block>, d1: seq<Block>, i: nat, k: nat)
    requires GoodFile(l, v, i) && |d0| == |d1| == l.nblocks && k < NBlocks(v, i)
    requires OthersKept(d0, d1, v, i)
    ensures k < MAXFILEBLKS && DataSlot(k) in v.files[i].ptrs
    ensures v.files[i].ptrs[DataSlot(k)] < |d0| && d0[v.files[i].ptrs[DataSlot(k)]] == d1[v.files[i].ptrs[DataSlot(k)]]
  {
    NeededData(k, NBlocks(v, i));
    assert HasPtr(v, i, DataSlot(k)) && PtrOk(l, v, i, DataSlot(k));
    DataHoldsNone(v, i, DataSlot(k), i);
  }

  ghost predicate SameFile(v: Volume, d0: seq<Block>, w: Volume, d1: seq<Block>, j: nat)
    requires Backed(v, d0, j) && |w.files| == |v.files|
  {
    w.files[j] == v.files[j] && Backed(w, d1, j) && Contents(w, d1, j) == Contents(v, d0, j)
  }

  /** Every other file keeps its pointers, and its bytes if it has them all. */
  ghost predicate OthersSame(v: Volume, d0: seq<Block>, w: Volume, d1: seq<Block>, i: nat) {
    && |w.files| == |v.files|
    && (forall j: nat :: j < |v.files| && j != i ==> w.files[j] == v.files[j])
    && (forall j: nat :: j != i && Backed(v, d0, j) ==> SameFile(v, d0, w, d1, j))
  }

  /** What is neither free nor file `i`'s own is nobody's business: in any sound
      volume the bytes of all other files stay. */
  lemma OtherContentsKept(l: Layout, v: Volume, d0: seq<Block>, w: Volume, d1: seq<Block>, i: nat)
    requires Sound(l, v) && i < |v.files| == |w.files| && |d0| == |d1| == l.nblocks
    requires w.files == v.files[i := w.files[i]] && ElsewhereKept(d0, d1, v, i)
    ensures OthersSame(v, d0, w, d1, i)
  {
    forall j: nat | j != i && Backed(v, d0, j)
      ensures SameFile(v, d0, w, d1, j)
    {
      hide Sound, Size2NBlocks, ElsewhereKept;
      assert w.files[j] == v.files[j];
      var c0, c1 := Contents(v, d0, j), Contents(w, d1, j);
      forall q: nat | q < |c0|
        ensures c1[q] == c0[q]
      {
        OtherBlockKept(l, v, d0, d1, i, j, DataSlot(q / BLKSIZE));
      }
      assert c1 == c0;
    }
  }

  lemma OtherBlockKept(l: Layout, v: Volume, d0: seq<Block>, d1: seq<Block>, i: nat, j: nat, s: Slot)
    requires Sound(l, v) && i < |v.files| && j != i && HasPtr(v, j, s) && |d0| == |d1| == l.nblocks
    requires ElsewhereKept(d0, d1, v, i)
    ensures v.files[j].ptrs[s] < |d0| && d1[v.files[j].ptrs[s]] == d0[v.files[j].ptrs[s]]
  {
    assert PtrOk(l, v, j, s);
    assert forall t :: t in v.files[i].ptrs ==> HasPtr(v, i, t);
    assert Elsewhere(v, i, v.files[j].ptrs[s]);
  }

  /** The bytes of file `i` are `c`. */
  ghost predicate Holds(v: Volume, disk: seq<Block>, i: nat, c: seq<Byte>) {
    Backed(v, disk, i) && Contents(v, disk, i) == c
  }

  lemma HoldsOneMore(
      l: Layout, v: Volume, disk: seq<Block>, i: nat, c: seq<Byte>, pos: nat, done: seq<Byte>, chunk: seq<Byte>)
    requires Sound(l, v) && |disk| == l.nblocks && pos + |done| + |chunk| <= |c|
    requires Holds(v, disk, i, Overlay(c, pos, done)) && pos + |done| < BLKSIZE * NBlocks(v, i)
    requires (pos + |done|) % BLKSIZE + |chunk| <= BLKSIZE
    ensures var b := v.files[i].ptrs[DataSlot((pos + |done|) / BLKSIZE)];
            && b < |disk|
            && Holds(v, disk[b := Spliced(disk[b], (pos + |done|) % BLKSIZE, chunk)], i, Overlay(c, pos, done + chunk))
  {
    hide Contents, Sound;
    BlockWritten(l, v, disk, i, pos + |done|, chunk);
    OverlayOn(c, pos, done, chunk);
  }

  /** `d1` is `d0` with `data` written at offset `pos` of file `i`, and nothing
      else: a byte differs only where one of `data` belongs. */
  ghost predicate Laid(v: Volume, d0: seq<Block>, d1: seq<Block>, i: nat, pos: nat, data: seq<Byte>) {
    && |d1| == |d0| && BytesAt(v, d1, i, pos, data)
    && forall b: nat, o: nat :: b < |d0| && o < BLKSIZE && d1[b][o] != d0[b][o] ==>
         exists p: nat :: pos <= p < pos + |data| && IsAt(v, i, p, b, o)
  }

  lemma NothingLaid(v: Volume, disk: seq<Block>, i: nat, pos: nat)
    ensures Laid(v, disk, disk, i, pos, [])
  {
  }

  lemma LaidElsewhere(v: Volume, d0: seq<Block>, d1: seq<Block>, i: nat, pos: nat, data: seq<Byte>)
    requires i < |v.files| && Laid(v, d0, d1, i, pos, data)
    ensures ElsewhereKept(d0, d1, v, i)
  {
    forall b: nat | b < |d0| && Elsewhere(v, i, b)
      ensures d0[b] == d1[b]
    {
      assert forall o: nat :: o < BLKSIZE ==> d1[b][o] == d0[b][o];
    }
  }

  /** One chunk more, into one block. */
  lemma LaidOn(
      l: Layout, v: Volume, d0: seq<Block>, disk: seq<Block>, i: nat, pos: nat, data: seq<Byte>, chunk: seq<Byte>)
    requires Sound(l, v) && Laid(v, d0, disk, i, pos, data)
    requires HasByte(v, i, pos + |data|) && (pos + |data|) % BLKSIZE + |chunk| <= BLKSIZE
    requires v.files[i].ptrs[DataSlot((pos + |data|) / BLKSIZE)] < |disk|
    ensures var p := pos + |data|;
            var b := v.files[i].ptrs[DataSlot(p / BLKSIZE)];
            Laid(v, d0, disk[b := Spliced(disk[b], p % BLKSIZE, chunk)], i, pos, data + chunk)
  {
    var p := pos + |data|;
    var b := v.files[i].ptrs[DataSlot(p / BLKSIZE)];
    var disk' := disk[b := Spliced(disk[b], p % BLKSIZE, chunk)];
    forall q: nat | q < |data + chunk|
      ensures ByteIsAt(v, disk', i, pos + q, (data + chunk)[q])
    {
      if q < |data| {
        assert ByteIsAt(v, disk, i, pos + q, data[q]);
        if (pos + q) / BLKSIZE != p / BLKSIZE {
          OtherSlot(l, v, i, (pos + q) / BLKSIZE, i, p / BLKSIZE);
        }
      } else {
        var k := q - |data|;
        assert (p + k) / BLKSIZE == p / BLKSIZE && (p + k) % BLKSIZE == p % BLKSIZE + k;
      }
    }
    forall b1: nat, o: nat | b1 < |d0| && o < BLKSIZE && disk'[b1][o] != d0[b1][o]
      ensures exists p1: nat :: pos <= p1 < pos + |data + chunk| && IsAt(v, i, p1, b1, o)
    {
      if disk[b1][o] == d0[b1][o] {
        var p1 := p - p % BLKSIZE + o;
        assert p1 / BLKSIZE == p / BLKSIZE && p1 % BLKSIZE == o;
        assert IsAt(v, i, p1, b1, o);
      }
    }
  }

  /** The block-by-block copy of `ospfs_write`, inside the file: it goes through
      exactly when all the blocks are there, writes to blocks of this file only
      and there just the bytes up to the first block that is missing,
      and overlays the bytes of a file that has all its blocks, whatever state
      the rest of the volume is in. */
  method CopyIn(fs: Ospfs, i: nat, buffer: seq<Byte>, f_pos0: uint32) returns (retval: int)
    requires fs.Valid() && IsFile(fs.View(), i) && fs.inodes[i].size <= MAXFILEBLKS * BLKSIZE
    requires f_pos0 + |buffer| <= fs.inodes[i].size
    modifies fs.disk
    ensures fs.Valid() && fs.View() == old(fs.View())
    ensures retval == if HasBytes(fs.View(), i, f_pos0, f_pos0 + |buffer|) then |buffer| else -EIO
    ensures ElsewhereKept(old(fs.disk[..]), fs.disk[..], fs.View(), i)
    ensures var done := FirstMissing(fs.View(), i, f_pos0, f_pos0 + |buffer|) - f_pos0;
            Laid(fs.View(), old(fs.disk[..]), fs.disk[..], i, f_pos0, buffer[..done])
    ensures Backed(fs.View(), old(fs.disk[..]), i) ==>
              && retval == |buffer|
              && f_pos0 + |buffer| <= BLKSIZE * NBlocks(fs.View(), i)
              && Holds(fs.View(), fs.disk[..], i, Overlay(Contents(fs.View(), old(fs.disk[..]), i), f_pos0, buffer))
  {
    hide Contents, InodeBlockno, Backed, PointersInRange, Size2NBlocks,
        Sound, Holds, Overlay, HasByte, HasBytes, HasPtr, Ospfs.View, Laid, FirstMissing, ElsewhereKept, Spliced;
    ghost var v, d1 := fs.View(), fs.disk[..];
    ghost var backed := Backed(v, d1, i);
    SoundPointersInRange(fs, i);
    ghost var c := [];
    if backed {
      SizeFits(fs.inodes[i].size);
      c := Contents(v, d1, i);
      HoldsAtFirst(v, d1, i, f_pos0);
      BackedHasBytes(v, d1, i, f_pos0, f_pos0 + |buffer|);
    }
    var count, amount, f_pos := |buffer|, 0, f_pos0;
    NothingYet(v, d1, i, f_pos0);
    NothingLaid(v, d1, i, f_pos0);
    while amount < count
      invariant amount <= count == |buffer| && f_pos == f_pos0 + amount
      invariant fs.Valid() && fs.View() == v
      invariant HasBytes(v, i, f_pos0, f_pos)
      invariant Laid(v, d1, fs.disk[..], i, f_pos0, buffer[..amount])
      invariant backed ==> Holds(v, fs.disk[..], i, Overlay(c, f_pos0, buffer[..amount]))
    {
      LookupInRange(fs, i, f_pos);
      var blockno := InodeBlockno(fs.inodes[i], fs.disk[..], f_pos);
      if blockno == 0 {
        FirstMissingIs(v, i, f_pos0, f_pos, f_pos0 + |buffer|);
        LaidElsewhere(v, d1, fs.disk[..], i, f_pos0, buffer[..amount]);
        return -EIO;
      }
      var block_offset := f_pos % BLKSIZE;
      var n := Min(BLKSIZE - block_offset, count - amount);
      ghost var disk := fs.disk[..];
      var chunk := buffer[amount..amount + n];
      if backed {
        HoldsBacked(v, disk, i, Overlay(c, f_pos0, buffer[..amount]));
        HoldsOneMore(fs.layout, v, disk, i, c, f_pos0, buffer[..amount], chunk);
      }
      assert buffer[..amount] + chunk == buffer[..amount + n];
      HasBytesOn(v, i, f_pos0, f_pos, n);
      LaidOn(fs.layout, v, d1, disk, i, f_pos0, buffer[..amount], chunk);
      DataWrite(fs, i, f_pos, blockno, block_offset, chunk);
      amount := amount + n;
      f_pos := f_pos + n;
    }
    assert buffer[..amount] == buffer;
    FirstMissingIs(v, i, f_pos0, f_pos, f_pos0 + |buffer|);
    LaidElsewhere(v, d1, fs.disk[..], i, f_pos0, buffer);
    return amount;
  }

  lemma HoldsAtFirst(v: Volume, disk: seq<Block>, i: nat, pos: nat)
    requires Backed(v, disk, i) && pos <= BLKSIZE * NBlocks(v, i)
    ensures Holds(v, disk, i, Overlay(Contents(v, disk, i), pos, []))
  {
    assert Overlay(Contents(v, disk, i), pos, []) == Contents(v, disk, i);
  }

  lemma HoldsBacked(v: Volume, disk: seq<Block>, i: nat, c: seq<Byte>)
    requires Holds(v, disk, i, c)
    ensures Backed(v, disk, i) && |c| == BLKSIZE * NBlocks(v, i)
  {
  }

  /** `copy_from_user(data + block_offset, buffer, n)`. */
  method DataWrite(fs: Ospfs, i: nat, pos: uint32, blockno: nat, off: nat, chunk: seq<Byte>)
    requires fs.Valid() && pos / BLKSIZE < MAXFILEBLKS && HasPtr(fs.View(), i, DataSlot(pos / BLKSIZE))
    requires blockno == fs.View().files[i].ptrs[DataSlot(pos / BLKSIZE)] && off + |chunk| <= BLKSIZE
    modifies fs.disk
    ensures fs.Valid() && fs.View() == old(fs.View())
    ensures blockno < fs.disk.Length
    ensures fs.disk[..] == old(fs.disk[..])[blockno := Spliced(old(fs.disk[blockno]), off, chunk)]
  {
    ghost var v := fs.View();
    assert PtrOk(fs.layout, v, i, DataSlot(pos / BLKSIZE));
    forall j: nat | j < |v.files|
      ensures HoldsNone(v.files[j].ptrs, blockno)
    {
      DataHoldsNone(v, i, DataSlot(pos / BLKSIZE), j);
    }
    FilesSameElsewhere(fs.inodes[..], fs.disk[..], blockno, Spliced(fs.disk[blockno], off, chunk), v);
    fs.disk[blockno] := Spliced(fs.disk[blockno], off, chunk);
    assert fs.disk[..] == old(fs.disk[..])[blockno := Spliced(old(fs.disk[blockno]), off, chunk)];
  }

  /** A caller can check before the call that the write will go through: inside a
      file that has all its blocks, or growing a file in shape for which there is
      room, past no misfiled block.  The other files may be in any state. */
  ghost predicate Fits(l: Layout, v: Volume, disk: seq<Block>, i: nat, end: nat) {
    && IsFile(v, i)
    && if end <= v.files[i].size then Backed(v, disk, i)
       else end < TWO32 && GrowsCleanly(l, v, i, Size2NBlocks(end))
  }

  /** The volume in which `ospfs_write` starts to copy. */
  ghost function Extended(l: Layout, v: Volume, i: nat, end: nat, fuel: nat): (r: (Volume, Outcome))
    requires i < |v.files| && end <= MAXFILEBLKS * BLKSIZE
  {
    if end > v.files[i].size then ChangeSize(l, v, i, end, fuel) else (v, Finished(Ok))
  }

  /** The file of `w` is that of `v`, grown with zeros to hold `end` bytes, with
      `data` laid over it at `pos`. */
  ghost predicate Written(v: Volume, d0: seq<Block>, w: Volume, d1: seq<Block>, i: nat, pos: nat, data: seq<Byte>) {
    && Backed(v, d0, i) && Backed(w, d1, i)
    && NBlocks(v, i) <= NBlocks(w, i) && pos + |data| <= BLKSIZE * NBlocks(w, i)
    && w.files[i].size == (if pos + |data| > v.files[i].size then pos + |data| else v.files[i].size)
    && Contents(w, d1, i)
       == Overlay(Contents(v, d0, i) + Zeros(BLKSIZE * (NBlocks(w, i) - NBlocks(v, i))), pos, data)
  }

  lemma GrowthIsResize(l: Layout, v: Volume, i: nat, size: uint32, fuel: nat)
    requires GrowsCleanly(l, v, i, Size2NBlocks(size)) && fuel >= MAXFILEBLKS
    ensures var (w, out) := ChangeSize(l, v, i, size, fuel);
            && out == Finished(Ok) && GoodFile(l, w, i) && w.files[i].size == size
            && NBlocks(v, i) <= NBlocks(w, i)
            && Kept(w.files[i].ptrs, NBlocks(v, i)) == v.files[i].ptrs
            && (Tight(l, v) ==> Tight(l, w))
  {
    hide Sound, Size2NBlocks, ChangeSize, Kept;
    ChangeSizeGrows(l, v, i, size, fuel);
  }

  /** Overlaying after growing. */
  lemma WrittenAfterGrowth(
      l: Layout, v: Volume, d0: seq<Block>, w: Volume, d1: seq<Block>,
      d2: seq<Block>, i: nat, pos: nat, data: seq<Byte>)
    requires GoodFile(l, v, i) && GoodFile(l, w, i) && |d0| == |d1| == |d2| == l.nblocks
    requires NBlocks(v, i) <= NBlocks(w, i) && Kept(w.files[i].ptrs, NBlocks(v, i)) == v.files[i].ptrs
    requires w.files[i].size == if pos + |data| > v.files[i].size then pos + |data| else v.files[i].size
    requires OthersKept(d0, d1, v, i) && ZeroFrom(w, d1, i, NBlocks(v, i), NBlocks(w, i))
    requires Backed(w, d1, i) && pos + |data| <= BLKSIZE * NBlocks(w, i)
    requires Holds(w, d2, i, Overlay(Contents(w, d1, i), pos, data))
    ensures Written(v, d0, w, d2, i, pos, data)
  {
    hide Sound, Shaped, Size2NBlocks, OthersKept, ZeroFrom, Contents, Overlay;
    GrownContents(l, v, d0, w, d1, i);
  }

  /** The state in which the copying starts when the write fits. */
  ghost predicate Ready(l: Layout, v: Volume, d0: seq<Block>, w: Volume, d1: seq<Block>, i: nat, end: nat) {
    && IsFile(v, i) && IsFile(w, i) && Backed(w, d1, i) && |d0| == |d1| == l.nblocks
    && (Tight(l, v) ==> Tight(l, w))
    && if end <= v.files[i].size then w == v && d1 == d0
       else
         && GoodFile(l, v, i) && GoodFile(l, w, i) && w.files[i].size == end
         && NBlocks(v, i) <= NBlocks(w, i) && Kept(w.files[i].ptrs, NBlocks(v, i)) == v.files[i].ptrs
         && OthersKept(d0, d1, v, i) && ZeroFrom(w, d1, i, NBlocks(v, i), NBlocks(w, i))
  }

  lemma WrittenWhenReady(
      l: Layout, v: Volume, d0: seq<Block>, w: Volume, d1: seq<Block>,
      d2: seq<Block>, i: nat, pos: nat, data: seq<Byte>)
    requires Ready(l, v, d0, w, d1, i, pos + |data|) && |d2| == |d1| && pos + |data| <= BLKSIZE * NBlocks(w, i)
    requires Holds(w, d2, i, Overlay(Contents(w, d1, i), pos, data))
    ensures Written(v, d0, w, d2, i, pos, data)
  {
    hide Sound, Shaped, Tight, Size2NBlocks, OthersKept, ZeroFrom, Overlay;
    if pos + |data| <= v.files[i].size {
      assert Contents(v, d0, i) + Zeros(0) == Contents(v, d0, i);
    } else {
      WrittenAfterGrowth(l, v, d0, w, d1, d2, i, pos, data);
    }
  }

  /** The resizing at the start of `ospfs_write`. */
  method Extend(fs: Ospfs, i: nat, end: uint32, fuel: nat) returns (out: Outcome)
    requires fs.Valid() && IsFile(fs.View(), i)
    requires fs.inodes[i].size <= MAXFILEBLKS * BLKSIZE && end <= MAXFILEBLKS * BLKSIZE
    modifies fs.bitmap, fs.disk, fs.inodes
    ensures fs.Valid() && (fs.View(), out) == Extended(fs.layout, old(fs.View()), i, end, fuel)
    ensures fs.View().files == old(fs.View()).files[i := fs.View().files[i]]
    ensures ElsewhereKept(old(fs.disk[..]), fs.disk[..], old(fs.View()), i) && Within(old(fs.View()), fs.View(), i)
    ensures out == Finished(Ok) ==> end <= fs.inodes[i].size <= MAXFILEBLKS * BLKSIZE && IsFile(fs.View(), i)
    ensures Fits(fs.layout, old(fs.View()), old(fs.disk[..]), i, end) && fuel >= MAXFILEBLKS ==>
              out == Finished(Ok) && Ready(fs.layout, old(fs.View()), old(fs.disk[..]), fs.View(), fs.disk[..], i, end)
  {
    hide Backed, Size2NBlocks, Sound, Shaped, Tight, OthersKept, ZeroFrom, ChangeSize, Elsewhere, ElsewhereKept;
    ghost var l, v, d0 := fs.layout, fs.View(), fs.disk[..];
    SoundPointersInRange(fs, i);
    if end <= fs.inodes[i].size {
      WithinItself(v, d0, i);
      return Finished(Ok);
    }
    BlocksFit(end);
    ghost var fits := Fits(l, v, d0, i, end) && fuel >= MAXFILEBLKS;
    if fits {
      GrowthIsResize(l, v, i, end, fuel);
    }
    out := fs.ChangeSize(i, end, fuel);
    ChangedSize(l, v, i, end, fuel);
    if out == Finished(Ok) {
      SoundPointersInRange(fs, i);
    }
    if fits {
      GoodIsBacked(l, fs.View(), fs.disk[..], i);
    }
  }

  /** `ospfs_write`, up to the number of rounds that `change_size` may take.  If
      the write fits, the file afterwards is the old one, grown with zeros,
      with the buffer laid over it.  Whether it fits or not: the answer is 0 when
      the resizing fails, otherwise the length of the buffer exactly when all its
      blocks are there, and the file holds the buffer's bytes up to the first
      block that is missing; and no byte of any other file changes. */
  method Write(fs: Ospfs, i: nat, buffer: seq<Byte>, append: bool, f_pos0: uint32, fuel: nat)
    returns (retval: int, spinning: bool)
    requires fs.Valid() && IsFile(fs.View(), i) && fs.inodes[i].size <= MAXFILEBLKS * BLKSIZE
    requires (if append then fs.inodes[i].size else f_pos0) + |buffer| <= MAXFILEBLKS * BLKSIZE
    modifies fs.bitmap, fs.disk, fs.inodes
    ensures fs.Valid()
    ensures OthersSame(old(fs.View()), old(fs.disk[..]), fs.View(), fs.disk[..], i)
    ensures var pos := if append then old(fs.inodes[i].size) else f_pos0;
            var (w, out) := Extended(fs.layout, old(fs.View()), i, pos + |buffer|, fuel);
            && fs.View() == w && (spinning <==> out == Spinning)
            && retval == if out != Finished(Ok) then 0
                         else if HasBytes(w, i, pos, pos + |buffer|) then |buffer| else -EIO
    ensures var pos := if append then old(fs.inodes[i].size) else f_pos0;
            var (w, out) := Extended(fs.layout, old(fs.View()), i, pos + |buffer|, fuel);
            out == Finished(Ok) ==>
              BytesAt(w, fs.disk[..], i, pos, buffer[..FirstMissing(w, i, pos, pos + |buffer|) - pos])
    ensures var pos := if append then old(fs.inodes[i].size) else f_pos0;
            Fits(fs.layout, old(fs.View()), old(fs.disk[..]), i, pos + |buffer|) && fuel >= MAXFILEBLKS ==>
              && !spinning && retval == |buffer|
              && Written(old(fs.View()), old(fs.disk[..]), fs.View(), fs.disk[..], i, pos, buffer)
              && (Tight(fs.layout, old(fs.View())) ==> Tight(fs.layout, fs.View()))
  {
    hide Contents, Backed, Size2NBlocks, Sound, Shaped, Tight, Holds,
        Overlay, OthersKept, ZeroFrom, Written, Fits, Extended;
    hide HasBytes, OthersSame, ElsewhereKept, Within, HasPtr, FirstMissing, BytesAt;
    ghost var l, v, d0 := fs.layout, fs.View(), fs.disk[..];
    SoundPointersInRange(fs, i);
    var f_pos := if append then fs.inodes[i].size else f_pos0;
    var out := Extend(fs, i, f_pos + |buffer|, fuel);
    ghost var w, d1 := fs.View(), fs.disk[..];
    if out != Finished(Ok) {
      OtherContentsKept(l, v, d0, w, d1, i);
      return 0, out == Spinning;
    }
    retval := CopyIn(fs, i, buffer, f_pos);
    ElsewhereOn(d0, d1, fs.disk[..], v, w, i);
    OtherContentsKept(l, v, d0, w, fs.disk[..], i);
    if Fits(l, v, d0, i, f_pos + |buffer|) && fuel >= MAXFILEBLKS {
      WrittenWhenReady(l, v, d0, w, d1, fs.disk[..], i, f_pos, buffer);
    }
    return retval, false;
  }

  lemma BlocksFit(size: uint32)
    requires size <= MAXFILEBLKS * BLKSIZE
    ensures Size2NBlocks(size) <= MAXFILEBLKS
  {
  }

  lemma WithinItself(v: Volume, disk: seq<Block>, i: nat)
    requires i < |v.files|
    ensures Within(v, v, i) && ElsewhereKept(disk, disk, v, i) && v.files == v.files[i := v.files[i]]
  {
  }

  /** A successful `change_size` sets the size asked for. */
  lemma ChangedSize(l: Layout, v: Volume, i: nat, size: uint32, fuel: nat)
    requires IsFile(v, i) && Size2NBlocks(size) <= MAXFILEBLKS
    ensures var (w, out) := ChangeSize(l, v, i, size, fuel);
            out == Finished(Ok) ==> IsFile(w, i) && w.files[i].size == size
  {
    hide Size2NBlocks, GrowTo, ShrinkTo;
  }
}
