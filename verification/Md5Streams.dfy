/** Two ways to feed a message piece by piece: P2P/md5.c counts bits in two words
    and takes its place in the buffer from them; File_System/md5.c counts blocks
    and keeps a fill level.  Both hold the same thing after every piece. */
module Md5Streams {
  import opened Common
  import opened Md5Rounds
  import opened Md5Digest

  /** A block joins what has been digested. */
  lemma DigestMore(m: seq<byte>, k: nat)
    requires 64 * k + 64 <= |m|
    ensures Process(Fold(Start(), m[..64 * k]), m[64 * k..64 * k + 64]) == Fold(Start(), m[..64 * k + 64])
  {
    hide Process, Start, Fold;
    assert m[..64 * k + 64] == m[..64 * k] + m[64 * k..64 * k + 64];
    FoldBlock(Start(), m[..64 * k], m[64 * k..64 * k + 64]);
  }

  /** What `memcpy` leaves in the buffer. */
  function Overlaid(buf: seq<byte>, at: nat, data: seq<byte>): seq<byte>
    requires at + |data| <= |buf|
  {
    buf[..at] + data + buf[at + |data|..]
  }

  method MemCopy(buf: array<byte>, at: nat, data: seq<byte>)
    requires at + |data| <= buf.Length
    modifies buf
    ensures buf[..] == Overlaid(old(buf[..]), at, data)
  {
    forall i | 0 <= i < |data| {
      buf[at + i] := data[i];
    }
  }

  /** The buffer had the end of the message from `at` on, and now more of it. */
  lemma PartOf(buf: seq<byte>, offset: nat, message: seq<byte>, at: nat, data: seq<byte>, copy: nat)
    requires at <= |message| && |message| - at == offset && offset + copy <= |buf| && copy <= |data|
    requires buf[..offset] == message[at..]
    ensures Overlaid(buf, offset, data[..copy])[..offset + copy] == (message + data)[at..|message| + copy]
  {
    assert (message + data)[at..|message| + copy] == message[at..] + data[..copy];
  }

  lemma OverlaidFront(buf: seq<byte>, data: seq<byte>)
    requires |data| <= |buf|
    ensures Overlaid(buf, 0, data)[..|data|] == data
  {
  }

  lemma OverlaidEnd(buf: seq<byte>, data: seq<byte>)
    requires |data| <= |buf|
    ensures Overlaid(buf, |buf| - |data|, data) == buf[..|buf| - |data|] + data
  {
  }

  // ------------------------------------------------------------ P2P/md5.c

  lemma CountAdds(n: nat, k: nat)
    ensures LowBits(n + k) == (LowBits(n) + LowBits(k)) % TWO_32
    ensures HighBits(n + k) ==
      (HighBits(n) + k / 0x2000_0000 + if (LowBits(n) + LowBits(k)) % TWO_32 < LowBits(k) then 1 else 0) % TWO_32
  {
    var (a, b) := (8 * n / TWO_32, 8 * k / TWO_32);
    var (x, y) := (8 * n % TWO_32, 8 * k % TWO_32);
    var carry := if x + y >= TWO_32 then 1 else 0;
    Quotient(8 * (n + k), TWO_32, a + b + carry, x + y - carry * TWO_32);
    Quotient(x + y, TWO_32, carry, x + y - carry * TWO_32);
    Quotient(k, 0x2000_0000, b, y / 8);
    ModAdds(a, b + carry);
  }

  lemma ModAdds(a: nat, b: nat)
    ensures (a + b) % TWO_32 == (a % TWO_32 + b) % TWO_32
  {
    var (q, r) := (a / TWO_32, a % TWO_32);
    var s := r + b;
    Quotient(a + b, TWO_32, q + s / TWO_32, s % TWO_32);
  }

  lemma OffsetIs(n: nat, k: nat)
    requires 64 * k <= n < 64 * k + 64
    ensures LowBits(n) / 8 % 64 == n - 64 * k
  {
    var q := 8 * n / TWO_32;
    assert LowBits(n) == 8 * (n - q * 0x2000_0000);
    Quotient(n - q * 0x2000_0000, 64, k - q * 0x80_0000, n - 64 * k);
  }

  lemma PadFromCount(n: nat)
    ensures PadCount(LowBits(n) / 8) == PadCount(n)
  {
    var (k, r) := (n / 64, n % 64);
    OffsetIs(n, k);
    var x := LowBits(n) / 8;
    PadDepends(x, x / 64, r);
    PadDepends(n, k, r);
  }

  lemma PadDepends(n: nat, k: nat, r: nat)
    requires n == 64 * k + r && r < 64
    ensures PadCount(n) == if r < 56 then 56 - r else 120 - r
  {
  }

  lemma WholeBlocks(n: nat, k: nat)
    requires n % 64 == 0 && 64 * k <= n < 64 * k + 64
    ensures n == 64 * k
  {
  }

  class AppendState {
    var count0: nat
    var count1: nat
    var abcd: Words
    const buf: array<byte>
    ghost var message: seq<byte>
    ghost var blocks: nat

    /** The chaining words cover the whole blocks of the message, the buffer has
        the rest, and the two counts are the length in bits. */
    ghost predicate Valid()
      reads this, buf
    {
      && buf.Length == 64
      && count0 == LowBits(|message|) && count1 == HighBits(|message|)
      && 64 * blocks <= |message| < 64 * blocks + 64
      && abcd == Fold(Start(), message[..64 * blocks])
      && buf[..|message| - 64 * blocks] == message[64 * blocks..]
    }

    constructor ()
      ensures Valid() && message == [] && fresh(buf)
    {
      count0, count1 := 0, 0;
      abcd := Start();
      buf := new byte[64];
      message, blocks := [], 0;
    }

    method ProcessBlock(data: Block)
      modifies this`abcd
      ensures abcd == Process(old(abcd), data)
    {
      abcd := Process(abcd, data);
    }

    method CountUp(nbytes: nat)
      requires count0 == LowBits(|message|) && count1 == HighBits(|message|)
      modifies this`count0, this`count1
      ensures count0 == LowBits(|message| + nbytes) && count1 == HighBits(|message| + nbytes)
    {
      var nbits := nbytes * 8 % TWO_32;
      CountAdds(|message|, nbytes);
      ModAdds(HighBits(|message|) + nbytes / 0x2000_0000, 1);
      count1 := (count1 + nbytes / 0x2000_0000) % TWO_32;
      count0 := (count0 + nbits) % TWO_32;
      if count0 < nbits {
        count1 := (count1 + 1) % TWO_32;
      }
    }

    /** `md5_append`. */
    method Append(data: seq<byte>)
      requires Valid()
      modifies this, buf
      ensures Valid() && message == old(message) + data
    {
      hide Process, Fold, Start, LowBits, HighBits, Overlaid;
      var nbytes := |data|;
      var p, left := 0, nbytes;
      var offset := count0 / 8 % 64;
      OffsetIs(|message|, blocks);
      if nbytes <= 0 {
        assert message + data == message;
        return;
      }
      CountUp(nbytes);
      ghost var m := message + data;
      assert m[..64 * blocks] == message[..64 * blocks];
      message := m;
      if offset != 0 {
        var copy := if offset + nbytes > 64 then 64 - offset else nbytes;
        MemCopy(buf, offset, data[p..p + copy]);
        PartOf(old(buf[..]), offset, old(message), 64 * blocks, data, copy);
        if offset + copy < 64 {
          return;
        }
        p := p + copy;
        left := left - copy;
        assert buf[..] == m[64 * blocks..64 * blocks + 64];
        DigestMore(m, blocks);
        ProcessBlock(buf[..]);
        blocks := blocks + 1;
      }
      assert data[p..] == m[64 * blocks..];
      AppendBlocks(data, p);
    }

    /** The full blocks from `p` on, straight from the data, and what is left over. */
    method AppendBlocks(data: seq<byte>, from: nat)
      requires buf.Length == 64 && from <= |data| && 64 * blocks + |data| - from == |message|
      requires data[from..] == message[64 * blocks..] && abcd == Fold(Start(), message[..64 * blocks])
      requires count0 == LowBits(|message|) && count1 == HighBits(|message|)
      modifies this`abcd, this`blocks, buf
      ensures Valid()
    {
      hide Process, Fold, Start, LowBits, HighBits, Overlaid;
      var p, left := from, |data| - from;
      while left >= 64
        invariant from <= p && p + left == |data| && left >= 0 && 64 * blocks + left == |message|
        invariant data[p..] == message[64 * blocks..] && abcd == Fold(Start(), message[..64 * blocks])
      {
        assert data[p..p + 64] == data[p..][..64] == message[64 * blocks..64 * blocks + 64];
        DigestMore(message, blocks);
        ProcessBlock(data[p..p + 64]);
        blocks := blocks + 1;
        assert data[p + 64..] == data[p..][64..];
        p := p + 64;
        left := left - 64;
      }
      if left != 0 {
        ghost var before := buf[..];
        MemCopy(buf, 0, data[p..]);
        OverlaidFront(before, data[p..]);
      }
    }

    method StoreLength() returns (data: seq<byte>)
      ensures data == LengthBytes(count0, count1)
    {
      data := [];
      var i := 0;
      while i < 8
        invariant 0 <= i <= 8 && data == LengthBytes(count0, count1)[..i]
      {
        data := data + [ByteAt(if i < 4 then count0 else count1, i % 4)];
        i := i + 1;
      }
    }

    method StoreDigest() returns (digest: seq<byte>)
      ensures digest == Stored(abcd)
    {
      hide WordByte;
      digest := [];
      var i := 0;
      while i < 16
        invariant 0 <= i <= 16 && digest == Stored(abcd)[..i]
      {
        var w := if i < 4 then abcd.a else if i < 8 then abcd.b else if i < 12 then abcd.c else abcd.d;
        digest := digest + [WordByte(w, i % 4)];
        i := i + 1;
      }
    }

    /** `md5_finish`: the digest of everything appended, however it was cut up. */
    method Finish() returns (digest: seq<byte>)
      requires Valid()
      modifies this, buf
      ensures digest == Digest(old(message))
      ensures Valid()
    {
      hide Process, Fold, Start, Stored, LowBits, HighBits, PadCount, LengthBytes, Zeros;
      ghost var m := message;
      var length := StoreLength();
      PadFromCount(|m|);
      Append([0x80] + Zeros(PadCount(count0 / 8) - 1));
      Append(length);
      ghost var all := m + Tail(|m|, LowBits(|m|), HighBits(|m|));
      assert message == all;
      WholeBlocks(|all|, blocks);
      assert all[..|all|] == all;
      digest := StoreDigest();
    }
  }

  // ------------------------------------------------------------ File_System/md5.c

  class UpdateContext {
    var words: Words
    var nblocks: nat
    const buf: array<byte>
    var count: nat
    var finalized: bool
    ghost var message: seq<byte>
    ghost var blocks: nat

    /** `count` bytes wait in the buffer, which may be full until the next call. */
    ghost predicate Valid()
      reads this, buf
    {
      && buf.Length == 64 && !finalized
      && count <= 64 && |message| == 64 * blocks + count
      && nblocks == blocks % TWO_32
      && words == Fold(Start(), message[..64 * blocks])
      && buf[..count] == message[64 * blocks..]
    }

    constructor ()
      ensures Valid() && message == [] && fresh(buf)
    {
      words := Start();
      nblocks, count, finalized := 0, 0, false;
      buf := new byte[64];
      message, blocks := [], 0;
    }

    /** `transform` of the bytes that follow in the message. */
    method TransformBlock(data: Block)
      modifies this`words
      ensures words == Process(old(words), data)
    {
      SameCompression(words, data);
      words := Transform(words, data);
    }

    /** `md5_update(hd, NULL, 0)`. */
    method Flush()
      requires Valid()
      modifies this`words, this`count, this`nblocks, this`blocks
      ensures Valid() && message == old(message) && count == if old(count) == 64 then 0 else old(count)
    {
      hide Process, Fold, Start;
      if count == 64 {
        assert buf[..] == buf[..count] == message[64 * blocks..64 * blocks + 64];
        DigestMore(message, blocks);
        TransformBlock(buf[..]);
        ModAdds(blocks, 1);
        blocks := blocks + 1;
        count := 0;
        nblocks := (nblocks + 1) % TWO_32;
      }
    }

    /** The two loops that move bytes one at a time. */
    method Fill(inbuf: seq<byte>) returns (rest: seq<byte>)
      requires Valid()
      modifies this`count, this`message, buf
      ensures Valid() && old(message) + inbuf == message + rest
      ensures count == if old(count) + |inbuf| <= 64 then old(count) + |inbuf| else 64
      ensures |rest| == |inbuf| - (count - old(count))
    {
      hide Process, Fold, Start;
      rest := inbuf;
      while rest != [] && count < 64
        invariant Valid() && old(count) <= count <= old(count) + |inbuf|
        invariant rest == inbuf[count - old(count)..]
        invariant message == old(message) + inbuf[..count - old(count)]
        decreases |rest|
      {
        ghost var before := message;
        buf[count] := rest[0];
        message := message + [rest[0]];
        assert message[..64 * blocks] == before[..64 * blocks];
        assert message[64 * blocks..] == before[64 * blocks..] + [rest[0]];
        count := count + 1;
        rest := rest[1..];
      }
      assert message + rest == old(message) + inbuf;
    }

    /** One turn of the loop over blocks that need no buffer. */
    method TakeBlock(data: Block)
      requires Valid() && count == 0
      modifies this`words, this`count, this`nblocks, this`blocks, this`message
      ensures Valid() && count == 0 && message == old(message) + data
    {
      hide Process, Fold, Start;
      ghost var m := message + data;
      assert m[..64 * blocks] == message[..64 * blocks] && m[64 * blocks..64 * blocks + 64] == data;
      DigestMore(m, blocks);
      ModAdds(blocks, 1);
      TransformBlock(data);
      count := 0;
      nblocks := (nblocks + 1) % TWO_32;
      message, blocks := m, blocks + 1;
    }

    /** `md5_update`. */
    method Update(inbuf: seq<byte>)
      requires Valid()
      modifies this, buf
      ensures Valid() && message == old(message) + inbuf && count < 64
    {
      hide Process, Fold, Start, Valid;
      Flush();
      var rest := inbuf;
      if count != 0 {
        rest := Fill(rest);
        Flush();
        if rest == [] {
          assert message + rest == message;
          return;
        }
      }
      while |rest| >= 64
        invariant Valid() && message + rest == old(message) + inbuf && count == 0
        decreases |rest|
      {
        assert message + rest == message + rest[..64] + rest[64..];
        TakeBlock(rest[..64]);
        rest := rest[64..];
      }
      rest := Fill(rest);
      assert message + rest == message;
    }

    /** `hd->buf[hd->count++] = b`. */
    method Put(b: byte)
      requires Valid() && count < 64
      modifies this`count, this`message, buf
      ensures Valid() && message == old(message) + [b] && count == old(count) + 1
    {
      hide Process, Fold, Start;
      ghost var before := message;
      buf[count] := b;
      message := message + [b];
      assert message[..64 * blocks] == before[..64 * blocks];
      assert message[64 * blocks..] == before[64 * blocks..] + [b];
      count := count + 1;
    }

    /** A one bit and zeros up to 56 bytes, in this block or in the next. */
    method Pad()
      requires Valid() && count < 64
      modifies this, buf
      ensures message == old(message) + Padding(|old(message)|) && |message| == 64 * blocks + 56
      ensures buf.Length == 64 && words == Fold(Start(), message[..64 * blocks]) && buf[..56] == message[64 * blocks..]
    {
      hide Process, Fold, Start, PadCount, Overlaid;
      ghost var m := message;
      PadDepends(|m|, blocks, count);
      var end := if count < 56 then 56 else 64;
      ghost var zeros := 0;
      Put(0x80);
      while count < end
        invariant Valid() && blocks == old(blocks) && old(count) < count <= end
        invariant zeros == count - old(count) - 1
        invariant message == m + [0x80] + Zeros(zeros)
      {
        Put(0);
        assert Zeros(zeros) + [0] == Zeros(zeros + 1);
        zeros := zeros + 1;
      }
      if end == 64 {
        Flush();
        ghost var before, bytes := message, buf[..];
        MemCopy(buf, 0, Zeros(56));
        OverlaidFront(bytes, Zeros(56));
        message := message + Zeros(56);
        assert Zeros(zeros) + Zeros(56) == Zeros(zeros + 56);
        assert message[..64 * blocks] == before[..64 * blocks];
      }
    }

    /** The last block gets the length, and the buffer then gets the words. */
    method Close(lsb: nat, msb: nat)
      requires buf.Length == 64 && |message| == 64 * blocks + 56
      requires words == Fold(Start(), message[..64 * blocks]) && buf[..56] == message[64 * blocks..]
      modifies this`words, this`message, this`finalized, buf
      ensures message == old(message) + LengthBytes(lsb, msb)
      ensures buf[..16] == Stored(Fold(Start(), message)) && finalized
    {
      hide Process, Fold, Start, LengthBytes, ByteAt, Overlaid, WordByte;
      ghost var before := message;
      ghost var bytes := buf[..];
      MemCopy(buf, 56, LengthBytes(lsb, msb));
      message := message + LengthBytes(lsb, msb);
      assert buf[..] == bytes[..56] + LengthBytes(lsb, msb) by { OverlaidEnd(bytes, LengthBytes(lsb, msb)); }
      assert message[..64 * blocks] == before[..64 * blocks];
      assert buf[..] == message[64 * blocks..64 * blocks + 64];
      DigestMore(message, blocks);
      assert message[..64 * blocks + 64] == message;
      TransformBlock(buf[..]);
      bytes := buf[..];
      MemCopy(buf, 0, Stored(words));
      OverlaidFront(bytes, Stored(words));
      finalized := true;
    }

    /** `do_final`: the length is taken before the padding. */
    method DoFinal()
      requires Valid()
      modifies this, buf
      ensures finalized && buf.Length == 64 && buf[..16] == DigestByBlocks(old(message))
    {
      hide Process, Fold, Start, Stored, Padding, LengthBytes;
      ghost var m := message;
      Flush();
      var t := nblocks;
      var msb := 0;
      var lsb := t * 64 % TWO_32;
      if lsb < t { msb := msb + 1; }
      msb := msb + t / 0x400_0000;
      t := lsb;
      lsb := (t + count) % TWO_32;
      if lsb < t { msb := msb + 1; }
      t := lsb;
      lsb := t * 8 % TWO_32;
      if lsb < t { msb := msb + 1; }
      msb := (msb + t / 0x2000_0000) % TWO_32;
      assert (lsb, msb) == FinalLength(nblocks, count);
      assert (lsb, msb) == FinalLengthOf(|m|) by {
        Quotient(|m|, 64, blocks, count);
        hide FinalLength;
      }
      hide FinalLength, FinalLengthOf, Valid;
      Pad();
      Close(lsb, msb);
      assert message == m + Tail(|m|, lsb, msb);
    }

    /** `md5_final`: once finished, it says the same again. */
    method Final() returns (digest: seq<byte>)
      requires !finalized ==> Valid()
      requires buf.Length == 64
      modifies this, buf
      ensures finalized && digest == buf[..16]
      ensures digest == if old(finalized) then old(buf[..16]) else DigestByBlocks(old(message))
    {
      if !finalized {
        DoFinal();
      }
      digest := buf[..16];
    }
  }
}
