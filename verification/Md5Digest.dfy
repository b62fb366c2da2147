/** The digest of RFC 1321 as a function of the whole message, and when the
    64-bit length that File_System/md5.c computes from a block count is right. */
module Md5Digest {
  import opened Common
  import opened Md5Rounds

  const TWO_32 := 0x1_0000_0000

  function Start(): Words { Words(0x67452301, 0xefcdab89, 0x98badcfe, 0x10325476) }

  /** The whole blocks of `m`, one after the other. */
  function Fold(w: Words, m: seq<byte>): Words
    decreases |m|
  {
    if |m| < 64 then w else Fold(Process(w, m[..64]), m[64..])
  }

  lemma {:induction false} FoldBlock(w: Words, m: seq<byte>, x: Block)
    requires |m| % 64 == 0
    ensures Fold(w, m + x) == Process(Fold(w, m), x)
    decreases |m|
  {
    hide Process;
    if m == [] {
      assert m + x == x && x[..64] == x && x[64..] == [];
      assert Fold(Process(w, x), []) == Process(w, x);
    } else {
      assert (m + x)[..64] == m[..64] && (m + x)[64..] == m[64..] + x;
      FoldBlock(Process(w, m[..64]), m[64..], x);
    }
  }

  /** Byte `k` of a 32-bit count, and the eight bytes of two of them. */
  function ByteAt(c: nat, k: nat): byte {
    (c / if k == 0 then 1 else if k == 1 then 0x100 else if k == 2 then 0x10000 else 0x1000000) % 0x100
  }

  function LengthBytes(lo: nat, hi: nat): (r: seq<byte>)
    ensures |r| == 8
  {
    [ByteAt(lo, 0), ByteAt(lo, 1), ByteAt(lo, 2), ByteAt(lo, 3),
      ByteAt(hi, 0), ByteAt(hi, 1), ByteAt(hi, 2), ByteAt(hi, 3)]
  }

  function Zeros(n: nat): (r: seq<byte>)
    ensures |r| == n
  {
    seq(n, i => 0)
  }

  /** How many bytes bring `n` to 56 modulo 64, at least one. */
  function PadCount(n: int): (r: nat)
    ensures 1 <= r <= 64 && (n + r) % 64 == 56
  {
    (55 - n) % 64 + 1
  }

  function Padding(n: nat): (r: seq<byte>)
    ensures |r| == PadCount(n)
  {
    [0x80] + Zeros(PadCount(n) - 1)
  }

  function Tail(n: nat, lo: nat, hi: nat): (r: seq<byte>)
    ensures (n + |r|) % 64 == 0
  {
    Padding(n) + LengthBytes(lo, hi)
  }

  function LowBits(n: nat): nat { 8 * n % TWO_32 }

  function HighBits(n: nat): nat { 8 * n / TWO_32 % TWO_32 }

  function Stored(w: Words): seq<byte> { Bytes(w.a) + Bytes(w.b) + Bytes(w.c) + Bytes(w.d) }

  function WordByte(x: bv32, k: nat): byte
    requires k < 4
  {
    ((x >> (8 * k)) & 0xff) as int
  }

  function Bytes(x: bv32): (r: seq<byte>)
    ensures |r| == 4
  {
    [WordByte(x, 0), WordByte(x, 1), WordByte(x, 2), WordByte(x, 3)]
  }

  /** Sections 3.1 to 3.5 of RFC 1321. */
  function Digest(m: seq<byte>): seq<byte> {
    Stored(Fold(Start(), m + Tail(|m|, LowBits(|m|), HighBits(|m|))))
  }

  // ------------------------------------------------------------ the other copy's length

  /** `do_final`: the low and the high word of the bit count, from the number of
      whole blocks and of bytes behind them, each step in 32 bits. */
  function FinalLength(nblocks: nat, count: nat): (nat, nat) {
    var lsb0 := nblocks * 64 % TWO_32;
    var msb0 := (if lsb0 < nblocks then 1 else 0) + nblocks / 0x400_0000;
    var lsb1 := (lsb0 + count) % TWO_32;
    var msb1 := msb0 + if lsb1 < lsb0 then 1 else 0;
    var lsb2 := lsb1 * 8 % TWO_32;
    var msb2 := msb1 + if lsb2 < lsb1 then 1 else 0;
    (lsb2, (msb2 + lsb1 / 0x2000_0000) % TWO_32)
  }

  function FinalLengthOf(n: nat): (nat, nat) { FinalLength(n / 64 % TWO_32, n % 64) }

  function DigestByBlocks(m: seq<byte>): seq<byte> {
    var length := FinalLengthOf(|m|);
    Stored(Fold(Start(), m + Tail(|m|, length.0, length.1)))
  }

  /** The two carry tests count a carry that the shifted-out bits count again, and
      the bytes beyond 2^32 are not shifted on: the length is right only while
      neither happens. */
  predicate LengthRight(n: nat) {
    var r := n % 0x2000_0000_0000_0000;
    r < TWO_32 && r <= 8 * r % TWO_32
  }

  /** The parts of a byte count: odd bytes, blocks below 2^26, the next six bits
      of the block count, and what 32 bits of block count forget. */
  lemma Parts(n: nat) returns (top: nat, six: nat, low: nat, c: nat)
    ensures six < 64 && low < 0x400_0000 && c < 64
    ensures n == top * 0x40_0000_0000 + six * TWO_32 + low * 64 + c
    ensures n % 64 == c && n / 64 % TWO_32 == six * 0x400_0000 + low
    ensures n % TWO_32 == low * 64 + c && n / TWO_32 == top * 64 + six
  {
    var (q, r) := (n / 64, n % 64);
    var (h, l) := (q / 0x400_0000, q % 0x400_0000);
    top, six, low, c := h / 64, h % 64, l, r;
    Quotient(n, TWO_32, h, l * 64 + c);
    Quotient(q, TWO_32, top, six * 0x400_0000 + l);
  }

  /** The low word is right, adding the odd bytes never carries, and what is left
      of the high word is a sum. */
  lemma FinalLengthIs(n: nat)
    ensures var t := n / 64 % TWO_32;
      var b := n % TWO_32;
      var carry := (if t * 64 % TWO_32 < t then 1 else 0) + if 8 * b % TWO_32 < b then 1 else 0;
      && FinalLengthOf(n) == (8 * b % TWO_32, carry + t / 0x400_0000 + b / 0x2000_0000)
      && t / 0x400_0000 == n / TWO_32 % 64
      && (t < 0x400_0000 ==> t * 64 % TWO_32 == t * 64)
  {
    var top, six, low, c := Parts(n);
    var t := six * 0x400_0000 + low;
    Quotient(t * 64, TWO_32, six, low * 64);
    Quotient(t, 0x400_0000, six, low);
    Quotient(n / TWO_32, 64, top, six);
    FinalLengthSteps(t, c, low * 64);
  }

  lemma FinalLengthSteps(t: nat, c: nat, lsb0: nat)
    requires t * 64 % TWO_32 == lsb0 && lsb0 + c < TWO_32 && t / 0x400_0000 < 64
    ensures var b := lsb0 + c;
      var carry := (if lsb0 < t then 1 else 0) + if 8 * b % TWO_32 < b then 1 else 0;
      FinalLength(t, c) == (8 * b % TWO_32, carry + t / 0x400_0000 + b / 0x2000_0000)
  {
    var b := lsb0 + c;
    Quotient(b, TWO_32, 0, b);
    assert b / 0x2000_0000 < 8;
    var msb := (if lsb0 < t then 1 else 0) + t / 0x400_0000 + (if 8 * b % TWO_32 < b then 1 else 0) + b / 0x2000_0000;
    Quotient(msb, TWO_32, 0, msb);
  }

  /** Both words as they should be, from the bytes below and above 2^32. */
  lemma BitsSplit(n: nat)
    ensures LowBits(n) == 8 * (n % TWO_32) % TWO_32
    ensures HighBits(n) == 8 * (n / TWO_32 % 0x2000_0000) + n % TWO_32 / 0x2000_0000
  {
    var (h, b) := (n / TWO_32, n % TWO_32);
    var (top, low) := (b / 0x2000_0000, b % 0x2000_0000);
    Quotient(8 * b, TWO_32, top, 8 * low);
    Quotient(8 * n, TWO_32, 8 * h + top, 8 * low);
    Quotient(8 * h + top, TWO_32, h / 0x2000_0000, 8 * (h % 0x2000_0000) + top);
  }

  lemma Remainder61(n: nat)
    ensures n % 0x2000_0000_0000_0000 == (n / TWO_32 % 0x2000_0000) * TWO_32 + n % TWO_32
  {
    var h := n / TWO_32;
    Quotient(n, 0x2000_0000_0000_0000, h / 0x2000_0000, (h % 0x2000_0000) * TWO_32 + n % TWO_32);
  }

  lemma SixOf(h: nat)
    ensures h % 0x2000_0000 % 64 == h % 64
  {
    var (q, m) := (h / 0x2000_0000, h % 0x2000_0000);
    Quotient(h, 64, q * 0x80_0000 + m / 64, m % 64);
  }

  /** For every length: both words are right exactly when `LengthRight` says so. */
  lemma FinalLengthExact(n: nat)
    ensures FinalLengthOf(n) == (LowBits(n), HighBits(n)) <==> LengthRight(n)
  {
    FinalLengthIs(n);
    BitsSplit(n);
    Remainder61(n);
    SixOf(n / TWO_32);
    hide FinalLengthOf, LowBits, HighBits;
    var t := n / 64 % TWO_32;
    var b := n % TWO_32;
    var m := n / TWO_32 % 0x2000_0000;
    var carry := (if t * 64 % TWO_32 < t then 1 else 0) + if 8 * b % TWO_32 < b then 1 else 0;
    HighWordsAgree(m, t / 0x400_0000, carry);
    Concluded(n, t, b, m, carry);
  }

  lemma Concluded(n: nat, t: nat, b: nat, m: nat, carry: nat)
    requires n % 0x2000_0000_0000_0000 == m * TWO_32 + b && b < TWO_32
    requires carry == (if t * 64 % TWO_32 < t then 1 else 0) + if 8 * b % TWO_32 < b then 1 else 0
    requires m == 0 ==> t < 0x400_0000
    ensures m == 0 && carry == 0 <==> LengthRight(n)
  {
  }

  lemma HighWordsAgree(m: nat, low: nat, carry: nat)
    requires low == m % 64 && carry <= 2
    ensures carry + low == 8 * m <==> m == 0 && carry == 0
  {
  }

  /** Both copies give the same digest wherever the length is right: for every
      message shorter than 2^29 bytes, and not for all of 2^29. */
  lemma DigestsAgree(m: seq<byte>)
    requires LengthRight(|m|)
    ensures DigestByBlocks(m) == Digest(m)
  {
    FinalLengthExact(|m|);
  }

  lemma BytesTell(c: nat, d: nat)
    requires c < TWO_32 && d < TWO_32 && forall k: nat :: k < 4 ==> ByteAt(c, k) == ByteAt(d, k)
    ensures c == d
  {
    assert ByteAt(c, 0) == ByteAt(d, 0) && ByteAt(c, 1) == ByteAt(d, 1);
    assert ByteAt(c, 2) == ByteAt(d, 2) && ByteAt(c, 3) == ByteAt(d, 3);
    FromBytes(c);
    FromBytes(d);
    hide ByteAt;
  }

  lemma FromBytes(c: nat)
    requires c < TWO_32
    ensures c == ByteAt(c, 0) as int + 0x100 * ByteAt(c, 1) as int
        + 0x10000 * ByteAt(c, 2) as int + 0x1000000 * ByteAt(c, 3) as int
  {
    var c1 := c / 0x100;
    var c2 := c1 / 0x100;
    var c3 := c2 / 0x100;
    Quotient(c, 0x10000, c2, c1 % 0x100 * 0x100 + c % 0x100);
    Quotient(c, 0x1000000, c3, c2 % 0x100 * 0x10000 + c1 % 0x100 * 0x100 + c % 0x100);
  }

  /** ... and where it is not right another text is digested. */
  lemma TailsAgreeExactly(n: nat)
    ensures Tail(n, FinalLengthOf(n).0, FinalLengthOf(n).1) == Tail(n, LowBits(n), HighBits(n)) <==> LengthRight(n)
  {
    FinalLengthExact(n);
    var (lo, hi) := (LowBits(n), HighBits(n));
    var f := FinalLengthOf(n);
    if Tail(n, f.0, f.1) == Tail(n, lo, hi) {
      var p := |Padding(n)|;
      forall k: nat | k < 4 ensures ByteAt(f.1, k) == ByteAt(hi, k) {
        assert Tail(n, f.0, f.1)[p + 4 + k] == Tail(n, lo, hi)[p + 4 + k];
      }
      FinalLengthIs(n);
      BitsSplit(n);
      BytesTell(f.1, hi);
    }
  }

  lemma LengthRightBelow(n: nat)
    requires n < 0x2000_0000
    ensures LengthRight(n) && !LengthRight(0x2000_0000)
  {
  }
}
