/** The two compression functions of the repository's two copies of MD5, and the
    digest of RFC 1321 that both are for. */
module Md5Rounds {

  type byte = x: int | 0 <= x < 256

  /** A block of sixteen 32-bit words, and the four running words. */
  type Block = b: seq<byte> | |b| == 64 witness seq(64, i => 0)

  datatype Words = Words(a: bv32, b: bv32, c: bv32, d: bv32)

  /** One line of a round: which word of the block, how far to rotate, what to add. */
  datatype Op = Op(k: nat, s: nat, t: bv32)

  const T_MASK: bv32 := 0xffffffff

  function Joined(b0: byte, b1: byte, b2: byte, b3: byte): bv32 {
    (b0 as bv32) + (b1 as bv32 << 8) + (b2 as bv32 << 16) + (b3 as bv32 << 24)
  }

  /** The bytes of a word lie in the block with the low byte first. */
  function Load(x: Block, k: nat): bv32
    requires k < 16
  {
    Joined(x[4 * k], x[4 * k + 1], x[4 * k + 2], x[4 * k + 3])
  }

  predicate Sane(op: Op) { op.k < 16 && 0 < op.s < 32 }

  predicate SaneLines(ops: seq<Op>) { forall i :: 0 <= i < |ops| ==> Sane(ops[i]) }

  // ------------------------------------------------------------ P2P/md5.c

  function F(x: bv32, y: bv32, z: bv32): bv32 { (x & y) | (!x & z) }
  function G(x: bv32, y: bv32, z: bv32): bv32 { (x & z) | (y & !z) }
  function H(x: bv32, y: bv32, z: bv32): bv32 { x ^ y ^ z }
  function I(x: bv32, y: bv32, z: bv32): bv32 { y ^ (x | !z) }

  function Mix(round: nat, x: bv32, y: bv32, z: bv32): bv32 {
    if round == 0 then F(x, y, z) else if round == 1 then G(x, y, z) else if round == 2 then H(x, y, z) else I(x, y, z)
  }

  function Rotated(x: bv32, n: nat): bv32
    requires n <= 32
  {
    (x << n) | (x >> (32 - n))
  }

  function Set(a: bv32, b: bv32, m: bv32, x: bv32, s: nat, t: bv32): bv32
    requires s <= 32
  {
    Rotated(a + m + x + t, s) + b
  }

  /** The lines of the first round of `md5_process`. */
  function LinesP1(): seq<Op> {
    [
      Op(0, 7, T_MASK ^ 0x28955b87), Op(1, 12, T_MASK ^ 0x173848a9),
      Op(2, 17, 0x242070db), Op(3, 22, T_MASK ^ 0x3e423111),
      Op(4, 7, T_MASK ^ 0x0a83f050), Op(5, 12, 0x4787c62a),
      Op(6, 17, T_MASK ^ 0x57cfb9ec), Op(7, 22, T_MASK ^ 0x02b96afe),
      Op(8, 7, 0x698098d8), Op(9, 12, T_MASK ^ 0x74bb0850),
      Op(10, 17, T_MASK ^ 0x0000a44e), Op(11, 22, T_MASK ^ 0x76a32841),
      Op(12, 7, 0x6b901122), Op(13, 12, T_MASK ^ 0x02678e6c),
      Op(14, 17, T_MASK ^ 0x5986bc71), Op(15, 22, 0x49b40821)
    ]
  }

  /** The lines of the second round of `md5_process`. */
  function LinesP2(): seq<Op> {
    [
      Op(1, 5, T_MASK ^ 0x09e1da9d), Op(6, 9, T_MASK ^ 0x3fbf4cbf),
      Op(11, 14, 0x265e5a51), Op(0, 20, T_MASK ^ 0x16493855),
      Op(5, 5, T_MASK ^ 0x29d0efa2), Op(10, 9, 0x02441453),
      Op(15, 14, T_MASK ^ 0x275e197e), Op(4, 20, T_MASK ^ 0x182c0437),
      Op(9, 5, 0x21e1cde6), Op(14, 9, T_MASK ^ 0x3cc8f829),
      Op(3, 14, T_MASK ^ 0x0b2af278), Op(8, 20, 0x455a14ed),
      Op(13, 5, T_MASK ^ 0x561c16fa), Op(2, 9, T_MASK ^ 0x03105c07),
      Op(7, 14, 0x676f02d9), Op(12, 20, T_MASK ^ 0x72d5b375)
    ]
  }

  /** The lines of the third round of `md5_process`. */
  function LinesP3(): seq<Op> {
    [
      Op(5, 4, T_MASK ^ 0x0005c6bd), Op(8, 11, T_MASK ^ 0x788e097e),
      Op(11, 16, 0x6d9d6122), Op(14, 23, T_MASK ^ 0x021ac7f3),
      Op(1, 4, T_MASK ^ 0x5b4115bb), Op(4, 11, 0x4bdecfa9),
      Op(7, 16, T_MASK ^ 0x0944b49f), Op(10, 23, T_MASK ^ 0x4140438f),
      Op(13, 4, 0x289b7ec6), Op(0, 11, T_MASK ^ 0x155ed805),
      Op(3, 16, T_MASK ^ 0x2b10cf7a), Op(6, 23, 0x04881d05),
      Op(9, 4, T_MASK ^ 0x262b2fc6), Op(12, 11, T_MASK ^ 0x1924661a),
      Op(15, 16, 0x1fa27cf8), Op(2, 23, T_MASK ^ 0x3b53a99a)
    ]
  }

  /** The lines of the fourth round of `md5_process`. */
  function LinesP4(): seq<Op> {
    [
      Op(0, 6, T_MASK ^ 0x0bd6ddbb), Op(7, 10, 0x432aff97),
      Op(14, 15, T_MASK ^ 0x546bdc58), Op(5, 21, T_MASK ^ 0x036c5fc6),
      Op(12, 6, 0x655b59c3), Op(3, 10, T_MASK ^ 0x70f3336d),
      Op(10, 15, T_MASK ^ 0x00100b82), Op(1, 21, T_MASK ^ 0x7a7ba22e),
      Op(8, 6, 0x6fa87e4f), Op(15, 10, T_MASK ^ 0x01d3191f),
      Op(6, 15, T_MASK ^ 0x5cfebceb), Op(13, 21, 0x4e0811a1),
      Op(4, 6, T_MASK ^ 0x08ac817d), Op(11, 10, T_MASK ^ 0x42c50dca),
      Op(2, 15, 0x2ad7d2bb), Op(9, 21, T_MASK ^ 0x14792c6e)
    ]
  }

  function LinesP(round: nat): seq<Op> {
    if round == 0 then LinesP1() else if round == 1 then LinesP2() else if round == 2 then LinesP3() else LinesP4()
  }

  /** Each line changes one word, and the four take turns. */
  function RoundP(round: nat, ops: seq<Op>, x: Block, w: Words): Words
    requires SaneLines(ops)
  {
    if ops == [] then w else
    var a := Set(w.a, w.b, Mix(round, w.b, w.c, w.d), Load(x, ops[0].k), ops[0].s, ops[0].t);
    RoundP(round, ops[1..], x, Words(w.d, a, w.b, w.c))
  }

  function Sum(w: Words, v: Words): Words { Words(w.a + v.a, w.b + v.b, w.c + v.c, w.d + v.d) }

  function Process(w: Words, x: Block): Words {
    LinesSane();
    Sum(w, RoundP(3, LinesP(3), x, RoundP(2, LinesP(2), x, RoundP(1, LinesP(1), x, RoundP(0, LinesP(0), x, w)))))
  }

  lemma LinesSane1() ensures SaneLines(LinesP1()) && SaneLines(LinesL1()) {}
  lemma LinesSane2() ensures SaneLines(LinesP2()) && SaneLines(LinesL2()) {}
  lemma LinesSane3() ensures SaneLines(LinesP3()) && SaneLines(LinesL3()) {}
  lemma LinesSane4() ensures SaneLines(LinesP4()) && SaneLines(LinesL4()) {}

  lemma LinesSane()
    ensures forall r: nat :: SaneLines(LinesP(r)) && SaneLines(LinesL(r))
  {
    hide LinesP1, LinesP2, LinesP3, LinesP4, LinesL1, LinesL2, LinesL3, LinesL4, SaneLines;
    LinesSane1();
    LinesSane2();
    LinesSane3();
    LinesSane4();
  }

  // ------------------------------------------------------------ File_System/md5.c

  function FF(b: bv32, c: bv32, d: bv32): bv32 { d ^ (b & (c ^ d)) }
  function FG(b: bv32, c: bv32, d: bv32): bv32 { FF(d, b, c) }
  function FH(b: bv32, c: bv32, d: bv32): bv32 { b ^ c ^ d }
  function FI(b: bv32, c: bv32, d: bv32): bv32 { c ^ (b | !d) }

  function MixL(round: nat, b: bv32, c: bv32, d: bv32): bv32 {
    if round == 0 then FF(b, c, d) else if round == 1 then FG(b, c, d)
      else if round == 2 then FH(b, c, d) else FI(b, c, d)
  }

  function OpL(a: bv32, b: bv32, m: bv32, x: bv32, s: nat, t: bv32): bv32
    requires s <= 32
  {
    var a1 := a + (m + x + t);
    var a2 := Rotated(a1, s);
    a2 + b
  }

  /** The lines of the first round of `transform`. */
  function LinesL1(): seq<Op> {
    [
      Op(0, 7, 0xd76aa478), Op(1, 12, 0xe8c7b756),
      Op(2, 17, 0x242070db), Op(3, 22, 0xc1bdceee),
      Op(4, 7, 0xf57c0faf), Op(5, 12, 0x4787c62a),
      Op(6, 17, 0xa8304613), Op(7, 22, 0xfd469501),
      Op(8, 7, 0x698098d8), Op(9, 12, 0x8b44f7af),
      Op(10, 17, 0xffff5bb1), Op(11, 22, 0x895cd7be),
      Op(12, 7, 0x6b901122), Op(13, 12, 0xfd987193),
      Op(14, 17, 0xa679438e), Op(15, 22, 0x49b40821)
    ]
  }

  /** The lines of the second round of `transform`. */
  function LinesL2(): seq<Op> {
    [
      Op(1, 5, 0xf61e2562), Op(6, 9, 0xc040b340),
      Op(11, 14, 0x265e5a51), Op(0, 20, 0xe9b6c7aa),
      Op(5, 5, 0xd62f105d), Op(10, 9, 0x02441453),
      Op(15, 14, 0xd8a1e681), Op(4, 20, 0xe7d3fbc8),
      Op(9, 5, 0x21e1cde6), Op(14, 9, 0xc33707d6),
      Op(3, 14, 0xf4d50d87), Op(8, 20, 0x455a14ed),
      Op(13, 5, 0xa9e3e905), Op(2, 9, 0xfcefa3f8),
      Op(7, 14, 0x676f02d9), Op(12, 20, 0x8d2a4c8a)
    ]
  }

  /** The lines of the third round of `transform`. */
  function LinesL3(): seq<Op> {
    [
      Op(5, 4, 0xfffa3942), Op(8, 11, 0x8771f681),
      Op(11, 16, 0x6d9d6122), Op(14, 23, 0xfde5380c),
      Op(1, 4, 0xa4beea44), Op(4, 11, 0x4bdecfa9),
      Op(7, 16, 0xf6bb4b60), Op(10, 23, 0xbebfbc70),
      Op(13, 4, 0x289b7ec6), Op(0, 11, 0xeaa127fa),
      Op(3, 16, 0xd4ef3085), Op(6, 23, 0x04881d05),
      Op(9, 4, 0xd9d4d039), Op(12, 11, 0xe6db99e5),
      Op(15, 16, 0x1fa27cf8), Op(2, 23, 0xc4ac5665)
    ]
  }

  /** The lines of the fourth round of `transform`. */
  function LinesL4(): seq<Op> {
    [
      Op(0, 6, 0xf4292244), Op(7, 10, 0x432aff97),
      Op(14, 15, 0xab9423a7), Op(5, 21, 0xfc93a039),
      Op(12, 6, 0x655b59c3), Op(3, 10, 0x8f0ccc92),
      Op(10, 15, 0xffeff47d), Op(1, 21, 0x85845dd1),
      Op(8, 6, 0x6fa87e4f), Op(15, 10, 0xfe2ce6e0),
      Op(6, 15, 0xa3014314), Op(13, 21, 0x4e0811a1),
      Op(4, 6, 0xf7537e82), Op(11, 10, 0xbd3af235),
      Op(2, 15, 0x2ad7d2bb), Op(9, 21, 0xeb86d391)
    ]
  }

  function LinesL(round: nat): seq<Op> {
    if round == 0 then LinesL1() else if round == 1 then LinesL2() else if round == 2 then LinesL3() else LinesL4()
  }

  function RoundL(round: nat, ops: seq<Op>, x: Block, w: Words): Words
    requires SaneLines(ops)
  {
    if ops == [] then w else
    var a := OpL(w.a, w.b, MixL(round, w.b, w.c, w.d), Load(x, ops[0].k), ops[0].s, ops[0].t);
    RoundL(round, ops[1..], x, Words(w.d, a, w.b, w.c))
  }

  function Transform(w: Words, x: Block): Words {
    LinesSane();
    Sum(w, RoundL(3, LinesL(3), x, RoundL(2, LinesL(2), x, RoundL(1, LinesL(1), x, RoundL(0, LinesL(0), x, w)))))
  }

  // ------------------------------------------------------------ they are the same

  lemma BitsF(x: bv32, y: bv32, z: bv32) ensures (x & y) | (!x & z) == z ^ (x & (y ^ z)) {}
  lemma BitsG(x: bv32, y: bv32, z: bv32) ensures (x & z) | (y & !z) == y ^ (z & (x ^ y)) {}
  lemma SameF(x: bv32, y: bv32, z: bv32) ensures F(x, y, z) == FF(x, y, z) { BitsF(x, y, z); }
  lemma SameG(x: bv32, y: bv32, z: bv32) ensures G(x, y, z) == FG(x, y, z) { BitsG(x, y, z); }
  lemma SameH(x: bv32, y: bv32, z: bv32) ensures H(x, y, z) == FH(x, y, z) {}
  lemma SameI(x: bv32, y: bv32, z: bv32) ensures I(x, y, z) == FI(x, y, z) {}

  /** The mixing functions of section 3.4 of RFC 1321 and the ones rewritten to
      save an operation. */
  lemma SameMix(round: nat, x: bv32, y: bv32, z: bv32)
    ensures Mix(round, x, y, z) == MixL(round, x, y, z)
  {
    hide F, G, H, I, FF, FG, FH, FI;
    SameF(x, y, z);
    SameG(x, y, z);
    SameH(x, y, z);
    SameI(x, y, z);
  }

  lemma SumsRegroup(a: bv32, m: bv32, x: bv32, t: bv32)
    ensures a + m + x + t == a + (m + x + t)
  {
  }

  lemma SameSet(a: bv32, b: bv32, m: bv32, x: bv32, s: nat, t: bv32)
    requires s <= 32
    ensures Set(a, b, m, x, s, t) == OpL(a, b, m, x, s, t)
  {
    SumsRegroup(a, m, x, t);
  }

  lemma SameLines1() ensures LinesP1() == LinesL1() {}
  lemma SameLines2() ensures LinesP2() == LinesL2() {}
  lemma SameLines3() ensures LinesP3() == LinesL3() {}
  lemma SameLines4() ensures LinesP4() == LinesL4() {}

  lemma {:induction false} SameRound(round: nat, ops: seq<Op>, x: Block, w: Words)
    requires SaneLines(ops)
    ensures RoundP(round, ops, x, w) == RoundL(round, ops, x, w)
    decreases |ops|
  {
    hide Mix, MixL, Set, OpL, Load;
    if ops != [] {
      SameMix(round, w.b, w.c, w.d);
      var m := Mix(round, w.b, w.c, w.d);
      SameSet(w.a, w.b, m, Load(x, ops[0].k), ops[0].s, ops[0].t);
      SameRound(round, ops[1..], x, Words(w.d, Set(w.a, w.b, m, Load(x, ops[0].k), ops[0].s, ops[0].t), w.b, w.c));
    }
  }

  /** The rewritten mixing functions, the constants written as complements and the
      regrouped sums make no difference: both copies compress alike. */
  lemma SameCompression(w: Words, x: Block)
    ensures Process(w, x) == Transform(w, x)
  {
    hide RoundP, RoundL, LinesP1, LinesP2, LinesP3, LinesP4, LinesL1, LinesL2, LinesL3, LinesL4;
    LinesSane();
    SameLines1();
    SameLines2();
    SameLines3();
    SameLines4();
    var w1 := RoundP(0, LinesP(0), x, w);
    var w2 := RoundP(1, LinesP(1), x, w1);
    var w3 := RoundP(2, LinesP(2), x, w2);
    SameRound(0, LinesP(0), x, w);
    SameRound(1, LinesP(1), x, w1);
    SameRound(2, LinesP(2), x, w2);
    SameRound(3, LinesP(3), x, w3);
  }
}
