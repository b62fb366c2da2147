/** Values that RFC 1321 gives: where the running words start (section 3.3), and
    the digests of the empty message and of "abc" (section A.5), with the word that
    every line of every round computes on the way. */
module Md5Vectors {
  import opened Md5Rounds
  import opened Md5Digest

  // ------------------------------------------------------------ the start

  lemma StartA() ensures Bytes(0x67452301) == [0x01, 0x23, 0x45, 0x67] {}
  lemma StartB() ensures Bytes(0xefcdab89) == [0x89, 0xab, 0xcd, 0xef] {}
  lemma StartC() ensures Bytes(0x98badcfe) == [0xfe, 0xdc, 0xba, 0x98] {}
  lemma StartD() ensures Bytes(0x10325476) == [0x76, 0x54, 0x32, 0x10] {}

  /** The sixteen bytes of section 3.3. */
  lemma StartStored()
    ensures Stored(Start())
         == [0x01, 0x23, 0x45, 0x67, 0x89, 0xab, 0xcd, 0xef, 0xfe, 0xdc, 0xba, 0x98, 0x76, 0x54, 0x32, 0x10]
  {
    hide Bytes;
    StartA();
    StartB();
    StartC();
    StartD();
  }

  // ------------------------------------------------------------ one round

  /** What one line of a round makes of the last four words, the oldest first. */
  function Line(round: nat, op: Op, m: bv32, a: bv32, d: bv32, c: bv32, b: bv32): bv32
    requires op.s <= 32
  {
    Set(a, b, Mix(round, b, c, d), m, op.s, op.t)
  }

  function WordsOf(q: seq<bv32>, i: nat): Words
    requires i + 4 <= |q|
  {
    Words(q[i], q[i + 3], q[i + 2], q[i + 1])
  }

  ghost predicate LineAt(round: nat, ops: seq<Op>, x: Block, q: seq<bv32>, i: nat)
    requires SaneLines(ops) && i < |ops| && |q| == |ops| + 4
  {
    q[i + 4] == Line(round, ops[i], Load(x, ops[i].k), q[i], q[i + 1], q[i + 2], q[i + 3])
  }

  /** `q` are the four words that a round starts from and then those it computes. */
  ghost predicate Computes(round: nat, ops: seq<Op>, x: Block, q: seq<bv32>)
    requires SaneLines(ops)
  {
    |q| == |ops| + 4 && forall i: nat :: i < |ops| ==> LineAt(round, ops, x, q, i)
  }

  lemma OneLine(round: nat, ops: seq<Op>, x: Block, q: seq<bv32>)
    requires SaneLines(ops) && |q| == |ops| + 4 && ops != [] && LineAt(round, ops, x, q, 0)
    ensures SaneLines(ops[1..])
    ensures RoundP(round, ops, x, WordsOf(q, 0)) == RoundP(round, ops[1..], x, WordsOf(q, 1))
  {
    hide Load, Set, Mix;
  }

  lemma NoLines(round: nat, x: Block, q: seq<bv32>)
    requires |q| == 4
    ensures RoundP(round, [], x, WordsOf(q, 0)) == WordsOf(q, 0)
  {
  }

  lemma {:induction false} RoundComputes(round: nat, ops: seq<Op>, x: Block, q: seq<bv32>)
    requires SaneLines(ops) && Computes(round, ops, x, q)
    ensures RoundP(round, ops, x, WordsOf(q, 0)) == WordsOf(q, |ops|)
    decreases |ops|
  {
    hide Line, RoundP, Load;
    if ops == [] {
      NoLines(round, x, q);
    } else {
      OneLine(round, ops, x, q);
      forall i: nat | i < |ops[1..]|
        ensures LineAt(round, ops[1..], x, q[1..], i)
      {
        assert LineAt(round, ops, x, q, i + 1);
      }
      RoundComputes(round, ops[1..], x, q[1..]);
      assert WordsOf(q[1..], |ops| - 1) == WordsOf(q, |ops|);
      assert WordsOf(q[1..], 0) == WordsOf(q, 1);
    }
  }

  // ------------------------------------------------------------ one block

  /** The message, its padding and its length. */
  function Padded(m: seq<byte>): seq<byte> {
    m + Tail(|m|, LowBits(|m|), HighBits(|m|))
  }

  lemma LoadIsZero(x: Block, k: nat)
    requires k < 16 && x[4 * k] == x[4 * k + 1] == x[4 * k + 2] == x[4 * k + 3] == 0
    ensures Load(x, k) == 0
  {
  }

  lemma OneBlock(m: seq<byte>)
    requires |Padded(m)| == 64
    ensures Digest(m) == Stored(Process(Start(), Padded(m)))
  {
    hide Process, Stored;
    FoldBlock(Start(), [], Padded(m));
    assert [] + Padded(m) == Padded(m);
  }

  // ------------------------------------------------------------ the empty message

  const EMPTY: seq<byte> := []

  lemma EmptyPadded()
    ensures Padded(EMPTY) == [0x80] + Zeros(63)
  {
    assert LengthBytes(0, 0) == Zeros(8);
  }

  lemma EmptyLoadsFirst(x: Block)
    requires x[0] == 0x80 && x[1] == x[2] == x[3] == 0
    ensures Load(x, 0) == 0x80
  {
  }

  lemma EmptyLoads(k: nat)
    requires k < 16
    ensures |Padded(EMPTY)| == 64 && Load(Padded(EMPTY), k) == if k == 0 then 0x80 else 0
  {
    EmptyPadded();
    hide Load, Padded;
    if k == 0 { EmptyLoadsFirst(Padded(EMPTY)); } else { LoadIsZero(Padded(EMPTY), k); }
  }

  lemma EmptyLinesOne()
    ensures Line(0, Op(0, 7, 0xd76aa478), 0x80, 0x67452301, 0x10325476, 0x98badcfe, 0xefcdab89) == 0xa5202774
    ensures Line(0, Op(1, 12, 0xe8c7b756), 0x0, 0x10325476, 0x98badcfe, 0xefcdab89, 0xa5202774) == 0xf59592dd
    ensures Line(0, Op(2, 17, 0x242070db), 0x0, 0x98badcfe, 0xefcdab89, 0xa5202774, 0xf59592dd) == 0xe7f06b23
    ensures Line(0, Op(3, 22, 0xc1bdceee), 0x0, 0xefcdab89, 0xa5202774, 0xf59592dd, 0xe7f06b23) == 0x1b163203
    ensures Line(0, Op(4, 7, 0xf57c0faf), 0x0, 0xa5202774, 0xf59592dd, 0xe7f06b23, 0x1b163203) == 0x32033344
    ensures Line(0, Op(5, 12, 0x4787c62a), 0x0, 0xf59592dd, 0xe7f06b23, 0x1b163203, 0x32033344) == 0x2f35d494
    ensures Line(0, Op(6, 17, 0xa8304613), 0x0, 0xe7f06b23, 0x1b163203, 0x32033344, 0x2f35d494) == 0xf5b158db
    ensures Line(0, Op(7, 22, 0xfd469501), 0x0, 0x1b163203, 0x32033344, 0x2f35d494, 0xf5b158db) == 0x9bc13ce9
    ensures Line(0, Op(8, 7, 0x698098d8), 0x0, 0x32033344, 0x2f35d494, 0xf5b158db, 0x9bc13ce9) == 0x3893b991
    ensures Line(0, Op(9, 12, 0x8b44f7af), 0x0, 0x2f35d494, 0xf5b158db, 0x9bc13ce9, 0x3893b991) == 0xfce4a312
    ensures Line(0, Op(10, 17, 0xffff5bb1), 0x0, 0xf5b158db, 0x9bc13ce9, 0x3893b991, 0xfce4a312) == 0xe1ef0576
    ensures Line(0, Op(11, 22, 0x895cd7be), 0x0, 0x9bc13ce9, 0x3893b991, 0xfce4a312, 0xe1ef0576) == 0x70768a29
    ensures Line(0, Op(12, 7, 0x6b901122), 0x0, 0x3893b991, 0xfce4a312, 0xe1ef0576, 0x70768a29) == 0xf56c7cf1
    ensures Line(0, Op(13, 12, 0xfd987193), 0x0, 0xfce4a312, 0xe1ef0576, 0x70768a29, 0xf56c7cf1) == 0x374943a7
    ensures Line(0, Op(14, 17, 0xa679438e), 0x0, 0xe1ef0576, 0x70768a29, 0xf56c7cf1, 0x374943a7) == 0x5aa53f75
    ensures Line(0, Op(15, 22, 0x49b40821), 0x0, 0x70768a29, 0xf56c7cf1, 0x374943a7, 0x5aa53f75) == 0xd6819c6a
  {
  }

  /** The words of round 1. */
  function EmptyWordsOne(): seq<bv32> {
    [
      0x67452301, 0x10325476, 0x98badcfe, 0xefcdab89, 0xa5202774, 0xf59592dd, 0xe7f06b23, 0x1b163203, 0x32033344,
      0x2f35d494, 0xf5b158db, 0x9bc13ce9, 0x3893b991, 0xfce4a312, 0xe1ef0576, 0x70768a29, 0xf56c7cf1, 0x374943a7,
      0x5aa53f75, 0xd6819c6a
    ]
  }

  lemma EmptyAtOne(i: nat)
    requires i < 16
    ensures SaneLines(LinesL1()) && |LinesL1()| == 16 && |EmptyWordsOne()| == 20
    ensures |Padded(EMPTY)| == 64 && LineAt(0, LinesL1(), Padded(EMPTY), EmptyWordsOne(), i)
  {
    hide Line, Load, Padded;
    EmptyLinesOne();
    EmptyLoads(LinesL1()[i].k);
    assert i == 0 || i == 1 || i == 2 || i == 3 || i == 4 || i == 5 || i == 6 || i == 7
        || i == 8 || i == 9 || i == 10 || i == 11 || i == 12 || i == 13 || i == 14 || i == 15;
  }

  lemma EmptyOne()
    ensures |Padded(EMPTY)| == 64 && SaneLines(LinesP(0))
    ensures RoundP(0, LinesP(0), Padded(EMPTY), Words(0x67452301, 0xefcdab89, 0x98badcfe, 0x10325476))
         == Words(0xf56c7cf1, 0xd6819c6a, 0x5aa53f75, 0x374943a7)
  {
    hide LineAt, Padded, RoundP, LinesP1, LinesL1, SaneLines;
    SameLines1();
    EmptyAtOne(0);
    forall i: nat | i < 16
      ensures LineAt(0, LinesL1(), Padded(EMPTY), EmptyWordsOne(), i)
    {
      EmptyAtOne(i);
    }
    RoundComputes(0, LinesL1(), Padded(EMPTY), EmptyWordsOne());
  }

  lemma EmptyLinesTwo()
    ensures Line(1, Op(1, 5, 0xf61e2562), 0x0, 0xf56c7cf1, 0x374943a7, 0x5aa53f75, 0xd6819c6a) == 0x1c7d7513
    ensures Line(1, Op(6, 9, 0xc040b340), 0x0, 0x374943a7, 0x5aa53f75, 0xd6819c6a, 0x1c7d7513) == 0x7bd57a3a
    ensures Line(1, Op(11, 14, 0x265e5a51), 0x0, 0x5aa53f75, 0xd6819c6a, 0x1c7d7513, 0x7bd57a3a) == 0xc095f13a
    ensures Line(1, Op(0, 20, 0xe9b6c7aa), 0x80, 0xd6819c6a, 0x1c7d7513, 0x7bd57a3a, 0xc095f13a) == 0xbd782e17
    ensures Line(1, Op(5, 5, 0xd62f105d), 0x0, 0x1c7d7513, 0x7bd57a3a, 0xc095f13a, 0xbd782e17) == 0x3d1e3e6c
    ensures Line(1, Op(10, 9, 0x02441453), 0x0, 0x7bd57a3a, 0xc095f13a, 0xbd782e17, 0x3d1e3e6c) == 0x68b7b3e3
    ensures Line(1, Op(15, 14, 0xd8a1e681), 0x0, 0xc095f13a, 0xbd782e17, 0x3d1e3e6c, 0x68b7b3e3) == 0xeb41643e
    ensures Line(1, Op(4, 20, 0xe7d3fbc8), 0x0, 0xbd782e17, 0x3d1e3e6c, 0x68b7b3e3, 0xeb41643e) == 0xe422531a
    ensures Line(1, Op(9, 5, 0x21e1cde6), 0x0, 0x3d1e3e6c, 0x68b7b3e3, 0xeb41643e, 0xe422531a) == 0x306ec122
    ensures Line(1, Op(14, 9, 0xc33707d6), 0x0, 0x68b7b3e3, 0xeb41643e, 0xe422531a, 0x306ec122) == 0xd28c77c2
    ensures Line(1, Op(3, 14, 0xf4d50d87), 0x0, 0xeb41643e, 0xe422531a, 0x306ec122, 0xd28c77c2) == 0xa3c663da
    ensures Line(1, Op(8, 20, 0x455a14ed), 0x0, 0xe422531a, 0x306ec122, 0xd28c77c2, 0xa3c663da) == 0xa0572807
    ensures Line(1, Op(13, 5, 0xa9e3e905), 0x0, 0x306ec122, 0xd28c77c2, 0xa3c663da, 0xa0572807) == 0x13707036
    ensures Line(1, Op(2, 9, 0xfcefa3f8), 0x0, 0xd28c77c2, 0xa3c663da, 0xa0572807, 0x13707036) == 0xae7813db
    ensures Line(1, Op(7, 14, 0x676f02d9), 0x0, 0xa3c663da, 0xa0572807, 0x13707036, 0xae7813db) == 0x1c31c384
    ensures Line(1, Op(12, 20, 0x8d2a4c8a), 0x0, 0xa0572807, 0x13707036, 0xae7813db, 0x1c31c384) == 0xa2205f1f
  {
  }

  /** The words of round 2. */
  function EmptyWordsTwo(): seq<bv32> {
    [
      0xf56c7cf1, 0x374943a7, 0x5aa53f75, 0xd6819c6a, 0x1c7d7513, 0x7bd57a3a, 0xc095f13a, 0xbd782e17, 0x3d1e3e6c,
      0x68b7b3e3, 0xeb41643e, 0xe422531a, 0x306ec122, 0xd28c77c2, 0xa3c663da, 0xa0572807, 0x13707036, 0xae7813db,
      0x1c31c384, 0xa2205f1f
    ]
  }

  lemma EmptyAtTwo(i: nat)
    requires i < 16
    ensures SaneLines(LinesL2()) && |LinesL2()| == 16 && |EmptyWordsTwo()| == 20
    ensures |Padded(EMPTY)| == 64 && LineAt(1, LinesL2(), Padded(EMPTY), EmptyWordsTwo(), i)
  {
    hide Line, Load, Padded;
    EmptyLinesTwo();
    EmptyLoads(LinesL2()[i].k);
    assert i == 0 || i == 1 || i == 2 || i == 3 || i == 4 || i == 5 || i == 6 || i == 7
        || i == 8 || i == 9 || i == 10 || i == 11 || i == 12 || i == 13 || i == 14 || i == 15;
  }

  lemma EmptyTwo()
    ensures |Padded(EMPTY)| == 64 && SaneLines(LinesP(1))
    ensures RoundP(1, LinesP(1), Padded(EMPTY), Words(0xf56c7cf1, 0xd6819c6a, 0x5aa53f75, 0x374943a7))
         == Words(0x13707036, 0xa2205f1f, 0x1c31c384, 0xae7813db)
  {
    hide LineAt, Padded, RoundP, LinesP2, LinesL2, SaneLines;
    SameLines2();
    EmptyAtTwo(0);
    forall i: nat | i < 16
      ensures LineAt(1, LinesL2(), Padded(EMPTY), EmptyWordsTwo(), i)
    {
      EmptyAtTwo(i);
    }
    RoundComputes(1, LinesL2(), Padded(EMPTY), EmptyWordsTwo());
  }

  lemma EmptyLinesThree()
    ensures Line(2, Op(5, 4, 0xfffa3942), 0x0, 0x13707036, 0xae7813db, 0x1c31c384, 0xa2205f1f) == 0xdf63eaa1
    ensures Line(2, Op(8, 11, 0x8771f681), 0x0, 0xae7813db, 0x1c31c384, 0xa2205f1f, 0xdf63eaa1) == 0xc3689f5b
    ensures Line(2, Op(11, 16, 0x6d9d6122), 0x0, 0x1c31c384, 0xa2205f1f, 0xdf63eaa1, 0xc3689f5b) == 0x12f3e755
    ensures Line(2, Op(14, 23, 0xfde5380c), 0x0, 0xa2205f1f, 0xdf63eaa1, 0xc3689f5b, 0x12f3e755) == 0x004b6669
    ensures Line(2, Op(1, 4, 0xa4beea44), 0x0, 0xdf63eaa1, 0xc3689f5b, 0x12f3e755, 0x004b6669) == 0x5f7a9b2e
    ensures Line(2, Op(4, 11, 0x4bdecfa9), 0x0, 0xc3689f5b, 0x12f3e755, 0x004b6669, 0x5f7a9b2e) == 0xabc34e16
    ensures Line(2, Op(7, 16, 0xf6bb4b60), 0x0, 0x12f3e755, 0x004b6669, 0x5f7a9b2e, 0xabc34e16) == 0x91ca4cb7
    ensures Line(2, Op(10, 23, 0xbebfbc70), 0x0, 0x004b6669, 0x5f7a9b2e, 0xabc34e16, 0x91ca4cb7) == 0xc5dc8c15
    ensures Line(2, Op(13, 4, 0x289b7ec6), 0x0, 0x5f7a9b2e, 0xabc34e16, 0x91ca4cb7, 0xc5dc8c15) == 0x4497169d
    ensures Line(2, Op(0, 11, 0xeaa127fa), 0x80, 0xabc34e16, 0x91ca4cb7, 0xc5dc8c15, 0x4497169d) == 0x76fd93d4
    ensures Line(2, Op(3, 16, 0xd4ef3085), 0x0, 0x91ca4cb7, 0xc5dc8c15, 0x4497169d, 0x76fd93d4) == 0xfd95f243
    ensures Line(2, Op(6, 23, 0x04881d05), 0x0, 0xc5dc8c15, 0x4497169d, 0x76fd93d4, 0xfd95f243) == 0x0fe32453
    ensures Line(2, Op(9, 4, 0xd9d4d039), 0x0, 0x4497169d, 0x76fd93d4, 0xfd95f243, 0x0fe32453) == 0x3f55edfd
    ensures Line(2, Op(12, 11, 0xe6db99e5), 0x0, 0x76fd93d4, 0xfd95f243, 0x0fe32453, 0x3f55edfd) == 0x22a31f54
    ensures Line(2, Op(15, 16, 0x1fa27cf8), 0x0, 0xfd95f243, 0x0fe32453, 0x3f55edfd, 0x22a31f54) == 0x68d84ea2
    ensures Line(2, Op(2, 23, 0xc4ac5665), 0x0, 0x0fe32453, 0x3f55edfd, 0x22a31f54, 0x68d84ea2) == 0xca7d2dbd
  {
  }

  /** The words of round 3. */
  function EmptyWordsThree(): seq<bv32> {
    [
      0x13707036, 0xae7813db, 0x1c31c384, 0xa2205f1f, 0xdf63eaa1, 0xc3689f5b, 0x12f3e755, 0x004b6669, 0x5f7a9b2e,
      0xabc34e16, 0x91ca4cb7, 0xc5dc8c15, 0x4497169d, 0x76fd93d4, 0xfd95f243, 0x0fe32453, 0x3f55edfd, 0x22a31f54,
      0x68d84ea2, 0xca7d2dbd
    ]
  }

  lemma EmptyAtThree(i: nat)
    requires i < 16
    ensures SaneLines(LinesL3()) && |LinesL3()| == 16 && |EmptyWordsThree()| == 20
    ensures |Padded(EMPTY)| == 64 && LineAt(2, LinesL3(), Padded(EMPTY), EmptyWordsThree(), i)
  {
    hide Line, Load, Padded;
    EmptyLinesThree();
    EmptyLoads(LinesL3()[i].k);
    assert i == 0 || i == 1 || i == 2 || i == 3 || i == 4 || i == 5 || i == 6 || i == 7
        || i == 8 || i == 9 || i == 10 || i == 11 || i == 12 || i == 13 || i == 14 || i == 15;
  }

  lemma EmptyThree()
    ensures |Padded(EMPTY)| == 64 && SaneLines(LinesP(2))
    ensures RoundP(2, LinesP(2), Padded(EMPTY), Words(0x13707036, 0xa2205f1f, 0x1c31c384, 0xae7813db))
         == Words(0x3f55edfd, 0xca7d2dbd, 0x68d84ea2, 0x22a31f54)
  {
    hide LineAt, Padded, RoundP, LinesP3, LinesL3, SaneLines;
    SameLines3();
    EmptyAtThree(0);
    forall i: nat | i < 16
      ensures LineAt(2, LinesL3(), Padded(EMPTY), EmptyWordsThree(), i)
    {
      EmptyAtThree(i);
    }
    RoundComputes(2, LinesL3(), Padded(EMPTY), EmptyWordsThree());
  }

  lemma EmptyLinesFour()
    ensures Line(3, Op(0, 6, 0xf4292244), 0x80, 0x3f55edfd, 0x22a31f54, 0x68d84ea2, 0xca7d2dbd) == 0x93aa2577
    ensures Line(3, Op(7, 10, 0x432aff97), 0x0, 0x22a31f54, 0x68d84ea2, 0xca7d2dbd, 0x93aa2577) == 0x1688dc85
    ensures Line(3, Op(14, 15, 0xab9423a7), 0x0, 0x68d84ea2, 0xca7d2dbd, 0x93aa2577, 0x1688dc85) == 0xcd85b8cb
    ensures Line(3, Op(5, 21, 0xfc93a039), 0x0, 0xca7d2dbd, 0x93aa2577, 0x1688dc85, 0xcd85b8cb) == 0x561e0689
    ensures Line(3, Op(12, 6, 0x655b59c3), 0x0, 0x93aa2577, 0x1688dc85, 0xcd85b8cb, 0x561e0689) == 0x5625a114
    ensures Line(3, Op(3, 10, 0x8f0ccc92), 0x0, 0x1688dc85, 0xcd85b8cb, 0x561e0689, 0x5625a114) == 0x3450f42b
    ensures Line(3, Op(10, 15, 0xffeff47d), 0x0, 0xcd85b8cb, 0x561e0689, 0x5625a114, 0x3450f42b) == 0x392ad0d0
    ensures Line(3, Op(1, 21, 0x85845dd1), 0x0, 0x561e0689, 0x5625a114, 0x3450f42b, 0x392ad0d0) == 0x1e77fa61
    ensures Line(3, Op(8, 6, 0x6fa87e4f), 0x0, 0x5625a114, 0x3450f42b, 0x392ad0d0, 0x1e77fa61) == 0x474a9c8c
    ensures Line(3, Op(15, 10, 0xfe2ce6e0), 0x0, 0x3450f42b, 0x392ad0d0, 0x1e77fa61, 0x474a9c8c) == 0xdfce00bc
    ensures Line(3, Op(6, 15, 0xa3014314), 0x0, 0x392ad0d0, 0x1e77fa61, 0x474a9c8c, 0xdfce00bc) == 0x36594b14
    ensures Line(3, Op(13, 21, 0x4e0811a1), 0x0, 0x1e77fa61, 0x474a9c8c, 0xdfce00bc, 0x36594b14) == 0x30130182
    ensures Line(3, Op(4, 6, 0xf7537e82), 0x0, 0x474a9c8c, 0xdfce00bc, 0x36594b14, 0x30130182) == 0x7246fad3
    ensures Line(3, Op(11, 10, 0xbd3af235), 0x0, 0xdfce00bc, 0x36594b14, 0x30130182, 0x7246fad3) == 0x6e10a476
    ensures Line(3, Op(2, 15, 0x2ad7d2bb), 0x0, 0x36594b14, 0x30130182, 0x7246fad3, 0x6e10a476) == 0xff4ea3eb
    ensures Line(3, Op(9, 21, 0xeb86d391), 0x0, 0x30130182, 0x7246fad3, 0x6e10a476, 0xff4ea3eb) == 0x14e45506
  {
  }

  /** The words of round 4. */
  function EmptyWordsFour(): seq<bv32> {
    [
      0x3f55edfd, 0x22a31f54, 0x68d84ea2, 0xca7d2dbd, 0x93aa2577, 0x1688dc85, 0xcd85b8cb, 0x561e0689, 0x5625a114,
      0x3450f42b, 0x392ad0d0, 0x1e77fa61, 0x474a9c8c, 0xdfce00bc, 0x36594b14, 0x30130182, 0x7246fad3, 0x6e10a476,
      0xff4ea3eb, 0x14e45506
    ]
  }

  lemma EmptyAtFour(i: nat)
    requires i < 16
    ensures SaneLines(LinesL4()) && |LinesL4()| == 16 && |EmptyWordsFour()| == 20
    ensures |Padded(EMPTY)| == 64 && LineAt(3, LinesL4(), Padded(EMPTY), EmptyWordsFour(), i)
  {
    hide Line, Load, Padded;
    EmptyLinesFour();
    EmptyLoads(LinesL4()[i].k);
    assert i == 0 || i == 1 || i == 2 || i == 3 || i == 4 || i == 5 || i == 6 || i == 7
        || i == 8 || i == 9 || i == 10 || i == 11 || i == 12 || i == 13 || i == 14 || i == 15;
  }

  lemma EmptyFour()
    ensures |Padded(EMPTY)| == 64 && SaneLines(LinesP(3))
    ensures RoundP(3, LinesP(3), Padded(EMPTY), Words(0x3f55edfd, 0xca7d2dbd, 0x68d84ea2, 0x22a31f54))
         == Words(0x7246fad3, 0x14e45506, 0xff4ea3eb, 0x6e10a476)
  {
    hide LineAt, Padded, RoundP, LinesP4, LinesL4, SaneLines;
    SameLines4();
    EmptyAtFour(0);
    forall i: nat | i < 16
      ensures LineAt(3, LinesL4(), Padded(EMPTY), EmptyWordsFour(), i)
    {
      EmptyAtFour(i);
    }
    RoundComputes(3, LinesL4(), Padded(EMPTY), EmptyWordsFour());
  }

  lemma EmptyDigestA() ensures Bytes(0xd98c1dd4) == [0xd4, 0x1d, 0x8c, 0xd9] {}
  lemma EmptyDigestB() ensures Bytes(0x04b2008f) == [0x8f, 0x00, 0xb2, 0x04] {}
  lemma EmptyDigestC() ensures Bytes(0x980980e9) == [0xe9, 0x80, 0x09, 0x98] {}
  lemma EmptyDigestD() ensures Bytes(0x7e42f8ec) == [0xec, 0xf8, 0x42, 0x7e] {}

  /** Section A.5: d41d8cd98f00b204e9800998ecf8427e. */
  lemma EmptyDigest()
    ensures Digest(EMPTY)
         == [0xd4, 0x1d, 0x8c, 0xd9, 0x8f, 0x00, 0xb2, 0x04, 0xe9, 0x80, 0x09, 0x98, 0xec, 0xf8, 0x42, 0x7e]
  {
    hide Bytes, RoundP, LinesP, Padded, Load;
    LinesSane();
    EmptyOne();
    EmptyTwo();
    EmptyThree();
    EmptyFour();
    assert Process(Start(), Padded(EMPTY)) == Words(0xd98c1dd4, 0x04b2008f, 0x980980e9, 0x7e42f8ec);
    hide Process;
    OneBlock(EMPTY);
    EmptyDigestA();
    EmptyDigestB();
    EmptyDigestC();
    EmptyDigestD();
  }

  // ------------------------------------------------------------ "abc"

  const ABC: seq<byte> := [0x61, 0x62, 0x63]

  lemma AbcPadded()
    ensures Padded(ABC) == [0x61, 0x62, 0x63, 0x80] + Zeros(52) + [0x18] + Zeros(7)
  {
    assert LengthBytes(24, 0) == [0x18] + Zeros(7);
  }

  lemma AbcJoined() ensures Joined(0x61, 0x62, 0x63, 0x80) == 0x80636261 {}

  lemma AbcLoadsFirst(x: Block)
    requires x[0] == 0x61 && x[1] == 0x62 && x[2] == 0x63 && x[3] == 0x80
    ensures Load(x, 0) == 0x80636261
  {
    hide Joined;
    AbcJoined();
  }

  lemma AbcLoadsLength(x: Block)
    requires x[56] == 0x18 && x[57] == x[58] == x[59] == 0
    ensures Load(x, 14) == 0x18
  {
  }

  lemma AbcLoads(k: nat)
    requires k < 16
    ensures |Padded(ABC)| == 64
    ensures Load(Padded(ABC), k) == if k == 0 then 0x80636261 else if k == 14 then 0x18 else 0
  {
    AbcPadded();
    hide Load, Padded;
    if k == 0 {
      AbcLoadsFirst(Padded(ABC));
    } else if k == 14 {
      AbcLoadsLength(Padded(ABC));
    } else {
      LoadIsZero(Padded(ABC), k);
    }
  }

  lemma AbcLinesOne()
    ensures Line(0, Op(0, 7, 0xd76aa478), 0x80636261, 0x67452301, 0x10325476, 0x98badcfe, 0xefcdab89) == 0xd6d117b4
    ensures Line(0, Op(1, 12, 0xe8c7b756), 0x0, 0x10325476, 0x98badcfe, 0xefcdab89, 0xd6d117b4) == 0x344a8432
    ensures Line(0, Op(2, 17, 0x242070db), 0x0, 0x98badcfe, 0xefcdab89, 0xd6d117b4, 0x344a8432) == 0x2f6fbd72
    ensures Line(0, Op(3, 22, 0xc1bdceee), 0x0, 0xefcdab89, 0xd6d117b4, 0x344a8432, 0x2f6fbd72) == 0x7ad956f2
    ensures Line(0, Op(4, 7, 0xf57c0faf), 0x0, 0xd6d117b4, 0x344a8432, 0x2f6fbd72, 0x7ad956f2) == 0xc73741ef
    ensures Line(0, Op(5, 12, 0x4787c62a), 0x0, 0x344a8432, 0x2f6fbd72, 0x7ad956f2, 0xc73741ef) == 0x8bac3051
    ensures Line(0, Op(6, 17, 0xa8304613), 0x0, 0x2f6fbd72, 0x7ad956f2, 0xc73741ef, 0x8bac3051) == 0x207dc67b
    ensures Line(0, Op(7, 22, 0xfd469501), 0x0, 0x7ad956f2, 0xc73741ef, 0x8bac3051, 0x207dc67b) == 0x928d99f6
    ensures Line(0, Op(8, 7, 0x698098d8), 0x0, 0xc73741ef, 0x8bac3051, 0x207dc67b, 0x928d99f6) == 0x854b3712
    ensures Line(0, Op(9, 12, 0x8b44f7af), 0x0, 0x8bac3051, 0x207dc67b, 0x928d99f6, 0x854b3712) == 0x74e2f284
    ensures Line(0, Op(10, 17, 0xffff5bb1), 0x0, 0x207dc67b, 0x928d99f6, 0x854b3712, 0x74e2f284) == 0x3020401c
    ensures Line(0, Op(11, 22, 0x895cd7be), 0x0, 0x928d99f6, 0x854b3712, 0x74e2f284, 0x3020401c) == 0x5ed49596
    ensures Line(0, Op(12, 7, 0x6b901122), 0x0, 0x854b3712, 0x74e2f284, 0x3020401c, 0x5ed49596) == 0xdda9b9a6
    ensures Line(0, Op(13, 12, 0xfd987193), 0x0, 0x74e2f284, 0x3020401c, 0x5ed49596, 0xdda9b9a6) == 0xa1051895
    ensures Line(0, Op(14, 17, 0xa679438e), 0x18, 0x3020401c, 0x5ed49596, 0xdda9b9a6, 0xa1051895) == 0xe396856b
    ensures Line(0, Op(15, 22, 0x49b40821), 0x0, 0x5ed49596, 0xdda9b9a6, 0xa1051895, 0xe396856b) == 0x72aff2e0
  {
  }

  /** The words of round 1. */
  function AbcWordsOne(): seq<bv32> {
    [
      0x67452301, 0x10325476, 0x98badcfe, 0xefcdab89, 0xd6d117b4, 0x344a8432, 0x2f6fbd72, 0x7ad956f2, 0xc73741ef,
      0x8bac3051, 0x207dc67b, 0x928d99f6, 0x854b3712, 0x74e2f284, 0x3020401c, 0x5ed49596, 0xdda9b9a6, 0xa1051895,
      0xe396856b, 0x72aff2e0
    ]
  }

  lemma AbcAtOne(i: nat)
    requires i < 16
    ensures SaneLines(LinesL1()) && |LinesL1()| == 16 && |AbcWordsOne()| == 20
    ensures |Padded(ABC)| == 64 && LineAt(0, LinesL1(), Padded(ABC), AbcWordsOne(), i)
  {
    hide Line, Load, Padded;
    AbcLinesOne();
    AbcLoads(LinesL1()[i].k);
    assert i == 0 || i == 1 || i == 2 || i == 3 || i == 4 || i == 5 || i == 6 || i == 7
        || i == 8 || i == 9 || i == 10 || i == 11 || i == 12 || i == 13 || i == 14 || i == 15;
  }

  lemma AbcOne()
    ensures |Padded(ABC)| == 64 && SaneLines(LinesP(0))
    ensures RoundP(0, LinesP(0), Padded(ABC), Words(0x67452301, 0xefcdab89, 0x98badcfe, 0x10325476))
         == Words(0xdda9b9a6, 0x72aff2e0, 0xe396856b, 0xa1051895)
  {
    hide LineAt, Padded, RoundP, LinesP1, LinesL1, SaneLines;
    SameLines1();
    AbcAtOne(0);
    forall i: nat | i < 16
      ensures LineAt(0, LinesL1(), Padded(ABC), AbcWordsOne(), i)
    {
      AbcAtOne(i);
    }
    RoundComputes(0, LinesL1(), Padded(ABC), AbcWordsOne());
  }

  lemma AbcLinesTwo()
    ensures Line(1, Op(1, 5, 0xf61e2562), 0x0, 0xdda9b9a6, 0xa1051895, 0xe396856b, 0x72aff2e0) == 0x3e9e9126
    ensures Line(1, Op(6, 9, 0xc040b340), 0x0, 0xa1051895, 0xe396856b, 0x72aff2e0, 0x3e9e9126) == 0x4a1d804e
    ensures Line(1, Op(11, 14, 0x265e5a51), 0x0, 0xe396856b, 0x72aff2e0, 0x3e9e9126, 0x4a1d804e) == 0xe25e1652
    ensures Line(1, Op(0, 20, 0xe9b6c7aa), 0x80636261, 0x72aff2e0, 0x3e9e9126, 0x4a1d804e, 0xe25e1652) == 0xb5b204e4
    ensures Line(1, Op(5, 5, 0xd62f105d), 0x0, 0x3e9e9126, 0x4a1d804e, 0xe25e1652, 0xb5b204e4) == 0x59a8ffda
    ensures Line(1, Op(10, 9, 0x02441453), 0x0, 0x4a1d804e, 0xe25e1652, 0xb5b204e4, 0x59a8ffda) == 0x6d002f1e
    ensures Line(1, Op(15, 14, 0xd8a1e681), 0x0, 0xe25e1652, 0xb5b204e4, 0x59a8ffda, 0x6d002f1e) == 0xabfc7920
    ensures Line(1, Op(4, 20, 0xe7d3fbc8), 0x0, 0xb5b204e4, 0x59a8ffda, 0x6d002f1e, 0xabfc7920) == 0x47092c07
    ensures Line(1, Op(9, 5, 0x21e1cde6), 0x0, 0x59a8ffda, 0x6d002f1e, 0xabfc7920, 0x47092c07) == 0xb7f268cf
    ensures Line(1, Op(14, 9, 0xc33707d6), 0x18, 0x6d002f1e, 0xabfc7920, 0x47092c07, 0xb7f268cf) == 0x09388eff
    ensures Line(1, Op(3, 14, 0xf4d50d87), 0x0, 0xabfc7920, 0x47092c07, 0xb7f268cf, 0x09388eff) == 0xfe1623b1
    ensures Line(1, Op(8, 20, 0x455a14ed), 0x0, 0x47092c07, 0xb7f268cf, 0x09388eff, 0xfe1623b1) == 0x786acb8f
    ensures Line(1, Op(13, 5, 0xa9e3e905), 0x0, 0xb7f268cf, 0x09388eff, 0xfe1623b1, 0x786acb8f) == 0x790a77fb
    ensures Line(1, Op(2, 9, 0xfcefa3f8), 0x0, 0x09388eff, 0xfe1623b1, 0x786acb8f, 0x790a77fb) == 0x9f47e4f8
    ensures Line(1, Op(7, 14, 0x676f02d9), 0x0, 0xfe1623b1, 0x786acb8f, 0x790a77fb, 0x9f47e4f8) == 0xa62884aa
    ensures Line(1, Op(12, 20, 0x8d2a4c8a), 0x0, 0x786acb8f, 0x790a77fb, 0x9f47e4f8, 0xa62884aa) == 0x726342d3
  {
  }

  /** The words of round 2. */
  function AbcWordsTwo(): seq<bv32> {
    [
      0xdda9b9a6, 0xa1051895, 0xe396856b, 0x72aff2e0, 0x3e9e9126, 0x4a1d804e, 0xe25e1652, 0xb5b204e4, 0x59a8ffda,
      0x6d002f1e, 0xabfc7920, 0x47092c07, 0xb7f268cf, 0x09388eff, 0xfe1623b1, 0x786acb8f, 0x790a77fb, 0x9f47e4f8,
      0xa62884aa, 0x726342d3
    ]
  }

  lemma AbcAtTwo(i: nat)
    requires i < 16
    ensures SaneLines(LinesL2()) && |LinesL2()| == 16 && |AbcWordsTwo()| == 20
    ensures |Padded(ABC)| == 64 && LineAt(1, LinesL2(), Padded(ABC), AbcWordsTwo(), i)
  {
    hide Line, Load, Padded;
    AbcLinesTwo();
    AbcLoads(LinesL2()[i].k);
    assert i == 0 || i == 1 || i == 2 || i == 3 || i == 4 || i == 5 || i == 6 || i == 7
        || i == 8 || i == 9 || i == 10 || i == 11 || i == 12 || i == 13 || i == 14 || i == 15;
  }

  lemma AbcTwo()
    ensures |Padded(ABC)| == 64 && SaneLines(LinesP(1))
    ensures RoundP(1, LinesP(1), Padded(ABC), Words(0xdda9b9a6, 0x72aff2e0, 0xe396856b, 0xa1051895))
         == Words(0x790a77fb, 0x726342d3, 0xa62884aa, 0x9f47e4f8)
  {
    hide LineAt, Padded, RoundP, LinesP2, LinesL2, SaneLines;
    SameLines2();
    AbcAtTwo(0);
    forall i: nat | i < 16
      ensures LineAt(1, LinesL2(), Padded(ABC), AbcWordsTwo(), i)
    {
      AbcAtTwo(i);
    }
    RoundComputes(1, LinesL2(), Padded(ABC), AbcWordsTwo());
  }

  lemma AbcLinesThree()
    ensures Line(2, Op(5, 4, 0xfffa3942), 0x0, 0x790a77fb, 0x9f47e4f8, 0xa62884aa, 0x726342d3) == 0xb3707ebf
    ensures Line(2, Op(8, 11, 0x8771f681), 0x0, 0x9f47e4f8, 0xa62884aa, 0x726342d3, 0xb3707ebf) == 0x60127b2e
    ensures Line(2, Op(11, 16, 0x6d9d6122), 0x0, 0xa62884aa, 0x726342d3, 0xb3707ebf, 0x60127b2e) == 0x8d212ff5
    ensures Line(2, Op(14, 23, 0xfde5380c), 0x18, 0x726342d3, 0xb3707ebf, 0x60127b2e, 0x8d212ff5) == 0x3b0875c7
    ensures Line(2, Op(1, 4, 0xa4beea44), 0x0, 0xb3707ebf, 0x60127b2e, 0x8d212ff5, 0x3b0875c7) == 0x21b117b9
    ensures Line(2, Op(4, 11, 0x4bdecfa9), 0x0, 0x60127b2e, 0x8d212ff5, 0x3b0875c7, 0x21b117b9) == 0x6e7429d5
    ensures Line(2, Op(7, 16, 0xf6bb4b60), 0x0, 0x8d212ff5, 0x3b0875c7, 0x21b117b9, 0x6e7429d5) == 0x3575227e
    ensures Line(2, Op(10, 23, 0xbebfbc70), 0x0, 0x3b0875c7, 0x21b117b9, 0x6e7429d5, 0x3575227e) == 0x5a2f5ea5
    ensures Line(2, Op(13, 4, 0x289b7ec6), 0x0, 0x21b117b9, 0x6e7429d5, 0x3575227e, 0x5a2f5ea5) == 0x11de1779
    ensures Line(2, Op(0, 11, 0xeaa127fa), 0x80636261, 0x6e7429d5, 0x3575227e, 0x5a2f5ea5, 0x11de1779) == 0xfadcaa38
    ensures Line(2, Op(3, 16, 0xd4ef3085), 0x0, 0x3575227e, 0x5a2f5ea5, 0x11de1779, 0xfadcaa38) == 0x31c465ca
    ensures Line(2, Op(6, 23, 0x04881d05), 0x0, 0x5a2f5ea5, 0x11de1779, 0xfadcaa38, 0x31c465ca) == 0x4c6124f4
    ensures Line(2, Op(9, 4, 0xd9d4d039), 0x0, 0x11de1779, 0xfadcaa38, 0x31c465ca, 0x4c6124f4) == 0x7f2e507b
    ensures Line(2, Op(12, 11, 0xe6db99e5), 0x0, 0xfadcaa38, 0x31c465ca, 0x4c6124f4, 0x7f2e507b) == 0x99d9679d
    ensures Line(2, Op(15, 16, 0x1fa27cf8), 0x0, 0x31c465ca, 0x4c6124f4, 0x7f2e507b, 0x99d9679d) == 0x8fae6399
    ensures Line(2, Op(2, 23, 0xc4ac5665), 0x0, 0x4c6124f4, 0x7f2e507b, 0x99d9679d, 0x8fae6399) == 0x7beb9700
  {
  }

  /** The words of round 3. */
  function AbcWordsThree(): seq<bv32> {
    [
      0x790a77fb, 0x9f47e4f8, 0xa62884aa, 0x726342d3, 0xb3707ebf, 0x60127b2e, 0x8d212ff5, 0x3b0875c7, 0x21b117b9,
      0x6e7429d5, 0x3575227e, 0x5a2f5ea5, 0x11de1779, 0xfadcaa38, 0x31c465ca, 0x4c6124f4, 0x7f2e507b, 0x99d9679d,
      0x8fae6399, 0x7beb9700
    ]
  }

  lemma AbcAtThree(i: nat)
    requires i < 16
    ensures SaneLines(LinesL3()) && |LinesL3()| == 16 && |AbcWordsThree()| == 20
    ensures |Padded(ABC)| == 64 && LineAt(2, LinesL3(), Padded(ABC), AbcWordsThree(), i)
  {
    hide Line, Load, Padded;
    AbcLinesThree();
    AbcLoads(LinesL3()[i].k);
    assert i == 0 || i == 1 || i == 2 || i == 3 || i == 4 || i == 5 || i == 6 || i == 7
        || i == 8 || i == 9 || i == 10 || i == 11 || i == 12 || i == 13 || i == 14 || i == 15;
  }

  lemma AbcThree()
    ensures |Padded(ABC)| == 64 && SaneLines(LinesP(2))
    ensures RoundP(2, LinesP(2), Padded(ABC), Words(0x790a77fb, 0x726342d3, 0xa62884aa, 0x9f47e4f8))
         == Words(0x7f2e507b, 0x7beb9700, 0x8fae6399, 0x99d9679d)
  {
    hide LineAt, Padded, RoundP, LinesP3, LinesL3, SaneLines;
    SameLines3();
    AbcAtThree(0);
    forall i: nat | i < 16
      ensures LineAt(2, LinesL3(), Padded(ABC), AbcWordsThree(), i)
    {
      AbcAtThree(i);
    }
    RoundComputes(2, LinesL3(), Padded(ABC), AbcWordsThree());
  }

  lemma AbcLinesFour()
    ensures Line(3, Op(0, 6, 0xf4292244), 0x80636261, 0x7f2e507b, 0x99d9679d, 0x8fae6399, 0x7beb9700) == 0x7b201df8
    ensures Line(3, Op(7, 10, 0x432aff97), 0x0, 0x99d9679d, 0x8fae6399, 0x7beb9700, 0x7b201df8) == 0xf4e8e96e
    ensures Line(3, Op(14, 15, 0xab9423a7), 0x18, 0x8fae6399, 0x7beb9700, 0x7b201df8, 0xf4e8e96e) == 0xb298cefd
    ensures Line(3, Op(5, 21, 0xfc93a039), 0x0, 0x7beb9700, 0x7b201df8, 0xf4e8e96e, 0xb298cefd) == 0x8bf025c4
    ensures Line(3, Op(12, 6, 0x655b59c3), 0x0, 0x7b201df8, 0xf4e8e96e, 0xb298cefd, 0x8bf025c4) == 0x06cc5e8a
    ensures Line(3, Op(3, 10, 0x8f0ccc92), 0x0, 0xf4e8e96e, 0xb298cefd, 0x8bf025c4, 0x06cc5e8a) == 0x5b0d97aa
    ensures Line(3, Op(10, 15, 0xffeff47d), 0x0, 0xb298cefd, 0x8bf025c4, 0x06cc5e8a, 0x5b0d97aa) == 0x7d632dd0
    ensures Line(3, Op(1, 21, 0x85845dd1), 0x0, 0x8bf025c4, 0x06cc5e8a, 0x5b0d97aa, 0x7d632dd0) == 0x3bfa2c27
    ensures Line(3, Op(8, 6, 0x6fa87e4f), 0x0, 0x06cc5e8a, 0x5b0d97aa, 0x7d632dd0, 0x3bfa2c27) == 0x7f81cc35
    ensures Line(3, Op(15, 10, 0xfe2ce6e0), 0x0, 0x5b0d97aa, 0x7d632dd0, 0x3bfa2c27, 0x7f81cc35) == 0x094454ab
    ensures Line(3, Op(6, 15, 0xa3014314), 0x0, 0x7d632dd0, 0x3bfa2c27, 0x7f81cc35, 0x094454ab) == 0x4f9dbe3f
    ensures Line(3, Op(13, 21, 0x4e0811a1), 0x0, 0x3bfa2c27, 0x7f81cc35, 0x094454ab, 0x4f9dbe3f) == 0x7327d604
    ensures Line(3, Op(4, 6, 0xf7537e82), 0x0, 0x7f81cc35, 0x094454ab, 0x4f9dbe3f, 0x7327d604) == 0x310ade8f
    ensures Line(3, Op(11, 10, 0xbd3af235), 0x0, 0x094454ab, 0x4f9dbe3f, 0x7327d604, 0x310ade8f) == 0x624d8cb2
    ensures Line(3, Op(2, 15, 0x2ad7d2bb), 0x0, 0x4f9dbe3f, 0x7327d604, 0x310ade8f, 0x624d8cb2) == 0xe484b9d8
    ensures Line(3, Op(9, 21, 0xeb86d391), 0x0, 0x7327d604, 0x310ade8f, 0x624d8cb2, 0xe484b9d8) == 0xc08226b3
  {
  }

  /** The words of round 4. */
  function AbcWordsFour(): seq<bv32> {
    [
      0x7f2e507b, 0x99d9679d, 0x8fae6399, 0x7beb9700, 0x7b201df8, 0xf4e8e96e, 0xb298cefd, 0x8bf025c4, 0x06cc5e8a,
      0x5b0d97aa, 0x7d632dd0, 0x3bfa2c27, 0x7f81cc35, 0x094454ab, 0x4f9dbe3f, 0x7327d604, 0x310ade8f, 0x624d8cb2,
      0xe484b9d8, 0xc08226b3
    ]
  }

  lemma AbcAtFour(i: nat)
    requires i < 16
    ensures SaneLines(LinesL4()) && |LinesL4()| == 16 && |AbcWordsFour()| == 20
    ensures |Padded(ABC)| == 64 && LineAt(3, LinesL4(), Padded(ABC), AbcWordsFour(), i)
  {
    hide Line, Load, Padded;
    AbcLinesFour();
    AbcLoads(LinesL4()[i].k);
    assert i == 0 || i == 1 || i == 2 || i == 3 || i == 4 || i == 5 || i == 6 || i == 7
        || i == 8 || i == 9 || i == 10 || i == 11 || i == 12 || i == 13 || i == 14 || i == 15;
  }

  lemma AbcFour()
    ensures |Padded(ABC)| == 64 && SaneLines(LinesP(3))
    ensures RoundP(3, LinesP(3), Padded(ABC), Words(0x7f2e507b, 0x7beb9700, 0x8fae6399, 0x99d9679d))
         == Words(0x310ade8f, 0xc08226b3, 0xe484b9d8, 0x624d8cb2)
  {
    hide LineAt, Padded, RoundP, LinesP4, LinesL4, SaneLines;
    SameLines4();
    AbcAtFour(0);
    forall i: nat | i < 16
      ensures LineAt(3, LinesL4(), Padded(ABC), AbcWordsFour(), i)
    {
      AbcAtFour(i);
    }
    RoundComputes(3, LinesL4(), Padded(ABC), AbcWordsFour());
  }

  lemma AbcDigestA() ensures Bytes(0x98500190) == [0x90, 0x01, 0x50, 0x98] {}
  lemma AbcDigestB() ensures Bytes(0xb04fd23c) == [0x3c, 0xd2, 0x4f, 0xb0] {}
  lemma AbcDigestC() ensures Bytes(0x7d3f96d6) == [0xd6, 0x96, 0x3f, 0x7d] {}
  lemma AbcDigestD() ensures Bytes(0x727fe128) == [0x28, 0xe1, 0x7f, 0x72] {}

  /** Section A.5: 900150983cd24fb0d6963f7d28e17f72. */
  lemma AbcDigest()
    ensures Digest(ABC)
         == [0x90, 0x01, 0x50, 0x98, 0x3c, 0xd2, 0x4f, 0xb0, 0xd6, 0x96, 0x3f, 0x7d, 0x28, 0xe1, 0x7f, 0x72]
  {
    hide Bytes, RoundP, LinesP, Padded, Load;
    LinesSane();
    AbcOne();
    AbcTwo();
    AbcThree();
    AbcFour();
    assert Process(Start(), Padded(ABC)) == Words(0x98500190, 0xb04fd23c, 0x7d3f96d6, 0x727fe128);
    hide Process;
    OneBlock(ABC);
    AbcDigestA();
    AbcDigestB();
    AbcDigestC();
    AbcDigestD();
  }

  /** The other copy gives the same. */
  lemma BothDigests()
    ensures DigestByBlocks(EMPTY) == Digest(EMPTY) && DigestByBlocks(ABC) == Digest(ABC)
  {
    hide Digest, DigestByBlocks;
    DigestsAgree(EMPTY);
    DigestsAgree(ABC);
  }
}
