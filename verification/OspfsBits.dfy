/** The free-block bitmap: 32-bit words, bit 1 means free
    (`bitvector_set`, `bitvector_clear`, `bitvector_test`). */
module OspfsBits {

  function Mask(k: nat): bv32
    requires k < 32
  {
    1 << (k as bv6)
  }

  function With(w: bv32, m: bv32): bv32 {
    w | m
  }

  function Without(w: bv32, m: bv32): bv32 {
    w & !m
  }

  predicate Meets(w: bv32, m: bv32) {
    w & m != 0
  }

  lemma ShiftsDiffer(a: bv6, b: bv6)
    requires a < 32 && b < 32
    ensures ((1 as bv32) << a) & ((1 as bv32) << b) != 0 <==> a == b
  {
  }

  lemma MasksDiffer(i: nat, j: nat)
    requires i < 32 && j < 32
    ensures Meets(Mask(i), Mask(j)) <==> i == j
  {
    ShiftsDiffer(i as bv6, j as bv6);
    assert (i as bv6) as nat == i && (j as bv6) as nat == j;
  }

  lemma MeetsWith(w: bv32, m: bv32, t: bv32)
    ensures Meets(With(w, m), t) <==> Meets(w, t) || Meets(m, t)
  {
    assert (w | m) & t == (w & t) | (m & t);
    OrIsZero(w & t, m & t);
  }

  lemma OrIsZero(x: bv32, y: bv32)
    ensures x | y == 0 <==> x == 0 && y == 0
  {
  }

  lemma MeetsWithout(w: bv32, m: bv32, t: bv32)
    ensures !Meets(m, t) ==> (Meets(Without(w, m), t) <==> Meets(w, t))
    ensures !Meets(Without(w, m), m)
  {
  }

  /** Bit `i` of the vector. */
  predicate Bit(words: seq<bv32>, i: nat)
    requires i / 32 < |words|
  {
    Meets(words[i / 32], Mask(i % 32))
  }

  lemma WordSet(words: seq<bv32>, i: nat, j: nat)
    requires i / 32 < |words| && j / 32 < |words|
    ensures Bit(words[i / 32 := With(words[i / 32], Mask(i % 32))], j) == (j == i || Bit(words, j))
  {
    hide Meets, With, Mask;
    MeetsWith(words[i / 32], Mask(i % 32), Mask(j % 32));
    MasksDiffer(i % 32, j % 32);
  }

  lemma WordCleared(words: seq<bv32>, i: nat, j: nat)
    requires i / 32 < |words| && j / 32 < |words|
    ensures Bit(words[i / 32 := Without(words[i / 32], Mask(i % 32))], j) == (j != i && Bit(words, j))
  {
    hide Meets, Without, Mask;
    MeetsWithout(words[i / 32], Mask(i % 32), Mask(j % 32));
    MasksDiffer(i % 32, j % 32);
  }

  method Set(vector: array<bv32>, i: nat)
    requires i / 32 < vector.Length
    modifies vector
    ensures forall j: nat {:trigger Bit(vector[..], j)} :: j / 32 < vector.Length ==>
              Bit(vector[..], j) == (j == i || Bit(old(vector[..]), j))
  {
    hide With, Bit, Mask;
    ghost var words := vector[..];
    vector[i / 32] := With(vector[i / 32], Mask(i % 32));
    assert vector[..] == words[i / 32 := With(words[i / 32], Mask(i % 32))];
    forall j: nat | j / 32 < vector.Length
      ensures Bit(vector[..], j) == (j == i || Bit(words, j))
    {
      WordSet(words, i, j);
    }
  }

  method Clear(vector: array<bv32>, i: nat)
    requires i / 32 < vector.Length
    modifies vector
    ensures forall j: nat {:trigger Bit(vector[..], j)} :: j / 32 < vector.Length ==>
              Bit(vector[..], j) == (j != i && Bit(old(vector[..]), j))
  {
    hide Without, Bit, Mask;
    ghost var words := vector[..];
    vector[i / 32] := Without(vector[i / 32], Mask(i % 32));
    assert vector[..] == words[i / 32 := Without(words[i / 32], Mask(i % 32))];
    forall j: nat | j / 32 < vector.Length
      ensures Bit(vector[..], j) == (j != i && Bit(words, j))
    {
      WordCleared(words, i, j);
    }
  }

  method Test(vector: array<bv32>, i: nat) returns (r: bool)
    requires i / 32 < vector.Length
    ensures r == Bit(vector[..], i)
  {
    r := Meets(vector[i / 32], Mask(i % 32));
  }

  /** The blocks below `n` whose bit is set. */
  ghost function FreeBelow(words: seq<bv32>, n: nat): (s: set<nat>)
    requires n <= 32 * |words|
    ensures forall b: nat :: b in s <==> b < n && Bit(words, b)
  {
    set b: nat {:trigger Bit(words, b)} | b < n && Bit(words, b)
  }
}
