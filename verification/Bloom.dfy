/** The Bloom filter bits: HASH_BLOOM_BITSET and HASH_BLOOM_BITTEST over a byte vector. */
module Bloom {
  import opened Arith

  /** HASH_BLOOM: not compiled in, or a filter of 2^nbits bits. */
  datatype Config = NoBloom | WithBloom(nbits: nat)

  lemma Pow2Five()
    ensures Pow2(5) == 32
  {
    Pow2Next(4);
    Pow2Next(3);
    Pow2Next(2);
  }

  /** 1U << k. */
  function Bit(k: nat): bv8
    requires k < 8
  {
    if k == 0 then 1 else if k == 1 then 2 else if k == 2 then 4 else if k == 3 then 8
    else if k == 4 then 16 else if k == 5 then 32 else if k == 6 then 64 else 128
  }

  /** HASH_BLOOM_BYTELEN. */
  function ByteLen(nbits: nat): nat {
    Pow2(nbits) / 8 + if Pow2(nbits) % 8 != 0 then 1 else 0
  }

  function Index(nbits: nat, hashv: nat): (r: nat)
    ensures r < Pow2(nbits)
  {
    hashv % Pow2(nbits)
  }

  /** Whether bit `idx` of the vector is set. */
  predicate BitTest(bv: seq<bv8>, idx: nat)
    requires idx / 8 < |bv|
  {
    bv[idx / 8] & Bit(idx % 8) != 0
  }

  function BitSet(bv: seq<bv8>, idx: nat): seq<bv8>
    requires idx / 8 < |bv|
  {
    bv[idx / 8 := bv[idx / 8] | Bit(idx % 8)]
  }

  /** HASH_BLOOM_TEST; without a filter it is the constant 1. */
  predicate Test(c: Config, bv: seq<bv8>, hashv: nat)
    requires c.WithBloom? ==> |bv| == ByteLen(c.nbits)
  {
    c.NoBloom? || BitTest(bv, Index(c.nbits, hashv))
  }

  /** HASH_BLOOM_ADD. */
  function Add(c: Config, bv: seq<bv8>, hashv: nat): (r: seq<bv8>)
    requires c.WithBloom? ==> |bv| == ByteLen(c.nbits)
    ensures |r| == |bv|
  {
    if c.NoBloom? then bv else BitSet(bv, Index(c.nbits, hashv))
  }

  /** Setting a bit sets it, and clears none. */
  lemma BitSetSets(bv: seq<bv8>, i: nat, j: nat)
    requires i / 8 < |bv| && j / 8 < |bv|
    ensures BitTest(BitSet(bv, i), j) <==> i == j || BitTest(bv, j)
  {
    if i / 8 == j / 8 {
      OrBits(bv[i / 8], i % 8, j % 8);
      assert i == 8 * (i / 8) + i % 8 && j == 8 * (j / 8) + j % 8;
    }
  }

  lemma OrBits(b: bv8, m: nat, n: nat)
    requires m < 8 && n < 8
    ensures (b | Bit(m)) & Bit(n) != 0 <==> m == n || b & Bit(n) != 0
  {
  }

  /** The vector has room for every bit, and no whole byte to spare. */
  lemma ByteLenFits(nbits: nat)
    ensures Pow2(nbits) <= 8 * ByteLen(nbits) < Pow2(nbits) + 8
  {
  }

  /** Exactly the positives of a filter: those whose bit one of the added hash values has set. */
  lemma PositiveIff(c: Config, bv: seq<bv8>, x: nat, y: nat)
    requires c.WithBloom? ==> |bv| == ByteLen(c.nbits)
    ensures Test(c, Add(c, bv, x), y) <==>
              c.NoBloom? || Index(c.nbits, x) == Index(c.nbits, y) || Test(c, bv, y)
    ensures c.WithBloom? && (forall i :: 0 <= i < |bv| ==> bv[i] == 0) ==> !Test(c, bv, y)
  {
    if c.WithBloom? {
      BitSetSets(bv, Index(c.nbits, x), Index(c.nbits, y));
      ZeroBits(Index(c.nbits, y) % 8);
    }
  }

  lemma ZeroBits(k: nat)
    requires k < 8
    ensures 0 as bv8 & Bit(k) == 0
  {
  }

  /** No false negatives: after adding `x`, both `x` and everything added before test positive. */
  lemma AddRemembers(c: Config, bv: seq<bv8>, x: nat, y: nat)
    requires c.WithBloom? ==> |bv| == ByteLen(c.nbits)
    ensures Test(c, Add(c, bv, x), x)
    ensures Test(c, bv, y) ==> Test(c, Add(c, bv, x), y)
  {
    if c.WithBloom? {
      BitSetSets(bv, Index(c.nbits, x), Index(c.nbits, x));
      BitSetSets(bv, Index(c.nbits, x), Index(c.nbits, y));
    }
  }
}
