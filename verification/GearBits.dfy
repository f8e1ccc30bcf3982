/** The unsigned 64-bit words of the chunkers: shifts and sums modulo 2^64, and the bitwise test
    `!(fingerprint & mask)`. */
module GearBits {
  import opened Arith

  const W: nat := 0x1_0000_0000_0000_0000

  type Word = x: nat | x < 0x1_0000_0000_0000_0000

  /** x << 1. */
  function Double(x: Word): Word {
    2 * x % W
  }

  /** x << 2. */
  function Quadruple(x: Word): Word {
    4 * x % W
  }

  /** x + y. */
  function Plus(x: Word, y: Word): Word {
    (x + y) % W
  }

  /** One byte shifted into the fingerprint. */
  function Roll(f: Word, g: Word): Word {
    Plus(Double(f), g)
  }

  /** Two bytes shifted in, the first already doubled and the second still missing. */
  function RollTwo(f: Word, l: Word): Word {
    Plus(Quadruple(f), l)
  }

  /** Bitwise and. */
  function And(x: nat, y: nat): nat {
    if x == 0 || y == 0 then 0 else 2 * And(x / 2, y / 2) + if x % 2 == 1 && y % 2 == 1 then 1 else 0
  }

  /** !(f & mask). */
  predicate Clear(f: Word, mask: Word) {
    And(f, mask) == 0
  }

  // ---- what the bitwise operations mean, bit by bit ----

  predicate Bit(x: nat, k: nat) {
    x / Pow2(k) % 2 == 1
  }

  /** No bit is set in both words. */
  ghost predicate NoCommonBit(x: Word, y: Word) {
    forall k :: 0 <= k < 64 ==> !(Bit(x, k) && Bit(y, k))
  }

  lemma BitOfHalf(x: nat, k: nat)
    ensures Bit(x, 0) == (x % 2 == 1)
    ensures Bit(x, k + 1) == Bit(x / 2, k)
  {
    var m, q, r := Pow2(k), x / 2 / Pow2(k), x / 2 % Pow2(k);
    assert x == 2 * (q * m + r) + x % 2;
    assert 2 * (q * m) == q * (2 * m);
    ModIs(x, 2 * m, q, 2 * r + x % 2);
  }

  /** Bitwise and, bit by bit. */
  lemma {:induction false} AndBits(x: nat, y: nat, k: nat)
    ensures Bit(And(x, y), k) <==> Bit(x, k) && Bit(y, k)
  {
    hide Bit, Pow2;
    if k == 0 {
      BitOfHalf(x, 0);
      BitOfHalf(y, 0);
      BitOfHalf(And(x, y), 0);
    } else {
      BitOfHalf(x, k - 1);
      BitOfHalf(y, k - 1);
      BitOfHalf(And(x, y), k - 1);
      AndBits(x / 2, y / 2, k - 1);
      assert And(x, y) / 2 == And(x / 2, y / 2);
    }
  }

  lemma {:induction false} NoBitsIsZero(x: nat, n: nat)
    requires x < Pow2(n)
    ensures x == 0 <==> forall k :: 0 <= k < n ==> !Bit(x, k)
  {
    if n > 0 {
      NoBitsIsZero(x / 2, n - 1);
      BitOfHalf(x, 0);
      forall k | 0 <= k < n - 1 ensures Bit(x, k + 1) == Bit(x / 2, k) {
        BitOfHalf(x, k);
      }
      if x / 2 != 0 {
        var k :| 0 <= k < n - 1 && Bit(x / 2, k);
        assert Bit(x, k + 1);
      }
      if x == 0 {
        forall k | 0 <= k < n ensures !Bit(x, k) {
          if k > 0 {
            assert Bit(x, k - 1 + 1) == Bit(x / 2, k - 1);
          }
        }
      }
    }
  }

  lemma {:induction false} AndFits(x: nat, y: nat)
    ensures And(x, y) <= x
  {
    if x != 0 && y != 0 {
      AndFits(x / 2, y / 2);
    }
  }

  /** The test of a fingerprint: it is clear exactly when no bit of the mask is set in it. */
  lemma ClearIff(f: Word, mask: Word)
    ensures Clear(f, mask) <==> NoCommonBit(f, mask)
  {
    hide Bit, Pow2, And;
    Pow2Word();
    AndFits(f, mask);
    NoBitsIsZero(And(f, mask), 64);
    forall k | 0 <= k < 64 ensures Bit(And(f, mask), k) <==> Bit(f, k) && Bit(mask, k) {
      AndBits(f, mask, k);
    }
  }

  lemma Halves(x: nat, m: nat)
    requires m > 0
    ensures x % (2 * m) / 2 == x / 2 % m && x % (2 * m) % 2 == x % 2
  {
    var q, r := x / 2 / m, x / 2 % m;
    var b := x % 2;
    assert x == 2 * (q * m + r) + b;
    assert 2 * (q * m + r) + b == q * (2 * m) + (2 * r + b);
    ModIs(x, 2 * m, q, 2 * r + b);
  }

  /** Only the low `k` bits of a word meet a mask below 2^k. */
  lemma {:induction false} AndLow(x: nat, mask: nat, k: nat)
    requires mask < Pow2(k)
    ensures And(x % Pow2(k), mask) == And(x, mask)
  {
    if k > 0 {
      Halves(x, Pow2(k - 1));
      AndLow(x / 2, mask / 2, k - 1);
    }
  }

  /** A doubled word against a doubled mask. */
  lemma AndDoubled(x: nat, mask: nat)
    ensures And(2 * x, 2 * mask) == 2 * And(x, mask)
  {
  }

  lemma Pow2Nibble()
    ensures Pow2(4) == 16
  {
    Pow2Next(3);
    Pow2Next(2);
  }

  lemma Pow2Word()
    ensures Pow2(64) == W && Pow2(48) == 0x1_0000_0000_0000
  {
    hide Pow2;
    Pow2Nibble();
    Pow2Sum(4, 4);
    Pow2Sum(8, 8);
    Pow2Sum(16, 16);
    Pow2Sum(32, 16);
    Pow2Sum(32, 32);
  }

  lemma ModPlus(a: nat, b: nat)
    ensures (a % W + b) % W == (a + b) % W
  {
  }

  lemma ModTwice(a: nat)
    ensures 2 * (a % W) % W == 2 * a % W
  {
  }

  lemma RollTwoDoubled(f: Word, g: Word)
    ensures RollTwo(f, Double(g)) == Double(Roll(f, g))
  {
    ModPlus(4 * f, 2 * g % W);
    ModPlus(2 * g, 4 * f);
    ModPlus(2 * f, g);
    ModTwice(2 * f + g);
  }

  /** Testing the doubled fingerprint against the doubled mask is testing the fingerprint. */
  lemma DoubledTest(x: Word, mask: Word)
    requires 2 * mask < W
    ensures Clear(Double(x), Double(mask)) <==> Clear(x, mask)
  {
    hide And, Pow2;
    Pow2Word();
    AndLow(2 * x, 2 * mask, 64);
    AndDoubled(x, mask);
  }

  /** A pair of bytes: the doubled test decides the first byte, the plain test the second. */
  lemma PairFacts(f: Word, g: Word, h: Word, mask: Word)
    requires 2 * mask < W
    ensures Clear(RollTwo(f, Double(g)), Double(mask)) <==> Clear(Roll(f, g), mask)
    ensures Plus(RollTwo(f, Double(g)), h) == Roll(Roll(f, g), h)
  {
    hide Double, Clear, Quadruple, Plus;
    RollTwoDoubled(f, g);
    DoubledTest(Roll(f, g), mask);
  }

  /** A word that misses a mask misses every part of it. */
  lemma {:induction false} AndPart(x: nat, part: nat, mask: nat)
    requires And(part, mask) == part && And(x, mask) == 0
    ensures And(x, part) == 0
  {
    if x != 0 && part != 0 {
      AndPart(x / 2, part / 2, mask / 2);
    }
  }
}
