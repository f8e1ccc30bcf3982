/** What the chunkers promise: locality of the cut test, resynchronisation, nesting of the masks,
    where the two-byte forms agree, and whole runs over a buffer. */
module FastCDCFacts {
  import opened Arith
  import opened Basics
  import opened GearBits
  import opened FastCDC

  lemma FirstHitIsCut(gear: Gear, p: seq<Byte>, rule: Rule, lo: nat, i: nat, n: nat, c: nat)
    requires i <= c < n <= |p| && Hit(gear, p, lo, c, rule.MaskAt(c))
    ensures CutFrom(gear, p, rule, lo, i, n) <= c
    ensures (forall k :: i <= k < c ==> !Hit(gear, p, lo, k, rule.MaskAt(k)))
            ==> CutFrom(gear, p, rule, lo, i, n) == c
  {
    CutIsFirstHit(gear, p, rule, lo, i, n);
  }

  // ---- locality ----

  lemma SameRemainder(q: nat, m: nat, t: nat)
    requires m > 0
    ensures (q * m + t) % m == t % m
  {
    assert t == t / m * m + t % m;
    assert q * m + t / m * m == (q + t / m) * m;
    ModIs(q * m + t, m, q + t / m, t % m);
  }

  lemma RemainderOfRemainder(x: nat, a: nat, b: nat)
    requires a > 0 && b > 0
    ensures a * b > 0 && x % (a * b) % a == x % a
  {
    MulAtLeast(a, b);
    var q, r := x / (a * b), x % (a * b);
    assert x == q * (a * b) + r;
    assert q * (a * b) == (q * b) * a;
    SameRemainder(q * b, a, r);
  }

  /** Words that agree in their low bits still do, one bit further up, after a byte is shifted in. */
  lemma RollKeepsLow(x: Word, y: Word, g: Word, k: nat)
    requires k < 64 && x % Pow2(k) == y % Pow2(k)
    ensures Roll(x, g) % Pow2(k + 1) == Roll(y, g) % Pow2(k + 1)
  {
    hide Pow2;
    var m := Pow2(k);
    Pow2Next(k);
    Pow2Word();
    Pow2Sum(k + 1, 63 - k);
    ModPlus(2 * x, g);
    ModPlus(2 * y, g);
    RemainderOfRemainder(2 * x + g, Pow2(k + 1), Pow2(63 - k));
    RemainderOfRemainder(2 * y + g, Pow2(k + 1), Pow2(63 - k));
    var r := x % m;
    LowBitsDoubled(x, m, r, g);
    LowBitsDoubled(y, m, r, g);
  }

  lemma LowBitsDoubled(x: nat, m: nat, r: nat, g: nat)
    requires m > 0 && x % m == r
    ensures (2 * x + g) % (2 * m) == (2 * r + g) % (2 * m)
  {
    var q := x / m;
    assert x == q * m + r;
    assert 2 * (q * m) == q * (2 * m);
    SameRemainder(q, 2 * m, 2 * r + g);
  }

  /** The low `k` bits of a fingerprint come from the last `k` bytes. */
  lemma {:induction false} FpLow(gear: Gear, p: seq<Byte>, lo: nat, i: nat, q: seq<Byte>, lo': nat, j: nat, k: nat)
    requires k <= 64 && lo + k <= i <= |p| && lo' + k <= j <= |q|
    requires p[i - k..i] == q[j - k..j]
    ensures Fp(gear, p, lo, i) % Pow2(k) == Fp(gear, q, lo', j) % Pow2(k)
  {
    hide Roll;
    if k > 0 {
      assert p[i - 1] == p[i - k..i][k - 1] == q[j - 1];
      assert p[i - 1 - (k - 1)..i - 1] == p[i - k..i][..k - 1] == q[j - k..j][..k - 1] == q[j - 1 - (k - 1)..j - 1];
      FpLow(gear, p, lo, i - 1, q, lo', j - 1, k - 1);
      RollKeepsLow(Fp(gear, p, lo, i - 1), Fp(gear, q, lo', j - 1), gear[p[i - 1]], k - 1);
    }
  }

  /** Past the first 47 scanned bytes a test under a mask below bit 48 sees only the last 48 bytes. */
  lemma HitIsLocal(gear: Gear, p: seq<Byte>, lo: nat, i: nat, q: seq<Byte>, lo': nat, j: nat, mask: Word)
    requires lo + 47 <= i < |p| && lo' + 47 <= j < |q|
    requires p[i - 47..i + 1] == q[j - 47..j + 1]
    requires mask < 0x1_0000_0000_0000
    ensures Hit(gear, p, lo, i, mask) <==> Hit(gear, q, lo', j, mask)
  {
    hide Pow2, And, Fp;
    FpLow(gear, p, lo, i + 1, q, lo', j + 1, 48);
    Pow2Word();
    AndLow(Fp(gear, p, lo, i + 1), mask, 48);
    AndLow(Fp(gear, q, lo', j + 1), mask, 48);
  }

  // ---- nested masks ----

  predicate PartOf(part: Word, mask: Word) {
    And(part, mask) == part
  }

  lemma {:induction false} PartOfSelf(x: nat)
    ensures And(x, x) == x
  {
    if x != 0 {
      PartOfSelf(x / 2);
    }
  }

  lemma PartHalves(x: nat, y: nat)
    ensures And(x, y) == x <==> And(x / 2, y / 2) == x / 2 && (x % 2 == 1 ==> y % 2 == 1)
  {
  }

  /** Putting low bits below both sides keeps one mask a part of the other. */
  lemma {:induction false} PartAbove(a: nat, b: nat, low: nat, low': nat, k: nat)
    requires And(a, b) == a && And(low, low') == low && low < Pow2(k) && low' < Pow2(k)
    ensures And(a * Pow2(k) + low, b * Pow2(k) + low') == a * Pow2(k) + low
  {
    hide And;
    if k > 0 {
      var m := Pow2(k - 1);
      PartHalves(low, low');
      PartAbove(a, b, low / 2, low' / 2, k - 1);
      HalfSum(a, m, low);
      HalfSum(b, m, low');
      PartHalves(a * (2 * m) + low, b * (2 * m) + low');
    }
  }

  lemma HalfSum(a: nat, m: nat, low: nat)
    ensures (a * (2 * m) + low) / 2 == a * m + low / 2
    ensures (a * (2 * m) + low) % 2 == low % 2
  {
    assert a * (2 * m) == 2 * (a * m);
  }

  lemma MasksNested()
    ensures PartOf(GEAR_02KB, GEAR_08KB) && PartOf(GEAR_08KB, GEAR_32KB) && PartOf(GEAR_02KB, GEAR_32KB)
    ensures PartOf(GEAR_02KB, GEAR_02KB) && PartOf(GEAR_08KB, GEAR_08KB) && PartOf(GEAR_32KB, GEAR_32KB)
    ensures GEAR_02KB < 0x1_0000_0000_0000 && GEAR_08KB < 0x1_0000_0000_0000 && GEAR_32KB < 0x1_0000_0000_0000
  {
    hide And, Pow2;
    PartOfSelf(GEAR_02KB);
    PartOfSelf(GEAR_08KB);
    PartOfSelf(GEAR_32KB);
    PartOfSelf(0x03530000);
    PartOfSelf(0xd9);
    Digits();
    Pow2Bytes();
    PartAbove(0xd9, 0xd9, 0x00, 0x30, 8);
    PartAbove(0xd9, 0xd9, 0x30, 0xf0, 8);
    PartAbove(0xd9, 0xd9, 0x00, 0xf0, 8);
    PartAbove(0xd900, 0xd930, 0x03530000, 0x03530000, 32);
    PartAbove(0xd930, 0xd9f0, 0x03530000, 0x03530000, 32);
    PartAbove(0xd900, 0xd9f0, 0x03530000, 0x03530000, 32);
  }

  lemma Digits()
    ensures And(0x00, 0x30) == 0x00 && And(0x00, 0xf0) == 0x00 && And(0x30, 0xf0) == 0x30
  {
    hide And;
    PartHalves(0x30, 0xf0);
    PartHalves(0x18, 0x78);
    PartHalves(0x0c, 0x3c);
    PartHalves(0x06, 0x1e);
    PartHalves(0x03, 0x0f);
    PartHalves(0x01, 0x07);
    DigitsMiss();
  }

  lemma Pow2Bytes()
    ensures Pow2(8) == 0x100 && Pow2(32) == 0x1_0000_0000
  {
    hide Pow2;
    Pow2Nibble();
    Pow2Sum(4, 4);
    Pow2Sum(8, 8);
    Pow2Sum(16, 16);
  }

  lemma HitPart(gear: Gear, p: seq<Byte>, lo: nat, i: nat, part: Word, mask: Word)
    requires i < |p| && PartOf(part, mask) && Hit(gear, p, lo, i, mask)
    ensures Hit(gear, p, lo, i, part)
  {
    AndPart(Fp(gear, p, lo, i + 1), part, mask);
  }

  /** A scan with smaller masks cuts no later. */
  lemma {:induction false} SmallerMasksCutEarlier(gear: Gear, p: seq<Byte>, a: Rule, b: Rule, lo: nat, i: nat, n: nat)
    requires i <= n <= |p|
    requires forall k :: i <= k < n ==> PartOf(a.MaskAt(k), b.MaskAt(k))
    ensures CutFrom(gear, p, a, lo, i, n) <= CutFrom(gear, p, b, lo, i, n)
    decreases n - i
  {
    if i < n {
      if Hit(gear, p, lo, i, b.MaskAt(i)) {
        HitPart(gear, p, lo, i, a.MaskAt(i), b.MaskAt(i));
      } else {
        SmallerMasksCutEarlier(gear, p, a, b, lo, i + 1, n);
      }
    }
  }

  /** The normalized cut lies between the cuts of the pure scans with its two masks. */
  lemma NormalizedIsBetween(gear: Gear, p: seq<Byte>, min: nat, max: nat)
    requires min <= max
    ensures Cut(gear, p, Uniform(GEAR_02KB), min, max) <= Cut(gear, p, Normalized, min, max)
    ensures Cut(gear, p, Normalized, min, max) <= Cut(gear, p, Uniform(GEAR_32KB), min, max)
  {
    MasksNested();
    if |p| > min {
      SmallerMasksCutEarlier(gear, p, Uniform(GEAR_02KB), Normalized, min, min, Min(|p|, max));
      SmallerMasksCutEarlier(gear, p, Normalized, Uniform(GEAR_32KB), min, min, Min(|p|, max));
    }
  }

  /** From the same start, an early normalized hit means the origin scan cuts no later, and an origin hit
      past the middle means the normalized scan cuts no later. */
  lemma NormalizedAgainstOrigin(gear: Gear, p: seq<Byte>, min: nat, max: nat)
    requires min <= max && min < |p|
    ensures var n, c, o := Min(|p|, max), Cut(gear, p, Normalized, min, max), Cut(gear, p, Uniform(GEAR_08KB), min, max);
            && (c < MID && c < n ==> o <= c)
            && (MID <= o < n ==> c <= o)
  {
    MasksNested();
    var n := Min(|p|, max);
    var c, o := CutFrom(gear, p, Normalized, min, min, n), CutFrom(gear, p, Uniform(GEAR_08KB), min, min, n);
    CutIsFirstHit(gear, p, Normalized, min, min, n);
    CutIsFirstHit(gear, p, Uniform(GEAR_08KB), min, min, n);
    if c < MID && c < n {
      HitPart(gear, p, min, c, GEAR_08KB, GEAR_32KB);
      FirstHitIsCut(gear, p, Uniform(GEAR_08KB), min, min, n, c);
    }
    if MID <= o < n {
      HitPart(gear, p, min, o, GEAR_02KB, GEAR_08KB);
      FirstHitIsCut(gear, p, Normalized, min, min, n, o);
    }
  }

  // ---- where rolling_data_2byes_64 agrees with cdc_origin_64 ----

  /** What the source promises of the two-byte form, for the sizes `min` and `half`. */
  ghost predicate RollingAgrees(gear: Gear, min: nat, half: nat)
    requires 2 * half <= min <= INIT_MAX
  {
    forall p: seq<Byte> ::
      RollingCut(gear, p, min, half, INIT_MAX)
        == Paired(Cut(gear, p, Uniform(GEAR_08KB), min, INIT_MAX), Min(|p|, INIT_MAX))
  }

  // GEARv2[35] and GEARv2[91]: these two bytes in a row are a hit.
  const GEAR_35: Word := 0x5b596e7a23e7af9a
  const GEAR_91: Word := 0xcf05250d14390e94

  /** In the states init and the normalized chunkers leave, the two-byte form agrees with the one-byte form
      (up to a skipped odd last byte) exactly while MinSize is still what init made it. */
  lemma RollingAgreesIff(gear: Gear, min: nat)
    requires gear[35] == GEAR_35 && gear[91] == GEAR_91
    requires min == INIT_MIN || min == NORMALIZED_MIN
    ensures RollingAgrees(gear, min, INIT_MIN / 2) <==> min == INIT_MIN
  {
    if min == INIT_MIN {
      forall p: seq<Byte>
        ensures RollingCut(gear, p, min, INIT_MIN / 2, INIT_MAX)
             == Paired(Cut(gear, p, Uniform(GEAR_08KB), min, INIT_MAX), Min(|p|, INIT_MAX))
      {
      }
    } else {
      var p: seq<Byte> := seq(8192, i => if i == 2048 then 35 else if i == 2049 then 91 else 0);
      StaleHalfCutsEarly(gear, p);
      assert RollingCut(gear, p, min, INIT_MIN / 2, INIT_MAX) < 6144;
      assert Cut(gear, p, Uniform(GEAR_08KB), min, INIT_MAX) >= 6144;
    }
  }

  /** After a normalized chunker ran, rolling_data_2byes_64 still scans from byte 2048. */
  lemma StaleHalfCutsEarly(gear: Gear, p: seq<Byte>)
    requires gear[35] == GEAR_35 && gear[91] == GEAR_91
    requires |p| == 8192 && p[2048] == 35 && p[2049] == 91
    ensures RollingCut(gear, p, NORMALIZED_MIN, INIT_MIN / 2, INIT_MAX) <= 2049
  {
    hide Clear, And;
    PairHits();
    ScanStart(gear, p, 2048);
    ScanStep(gear, p, Uniform(GEAR_08KB), 2048, 2048, 8192);
    ScanStep(gear, p, Uniform(GEAR_08KB), 2048, 2049, 8192);
    FirstHitIsCut(gear, p, Uniform(GEAR_08KB), 2048, 2048, 8192, 2049);
  }

  lemma PairHits()
    ensures Clear(Roll(Roll(0, GEAR_35), GEAR_91), GEAR_08KB)
  {
    hide And;
    assert Roll(Roll(0, GEAR_35), GEAR_91) == 0x85b802015c086dc8;
    DigitsMiss();
    AndDigit(0x85b802015c086dc8, 0xd93003530000);
    AndDigit(0x85b802015c086dc, 0xd9300353000);
    AndDigit(0x85b802015c086d, 0xd930035300);
    AndDigit(0x85b802015c086, 0xd93003530);
    AndDigit(0x85b802015c08, 0xd9300353);
    AndDigit(0x85b802015c0, 0xd930035);
    AndDigit(0x85b802015c, 0xd93003);
    AndDigit(0x85b802015, 0xd9300);
    AndDigit(0x85b80201, 0xd930);
    AndDigit(0x85b8020, 0xd93);
    AndDigit(0x85b802, 0xd9);
    AndDigit(0x85b80, 0xd);
  }

  /** And, one hexadecimal digit at a time. */
  lemma AndDigit(x: nat, m: nat)
    ensures And(x, m) == 0 <==> And(x / 16, m / 16) == 0 && And(x % 16, m % 16) == 0
  {
    Pow2Nibble();
    AndSplit(x / 16, m / 16, x % 16, m % 16, 4);
    assert x == x / 16 * 16 + x % 16 && m == m / 16 * 16 + m % 16;
  }

  /** High and low parts meet separately. */
  lemma {:induction false} AndSplit(a: nat, b: nat, low: nat, low': nat, k: nat)
    requires low < Pow2(k) && low' < Pow2(k)
    ensures And(a * Pow2(k) + low, b * Pow2(k) + low') == 0 <==> And(a, b) == 0 && And(low, low') == 0
  {
    hide And;
    if k > 0 {
      var m := Pow2(k - 1);
      AndBit(low, low');
      AndSplit(a, b, low / 2, low' / 2, k - 1);
      HalfSum(a, m, low);
      HalfSum(b, m, low');
      AndBit(a * (2 * m) + low, b * (2 * m) + low');
    } else {
      DigitsMiss();
    }
  }

  predicate BothOdd(x: nat, m: nat) {
    x % 2 == 1 && m % 2 == 1
  }

  lemma AndBit(x: nat, m: nat)
    ensures And(x, m) == 0 <==> And(x / 2, m / 2) == 0 && !BothOdd(x, m)
  {
  }

  lemma DigitsMiss()
    ensures And(0x2, 0x9) == 0 && And(0x8, 0x3) == 0 && And(0xc, 0x3) == 0
    ensures forall x :: And(x, 0) == 0 && And(0, x) == 0
  {
  }

  // ---- resynchronisation ----

  /** The chunk lengths of a whole buffer under one chunker and fixed sizes. */
  function Chunks(gear: Gear, p: seq<Byte>, rule: Rule, min: nat, max: nat): seq<nat>
    requires 0 < min <= max
  {
    if p == [] then []
    else
      var c := Cut(gear, p, rule, min, max);
      [c] + Chunks(gear, p[c..], rule, min, max)
  }

  /** A running chunk of `p`: past the skipped bytes and a full window, not at its maximum, not cut before `i`. */
  ghost predicate RunningTo(gear: Gear, p: seq<Byte>, rule: Rule, min: nat, max: nat, i: nat) {
    && min + 47 <= i < max && i < |p|
    && forall k :: min <= k < i ==> !Hit(gear, p, min, k, rule.MaskAt(k))
  }

  /** Two running chunks that share a tail from 47 bytes before a hit: both cut there, and everything after
      is chunked alike. */
  lemma Resynchronise(gear: Gear, p: seq<Byte>, i: nat, q: seq<Byte>, j: nat, rule: Rule, min: nat, max: nat)
    requires 0 < min <= max
    requires RunningTo(gear, p, rule, min, max, i) && RunningTo(gear, q, rule, min, max, j)
    requires p[i - 47..] == q[j - 47..]
    requires rule.MaskAt(i) < 0x1_0000_0000_0000 && Hit(gear, p, min, i, rule.MaskAt(i))
    requires PartOf(rule.MaskAt(j), rule.MaskAt(i))
    ensures Chunks(gear, p, rule, min, max) == [i] + Chunks(gear, p[i..], rule, min, max)
    ensures Chunks(gear, q, rule, min, max) == [j] + Chunks(gear, p[i..], rule, min, max)
  {
    hide Hit, And;
    assert p[i - 47..i + 1] == p[i - 47..][..48] == q[j - 47..][..48] == q[j - 47..j + 1];
    HitIsLocal(gear, p, min, i, q, min, j, rule.MaskAt(i));
    HitPart(gear, q, min, j, rule.MaskAt(j), rule.MaskAt(i));
    FirstHitIsCut(gear, p, rule, min, min, Min(|p|, max), i);
    FirstHitIsCut(gear, q, rule, min, min, Min(|q|, max), j);
    assert p[i..] == p[i - 47..][47..] == q[j - 47..][47..] == q[j..];
  }

  // ---- whole runs ----

  datatype Method = Origin | RollingTwo | NormalizedOne | NormalizedTwo

  function Joined(cs: seq<seq<Byte>>): seq<Byte> {
    if cs == [] then [] else Joined(cs[..|cs| - 1]) + cs[|cs| - 1]
  }

  ghost predicate ChunkSizes(cs: seq<seq<Byte>>) {
    && (forall k :: 0 <= k < |cs| ==> 0 < |cs[k]| <= INIT_MAX)
    && (forall k :: 0 <= k < |cs| - 1 ==> INIT_MIN <= |cs[k]|)
  }

  /** One call of the chosen chunker on the exact remaining bytes. */
  method NextChunk(c: Chunker, which: Method, p: seq<Byte>) returns (r: nat)
    requires c.Ready() && p != []
    modifies c`minSize
    ensures c.Ready() && old(c.minSize) <= c.minSize
    ensures 0 < r <= |p| && r <= INIT_MAX && (r < |p| ==> INIT_MIN <= r)
  {
    match which {
      case Origin => r := c.CdcOrigin(p);
      case RollingTwo => r := c.RollingTwoBytes(p);
      case NormalizedOne => r := c.NormalizedChunking(p);
      case NormalizedTwo => r := c.NormalizedTwoBytes(p);
    }
  }

  /** Any mix of the four chunkers, after init, cuts any buffer into chunks that join to it. */
  method ChunkAll(gear: Gear, p: seq<Byte>, pick: nat -> Method) returns (c: Chunker, cs: seq<seq<Byte>>)
    ensures c.Ready() && Joined(cs) == p && ChunkSizes(cs)
  {
    c := new Chunker(gear);
    c.Init();
    cs := [];
    var off := 0;
    while off < |p|
      invariant fresh(c) && c.Ready() && off <= |p| && Joined(cs) == p[..off] && ChunkSizes(cs)
      invariant off < |p| ==> forall k :: 0 <= k < |cs| ==> INIT_MIN <= |cs[k]|
      decreases |p| - off
    {
      var r := NextChunk(c, pick(|cs|), p[off..]);
      var chunk := p[off..off + r];
      assert (cs + [chunk])[..|cs|] == cs;
      assert p[..off] + chunk == p[..off + r];
      cs, off := cs + [chunk], off + r;
    }
    assert p[..off] == p;
  }
}
