/** The four 64-bit gear-hash chunkers. Each `Cut...` function says where a scan stops;
    the methods below are the source's loops, proved against it. */
module FastCDC {
  import opened Arith
  import opened Basics
  import opened GearBits

  /** GEARv2 or LEARv2: one 64-bit word for each byte value. */
  type Gear = g: seq<Word> | |g| == 256 witness seq(256, _ => 0)

  const GEAR_02KB: Word := 0x0000d90003530000
  const GEAR_08KB: Word := 0x0000d93003530000
  const GEAR_32KB: Word := 0x0000d9f003530000
  const GEAR_02KB_LS: Word := 0x0001b20006a60000
  const GEAR_08KB_LS: Word := 0x0001b26006a60000
  const GEAR_32KB_LS: Word := 0x0001b3e006a60000

  /** The shifted masks are the masks shifted, and no mask bit is lost by the shift. */
  lemma MasksFit()
    ensures GEAR_02KB_LS == Double(GEAR_02KB) && 2 * GEAR_02KB < W
    ensures GEAR_08KB_LS == Double(GEAR_08KB) && 2 * GEAR_08KB < W
    ensures GEAR_32KB_LS == Double(GEAR_32KB) && 2 * GEAR_32KB < W
  {
  }

  const INIT_MIN: nat := 2048
  const INIT_MAX: nat := 32768
  const NORMALIZED_MIN: nat := 6144
  const MID: nat := 8192

  // ---- what a scan computes ----

  /** The fingerprint after the bytes `lo .. i` (exclusive) have been shifted in. */
  function Fp(gear: Gear, p: seq<Byte>, lo: nat, i: nat): Word
    requires i <= |p|
  {
    if i <= lo then 0 else Roll(Fp(gear, p, lo, i - 1), gear[p[i - 1]])
  }

  datatype Rule = Uniform(mask: Word) | Normalized {
    /** The mask a scan tests at position `i` of the chunk. */
    function MaskAt(i: nat): Word
    {
      match this
      case Uniform(m) => m
      case Normalized => if i < MID then GEAR_32KB else GEAR_02KB
    }
  }

  predicate Hit(gear: Gear, p: seq<Byte>, lo: nat, i: nat, mask: Word)
    requires i < |p|
  {
    Clear(Fp(gear, p, lo, i + 1), mask)
  }

  /** The first hit from `i` on of the scan that started at `lo`, or `n`. */
  function CutFrom(gear: Gear, p: seq<Byte>, rule: Rule, lo: nat, i: nat, n: nat): (c: nat)
    requires i <= n <= |p|
    ensures i <= c <= n
    decreases n - i
  {
    if i == n then n
    else if Hit(gear, p, lo, i, rule.MaskAt(i)) then i
    else CutFrom(gear, p, rule, lo, i + 1, n)
  }

  lemma ScanStart(gear: Gear, p: seq<Byte>, lo: nat)
    requires lo <= |p|
    ensures Fp(gear, p, lo, lo) == 0
  {
  }

  /** One step of a scan. */
  lemma ScanStep(gear: Gear, p: seq<Byte>, rule: Rule, lo: nat, i: nat, n: nat)
    requires lo <= i < n <= |p|
    ensures Fp(gear, p, lo, i + 1) == Roll(Fp(gear, p, lo, i), gear[p[i]])
    ensures CutFrom(gear, p, rule, lo, i, n)
         == if Clear(Fp(gear, p, lo, i + 1), rule.MaskAt(i)) then i else CutFrom(gear, p, rule, lo, i + 1, n)
  {
  }

  /** Two steps of a scan, as the two-byte loops make them. */
  lemma PairScan(gear: Gear, p: seq<Byte>, rule: Rule, lo: nat, a: nat, n: nat, f: Word, l: Word)
    requires lo <= a && a + 1 < n <= |p|
    requires f == Fp(gear, p, lo, a) && l == Double(gear[p[a]])
    requires rule.MaskAt(a) == rule.MaskAt(a + 1) && 2 * rule.MaskAt(a) < W
    ensures Plus(RollTwo(f, l), gear[p[a + 1]]) == Fp(gear, p, lo, a + 2)
    ensures CutFrom(gear, p, rule, lo, a, n)
         == if Clear(RollTwo(f, l), Double(rule.MaskAt(a))) then a
            else if Clear(Fp(gear, p, lo, a + 2), rule.MaskAt(a)) then a + 1
            else CutFrom(gear, p, rule, lo, a + 2, n)
  {
    hide Fp, CutFrom, Roll, RollTwo, Double, Plus, Clear, Rule.MaskAt;
    ScanStep(gear, p, rule, lo, a, n);
    ScanStep(gear, p, rule, lo, a + 1, n);
    PairFacts(f, gear[p[a]], gear[p[a + 1]], rule.MaskAt(a));
  }

  /** A one-byte chunker that skips `min` bytes and stops at `max`. */
  function Cut(gear: Gear, p: seq<Byte>, rule: Rule, min: nat, max: nat): (c: nat)
    requires min <= max
  {
    if |p| <= min then |p| else CutFrom(gear, p, rule, min, min, Min(|p|, max))
  }

  /** What pairing the bytes changes: the last byte of an odd scan is never examined. */
  function Paired(c: nat, n: nat): nat {
    if n % 2 == 1 && c + 1 == n then n else c
  }

  /** The end of a two-byte scan: an odd last byte is skipped. */
  lemma PairedEnd(gear: Gear, p: seq<Byte>, rule: Rule, lo: nat, n: nat)
    requires lo <= n <= |p| && lo % 2 == 0
    requires CutFrom(gear, p, rule, lo, lo, n) == CutFrom(gear, p, rule, lo, 2 * (n / 2), n)
    ensures Paired(CutFrom(gear, p, rule, lo, lo, n), n) == n
  {
    if n % 2 == 1 {
      ScanStep(gear, p, rule, lo, n - 1, n);
    }
  }

  // ---- the same in terms of bits ----

  /** The scanned bytes' gear words, each shifted by the bytes after it, summed without bound. */
  function Window(gear: Gear, p: seq<Byte>, lo: nat, i: nat): nat
    requires i <= |p|
    decreases i - lo
  {
    if i <= lo then 0 else Pow2(i - 1 - lo) * gear[p[lo]] + Window(gear, p, lo + 1, i)
  }

  lemma {:induction false} WindowNext(gear: Gear, p: seq<Byte>, lo: nat, i: nat)
    requires lo <= i < |p|
    ensures Window(gear, p, lo, i + 1) == 2 * Window(gear, p, lo, i) + gear[p[i]]
    decreases i - lo
  {
    if lo < i {
      WindowNext(gear, p, lo + 1, i);
      var g: nat := gear[p[lo]];
      Pow2Next(i - 1 - lo);
      assert Pow2(i - lo) * g == 2 * (Pow2(i - 1 - lo) * g);
    } else {
      assert Window(gear, p, lo + 1, i + 1) == 0 && Pow2(0) * gear[p[lo]] == gear[p[lo]];
    }
  }

  /** A fingerprint is that sum modulo 2^64. */
  lemma {:induction false} FpIsWindow(gear: Gear, p: seq<Byte>, lo: nat, i: nat)
    requires i <= |p|
    ensures Fp(gear, p, lo, i) == Window(gear, p, lo, i) % W
  {
    if lo < i {
      FpIsWindow(gear, p, lo, i - 1);
      WindowNext(gear, p, lo, i - 1);
      var w := Window(gear, p, lo, i - 1);
      ModTwice(w);
      ModPlus(2 * w, gear[p[i - 1]]);
    }
  }

  /** No bit of the mask is set in the fingerprint of the bytes `lo ..= i`; the mask is `below` up to 8192 and
      `above` from there on. */
  ghost predicate NoMaskBit(gear: Gear, p: seq<Byte>, lo: nat, i: nat, below: Word, above: Word)
    requires i < |p|
  {
    NoCommonBit(Window(gear, p, lo, i + 1) % W, if i < 8192 then below else above)
  }

  /** `r` is the first position from `lo` on, among those before `e`, at which no bit of the mask is set, or else the
      end `n`. */
  ghost predicate FirstClear(gear: Gear, p: seq<Byte>, lo: nat, e: nat, n: nat, below: Word, above: Word, r: nat)
    requires e <= n <= |p|
  {
    && (r == n || lo <= r < e)
    && (r < e ==> NoMaskBit(gear, p, lo, r, below, above))
    && (forall i :: lo <= i < e && i < r ==> !NoMaskBit(gear, p, lo, i, below, above))
  }

  /** What a chunker returns: a buffer of at most `min` bytes whole, and otherwise the first clear position from `lo`
      on; a two-byte chunker does not look at the last byte of an odd scan. */
  ghost predicate CutsAtFirstClear(gear: Gear, p: seq<Byte>, min: nat, lo: nat, max: nat, paired: bool,
                                   below: Word, above: Word, r: nat)
  {
    if |p| <= min then r == |p|
    else
      var n := Min(|p|, max);
      FirstClear(gear, p, lo, if paired then 2 * (n / 2) else n, n, below, above, r)
  }

  /** A scan stops at its first hit. */
  lemma {:induction false} CutIsFirstHit(gear: Gear, p: seq<Byte>, rule: Rule, lo: nat, i: nat, n: nat)
    requires i <= n <= |p|
    ensures var c := CutFrom(gear, p, rule, lo, i, n);
            && (forall k :: i <= k < c ==> !Hit(gear, p, lo, k, rule.MaskAt(k)))
            && (c < n ==> Hit(gear, p, lo, c, rule.MaskAt(c)))
    decreases n - i
  {
    if i < n && !Hit(gear, p, lo, i, rule.MaskAt(i)) {
      CutIsFirstHit(gear, p, rule, lo, i + 1, n);
    }
  }

  lemma HitIff(gear: Gear, p: seq<Byte>, lo: nat, i: nat, rule: Rule)
    requires i < |p|
    ensures Hit(gear, p, lo, i, rule.MaskAt(i)) <==> NoMaskBit(gear, p, lo, i, rule.MaskAt(0), rule.MaskAt(8192))
  {
    hide Clear, Fp, Window, NoCommonBit;
    FpIsWindow(gear, p, lo, i + 1);
    ClearIff(Fp(gear, p, lo, i + 1), rule.MaskAt(i));
  }

  lemma CutIsFirstClear(gear: Gear, p: seq<Byte>, rule: Rule, lo: nat, n: nat)
    requires lo <= n <= |p|
    ensures var c := CutFrom(gear, p, rule, lo, lo, n);
            && FirstClear(gear, p, lo, n, n, rule.MaskAt(0), rule.MaskAt(8192), c)
            && (lo % 2 == 0 ==>
                  FirstClear(gear, p, lo, 2 * (n / 2), n, rule.MaskAt(0), rule.MaskAt(8192), Paired(c, n)))
  {
    hide Hit, NoMaskBit;
    CutIsFirstHit(gear, p, rule, lo, lo, n);
    forall i | lo <= i < n
      ensures Hit(gear, p, lo, i, rule.MaskAt(i)) <==> NoMaskBit(gear, p, lo, i, rule.MaskAt(0), rule.MaskAt(8192))
    {
      HitIff(gear, p, lo, i, rule);
    }
  }

  /** Where rolling_data_2byes_64 stops: the uniform scan from twice the halved minimum. */
  function RollingCut(gear: Gear, p: seq<Byte>, min: nat, half: nat, max: nat): nat
    requires 2 * half <= min <= max
  {
    if |p| <= min then |p|
    else
      var n := Min(|p|, max);
      Paired(CutFrom(gear, p, Uniform(GEAR_08KB), 2 * half, 2 * half, n), n)
  }

  // ---- the global state and the chunkers ----

  class Chunker {
    const gear: Gear
    var lear: Gear
    var minSize: nat
    var minSizeDivideBy2: nat
    var maxSize: nat

    /** LEARv2 is GEARv2 shifted by one, and the sizes are ones the code can leave. */
    ghost predicate Ready()
      reads this
    {
      && (forall b :: 0 <= b < 256 ==> lear[b] == Double(gear[b]))
      && (minSize == INIT_MIN || minSize == NORMALIZED_MIN)
      && minSizeDivideBy2 == INIT_MIN / 2 && maxSize == INIT_MAX
    }

    constructor (gear: Gear)
      ensures this.gear == gear
    {
      this.gear, lear := gear, seq(256, _ => 0);
      minSize, minSizeDivideBy2, maxSize := 0, 0, 0;
    }

    /** The 64-bit part of fastCDC_init. */
    method Init()
      modifies this
      ensures Ready() && minSize == INIT_MIN
    {
      var i := 0;
      while i < 256
        invariant 0 <= i <= 256
        invariant forall b :: 0 <= b < i ==> lear[b] == Double(gear[b])
      {
        lear := lear[i := Double(gear[i])];
        i := i + 1;
      }
      minSize := 8192 / 4;
      maxSize := 8192 * 4;
      minSizeDivideBy2 := minSize / 2;
    }

    /** cdc_origin_64. */
    method CdcOrigin(p: seq<Byte>) returns (r: nat)
      requires minSize <= maxSize
      ensures r == Cut(gear, p, Uniform(GEAR_08KB), minSize, maxSize)
      ensures CutsAtFirstClear(gear, p, minSize, minSize, maxSize, false, 0x0000d93003530000, 0x0000d93003530000, r)
    {
      hide Roll, RollTwo, Plus, Double, Clear, Fp, CutFrom, FirstClear;
      MasksFit();
      if |p| > minSize {
        CutIsFirstClear(gear, p, Uniform(GEAR_08KB), minSize, Min(|p|, maxSize));
      }
      var fingerprint, i, n := 0, minSize, |p|;
      if n <= minSize {
        return n;
      }
      if n > maxSize {
        n := maxSize;
      }
      ScanStart(gear, p, i);
      while i < n
        invariant minSize <= i <= n == Min(|p|, maxSize) && fingerprint == Fp(gear, p, minSize, i)
        invariant Cut(gear, p, Uniform(GEAR_08KB), minSize, maxSize)
               == CutFrom(gear, p, Uniform(GEAR_08KB), minSize, i, n)
      {
        ScanStep(gear, p, Uniform(GEAR_08KB), minSize, i, n);
        fingerprint := Roll(fingerprint, gear[p[i]]);
        if Clear(fingerprint, GEAR_08KB) {
          return i;
        }
        i := i + 1;
      }
      return n;
    }

    /** normalized_chunking_64. */
    method NormalizedChunking(p: seq<Byte>) returns (r: nat)
      requires maxSize == INIT_MAX
      modifies this`minSize
      ensures minSize == NORMALIZED_MIN
      ensures r == Cut(gear, p, Normalized, NORMALIZED_MIN, maxSize)
      ensures CutsAtFirstClear(gear, p, 6144, 6144, maxSize, false, 0x0000d9f003530000, 0x0000d90003530000, r)
    {
      hide Roll, RollTwo, Plus, Double, Clear, Fp, CutFrom, FirstClear;
      MasksFit();
      if |p| > NORMALIZED_MIN {
        CutIsFirstClear(gear, p, Normalized, NORMALIZED_MIN, Min(|p|, maxSize));
      }
      var fingerprint, n := 0, |p|;
      minSize := 6 * 1024;
      var i, mid := minSize, 8 * 1024;
      if n <= minSize {
        return n;
      }
      if n > maxSize {
        n := maxSize;
      } else if n < mid {
        mid := n;
      }
      ScanStart(gear, p, i);
      while i < mid
        invariant minSize == NORMALIZED_MIN <= i <= mid && fingerprint == Fp(gear, p, minSize, i)
        invariant Cut(gear, p, Normalized, minSize, maxSize) == CutFrom(gear, p, Normalized, minSize, i, n)
      {
        ScanStep(gear, p, Normalized, minSize, i, n);
        fingerprint := Roll(fingerprint, gear[p[i]]);
        if Clear(fingerprint, GEAR_32KB) {
          return i;
        }
        i := i + 1;
      }
      while i < n
        invariant minSize == NORMALIZED_MIN && mid <= i <= n && fingerprint == Fp(gear, p, minSize, i)
        invariant Cut(gear, p, Normalized, minSize, maxSize) == CutFrom(gear, p, Normalized, minSize, i, n)
      {
        ScanStep(gear, p, Normalized, minSize, i, n);
        fingerprint := Roll(fingerprint, gear[p[i]]);
        if Clear(fingerprint, GEAR_02KB) {
          return i;
        }
        i := i + 1;
      }
      return n;
    }

    /** rolling_data_2byes_64: the scan starts at 2 * MinSize_divide_by_2, whatever MinSize is. */
    method RollingTwoBytes(p: seq<Byte>) returns (r: nat)
      requires Ready()
      ensures r == RollingCut(gear, p, minSize, minSizeDivideBy2, maxSize)
      ensures CutsAtFirstClear(gear, p, minSize, 2 * minSizeDivideBy2, maxSize, true,
                0x0000d93003530000, 0x0000d93003530000, r)
    {
      hide Roll, RollTwo, Plus, Double, Clear, Fp, CutFrom, FirstClear;
      MasksFit();
      if |p| > minSize {
        CutIsFirstClear(gear, p, Uniform(GEAR_08KB), 2 * minSizeDivideBy2, Min(|p|, maxSize));
      }
      var fingerprint, i, n := 0, minSizeDivideBy2, |p|;
      if n <= minSize {
        return n;
      }
      if n > maxSize {
        n := maxSize;
      }
      ghost var lo, rule := 2 * i, Uniform(GEAR_08KB);
      ScanStart(gear, p, lo);
      while i < n / 2
        invariant lo <= 2 * i <= n == Min(|p|, maxSize) && fingerprint == Fp(gear, p, lo, 2 * i)
        invariant CutFrom(gear, p, rule, lo, lo, n) == CutFrom(gear, p, rule, lo, 2 * i, n)
      {
        var a := i * 2;
        PairScan(gear, p, rule, lo, a, n, fingerprint, lear[p[a]]);
        fingerprint := RollTwo(fingerprint, lear[p[a]]);
        if Clear(fingerprint, GEAR_08KB_LS) {
          return a;
        }
        fingerprint := Plus(fingerprint, gear[p[a + 1]]);
        if Clear(fingerprint, GEAR_08KB) {
          return a + 1;
        }
        i := i + 1;
      }
      PairedEnd(gear, p, rule, lo, n);
      return n;
    }

    /** normalized_chunking_2byes_64. */
    method NormalizedTwoBytes(p: seq<Byte>) returns (r: nat)
      requires Ready()
      modifies this`minSize
      ensures Ready() && minSize == NORMALIZED_MIN
      ensures r == Paired(Cut(gear, p, Normalized, NORMALIZED_MIN, maxSize), Min(|p|, maxSize))
      ensures CutsAtFirstClear(gear, p, 6144, 6144, maxSize, true, 0x0000d9f003530000, 0x0000d90003530000, r)
    {
      hide Roll, RollTwo, Plus, Double, Clear, Fp, CutFrom, FirstClear;
      MasksFit();
      if |p| > NORMALIZED_MIN {
        CutIsFirstClear(gear, p, Normalized, NORMALIZED_MIN, Min(|p|, maxSize));
      }
      var fingerprint, n := 0, |p|;
      minSize := 6 * 1024;
      var i, mid := minSize / 2, 8 * 1024;
      if n <= minSize {
        return n;
      }
      if n > maxSize {
        n := maxSize;
      } else if n < mid {
        mid := n;
      }
      ScanStart(gear, p, minSize);
      while i < mid / 2
        invariant minSize == NORMALIZED_MIN <= 2 * i <= mid && fingerprint == Fp(gear, p, minSize, 2 * i)
        invariant CutFrom(gear, p, Normalized, minSize, minSize, n) == CutFrom(gear, p, Normalized, minSize, 2 * i, n)
      {
        var a := i * 2;
        PairScan(gear, p, Normalized, minSize, a, n, fingerprint, lear[p[a]]);
        fingerprint := RollTwo(fingerprint, lear[p[a]]);
        if Clear(fingerprint, GEAR_32KB_LS) {
          return a;
        }
        fingerprint := Plus(fingerprint, gear[p[a + 1]]);
        if Clear(fingerprint, GEAR_32KB) {
          return a + 1;
        }
        i := i + 1;
      }
      while i < n / 2
        invariant minSize == NORMALIZED_MIN && mid / 2 <= i <= n / 2 && fingerprint == Fp(gear, p, minSize, 2 * i)
        invariant CutFrom(gear, p, Normalized, minSize, minSize, n) == CutFrom(gear, p, Normalized, minSize, 2 * i, n)
      {
        var a := i * 2;
        PairScan(gear, p, Normalized, minSize, a, n, fingerprint, lear[p[a]]);
        fingerprint := RollTwo(fingerprint, lear[p[a]]);
        if Clear(fingerprint, GEAR_02KB_LS) {
          return a;
        }
        fingerprint := Plus(fingerprint, gear[p[a + 1]]);
        if Clear(fingerprint, GEAR_02KB) {
          return a + 1;
        }
        i := i + 1;
      }
      PairedEnd(gear, p, Normalized, minSize, n);
      return n;
    }
  }
}
