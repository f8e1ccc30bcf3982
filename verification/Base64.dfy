/** base64 as section 4 of RFC 4648 defines it, and the loops that encode and decode in arrays of 3 and 4. */
module Base64 {
  import opened Arith
  import opened Basics

  type Sextet = x: int | 0 <= x < 64

  /** base64_chars. */
  function Chars(): string {
    "ABCDEFGHIJKLMNOPQRSTUVWXYZ" + "abcdefghijklmnopqrstuvwxyz" + "0123456789+/"
  }

  /** What a std::string's find returns for a missing character, and what of it fits a byte. */
  const NPOS := 0xFFFF_FFFF_FFFF_FFFF
  const MISSING: Byte := 255

  predicate IsBase64(c: char) {
    'A' <= c <= 'Z' || 'a' <= c <= 'z' || '0' <= c <= '9' || c == '+' || c == '/'
  }

  /** std::string's find of one character, from `k` on. */
  function FindFrom(cs: string, code: int, k: nat): (i: int)
    requires k <= |cs|
    ensures i == NPOS || (k <= i < |cs| && cs[i] as int == code)
    ensures i == NPOS && |cs| < NPOS ==> forall j :: k <= j < |cs| ==> cs[j] as int != code
    decreases |cs| - k
  {
    if k == |cs| then NPOS else if cs[k] as int == code then k else FindFrom(cs, code, k + 1)
  }

  /** base64_chars.find, as it lands in a byte. */
  function Find(code: int): Byte {
    FindFrom(Chars(), code, 0) % 256
  }

  lemma FindIs(code: int)
    ensures Find(code) < 64 <==> exists j :: 0 <= j < |Chars()| && Chars()[j] as int == code
    ensures Find(code) < 64 ==> |Chars()| == 64 && Chars()[Find(code)] as int == code
  {
    hide Chars;
    CutToByte();
  }

  lemma CutToByte()
    ensures |Chars()| == 64 && NPOS % 256 == MISSING
  {
    Table(0);
  }

  /** The alphabet has 64 characters, in the order of Table 1 of the RFC. */
  lemma Table(i: Sextet)
    ensures |Chars()| == 64
    ensures Chars()[i] as int == if i < 26 then 65 + i else if i < 52 then 71 + i else if i < 62 then i - 4 else if i == 62 then 43 else 47
  {
    var upper, lower, rest := "ABCDEFGHIJKLMNOPQRSTUVWXYZ", "abcdefghijklmnopqrstuvwxyz", "0123456789+/";
    assert |upper| == 26 && |lower| == 26 && |rest| == 12;
    if i < 26 {
      assert Chars()[i] == upper[i];
    } else if i < 52 {
      assert Chars()[i] == lower[i - 26];
    } else {
      assert Chars()[i] == rest[i - 52];
    }
  }

  function Letter(v: Sextet): (c: char) {
    Table(v);
    Chars()[v]
  }

  lemma FindLetter(v: Sextet)
    ensures IsBase64(Letter(v)) && Find(Letter(v) as int) == v
  {
    hide Chars;
    Table(v);
    FindIs(Letter(v) as int);
    Table(Find(Letter(v) as int));
  }

  /** Exactly the alphabet is accepted. */
  lemma LetterFound(c: char)
    ensures IsBase64(c) <==> Find(c as int) < 64
    ensures IsBase64(c) ==> Letter(Find(c as int)) == c
  {
    hide Chars, Find;
    var n := c as int;
    var k: Sextet := if 65 <= n <= 90 then n - 65 else if 97 <= n <= 122 then n - 71 else if 48 <= n <= 57 then n + 4 else if n == 43 then 62 else 63;
    Table(k);
    FindIs(n);
    if IsBase64(c) {
      assert Chars()[k] as int == n;
    } else if Find(n) < 64 {
      Table(Find(n));
    }
  }

  // ---- the specification: groups of 24 bits ----

  function Group(b0: Byte, b1: Byte, b2: Byte): int {
    0x10000 * b0 + 0x100 * b1 + b2
  }

  function SextetAt(group: int, j: nat): (v: Sextet)
    requires j < 4
  {
    (group / (if j == 0 then 0x40000 else if j == 1 then 0x1000 else if j == 2 then 0x40 else 1)) % 64
  }

  /** The first `n` of a group's four letters. */
  function Letters(group: int, n: nat): (s: string)
    requires n <= 4
    ensures |s| == n
  {
    seq(n, j requires 0 <= j < 4 => Letter(SextetAt(group, j)))
  }

  function Encode(b: seq<Byte>): (s: string) {
    if |b| == 0 then ""
    else if |b| == 1 then Letters(Group(b[0], 0, 0), 2) + "=="
    else if |b| == 2 then Letters(Group(b[0], b[1], 0), 3) + "="
    else Letters(Group(b[0], b[1], b[2]), 4) + Encode(b[3..])
  }

  function Value(c: char): (v: Sextet)
    requires IsBase64(c)
  {
    LetterFound(c);
    Find(c as int)
  }

  /** How many characters of the alphabet `s` starts with. */
  function Lead(s: string): (n: nat)
    ensures n <= |s|
    ensures forall i :: 0 <= i < n ==> IsBase64(s[i])
    ensures n < |s| ==> !IsBase64(s[n])
  {
    if s == "" || !IsBase64(s[0]) then 0 else 1 + Lead(s[1..])
  }

  /** The values of the first `n` characters. */
  function Values(s: string, n: nat): (v: seq<Sextet>)
    requires n <= |s| && forall i :: 0 <= i < n ==> IsBase64(s[i])
    ensures |v| == n
  {
    seq(n, i requires 0 <= i < n => Value(s[i]))
  }

  /** The bytes that two neighbouring sextets of a group hold between them. */
  function High(v0: Sextet, v1: Sextet): (b: Byte) {
    var w0: int, w1: int := v0, v1;
    (64 * w0 + w1) / 16
  }

  function Middle(v1: Sextet, v2: Sextet): (b: Byte) {
    var w1: int, w2: int := v1, v2;
    (64 * w1 + w2) / 4 % 256
  }

  function Low(v2: Sextet, v3: Sextet): (b: Byte) {
    var w2: int, w3: int := v2, v3;
    (64 * w2 + w3) % 256
  }

  /** Whole groups of four give three bytes; a tail of three gives two, a tail of two gives one. */
  function Decode(s: string): seq<Byte> {
    var n := Lead(s);
    var v := Values(s, n);
    if n < 2 then []
    else if n == 2 then [High(v[0], v[1])]
    else if n == 3 then [High(v[0], v[1]), Middle(v[1], v[2])]
    else [High(v[0], v[1]), Middle(v[1], v[2]), Low(v[2], v[3])] + Decode(s[4..])
  }

  // ---- the loops ----

  /** The masks and shifts of the bytes pick the group's four sextets. */
  lemma Sextets(b0: Byte, b1: Byte, b2: Byte)
    ensures var g := Group(b0, b1, b2);
            && SextetAt(g, 0) == b0 / 4 && SextetAt(g, 1) == (b0 % 4) * 16 + b1 / 16
            && SextetAt(g, 2) == (b1 % 16) * 4 + b2 / 64 && SextetAt(g, 3) == b2 % 64
  {
    var g: int := Group(b0, b1, b2);
    var p0: int, p1: int, p2: int := b0 / 4, b1 / 16, b2 / 64;
    var r0: int, r1: int, r2: int := b0 % 4, b1 % 16, b2 % 64;
    ModIs(g, 0x40000, p0, 0x10000 * r0 + 0x100 * b1 + b2);
    ModIs(g, 0x1000, 64 * p0 + (16 * r0 + p1), 0x100 * r1 + b2);
    ModIs(64 * p0 + (16 * r0 + p1), 64, p0, 16 * r0 + p1);
    ModIs(g, 0x40, 64 * (64 * p0 + (16 * r0 + p1)) + (4 * r1 + p2), r2);
    ModIs(64 * (64 * p0 + (16 * r0 + p1)) + (4 * r1 + p2), 64, 64 * p0 + (16 * r0 + p1), 4 * r1 + p2);
    ModIs(g, 64, 64 * (64 * p0 + (16 * r0 + p1)) + (4 * r1 + p2), r2);
  }

  /** The four indices of an encoding group. */
  method ToFour(a3: array<Byte>, a4: array<Byte>)
    requires a3.Length == 3 && a4.Length == 4 && a3 != a4
    modifies a4
    ensures forall j :: 0 <= j < 4 ==> a4[j] == SextetAt(Group(a3[0], a3[1], a3[2]), j)
  {
    hide SextetAt, Group;
    Sextets(a3[0], a3[1], a3[2]);
    a4[0] := a3[0] / 4;
    a4[1] := (a3[0] % 4) * 16 + a3[1] / 16;
    a4[2] := (a3[1] % 16) * 4 + a3[2] / 64;
    a4[3] := a3[2] % 64;
  }

  method AppendLetters(was: string, a4: array<Byte>, n: nat, ghost group: int) returns (ret: string)
    requires a4.Length == 4 && n <= 4 && forall j :: 0 <= j < n ==> a4[j] == SextetAt(group, j)
    ensures ret == was + Letters(group, n)
  {
    hide Letter, Letters, SextetAt;
    LettersNext(group);
    ret := was;
    for j := 0 to n
      invariant ret == was + Letters(group, j)
    {
      ret := ret + [Letter(a4[j])];
    }
  }

  method EncodeBase64(buf: seq<Byte>) returns (ret: string)
    ensures ret == Encode(buf)
  {
    hide Letter, Letters, SextetAt, Group, Encode;
    ret := "";
    var i, p := 0, 0;
    var a3, a4 := new Byte[3], new Byte[4];
    while p < |buf|
      invariant i < 3 && i <= p <= |buf|
      invariant Taken(a3, i, buf[p - i..])
      invariant Encode(buf) == ret + Encode(buf[p - i..])
      decreases |buf| - p
    {
      ghost var rest := buf[p - i..];
      a3[i] := buf[p];
      assert rest[i] == buf[p];
      i, p := i + 1, p + 1;
      assert buf[p - i..] == rest;
      if i == 3 {
        ToFour(a3, a4);
        EncodeStep(rest);
        assert rest[3..] == buf[p..];
        ret := AppendLetters(ret, a4, 4, Group(a3[0], a3[1], a3[2]));
        i := 0;
      }
    }
    ghost var rest := buf[p - i..];
    if i == 0 {
      EncodedEmpty();
      assert rest == [];
    } else {
      for j := i to 3
        invariant Taken(a3, i, rest)
        invariant forall k :: i <= k < j ==> a3[k] == 0
      {
        a3[j] := 0;
      }
      ToFour(a3, a4);
      EncodeStep(rest);
      ret := AppendLetters(ret, a4, i + 1, Group(a3[0], a3[1], a3[2]));
      ret := Pad(ret, i);
    }
  }

  /** The array starts with the first `i` bytes of `rest`. */
  ghost predicate Taken(a3: array<Byte>, i: nat, rest: seq<Byte>)
    reads a3
  {
    i <= a3.Length && i <= |rest| && forall k :: 0 <= k < i ==> a3[k] == rest[k]
  }

  method Pad(was: string, n: nat) returns (ret: string)
    requires n <= 3
    ensures ret == was + seq(3 - n, _ => '=')
  {
    ret := was;
    var i := n;
    while i < 3
      invariant n <= i <= 3 && ret == was + seq(i - n, _ => '=')
    {
      i := i + 1;
      ret := ret + "=";
    }
  }

  lemma LettersNext(g: int)
    ensures Letters(g, 0) == []
    ensures forall j :: 0 <= j < 4 ==> Letters(g, j + 1) == Letters(g, j) + [Letter(SextetAt(g, j))]
  {
    hide Letter, SextetAt;
  }

  lemma EncodeStep(b: seq<Byte>)
    requires b != []
    ensures var group := Group(b[0], if |b| > 1 then b[1] else 0, if |b| > 2 then b[2] else 0);
            Encode(b) == if |b| < 3 then Letters(group, |b| + 1) + seq(3 - |b|, _ => '=') else Letters(group, 4) + Encode(b[3..])
  {
    hide Letters, Group;
  }

  /** The bytes of neighbouring sextets, each cut to 8 bits as it is stored. */
  lemma HighBits(v0: Sextet, v1: Sextet)
    ensures (v0 * 4 + v1 / 16 % 4) % 256 == v0 * 4 + v1 / 16 == High(v0, v1)
  {
    var w0: int, w1: int := v0, v1;
    ModIs(64 * w0 + w1, 16, 4 * w0 + w1 / 16, w1 % 16);
  }

  lemma MiddleBits(v1: Sextet, v2: Sextet)
    ensures (v1 % 16 * 16 + v2 / 4 % 16) % 256 == v1 % 16 * 16 + v2 / 4 == Middle(v1, v2)
  {
    var w1: int, w2: int := v1, v2;
    ModIs(64 * w1 + w2, 4, 16 * w1 + w2 / 4, w2 % 4);
    ModIs(16 * w1 + w2 / 4, 256, w1 / 16, w1 % 16 * 16 + w2 / 4);
  }

  lemma LowBits(v2: Sextet, v3: Sextet)
    ensures (v2 % 4 * 64 + v3) % 256 == v2 % 4 * 64 + v3 == Low(v2, v3)
  {
    var w2: int, w3: int := v2, v3;
    ModIs(64 * w2 + w3, 256, w2 / 4, w2 % 4 * 64 + w3);
  }

  /** The three bytes of a decoding group. */
  method ToThree(a4: array<Byte>, a3: array<Byte>)
    requires a3.Length == 3 && a4.Length == 4 && a3 != a4 && a4[0] < 64
    modifies a3
    ensures a4[1] < 64 ==> a3[0] == High(a4[0], a4[1])
    ensures a4[1] < 64 && a4[2] < 64 ==> a3[1] == Middle(a4[1], a4[2])
    ensures a4[1] < 64 && a4[2] < 64 && a4[3] < 64 ==> a3[2] == Low(a4[2], a4[3])
  {
    hide High, Middle, Low;
    var v0: int, v1: int, v2: int, v3: int := a4[0], a4[1], a4[2], a4[3];
    if v1 < 64 {
      HighBits(v0, v1);
      if v2 < 64 {
        MiddleBits(v1, v2);
        if v3 < 64 {
          LowBits(v2, v3);
        }
      }
    }
    a3[0] := (v0 * 4 + v1 / 16 % 4) % 256;
    a3[1] := (v1 % 16 * 16 + v2 / 4 % 16) % 256;
    a3[2] := (v2 % 4 * 64 + v3) % 256;
  }

  /** What three bytes hold of the first `n` values. */
  ghost predicate Holds(a: seq<Byte>, v: seq<Sextet>)
    requires |a| == 3 && |v| <= 4
  {
    && (|v| >= 2 ==> a[0] == High(v[0], v[1]))
    && (|v| >= 3 ==> a[1] == Middle(v[1], v[2]))
    && (|v| >= 4 ==> a[2] == Low(v[2], v[3]))
  }

  /** The array starts with the first `i` characters of `t`, all in the alphabet. */
  ghost predicate Loaded(a4: array<Byte>, i: nat, t: string)
    reads a4
  {
    i <= a4.Length && i <= |t| && forall k :: 0 <= k < i ==> IsBase64(t[k]) && a4[k] == t[k] as int
  }

  /** Look the first `i` characters up, the rest being zero, and join them. */
  method LookUpAndJoin(a4: array<Byte>, a3: array<Byte>, i: nat, ghost t: string)
    requires a3.Length == 3 && a4.Length == 4 && a3 != a4 && 1 <= i <= 4 && i <= |t|
    requires Loaded(a4, i, t)
    modifies a3, a4
    ensures Holds(a3[..], Values(t, i))
  {
    hide Find, Value, IsBase64, High, Middle, Low;
    for j := 0 to 4
      invariant forall k :: 0 <= k < j && k < i ==> a4[k] == Value(t[k])
      invariant forall k :: j <= k < i ==> a4[k] == t[k] as int
    {
      if j < i {
        ValueIs(t[j]);
      }
      a4[j] := Find(a4[j]);
    }
    ToThree(a4, a3);
  }

  method Load(a4: array<Byte>, i: nat, c: char, ghost t: string)
    requires a4.Length == 4 && i < 4 && i < |t| && Loaded(a4, i, t) && t[i] == c && IsBase64(c)
    modifies a4
    ensures Loaded(a4, i + 1, t)
  {
    CodeFits(c);
    a4[i] := c as int;
  }

  lemma LoadedLead(a4: array<Byte>, i: nat, t: string)
    requires Loaded(a4, i, t)
    ensures i <= Lead(t) && (i < |t| ==> (Lead(t) == i <==> !IsBase64(t[i]))) && (i == |t| ==> Lead(t) == i)
    ensures forall k :: 0 <= k < i ==> IsBase64(t[k])
  {
    hide IsBase64;
    LeadAfter(t, i);
  }

  lemma NothingLoaded(a4: array<Byte>, t: string)
    ensures Loaded(a4, 0, t)
  {
  }

  method ZeroFrom(a4: array<Byte>, i: nat, ghost t: string)
    requires a4.Length == 4 && Loaded(a4, i, t)
    modifies a4
    ensures Loaded(a4, i, t)
  {
    for j := i to 4
      invariant Loaded(a4, i, t)
    {
      a4[j] := 0;
    }
  }

  method AppendBytes(was: seq<Byte>, a3: array<Byte>, n: nat) returns (ret: seq<Byte>)
    requires n <= a3.Length
    ensures ret == was + a3[..n]
  {
    ret := was;
    for j := 0 to n
      invariant ret == was + a3[..j]
    {
      ret := ret + [a3[j]];
    }
  }

  lemma Append3(x: seq<Byte>, y: seq<Byte>, z: seq<Byte>)
    ensures x + (y + z) == (x + y) + z
  {
  }

  lemma ValueIs(c: char)
    requires IsBase64(c)
    ensures Value(c) == Find(c as int)
  {
  }

  method DecodeBase64(s: string) returns (ret: seq<Byte>)
    ensures ret == Decode(s)
  {
    hide Find, Letter, IsBase64, Decode, Value, Values, Holds, Lead, Loaded, High, Middle, Low;
    ret := [];
    var i, p := 0, 0;
    var a4, a3 := new Byte[4], new Byte[3];
    PadIsNot();
    NothingLoaded(a4, s[0..]);
    assert s[0..] == s;
    while p < |s| && s[p] != '=' && IsBase64(s[p])
      invariant i < 4 && i <= p <= |s|
      invariant Loaded(a4, i, s[p - i..])
      invariant Decode(s) == ret + Decode(s[p - i..])
      decreases |s| - p
    {
      ghost var t := s[p - i..];
      assert t[i] == s[p];
      Load(a4, i, s[p], t);
      i, p := i + 1, p + 1;
      assert s[p - i..] == t;
      if i == 4 {
        LoadedLead(a4, 4, t);
        LookUpAndJoin(a4, a3, 4, t);
        DecodeHeld(t, a3[..], 4);
        assert t[4..] == s[p..];
        Append3(ret, a3[..3], Decode(t[4..]));
        ret := AppendBytes(ret, a3, 3);
        NothingLoaded(a4, s[p..]);
        i := 0;
      }
    }
    ghost var t := s[p - i..];
    LoadedLead(a4, i, t);
    if i == 0 {
      DecodeTail(t);
    } else {
      ZeroFrom(a4, i, t);
      LookUpAndJoin(a4, a3, i, t);
      DecodeHeld(t, a3[..], i);
      ret := AppendBytes(ret, a3, i - 1);
    }
  }

  lemma PadIsNot()
    ensures !IsBase64('=')
  {
  }

  lemma CodeFits(c: char)
    requires IsBase64(c)
    ensures c as int < 256
  {
  }

  lemma {:induction false} LeadIs(t: string, n: nat)
    requires n <= |t| && (n < |t| ==> !IsBase64(t[n])) && forall k :: 0 <= k < n ==> IsBase64(t[k])
    ensures Lead(t) == n
  {
  }

  lemma DecodeWhole(t: string)
    requires |t| >= 4 && forall k :: 0 <= k < 4 ==> IsBase64(t[k])
    ensures var v := Values(t, 4);
            Decode(t) == [High(v[0], v[1]), Middle(v[1], v[2]), Low(v[2], v[3])] + Decode(t[4..])
  {
    hide High, Middle, Low, Value, IsBase64;
    assert Lead(t) >= 4;
  }

  lemma DecodeTail(t: string)
    requires Lead(t) < 4
    ensures var v := Values(t, Lead(t));
            Decode(t) == if |v| < 2 then [] else if |v| == 2 then [High(v[0], v[1])] else [High(v[0], v[1]), Middle(v[1], v[2])]
  {
    hide High, Middle, Low, Value, IsBase64;
  }

  /** What a group's bytes, as far as they hold anything, contribute to the result. */
  lemma DecodeHeld(t: string, a: seq<Byte>, n: nat)
    requires |a| == 3 && 1 <= n <= 4 && n <= Lead(t) && Holds(a, Values(t, n)) && (n < 4 ==> Lead(t) == n)
    ensures Decode(t) == a[..n - 1] + if n == 4 then Decode(t[4..]) else []
  {
    hide High, Middle, Low, Value, IsBase64, Decode;
    if n == 4 {
      DecodeWhole(t);
      var v := Values(t, 4);
      assert a[..3] == [High(v[0], v[1]), Middle(v[1], v[2]), Low(v[2], v[3])];
    } else {
      DecodeTail(t);
    }
  }

  // ---- what the codec promises ----

  /** Decoding what was encoded gives it back. */
  lemma {:induction false} RoundTrip(b: seq<Byte>)
    ensures Decode(Encode(b)) == b
  {
    hide Letter, IsBase64, Value, Decode, Encode, Group, SextetAt, High, Middle, Low;
    if b == [] {
      EncodedEmpty();
    } else {
      var n := if |b| < 3 then |b| else 3;
      var b1, b2 := if n > 1 then b[1] else 0, if n > 2 then b[2] else 0;
      var g, e := Group(b[0], b1, b2), Encode(b);
      EncodeStep(b);
      LettersValues(g, n + 1, e);
      Rejoined(b[0], b1, b2);
      if n == 3 {
        RoundTrip(b[3..]);
        assert e[4..] == Encode(b[3..]);
        DecodeWhole(e);
      } else {
        PadIsNot();
        assert e[n + 1] == '=';
        LeadIs(e, n + 1);
        DecodeTail(e);
      }
    }
  }

  lemma EncodedEmpty()
    ensures Encode([]) == "" && Decode("") == []
  {
  }

  lemma LettersValues(g: int, n: nat, e: string)
    requires n <= 4 && n <= |e| && e[..n] == Letters(g, n)
    ensures forall k :: 0 <= k < n ==> IsBase64(e[k])
    ensures Values(e, n) == seq(n, k requires 0 <= k < 4 => SextetAt(g, k))
  {
    hide Letter, IsBase64, Value, SextetAt;
    forall k | 0 <= k < n ensures IsBase64(e[k]) && Value(e[k]) == SextetAt(g, k) {
      assert e[k] == e[..n][k] == Letter(SextetAt(g, k));
      FindLetter(SextetAt(g, k));
      ValueIs(e[k]);
    }
  }

  /** The group's sextets hold its bytes; where the last bytes are zero, fewer sextets hold the rest. */
  lemma Rejoined(b0: Byte, b1: Byte, b2: Byte)
    ensures var g := Group(b0, b1, b2);
            && High(SextetAt(g, 0), SextetAt(g, 1)) == b0
            && Middle(SextetAt(g, 1), SextetAt(g, 2)) == b1
            && Low(SextetAt(g, 2), SextetAt(g, 3)) == b2
  {
    hide SextetAt, Group;
    Sextets(b0, b1, b2);
    var c0: int, c1: int, c2: int := b0, b1, b2;
    ModIs(64 * (c0 / 4) + (c0 % 4 * 16 + c1 / 16), 16, c0, c1 / 16);
    ModIs(64 * (c0 % 4 * 16 + c1 / 16) + (c1 % 16 * 4 + c2 / 64), 4, 256 * (c0 % 4) + c1, c2 / 64);
    ModIs(256 * (c0 % 4) + c1, 256, c0 % 4, c1);
    ModIs(64 * (c1 % 16 * 4 + c2 / 64) + c2 % 64, 256, c1 % 16, c2);
  }

  /** Four characters for every three bytes or part of them; only the tail is padded, one `=` for each byte
      it lacks, and everything else is in the alphabet. */
  lemma {:induction false} EncodedShape(b: seq<Byte>)
    ensures |Encode(b)| == 4 * ((|b| + 2) / 3)
    ensures Lead(Encode(b)) == |Encode(b)| - (3 - |b| % 3) % 3
    ensures forall k :: Lead(Encode(b)) <= k < |Encode(b)| ==> Encode(b)[k] == '='
  {
    hide Letter, IsBase64, Value, Group, SextetAt, Letters, Encode, Lead;
    if b == [] {
      EncodedEmpty();
    } else {
      var n := if |b| < 3 then |b| else 3;
      var g, e := Group(b[0], if |b| > 1 then b[1] else 0, if |b| > 2 then b[2] else 0), Encode(b);
      EncodeStep(b);
      LettersValues(g, n + 1, e);
      PadIsNot();
      if n == 3 {
        EncodedShape(b[3..]);
        assert e[4..] == Encode(b[3..]);
        LeadAfter(e, 4);
      } else {
        LeadIs(e, n + 1);
      }
    }
  }

  lemma {:induction false} LeadAfter(e: string, n: nat)
    requires n <= |e| && forall k :: 0 <= k < n ==> IsBase64(e[k])
    ensures Lead(e) == n + Lead(e[n..])
  {
    hide IsBase64;
    if n == 0 {
      assert e[0..] == e;
    } else {
      LeadAfter(e[1..], n - 1);
      assert e[1..][n - 1..] == e[n..];
    }
  }

  /** Groups of four letters, the last one perhaps padded, and then with no stray bits. */
  predicate Canonical(s: string) {
    s == "" ||
    (|s| >= 4 && IsBase64(s[0]) && IsBase64(s[1]) &&
     if IsBase64(s[2]) then
       if IsBase64(s[3]) then Canonical(s[4..]) else s[3..] == "=" && Value(s[2]) % 4 == 0
     else s[2..] == "==" && Value(s[1]) % 16 == 0)
  }

  lemma {:induction false} EncodedCanonical(b: seq<Byte>)
    ensures Canonical(Encode(b))
  {
    hide Letter, IsBase64, Value, Group, SextetAt, Letters, Encode;
    if b == [] {
      EncodedEmpty();
    } else {
      var n := if |b| < 3 then |b| else 3;
      var b1, b2 := if |b| > 1 then b[1] else 0, if |b| > 2 then b[2] else 0;
      var g, e := Group(b[0], b1, b2), Encode(b);
      EncodeStep(b);
      LettersValues(g, n + 1, e);
      assert Values(e, n + 1)[n] == Value(e[n]);
      Sextets(b[0], b1, b2);
      PadIsNot();
      if n == 3 {
        EncodedCanonical(b[3..]);
        assert e[4..] == Encode(b[3..]);
      }
    }
  }

  /** The group made of the bytes of four sextets has these sextets. */
  lemma Regrouped(v0: Sextet, v1: Sextet, v2: Sextet, v3: Sextet)
    ensures var g := Group(High(v0, v1), Middle(v1, v2), Low(v2, v3));
            SextetAt(g, 0) == v0 && SextetAt(g, 1) == v1 && SextetAt(g, 2) == v2 && SextetAt(g, 3) == v3
  {
    hide Group, SextetAt, High, Middle, Low;
    HighBits(v0, v1);
    MiddleBits(v1, v2);
    LowBits(v2, v3);
    Sextets(High(v0, v1), Middle(v1, v2), Low(v2, v3));
    var w0: int, w1: int, w2: int, w3: int := v0, v1, v2, v3;
    ModIs(w0 * 4 + w1 / 16, 4, w0, w1 / 16);
    ModIs(w1 % 16 * 16 + w2 / 4, 16, w1 % 16, w2 / 4);
    ModIs(w2 % 4 * 64 + w3, 64, w2 % 4, w3);
  }

  lemma LettersBack(g: int, n: nat, s: string)
    requires n <= 4 && n <= |s| && forall k :: 0 <= k < n ==> IsBase64(s[k]) && Value(s[k]) == SextetAt(g, k)
    ensures Letters(g, n) == s[..n]
  {
    hide Letter, IsBase64, Value, SextetAt;
    forall k | 0 <= k < n ensures Letter(SextetAt(g, k)) == s[k] {
      LetterFound(s[k]);
      ValueIs(s[k]);
    }
  }

  lemma LowAlone(v1: Sextet, v2: Sextet)
    ensures v1 % 16 == 0 ==> Middle(v1, 0) == 0
    ensures v2 % 4 == 0 ==> Low(v2, 0) == 0
  {
  }

  lemma {:induction false} CanonicalComesBack(s: string)
    requires Canonical(s)
    ensures Encode(Decode(s)) == s
  {
    hide Letter, IsBase64, Value, Group, SextetAt, Letters, Encode, Decode, High, Middle, Low;
    PadIsNot();
    if s == "" {
      EncodedEmpty();
    } else {
      var b := Decode(s);
      var n := if !IsBase64(s[2]) then 2 else if !IsBase64(s[3]) then 3 else 4;
      var v0, v1 := Value(s[0]), Value(s[1]);
      var v2 := if n > 2 then Value(s[2]) else 0;
      var v3 := if n > 3 then Value(s[3]) else 0;
      Regrouped(v0, v1, v2, v3);
      LowAlone(v1, v2);
      LettersBack(Group(High(v0, v1), Middle(v1, v2), Low(v2, v3)), n, s);
      if n == 4 {
        DecodeWhole(s);
        assert b[3..] == Decode(s[4..]);
        CanonicalComesBack(s[4..]);
      } else {
        assert s[n] == s[n..][0];
        LeadIs(s, n);
        DecodeTail(s);
      }
      EncodeStep(b);
      assert s == s[..n] + s[n..];
    }
  }

  /** Decoding loses nothing exactly on canonical encodings. */
  lemma DecodeKeepsIffCanonical(s: string)
    ensures Encode(Decode(s)) == s <==> Canonical(s)
  {
    EncodedCanonical(Decode(s));
    if Canonical(s) {
      CanonicalComesBack(s);
    }
  }
}
