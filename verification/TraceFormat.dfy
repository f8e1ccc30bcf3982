/** The trace file: its header, its fixed-size records, and what reloading makes of any bytes. */
module TraceFormat {
  import opened Arith
  import opened Basics

  type Word32 = x: int | 0 <= x < 0x1_0000_0000
  type Word64 = x: int | 0 <= x < 0x1_0000_0000_0000_0000

  /** crc32c_extend: any function of the running checksum and the next bytes. */
  type Crc = (Word32, seq<Byte>) -> Word32

  const TRACE_MAGIC: Word32 := 3270449184
  const HEADER_SIZE := 24
  const RECORD_SIZE := 24

  /** TraceFormat; `offset` holds the bit pattern of the signed file offset. */
  datatype Record = Record(op: Byte, layerIndex: Word32, count: Word64, offset: Word64)

  /** TraceHeader. */
  datatype Header = Header(magic: Word32, dataSize: Word64, checksum: Word32)

  // ---- little-endian words ----

  function Bytes(n: nat, k: nat): (b: seq<Byte>)
    ensures |b| == k
  {
    if k == 0 then [] else [n % 256] + Bytes(n / 256, k - 1)
  }

  function Value(b: seq<Byte>): nat {
    if b == [] then 0 else b[0] + 256 * Value(b[1..])
  }

  function Pow256(k: nat): nat {
    if k == 0 then 1 else 256 * Pow256(k - 1)
  }

  lemma {:induction false} ValueOfBytes(n: nat, k: nat)
    requires n < Pow256(k)
    ensures Value(Bytes(n, k)) == n
  {
    if k > 0 {
      ValueOfBytes(n / 256, k - 1);
      assert Bytes(n, k)[1..] == Bytes(n / 256, k - 1);
    }
  }

  lemma {:induction false} ValueBound(b: seq<Byte>)
    ensures Value(b) < Pow256(|b|)
  {
    if b != [] {
      ValueBound(b[1..]);
    }
  }

  lemma Words()
    ensures Pow256(4) == 0x1_0000_0000 && Pow256(8) == 0x1_0000_0000_0000_0000
  {
    assert Pow256(2) == 256 * Pow256(1) == 65536;
    assert Pow256(4) == 256 * Pow256(3) == 65536 * 65536;
    assert Pow256(6) == 256 * Pow256(5) && Pow256(8) == 256 * Pow256(7);
  }

  function Value32(b: seq<Byte>): Word32
    requires |b| == 4
  {
    ValueBound(b);
    Words();
    Value(b)
  }

  function Value64(b: seq<Byte>): Word64
    requires |b| == 8
  {
    ValueBound(b);
    Words();
    Value(b)
  }

  const PAD3: seq<Byte> := [0, 0, 0]
  const PAD4: seq<Byte> := [0, 0, 0, 0]

  // ---- structs as the compiler lays them out ----

  function EncodeRecord(r: Record): (b: seq<Byte>)
    ensures |b| == RECORD_SIZE
  {
    [r.op] + PAD3 + Bytes(r.layerIndex, 4) + Bytes(r.count, 8) + Bytes(r.offset, 8)
  }

  function DecodeRecord(b: seq<Byte>): Record
    requires |b| == RECORD_SIZE
  {
    Record(b[0], Value32(b[4..8]), Value64(b[8..16]), Value64(b[16..24]))
  }

  function EncodeHeader(h: Header): (b: seq<Byte>)
    ensures |b| == HEADER_SIZE
  {
    Bytes(h.magic, 4) + PAD4 + Bytes(h.dataSize, 8) + Bytes(h.checksum, 4) + PAD4
  }

  function DecodeHeader(b: seq<Byte>): Header
    requires |b| == HEADER_SIZE
  {
    Header(Value32(b[0..4]), Value64(b[8..16]), Value32(b[16..20]))
  }

  /** Words are little-endian. */
  lemma {:induction false} BytesAt(n: nat, k: nat, j: nat)
    requires j < k
    ensures Pow256(j) > 0 && Bytes(n, k)[j] == n / Pow256(j) % 256
  {
    hide Pow256;
    Pow256Step(j);
    if j > 0 {
      BytesAt(n / 256, k - 1, j - 1);
      DivideTwice(n, Pow256(j - 1));
      assert Bytes(n, k)[j] == Bytes(n / 256, k - 1)[j - 1];
    }
  }

  lemma Pow256Step(j: nat)
    ensures j == 0 ==> Pow256(j) == 1
    ensures j > 0 ==> Pow256(j) == 256 * Pow256(j - 1)
  {
  }

  lemma DivideTwice(n: nat, m: nat)
    requires m > 0
    ensures n / (256 * m) == n / 256 / m
  {
    var q, r := n / 256 / m, n / 256 % m;
    assert n == 256 * (q * m + r) + n % 256;
    assert 256 * (q * m) == q * (256 * m);
    ModIs(n, 256 * m, q, 256 * r + n % 256);
  }

  /** `b` holds the word `n` of `k` bytes at `off`. */
  ghost predicate HasWord(b: seq<Byte>, off: nat, n: nat, k: nat) {
    && off + k <= |b|
    && forall j :: 0 <= j < k ==> Pow256(j) > 0 && b[off + j] == n / Pow256(j) % 256
  }

  lemma WordAt(front: seq<Byte>, n: nat, k: nat, rest: seq<Byte>)
    ensures HasWord(front + Bytes(n, k) + rest, |front|, n, k)
  {
    hide Bytes, Pow256;
    var b := front + Bytes(n, k) + rest;
    forall j | 0 <= j < k ensures Pow256(j) > 0 && b[|front| + j] == n / Pow256(j) % 256 {
      BytesAt(n, k, j);
    }
  }

  /** The struct's layout: the operation at 0, the layer index at 4, the count at 8, the offset at 16. */
  lemma RecordLayout(r: Record)
    ensures var b := EncodeRecord(r);
            b[0] == r.op && HasWord(b, 4, r.layerIndex, 4) && HasWord(b, 8, r.count, 8) && HasWord(b, 16, r.offset, 8)
  {
    hide Bytes, HasWord;
    var layer, count, offset := Bytes(r.layerIndex, 4), Bytes(r.count, 8), Bytes(r.offset, 8);
    var front := [r.op] + PAD3;
    WordAt(front, r.layerIndex, 4, count + offset);
    WordAt(front + layer, r.count, 8, offset);
    WordAt(front + layer + count, r.offset, 8, []);
    assert EncodeRecord(r) == front + layer + (count + offset) == front + layer + count + offset + [];
  }

  /** The magic at 0, the data size at 8, the checksum at 16. */
  lemma HeaderLayout(h: Header)
    ensures var b := EncodeHeader(h);
            HasWord(b, 0, h.magic, 4) && HasWord(b, 8, h.dataSize, 8) && HasWord(b, 16, h.checksum, 4)
  {
    hide Bytes, HasWord;
    var magic, size, sum := Bytes(h.magic, 4), Bytes(h.dataSize, 8), Bytes(h.checksum, 4);
    WordAt([], h.magic, 4, PAD4 + size + sum + PAD4);
    WordAt(magic + PAD4, h.dataSize, 8, sum + PAD4);
    WordAt(magic + PAD4 + size, h.checksum, 4, PAD4);
    assert EncodeHeader(h) == [] + magic + (PAD4 + size + sum + PAD4) == magic + PAD4 + size + (sum + PAD4);
  }

  lemma Field(front: seq<Byte>, field: seq<Byte>, rest: seq<Byte>)
    ensures (front + field + rest)[|front|..|front| + |field|] == field
  {
  }

  lemma RecordRoundTrip(r: Record)
    ensures DecodeRecord(EncodeRecord(r)) == r
  {
    hide Bytes, Value, Pow256;
    Words();
    ValueOfBytes(r.layerIndex, 4);
    ValueOfBytes(r.count, 8);
    ValueOfBytes(r.offset, 8);
    var layer, count, offset := Bytes(r.layerIndex, 4), Bytes(r.count, 8), Bytes(r.offset, 8);
    var front := [r.op] + PAD3;
    Field(front, layer, count + offset);
    Field(front + layer, count, offset);
    Field(front + layer + count, offset, []);
    assert EncodeRecord(r) == front + layer + (count + offset) == front + layer + count + offset + [];
  }

  lemma HeaderRoundTrip(h: Header)
    ensures DecodeHeader(EncodeHeader(h)) == h
  {
    hide Bytes, Value, Pow256;
    Words();
    ValueOfBytes(h.magic, 4);
    ValueOfBytes(h.dataSize, 8);
    ValueOfBytes(h.checksum, 4);
    var magic, size, sum := Bytes(h.magic, 4), Bytes(h.dataSize, 8), Bytes(h.checksum, 4);
    Field([], magic, PAD4 + size + sum + PAD4);
    Field(magic + PAD4, size, sum + PAD4);
    Field(magic + PAD4 + size, sum, PAD4);
    assert EncodeHeader(h) == [] + magic + (PAD4 + size + sum + PAD4) == magic + PAD4 + size + (sum + PAD4);
  }

  // ---- the body ----

  function Body(recs: seq<Record>): (b: seq<Byte>)
    ensures |b| == RECORD_SIZE * |recs|
  {
    if recs == [] then [] else Body(recs[..|recs| - 1]) + EncodeRecord(recs[|recs| - 1])
  }

  /** The `i`-th record's bytes of a body. */
  function Slot(b: seq<Byte>, i: nat): seq<Byte>
    requires RECORD_SIZE * (i + 1) <= |b|
  {
    b[RECORD_SIZE * i..RECORD_SIZE * (i + 1)]
  }

  /** The first `n` records of a body, and the checksum over them. */
  function Records(b: seq<Byte>, n: nat): (r: seq<Record>)
    requires RECORD_SIZE * n <= |b|
    ensures |r| == n
  {
    if n == 0 then [] else Records(b, n - 1) + [DecodeRecord(Slot(b, n - 1))]
  }

  function Checksum(crc: Crc, b: seq<Byte>, n: nat): Word32
    requires RECORD_SIZE * n <= |b|
  {
    if n == 0 then 0 else crc(Checksum(crc, b, n - 1), Slot(b, n - 1))
  }

  lemma {:induction false} RecordsOfBody(recs: seq<Record>, rest: seq<Byte>)
    ensures Records(Body(recs) + rest, |recs|) == recs
  {
    if recs != [] {
      var n := |recs| - 1;
      var last := EncodeRecord(recs[n]);
      RecordsOfBody(recs[..n], last + rest);
      assert Body(recs) + rest == Body(recs[..n]) + (last + rest);
      assert Slot(Body(recs) + rest, n) == last;
      RecordRoundTrip(recs[n]);
      assert recs == recs[..n] + [recs[n]];
    }
  }

  // ---- reload ----

  /** What reload leaves in the replay queue: all the records the size and checksum vouch for, or nothing. */
  function Reload(crc: Crc, file: seq<Byte>): seq<Record> {
    if |file| < HEADER_SIZE then []
    else
      var h, body := DecodeHeader(file[..HEADER_SIZE]), file[HEADER_SIZE..];
      if h.magic != TRACE_MAGIC || |file| != h.dataSize + HEADER_SIZE then []
      else
        var n := h.dataSize / RECORD_SIZE;
        if Checksum(crc, body, n) != h.checksum then [] else Records(body, n)
  }
}
