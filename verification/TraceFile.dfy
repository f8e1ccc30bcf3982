/** Writing the trace file step by step, and reading it back: every byte at which the writing may stop. */
module TraceFile {
  import opened Basics
  import opened TraceFormat

  /** The data size fits the header's field. */
  predicate Fits(recs: seq<Record>) {
    RECORD_SIZE * |recs| < 0x1_0000_0000_0000_0000
  }

  /** The checksum as dump accumulates it. */
  function Sum(crc: Crc, recs: seq<Record>): Word32 {
    if recs == [] then 0 else crc(Sum(crc, recs[..|recs| - 1]), EncodeRecord(recs[|recs| - 1]))
  }

  /** The checksum is the last of the running values, from 0, one for each record. */
  lemma {:induction false} SumIsRunning(crc: Crc, recs: seq<Record>, running: seq<Word32>)
    requires |running| == |recs| + 1 && running[0] == 0
    requires forall j :: 0 <= j < |recs| ==> running[j + 1] == crc(running[j], EncodeRecord(recs[j]))
    ensures Sum(crc, recs) == running[|recs|]
  {
    if recs != [] {
      var n := |recs| - 1;
      SumIsRunning(crc, recs[..n], running[..n + 1]);
    }
  }

  /** The header with a given checksum, followed by the body. */
  function FileWith(recs: seq<Record>, sum: Word32): (f: seq<Byte>)
    requires Fits(recs)
    ensures |f| == HEADER_SIZE + RECORD_SIZE * |recs|
  {
    EncodeHeader(Header(TRACE_MAGIC, RECORD_SIZE * |recs|, sum)) + Body(recs)
  }

  /** The file once `k` bytes of the dump have been written: the header with a zero checksum,
      the records, and the header again. */
  function CutFile(crc: Crc, recs: seq<Record>, k: nat): seq<Byte>
    requires Fits(recs) && k <= DumpSize(recs)
  {
    var first := FileWith(recs, 0);
    if k <= |first| then first[..k]
    else FileWith(recs, Sum(crc, recs))[..k - |first|] + first[k - |first|..]
  }

  function DumpSize(recs: seq<Record>): nat {
    HEADER_SIZE + RECORD_SIZE * |recs| + HEADER_SIZE
  }

  /** The file is what some number of written bytes leaves. */
  ghost predicate IsCut(crc: Crc, recs: seq<Record>, file: seq<Byte>)
    requires Fits(recs)
  {
    exists k :: 0 <= k <= DumpSize(recs) && file == CutFile(crc, recs, k)
  }

  lemma {:induction false} SumOfBody(crc: Crc, recs: seq<Record>, rest: seq<Byte>)
    ensures Checksum(crc, Body(recs) + rest, |recs|) == Sum(crc, recs)
  {
    if recs != [] {
      var n := |recs| - 1;
      var last := EncodeRecord(recs[n]);
      SumOfBody(crc, recs[..n], last + rest);
      assert Body(recs) + rest == Body(recs[..n]) + (last + rest);
      assert Slot(Body(recs) + rest, n) == last;
    }
  }

  /** The header's first 16 bytes decide its magic and data size. */
  lemma HeaderStart(h: Header, b: seq<Byte>)
    requires |b| == HEADER_SIZE && b[..16] == EncodeHeader(h)[..16]
    ensures DecodeHeader(b).magic == h.magic && DecodeHeader(b).dataSize == h.dataSize
  {
    HeaderRoundTrip(h);
    var e := EncodeHeader(h);
    assert b[0..4] == b[..16][0..4] == e[..16][0..4] == e[0..4];
    assert b[8..16] == b[..16][8..16] == e[..16][8..16] == e[8..16];
  }

  /** A whole body under a header of its size reloads to all the records or to none, as the checksum says. */
  lemma WholeBodyReloads(crc: Crc, recs: seq<Record>, b: seq<Byte>)
    requires Fits(recs) && |b| == HEADER_SIZE
    requires DecodeHeader(b).magic == TRACE_MAGIC && DecodeHeader(b).dataSize == RECORD_SIZE * |recs|
    ensures Reload(crc, b + Body(recs)) == if DecodeHeader(b).checksum == Sum(crc, recs) then recs else []
  {
    hide DecodeHeader, Body, Sum, Records, Checksum;
    var file := b + Body(recs);
    assert file[..HEADER_SIZE] == b;
    assert file[HEADER_SIZE..] == Body(recs);
    assert Body(recs) + [] == Body(recs);
    SumOfBody(crc, recs, []);
    RecordsOfBody(recs, []);
  }

  /** The first 16 bytes of a header do not depend on the checksum. */
  lemma SameStart(h: Header, sum: Word32)
    ensures EncodeHeader(h.(checksum := sum))[..16] == EncodeHeader(h)[..16]
  {
    var start := Bytes(h.magic, 4) + PAD4 + Bytes(h.dataSize, 8);
    assert EncodeHeader(h)[..16] == start == EncodeHeader(h.(checksum := sum))[..16];
  }

  /** A front replaced byte by byte, the rest left alone. */
  lemma FrontReplaced(e: seq<Byte>, e': seq<Byte>, body: seq<Byte>, j: nat)
    requires |e| == |e'| && j <= |e|
    ensures (e' + body)[..j] == e'[..j]
    ensures (e + body)[j..] == e[j..] + body
    ensures e'[..j] + (e[j..] + body) == (e'[..j] + e[j..]) + body
    ensures Overwrite(e + body, 0, e'[..j]) == e'[..j] + (e[j..] + body)
  {
  }

  /** While the header is being rewritten: a header with the old start, then the body. */
  lemma RewriteShape(crc: Crc, recs: seq<Record>, j: nat)
    requires Fits(recs) && j <= HEADER_SIZE
    ensures var h := Header(TRACE_MAGIC, RECORD_SIZE * |recs|, 0);
            var b := EncodeHeader(h.(checksum := Sum(crc, recs)))[..j] + EncodeHeader(h)[j..];
            && CutFile(crc, recs, HEADER_SIZE + RECORD_SIZE * |recs| + j) == b + Body(recs)
            && b[..16] == EncodeHeader(h)[..16]
  {
    hide EncodeHeader, Body, Sum, CutFile, Overwrite;
    var h := Header(TRACE_MAGIC, RECORD_SIZE * |recs|, 0);
    var e, e' := EncodeHeader(h), EncodeHeader(h.(checksum := Sum(crc, recs)));
    SameStart(h, Sum(crc, recs));
    StartKept(e, e', j);
    FrontReplaced(e, e', Body(recs), j);
    LateCut(crc, recs, j);
  }

  lemma LateCut(crc: Crc, recs: seq<Record>, j: nat)
    requires Fits(recs) && j <= HEADER_SIZE
    ensures CutFile(crc, recs, HEADER_SIZE + RECORD_SIZE * |recs| + j)
            == FileWith(recs, Sum(crc, recs))[..j] + FileWith(recs, 0)[j..]
  {
    hide FileWith, Sum;
    NothingReplaced(FileWith(recs, 0), FileWith(recs, Sum(crc, recs)));
  }

  lemma NothingReplaced(first: seq<Byte>, final: seq<Byte>)
    ensures first[..|first|] == final[..0] + first[0..]
  {
  }

  lemma StartKept(e: seq<Byte>, e': seq<Byte>, j: nat)
    requires |e| == |e'| == HEADER_SIZE && j <= HEADER_SIZE && e'[..16] == e[..16]
    ensures (e'[..j] + e[j..])[..16] == e[..16]
  {
    forall i | 0 <= i < 16 ensures (e'[..j] + e[j..])[i] == e[i] {
      assert e'[i] == e'[..16][i] == e[..16][i];
    }
  }

  /** A dump stopped after any byte reloads to no records or to all of them; all of it reloads to all. */
  lemma CutReloads(crc: Crc, recs: seq<Record>, k: nat)
    requires Fits(recs) && k <= DumpSize(recs)
    ensures Reload(crc, CutFile(crc, recs, k)) == [] || Reload(crc, CutFile(crc, recs, k)) == recs
    ensures k < HEADER_SIZE + RECORD_SIZE * |recs| ==> Reload(crc, CutFile(crc, recs, k)) == []
    ensures k == DumpSize(recs) ==> Reload(crc, CutFile(crc, recs, k)) == recs
  {
    hide EncodeHeader, DecodeHeader, Body, Sum;
    var h := Header(TRACE_MAGIC, RECORD_SIZE * |recs|, 0);
    var size := HEADER_SIZE + RECORD_SIZE * |recs|;
    var file := CutFile(crc, recs, k);
    if k < size {
      if k >= HEADER_SIZE {
        assert file[..HEADER_SIZE] == EncodeHeader(h);
        HeaderRoundTrip(h);
      }
    } else {
      hide CutFile;
      var h' := h.(checksum := Sum(crc, recs));
      var b := EncodeHeader(h')[..k - size] + EncodeHeader(h)[k - size..];
      RewriteShape(crc, recs, k - size);
      HeaderStart(h, b);
      WholeBodyReloads(crc, recs, b);
      if k == DumpSize(recs) {
        assert b == EncodeHeader(h');
        HeaderRoundTrip(h');
      }
    }
  }

  lemma IsCutReloads(crc: Crc, recs: seq<Record>, file: seq<Byte>)
    requires Fits(recs) && IsCut(crc, recs, file)
    ensures Reload(crc, file) == [] || Reload(crc, file) == recs
  {
    var k :| 0 <= k <= DumpSize(recs) && file == CutFile(crc, recs, k);
    CutReloads(crc, recs, k);
  }

  // ---- reads that fail ----

  /** The header is one of a file of this length. */
  predicate HeaderFits(file: seq<Byte>) {
    && |file| >= HEADER_SIZE
    && DecodeHeader(file[..HEADER_SIZE]).magic == TRACE_MAGIC
    && |file| == DecodeHeader(file[..HEADER_SIZE]).dataSize + HEADER_SIZE
  }

  /** How many records such a file holds. */
  function Count(file: seq<Byte>): nat
    requires HeaderFits(file)
  {
    DecodeHeader(file[..HEADER_SIZE]).dataSize / RECORD_SIZE
  }

  function AllRecords(file: seq<Byte>): (r: seq<Record>)
    requires HeaderFits(file)
    ensures |r| == Count(file)
  {
    Records(file[HEADER_SIZE..], Count(file))
  }

  /** The replay queue when the `failing`-th read fails; the header is read 0, record j is read j + 1. */
  function QueueAfter(crc: Crc, file: seq<Byte>, failing: nat): seq<Record> {
    if failing == 0 || !HeaderFits(file) then []
    else if failing <= Count(file) then Records(file[HEADER_SIZE..], failing - 1)
    else Reload(crc, file)
  }

  /** A failing read that is never made changes nothing. */
  lemma LateFailureIsNone(crc: Crc, file: seq<Byte>, failing: nat)
    requires failing > |file|
    ensures QueueAfter(crc, file, failing) == Reload(crc, file)
  {
  }

  lemma ReloadedIsAll(crc: Crc, file: seq<Byte>)
    ensures Reload(crc, file) == [] || (HeaderFits(file) && Reload(crc, file) == AllRecords(file))
  {
  }

  /** Of any file, the queue gets all records or none exactly when no read of a record after the first fails. */
  lemma AllOrNothingIff(crc: Crc, file: seq<Byte>, failing: nat)
    ensures var q := QueueAfter(crc, file, failing);
            q == [] || (HeaderFits(file) && q == AllRecords(file))
            <==> !(HeaderFits(file) && 1 < failing <= Count(file))
  {
    hide Records, Reload, DecodeHeader;
    ReloadedIsAll(crc, file);
    if HeaderFits(file) && failing == 1 {
      NoRecords(file[HEADER_SIZE..]);
    }
  }

  lemma {:induction false} FrontRecords(recs: seq<Record>, rest: seq<Byte>, j: nat)
    requires j <= |recs|
    ensures Records(Body(recs) + rest, j) == recs[..j]
  {
    RecordsOfBody(recs, rest);
    FrontOfRecords(Body(recs) + rest, |recs|, j);
  }

  lemma {:induction false} FrontOfRecords(b: seq<Byte>, n: nat, j: nat)
    requires j <= n && RECORD_SIZE * n <= |b|
    ensures Records(b, j) == Records(b, n)[..j]
  {
    if j < n {
      FrontOfRecords(b, n - 1, j);
    }
  }

  /** While the header is rewritten the header fits, with the body of all records. */
  lemma LateCutFits(crc: Crc, recs: seq<Record>, j: nat)
    requires Fits(recs) && j <= HEADER_SIZE
    ensures var file := CutFile(crc, recs, HEADER_SIZE + RECORD_SIZE * |recs| + j);
            && HeaderFits(file) && Count(file) == |recs| && file[HEADER_SIZE..] == Body(recs)
  {
    hide EncodeHeader, DecodeHeader, Body, Sum, CutFile;
    var h := Header(TRACE_MAGIC, RECORD_SIZE * |recs|, 0);
    var b := EncodeHeader(h.(checksum := Sum(crc, recs)))[..j] + EncodeHeader(h)[j..];
    RewriteShape(crc, recs, j);
    HeaderStart(h, b);
    var file := CutFile(crc, recs, HEADER_SIZE + RECORD_SIZE * |recs| + j);
    assert file[..HEADER_SIZE] == b;
    assert file[HEADER_SIZE..] == Body(recs);
  }

  /** While the body is incomplete the header does not fit. */
  lemma EarlyCutFitsNot(crc: Crc, recs: seq<Record>, k: nat)
    requires Fits(recs) && k < HEADER_SIZE + RECORD_SIZE * |recs|
    ensures !HeaderFits(CutFile(crc, recs, k))
  {
    hide EncodeHeader, DecodeHeader, Body, Sum;
    var h := Header(TRACE_MAGIC, RECORD_SIZE * |recs|, 0);
    if k >= HEADER_SIZE {
      assert CutFile(crc, recs, k)[..HEADER_SIZE] == EncodeHeader(h);
      HeaderRoundTrip(h);
    }
  }

  /** A dump with its body complete, read until a record after the first cannot be read: a proper, non-empty front
      part of the records, which no checksum covers. */
  lemma FailedReadLeavesPart(crc: Crc, recs: seq<Record>, k: nat, failing: nat)
    requires Fits(recs) && HEADER_SIZE + RECORD_SIZE * |recs| <= k <= DumpSize(recs) && 1 < failing <= |recs|
    ensures var q := QueueAfter(crc, CutFile(crc, recs, k), failing);
            q == recs[..failing - 1] && q != [] && q != recs
  {
    hide Records, Reload, DecodeHeader, Body, CutFile, HeaderFits, Count;
    LateCutFits(crc, recs, k - (HEADER_SIZE + RECORD_SIZE * |recs|));
    FrontRecords(recs, [], failing - 1);
    assert Body(recs) + [] == Body(recs);
  }

  /** A dump, cut off or not, is read as all its records or none exactly when its body is incomplete or no read of a
      record after the first fails. */
  lemma DumpReadIff(crc: Crc, recs: seq<Record>, k: nat, failing: nat)
    requires Fits(recs) && k <= DumpSize(recs)
    ensures var q := QueueAfter(crc, CutFile(crc, recs, k), failing);
            q == [] || q == recs <==> !(k >= HEADER_SIZE + RECORD_SIZE * |recs| && 1 < failing <= |recs|)
  {
    hide Records, Reload, DecodeHeader, Body, CutFile, HeaderFits, Count;
    if k < HEADER_SIZE + RECORD_SIZE * |recs| {
      EarlyCutFitsNot(crc, recs, k);
    } else {
      LateCutFits(crc, recs, k - (HEADER_SIZE + RECORD_SIZE * |recs|));
      if 1 < failing <= |recs| {
        FailedReadLeavesPart(crc, recs, k, failing);
      } else if failing == 1 {
        NoRecords(Body(recs));
        CutReloads(crc, recs, k);
      } else {
        CutReloads(crc, recs, k);
      }
    }
  }

  // ---- the files, and a process that may be killed at any system call ----

  function Overwrite(d: seq<Byte>, off: nat, b: seq<Byte>): seq<Byte>
    requires off <= |d|
  {
    d[..off] + b + if off + |b| <= |d| then d[off + |b|..] else []
  }

  /** The trace file and the two files that stand beside it. */
  class Disk {
    var data: seq<Byte>
    var lock: bool
    var ok: bool
    /** The recording process was killed; nothing it would do next happens. */
    var killed: bool
    /** Every system call of the recording process succeeds in full, and nothing kills it. */
    const faithful: bool
    /** At least ftruncate does. */
    const truncates: bool

    constructor (data: seq<Byte>, lock: bool, ok: bool, faithful: bool, truncates: bool)
      ensures this.data == data && this.lock == lock && this.ok == ok && !killed
      ensures this.faithful == faithful && this.truncates == truncates
    {
      this.data, this.lock, this.ok, this.killed := data, lock, ok, false;
      this.faithful, this.truncates := faithful, truncates;
    }

    /** The process goes on, or is killed here. */
    method MayBeKilled()
      modifies this`killed
      ensures faithful ==> !killed
    {
      var kills: bool := *;
      killed := kills && !faithful;
    }

    /** pwrite: `taken` bytes reach the file; the result is the length only if they are all of it. */
    method Pwrite(b: seq<Byte>, off: nat) returns (n: int, ghost taken: nat)
      requires off <= |data| && !killed
      modifies this`data, this`killed
      ensures taken <= |b| && data == Overwrite(old(data), off, b[..taken])
      ensures n == |b| ==> taken == |b|
      ensures faithful ==> n == |b| && !killed
    {
      var k: nat :| k <= |b|;
      var failed: bool := *;
      if faithful {
        k, failed := |b|, false;
      }
      data := Overwrite(data, off, b[..k]);
      taken := k;
      n := if failed then -1 else k;
      MayBeKilled();
    }

    /** ftruncate(0), which may fail too. */
    method Empty()
      requires !killed
      modifies this`data, this`killed
      ensures data == [] || (data == old(data) && !faithful && !truncates)
      ensures faithful ==> !killed
    {
      var done: bool := *;
      if done || faithful || truncates {
        data := [];
      }
      MayBeKilled();
    }

    method UnlinkLock()
      requires !killed
      modifies this`lock, this`killed
      ensures !lock || lock == old(lock)
      ensures faithful ==> !lock && !killed
    {
      var done: bool := *;
      lock := lock && !done && !faithful;
      MayBeKilled();
    }

    /** open with O_CREAT | O_EXCL: fails on an existing file. */
    method CreateOk() returns (created: bool)
      requires !killed
      modifies this`ok, this`killed
      ensures created ==> !old(ok) && ok
      ensures !created ==> ok == old(ok)
      ensures faithful ==> created == !old(ok) && !killed
    {
      created := *;
      created := (created || faithful) && !ok;
      ok := ok || created;
      MayBeKilled();
    }

    /** read at the file position: a short result at the end of the file, or an error. */
    method Pread(count: nat, off: nat, fails: bool) returns (n: int, b: seq<Byte>)
      ensures n == if fails then -1 else |b|
      ensures b == if off >= |data| then [] else data[off..Min(off + count, |data|)]
    {
      b := if off >= |data| then [] else data[off..Min(off + count, |data|)];
      n := if fails then -1 else |b|;
    }
  }

  // ---- writes along the dump ----

  /** `taken` bytes of the `i`-th record extend the file along the dump. */
  lemma {:induction false} RecordInBody(recs: seq<Record>, i: nat)
    requires i < |recs|
    ensures Slot(Body(recs), i) == EncodeRecord(recs[i])
  {
    var n := |recs| - 1;
    if i < n {
      RecordInBody(recs[..n], i);
      assert Slot(Body(recs), i) == Slot(Body(recs[..n]), i);
    }
  }

  lemma AppendRecord(crc: Crc, recs: seq<Record>, i: nat, taken: nat)
    requires Fits(recs) && i < |recs| && taken <= RECORD_SIZE
    ensures var off := HEADER_SIZE + RECORD_SIZE * i;
            CutFile(crc, recs, off + taken)
            == Overwrite(CutFile(crc, recs, off), off, EncodeRecord(recs[i])[..taken])
  {
    hide EncodeRecord, EncodeHeader, Body;
    var off, file := HEADER_SIZE + RECORD_SIZE * i, FileWith(recs, 0);
    RecordInBody(recs, i);
    InBody(EncodeHeader(Header(TRACE_MAGIC, RECORD_SIZE * |recs|, 0)), Body(recs), i, taken);
    assert file[..off + taken] == file[..off] + file[off..off + taken];
  }

  lemma InBody(h: seq<Byte>, body: seq<Byte>, i: nat, taken: nat)
    requires |h| == HEADER_SIZE && RECORD_SIZE * (i + 1) <= |body| && taken <= RECORD_SIZE
    ensures var off := HEADER_SIZE + RECORD_SIZE * i;
            (h + body)[off..off + taken] == Slot(body, i)[..taken]
  {
    assert (h + body)[HEADER_SIZE..] == body;
    assert (h + body)[HEADER_SIZE + RECORD_SIZE * i..HEADER_SIZE + RECORD_SIZE * i + taken]
        == body[RECORD_SIZE * i..RECORD_SIZE * i + taken];
  }

  lemma FirstHeader(crc: Crc, recs: seq<Record>, taken: nat)
    requires Fits(recs) && taken <= HEADER_SIZE
    ensures CutFile(crc, recs, taken)
            == Overwrite([], 0, EncodeHeader(Header(TRACE_MAGIC, RECORD_SIZE * |recs|, 0))[..taken])
  {
  }

  lemma LastHeader(crc: Crc, recs: seq<Record>, taken: nat)
    requires Fits(recs) && taken <= HEADER_SIZE
    ensures var size := HEADER_SIZE + RECORD_SIZE * |recs|;
            CutFile(crc, recs, size + taken)
            == Overwrite(CutFile(crc, recs, size), 0,
                         EncodeHeader(Header(TRACE_MAGIC, RECORD_SIZE * |recs|, Sum(crc, recs)))[..taken])
  {
    hide EncodeHeader, Body, Sum, Overwrite;
    var h := Header(TRACE_MAGIC, RECORD_SIZE * |recs|, 0);
    RewriteShape(crc, recs, taken);
    FrontReplaced(EncodeHeader(h), EncodeHeader(h.(checksum := Sum(crc, recs))), Body(recs), taken);
    assert FileWith(recs, 0)[..HEADER_SIZE + RECORD_SIZE * |recs|] == FileWith(recs, 0);
  }

  datatype Mode = Record | Replay | Disabled

  function DetectMode(present: bool, size: nat): Mode {
    if !present then Disabled else if size == 0 then Mode.Record else Replay
  }

  class Prefetcher {
    const disk: Disk
    const mode: Mode
    var records: seq<TraceFormat.Record>
    var queue: seq<TraceFormat.Record>
    var stopped: bool
    /** The trace file is open: m_trace_file is not null. */
    var open: bool

    /** Record over an empty trace file, replay any other, whatever reload says. A lock file already there is kept;
        `failing` is the read that fails, if there are so many. */
    constructor (crc: Crc, disk: Disk, present: bool, failing: nat)
      requires |disk.data| < 0x1_0000_0000_0000_0000
      modifies disk`lock
      ensures this.disk == disk
      ensures mode.Disabled? <==> !present
      ensures mode.Record? <==> present && |disk.data| == 0
      ensures mode.Replay? <==> present && |disk.data| > 0
      ensures records == [] && !stopped && (open <==> present)
      ensures !mode.Record? ==> disk.lock == old(disk.lock)
      ensures old(disk.lock) || (mode.Record? && disk.faithful) ==> disk.lock
      ensures !mode.Replay? ==> queue == []
      ensures mode.Replay? ==> queue == QueueAfter(crc, disk.data, failing)
    {
      this.disk, this.mode := disk, DetectMode(present, |disk.data|);
      records, queue, stopped, open := [], [], false, present;
      new;
      if mode.Record? {
        var created: bool := *;
        disk.lock := disk.lock || created || disk.faithful;
      }
      if mode.Replay? {
        var r := ReloadFile(crc, |disk.data|, failing);
      }
    }

    method RecordTrace(r: TraceFormat.Record)
      modifies this`records
      ensures records == if stopped then old(records) else old(records) + [r]
    {
      if stopped {
        return;
      }
      records := records + [r];
    }

    /** Dump at most once. However it ends, the file reloads to all the records or none; the OK file is
        only made over a file that reloads to all. */
    method Dump(crc: Crc) returns (result: int)
      requires !disk.killed && Fits(records) && (open ==> disk.data == [])
      modifies this`open, disk`data, disk`lock, disk`ok, disk`killed
      ensures !old(open) ==> result == 0 && disk.data == old(disk.data) && disk.lock == old(disk.lock)
                             && disk.ok == old(disk.ok) && !disk.killed
      ensures old(open) ==> IsCut(crc, records, disk.data)
      ensures old(open) ==> Reload(crc, disk.data) == [] || Reload(crc, disk.data) == records
      ensures old(open) && disk.ok && !old(disk.ok) ==> Reload(crc, disk.data) == records
      ensures old(open) && result == 0 && !disk.killed ==>
                disk.data == FileWith(records, Sum(crc, records)) && disk.ok && !old(disk.ok)
      ensures old(disk.ok) ==> disk.ok
      ensures !disk.killed ==> !open
      ensures old(open) && disk.truncates && !disk.killed ==>
                disk.data == [] || disk.data == FileWith(records, Sum(crc, records))
      ensures old(open) && disk.faithful ==>
        && disk.data == FileWith(records, Sum(crc, records)) && Reload(crc, disk.data) == records
        && !disk.lock && disk.ok && !open && result == if old(disk.ok) then -1 else 0
    {
      if !open {
        return 0;
      }
      result := DumpOpen(crc);
      IsCutReloads(crc, records, disk.data);
      if disk.faithful || (disk.ok && !old(disk.ok)) {
        CutReloads(crc, records, DumpSize(records));
        LastCut(crc, records);
      }
      if !disk.killed {
        open := false;
      }
    }

    method DumpOpen(crc: Crc) returns (result: int)
      requires !disk.killed && Fits(records) && disk.data == []
      modifies disk`data, disk`lock, disk`ok, disk`killed
      ensures IsCut(crc, records, disk.data)
      ensures disk.ok && !old(disk.ok) ==> disk.data == FileWith(records, Sum(crc, records))
      ensures result == 0 && !disk.killed ==>
                disk.data == FileWith(records, Sum(crc, records)) && disk.ok && !old(disk.ok)
      ensures old(disk.ok) ==> disk.ok
      ensures disk.truncates && !disk.killed ==> disk.data == [] || disk.data == FileWith(records, Sum(crc, records))
      ensures disk.faithful ==>
        && !disk.killed && disk.data == FileWith(records, Sum(crc, records))
        && !disk.lock && disk.ok && result == if old(disk.ok) then -1 else 0
    {
      hide EncodeHeader, EncodeRecord, Body, CutFile, Overwrite, Sum, FileWith;
      var hdr := Header(TRACE_MAGIC, RECORD_SIZE * |records|, 0);
      var n, taken := disk.Pwrite(EncodeHeader(hdr), 0);
      FirstHeader(crc, records, taken);
      CutIs(crc, records, taken, disk.data);
      if disk.killed { return -1; }
      if n != HEADER_SIZE {
        Truncate(crc);
        return -1;
      }
      assert records[..0] == [];
      SumNone(crc);
      for i := 0 to |records|
        invariant !disk.killed && disk.data == CutFile(crc, records, HEADER_SIZE + RECORD_SIZE * i)
        invariant hdr == Header(TRACE_MAGIC, RECORD_SIZE * |records|, Sum(crc, records[..i]))
        invariant disk.ok == old(disk.ok)
        modifies disk`data, disk`killed
      {
        SumNext(crc, records, i);
        hdr := hdr.(checksum := crc(hdr.checksum, EncodeRecord(records[i])));
        CutLength(crc, records, HEADER_SIZE + RECORD_SIZE * i);
        n, taken := disk.Pwrite(EncodeRecord(records[i]), HEADER_SIZE + RECORD_SIZE * i);
        AppendRecord(crc, records, i, taken);
        CutIs(crc, records, HEADER_SIZE + RECORD_SIZE * i + taken, disk.data);
        if disk.killed { return -1; }
        if n != RECORD_SIZE {
          Truncate(crc);
          return -1;
        }
      }
      assert records[..|records|] == records;
      n, taken := disk.Pwrite(EncodeHeader(hdr), 0);
      LastHeader(crc, records, taken);
      CutIs(crc, records, HEADER_SIZE + RECORD_SIZE * |records| + taken, disk.data);
      if disk.killed { return -1; }
      if n != HEADER_SIZE {
        Truncate(crc);
        return -1;
      }
      LastCut(crc, records);
      disk.UnlinkLock();
      if disk.killed { return -1; }
      var created := disk.CreateOk();
      result := if created then 0 else -1;
    }

    method Truncate(crc: Crc)
      requires !disk.killed && Fits(records) && IsCut(crc, records, disk.data)
      modifies disk`data, disk`killed
      ensures IsCut(crc, records, disk.data) && (disk.truncates ==> disk.data == [])
    {
      disk.Empty();
      EmptyIsCut(crc, records);
    }

    /** Reload the trace, the `failing`-th read being one that fails. */
    method ReloadFile(crc: Crc, size: nat, failing: nat) returns (result: int)
      requires queue == [] && size == |disk.data| < 0x1_0000_0000_0000_0000
      modifies this`queue
      ensures queue == QueueAfter(crc, disk.data, failing)
      ensures result == 0 ==> queue == Reload(crc, disk.data)
      ensures result == 0 || result == -1
    {
      hide DecodeHeader, DecodeRecord, Records, Checksum;
      var n, b := disk.Pread(HEADER_SIZE, 0, failing == 0);
      if n != HEADER_SIZE {
        return -1;
      }
      var hdr := DecodeHeader(b);
      assert b == disk.data[..HEADER_SIZE];
      if hdr.magic != TRACE_MAGIC {
        return -1;
      }
      if size != (hdr.dataSize + HEADER_SIZE) % 0x1_0000_0000_0000_0000 {
        return -1;
      }
      assert size == hdr.dataSize + HEADER_SIZE && HeaderFits(disk.data);
      ghost var body := disk.data[HEADER_SIZE..];
      var count, sum := hdr.dataSize / RECORD_SIZE, 0;
      NoRecords(body);
      NoSum(crc, body);
      for i := 0 to count
        invariant RECORD_SIZE * i <= |body| && queue == Records(body, i) && sum == Checksum(crc, body, i)
        invariant failing > i
      {
        n, b := disk.Pread(RECORD_SIZE, HEADER_SIZE + RECORD_SIZE * i, failing == i + 1);
        if n != RECORD_SIZE {
          return -1;
        }
        assert b == Slot(body, i);
        OneMore(crc, body, i);
        sum := crc(sum, b);
        queue := queue + [DecodeRecord(b)];
      }
      if sum != hdr.checksum {
        queue := [];
        return -1;
      }
      result := 0;
    }
  }

  lemma NoRecords(body: seq<Byte>)
    ensures Records(body, 0) == []
  {
  }

  lemma NoSum(crc: Crc, body: seq<Byte>)
    ensures Checksum(crc, body, 0) == 0
  {
  }

  lemma OneMore(crc: Crc, body: seq<Byte>, i: nat)
    requires RECORD_SIZE * (i + 1) <= |body|
    ensures Records(body, i + 1) == Records(body, i) + [DecodeRecord(Slot(body, i))]
    ensures Checksum(crc, body, i + 1) == crc(Checksum(crc, body, i), Slot(body, i))
  {
  }

  lemma CutIs(crc: Crc, recs: seq<Record>, k: nat, file: seq<Byte>)
    requires Fits(recs) && k <= DumpSize(recs) && file == CutFile(crc, recs, k)
    ensures IsCut(crc, recs, file)
  {
  }

  lemma CutLength(crc: Crc, recs: seq<Record>, k: nat)
    requires Fits(recs) && k <= HEADER_SIZE + RECORD_SIZE * |recs|
    ensures |CutFile(crc, recs, k)| == k
  {
  }

  lemma EmptyIsCut(crc: Crc, recs: seq<Record>)
    requires Fits(recs)
    ensures IsCut(crc, recs, [])
  {
    assert CutFile(crc, recs, 0) == [];
  }

  lemma LastCut(crc: Crc, recs: seq<Record>)
    requires Fits(recs)
    ensures CutFile(crc, recs, DumpSize(recs)) == FileWith(recs, Sum(crc, recs))
  {
    hide Body, Sum;
  }

  lemma SumNone(crc: Crc)
    ensures Sum(crc, []) == 0
  {
  }

  lemma SumNext(crc: Crc, recs: seq<Record>, i: nat)
    requires i < |recs|
    ensures Sum(crc, recs[..i + 1]) == crc(Sum(crc, recs[..i]), EncodeRecord(recs[i]))
  {
    assert recs[..i + 1][..i] == recs[..i];
  }
}
