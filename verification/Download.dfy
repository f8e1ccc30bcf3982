/** Background download of one layer blob, and the one-way switch to the committed file. */
module Download {
  import opened Arith
  import opened Basics

  type Digest(==, !new)
  type Sha = seq<Byte> -> Digest

  const UINT32_MAX := 0xFFFF_FFFF

  /** How many attempts a counter allows: download_blob decrements it first, and 0 wraps around. */
  function Allowed(tryCnt: nat): nat {
    if tryCnt == 0 then UINT32_MAX + 1 else tryCnt
  }

  /** A `.download` file: its bytes, and which of them the file system reports as data rather than hole. */
  datatype LocalFile = LocalFile(data: seq<Byte>, mapped: seq<bool>) {
    predicate Valid() {
      |mapped| == |data|
    }

    /** ftruncate: cut, or extend with a hole of zeros. */
    function Truncated(n: nat): LocalFile
      requires Valid()
    {
      if n <= |data| then LocalFile(data[..n], mapped[..n])
      else LocalFile(data + seq(n - |data|, _ => 0), mapped + seq(n - |data|, _ => false))
    }

    /** pwrite of `b` at `off`, inside the file. */
    function Written(off: nat, b: seq<Byte>): LocalFile
      requires Valid() && off + |b| <= |data|
    {
      LocalFile(data[..off] + b + data[off + |b|..],
                mapped[..off] + seq(|b|, _ => true) + mapped[off + |b|..])
    }

    /** pwrite on a file system that reports data in blocks of `g` bytes: it marks every block it touches. */
    function WrittenOn(g: nat, off: nat, b: seq<Byte>): LocalFile
      requires Valid() && g > 0 && off + |b| <= |data|
    {
      LocalFile(data[..off] + b + data[off + |b|..],
                seq(|data|, k requires 0 <= k < |mapped| =>
                  mapped[k] || (b != [] && off / g <= k / g <= (off + |b| - 1) / g)))
    }

    /** pwrite anywhere: past the end, the file first grows by a hole. */
    function WrittenAt(off: nat, b: seq<Byte>): LocalFile
      requires Valid()
    {
      if b == [] then this
      else if off + |b| <= |data| then Written(off, b)
      else Truncated(off + |b|).Written(off, b)
    }

    /** The first hole at or after `off`; the end of the file is one. */
    function HoleAfter(off: nat): (h: nat)
      requires Valid() && off <= |data|
      ensures off <= h <= |data|
      ensures forall k :: off <= k < h ==> mapped[k]
      ensures h < |data| ==> !mapped[h]
      decreases |data| - off
    {
      if off == |data| || !mapped[off] then off else HoleAfter(off + 1)
    }

    /** lseek(SEEK_HOLE): an error from the end of the file on. */
    function SeekHole(off: nat): int
      requires Valid()
    {
      if off >= |data| then -1 else HoleAfter(off)
    }

    /** The block at `off` is taken to be downloaded already. */
    predicate Skips(off: nat, bs: nat)
      requires Valid() && off <= |data|
    {
      off + bs <= HoleAfter(off)
    }
  }

  // ---- the file after one attempt with faithful reads and writes ----

  function Fetched(f: LocalFile, src: seq<Byte>, bs: nat, force: bool, off: nat): LocalFile
    requires f.Valid() && |f.data| == |src| && bs > 0
    decreases |src| - off
  {
    if off >= |src| then f
    else if !force && f.Skips(off, bs) then Fetched(f, src, bs, force, off + bs)
    else
      var count := Min(bs, |src| - off);
      Fetched(f.Written(off, src[off..off + count]), src, bs, force, off + count)
  }

  // ---- how finely holes are reported ----

  lemma DivMonotone(k: nat, l: nat, g: nat)
    requires g > 0 && k <= l
    ensures k / g <= l / g
  {
    var d := k / g - l / g;
    assert d * g == k / g * g - l / g * g == (k - k % g) - (l - l % g);
    MulAtLeast(d, g);
  }

  lemma BlockIndex(k: nat, m: nat, g: nat)
    requires g > 0 && m % g == 0
    ensures k < m ==> k / g < m / g
    ensures k >= m ==> k / g >= m / g
  {
    var d := k / g - m / g;
    assert d * g == k / g * g - m / g * g == k - k % g - m;
    assert (d + 1) * g == d * g + g && (-d) * g == -(d * g);
    MulAtLeast(d + 1, g);
    MulAtLeast(-d, g);
  }

  /** With a block size that is a multiple of the file system's, the writes of download_blob mark exactly the bytes
      they write. */
  lemma AlignedWriteIsExact(f: LocalFile, g: nat, bs: nat, off: nat, b: seq<Byte>)
    requires f.Valid() && g > 0 && bs > 0 && bs % g == 0 && off % bs == 0
    requires off + |b| <= |f.data| && (|b| == bs || off + |b| == |f.data|)
    ensures f.WrittenOn(g, off, b) == f.Written(off, b)
  {
    var exact, coarse := f.Written(off, b).mapped, f.WrittenOn(g, off, b).mapped;
    Multiple(off, bs, g);
    if |b| == bs {
      Multiple(off + bs, bs, g);
    }
    forall k | 0 <= k < |f.data| ensures exact[k] == coarse[k] {
      BlockIndex(k, off, g);
      if b != [] {
        BlockIndex(off + |b| - 1, off, g);
        if k < off + |b| {
          DivMonotone(k, off + |b| - 1, g);
        } else {
          BlockIndex(off + |b| - 1, off + bs, g);
          BlockIndex(k, off + bs, g);
        }
      }
    }
    assert exact == coarse;
  }

  lemma Multiple(off: nat, bs: nat, g: nat)
    requires g > 0 && bs > 0 && bs % g == 0 && off % bs == 0
    ensures off % g == 0 && (off + bs) % bs == 0
  {
    var q, p := off / bs, bs / g;
    assert off == q * bs && bs == p * g;
    assert q * (p * g) == (q * p) * g;
    ModIs(off, g, q * p, 0);
    ModIs(off + bs, bs, q + 1, 0);
  }

  /** Otherwise writing one block can make the next one look downloaded. */
  lemma UnalignedWriteSkips()
    ensures var f := LocalFile([0, 0, 0, 0], [false, false, false, false]);
            !f.Skips(2, 2) && f.WrittenOn(4, 0, [1, 1]).Skips(2, 2)
  {
    var f := LocalFile([0, 0, 0, 0], [false, false, false, false]).WrittenOn(4, 0, [1, 1]);
    assert f.mapped[2] && f.mapped[3];
    assert f.HoleAfter(4) == 4;
    assert f.HoleAfter(3) == 4;
  }

  lemma WrittenShape(f: LocalFile, off: nat, b: seq<Byte>)
    requires f.Valid() && off + |b| <= |f.data|
    ensures var g := f.Written(off, b);
            && g.Valid() && |g.data| == |f.data|
            && g.data[..off] == f.data[..off] && g.data[off..off + |b|] == b
            && g.data[off + |b|..] == f.data[off + |b|..] && g.mapped[off + |b|..] == f.mapped[off + |b|..]
  {
  }

  lemma PrefixOfPrefix(s: seq<Byte>, t: seq<Byte>, m: nat, n: nat)
    requires m <= n <= |s| && n <= |t| && s[..n] == t[..n]
    ensures s[..m] == t[..m]
  {
    assert s[..m] == s[..n][..m] == t[..n][..m];
  }

  lemma {:induction false} FetchedShape(f: LocalFile, src: seq<Byte>, bs: nat, force: bool, off: nat)
    requires f.Valid() && |f.data| == |src| && bs > 0 && off <= |src|
    ensures var r := Fetched(f, src, bs, force, off);
            r.Valid() && |r.data| == |src| && r.data[..off] == f.data[..off]
    decreases |src| - off
  {
    hide LocalFile.Written, LocalFile.Skips, LocalFile.HoleAfter;
    if off < |src| {
      if !force && f.Skips(off, bs) {
        EndOfSkip(f, off, bs);
        FetchedShape(f, src, bs, force, off + bs);
        PrefixOfPrefix(Fetched(f, src, bs, force, off + bs).data, f.data, off, off + bs);
      } else {
        var count := Min(bs, |src| - off);
        var g := f.Written(off, src[off..off + count]);
        WrittenShape(f, off, src[off..off + count]);
        FetchedShape(g, src, bs, force, off + count);
        PrefixOfPrefix(Fetched(g, src, bs, force, off + count).data, g.data, off, off + count);
      }
    }
  }

  lemma EndOfSkip(f: LocalFile, off: nat, bs: nat)
    requires f.Valid() && off <= |f.data| && f.Skips(off, bs)
    ensures off + bs <= |f.data|
  {
  }

  /** The forced attempt rewrites every byte, whatever the file held. */
  lemma {:induction false} ForcedFetch(f: LocalFile, src: seq<Byte>, bs: nat, off: nat)
    requires f.Valid() && |f.data| == |src| && bs > 0 && off <= |src|
    ensures Fetched(f, src, bs, true, off).Valid() && |Fetched(f, src, bs, true, off).data| == |src|
    ensures Fetched(f, src, bs, true, off).data[off..] == src[off..]
    decreases |src| - off
  {
    if off < |src| {
      var count := Min(bs, |src| - off);
      var g := f.Written(off, src[off..off + count]);
      var r := Fetched(g, src, bs, true, off + count);
      WrittenShape(f, off, src[off..off + count]);
      ForcedFetch(g, src, bs, off + count);
      FetchedShape(g, src, bs, true, off + count);
      OneBlock(f, src, off, count, r.data);
    }
  }

  /** A block that holds the source bytes, followed by a rest that does. */
  lemma OneBlock(f: LocalFile, src: seq<Byte>, off: nat, count: nat, r: seq<Byte>)
    requires f.Valid() && |f.data| == |src| == |r| && off + count <= |src|
    requires |f.Written(off, src[off..off + count]).data| == |src|
    requires r[..off + count] == f.Written(off, src[off..off + count]).data[..off + count]
    ensures r[off + count..] == src[off + count..] <==> r[off..] == src[off..]
  {
    hide LocalFile.Written;
    var g := f.Written(off, src[off..off + count]);
    WrittenShape(f, off, src[off..off + count]);
    assert r[off..off + count] == r[..off + count][off..] == g.data[off..off + count] == src[off..off + count];
    assert r[off..] == r[off..off + count] + r[off + count..];
    assert src[off..] == src[off..off + count] + src[off + count..];
    if r[off..] == src[off..] {
      assert r[off + count..] == r[off..][count..] == src[off..][count..] == src[off + count..];
    }
  }

  /** No block that will be skipped differs from the source. */
  ghost predicate NoStaleBlock(f: LocalFile, src: seq<Byte>, bs: nat, off: nat)
    requires f.Valid() && |f.data| == |src| && bs > 0
    decreases |src| - off
  {
    off >= |src| ||
    ((f.Skips(off, bs) ==> f.data[off..off + bs] == src[off..off + bs]) && NoStaleBlock(f, src, bs, off + bs))
  }

  lemma {:induction false} SameHoles(f: LocalFile, g: LocalFile, off: nat)
    requires f.Valid() && g.Valid() && off <= |f.data| == |g.data| && f.mapped[off..] == g.mapped[off..]
    ensures f.HoleAfter(off) == g.HoleAfter(off)
    decreases |f.data| - off
  {
    if off < |f.data| {
      assert f.mapped[off] == f.mapped[off..][0] == g.mapped[off..][0] == g.mapped[off];
      assert f.mapped[off + 1..] == f.mapped[off..][1..] == g.mapped[off + 1..];
      SameHoles(f, g, off + 1);
    }
  }

  /** Staleness is decided by what lies from `off` on. */
  lemma {:induction false} SameStaleness(f: LocalFile, g: LocalFile, src: seq<Byte>, bs: nat, off: nat)
    requires f.Valid() && g.Valid() && |f.data| == |g.data| == |src| && bs > 0
    requires off <= |src| ==> f.mapped[off..] == g.mapped[off..] && f.data[off..] == g.data[off..]
    ensures NoStaleBlock(f, src, bs, off) == NoStaleBlock(g, src, bs, off)
    decreases |src| - off
  {
    hide LocalFile.HoleAfter, NoStaleBlock;
    if off >= |src| {
      StaleEnd(f, src, bs, off);
      StaleEnd(g, src, bs, off);
    } else {
      SameHoles(f, g, off);
      StaleStep(f, src, bs, off);
      StaleStep(g, src, bs, off);
      if f.Skips(off, bs) {
        assert f.data[off..off + bs] == f.data[off..][..bs] == g.data[off..off + bs];
      }
      if off + bs <= |src| {
        assert f.mapped[off + bs..] == f.mapped[off..][bs..] == g.mapped[off + bs..];
        assert f.data[off + bs..] == f.data[off..][bs..] == g.data[off + bs..];
      }
      SameStaleness(f, g, src, bs, off + bs);
    }
  }

  lemma FetchStep(f: LocalFile, src: seq<Byte>, bs: nat, force: bool, off: nat)
    requires f.Valid() && |f.data| == |src| && bs > 0 && off < |src|
    ensures !force && f.HoleAfter(off) >= off + bs ==>
              off + bs <= |src| && Fetched(f, src, bs, force, off) == Fetched(f, src, bs, force, off + bs)
    ensures force || f.HoleAfter(off) < off + bs ==>
              var count := Min(bs, |src| - off);
              var g := f.Written(off, src[off..off + count]);
              g.Valid() && |g.data| == |src| && Fetched(f, src, bs, force, off) == Fetched(g, src, bs, force, off + count)
  {
    hide LocalFile.Written, LocalFile.HoleAfter;
    WrittenShape(f, off, src[off..off + Min(bs, |src| - off)]);
  }

  lemma FetchEnd(f: LocalFile, src: seq<Byte>, bs: nat, force: bool, off: nat)
    requires f.Valid() && |f.data| == |src| && bs > 0 && off >= |src|
    ensures Fetched(f, src, bs, force, off) == f
  {
  }

  lemma StaleStep(f: LocalFile, src: seq<Byte>, bs: nat, off: nat)
    requires f.Valid() && |f.data| == |src| && bs > 0 && off < |src|
    ensures f.Skips(off, bs) ==> off + bs <= |src|
    ensures NoStaleBlock(f, src, bs, off) <==>
      (f.Skips(off, bs) ==> f.data[off..off + bs] == src[off..off + bs]) && NoStaleBlock(f, src, bs, off + bs)
  {
  }

  lemma StaleEnd(f: LocalFile, src: seq<Byte>, bs: nat, off: nat)
    requires f.Valid() && |f.data| == |src| && bs > 0 && off >= |src|
    ensures NoStaleBlock(f, src, bs, off)
  {
  }

  /** An attempt that skips blocks ends with the source bytes exactly when no skipped block was stale. */
  lemma {:induction false} UnforcedFetch(f: LocalFile, src: seq<Byte>, bs: nat, off: nat)
    requires f.Valid() && |f.data| == |src| && bs > 0 && off <= |src|
    ensures Fetched(f, src, bs, false, off).Valid() && |Fetched(f, src, bs, false, off).data| == |src|
    ensures Fetched(f, src, bs, false, off).data[off..] == src[off..] <==> NoStaleBlock(f, src, bs, off)
    decreases |src| - off, 1
  {
    hide LocalFile.Written, LocalFile.HoleAfter, Fetched, NoStaleBlock;
    if off == |src| {
      FetchEnd(f, src, bs, false, off);
      StaleEnd(f, src, bs, off);
    } else {
      FetchStep(f, src, bs, false, off);
      StaleStep(f, src, bs, off);
      if f.Skips(off, bs) {
        UnforcedFetch(f, src, bs, off + bs);
        FetchedShape(f, src, bs, false, off + bs);
        SkippedBlock(f.data, src, off, bs, Fetched(f, src, bs, false, off + bs).data);
      } else {
        UnforcedBlock(f, src, bs, off);
      }
    }
  }

  lemma {:induction false} UnforcedBlock(f: LocalFile, src: seq<Byte>, bs: nat, off: nat)
    requires f.Valid() && |f.data| == |src| && bs > 0 && off < |src| && !f.Skips(off, bs)
    ensures Fetched(f, src, bs, false, off).Valid() && |Fetched(f, src, bs, false, off).data| == |src|
    ensures Fetched(f, src, bs, false, off).data[off..] == src[off..] <==> NoStaleBlock(f, src, bs, off + bs)
    decreases |src| - off, 0
  {
    hide LocalFile.Written, LocalFile.HoleAfter, Fetched, NoStaleBlock;
    var count := Min(bs, |src| - off);
    var g := f.Written(off, src[off..off + count]);
    FetchStep(f, src, bs, false, off);
    WrittenShape(f, off, src[off..off + count]);
    UnforcedFetch(g, src, bs, off + count);
    FetchedShape(g, src, bs, false, off + count);
    OneBlock(f, src, off, count, Fetched(g, src, bs, false, off + count).data);
    if count == bs {
      SameStaleness(f, g, src, bs, off + bs);
    } else {
      StaleEnd(f, src, bs, off + bs);
      StaleEnd(g, src, bs, off + count);
    }
  }

  lemma SkippedBlock(f: seq<Byte>, src: seq<Byte>, off: nat, bs: nat, r: seq<Byte>)
    requires |f| == |src| == |r| && off + bs <= |src| && r[..off + bs] == f[..off + bs]
    ensures r[off..] == src[off..] <==> f[off..off + bs] == src[off..off + bs] && r[off + bs..] == src[off + bs..]
  {
    assert r[off..off + bs] == r[..off + bs][off..] == f[off..off + bs];
    assert r[off..] == r[off..off + bs] + r[off + bs..];
    assert src[off..] == src[off..off + bs] + src[off + bs..];
    if r[off..] == src[off..] {
      assert r[off + bs..] == r[off..][bs..] == src[off..][bs..] == src[off + bs..];
      assert r[off..off + bs] == r[off..][..bs] == src[off..][..bs] == src[off..off + bs];
    }
  }

  // ---- the outside world ----

  /** The file system the downloads share, the lock set, and the operations that may fail.
      In a faithful world every operation succeeds in full. */
  class World {
    const sha: Sha
    const faithful: bool
    var tmp: map<string, LocalFile>          // dir/.download
    var commit: map<string, seq<Byte>>       // dir/overlaybd.commit
    var locks: set<string>                   // lock_files
    ghost var readCalls: nat                 // how often a source was read,
    ghost var writeCalls: nat                // and a download file written

    constructor (sha: Sha, faithful: bool)
      ensures this.sha == sha && this.faithful == faithful
      ensures tmp == map[] && commit == map[] && locks == {}
    {
      this.sha, this.faithful := sha, faithful;
      tmp, commit, locks := map[], map[], {};
    }

    ghost predicate Valid()
      reads this
    {
      forall d :: d in tmp ==> tmp[d].Valid()
    }

    /** Whether the image is still open (`running == 1`). */
    method Running() returns (b: bool)
      ensures faithful ==> b
    {
      b := *;
      b := faithful || b;
    }

    /** open(O_RDWR | O_CREAT) of the download file, and ftruncate, whose failure nobody looks at. */
    method OpenTmp(dir: string, size: nat) returns (ok: bool, ghost sized: bool)
      requires Valid()
      modifies this`tmp
      ensures Valid() && (faithful ==> ok && sized)
      ensures ok ==> tmp == old(tmp)[dir := if sized then Resized(old(tmp), dir, size) else Opened(old(tmp), dir)]
      ensures !ok ==> tmp == old(tmp)
    {
      ok := *;
      ok := faithful || ok;
      var truncates: bool := *;
      truncates := faithful || truncates;
      sized := truncates;
      if ok {
        var f := Opened(tmp, dir);
        tmp := tmp[dir := if truncates then f.Truncated(size) else f];
      }
    }

    /** pread from the layer's source: any number of any bytes, or an error. */
    method Pread(src: seq<Byte>, count: nat, off: nat) returns (rlen: int, bytes: seq<Byte>)
      requires off <= |src|
      modifies this`readCalls
      ensures readCalls == old(readCalls) + 1
      ensures rlen < 0 || |bytes| == rlen <= count
      ensures faithful ==> rlen == Min(count, |src| - off) && bytes == src[off..off + rlen]
    {
      readCalls := readCalls + 1;
      if faithful {
        rlen := Min(count, |src| - off);
        bytes := src[off..off + rlen];
      } else {
        var fails: bool, any: seq<Byte> := *, *;
        bytes := if fails then [] else any[..Min(|any|, count)];
        rlen := if fails then -1 else |bytes|;
      }
    }

    /** pwrite to the download file: any prefix of the buffer, or an error. */
    method Pwrite(dir: string, buff: seq<Byte>, off: nat) returns (wlen: int)
      requires Valid() && dir in tmp
      modifies this`tmp, this`writeCalls
      ensures writeCalls == old(writeCalls) + 1
      ensures Valid() && wlen <= |buff| && (faithful ==> wlen == |buff|)
      ensures wlen < 0 ==> tmp == old(tmp)
      ensures wlen >= 0 ==> tmp == old(tmp)[dir := old(tmp)[dir].WrittenAt(off, buff[..wlen])]
    {
      writeCalls := writeCalls + 1;
      wlen := *;
      wlen := if faithful || wlen > |buff| then |buff| else wlen;
      if wlen >= 0 {
        tmp := tmp[dir := tmp[dir].WrittenAt(off, buff[..wlen])];
      }
    }

    /** rename of the download file to the commit file. */
    method Rename(dir: string) returns (ok: bool)
      requires Valid() && dir in tmp
      modifies this`tmp, this`commit
      ensures Valid() && (faithful ==> ok)
      ensures ok ==> commit == old(commit)[dir := old(tmp)[dir].data] && tmp == old(tmp) - {dir}
      ensures !ok ==> commit == old(commit) && tmp == old(tmp)
    {
      ok := *;
      ok := faithful || ok;
      if ok {
        commit := commit[dir := tmp[dir].data];
        tmp := tmp - {dir};
      }
    }
  }

  /** Nothing has changed outside `dir`. */
  ghost predicate OthersKept<V>(m: map<string, V>, m': map<string, V>, dir: string) {
    forall d :: d != dir ==> (d in m <==> d in m') && (d in m ==> m[d] == m'[d])
  }

  /** The download file once it has been opened, and created if it was missing. */
  function Opened(tmp: map<string, LocalFile>, dir: string): LocalFile {
    if dir in tmp then tmp[dir] else LocalFile([], [])
  }

  /** The same, resized. */
  function Resized(tmp: map<string, LocalFile>, dir: string, size: nat): (f: LocalFile)
    requires forall d :: d in tmp ==> tmp[d].Valid()
    ensures f.Valid() && |f.data| == size
  {
    Opened(tmp, dir).Truncated(size)
  }

  // ---- SwitchFile ----

  /** A read of a file: its bytes at `off`, cut at its end, and none past it. */
  ghost predicate ReadsFrom(file: seq<Byte>, count: nat, off: nat, r: seq<Byte>) {
    && |r| == (if off >= |file| then 0 else Min(count, |file| - off))
    && forall k :: 0 <= k < |r| ==> r[k] == file[off + k]
  }

  /** Reads go to the remote file until a local one has been set, and to that one from then on. */
  class SwitchFile {
    const remote: seq<Byte>
    var local: Option<seq<Byte>>
    var filepath: string

    constructor (remote: seq<Byte>)
      ensures this.remote == remote && local == None
    {
      this.remote, local, filepath := remote, None, "";
    }

    /** set_switch_file: the path is recorded first; the switch happens only if the commit file opens. */
    method SetSwitchFile(w: World, dir: string)
      modifies this
      ensures filepath == dir
      ensures local == old(local) || (dir in w.commit && local == Some(w.commit[dir]))
      ensures w.faithful && dir in w.commit ==> local == Some(w.commit[dir])
    {
      filepath := dir;
      var opens: bool := *;
      if (opens || w.faithful) && dir in w.commit {
        local := Some(w.commit[dir]);
      }
    }

    /** pread: from the local file if there is one, and otherwise from the remote one. */
    method Pread(count: nat, off: nat) returns (r: seq<Byte>)
      ensures local.Some? ==> ReadsFrom(local.value, count, off, r)
      ensures local.None? ==> ReadsFrom(remote, count, off, r)
    {
      var data: seq<Byte>;
      if local != None {
        data := local.value;
      } else {
        data := remote;
      }
      r := if off > |data| then [] else data[off..off + Min(count, |data| - off)];
    }
  }

  // ---- BkDownload ----

  class BkDownload {
    const dir: string
    const src: seq<Byte>
    const digest: Digest
    const sw: SwitchFile
    const blockSize: nat
    var tryCnt: nat                // uint32_t
    var forceDownload: bool
    ghost var attempts: nat        // how often download_blob was started

    constructor (dir: string, src: seq<Byte>, digest: Digest, sw: SwitchFile, blockSize: nat, tryCnt: nat)
      requires blockSize > 0 && tryCnt <= UINT32_MAX
      ensures this.dir == dir && this.src == src && this.digest == digest && this.sw == sw
      ensures this.blockSize == blockSize && this.tryCnt == tryCnt && !forceDownload && attempts == 0
    {
      this.dir, this.src, this.digest, this.sw, this.blockSize, this.tryCnt := dir, src, digest, sw, blockSize, tryCnt;
      forceDownload, attempts := false, 0;
    }

    ghost predicate Ready()
      reads this
    {
      blockSize > 0 && tryCnt <= UINT32_MAX
    }

    /** Two tries at reading a block into the buffer; a short read leaves the rest of the buffer stale. */
    method ReadBlock(w: World, off: nat, buff0: seq<Byte>) returns (rlen: int, buff: seq<Byte>)
      requires off < |src| && |buff0| == blockSize
      modifies w`readCalls
      ensures w.readCalls == old(w.readCalls) + 1 || w.readCalls == old(w.readCalls) + 2
      ensures rlen < 0 ==> w.readCalls == old(w.readCalls) + 2
      ensures |buff| == blockSize && rlen <= blockSize
      ensures if rlen < 0 then buff == buff0 else buff[rlen..] == buff0[rlen..]
      ensures w.faithful ==> rlen == Min(blockSize, |src| - off) && buff[..rlen] == src[off..off + rlen]
    {
      var retry := 2;
      buff, rlen := buff0, -1;
      while retry > 0
        invariant 0 <= retry <= 2 && w.readCalls == old(w.readCalls) + 2 - retry
        invariant buff == buff0 && rlen < 0 && (retry < 2 ==> !w.faithful)
      {
        retry := retry - 1;
        var bytes: seq<Byte>;
        rlen, bytes := w.Pread(src, blockSize, off);
        if rlen >= 0 {
          buff := bytes + buff[rlen..];
          return;
        }
      }
    }

    /** Two tries at writing the block; writing at least as much as was read counts as success. */
    method WriteBlock(w: World, off: nat, block: seq<Byte>, rlen: int) returns (ok: bool)
      requires w.Valid() && dir in w.tmp
      modifies w`tmp, w`writeCalls
      ensures w.writeCalls == old(w.writeCalls) + 1 || w.writeCalls == old(w.writeCalls) + 2
      ensures !ok ==> w.writeCalls == old(w.writeCalls) + 2
      ensures w.Valid() && dir in w.tmp && OthersKept(old(w.tmp), w.tmp, dir)
      ensures off + |block| <= |old(w.tmp)[dir].data| ==> |w.tmp[dir].data| == |old(w.tmp)[dir].data|
      ensures w.faithful && rlen <= |block| ==> ok && w.tmp[dir] == old(w.tmp)[dir].WrittenAt(off, block)
    {
      var retry := 2;
      ok := false;
      while retry > 0 && !ok
        invariant 0 <= retry <= 2 && w.writeCalls == old(w.writeCalls) + 2 - retry && (retry == 2 ==> !ok)
        invariant w.Valid() && dir in w.tmp && OthersKept(old(w.tmp), w.tmp, dir)
        invariant off + |block| <= |old(w.tmp)[dir].data| ==> |w.tmp[dir].data| == |old(w.tmp)[dir].data|
        invariant !ok && retry == 2 ==> w.tmp == old(w.tmp)
        invariant w.faithful && rlen <= |block| ==> ok || retry == 2
        invariant w.faithful && rlen <= |block| && ok ==> w.tmp[dir] == old(w.tmp)[dir].WrittenAt(off, block)
      {
        retry := retry - 1;
        var wlen := w.Pwrite(dir, block, off);
        assert block[..|block|] == block;
        ok := wlen >= rlen;
      }
    }

    /** download_blob. */
    method DownloadBlob(w: World) returns (ok: bool, ghost sized: bool)
      requires Ready() && w.Valid()
      modifies this`tryCnt, this`attempts, w`tmp, w`readCalls, w`writeCalls
      ensures Ready() && w.Valid() && attempts == old(attempts) + 1
      ensures tryCnt == Allowed(old(tryCnt)) - 1
      ensures OthersKept(old(w.tmp), w.tmp, dir)
      ensures ok ==> dir in w.tmp && (sized ==> |w.tmp[dir].data| == |src|)
      ensures w.faithful ==>
        && ok && sized
        && w.tmp[dir] == Fetched(Resized(old(w.tmp), dir, |src|), src, blockSize, forceDownload, 0)
    {
      attempts := attempts + 1;
      tryCnt := Allowed(tryCnt) - 1;
      ok, sized := w.OpenTmp(dir, |src|);
      if ok {
        var allocates: bool := *;
        ok := allocates || w.faithful;
        if ok {
          ok := FillBlocks(w);
        }
      }
    }

    /** The offset loop of download_blob. */
    method FillBlocks(w: World) returns (ok: bool)
      requires Ready() && w.Valid() && dir in w.tmp && (w.faithful ==> |w.tmp[dir].data| == |src|)
      modifies w`tmp, w`readCalls, w`writeCalls
      ensures w.Valid() && dir in w.tmp && OthersKept(old(w.tmp), w.tmp, dir)
      ensures |old(w.tmp)[dir].data| == |src| ==> |w.tmp[dir].data| == |src|
      ensures w.faithful ==> ok && w.tmp[dir] == Fetched(old(w.tmp)[dir], src, blockSize, forceDownload, 0)
    {
      hide LocalFile.Written, LocalFile.HoleAfter, Fetched;
      ghost var goal := if w.faithful then Fetched(w.tmp[dir], src, blockSize, forceDownload, 0) else w.tmp[dir];
      var buff, off := seq(blockSize, _ => 0), 0;
      while off < |src|
        invariant |buff| == blockSize && w.Valid() && dir in w.tmp && OthersKept(old(w.tmp), w.tmp, dir)
        invariant |old(w.tmp)[dir].data| == |src| ==> |w.tmp[dir].data| == |src| && off <= |src|
        invariant w.faithful ==> Fetched(w.tmp[dir], src, blockSize, forceDownload, off) == goal
        decreases |src| - off
      {
        var running := w.Running();
        if !running {
          return false;
        }
        if |w.tmp[dir].data| == |src| {
          FetchStep(w.tmp[dir], src, blockSize, forceDownload, off);
        }
        var holePos := if forceDownload then 0 else w.tmp[dir].SeekHole(off);
        if !forceDownload && holePos >= off + blockSize {
          off := off + blockSize;
        } else {
          var count := Min(blockSize, |src| - off);
          var rlen: int;
          rlen, buff := ReadBlock(w, off, buff);
          if rlen < 0 {
            return false;
          }
          var wrote := WriteBlock(w, off, buff[..count], rlen);
          if !wrote {
            return false;
          }
          off := off + count;
        }
      }
      if w.faithful {
        FetchEnd(w.tmp[dir], src, blockSize, forceDownload, off);
      }
      ok := true;
    }

    /** download_done: verify the digest, then rename; a wrong digest forces the next attempt. */
    method DownloadDone(w: World) returns (ok: bool)
      requires w.Valid() && dir in w.tmp
      modifies this`forceDownload, w`tmp, w`commit
      ensures w.Valid() && OthersKept(old(w.tmp), w.tmp, dir)
      ensures ok ==> w.commit == old(w.commit)[dir := old(w.tmp)[dir].data] && w.sha(w.commit[dir]) == digest
      ensures ok ==> forceDownload == old(forceDownload)
      ensures !ok ==> w.commit == old(w.commit) && w.tmp == old(w.tmp)
      ensures w.sha(old(w.tmp)[dir].data) != digest ==> !ok && forceDownload
      ensures w.faithful && w.sha(old(w.tmp)[dir].data) == digest ==> ok
    {
      var shares := w.sha(w.tmp[dir].data);
      if shares != digest {
        forceDownload := true;
        return false;
      }
      ok := w.Rename(dir);
    }

    /** What `.download` holds after a faithful attempt that starts now. */
    ghost function Outcome(w: World): seq<Byte>
      requires Ready() && w.Valid()
      reads this, w
    {
      Fetched(Resized(w.tmp, dir, |src|), src, blockSize, forceDownload, 0).data
    }

    /** download: true when the commit file is there; then the SwitchFile has been told. */
    method Download(w: World) returns (ok: bool)
      requires Ready() && w.Valid()
      modifies this`tryCnt, this`attempts, this`forceDownload, sw, w`tmp, w`readCalls, w`writeCalls, w`commit
      ensures Ready() && w.Valid() && OthersKept(old(w.tmp), w.tmp, dir) && OthersKept(old(w.commit), w.commit, dir)
      ensures dir in old(w.commit) ==>
        && ok && w.commit == old(w.commit) && w.tmp == old(w.tmp)
        && tryCnt == old(tryCnt) && attempts == old(attempts)
      ensures dir !in old(w.commit) ==>
        && attempts == old(attempts) + 1
        && tryCnt == Allowed(old(tryCnt)) - 1
      ensures ok <==> dir in w.commit
      ensures dir in w.commit && dir !in old(w.commit) ==> w.sha(w.commit[dir]) == digest
      ensures sw.local == old(sw.local) || (dir in w.commit && sw.local == Some(w.commit[dir]))
      ensures w.faithful && ok ==> sw.local == Some(w.commit[dir])
      ensures w.faithful && dir !in old(w.commit) ==>
        && (ok <==> w.sha(old(Outcome(w))) == digest)
        && (if ok then w.commit[dir] == old(Outcome(w)) else forceDownload)
    {
      hide Fetched;
      if dir in w.commit {
        sw.SetSwitchFile(w, dir);
        return true;
      }
      ghost var sized: bool;
      ok, sized := DownloadBlob(w);
      if ok {
        ok := DownloadDone(w);
        if ok {
          sw.SetSwitchFile(w, dir);
        }
      }
    }
  }
}
