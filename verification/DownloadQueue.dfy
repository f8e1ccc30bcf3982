/** bk_download_proc: the retry queue of one download thread. Other threads may hold directory locks;
    how often they get in the way is bounded only for the loop to end. */
module DownloadQueue {
  import opened Basics
  import opened Download

  ghost function SumAllowed(q: seq<BkDownload>): nat
    reads (set d | d in q)`tryCnt
  {
    if q == [] then 0 else Allowed(q[0].tryCnt) + SumAllowed(q[1..])
  }

  /** lock_file. */
  method LockFile(w: World, dir: string) returns (ok: bool)
    modifies w`locks
    ensures ok == (dir !in old(w.locks))
    ensures w.locks == old(w.locks) + {dir}
  {
    if dir in w.locks {
      return false;
    }
    w.locks := w.locks + {dir};
    return true;
  }

  /** unlock_file: also what the destructor of a download does, whoever holds the lock. */
  method UnlockFile(w: World, dir: string)
    modifies w`locks
    ensures w.locks == old(w.locks) - {dir}
  {
    w.locks := w.locks - {dir};
  }

  /** The thread sleeps; other threads take and release locks, and get in the way at most `contention` times. */
  method Sleep(w: World, dir: string, contention: nat) returns (left: nat)
    modifies w`locks
    ensures left == contention - (if dir in w.locks then 1 else 0)
  {
    var held: set<string> := *;
    w.locks := if contention == 0 then held - {dir} else held;
    left := if dir in w.locks then contention - 1 else contention;
  }

  /** The digest tells the layer's bytes from all others. */
  ghost predicate Identifies(sha: Sha, d: BkDownload) {
    forall x :: sha(x) == d.digest <==> x == d.src
  }

  /** A forced attempt in a faithful world fetches the layer exactly. */
  lemma ForcedOutcome(d: BkDownload, w: World)
    requires d.Ready() && w.Valid() && d.forceDownload
    ensures d.Outcome(w) == d.src
  {
    var f := Resized(w.tmp, d.dir, |d.src|);
    ForcedFetch(f, d.src, d.blockSize, 0);
    var r := Fetched(f, d.src, d.blockSize, true, 0).data;
    assert r[0..] == r && d.src[0..] == d.src;
  }

  /** A first attempt fetches the layer exactly when no block it skips is stale. */
  lemma FirstOutcome(d: BkDownload, w: World)
    requires d.Ready() && w.Valid() && !d.forceDownload
    ensures d.Outcome(w) == d.src <==> NoStaleBlock(Resized(w.tmp, d.dir, |d.src|), d.src, d.blockSize, 0)
  {
    var f := Resized(w.tmp, d.dir, |d.src|);
    UnforcedFetch(f, d.src, d.blockSize, 0);
    var r := Fetched(f, d.src, d.blockSize, false, 0).data;
    assert r[0..] == r && d.src[0..] == d.src;
  }

  /** One turn of the loop: the lock, the download, and the lock again. Without the lock nothing happens. */
  method Turn(w: World, d: BkDownload) returns (locked: bool, succ: bool)
    requires w.Valid() && d.Ready()
    modifies d`tryCnt, d`attempts, d`forceDownload, d.sw, w`tmp, w`readCalls, w`writeCalls, w`commit, w`locks
    ensures w.Valid() && d.Ready() && w.locks == old(w.locks)
    ensures locked == (d.dir !in w.locks)
    ensures !locked ==>
      && d.tryCnt == old(d.tryCnt) && d.attempts == old(d.attempts) && d.forceDownload == old(d.forceDownload)
      && d.sw.local == old(d.sw.local) && w.tmp == old(w.tmp) && w.commit == old(w.commit)
    ensures OthersKept(old(w.commit), w.commit, d.dir)
    ensures locked ==> (succ <==> d.dir in w.commit)
    ensures d.dir in old(w.commit) ==>
      w.commit == old(w.commit) && d.attempts == old(d.attempts) && d.tryCnt == old(d.tryCnt)
    ensures locked && d.dir !in old(w.commit) ==>
      d.attempts == old(d.attempts) + 1 && d.tryCnt == Allowed(old(d.tryCnt)) - 1
    ensures d.dir in w.commit && d.dir !in old(w.commit) ==> w.sha(w.commit[d.dir]) == d.digest
    ensures d.sw.local == old(d.sw.local) || (d.dir in w.commit && d.sw.local == Some(w.commit[d.dir]))
    ensures w.faithful && locked && succ ==> d.sw.local == Some(w.commit[d.dir])
    ensures w.faithful && locked && !succ ==> d.forceDownload
    ensures w.faithful && locked && old(d.forceDownload) && w.sha(d.src) == d.digest ==> succ
  {
    if d.forceDownload {
      ForcedOutcome(d, w);
    }
    succ := false;
    locked := LockFile(w, d.dir);
    if locked {
      succ := d.Download(w);
      UnlockFile(w, d.dir);
    }
  }

  lemma {:induction false} SumAppend(q: seq<BkDownload>, d: BkDownload)
    ensures SumAllowed(q + [d]) == SumAllowed(q) + Allowed(d.tryCnt)
  {
    if q != [] {
      assert (q + [d])[1..] == q[1..] + [d];
      SumAppend(q[1..], d);
    }
  }

  /** The downloads of one thread, all of them and those not deleted yet. */
  ghost predicate Queued(w: World, list: seq<BkDownload>, q: seq<BkDownload>, deleted: seq<BkDownload>)
    reads w, (set d | d in list), (set d | d in q)
  {
    && w.Valid() && Distinct(q) && multiset(q) + multiset(deleted) == multiset(list)
    && (forall i :: 0 <= i < |q| ==> q[i] in list)
    && (forall i :: 0 <= i < |list| ==> list[i].Ready())
  }

  ghost predicate Separate(list: seq<BkDownload>) {
    Distinct(list) && forall i, j :: 0 <= i < j < |list| ==> list[i].sw != list[j].sw
  }

  /** A new commit file carries the digest of a download of its directory. */
  ghost predicate Committed(sha: Sha, list: seq<BkDownload>, c0: map<string, seq<Byte>>, c: map<string, seq<Byte>>) {
    && (forall d :: d in c0 ==> d in c && c[d] == c0[d])
    && (forall d :: d in c && d !in c0 ==>
          exists i :: 0 <= i < |list| && list[i].dir == d && sha(c[d]) == list[i].digest)
  }

  lemma CommittedMore(sha: Sha, list: seq<BkDownload>, c0: map<string, seq<Byte>>, c: map<string, seq<Byte>>,
                      c': map<string, seq<Byte>>, d: BkDownload)
    requires Committed(sha, list, c0, c) && OthersKept(c, c', d.dir) && d in list
    requires d.dir in c ==> c' == c
    requires d.dir in c' && d.dir !in c ==> sha(c'[d.dir]) == d.digest
    ensures Committed(sha, list, c0, c')
  {
    var k :| 0 <= k < |list| && list[k] == d;
    forall x | x in c' && x !in c0
      ensures exists i :: 0 <= i < |list| && list[i].dir == x && sha(c'[x]) == list[i].digest
    {
      if x == d.dir && x !in c {
        assert list[k].dir == x;
      } else {
        var i :| 0 <= i < |list| && list[i].dir == x && sha(c[x]) == list[i].digest;
      }
    }
  }

  lemma PopFront(q: seq<BkDownload>)
    requires q != []
    ensures multiset(q) == multiset{q[0]} + multiset(q[1..])
  {
    assert q == [q[0]] + q[1..];
  }

  /** What a download has used of its tries; one that is queued with none left has never been started. */
  ghost predicate Accounted(d: BkDownload, attempts0: nat, tryCnt0: nat, queued: bool)
    reads d
  {
    && (d.attempts + d.tryCnt == attempts0 + Allowed(tryCnt0) || (d.attempts == attempts0 && d.tryCnt == tryCnt0))
    && (queued && d.tryCnt == 0 ==> d.attempts == attempts0 && tryCnt0 == 0)
  }

  /** A download with two tries and a right digest: it is waiting for its first or its forced attempt... */
  ghost predicate OnTrack(q: seq<BkDownload>, d: BkDownload)
    reads d
  {
    d in q && d.attempts + d.tryCnt >= 2 && (d.attempts == 0 || d.forceDownload)
  }

  /** ... or its commit file is there and its reads go to it. */
  ghost predicate Switched(w: World, d: BkDownload)
    reads w, d, d.sw
  {
    d.dir in w.commit && d.sw.local == Some(w.commit[d.dir])
  }

  /** One turn for the download popped from the front, up to requeueing or deleting it. */
  method Step(w: World, ghost list: seq<BkDownload>, d: BkDownload, rest: seq<BkDownload>, deleted0: seq<BkDownload>)
    returns (stop: bool, q: seq<BkDownload>, deleted: seq<BkDownload>)
    requires Queued(w, list, [d] + rest, deleted0)
    modifies d`tryCnt, d`attempts, d`forceDownload, d.sw, w`tmp, w`readCalls, w`writeCalls, w`commit, w`locks
    ensures Queued(w, list, q, deleted)
    ensures var before := old(Allowed(d.tryCnt) + SumAllowed(rest)) + |rest| + 1;
            !stop ==> if old(d.dir in w.locks) then SumAllowed(q) + |q| == before else SumAllowed(q) + |q| < before
    ensures (d.attempts == old(d.attempts) && d.tryCnt == old(d.tryCnt))
         || (d.attempts == old(d.attempts) + 1 && d.tryCnt == Allowed(old(d.tryCnt)) - 1)
    ensures d in q && d.tryCnt == 0 ==> d.attempts == old(d.attempts) && old(d.tryCnt) == 0
    ensures forall x :: x in q ==> x == d || x in rest
    ensures OthersKept(old(w.commit), w.commit, d.dir)
    ensures d.dir in old(w.commit) ==> w.commit == old(w.commit)
    ensures d.dir in w.commit && d.dir !in old(w.commit) ==> w.sha(w.commit[d.dir]) == d.digest
    ensures w.faithful ==> !stop
    ensures forall i :: 0 <= i < |rest| ==> rest[i] in q
    ensures w.faithful && w.sha(d.src) == d.digest && old(OnTrack([d] + rest, d)) ==> OnTrack(q, d) || Switched(w, d)
    ensures Switched(w, d) || d.sw.local == old(d.sw.local)
  {
    hide SumAllowed;
    FrontQueued(w, list, d, rest, deleted0);
    stop := false;
    var locked, succ := Turn(w, d);
    if !locked {
      q, deleted := Requeue(w, list, d, rest, deleted0, true);
      return;
    }
    var running := w.Running();
    stop := !running;
    q, deleted := Requeue(w, list, d, rest, deleted0, running && !succ && d.tryCnt > 0);
  }

  /** What the queue looks like without its front. */
  ghost predicate Popped(w: World, list: seq<BkDownload>, d: BkDownload, rest: seq<BkDownload>, deleted: seq<BkDownload>)
    reads w, (set x | x in list), (set x | x in rest)
  {
    && Queued(w, list, rest, deleted + [d]) && d in list && d !in rest
  }

  lemma FrontQueued(w: World, list: seq<BkDownload>, d: BkDownload, rest: seq<BkDownload>, deleted: seq<BkDownload>)
    requires Queued(w, list, [d] + rest, deleted)
    ensures Popped(w, list, d, rest, deleted) && d.Ready() && w.Valid()
  {
    assert ([d] + rest)[0] == d && ([d] + rest)[1..] == rest;
    assert forall i :: 0 <= i < |rest| ==> rest[i] == ([d] + rest)[i + 1];
    PopFront([d] + rest);
  }

  /** push_back of the download, or its deletion. */
  method Requeue(w: World, ghost list: seq<BkDownload>, d: BkDownload, rest: seq<BkDownload>,
                 deleted0: seq<BkDownload>, again: bool)
    returns (q: seq<BkDownload>, deleted: seq<BkDownload>)
    requires Popped(w, list, d, rest, deleted0)
    modifies w`locks
    ensures Queued(w, list, q, deleted)
    ensures SumAllowed(q) + |q| == SumAllowed(rest) + |rest| + if again then Allowed(d.tryCnt) + 1 else 0
    ensures forall i :: 0 <= i < |rest| ==> rest[i] in q
    ensures forall x :: x in q ==> x == d || x in rest
    ensures d in q <==> again
  {
    hide SumAllowed;
    SumAppend(rest, d);
    if again {
      q, deleted := rest + [d], deleted0;
      assert q[|rest|] == d && forall i :: 0 <= i < |rest| ==> q[i] == rest[i];
    } else {
      UnlockFile(w, d.dir);
      q, deleted := rest, deleted0 + [d];
    }
  }

  /** A fresh download with at least two tries, whose digest is that of its source. */
  ghost predicate TwoTries(sha: Sha, d: BkDownload)
    reads d
  {
    sha(d.src) == d.digest && d.attempts == 0 && d.tryCnt >= 2
  }

  /** Every download of `good` is on track or switched. */
  ghost predicate AllGood(w: World, q: seq<BkDownload>, list: seq<BkDownload>, good: seq<bool>)
    reads w, (set d | d in list), set d | d in list :: d.sw
  {
    |good| == |list| && forall i :: 0 <= i < |list| && good[i] ==> OnTrack(q, list[i]) || Switched(w, list[i])
  }

  /** Every download of the thread is accounted for. */
  ghost predicate AllAccounted(q: seq<BkDownload>, list: seq<BkDownload>, attempts0: seq<nat>, tryCnt0: seq<nat>)
    reads set d | d in list
  {
    && |attempts0| == |tryCnt0| == |list|
    && forall i :: 0 <= i < |list| ==> Accounted(list[i], attempts0[i], tryCnt0[i], list[i] in q)
  }

  /** A turn, seen from all downloads of the thread. */
  method StepAll(w: World, ghost list: seq<BkDownload>, d: BkDownload, rest: seq<BkDownload>,
                 deleted0: seq<BkDownload>, ghost good: seq<bool>, ghost attempts0: seq<nat>, ghost tryCnt0: seq<nat>)
    returns (stop: bool, q: seq<BkDownload>, deleted: seq<BkDownload>)
    requires Queued(w, list, [d] + rest, deleted0) && Separate(list) && d in list
    requires w.faithful ==> AllGood(w, [d] + rest, list, good)
    requires AllAccounted([d] + rest, list, attempts0, tryCnt0)
    requires forall i :: 0 <= i < |good| && i < |list| && good[i] ==> w.sha(list[i].src) == list[i].digest
    modifies d`tryCnt, d`attempts, d`forceDownload, d.sw, w`tmp, w`readCalls, w`writeCalls, w`commit, w`locks
    ensures Queued(w, list, q, deleted) && AllAccounted(q, list, attempts0, tryCnt0)
    ensures var before := old(SumAllowed([d] + rest)) + |rest| + 1;
            !stop ==> if old(d.dir in w.locks) then SumAllowed(q) + |q| == before else SumAllowed(q) + |q| < before
    ensures OthersKept(old(w.commit), w.commit, d.dir)
    ensures d.dir in old(w.commit) ==> w.commit == old(w.commit)
    ensures d.dir in w.commit && d.dir !in old(w.commit) ==> w.sha(w.commit[d.dir]) == d.digest
    ensures w.faithful ==> !stop && AllGood(w, q, list, good)
  {
    hide Queued, SumAllowed;
    SumFront(d, rest);
    assert ([d] + rest)[0] == d;
    stop, q, deleted := Step(w, list, d, rest, deleted0);
    forall i | 0 <= i < |list| ensures Accounted(list[i], attempts0[i], tryCnt0[i], list[i] in q) {
      if list[i] != d && list[i] in q {
        assert list[i] in [d] + rest;
      }
    }
    if w.faithful {
      forall i | 0 <= i < |list| && good[i] ensures OnTrack(q, list[i]) || Switched(w, list[i]) {
        if list[i] != d {
          var k :| 0 <= k < |list| && list[k] == d;
          assert list[i].sw != d.sw;
          assert old(OnTrack([d] + rest, list[i])) ==> list[i] in rest;
        }
      }
    }
  }

  lemma SumFront(d: BkDownload, rest: seq<BkDownload>)
    ensures SumAllowed([d] + rest) == Allowed(d.tryCnt) + SumAllowed(rest)
  {
    assert ([d] + rest)[1..] == rest;
  }

  /** The main loop of bk_download_proc; what is left in `q` was not finished when the image closed. */
  method RetryLoop(w: World, list: seq<BkDownload>, contention: nat, ghost good: seq<bool>,
                   ghost attempts0: seq<nat>, ghost tryCnt0: seq<nat>)
    returns (q: seq<BkDownload>, deleted: seq<BkDownload>)
    requires w.Valid() && Separate(list)
    requires forall i :: 0 <= i < |list| ==> list[i].Ready()
    requires w.faithful ==> AllGood(w, list, list, good)
    requires AllAccounted(list, list, attempts0, tryCnt0)
    requires forall i :: 0 <= i < |good| && i < |list| && good[i] ==> w.sha(list[i].src) == list[i].digest
    modifies w`tmp, w`readCalls, w`writeCalls, w`commit, w`locks
    modifies (set d | d in list)`tryCnt, (set d | d in list)`attempts, (set d | d in list)`forceDownload
    modifies set d | d in list :: d.sw
    ensures multiset(q) + multiset(deleted) == multiset(list)
    ensures Committed(w.sha, list, old(w.commit), w.commit)
    ensures AllAccounted(q, list, attempts0, tryCnt0)
    ensures w.faithful ==> q == [] && AllGood(w, q, list, good)
  {
    hide Committed, AllGood, AllAccounted, OnTrack, Switched, Queued, SumAllowed;
    deleted := [];
    q := list;
    var left := contention;
    QueuedStart(w, list);
    NothingNew(w.sha, list, w.commit);
    while q != []
      invariant Queued(w, list, q, deleted) && Committed(w.sha, list, old(w.commit), w.commit)
      invariant AllAccounted(q, list, attempts0, tryCnt0)
      invariant w.faithful ==> AllGood(w, q, list, good)
      decreases SumAllowed(q) + |q| + left
    {
      var running := w.Running();
      if !running {
        break;
      }
      var d, rest := q[0], q[1..];
      assert q == [d] + rest;
      QueuedParts(w, list, q, deleted);
      left := SleepQueued(w, d.dir, left, list, q, deleted, good);
      var stop: bool;
      ghost var c := w.commit;
      stop, q, deleted := StepAll(w, list, d, rest, deleted, good, attempts0, tryCnt0);
      CommittedMore(w.sha, list, old(w.commit), c, w.commit, d);
      if stop {
        break;
      }
    }
    QueuedParts(w, list, q, deleted);
  }

  /** Nothing the loop relies on is touched while it sleeps. */
  method SleepQueued(w: World, dir: string, contention: nat, ghost list: seq<BkDownload>, ghost q: seq<BkDownload>,
                     ghost deleted: seq<BkDownload>, ghost good: seq<bool>)
    returns (left: nat)
    requires Queued(w, list, q, deleted) && (w.faithful ==> AllGood(w, q, list, good))
    modifies w`locks
    ensures left == contention - (if dir in w.locks then 1 else 0)
    ensures Queued(w, list, q, deleted) && (w.faithful ==> AllGood(w, q, list, good))
  {
    left := Sleep(w, dir, contention);
  }

  lemma QueuedStart(w: World, list: seq<BkDownload>)
    requires w.Valid() && Distinct(list)
    requires forall i :: 0 <= i < |list| ==> list[i].Ready()
    ensures Queued(w, list, list, [])
  {
  }

  lemma QueuedParts(w: World, list: seq<BkDownload>, q: seq<BkDownload>, deleted: seq<BkDownload>)
    requires Queued(w, list, q, deleted)
    ensures multiset(q) + multiset(deleted) == multiset(list)
    ensures q != [] ==> q[0] in list
  {
  }

  lemma NothingNew(sha: Sha, list: seq<BkDownload>, c: map<string, seq<Byte>>)
    ensures Committed(sha, list, c, c)
  {
  }

  /** All downloads of one directory are of one layer, which their digest identifies. */
  ghost predicate OneLayer(sha: Sha, list: seq<BkDownload>, d: BkDownload) {
    forall i :: 0 <= i < |list| && list[i].dir == d.dir ==> Identifies(sha, list[i]) && list[i].src == d.src
  }

  /** The commit file of the download is its layer. */
  ghost predicate CommittedAs(commit: map<string, seq<Byte>>, d: BkDownload) {
    d.dir in commit && commit[d.dir] == d.src
  }

  /** bk_download_proc, on every exit path: every download is deleted once, started at most as often as its
      counter allows, and new commit files match their digest. In a faithful world two tries always end with the
      layer committed and read locally. */
  method BkDownloadProc(w: World, list: seq<BkDownload>, contention: nat) returns (deleted: seq<BkDownload>)
    requires w.Valid() && Separate(list)
    requires forall i :: 0 <= i < |list| ==> list[i].Ready()
    modifies w`tmp, w`readCalls, w`writeCalls, w`commit, w`locks
    modifies (set d | d in list)`tryCnt, (set d | d in list)`attempts, (set d | d in list)`forceDownload
    modifies set d | d in list :: d.sw
    ensures multiset(deleted) == multiset(list)
    ensures forall i :: 0 <= i < |list| ==>
              list[i].attempts <= old(list[i].attempts) + Allowed(old(list[i].tryCnt))
    ensures Committed(w.sha, list, old(w.commit), w.commit)
    ensures w.faithful ==> forall i :: 0 <= i < |list| && old(TwoTries(w.sha, list[i])) ==> Switched(w, list[i])
    ensures w.faithful ==> forall i :: 0 <= i < |list| && old(TwoTries(w.sha, list[i])) && OneLayer(w.sha, list, list[i]) ==>
              list[i].dir in old(w.commit) || CommittedAs(w.commit, list[i])
  {
    var q: seq<BkDownload>;
    ghost var good := seq(|list|, i requires 0 <= i < |list| reads set d | d in list => TwoTries(w.sha, list[i]));
    ghost var attempts0 := seq(|list|, i requires 0 <= i < |list| reads set d | d in list => list[i].attempts);
    ghost var tryCnt0 := seq(|list|, i requires 0 <= i < |list| reads set d | d in list => list[i].tryCnt);
    q, deleted := RetryLoop(w, list, contention, good, attempts0, tryCnt0);
    while q != []
      modifies w`locks
      invariant multiset(q) + multiset(deleted) == multiset(list)
      decreases |q|
    {
      PopFront(q);
      UnlockFile(w, q[0].dir);
      deleted, q := deleted + [q[0]], q[1..];
    }
    if w.faithful {
      forall i | 0 <= i < |list| && good[i] && OneLayer(w.sha, list, list[i]) && list[i].dir !in old(w.commit)
        ensures CommittedAs(w.commit, list[i])
      {
        CommittedIsLayer(w.sha, list, old(w.commit), w.commit, list[i]);
      }
    }
  }

  /** Reading an image after the thread has run: in a faithful world the layer's bytes come from its commit file. */
  method ReadAfterDownload(w: World, list: seq<BkDownload>, contention: nat, i: nat, count: nat, off: nat)
    returns (r: seq<Byte>)
    requires w.Valid() && Separate(list) && i < |list|
    requires forall i :: 0 <= i < |list| ==> list[i].Ready()
    modifies w`tmp, w`readCalls, w`writeCalls, w`commit, w`locks
    modifies (set d | d in list)`tryCnt, (set d | d in list)`attempts, (set d | d in list)`forceDownload
    modifies set d | d in list :: d.sw
    ensures w.faithful && old(TwoTries(w.sha, list[i])) ==>
      && list[i].dir in w.commit && ReadsFrom(w.commit[list[i].dir], count, off, r)
      && (OneLayer(w.sha, list, list[i]) && list[i].dir !in old(w.commit) ==> ReadsFrom(list[i].src, count, off, r))
  {
    var deleted := BkDownloadProc(w, list, contention);
    r := list[i].sw.Pread(count, off);
  }

  /** A new commit file is the layer itself, when digests identify layers. */
  lemma CommittedIsLayer(sha: Sha, list: seq<BkDownload>, c0: map<string, seq<Byte>>, c: map<string, seq<Byte>>,
                         d: BkDownload)
    requires Committed(sha, list, c0, c) && d.dir in c && d.dir !in c0 && OneLayer(sha, list, d)
    ensures c[d.dir] == d.src
  {
    var i :| 0 <= i < |list| && list[i].dir == d.dir && sha(c[d.dir]) == list[i].digest;
  }
}
