/** Several download threads sharing the lock set and the directories, as a state machine.
    Every point at which a photon thread may yield separates two steps. */
module DownloadThreads {
  import opened Basics
  import opened Download

  /** A queued download; `id` tells downloads (and their SwitchFiles) apart. */
  datatype Item = Item(id: nat, dir: string, digest: Digest)

  datatype Pc =
    | Idle                                  // at the top of the loop
    | Popping                               // after the sleep: the front of the queue is popped next
    | Locked(item: Item)                    // lock held, check_downloaded is next
    | Fetching(item: Item)                  // inside download_blob
    | Verified(item: Item)                  // the digest was right, rename is next
    | Committed(item: Item)                 // renamed, or found downloaded; the switch is next
    | Finished(item: Item, succ: bool)      // download() has returned; unlock is next
    | Draining                              // the loop has been left early
    | Exited
  {
    predicate Busy() {
      Locked? || Fetching? || Verified? || Committed? || Finished?
    }
  }

  datatype Thread = Thread(queue: seq<Item>, pc: Pc, running: bool)

  datatype State = State(
    threads: seq<Thread>,
    locks: set<string>,
    tmp: map<string, seq<Byte>>,
    commit: map<string, seq<Byte>>,
    local: set<Item>,                       // downloads whose SwitchFile reads locally
    tries: map<Item, nat>,                  // try_cnt
    attempts: map<Item, nat>,               // how often download_blob was started
    deleted: multiset<Item>)

  function At(m: map<Item, nat>, i: Item): nat {
    if i in m then m[i] else 0
  }

  datatype Step =
    | Close              // the image of this thread is closed
    | Look               // the top of the loop: nothing queued, closed, or go on
    | LockFront          // pop an item whose directory is free, and lock it
    | Rotate             // the directory is locked: push the item to the back
    | FoundDownloaded    // check_downloaded: yes
    | StartFetch         // check_downloaded: no
    | Write(b: seq<Byte>)  // any change download_blob makes to `.download`
    | GiveUp             // download_blob or download_done fails
    | Verify             // the digest matches
    | Rename
    | Switch(opens: bool)
    | Requeue            // unlock, and push back: it failed, and has tries left
    | Delete             // unlock, and delete
    | DeleteQueued       // the image was closed: delete the front of the queue
    | Exit

  predicate Enabled(sha: Sha, s: State, t: nat, step: Step)
    requires t < |s.threads|
  {
    var th := s.threads[t];
    match step
    case Close => true
    case Look => th.pc.Idle?
    case LockFront => th.pc.Popping? && th.queue != [] && th.queue[0].dir !in s.locks
    case Rotate => th.pc.Popping? && th.queue != [] && th.queue[0].dir in s.locks
    case FoundDownloaded => th.pc.Locked? && th.pc.item.dir in s.commit
    case StartFetch => th.pc.Locked? && th.pc.item.dir !in s.commit
    case Write(_) => th.pc.Fetching?
    case GiveUp => th.pc.Fetching? || th.pc.Verified?
    case Verify => th.pc.Fetching? && th.pc.item.dir in s.tmp && sha(s.tmp[th.pc.item.dir]) == th.pc.item.digest
    case Rename => th.pc.Verified?
    case Switch(_) => th.pc.Committed?
    case Requeue => th.pc.Finished? && MayRetry(s, th)
    case Delete => th.pc.Finished? && !MayRetry(s, th)
    case DeleteQueued => th.pc.Draining? && th.queue != []
    case Exit => th.pc.Draining? && th.queue == []
  }

  predicate MayRetry(s: State, th: Thread)
    requires th.pc.Finished?
  {
    th.running && !th.pc.succ && At(s.tries, th.pc.item) > 0
  }

  function WithThread(s: State, t: nat, th: Thread): State
    requires t < |s.threads|
  {
    s.(threads := s.threads[t := th])
  }

  function Apply(sha: Sha, s: State, t: nat, step: Step): State
    requires t < |s.threads| && Enabled(sha, s, t, step)
  {
    var th := s.threads[t];
    match step
    case Close => WithThread(s, t, th.(running := false))
    case Look => WithThread(s, t, th.(pc := if th.queue == [] then Exited else if th.running then Popping else Draining))
    case LockFront =>
      WithThread(s, t, th.(queue := th.queue[1..], pc := Locked(th.queue[0]))).(locks := s.locks + {th.queue[0].dir})
    case Rotate => WithThread(s, t, th.(queue := th.queue[1..] + [th.queue[0]], pc := Idle))
    case FoundDownloaded => WithThread(s, t, th.(pc := Committed(th.pc.item)))
    case StartFetch =>
      var i := th.pc.item;
      WithThread(s, t, th.(pc := Fetching(i)))
        .(tries := s.tries[i := Allowed(At(s.tries, i)) - 1], attempts := s.attempts[i := At(s.attempts, i) + 1])
    case Write(b) => s.(tmp := s.tmp[th.pc.item.dir := b])
    case GiveUp => WithThread(s, t, th.(pc := Finished(th.pc.item, false)))
    case Verify => WithThread(s, t, th.(pc := Verified(th.pc.item)))
    case Rename =>
      var d := th.pc.item.dir;
      if d in s.tmp then
        WithThread(s, t, th.(pc := Committed(th.pc.item))).(commit := s.commit[d := s.tmp[d]], tmp := s.tmp - {d})
      else WithThread(s, t, th.(pc := Finished(th.pc.item, false)))
    case Switch(opens) =>
      WithThread(s, t, th.(pc := Finished(th.pc.item, true)))
        .(local := if opens && th.pc.item.dir in s.commit then s.local + {th.pc.item} else s.local)
    case Requeue =>
      WithThread(s, t, th.(queue := th.queue + [th.pc.item], pc := Idle)).(locks := s.locks - {th.pc.item.dir})
    case Delete =>
      WithThread(s, t, th.(pc := if th.running then Idle else Draining))
        .(locks := s.locks - {th.pc.item.dir}, deleted := s.deleted + multiset{th.pc.item})
    case DeleteQueued =>
      WithThread(s, t, th.(queue := th.queue[1..]))
        .(locks := s.locks - {th.queue[0].dir}, deleted := s.deleted + multiset{th.queue[0]})
    case Exit => WithThread(s, t, th.(pc := Exited))
  }

  /** Some thread is working on `dir`: it took its lock and has not released it. */
  ghost predicate BusyWith(s: State, dir: string) {
    exists t :: 0 <= t < |s.threads| && s.threads[t].pc.Busy() && s.threads[t].pc.item.dir == dir
  }

  /** The proviso: no download is destroyed while another one holds its directory's lock. */
  ghost predicate Careful(s: State, t: nat, step: Step)
    requires t < |s.threads|
  {
    step.DeleteQueued? && s.threads[t].queue != [] ==> !BusyWith(s, s.threads[t].queue[0].dir)
  }

  ghost predicate Init(s: State) {
    && (forall t :: 0 <= t < |s.threads| ==> s.threads[t].pc.Idle? && s.threads[t].running)
    && s.locks == {} && s.local == {} && s.deleted == multiset{}
  }

  // ---- the invariant ----

  ghost predicate LocksHeld(s: State) {
    forall t :: 0 <= t < |s.threads| && s.threads[t].pc.Busy() ==> s.threads[t].pc.item.dir in s.locks
  }

  /** A directory has at most one downloader. */
  ghost predicate Exclusive(s: State) {
    forall t, u :: 0 <= t < u < |s.threads| && s.threads[t].pc.Busy() && s.threads[u].pc.Busy() ==>
      s.threads[t].pc.item.dir != s.threads[u].pc.item.dir
  }

  ghost predicate VerifiedIsRight(sha: Sha, s: State) {
    forall t :: 0 <= t < |s.threads| && s.threads[t].pc.Verified? ==>
      && s.threads[t].pc.item.dir in s.tmp
      && sha(s.tmp[s.threads[t].pc.item.dir]) == s.threads[t].pc.item.digest
  }

  /** Nobody downloads a directory that has its commit file. */
  ghost predicate FetchingIsNew(s: State) {
    forall t :: 0 <= t < |s.threads| && (s.threads[t].pc.Fetching? || s.threads[t].pc.Verified?) ==>
      s.threads[t].pc.item.dir !in s.commit
  }

  /** A SwitchFile reads locally only where there is a commit file. */
  ghost predicate LocalHasCommit(s: State) {
    forall i :: i in s.local ==> i.dir in s.commit
  }

  ghost predicate Inv(sha: Sha, s: State) {
    LocksHeld(s) && Exclusive(s) && VerifiedIsRight(sha, s) && FetchingIsNew(s) && LocalHasCommit(s)
  }

  /** Commit files only appear, unchanged from then on; a new one has the digest of a download of its directory. */
  ghost predicate CommitsRight(sha: Sha, s: State, s': State) {
    && (forall d :: d in s.commit ==> d in s'.commit && s'.commit[d] == s.commit[d])
    && (forall d :: d in s'.commit && d !in s.commit ==>
          exists i: Item :: i.dir == d && i.digest == sha(s'.commit[d]) && InRun(s, i))
  }

  /** The download `i` is in some queue, or being worked on. */
  ghost predicate InRun(s: State, i: Item) {
    exists t :: 0 <= t < |s.threads| && (i in s.threads[t].queue || (s.threads[t].pc.Busy() && s.threads[t].pc.item == i))
  }

  lemma LocksKept(sha: Sha, s: State, t: nat, step: Step)
    requires t < |s.threads| && LocksHeld(s) && Exclusive(s) && Enabled(sha, s, t, step) && Careful(s, t, step)
    ensures LocksHeld(Apply(sha, s, t, step))
  {
    hide At, Allowed, MayRetry;
    var s' := Apply(sha, s, t, step);
    forall u | 0 <= u < |s'.threads| && s'.threads[u].pc.Busy() ensures s'.threads[u].pc.item.dir in s'.locks {
      assert u != t ==> s'.threads[u] == s.threads[u];
    }
  }

  lemma ExclusionKept(sha: Sha, s: State, t: nat, step: Step)
    requires t < |s.threads| && LocksHeld(s) && Exclusive(s) && Enabled(sha, s, t, step)
    ensures Exclusive(Apply(sha, s, t, step))
  {
    hide At, Allowed, MayRetry;
  }

  lemma VerifiedKept(sha: Sha, s: State, t: nat, step: Step)
    requires t < |s.threads| && Inv(sha, s) && Enabled(sha, s, t, step)
    ensures VerifiedIsRight(sha, Apply(sha, s, t, step))
  {
    hide At, Allowed, MayRetry, LocksHeld, FetchingIsNew, LocalHasCommit;
  }

  lemma CommitsKept(sha: Sha, s: State, t: nat, step: Step)
    requires t < |s.threads| && Inv(sha, s) && Enabled(sha, s, t, step)
    ensures FetchingIsNew(Apply(sha, s, t, step)) && LocalHasCommit(Apply(sha, s, t, step))
  {
    hide At, Allowed, MayRetry, LocksHeld, VerifiedIsRight;
  }

  /** Every careful step keeps the invariant. */
  lemma InvKept(sha: Sha, s: State, t: nat, step: Step)
    requires t < |s.threads| && Inv(sha, s) && Enabled(sha, s, t, step) && Careful(s, t, step)
    ensures Inv(sha, Apply(sha, s, t, step))
  {
    hide Enabled, Apply;
    LocksKept(sha, s, t, step);
    ExclusionKept(sha, s, t, step);
    VerifiedKept(sha, s, t, step);
    CommitsKept(sha, s, t, step);
  }

  /** A switch makes a download's reads local exactly when its commit file is there and opens; nothing else does. */
  lemma SwitchesWhenOpen(sha: Sha, s: State, t: nat, step: Step, i: Item)
    requires t < |s.threads| && Enabled(sha, s, t, step)
    ensures i in Apply(sha, s, t, step).local <==>
              i in s.local || (step == Switch(true) && s.threads[t].pc.item == i && i.dir in s.commit)
  {
    hide At, Allowed, MayRetry;
  }

  lemma StepCommits(sha: Sha, s: State, t: nat, step: Step)
    requires t < |s.threads| && Inv(sha, s) && Enabled(sha, s, t, step)
    ensures CommitsRight(sha, s, Apply(sha, s, t, step))
    ensures s.local <= Apply(sha, s, t, step).local
  {
    var s' := Apply(sha, s, t, step);
    forall d | d in s'.commit && d !in s.commit
      ensures exists i: Item :: i.dir == d && i.digest == sha(s'.commit[d]) && InRun(s, i)
    {
      var i := s.threads[t].pc.item;
      assert InRun(s, i);
    }
  }

  /** No step brings in a download that was not there. */
  lemma InRunBefore(sha: Sha, s: State, t: nat, step: Step, i: Item)
    requires t < |s.threads| && Enabled(sha, s, t, step) && InRun(Apply(sha, s, t, step), i)
    ensures InRun(s, i)
  {
    var s' := Apply(sha, s, t, step);
    var u :| 0 <= u < |s'.threads| &&
      (i in s'.threads[u].queue || (s'.threads[u].pc.Busy() && s'.threads[u].pc.item == i));
    assert i in s.threads[u].queue || (s.threads[u].pc.Busy() && s.threads[u].pc.item == i);
  }

  // ---- runs ----

  type Trace = seq<(nat, Step)>

  /** Every step of the trace is possible when its turn comes, and respects the proviso. */
  ghost predicate CarefulRun(sha: Sha, s: State, trace: Trace)
    decreases |trace|
  {
    trace == [] ||
    (var (t, step) := trace[0];
     t < |s.threads| && Enabled(sha, s, t, step) && Careful(s, t, step) && CarefulRun(sha, Apply(sha, s, t, step), trace[1..]))
  }

  /** Every step of the trace is possible when its turn comes. */
  predicate Possible(sha: Sha, s: State, trace: Trace)
    decreases |trace|
  {
    trace == [] ||
    (var (t, step) := trace[0];
     t < |s.threads| && Enabled(sha, s, t, step) && Possible(sha, Apply(sha, s, t, step), trace[1..]))
  }

  function Last(sha: Sha, s: State, trace: Trace): State
    requires Possible(sha, s, trace)
    decreases |trace|
  {
    if trace == [] then s else Last(sha, Apply(sha, s, trace[0].0, trace[0].1), trace[1..])
  }

  /** Over every careful run: one downloader a directory, right and lasting commit files, one-way switches. */
  lemma {:induction false} RunIsSafe(sha: Sha, s: State, trace: Trace)
    requires Inv(sha, s) && CarefulRun(sha, s, trace)
    ensures Possible(sha, s, trace)
    ensures Inv(sha, Last(sha, s, trace)) && CommitsRight(sha, s, Last(sha, s, trace))
    ensures s.local <= Last(sha, s, trace).local
    decreases |trace|
  {
    if trace != [] {
      var (t, step) := trace[0];
      var s' := Apply(sha, s, t, step);
      InvKept(sha, s, t, step);
      StepCommits(sha, s, t, step);
      RunIsSafe(sha, s', trace[1..]);
      var z := Last(sha, s', trace[1..]);
      forall d | d in z.commit && d !in s.commit
        ensures exists i: Item :: i.dir == d && i.digest == sha(z.commit[d]) && InRun(s, i)
      {
        if d !in s'.commit {
          var i: Item :| i.dir == d && i.digest == sha(z.commit[d]) && InRun(s', i);
          InRunBefore(sha, s, t, step, i);
        }
      }
    }
  }

  lemma InitIsSafe(sha: Sha, s: State)
    requires Init(s)
    ensures Inv(sha, s)
  {
  }

  // ---- the proviso is needed ----

  /** Destroying a queued download releases a working download's lock exactly when the proviso is broken. */
  lemma DeleteQueuedKeepsLocks(sha: Sha, s: State, t: nat)
    requires t < |s.threads| && Inv(sha, s) && Enabled(sha, s, t, DeleteQueued)
    ensures LocksHeld(Apply(sha, s, t, DeleteQueued)) <==> Careful(s, t, DeleteQueued)
  {
    var s', d := Apply(sha, s, t, DeleteQueued), s.threads[t].queue[0].dir;
    if BusyWith(s, d) {
      var u :| 0 <= u < |s.threads| && s.threads[u].pc.Busy() && s.threads[u].pc.item.dir == d;
      assert s'.threads[u] == s.threads[u];
    } else {
      InvKept(sha, s, t, DeleteQueued);
    }
  }

  /** Three images of one layer: the second is closed while the first has just verified its download. */
  function ThreeImages(d: string, digest: Digest): State {
    State(seq(3, i requires 0 <= i => Thread([Item(i, d, digest)], Idle, true)), {}, map[], map[], {},
          map[], map[], multiset{})
  }

  /** The first image has verified its download; the second one's queued download is destroyed next. */
  function FirstVerified(d: string, digest: Digest, good: seq<Byte>): State {
    var i := Item(0, d, digest);
    State([Thread([], Verified(i), true), Thread([Item(1, d, digest)], Idle, true), Thread([Item(2, d, digest)], Idle, true)],
          {d}, map[d := good], map[], {}, map[i := UINT32_MAX], map[i := 1], multiset{})
  }

  function VerifyTrace(good: seq<Byte>): Trace {
    [(0, Look)] + ([(0, LockFront)] + ([(0, StartFetch)] + ([(0, Write(good))] + [(0, Verify)])))
  }

  function DestroyTrace(): Trace {
    [(1, Close)] + ([(1, Look)] + [(1, DeleteQueued)])
  }

  function BreakingTrace(bad: seq<Byte>): Trace {
    [(2, Look)] + ([(2, LockFront)] + ([(2, StartFetch)] + ([(2, Write(bad))] + [(0, Rename)])))
  }

  lemma FirstVerifies(sha: Sha, d: string, good: seq<Byte>)
    ensures var s, tr := ThreeImages(d, sha(good)), VerifyTrace(good);
            Possible(sha, s, tr) && Last(sha, s, tr) == FirstVerified(d, sha(good), good)
  {
    hide Possible, Last;
    var s0 := ThreeImages(d, sha(good));
    var s1 := Apply(sha, s0, 0, Look);
    var s2 := Apply(sha, s1, 0, LockFront);
    var s3 := Apply(sha, s2, 0, StartFetch);
    var s4 := Apply(sha, s3, 0, Write(good));
    var s5 := Apply(sha, s4, 0, Verify);
    var z := FirstVerified(d, sha(good), good);
    assert s5.threads[0].queue == [] && s5.threads[0] == z.threads[0];
    assert s5.threads == z.threads && s5.tmp == z.tmp && s5.locks == z.locks;
    assert s5.tries == z.tries && s5.attempts == z.attempts;
    OneStep(sha, s4, (0, Verify));
    Cons(sha, s3, (0, Write(good)), [(0, Verify)]);
    Cons(sha, s2, (0, StartFetch), [(0, Write(good))] + [(0, Verify)]);
    Cons(sha, s1, (0, LockFront), [(0, StartFetch)] + ([(0, Write(good))] + [(0, Verify)]));
    Cons(sha, s0, (0, Look), [(0, LockFront)] + ([(0, StartFetch)] + ([(0, Write(good))] + [(0, Verify)])));
  }

  /** Closing the second image releases the lock the first one works under. */
  lemma DestroyUnlocks(sha: Sha, d: string, good: seq<Byte>)
    ensures var s, tr := FirstVerified(d, sha(good), good), DestroyTrace();
            && Possible(sha, s, tr) && Last(sha, s, tr).locks == {}
            && Last(sha, s, tr).commit == map[] && Last(sha, s, tr).threads[0] == s.threads[0]
            && |Last(sha, s, tr).threads| == 3 && Last(sha, s, tr).threads[2] == s.threads[2]
  {
    hide Possible, Last;
    var s0 := FirstVerified(d, sha(good), good);
    var s1 := Apply(sha, s0, 1, Close);
    var s2 := Apply(sha, s1, 1, Look);
    OneStep(sha, s2, (1, DeleteQueued));
    Cons(sha, s1, (1, Look), [(1, DeleteQueued)]);
    Cons(sha, s0, (1, Close), [(1, Look)] + [(1, DeleteQueued)]);
  }

  lemma RenameBreaks(sha: Sha, s: State, d: string, good: seq<Byte>, bad: seq<Byte>)
    requires s.locks == {} && s.commit == map[] && |s.threads| == 3
    requires s.threads[0] == FirstVerified(d, sha(good), good).threads[0]
    requires s.threads[2] == FirstVerified(d, sha(good), good).threads[2]
    ensures var tr := BreakingTrace(bad);
            Possible(sha, s, tr) && d in Last(sha, s, tr).commit && Last(sha, s, tr).commit[d] == bad
  {
    hide Possible, Last;
    var s1 := Apply(sha, s, 2, Look);
    var s2 := Apply(sha, s1, 2, LockFront);
    var s3 := Apply(sha, s2, 2, StartFetch);
    var s4 := Apply(sha, s3, 2, Write(bad));
    OneStep(sha, s4, (0, Rename));
    Cons(sha, s3, (2, Write(bad)), [(0, Rename)]);
    Cons(sha, s2, (2, StartFetch), [(2, Write(bad))] + [(0, Rename)]);
    Cons(sha, s1, (2, LockFront), [(2, StartFetch)] + ([(2, Write(bad))] + [(0, Rename)]));
    Cons(sha, s, (2, Look), [(2, LockFront)] + ([(2, StartFetch)] + ([(2, Write(bad))] + [(0, Rename)])));
  }

  /** Without the proviso a commit file whose digest is not that of any download can appear. */
  lemma CarelessRunBreaks(sha: Sha, d: string, good: seq<Byte>, bad: seq<Byte>)
    requires sha(good) != sha(bad)
    ensures var s, trace := ThreeImages(d, sha(good)), VerifyTrace(good) + (DestroyTrace() + BreakingTrace(bad));
            && Init(s) && Possible(sha, s, trace)
            && d in Last(sha, s, trace).commit && Last(sha, s, trace).commit[d] == bad
  {
    hide VerifyTrace, DestroyTrace, BreakingTrace, Possible, Last;
    var verified := FirstVerified(d, sha(good), good);
    FirstVerifies(sha, d, good);
    DestroyUnlocks(sha, d, good);
    RenameBreaks(sha, Last(sha, verified, DestroyTrace()), d, good, bad);
    Joined(sha, verified, DestroyTrace(), BreakingTrace(bad));
    Joined(sha, ThreeImages(d, sha(good)), VerifyTrace(good), DestroyTrace() + BreakingTrace(bad));
  }

  lemma {:induction false} Joined(sha: Sha, s: State, one: Trace, two: Trace)
    requires Possible(sha, s, one) && Possible(sha, Last(sha, s, one), two)
    ensures Possible(sha, s, one + two) && Last(sha, s, one + two) == Last(sha, Last(sha, s, one), two)
    decreases |one|
  {
    hide Enabled, Apply;
    if one == [] {
      assert one + two == two;
    } else {
      Joined(sha, Apply(sha, s, one[0].0, one[0].1), one[1..], two);
      assert (one + two)[1..] == one[1..] + two;
    }
  }

  lemma OneStep(sha: Sha, s: State, first: (nat, Step))
    requires first.0 < |s.threads| && Enabled(sha, s, first.0, first.1)
    ensures Possible(sha, s, [first]) && Last(sha, s, [first]) == Apply(sha, s, first.0, first.1)
  {
    hide Enabled, Apply;
    assert [first][1..] == [];
  }

  lemma Cons(sha: Sha, s: State, first: (nat, Step), rest: Trace)
    requires first.0 < |s.threads| && Enabled(sha, s, first.0, first.1)
    requires Possible(sha, Apply(sha, s, first.0, first.1), rest)
    ensures Possible(sha, s, [first] + rest)
    ensures Last(sha, s, [first] + rest) == Last(sha, Apply(sha, s, first.0, first.1), rest)
  {
    hide Enabled, Apply;
    assert ([first] + rest)[1..] == rest;
  }
}
