/** What every run of the download threads conserves, contended or not, careful or not: the downloads,
    and the tries each of them has. */
module DownloadAccounts {
  import opened Basics
  import opened Download
  import opened DownloadThreads

  // ---- no download is lost or deleted twice ----

  /** The downloads a thread has queued or in hand. */
  ghost function ThreadHeld(th: Thread): multiset<Item> {
    multiset(th.queue) + if th.pc.Busy() then multiset{th.pc.item} else multiset{}
  }

  ghost function Held(ths: seq<Thread>): multiset<Item> {
    if ths == [] then multiset{} else Held(ths[..|ths| - 1]) + ThreadHeld(ths[|ths| - 1])
  }

  lemma {:induction false} HeldUpdate(ths: seq<Thread>, t: nat, th: Thread, i: Item)
    requires t < |ths|
    ensures Held(ths[t := th])[i] + ThreadHeld(ths[t])[i] == Held(ths)[i] + ThreadHeld(th)[i]
  {
    hide ThreadHeld;
    var n := |ths| - 1;
    var r := ths[t := th];
    if t == n {
      assert r[..n] == ths[..n];
    } else {
      HeldUpdate(ths[..n], t, th, i);
      assert r[..n] == ths[..n][t := th];
    }
  }

  lemma QueueCounts(q: seq<Item>, x: Item, i: Item)
    ensures multiset(q + [x])[i] == multiset(q)[i] + multiset{x}[i]
    ensures q != [] ==> multiset(q)[i] == multiset(q[1..])[i] + multiset{q[0]}[i]
    ensures q != [] ==> multiset(q[1..] + [q[0]])[i] == multiset(q)[i]
  {
    if q != [] {
      assert q == [q[0]] + q[1..];
    }
  }

  /** What a thread loses in a step is what the step deletes. */
  lemma ThreadConserves(sha: Sha, s: State, t: nat, step: Step, i: Item)
    requires t < |s.threads| && Enabled(sha, s, t, step)
    ensures var s' := Apply(sha, s, t, step);
            && |s'.threads| == |s.threads|
            && ThreadHeld(s'.threads[t])[i] + s'.deleted[i] == ThreadHeld(s.threads[t])[i] + s.deleted[i]
  {
    hide At, Allowed, ThreadHeld, MayRetry, Apply, Enabled;
    if step.Delete? || step.Requeue? {
      PutAway(sha, s, t, step, i);
    } else if step.DeleteQueued? {
      Drains(sha, s, t, i);
    } else if step.LockFront? || step.Rotate? {
      Moves(sha, s, t, step, i);
    } else {
      StaysInHand(sha, s, t, step, i);
    }
  }

  lemma PutAway(sha: Sha, s: State, t: nat, step: Step, i: Item)
    requires t < |s.threads| && Enabled(sha, s, t, step) && (step.Delete? || step.Requeue?)
    ensures var s' := Apply(sha, s, t, step);
            && |s'.threads| == |s.threads|
            && ThreadHeld(s'.threads[t])[i] + s'.deleted[i] == ThreadHeld(s.threads[t])[i] + s.deleted[i]
  {
    hide At, Allowed, ThreadHeld, MayRetry;
    var th := s.threads[t];
    QueueCounts(th.queue, th.pc.item, i);
    HeldCounts(th, i);
    HeldCounts(Apply(sha, s, t, step).threads[t], i);
  }

  lemma Drains(sha: Sha, s: State, t: nat, i: Item)
    requires t < |s.threads| && Enabled(sha, s, t, DeleteQueued)
    ensures var s' := Apply(sha, s, t, DeleteQueued);
            && |s'.threads| == |s.threads|
            && ThreadHeld(s'.threads[t])[i] + s'.deleted[i] == ThreadHeld(s.threads[t])[i] + s.deleted[i]
  {
    hide At, Allowed, ThreadHeld, MayRetry;
    var th := s.threads[t];
    QueueCounts(th.queue, i, i);
    HeldCounts(th, i);
    HeldCounts(Apply(sha, s, t, DeleteQueued).threads[t], i);
  }

  lemma Moves(sha: Sha, s: State, t: nat, step: Step, i: Item)
    requires t < |s.threads| && Enabled(sha, s, t, step) && (step.LockFront? || step.Rotate?)
    ensures var s' := Apply(sha, s, t, step);
            && |s'.threads| == |s.threads| && s'.deleted == s.deleted
            && ThreadHeld(s'.threads[t])[i] == ThreadHeld(s.threads[t])[i]
  {
    hide At, Allowed, ThreadHeld, MayRetry;
    var th := s.threads[t];
    QueueCounts(th.queue, i, i);
    HeldCounts(th, i);
    HeldCounts(Apply(sha, s, t, step).threads[t], i);
  }

  lemma StaysInHand(sha: Sha, s: State, t: nat, step: Step, i: Item)
    requires t < |s.threads| && Enabled(sha, s, t, step) && !step.LockFront? && !step.Rotate?
    requires !step.Delete? && !step.DeleteQueued? && !step.Requeue?
    ensures var s' := Apply(sha, s, t, step);
            && |s'.threads| == |s.threads| && s'.deleted == s.deleted
            && ThreadHeld(s'.threads[t])[i] == ThreadHeld(s.threads[t])[i]
  {
    hide At, Allowed, ThreadHeld, MayRetry;
    HeldCounts(s.threads[t], i);
    HeldCounts(Apply(sha, s, t, step).threads[t], i);
  }

  /** A step changes only its own thread. */
  lemma OneThread(sha: Sha, s: State, t: nat, step: Step)
    requires t < |s.threads| && Enabled(sha, s, t, step)
    ensures var s' := Apply(sha, s, t, step);
            |s'.threads| == |s.threads| && s'.threads == s.threads[t := s'.threads[t]]
  {
    hide At, Allowed, MayRetry;
  }

  lemma HeldCounts(th: Thread, i: Item)
    ensures ThreadHeld(th)[i] == multiset(th.queue)[i] + if th.pc.Busy() && th.pc.item == i then 1 else 0
  {
  }

  /** The downloads queued, in hand and deleted stay the same. */
  lemma StepConserves(sha: Sha, s: State, t: nat, step: Step)
    requires t < |s.threads| && Enabled(sha, s, t, step)
    ensures var s' := Apply(sha, s, t, step); Held(s'.threads) + s'.deleted == Held(s.threads) + s.deleted
  {
    hide Enabled, Apply, ThreadHeld, Held;
    OneThread(sha, s, t, step);
    var s' := Apply(sha, s, t, step);
    forall i: Item ensures (Held(s'.threads) + s'.deleted)[i] == (Held(s.threads) + s.deleted)[i] {
      ThreadConserves(sha, s, t, step, i);
      HeldUpdate(s.threads, t, s'.threads[t], i);
    }
  }

  // ---- tries and attempts ----

  const WRAP := UINT32_MAX + 1

  /** Attempts made and tries left, as far as a 32-bit counter can tell. */
  function Sum(s: State, i: Item): int {
    (At(s.attempts, i) + At(s.tries, i)) % WRAP
  }

  lemma StepKeepsSum(sha: Sha, s: State, t: nat, step: Step, i: Item)
    requires t < |s.threads| && Enabled(sha, s, t, step)
    ensures Sum(Apply(sha, s, t, step), i) == Sum(s, i)
  {
  }

  /** A thread that has exited holds nothing. */
  ghost predicate ExitsEmpty(s: State) {
    forall t :: 0 <= t < |s.threads| && s.threads[t].pc.Exited? ==> s.threads[t].queue == []
  }

  lemma StepExitsEmpty(sha: Sha, s: State, t: nat, step: Step)
    requires t < |s.threads| && Enabled(sha, s, t, step) && ExitsEmpty(s)
    ensures ExitsEmpty(Apply(sha, s, t, step))
  {
    var s' := Apply(sha, s, t, step);
    forall u | 0 <= u < |s'.threads| && s'.threads[u].pc.Exited? ensures s'.threads[u].queue == [] {
      assert u != t ==> s'.threads[u] == s.threads[u];
    }
  }

  /** Over every run: each download is queued, in hand or deleted, once for each time it was there at the start;
      and attempts and tries of every download add up. */
  lemma {:induction false} RunConserves(sha: Sha, s: State, trace: Trace, i: Item)
    requires Possible(sha, s, trace) && ExitsEmpty(s)
    ensures var z := Last(sha, s, trace);
            Held(z.threads) + z.deleted == Held(s.threads) + s.deleted && Sum(z, i) == Sum(s, i) && ExitsEmpty(z)
    decreases |trace|
  {
    hide Enabled, Apply, Held, Sum, ExitsEmpty;
    if trace != [] {
      var (t, step) := trace[0];
      StepConserves(sha, s, t, step);
      StepKeepsSum(sha, s, t, step, i);
      StepExitsEmpty(sha, s, t, step);
      RunConserves(sha, Apply(sha, s, t, step), trace[1..], i);
    }
  }

  lemma {:induction false} ExitedHoldNothing(ths: seq<Thread>)
    requires forall t :: 0 <= t < |ths| ==> ths[t].pc.Exited? && ths[t].queue == []
    ensures Held(ths) == multiset{}
  {
    if ths != [] {
      ExitedHoldNothing(ths[..|ths| - 1]);
    }
  }

  /** A run whose threads have all exited has deleted every download exactly once. */
  lemma AllExitedAllDeleted(sha: Sha, s: State, trace: Trace)
    requires Init(s) && Possible(sha, s, trace)
    requires forall t :: 0 <= t < |Last(sha, s, trace).threads| ==> Last(sha, s, trace).threads[t].pc.Exited?
    ensures Last(sha, s, trace).deleted == Held(s.threads)
  {
    hide Possible, Last, Held;
    assert ExitsEmpty(s);
    RunConserves(sha, s, trace, Item(0, "", sha([])));
    ExitedHoldNothing(Last(sha, s, trace).threads);
    assert multiset{} + Last(sha, s, trace).deleted == Last(sha, s, trace).deleted;
  }

  // ---- the attempt bound ----

  /** The download waits in a queue, or is about to be checked. */
  ghost predicate BeforeAttempt(s: State, i: Item) {
    exists t :: 0 <= t < |s.threads| && NotStarted(s.threads[t], i)
  }

  ghost predicate NotStarted(th: Thread, i: Item) {
    i in th.queue || (th.pc.Locked? && th.pc.item == i)
  }

  lemma {:induction false} HeldAt(ths: seq<Thread>, t: nat, i: Item)
    requires t < |ths|
    ensures ThreadHeld(ths[t])[i] <= Held(ths)[i]
  {
    hide ThreadHeld;
    if t < |ths| - 1 {
      HeldAt(ths[..|ths| - 1], t, i);
    }
  }

  lemma {:induction false} HeldTwice(ths: seq<Thread>, t: nat, u: nat, i: Item)
    requires t < u < |ths|
    ensures ThreadHeld(ths[t])[i] + ThreadHeld(ths[u])[i] <= Held(ths)[i]
  {
    hide ThreadHeld;
    if u < |ths| - 1 {
      HeldTwice(ths[..|ths| - 1], t, u, i);
    } else {
      HeldAt(ths[..u], t, i);
    }
  }

  /** A download that is one object is in no other place while a thread has it in hand. */
  lemma InHandAlone(ths: seq<Thread>, t: nat, i: Item)
    requires t < |ths| && ths[t].pc.Busy() && ths[t].pc.item == i && Held(ths)[i] <= 1
    ensures i !in ths[t].queue
    ensures forall u :: 0 <= u < |ths| && u != t ==> ThreadHeld(ths[u])[i] == 0
  {
    hide Held;
    HeldAt(ths, t, i);
    HeldCounts(ths[t], i);
    assert i in ths[t].queue <==> multiset(ths[t].queue)[i] > 0;
    forall u | 0 <= u < |ths| && u != t ensures ThreadHeld(ths[u])[i] == 0 {
      if u < t {
        HeldTwice(ths, u, t, i);
      } else {
        HeldTwice(ths, t, u, i);
      }
    }
  }

  lemma NoneHeld(th: Thread, i: Item)
    requires ThreadHeld(th)[i] == 0
    ensures !NotStarted(th, i)
  {
    HeldCounts(th, i);
    assert i in th.queue <==> multiset(th.queue)[i] > 0;
  }

  /** No more than `n` attempts can be made. */
  ghost predicate Bounded(s: State, i: Item, n: nat) {
    && (Held(s.threads) + s.deleted)[i] <= 1
    && At(s.attempts, i) + At(s.tries, i) == n
    && (At(s.tries, i) > 0 || !BeforeAttempt(s, i))
  }

  /** Starting the download uses one of the tries it has, and it is nowhere else. */
  lemma StartUsesTry(sha: Sha, s: State, t: nat, i: Item)
    requires t < |s.threads| && Enabled(sha, s, t, StartFetch) && s.threads[t].pc.item == i
    requires Held(s.threads)[i] <= 1 && (At(s.tries, i) > 0 || !BeforeAttempt(s, i))
    ensures var s' := Apply(sha, s, t, StartFetch);
            At(s'.attempts, i) + At(s'.tries, i) == At(s.attempts, i) + At(s.tries, i) && !BeforeAttempt(s', i)
  {
    hide Held, ThreadHeld;
    var s' := Apply(sha, s, t, StartFetch);
    InHandAlone(s.threads, t, i);
    assert NotStarted(s.threads[t], i) && BeforeAttempt(s, i);
    forall u | 0 <= u < |s'.threads| ensures !NotStarted(s'.threads[u], i) {
      if u != t {
        NoneHeld(s.threads[u], i);
      }
    }
  }

  /** No other step touches the counters, and only a download with tries left goes back into a queue. */
  lemma OthersWait(sha: Sha, s: State, t: nat, step: Step, i: Item)
    requires t < |s.threads| && Enabled(sha, s, t, step) && !(step.StartFetch? && s.threads[t].pc.item == i)
    ensures var s' := Apply(sha, s, t, step);
            && At(s'.attempts, i) == At(s.attempts, i) && At(s'.tries, i) == At(s.tries, i)
            && (At(s.tries, i) > 0 || !BeforeAttempt(s, i) ==> At(s'.tries, i) > 0 || !BeforeAttempt(s', i))
  {
    hide Allowed;
    var s' := Apply(sha, s, t, step);
    if At(s.tries, i) == 0 && !BeforeAttempt(s, i) {
      forall u | 0 <= u < |s'.threads| ensures !NotStarted(s'.threads[u], i) {
        assert !NotStarted(s.threads[u], i);
        assert u != t ==> s'.threads[u] == s.threads[u];
      }
    }
  }

  lemma StartsOnlyWithTries(sha: Sha, s: State, t: nat, step: Step, i: Item, n: nat)
    requires t < |s.threads| && Enabled(sha, s, t, step) && Bounded(s, i, n)
    ensures Bounded(Apply(sha, s, t, step), i, n)
  {
    hide Held, Apply, BeforeAttempt, At;
    StepConserves(sha, s, t, step);
    if step.StartFetch? && s.threads[t].pc.item == i {
      StartUsesTry(sha, s, t, i);
    } else {
      OthersWait(sha, s, t, step, i);
    }
  }

  lemma {:induction false} RunBounded(sha: Sha, s: State, trace: Trace, i: Item, n: nat)
    requires Possible(sha, s, trace) && Bounded(s, i, n)
    ensures Bounded(Last(sha, s, trace), i, n)
    decreases |trace|
  {
    hide Enabled, Apply, Bounded;
    if trace != [] {
      var (t, step) := trace[0];
      StartsOnlyWithTries(sha, s, t, step, i, n);
      RunBounded(sha, Apply(sha, s, t, step), trace[1..], i, n);
    }
  }

  /** A directory with a commit file keeps it, and its downloads are never started. */
  lemma {:induction false} CommittedNeverStarts(sha: Sha, s: State, trace: Trace, i: Item)
    requires Possible(sha, s, trace) && i.dir in s.commit
    ensures At(Last(sha, s, trace).attempts, i) == At(s.attempts, i)
    decreases |trace|
  {
    if trace != [] {
      var (t, step) := trace[0];
      CommittedNeverStarts(sha, Apply(sha, s, t, step), trace[1..], i);
    }
  }

  // ---- a run that starts a download with no tries ----

  /** The thread is at the top of its loop, and no directory is locked. */
  predicate AtTop(s: State, t: nat) {
    t < |s.threads| && s.threads[t].pc.Idle? && s.threads[t].running && s.locks == {}
  }

  /** Deal with the front of the queue: it is found downloaded, or one attempt at it fails. */
  function FrontTrace(s: State, t: nat): Trace
    requires AtTop(s, t) && s.threads[t].queue != []
  {
    var j := s.threads[t].queue[0];
    if j.dir in s.commit then FoundTrace(t) + [(t, Delete)]
    else FailTrace(t) + [(t, if Allowed(At(s.tries, j)) > 1 then Requeue else Delete)]
  }

  function FoundTrace(t: nat): Trace {
    [(t, Look)] + ([(t, LockFront)] + ([(t, FoundDownloaded)] + [(t, Switch(false))]))
  }

  function FailTrace(t: nat): Trace {
    [(t, Look)] + ([(t, LockFront)] + ([(t, StartFetch)] + [(t, GiveUp)]))
  }

  /** What is left of the thread's queue, and of everything that concerns other downloads. */
  ghost predicate FrontGone(s: State, t: nat, z: State)
    requires AtTop(s, t) && s.threads[t].queue != []
  {
    var q := s.threads[t].queue;
    && AtTop(z, t) && z.commit == s.commit
    && |q| - 1 <= |z.threads[t].queue| && z.threads[t].queue[..|q| - 1] == q[1..]
    && forall i :: i != q[0] ==> At(z.tries, i) == At(s.tries, i) && At(z.attempts, i) == At(s.attempts, i)
  }

  /** The front of the queue has been popped, and `succ` is what download() says of it. */
  ghost predicate FrontFinished(s: State, t: nat, z: State, succ: bool)
    requires AtTop(s, t) && s.threads[t].queue != []
  {
    var th, j := s.threads[t], s.threads[t].queue[0];
    && t < |z.threads| && z.threads[t] == th.(queue := th.queue[1..], pc := Finished(j, succ))
    && z.locks == {j.dir} && z.commit == s.commit
    && (!succ ==> At(z.tries, j) == Allowed(At(s.tries, j)) - 1)
    && forall i :: i != j ==> At(z.tries, i) == At(s.tries, i) && At(z.attempts, i) == At(s.attempts, i)
  }

  lemma Finds(sha: Sha, s: State, t: nat)
    requires AtTop(s, t) && s.threads[t].queue != [] && s.threads[t].queue[0].dir in s.commit
    ensures Possible(sha, s, FoundTrace(t)) && FrontFinished(s, t, Last(sha, s, FoundTrace(t)), true)
  {
    hide Possible, Last, Allowed;
    var s1 := Apply(sha, s, t, Look);
    var s2 := Apply(sha, s1, t, LockFront);
    var s3 := Apply(sha, s2, t, FoundDownloaded);
    OneStep(sha, s3, (t, Switch(false)));
    Cons(sha, s2, (t, FoundDownloaded), [(t, Switch(false))]);
    Cons(sha, s1, (t, LockFront), [(t, FoundDownloaded)] + [(t, Switch(false))]);
    Cons(sha, s, (t, Look), [(t, LockFront)] + ([(t, FoundDownloaded)] + [(t, Switch(false))]));
  }

  lemma Fails(sha: Sha, s: State, t: nat)
    requires AtTop(s, t) && s.threads[t].queue != [] && s.threads[t].queue[0].dir !in s.commit
    ensures Possible(sha, s, FailTrace(t)) && FrontFinished(s, t, Last(sha, s, FailTrace(t)), false)
  {
    hide Possible, Last, Allowed;
    var s1 := Apply(sha, s, t, Look);
    var s2 := Apply(sha, s1, t, LockFront);
    var s3 := Apply(sha, s2, t, StartFetch);
    OneStep(sha, s3, (t, GiveUp));
    Cons(sha, s2, (t, StartFetch), [(t, GiveUp)]);
    Cons(sha, s1, (t, LockFront), [(t, StartFetch)] + [(t, GiveUp)]);
    Cons(sha, s, (t, Look), [(t, LockFront)] + ([(t, StartFetch)] + [(t, GiveUp)]));
  }

  lemma Retires(sha: Sha, s: State, t: nat, s4: State, succ: bool)
    requires AtTop(s, t) && s.threads[t].queue != [] && FrontFinished(s, t, s4, succ)
    ensures var step := if !succ && Allowed(At(s.tries, s.threads[t].queue[0])) > 1 then Requeue else Delete;
            Enabled(sha, s4, t, step) && FrontGone(s, t, Apply(sha, s4, t, step))
  {
    hide Allowed, At;
  }

  lemma FrontDealtWith(sha: Sha, s: State, t: nat)
    requires AtTop(s, t) && s.threads[t].queue != []
    ensures Possible(sha, s, FrontTrace(s, t)) && FrontGone(s, t, Last(sha, s, FrontTrace(s, t)))
  {
    hide Possible, Last, Allowed, Enabled, Apply, FrontFinished, FrontGone, FoundTrace, FailTrace;
    var found := s.threads[t].queue[0].dir in s.commit;
    var start := if found then FoundTrace(t) else FailTrace(t);
    if found {
      Finds(sha, s, t);
    } else {
      Fails(sha, s, t);
    }
    var s4 := Last(sha, s, start);
    Retires(sha, s, t, s4, found);
    var step := if !found && Allowed(At(s.tries, s.threads[t].queue[0])) > 1 then Requeue else Delete;
    LastThread(sha, s, t, s4, step);
    OneStep(sha, s4, (t, step));
    Joined(sha, s, start, [(t, step)]);
  }

  lemma LastThread(sha: Sha, s: State, t: nat, s4: State, step: Step)
    requires AtTop(s, t) && s.threads[t].queue != []
    requires FrontFinished(s, t, s4, true) || FrontFinished(s, t, s4, false)
    ensures t < |s4.threads|
  {
  }

  /** A download with no tries whose first attempt fails wraps its counter, and is queued for 2^32 - 1 more. */
  lemma ZeroTriesWrap(sha: Sha, s: State, t: nat)
    requires AtTop(s, t) && s.threads[t].queue != []
    requires s.threads[t].queue[0].dir !in s.commit && At(s.tries, s.threads[t].queue[0]) == 0
    ensures Possible(sha, s, FrontTrace(s, t))
    ensures var z, q := Last(sha, s, FrontTrace(s, t)), s.threads[t].queue;
            && t < |z.threads| && z.threads[t].queue == q[1..] + [q[0]]
            && At(z.tries, q[0]) == UINT32_MAX
  {
    hide Possible, Last, FailTrace;
    Fails(sha, s, t);
    var s4 := Last(sha, s, FailTrace(t));
    OneStep(sha, s4, (t, Requeue));
    Joined(sha, s, FailTrace(t), [(t, Requeue)]);
  }

  /** Starting a download wherever it stands in the queue of a thread. */
  lemma {:induction false} CanStart(sha: Sha, s: State, t: nat, k: nat) returns (trace: Trace)
    requires AtTop(s, t) && k < |s.threads[t].queue|
    requires var i := s.threads[t].queue[k]; i !in s.threads[t].queue[..k] && i.dir !in s.commit
    ensures var i := s.threads[t].queue[k];
            Possible(sha, s, trace) && At(Last(sha, s, trace).attempts, i) == At(s.attempts, i) + 1
    decreases k
  {
    hide Possible, Last, Apply, Enabled, FrontTrace;
    var q := s.threads[t].queue;
    if k == 0 {
      trace := StartFront(sha, s, t);
    } else {
      FrontDealtWith(sha, s, t);
      var z := Last(sha, s, FrontTrace(s, t));
      var r := z.threads[t].queue;
      assert r[k - 1] == r[..|q| - 1][k - 1] == q[k];
      assert r[..k - 1] == r[..|q| - 1][..k - 1] == q[1..][..k - 1] == q[..k][1..];
      assert q[0] == q[..k][0];
      var rest := CanStart(sha, z, t, k - 1);
      Joined(sha, s, FrontTrace(s, t), rest);
      trace := FrontTrace(s, t) + rest;
    }
  }

  lemma StartFront(sha: Sha, s: State, t: nat) returns (trace: Trace)
    requires AtTop(s, t) && s.threads[t].queue != [] && s.threads[t].queue[0].dir !in s.commit
    ensures var i := s.threads[t].queue[0];
            Possible(sha, s, trace) && At(Last(sha, s, trace).attempts, i) == At(s.attempts, i) + 1
  {
    hide Possible, Last;
    var s1 := Apply(sha, s, t, Look);
    var s2 := Apply(sha, s1, t, LockFront);
    var s3 := Apply(sha, s2, t, StartFetch);
    OneStep(sha, s2, (t, StartFetch));
    Cons(sha, s1, (t, LockFront), [(t, StartFetch)]);
    Cons(sha, s, (t, Look), [(t, LockFront)] + [(t, StartFetch)]);
    trace := [(t, Look)] + ([(t, LockFront)] + [(t, StartFetch)]);
  }

  lemma InQueueOnce(ths: seq<Thread>, t: nat, k: nat)
    requires t < |ths| && k < |ths[t].queue| && Held(ths)[ths[t].queue[k]] == 1
    ensures ths[t].queue[k] !in ths[t].queue[..k]
  {
    hide Held;
    var q := ths[t].queue;
    HeldAt(ths, t, q[k]);
    assert q == q[..k] + q[k..];
    assert q[k] == q[k..][0];
    assert multiset(q)[q[k]] == multiset(q[..k])[q[k]] + multiset(q[k..])[q[k]];
    assert multiset(q[k..])[q[k]] > 0;
  }

  /** A queued download never starts more often than its tries, in any run, exactly when it has tries to begin with,
      or its commit file is there already. */
  lemma AttemptBoundIff(sha: Sha, s: State, t: nat, k: nat)
    requires Init(s) && t < |s.threads| && k < |s.threads[t].queue|
    requires var i := s.threads[t].queue[k]; Held(s.threads)[i] == 1 && At(s.attempts, i) == 0
    ensures var i := s.threads[t].queue[k];
            (forall trace: Trace :: Possible(sha, s, trace) ==> At(Last(sha, s, trace).attempts, i) <= At(s.tries, i))
            <==> At(s.tries, i) > 0 || i.dir in s.commit
  {
    hide Possible, Last, Held;
    var i := s.threads[t].queue[k];
    if At(s.tries, i) > 0 || i.dir in s.commit {
      forall trace: Trace | Possible(sha, s, trace)
        ensures At(Last(sha, s, trace).attempts, i) <= At(s.tries, i)
      {
        if i.dir in s.commit {
          CommittedNeverStarts(sha, s, trace, i);
        } else {
          RunBounded(sha, s, trace, i, At(s.tries, i));
        }
      }
    } else {
      InQueueOnce(s.threads, t, k);
      var trace := CanStart(sha, s, t, k);
      assert Possible(sha, s, trace) && At(Last(sha, s, trace).attempts, i) == 1;
    }
  }
}
