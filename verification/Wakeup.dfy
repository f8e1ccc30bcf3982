/** Command handlers that share one pending counter, so that one of them tells the kernel for all.
    Handlers switch only where they wait for I/O or yield. */
module Wakeup {

  datatype Handler =
    | Working    // carrying out its command
    | Waking     // in the loop, at the yield
    | Done

  datatype Event = Complete(t: nat) | Process

  datatype State = State(
    handlers: seq<Handler>,
    pending: nat,          // aio_pending_wakeups
    inflight: int,
    log: seq<Event>)       // tcmulib_command_complete and tcmulib_processing_complete calls

  datatype Step = Accept | Finish(t: nat) | Resume(t: nat)

  predicate Enabled(s: State, step: Step) {
    match step
    case Accept => true
    case Finish(t) => t < |s.handlers| && s.handlers[t].Working?
    case Resume(t) => t < |s.handlers| && s.handlers[t].Waking?
  }

  function Apply(s: State, step: Step): State
    requires Enabled(s, step)
  {
    match step
    case Accept => s.(handlers := s.handlers + [Working], inflight := s.inflight + 1)
    case Finish(t) =>
      var pending := s.pending + 1;
      if pending == 1 then
        s.(handlers := s.handlers[t := Waking], pending := pending, log := s.log + [Complete(t), Process])
      else
        s.(handlers := s.handlers[t := Done], pending := pending, inflight := s.inflight - 1, log := s.log + [Complete(t)])
    case Resume(t) =>
      if s.pending > 1 then s.(pending := 1, log := s.log + [Process])
      else s.(handlers := s.handlers[t := Done], pending := 0, inflight := s.inflight - 1)
  }

  predicate Init(s: State) {
    s == State([], 0, 0, [])
  }

  function Count(hs: seq<Handler>, h: Handler): nat {
    if hs == [] then 0 else (if hs[0] == h then 1 else 0) + Count(hs[1..], h)
  }

  /** Completions at the end of the log, not yet followed by a Process. */
  function Unprocessed(log: seq<Event>): nat {
    if log == [] || log[|log| - 1].Process? then 0 else 1 + Unprocessed(log[..|log| - 1])
  }

  ghost predicate Inv(s: State) {
    && Count(s.handlers, Waking) <= 1
    && (s.pending == 0 <==> Count(s.handlers, Waking) == 0)
    && Unprocessed(s.log) == (if s.pending == 0 then 0 else s.pending - 1)
    && s.inflight == Count(s.handlers, Working) + Count(s.handlers, Waking)
    && NoIdleProcess(s.log)
  }

  /** Every Process comes right after a Complete. */
  ghost predicate NoIdleProcess(log: seq<Event>) {
    forall i :: 0 <= i < |log| && log[i] == Process ==> i > 0 && log[i - 1].Complete?
  }

  lemma {:induction false} CountUpdate(hs: seq<Handler>, t: nat, h': Handler, h: Handler)
    requires t < |hs|
    ensures Count(hs[t := h'], h) + (if hs[t] == h then 1 else 0) == Count(hs, h) + if h' == h then 1 else 0
  {
    if t > 0 {
      CountUpdate(hs[1..], t - 1, h', h);
      assert hs[t := h'][1..] == hs[1..][t - 1 := h'];
    }
  }

  lemma {:induction false} CountAppend(hs: seq<Handler>, h': Handler, h: Handler)
    ensures Count(hs + [h'], h) == Count(hs, h) + if h' == h then 1 else 0
  {
    if hs == [] {
      assert (hs + [h'])[1..] == [];
    } else {
      CountAppend(hs[1..], h', h);
      assert (hs + [h'])[1..] == hs[1..] + [h'];
    }
  }

  lemma {:induction false} NoneIsAbsent(hs: seq<Handler>, h: Handler)
    ensures Count(hs, h) == 0 <==> forall t :: 0 <= t < |hs| ==> hs[t] != h
  {
    if hs != [] {
      NoneIsAbsent(hs[1..], h);
      assert (forall t :: 0 <= t < |hs| ==> hs[t] != h) <==> hs[0] != h && forall t :: 0 <= t < |hs[1..]| ==> hs[1..][t] != h by {
        assert forall t :: 0 < t < |hs| ==> hs[t] == hs[1..][t - 1];
      }
    }
  }

  lemma UnprocessedNext(log: seq<Event>, t: nat)
    ensures Unprocessed(log + [Process]) == 0
    ensures Unprocessed(log + [Complete(t)]) == Unprocessed(log) + 1
    ensures Unprocessed(log + [Complete(t), Process]) == 0
  {
    assert (log + [Complete(t)])[..|log|] == log;
  }

  lemma InvKept(s: State, step: Step)
    requires Inv(s) && Enabled(s, step)
    ensures Inv(Apply(s, step))
  {
    hide Count, Unprocessed;
    UnprocessedNext(s.log, if step.Finish? then step.t else 0);
    match step {
      case Accept =>
        CountAppend(s.handlers, Working, Working);
        CountAppend(s.handlers, Working, Waking);
      case Finish(t) =>
        CountUpdate(s.handlers, t, Waking, Working);
        CountUpdate(s.handlers, t, Waking, Waking);
        CountUpdate(s.handlers, t, Done, Working);
        CountUpdate(s.handlers, t, Done, Waking);
      case Resume(t) =>
        CountUpdate(s.handlers, t, Done, Working);
        CountUpdate(s.handlers, t, Done, Waking);
        if s.pending > 1 {
          LastIsComplete(s.log);
        } else {
          NoneIsAbsent(s.handlers, Waking);
        }
    }
  }

  lemma LastIsComplete(log: seq<Event>)
    requires Unprocessed(log) > 0
    ensures log != [] && log[|log| - 1].Complete?
  {
  }

  // ---- runs ----

  predicate Possible(s: State, run: seq<Step>)
    decreases |run|
  {
    run == [] || (Enabled(s, run[0]) && Possible(Apply(s, run[0]), run[1..]))
  }

  function Last(s: State, run: seq<Step>): State
    requires Possible(s, run)
    decreases |run|
  {
    if run == [] then s else Last(Apply(s, run[0]), run[1..])
  }

  lemma {:induction false} RunKeepsInv(s: State, run: seq<Step>)
    requires Inv(s) && Possible(s, run)
    ensures Inv(Last(s, run))
    decreases |run|
  {
    hide Inv, Enabled, Apply;
    if run != [] {
      InvKept(s, run[0]);
      RunKeepsInv(Apply(s, run[0]), run[1..]);
    }
  }

  predicate Quiescent(s: State) {
    forall t :: 0 <= t < |s.handlers| ==> s.handlers[t].Done?
  }

  /** The completion at `i` has been followed by a Process. */
  ghost predicate Followed(log: seq<Event>, i: nat) {
    exists j :: i < j < |log| && log[j] == Process
  }

  lemma {:induction false} OnlyTailUnprocessed(log: seq<Event>, i: nat)
    requires i < |log| && log[i].Complete?
    ensures Followed(log, i) <==> i < |log| - Unprocessed(log)
    decreases |log|
  {
    var n := |log| - 1;
    if log[n] != Process && i < n {
      OnlyTailUnprocessed(log[..n], i);
      assert Followed(log[..n], i) ==> Followed(log, i) by {
        if Followed(log[..n], i) {
          var j :| i < j < n && log[..n][j] == Process;
          assert log[j] == Process;
        }
      }
      assert Followed(log, i) ==> Followed(log[..n], i) by {
        if Followed(log, i) {
          var j :| i < j < |log| && log[j] == Process;
          assert log[..n][j] == Process;
        }
      }
    }
  }

  ghost predicate OneWaker(hs: seq<Handler>) {
    forall t, u :: 0 <= t < |hs| && 0 <= u < |hs| && hs[t] == hs[u] == Waking ==> t == u
  }

  ghost predicate NoWaker(hs: seq<Handler>) {
    forall t :: 0 <= t < |hs| ==> hs[t] != Waking
  }

  lemma CountTwo(hs: seq<Handler>, t: nat, u: nat)
    requires t < |hs| && u < |hs| && t != u && hs[t] == hs[u] == Waking
    ensures Count(hs, Waking) >= 2
  {
    CountUpdate(hs, t, Done, Waking);
    NoneIsAbsent(hs[t := Done], Waking);
    assert hs[t := Done][u] == Waking;
  }

  lemma AtMostOneWaker(hs: seq<Handler>)
    requires Count(hs, Waking) <= 1
    ensures OneWaker(hs)
  {
    hide Count;
    forall t, u | 0 <= t < |hs| && 0 <= u < |hs| && t != u && hs[t] == hs[u] == Waking
      ensures Count(hs, Waking) >= 2
    {
      CountTwo(hs, t, u);
    }
  }

  /** How much of the log has been reported: all but one completion for each wake-up after the first. */
  function Reported(s: State): int {
    |s.log| - if s.pending == 0 then 0 else s.pending - 1
  }

  lemma InvReports(s: State)
    requires Inv(s)
    ensures forall i :: 0 <= i < |s.log| && s.log[i].Complete? ==> (Followed(s.log, i) <==> i < Reported(s))
  {
    hide Count, Unprocessed, Followed;
    forall i | 0 <= i < |s.log| && s.log[i].Complete? ensures Followed(s.log, i) <==> i < Reported(s) {
      OnlyTailUnprocessed(s.log, i);
    }
  }

  lemma StartInv(s: State)
    requires Init(s)
    ensures Inv(s)
  {
  }

  /** In every run: one waker at most, there as long as wake-ups are pending; every Process has something new
      to report; and the pending counter says exactly which completions the waker has yet to report. */
  lemma RunCoalesces(s: State, run: seq<Step>)
    requires Init(s) && Possible(s, run)
    ensures var z := Last(s, run);
            && OneWaker(z.handlers) && (z.pending == 0 <==> NoWaker(z.handlers))
            && NoIdleProcess(z.log)
            && (forall i :: 0 <= i < |z.log| && z.log[i].Complete? ==> (Followed(z.log, i) <==> i < Reported(z)))
  {
    hide Count, Unprocessed, Followed, Init, Possible, Last, NoIdleProcess, Reported;
    StartInv(s);
    RunKeepsInv(s, run);
    var z := Last(s, run);
    AtMostOneWaker(z.handlers);
    NoneIsAbsent(z.handlers, Waking);
    InvReports(z);
  }

  /** Once every handler is done, nothing is pending or in flight, and every completion has been reported. */
  lemma QuiescentIsClean(s: State, run: seq<Step>)
    requires Init(s) && Possible(s, run) && Quiescent(Last(s, run))
    ensures var z := Last(s, run);
            && z.pending == 0 && z.inflight == 0
            && forall i :: 0 <= i < |z.log| && z.log[i].Complete? ==> Followed(z.log, i)
  {
    hide Count, Unprocessed, Followed, Init, Possible, Last, NoIdleProcess;
    StartInv(s);
    RunKeepsInv(s, run);
    var z := Last(s, run);
    NoneIsAbsent(z.handlers, Waking);
    NoneIsAbsent(z.handlers, Working);
    InvReports(z);
  }

  // ---- no command is dropped ----

  /** The commands a run accepts. */
  function Accepts(run: seq<Step>): nat {
    if run == [] then 0 else (if run[0].Accept? then 1 else 0) + Accepts(run[1..])
  }

  /** How often handler `t` has completed its command. */
  function Completes(log: seq<Event>, t: nat): nat {
    if log == [] then 0
    else Completes(log[..|log| - 1], t) + if log[|log| - 1] == Complete(t) then 1 else 0
  }

  /** Every handler has completed its command once, unless it is still at work; and there are no other completions. */
  ghost predicate OneEach(s: State) {
    forall t: nat :: Completes(s.log, t) == if t < |s.handlers| && !s.handlers[t].Working? then 1 else 0
  }

  lemma CompletesNext(log: seq<Event>, t: nat, u: nat)
    ensures Completes(log + [Process], u) == Completes(log, u)
    ensures Completes(log + [Complete(t)], u) == Completes(log, u) + if t == u then 1 else 0
    ensures Completes(log + [Complete(t), Process], u) == Completes(log, u) + if t == u then 1 else 0
  {
    assert (log + [Process])[..|log|] == log && (log + [Complete(t)])[..|log|] == log;
    assert (log + [Complete(t), Process])[..|log| + 1] == log + [Complete(t)];
  }

  lemma OneEachKept(s: State, step: Step)
    requires OneEach(s) && Enabled(s, step)
    ensures OneEach(Apply(s, step))
  {
    hide Completes;
    var s' := Apply(s, step);
    forall u: nat ensures Completes(s'.log, u) == if u < |s'.handlers| && !s'.handlers[u].Working? then 1 else 0 {
      CompletesNext(s.log, if step.Finish? then step.t else 0, u);
    }
  }

  lemma {:induction false} RunOneEach(s: State, run: seq<Step>)
    requires OneEach(s) && Possible(s, run)
    ensures OneEach(Last(s, run)) && |Last(s, run).handlers| == |s.handlers| + Accepts(run)
    decreases |run|
  {
    hide OneEach;
    if run != [] {
      OneEachKept(s, run[0]);
      RunOneEach(Apply(s, run[0]), run[1..]);
    }
  }

  lemma {:induction false} CountAll(hs: seq<Handler>)
    ensures Count(hs, Working) + Count(hs, Waking) + Count(hs, Done) == |hs|
  {
    if hs != [] {
      CountAll(hs[1..]);
    }
  }

  lemma {:induction false} CompletedSomewhere(log: seq<Event>, t: nat) returns (i: nat)
    requires Completes(log, t) > 0
    ensures i < |log| && log[i] == Complete(t)
    decreases |log|
  {
    i := |log| - 1;
    if log[i] != Complete(t) {
      i := CompletedSomewhere(log[..i], t);
    }
  }

  lemma StartOneEach(s: State)
    requires Init(s)
    ensures OneEach(s) && s.handlers == []
  {
  }

  /** In every run: one handler for each accepted command, which has completed it once unless it is still at work;
      and what is in flight is what was accepted and is not done. */
  lemma CommandsAccounted(s: State, run: seq<Step>)
    requires Init(s) && Possible(s, run)
    ensures var z := Last(s, run);
            && |z.handlers| == Accepts(run)
            && z.inflight == Accepts(run) - Count(z.handlers, Done) && OneEach(z)
  {
    hide Possible, Last, Accepts, Count, Completes, Unprocessed, NoIdleProcess, OneEach, Init;
    StartInv(s);
    StartOneEach(s);
    RunKeepsInv(s, run);
    RunOneEach(s, run);
    CountAll(Last(s, run).handlers);
  }

  /** Once every handler is done, every accepted command has been completed exactly once, and reported after that. */
  lemma EveryCommandReported(s: State, run: seq<Step>, t: nat)
    requires Init(s) && Possible(s, run) && Quiescent(Last(s, run)) && t < Accepts(run)
    ensures var log := Last(s, run).log;
            Completes(log, t) == 1 && exists i :: 0 <= i < |log| && log[i] == Complete(t) && Followed(log, i)
  {
    hide Possible, Last, Accepts, Followed, Completes, Init;
    CommandsAccounted(s, run);
    QuiescentIsClean(s, run);
    var i := CompletedSomewhere(Last(s, run).log, t);
  }

  // ---- the handlers finish ----

  function Left(s: State): nat {
    3 * Count(s.handlers, Working) + Count(s.handlers, Waking) + s.pending
  }

  lemma LeftShrinks(s: State, step: Step)
    requires Inv(s) && Enabled(s, step) && !step.Accept?
    ensures Left(Apply(s, step)) < Left(s)
  {
    hide Count, Unprocessed;
    InvKept(s, step);
    var t := step.t;
    CountUpdate(s.handlers, t, Waking, Working);
    CountUpdate(s.handlers, t, Waking, Waking);
    CountUpdate(s.handlers, t, Done, Working);
    CountUpdate(s.handlers, t, Done, Waking);
    NoneIsAbsent(s.handlers, Waking);
  }

  predicate NoAccept(run: seq<Step>) {
    forall i :: 0 <= i < |run| ==> !run[i].Accept?
  }

  /** With no new commands, a run ends within a bound, and until all are done some handler can go on. */
  lemma {:induction false} HandlersFinish(s: State, run: seq<Step>)
    requires Inv(s) && Possible(s, run) && NoAccept(run)
    ensures |run| <= Left(s)
    ensures !Quiescent(Last(s, run)) ==> exists step: Step :: !step.Accept? && Enabled(Last(s, run), step)
    decreases |run|
  {
    if run == [] {
      if !Quiescent(s) {
        var t :| 0 <= t < |s.handlers| && !s.handlers[t].Done?;
        assert Enabled(s, Finish(t)) || Enabled(s, Resume(t));
      }
    } else {
      hide Enabled, Apply, Left, Quiescent, Inv;
      InvKept(s, run[0]);
      LeftShrinks(s, run[0]);
      assert NoAccept(run[1..]);
      HandlersFinish(Apply(s, run[0]), run[1..]);
    }
  }
}
