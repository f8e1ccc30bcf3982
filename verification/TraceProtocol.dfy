/** The handshake around a recorded trace: recorder, lock watcher, destructor and external collector,
    interleaved at every system call and at every byte the dump writes. */
module TraceProtocol {
  import opened Basics
  import opened TraceFormat
  import opened TraceFile

  /** Where a call of dump() is. */
  datatype DumpPc =
    | Outside
    | Check              // is the trace file still open?
    | Writing(k: nat)    // k bytes of the dump are in the file
    | Emptying           // a write failed
    | Unlinking          // the lock file
    | MakingOk
    | Closing

  datatype Watcher = Loop | Sleeping | Probing | WatcherDump(pc: DumpPc) | WatcherDone

  datatype Destructor = NotCalled | Joining | DestructorDump(pc: DumpPc) | Destroyed

  datatype Collector = Ready | Polling(elapsed: nat) | Checking(elapsed: nat) | Leaving(found: bool) | Left(found: bool)
  {
    predicate SawOk() {
      (Leaving? || Left?) && found
    }
  }

  datatype Who = ByWatcher | ByDestructor

  datatype State = State(
    accepted: seq<Record>,
    stopped: bool,
    open: bool,              // m_trace_file is not null
    dumps: nat,              // calls of dump() that found it open
    watcher: Watcher,
    destructor: Destructor,
    alive: bool,             // the recording process
    data: seq<Byte>,
    lock: bool,
    ok: bool,
    collector: Collector,
    patience: nat)           // maxCollectTraceTime, in seconds: the command refuses 0
  {
    function Pc(w: Who): DumpPc {
      match w
      case ByWatcher => if watcher.WatcherDump? then watcher.pc else Outside
      case ByDestructor => if destructor.DestructorDump? then destructor.pc else Outside
    }

    /** Move the dump on; returning from it ends its caller. */
    function WithPc(w: Who, pc: DumpPc): State {
      match w
      case ByWatcher => this.(watcher := if pc.Outside? then WatcherDone else WatcherDump(pc))
      case ByDestructor => this.(destructor := if pc.Outside? then Destroyed else DestructorDump(pc))
    }
  }

  datatype Step =
    | Accept(r: Record)
    | WatchCheck
    | WatchSlept(interrupted: bool)
    | WatchProbe
    | Destroy
    | Join
    | BeginDump(w: Who)
    | WriteByte(w: Who)
    | WriteFails(w: Who)
    | Empty(w: Who, works: bool)
    | UnlinkLock(w: Who, works: bool)
    | MakeOk(w: Who, works: bool)
    | Close(w: Who)
    | Kill
    | CollectorStart(works: bool)
    | CollectorSleep
    | CollectorStat
    | CollectorCancelled
    | CollectorReturn(works: bool)

  /** Where the `k`-th byte of the dump goes: the header is written again at the end. */
  function Offset(recs: seq<Record>, k: nat): nat {
    if k < HEADER_SIZE + RECORD_SIZE * |recs| then k else k - (HEADER_SIZE + RECORD_SIZE * |recs|)
  }

  /** The `k`-th byte of the dump. */
  function StreamByte(crc: Crc, recs: seq<Record>, k: nat): Byte
    requires Fits(recs) && k < DumpSize(recs)
  {
    if k < HEADER_SIZE + RECORD_SIZE * |recs| then FileWith(recs, 0)[k]
    else EncodeHeader(Header(TRACE_MAGIC, RECORD_SIZE * |recs|, Sum(crc, recs)))[k - (HEADER_SIZE + RECORD_SIZE * |recs|)]
  }

  predicate Enabled(s: State, step: Step) {
    match step
    case Accept(r) => s.alive && !s.destructor.Destroyed? && Fits(s.accepted + [r])
    case WatchCheck => s.alive && s.watcher.Loop?
    case WatchSlept(_) => s.alive && s.watcher.Sleeping?
    case WatchProbe => s.alive && s.watcher.Probing?
    case Destroy => s.alive && s.destructor.NotCalled?
    case Join => s.alive && s.destructor.Joining? && s.watcher.WatcherDone?
    case BeginDump(w) => s.alive && s.Pc(w).Check?
    case WriteByte(w) =>
      s.alive && s.Pc(w).Writing? && Fits(s.accepted) && s.Pc(w).k < DumpSize(s.accepted)
      && Offset(s.accepted, s.Pc(w).k) <= |s.data|
    case WriteFails(w) => s.alive && s.Pc(w).Writing? && s.Pc(w).k < DumpSize(s.accepted)
    case Empty(w, _) => s.alive && s.Pc(w).Emptying?
    case UnlinkLock(w, _) => s.alive && s.Pc(w).Unlinking?
    case MakeOk(w, _) => s.alive && s.Pc(w).MakingOk?
    case Close(w) => s.alive && s.Pc(w).Closing?
    case Kill => s.alive
    case CollectorStart(_) => s.collector.Ready? || s.collector.Left?
    case CollectorSleep => s.collector.Polling?
    case CollectorStat => s.collector.Checking?
    case CollectorCancelled => s.collector.Polling?
    case CollectorReturn(_) => s.collector.Leaving?
  }

  function Apply(crc: Crc, s: State, step: Step): State
    requires Enabled(s, step)
  {
    match step
    case Accept(r) => if s.stopped then s else s.(accepted := s.accepted + [r])
    case WatchCheck => s.(watcher := if s.stopped then WatcherDone else Sleeping)
    case WatchSlept(interrupted) => s.(watcher := if interrupted then WatcherDone else Probing)
    case WatchProbe => if s.lock then s.(watcher := Loop) else s.(stopped := true, watcher := WatcherDump(Check))
    case Destroy => s.(stopped := true, destructor := Joining)
    case Join => s.(destructor := DestructorDump(Check))
    case BeginDump(w) =>
      // access() on the OK file, then unlink() only if there was none: nothing changes
      if !s.open then s.WithPc(w, Outside) else s.WithPc(w, Writing(0)).(dumps := s.dumps + 1)
    case WriteByte(w) =>
      var k := s.Pc(w).k;
      s.WithPc(w, if k + 1 == DumpSize(s.accepted) then Unlinking else Writing(k + 1))
       .(data := Overwrite(s.data, Offset(s.accepted, k), [StreamByte(crc, s.accepted, k)]))
    case WriteFails(w) => s.WithPc(w, Emptying)
    case Empty(w, works) => s.WithPc(w, Closing).(data := if works then [] else s.data)
    case UnlinkLock(w, works) => s.WithPc(w, MakingOk).(lock := s.lock && !works)
    case MakeOk(w, works) => s.WithPc(w, Closing).(ok := s.ok || works)
    case Close(w) => s.WithPc(w, Outside).(open := false)
    case Kill => s.(alive := false)
    case CollectorStart(works) => if works then s.(lock := false, collector := Polling(0)) else s.(collector := Left(false))
    case CollectorSleep =>
      var e := s.collector.elapsed;
      s.(collector := if e < s.patience then Checking(e + 1) else Leaving(false))
    case CollectorStat => s.(collector := if s.ok then Leaving(true) else Polling(s.collector.elapsed))
    case CollectorCancelled => s.(collector := Leaving(false))
    case CollectorReturn(works) => s.(ok := s.ok && !works, collector := Left(s.collector.found))
  }

  /** A process has just opened an empty trace file to record into; an OK file may be about. */
  predicate Started(s: State) {
    && s.accepted == [] && !s.stopped && s.open && s.dumps == 0 && s.alive && s.data == []
    && s.watcher.Loop? && s.destructor.NotCalled? && s.collector.Ready? && s.patience > 0
  }

  // ---- the invariant ----

  predicate Full(crc: Crc, s: State)
    requires Fits(s.accepted)
  {
    s.data == CutFile(crc, s.accepted, DumpSize(s.accepted))
  }

  predicate Published(s: State) {
    s.ok || s.collector.SawOk()
  }

  /** What a dump in progress knows of the file and the handshake. */
  ghost predicate DumpInv(crc: Crc, s: State, pc: DumpPc)
    requires Fits(s.accepted)
  {
    match pc
    case Outside => true
    case Check => true
    case Writing(k) => k < DumpSize(s.accepted) && s.data == CutFile(crc, s.accepted, k) && !Published(s)
    case Emptying => IsCut(crc, s.accepted, s.data) && !Published(s)
    case Unlinking => Full(crc, s) && !Published(s)
    case MakingOk => Full(crc, s) && !Published(s)
    case Closing => IsCut(crc, s.accepted, s.data)
  }

  predicate Active(pc: DumpPc) {
    !pc.Outside? && !pc.Check?
  }

  ghost predicate Inv(crc: Crc, s: State) {
    && Fits(s.accepted)
    && (s.destructor.DestructorDump? || s.destructor.Destroyed? ==> s.watcher.WatcherDone?)
    && (s.watcher.WatcherDump? || !s.destructor.NotCalled? || !s.open || s.dumps > 0 ==> s.stopped)
    && (Active(s.Pc(ByWatcher)) || Active(s.Pc(ByDestructor)) ==> s.open)
    && s.dumps == (if !s.open || Active(s.Pc(ByWatcher)) || Active(s.Pc(ByDestructor)) then 1 else 0)
    && (s.dumps == 0 ==> s.data == [] && !Published(s))
    && IsCut(crc, s.accepted, s.data)
    && DumpInv(crc, s, s.Pc(ByWatcher)) && DumpInv(crc, s, s.Pc(ByDestructor))
    && (Published(s) ==> Full(crc, s))
  }

  /** Dumped at most once; the file reloads to all the accepted records or none; a collector that saw the
      OK file has a trace that reloads to all of them, and no more will be accepted. */
  predicate Safe(crc: Crc, s: State) {
    && s.dumps <= 1
    && (Reload(crc, s.data) == [] || Reload(crc, s.data) == s.accepted)
    && Truthful(crc, s)
  }

  predicate Truthful(crc: Crc, s: State) {
    s.collector.SawOk() ==> s.stopped && Reload(crc, s.data) == s.accepted
  }

  /** One more byte of the dump. */
  lemma OneMoreByte(crc: Crc, recs: seq<Record>, k: nat)
    requires Fits(recs) && k < DumpSize(recs)
    ensures var f := CutFile(crc, recs, k);
            && Offset(recs, k) <= |f|
            && CutFile(crc, recs, k + 1) == Overwrite(f, Offset(recs, k), [StreamByte(crc, recs, k)])
  {
    hide EncodeHeader, Body, Sum, Overwrite;
    var first, final := FileWith(recs, 0), FileWith(recs, Sum(crc, recs));
    if k < |first| {
      OneAppended(first, k);
    } else {
      hide CutFile;
      var j := k - |first|;
      LateCut(crc, recs, j);
      LateCut(crc, recs, j + 1);
      OneReplaced(first, final, j);
    }
  }

  lemma OneAppended(first: seq<Byte>, k: nat)
    requires k < |first|
    ensures first[..k + 1] == Overwrite(first[..k], k, [first[k]])
  {
  }

  lemma OneReplaced(first: seq<Byte>, final: seq<Byte>, j: nat)
    requires |first| == |final| && j < |first|
    ensures Overwrite(final[..j] + first[j..], j, [final[j]]) == final[..j + 1] + first[j + 1..]
  {
  }

  lemma StartedInv(crc: Crc, s: State)
    requires Started(s) && !s.ok
    ensures Inv(crc, s)
  {
    EmptyIsCut(crc, s.accepted);
  }

  lemma InvKept(crc: Crc, s: State, step: Step)
    requires Inv(crc, s) && Enabled(s, step)
    ensures Inv(crc, Apply(crc, s, step))
  {
    hide CutFile, Overwrite, Offset, StreamByte, Fits, DumpSize;
    match step {
      case Accept(r) =>
        EmptyIsCut(crc, s.accepted + [r]);
      case BeginDump(w) =>
        NothingWritten(crc, s.accepted);
      case WriteByte(w) =>
        WriteKept(crc, s, w);
      case Empty(w, works) =>
        EmptyIsCut(crc, s.accepted);
      case _ =>
    }
  }

  lemma NothingWritten(crc: Crc, recs: seq<Record>)
    requires Fits(recs)
    ensures 0 < DumpSize(recs) && CutFile(crc, recs, 0) == []
  {
  }

  lemma WriteKept(crc: Crc, s: State, w: Who)
    requires Inv(crc, s) && Enabled(s, WriteByte(w))
    ensures Inv(crc, Apply(crc, s, WriteByte(w)))
  {
    hide CutFile, Overwrite, Offset, StreamByte;
    var k := s.Pc(w).k;
    OneMoreByte(crc, s.accepted, k);
    CutIs(crc, s.accepted, k + 1, Apply(crc, s, WriteByte(w)).data);
  }

  lemma InvIsSafe(crc: Crc, s: State)
    requires Inv(crc, s)
    ensures Safe(crc, s)
  {
    hide CutFile, Reload;
    IsCutReloads(crc, s.accepted, s.data);
    CutReloads(crc, s.accepted, DumpSize(s.accepted));
  }

  // ---- runs ----

  predicate Possible(crc: Crc, s: State, run: seq<Step>)
    decreases |run|
  {
    run == [] || (Enabled(s, run[0]) && Possible(crc, Apply(crc, s, run[0]), run[1..]))
  }

  function Last(crc: Crc, s: State, run: seq<Step>): State
    requires Possible(crc, s, run)
    decreases |run|
  {
    if run == [] then s else Last(crc, Apply(crc, s, run[0]), run[1..])
  }

  lemma {:induction false} RunKeepsInv(crc: Crc, s: State, run: seq<Step>)
    requires Inv(crc, s) && Possible(crc, s, run)
    ensures Inv(crc, Last(crc, s, run))
    decreases |run|
  {
    hide Inv, Enabled, Apply;
    if run != [] {
      InvKept(crc, s, run[0]);
      RunKeepsInv(crc, Apply(crc, s, run[0]), run[1..]);
    }
  }

  /** Every run that starts with no OK file is safe. */
  lemma RunIsSafe(crc: Crc, s: State, run: seq<Step>)
    requires Started(s) && !s.ok && Possible(crc, s, run)
    ensures Safe(crc, Last(crc, s, run))
  {
    StartedInv(crc, s);
    RunKeepsInv(crc, s, run);
    InvIsSafe(crc, Last(crc, s, run));
  }

  /** A collector misled by an OK file that was there before the recording. */
  function StaleRun(r: Record): seq<Step> {
    [Accept(r), CollectorStart(true), CollectorSleep, CollectorStat]
  }

  lemma StaleOkMisleads(crc: Crc, s: State, r: Record)
    requires Started(s) && s.ok
    ensures Possible(crc, s, StaleRun(r))
    ensures var z := Last(crc, s, StaleRun(r)); z.collector.SawOk() && !z.stopped && Reload(crc, z.data) == [] != z.accepted
  {
    hide Reload;
    var run := StaleRun(r);
    var s1 := Apply(crc, s, run[0]);
    var s2 := Apply(crc, s1, run[1]);
    var s3 := Apply(crc, s2, run[2]);
    var s4 := Apply(crc, s3, run[3]);
    Cons(crc, s3, run[3], []);
    Cons(crc, s2, run[2], run[3..]);
    Cons(crc, s1, run[1], run[2..]);
    Cons(crc, s, run[0], run[1..]);
    assert [run[0]] + run[1..] == run;
    EmptyReloads(crc);
  }

  lemma EmptyReloads(crc: Crc)
    ensures Reload(crc, []) == []
  {
  }

  lemma OneStep(crc: Crc, s: State, first: Step)
    requires Enabled(s, first)
    ensures Possible(crc, s, [first]) && Last(crc, s, [first]) == Apply(crc, s, first)
  {
    hide Enabled, Apply;
    assert [first][1..] == [];
  }

  lemma Cons(crc: Crc, s: State, first: Step, rest: seq<Step>)
    requires Enabled(s, first) && Possible(crc, Apply(crc, s, first), rest)
    ensures Possible(crc, s, [first] + rest)
    ensures Last(crc, s, [first] + rest) == Last(crc, Apply(crc, s, first), rest)
  {
    hide Enabled, Apply;
    assert ([first] + rest)[1..] == rest;
  }

  /** A collector that sees the OK file always has the full trace, exactly when no OK file was there at the start. */
  lemma TruthfulIffNoStaleOk(crc: Crc, s: State)
    requires Started(s)
    ensures (forall run: seq<Step> :: Possible(crc, s, run) ==> Truthful(crc, Last(crc, s, run))) <==> !s.ok
  {
    hide Reload, Possible, Last;
    if s.ok {
      var run := StaleRun(Record.Record(0, 0, 0, 0));
      StaleOkMisleads(crc, s, Record.Record(0, 0, 0, 0));
      assert Possible(crc, s, run) && !Truthful(crc, Last(crc, s, run));
    } else {
      forall run: seq<Step> | Possible(crc, s, run) ensures Truthful(crc, Last(crc, s, run)) {
        RunIsSafe(crc, s, run);
      }
    }
  }

  // ---- the handshake completes ----

  function WriteRest(w: Who, n: nat): seq<Step> {
    if n == 0 then [] else [WriteByte(w)] + WriteRest(w, n - 1)
  }

  /** The dump of one caller, when nothing fails. */
  function DumpRun(w: Who, recs: seq<Record>): seq<Step> {
    [BeginDump(w)] + (WriteRest(w, DumpSize(recs)) + PublishRun(w))
  }

  /** What the watcher does once its sleep ends. */
  function WatcherRun(recs: seq<Record>): seq<Step> {
    [WatchSlept(false)] + ([WatchProbe] + DumpRun(ByWatcher, recs))
  }

  /** What the destructor does, with the watcher asleep. */
  function DestructorRun(recs: seq<Record>): seq<Step> {
    [Destroy] + ([WatchSlept(true)] + ([Join] + DumpRun(ByDestructor, recs)))
  }

  lemma {:induction false} Joined(crc: Crc, s: State, one: seq<Step>, two: seq<Step>)
    requires Possible(crc, s, one) && Possible(crc, Last(crc, s, one), two)
    ensures Possible(crc, s, one + two) && Last(crc, s, one + two) == Last(crc, Last(crc, s, one), two)
    decreases |one|
  {
    hide Enabled, Apply;
    if one == [] {
      assert one + two == two;
    } else {
      Joined(crc, Apply(crc, s, one[0]), one[1..], two);
      assert (one + two)[1..] == one[1..] + two;
    }
  }

  lemma {:induction false} WritesAll(crc: Crc, s: State, w: Who, n: nat)
    requires 0 < n <= DumpSize(s.accepted) && s.alive && s.Pc(w) == Writing(DumpSize(s.accepted) - n)
    requires Fits(s.accepted) && s.data == CutFile(crc, s.accepted, DumpSize(s.accepted) - n)
    ensures Possible(crc, s, WriteRest(w, n))
    ensures Last(crc, s, WriteRest(w, n))
            == s.WithPc(w, Unlinking).(data := CutFile(crc, s.accepted, DumpSize(s.accepted)))
    decreases n
  {
    hide CutFile, Overwrite, Offset, StreamByte, DumpSize, Fits, Possible, Last;
    OneMoreByte(crc, s.accepted, DumpSize(s.accepted) - n);
    var step := WriteByte(w);
    var s' := Apply(crc, s, step);
    if n == 1 {
      NoSteps(crc, s', w);
      Cons(crc, s, step, []);
    } else {
      WritesAll(crc, s', w, n - 1);
      Cons(crc, s, step, WriteRest(w, n - 1));
    }
  }

  lemma NoSteps(crc: Crc, s: State, w: Who)
    ensures Possible(crc, s, []) && Last(crc, s, []) == s && WriteRest(w, 0) == []
  {
  }

  function PublishRun(w: Who): seq<Step> {
    [UnlinkLock(w, true)] + [MakeOk(w, true)]
  }

  lemma Publishes(crc: Crc, s: State, w: Who)
    requires s.alive && s.Pc(w) == Unlinking
    ensures Possible(crc, s, PublishRun(w))
    ensures Last(crc, s, PublishRun(w)) == s.WithPc(w, Closing).(lock := false, ok := true)
  {
    hide Reload, CutFile, Overwrite, Offset, StreamByte, DumpSize, Fits, Possible, Last;
    var s' := Apply(crc, s, UnlinkLock(w, true));
    OneStep(crc, s', MakeOk(w, true));
    Cons(crc, s, UnlinkLock(w, true), [MakeOk(w, true)]);
  }

  /** A dump in which nothing fails publishes every accepted record. */
  lemma Dumps(crc: Crc, s: State, w: Who)
    requires Fits(s.accepted) && s.alive && s.open && s.data == [] && s.Pc(w) == Check
    ensures Possible(crc, s, DumpRun(w, s.accepted))
    ensures var z := Last(crc, s, DumpRun(w, s.accepted));
            z.ok && z.accepted == s.accepted && Reload(crc, z.data) == s.accepted
  {
    hide CutFile, Reload, WriteRest, Overwrite, Offset, StreamByte, DumpSize, Fits, PublishRun, Possible, Last;
    var recs := s.accepted;
    var s1 := Apply(crc, s, BeginDump(w));
    NothingWritten(crc, recs);
    WritesAll(crc, s1, w, DumpSize(recs));
    Publishes(crc, Last(crc, s1, WriteRest(w, DumpSize(recs))), w);
    Joined(crc, s1, WriteRest(w, DumpSize(recs)), PublishRun(w));
    Cons(crc, s, BeginDump(w), WriteRest(w, DumpSize(recs)) + PublishRun(w));
    CutReloads(crc, recs, DumpSize(recs));
  }

  /** Once the lock file is gone, a sleeping watcher's own steps publish every accepted record. */
  lemma HandshakeCompletes(crc: Crc, s: State)
    requires Inv(crc, s) && s.alive && s.watcher.Sleeping? && !s.lock && s.open
    ensures Possible(crc, s, WatcherRun(s.accepted))
    ensures var z := Last(crc, s, WatcherRun(s.accepted));
            z.ok && z.accepted == s.accepted && Reload(crc, z.data) == s.accepted
  {
    hide CutFile, Reload, DumpRun, Overwrite, Offset, StreamByte, DumpSize, Fits, Possible, Last;
    var s1 := Apply(crc, s, WatchSlept(false));
    var s2 := Apply(crc, s1, WatchProbe);
    Dumps(crc, s2, ByWatcher);
    Cons(crc, s1, WatchProbe, DumpRun(ByWatcher, s.accepted));
    Cons(crc, s, WatchSlept(false), [WatchProbe] + DumpRun(ByWatcher, s.accepted));
  }

  /** So do those of the destructor, whether the lock file is there or not. */
  lemma DestructorPublishes(crc: Crc, s: State)
    requires Inv(crc, s) && s.alive && s.watcher.Sleeping? && s.destructor.NotCalled? && s.open
    ensures Possible(crc, s, DestructorRun(s.accepted))
    ensures var z := Last(crc, s, DestructorRun(s.accepted));
            z.ok && z.accepted == s.accepted && Reload(crc, z.data) == s.accepted
  {
    hide CutFile, Reload, DumpRun, Overwrite, Offset, StreamByte, DumpSize, Fits, Possible, Last;
    var s1 := Apply(crc, s, Destroy);
    var s2 := Apply(crc, s1, WatchSlept(true));
    var s3 := Apply(crc, s2, Join);
    Dumps(crc, s3, ByDestructor);
    Cons(crc, s2, Join, DumpRun(ByDestructor, s.accepted));
    Cons(crc, s1, WatchSlept(true), [Join] + DumpRun(ByDestructor, s.accepted));
    Cons(crc, s, Destroy, [WatchSlept(true)] + ([Join] + DumpRun(ByDestructor, s.accepted)));
  }

  /** A collector that polls finds a published trace the next time it looks, as long as it has patience. */
  lemma CollectorFinds(crc: Crc, s: State)
    requires Inv(crc, s) && s.ok && s.collector.Polling?
    ensures Possible(crc, s, [CollectorSleep])
    ensures var z := Last(crc, s, [CollectorSleep]);
            && (z.collector.Leaving? <==> s.collector.elapsed >= s.patience)
            && (z.collector.Leaving? ==> !z.collector.found)
            && (z.collector.Checking? ==>
                  && Possible(crc, z, [CollectorStat])
                  && Last(crc, z, [CollectorStat]).collector.SawOk() && Reload(crc, z.data) == z.accepted)
  {
    hide CutFile, Reload, Overwrite, Offset, StreamByte, DumpSize, Fits, Possible, Last;
    var z := Apply(crc, s, CollectorSleep);
    OneStep(crc, s, CollectorSleep);
    if z.collector.Checking? {
      OneStep(crc, z, CollectorStat);
      CutReloads(crc, z.accepted, DumpSize(z.accepted));
    }
  }

  // ---- which records are accepted ----

  /** The records offered in a run. */
  function Offered(run: seq<Step>): seq<Record> {
    if run == [] then [] else (if run[0].Accept? then [run[0].r] else []) + Offered(run[1..])
  }

  /** How many steps of the run are taken before recording has stopped. */
  function StepsToStop(crc: Crc, s: State, run: seq<Step>): (k: nat)
    requires Possible(crc, s, run)
    ensures k <= |run|
    decreases |run|
  {
    if run == [] || s.stopped then 0 else 1 + StepsToStop(crc, Apply(crc, s, run[0]), run[1..])
  }

  lemma StepAccepts(crc: Crc, s: State, step: Step)
    requires Enabled(s, step)
    ensures Apply(crc, s, step).accepted
         == if step.Accept? && !s.stopped then s.accepted + [step.r] else s.accepted
  {
    hide CutFile, Overwrite, Offset, StreamByte, Sum, DumpSize, Fits;
  }

  lemma StaysStopped(crc: Crc, s: State, step: Step)
    requires Enabled(s, step) && s.stopped
    ensures Apply(crc, s, step).stopped
  {
    hide CutFile, Overwrite, Offset, StreamByte, Sum, DumpSize, Fits;
  }

  lemma LockStaysGone(crc: Crc, s: State, step: Step)
    requires Enabled(s, step)
    ensures !s.lock ==> !Apply(crc, s, step).lock
    ensures !s.destructor.NotCalled? ==> !Apply(crc, s, step).destructor.NotCalled?
  {
    hide CutFile, Overwrite, Offset, StreamByte, Sum, DumpSize, Fits;
  }

  lemma StepStops(crc: Crc, s: State, step: Step)
    requires Enabled(s, step) && !s.stopped && Apply(crc, s, step).stopped
    ensures !Apply(crc, s, step).lock || !Apply(crc, s, step).destructor.NotCalled?
  {
    hide CutFile, Overwrite, Offset, StreamByte, Sum, DumpSize, Fits;
  }

  /** Once recording has stopped nothing is accepted. */
  lemma {:induction false} NoneAfterStop(crc: Crc, s: State, run: seq<Step>)
    requires Possible(crc, s, run) && s.stopped
    ensures Last(crc, s, run).accepted == s.accepted && Last(crc, s, run).stopped
    decreases |run|
  {
    hide Enabled, Apply;
    if run != [] {
      StepAccepts(crc, s, run[0]);
      StaysStopped(crc, s, run[0]);
      NoneAfterStop(crc, Apply(crc, s, run[0]), run[1..]);
    }
  }

  /** The accepted records are those offered before recording stopped, in order. */
  lemma {:induction false} AcceptedAreOffered(crc: Crc, s: State, run: seq<Step>)
    requires Possible(crc, s, run)
    ensures Last(crc, s, run).accepted == s.accepted + Offered(run[..StepsToStop(crc, s, run)])
    decreases |run|
  {
    hide Enabled, Apply;
    if s.stopped {
      NoneAfterStop(crc, s, run);
      assert run[..0] == [];
    } else if run != [] {
      StepAccepts(crc, s, run[0]);
      var s' := Apply(crc, s, run[0]);
      AcceptedAreOffered(crc, s', run[1..]);
      var k := StepsToStop(crc, s', run[1..]);
      assert run[..k + 1][1..] == run[1..][..k];
    }
  }

  /** Recording stops only once the lock file has gone or the destructor has been called. */
  lemma {:induction false} StopsForAReason(crc: Crc, s: State, run: seq<Step>)
    requires Possible(crc, s, run) && (s.stopped ==> !s.lock || !s.destructor.NotCalled?)
    ensures var z := Last(crc, s, run); z.stopped ==> !z.lock || !z.destructor.NotCalled?
    decreases |run|
  {
    hide Enabled, Apply;
    if run != [] {
      LockStaysGone(crc, s, run[0]);
      if !s.stopped && Apply(crc, s, run[0]).stopped {
        StepStops(crc, s, run[0]);
      }
      StopsForAReason(crc, Apply(crc, s, run[0]), run[1..]);
    }
  }
}
