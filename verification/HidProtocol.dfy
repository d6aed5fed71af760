/** The threads of an open HID device as a step system: the transfer callback, the read thread,
    any number of readers in hid_read_timeout, and one closer in hid_close.  Every access to
    shared state that another thread can observe is a step of its own. */
module HidProtocol {
  import opened Common
  import opened HidReports

  /** How the transfer finishes; `Other` covers time-outs and unknown codes. */
  datatype Status = Completed(report: Report) | Cancelled | NoDevice | Other

  datatype Owner = Free | ByCallback | ByThread | ByReader(id: nat) | ByCloser

  /** Callback: waiting for the mutex, holding it, releasing it, resubmitting, retiring. */
  datatype CbPc = CbIdle | CbLock(r: Report) | CbHold(r: Report) | CbUnlock | CbSubmit | CbShutdown | CbCancelled

  datatype RtPc =
    | RtStart | RtBarrier | RtLoop | RtHandle | RtCancel | RtDrain | RtLock | RtBroadcast | RtUnlock | RtDone

  datatype Call = Call(length: nat, milliseconds: int)
  datatype Wake = Signalled | TimedOut | Failed
  datatype RdPc =
    | RdIdle
    | RdLock(call: Call)
    | RdHold(call: Call)
    | RdTest(call: Call)
    | RdSleep(call: Call)
    | RdWoken(call: Call, wake: Wake)
    | RdUnlock(call: Call, result: int)

  datatype ClPc =
    | ClNotOpen | ClIdle | ClCancel | ClJoin | ClFreeTransfer | ClLock | ClDrain | ClUnlock | ClFree | ClClosed

  datatype Transfer = NotAllocated | Live | Freed

  /** What became of a report taken off the queue. */
  datatype Taken = Delivered(reader: nat, report: Report, copied: Report) | Dropped(report: Report)

  datatype State = State(
    queue: seq<Report>,
    received: seq<Report>,
    taken: seq<Taken>,
    shutdown: bool,
    cancelled: bool,
    inFlight: bool,
    cancelPending: bool,
    firstOk: bool,
    transfer: Transfer,
    mutex: Owner,
    cb: CbPc,
    rt: RtPc,
    cl: ClPc,
    readers: map<nat, RdPc>)

  datatype ThreadStep =
    | FirstSubmit(ok: bool)
    | Barrier
    | ThreadTest
    | ThreadReturn(fatal: bool)
    | ThreadCancel
    | ThreadDrained
    | ThreadLock
    | ThreadBroadcast
    | ThreadUnlock

  datatype CallbackStep =
    | Complete(status: Status)
    | CallbackLock
    | CallbackAttach(woken: set<nat>)
    | CallbackUnlock
    | CallbackSubmit(submitted: bool)
    | CallbackShutdown
    | CallbackCancelled

  datatype ReaderStep =
    | ReadCall(call: Call)
    | ReadLock
    | ReadFirstTest
    | ReadLoopTest
    | ReadWake(wake: Wake)
    | ReadRelock
    | ReadUnlock

  datatype CloserStep =
    | CloseShutdown
    | CloseCancel
    | CloseJoin
    | CloseFreeTransfer
    | CloseLock
    | CloseDrain
    | CloseUnlock
    | CloseFree

  datatype Step =
    | OfThread(thread: ThreadStep)
    | OfCallback(callback: CallbackStep)
    | OfReader(id: nat, reader: ReaderStep)
    | OfCloser(closer: CloserStep)

  function Initial(ids: set<nat>): State {
    State([], [], [], false, false, false, false, false, NotAllocated, Free, CbIdle, RtStart, ClNotOpen,
          map id | id in ids :: RdIdle)
  }

  function Sleepers(s: State): set<nat> {
    set id | id in s.readers && s.readers[id].RdSleep?
  }

  function WakeAll(readers: map<nat, RdPc>, woken: set<nat>): map<nat, RdPc>
  {
    map id | id in readers ::
      if id in woken && readers[id].RdSleep? then RdWoken(readers[id].call, Signalled) else readers[id]
  }

  /** What a reader's step does: its new program point, and the part of the state it may change. */
  datatype Effect = Effect(pc: RdPc, mutex: Owner, queue: seq<Report>, taken: seq<Taken>)

  /** return_data on behalf of a reader that holds the mutex. */
  function Deliver(id: nat, call: Call, queue: seq<Report>, taken: seq<Taken>): Effect
    requires queue != []
  {
    var report := queue[0];
    var len := Min(call.length, |report|);
    Effect(RdUnlock(call, len), ByReader(id), queue[1..], taken + [Delivered(id, report, report[..len])])
  }

  function Drops(reports: seq<Report>): (t: seq<Taken>)
    ensures |t| == |reports|
    ensures Reports(t) == reports
  {
    if reports == [] then [] else [Dropped(reports[0])] + Drops(reports[1..])
  }

  /** The reports a log of taken reports talks about, in order. */
  function Reports(taken: seq<Taken>): (r: seq<Report>) {
    if taken == [] then [] else [taken[0].report] + Reports(taken[1..])
  }

  function ApplyThread(s: State, step: ThreadStep): Option<State> {
    match step
    case FirstSubmit(ok) =>
      if !s.rt.RtStart? then None else
        Some(s.(rt := RtBarrier, inFlight := ok, firstOk := ok, transfer := Live))
    case Barrier =>
      if !s.rt.RtBarrier? then None else Some(s.(rt := RtLoop, cl := ClIdle))
    case ThreadTest =>
      if !s.rt.RtLoop? then None else Some(s.(rt := if s.shutdown then RtCancel else RtHandle))
    case ThreadReturn(fatal) =>
      if !s.rt.RtHandle? then None else Some(s.(rt := if fatal then RtCancel else RtLoop))
    case ThreadCancel =>
      if !s.rt.RtCancel? then None else
        Some(s.(rt := RtDrain, cancelPending := s.cancelPending || s.inFlight))
    case ThreadDrained =>
      if !s.rt.RtDrain? || !s.cancelled then None else Some(s.(rt := RtLock))
    case ThreadLock =>
      if !s.rt.RtLock? || !s.mutex.Free? then None else Some(s.(rt := RtBroadcast, mutex := ByThread))
    case ThreadBroadcast =>
      if !s.rt.RtBroadcast? then None else
        Some(s.(rt := RtUnlock, readers := WakeAll(s.readers, Sleepers(s))))
    case ThreadUnlock =>
      if !s.rt.RtUnlock? then None else Some(s.(rt := RtDone, mutex := Free))
  }

  function ApplyCallback(s: State, step: CallbackStep): Option<State> {
    match step
    case Complete(status) =>
      // The transfer can report CANCELLED only after a cancel request reached it in flight.
      if !s.inFlight || !s.cb.CbIdle? || (status.Cancelled? && !s.cancelPending) then None else
        Some(s.(inFlight := false, cancelPending := false,
                cb := match status
                      case Completed(r) => CbLock(r)
                      case Cancelled => CbShutdown
                      case NoDevice => CbShutdown
                      case Other => CbSubmit))
    case CallbackLock =>
      if !s.cb.CbLock? || !s.mutex.Free? then None else Some(s.(cb := CbHold(s.cb.r), mutex := ByCallback))
    case CallbackAttach(woken) =>
      if !s.cb.CbHold? then None
      // A signal goes out only when the queue was empty; it wakes at least one sleeper, if any.
      else if s.queue == [] && !(woken <= Sleepers(s) && (Sleepers(s) != {} ==> woken != {})) then None
      else if s.queue != [] && woken != {} then None
      else
        Some(s.(cb := CbUnlock, queue := Enqueue(s.queue, s.cb.r), received := s.received + [s.cb.r],
                taken := s.taken + Drops(Overflow(s.queue)), readers := WakeAll(s.readers, woken)))
    case CallbackUnlock =>
      if !s.cb.CbUnlock? then None else Some(s.(cb := CbSubmit, mutex := Free))
    case CallbackSubmit(submitted) =>
      if !s.cb.CbSubmit? then None else
        Some(s.(cb := if submitted then CbIdle else CbShutdown, inFlight := submitted))
    case CallbackShutdown =>
      if !s.cb.CbShutdown? then None else Some(s.(cb := CbCancelled, shutdown := true))
    case CallbackCancelled =>
      if !s.cb.CbCancelled? then None else Some(s.(cb := CbIdle, cancelled := true))
  }

  function ReaderEffect(s: State, id: nat, pc: RdPc, step: ReaderStep): Option<Effect>
  {
    match step
    case ReadCall(call) =>
      if !pc.RdIdle? || s.cl.ClNotOpen? then None else Some(Effect(RdLock(call), s.mutex, s.queue, s.taken))
    case ReadLock =>
      if !pc.RdLock? || !s.mutex.Free? then None else Some(Effect(RdHold(pc.call), ByReader(id), s.queue, s.taken))
    case ReadFirstTest =>
      if !pc.RdHold? then None
      else if s.queue != [] then Some(Deliver(id, pc.call, s.queue, s.taken))
      else
        var next := if s.shutdown then RdUnlock(pc.call, -1)
                    else if pc.call.milliseconds == -1 || pc.call.milliseconds > 0 then RdTest(pc.call)
                    else RdUnlock(pc.call, 0);
        Some(Effect(next, s.mutex, s.queue, s.taken))
    case ReadLoopTest =>
      if !pc.RdTest? then None
      else if s.queue == [] && !s.shutdown then Some(Effect(RdSleep(pc.call), Free, s.queue, s.taken))
      else if pc.call.milliseconds == -1 && s.queue != [] then Some(Deliver(id, pc.call, s.queue, s.taken))
      else Some(Effect(RdUnlock(pc.call, -1), s.mutex, s.queue, s.taken))
    case ReadWake(wake) =>
      // A spurious wake-up, or (only with a time-out) the wait giving up.
      if !pc.RdSleep? || (!wake.Signalled? && pc.call.milliseconds == -1) then None else
        Some(Effect(RdWoken(pc.call, wake), s.mutex, s.queue, s.taken))
    case ReadRelock =>
      if !pc.RdWoken? || !s.mutex.Free? then None
      else if pc.call.milliseconds != -1 && pc.wake.Signalled? && s.queue != [] then
        Some(Deliver(id, pc.call, s.queue, s.taken))
      else
        var next := if pc.call.milliseconds == -1 || pc.wake.Signalled? then RdTest(pc.call)
                    else RdUnlock(pc.call, if pc.wake.TimedOut? then 0 else -1);
        Some(Effect(next, ByReader(id), s.queue, s.taken))
    case ReadUnlock =>
      if !pc.RdUnlock? then None else Some(Effect(RdIdle, Free, s.queue, s.taken))
  }

  function ApplyReader(s: State, id: nat, step: ReaderStep): Option<State>
    requires id in s.readers
  {
    match ReaderEffect(s, id, s.readers[id], step)
    case None => None
    case Some(e) =>
      Some(s.(readers := s.readers[id := e.pc], mutex := e.mutex, queue := e.queue, taken := e.taken))
  }

  function ApplyCloser(s: State, step: CloserStep): Option<State> {
    match step
    case CloseShutdown =>
      if !s.cl.ClIdle? then None else Some(s.(cl := ClCancel, shutdown := true))
    case CloseCancel =>
      if !s.cl.ClCancel? then None else
        Some(s.(cl := ClJoin, cancelPending := s.cancelPending || s.inFlight))
    case CloseJoin =>
      if !s.cl.ClJoin? || !s.rt.RtDone? then None else Some(s.(cl := ClFreeTransfer))
    case CloseFreeTransfer =>
      if !s.cl.ClFreeTransfer? then None else Some(s.(cl := ClLock, transfer := Freed))
    case CloseLock =>
      if !s.cl.ClLock? || !s.mutex.Free? then None else Some(s.(cl := ClDrain, mutex := ByCloser))
    case CloseDrain =>
      if !s.cl.ClDrain? then None
      else if s.queue == [] then Some(s.(cl := ClUnlock))
      else Some(s.(queue := s.queue[1..], taken := s.taken + [Dropped(s.queue[0])]))
    case CloseUnlock =>
      if !s.cl.ClUnlock? then None else Some(s.(cl := ClFree, mutex := Free))
    case CloseFree =>
      if !s.cl.ClFree? then None else Some(s.(cl := ClClosed))
  }

  /** The state after a step, if the step can be taken.  Once the device is freed nothing runs. */
  function Apply(s: State, step: Step): Option<State> {
    if s.cl.ClClosed? then None
    else match step
         case OfThread(t) => ApplyThread(s, t)
         case OfCallback(c) => ApplyCallback(s, c)
         case OfReader(id, r) => if id in s.readers then ApplyReader(s, id, r) else None
         case OfCloser(c) => ApplyCloser(s, c)
  }

  function Run(s: State, steps: seq<Step>): Option<State>
    decreases |steps|
  {
    if steps == [] then Some(s)
    else match Apply(s, steps[0])
         case None => None
         case Some(t) => Run(t, steps[1..])
  }

  lemma {:induction false} RunAppend(s: State, a: seq<Step>, b: seq<Step>)
    requires Run(s, a).Some?
    ensures Run(s, a + b) == Run(Run(s, a).value, b)
    decreases |a|
  {
    hide Apply;
    if a == [] {
      assert a + b == b;
    } else {
      RunAppend(Apply(s, a[0]).value, a[1..], b);
      assert (a + b)[0] == a[0] && (a + b)[1..] == a[1..] + b;
    }
  }

  // ---------------------------------------------------------------- invariants

  /** The mutex is held by exactly the thread whose program point says so. */
  ghost predicate MutexInv(s: State) {
    && (s.mutex == ByCallback <==> s.cb.CbHold? || s.cb.CbUnlock?)
    && (s.mutex == ByThread <==> s.rt.RtBroadcast? || s.rt.RtUnlock?)
    && (s.mutex == ByCloser <==> s.cl.ClDrain? || s.cl.ClUnlock?)
    && (s.mutex.ByReader? ==> s.mutex.id in s.readers)
    && (forall id | id in s.readers :: Holds(s.readers[id]) <==> s.mutex == ByReader(id))
  }

  predicate Holds(pc: RdPc) {
    pc.RdHold? || pc.RdTest? || pc.RdUnlock?
  }

  predicate Opened(s: State) {
    !s.rt.RtStart? && !s.rt.RtBarrier?
  }

  predicate PastDrain(rt: RtPc) {
    rt.RtLock? || rt.RtBroadcast? || rt.RtUnlock? || rt.RtDone?
  }

  predicate PastJoin(cl: ClPc) {
    cl.ClFreeTransfer? || cl.ClLock? || cl.ClDrain? || cl.ClUnlock? || cl.ClFree? || cl.ClClosed?
  }

  /** The life of the transfer and of the two flags. */
  ghost predicate TransferInv(s: State) {
    && (s.rt.RtStart? <==> s.transfer == NotAllocated)
    && (s.transfer == Freed <==> PastJoin(s.cl) && !s.cl.ClFreeTransfer?)
    && (s.cl.ClNotOpen? <==> !Opened(s))
    && (s.rt.RtStart? ==> !s.firstOk)
    && (if s.cancelled || !s.firstOk then !s.inFlight && s.cb.CbIdle? else s.inFlight <==> s.cb.CbIdle?)
    && (s.cancelled ==> s.firstOk && s.shutdown)
    && (s.cb.CbCancelled? ==> s.shutdown)
    && (s.cancelPending ==> s.inFlight)
    && (PastDrain(s.rt) ==> s.cancelled)
    && (PastJoin(s.cl) ==> s.rt.RtDone?)
    && (!s.cl.ClNotOpen? && !s.cl.ClIdle? ==> s.shutdown)
    && (s.rt.RtCancel? || s.rt.RtDrain? ==> Opened(s))
  }

  /** After the broadcast nobody sleeps; a lone reader never sleeps beside a report. */
  ghost predicate SleepInv(s: State) {
    && (s.rt.RtUnlock? || s.rt.RtDone? ==> Sleepers(s) == {})
    && (|s.readers| == 1 && s.queue != [] ==> Sleepers(s) == {})
    && (s.cl.ClNotOpen? ==> forall id | id in s.readers :: s.readers[id].RdIdle?)
  }

  ghost predicate QueueInv(s: State) {
    && Reports(s.taken) + s.queue == s.received
    && |s.queue| <= MAX_QUEUED
    && forall t | t in s.taken && t.Delivered? :: t.copied <= t.report
  }

  ghost predicate Inv(s: State) {
    MutexInv(s) && TransferInv(s) && SleepInv(s) && QueueInv(s)
  }

  lemma {:induction false} ReportsAppend(a: seq<Taken>, b: seq<Taken>)
    ensures Reports(a + b) == Reports(a) + Reports(b)
  {
    if a == [] {
      assert a + b == b;
    } else {
      ReportsAppend(a[1..], b);
      FirstReport(a);
      FirstReport(a + b);
      hide Reports;
      assert (a + b)[1..] == a[1..] + b;
      Regroup([a[0].report], Reports(a[1..]), Reports(b));
    }
  }

  lemma FirstReport(a: seq<Taken>)
    requires a != []
    ensures Reports(a) == [a[0].report] + Reports(a[1..])
  {
  }

  lemma Regroup<T>(a: seq<T>, b: seq<T>, c: seq<T>)
    ensures (a + b) + c == a + (b + c)
  {
  }

  lemma MutexThread(s: State, step: ThreadStep)
    requires MutexInv(s) && TransferInv(s) && ApplyThread(s, step).Some?
    ensures MutexInv(ApplyThread(s, step).value)
  {
  }

  lemma MutexCallback(s: State, step: CallbackStep)
    requires MutexInv(s) && ApplyCallback(s, step).Some?
    ensures MutexInv(ApplyCallback(s, step).value)
  {
  }

  lemma MutexReader(s: State, id: nat, step: ReaderStep)
    requires MutexInv(s) && id in s.readers && ApplyReader(s, id, step).Some?
    ensures MutexInv(ApplyReader(s, id, step).value)
  {
  }

  lemma MutexCloser(s: State, step: CloserStep)
    requires MutexInv(s) && ApplyCloser(s, step).Some?
    ensures MutexInv(ApplyCloser(s, step).value)
  {
  }

  lemma TransferThread(s: State, step: ThreadStep)
    requires TransferInv(s) && ApplyThread(s, step).Some?
    ensures TransferInv(ApplyThread(s, step).value)
  {
  }

  lemma TransferCallback(s: State, step: CallbackStep)
    requires TransferInv(s) && ApplyCallback(s, step).Some?
    ensures TransferInv(ApplyCallback(s, step).value)
  {
  }

  lemma TransferCloser(s: State, step: CloserStep)
    requires TransferInv(s) && ApplyCloser(s, step).Some?
    ensures TransferInv(ApplyCloser(s, step).value)
  {
  }

  lemma TransferStep(s: State, step: Step)
    requires TransferInv(s) && Apply(s, step).Some?
    ensures TransferInv(Apply(s, step).value)
  {
    match step {
      case OfThread(t) => TransferThread(s, t);
      case OfCallback(c) => TransferCallback(s, c);
      case OfReader(_, _) =>
      case OfCloser(c) => TransferCloser(s, c);
    }
  }

  lemma MutexStep(s: State, step: Step)
    requires MutexInv(s) && TransferInv(s) && Apply(s, step).Some?
    ensures MutexInv(Apply(s, step).value)
  {
    match step {
      case OfThread(t) => MutexThread(s, t);
      case OfCallback(c) => MutexCallback(s, c);
      case OfReader(id, r) => MutexReader(s, id, r);
      case OfCloser(c) => MutexCloser(s, c);
    }
  }

  lemma TakeOne(taken: seq<Taken>, queue: seq<Report>, t: Taken)
    requires queue != [] && t.report == queue[0]
    ensures Reports(taken + [t]) + queue[1..] == Reports(taken) + queue
  {
    ReportsAppend(taken, [t]);
    assert [t][1..] == [];
    assert queue == [queue[0]] + queue[1..];
  }

  lemma {:induction false} DropsAreDrops(reports: seq<Report>)
    ensures Reports(Drops(reports)) == reports && forall t | t in Drops(reports) :: t.Dropped?
  {
    if reports != [] {
      DropsAreDrops(reports[1..]);
    }
  }

  lemma AttachConserves(taken: seq<Taken>, queue: seq<Report>, r: Report)
    ensures Reports(taken + Drops(Overflow(queue))) + Enqueue(queue, r) == Reports(taken) + queue + [r]
    ensures forall t | t in Drops(Overflow(queue)) :: t.Dropped?
  {
    hide Enqueue, Overflow;
    var drops := Drops(Overflow(queue));
    ReportsAppend(taken, drops);
    DropsAreDrops(Overflow(queue));
    EnqueueConserves(queue, r);
    calc {
      Reports(taken + drops) + Enqueue(queue, r);
      Reports(taken) + (Overflow(queue) + Enqueue(queue, r));
      Reports(taken) + queue + [r];
    }
  }

  lemma QueueCallback(s: State, step: CallbackStep)
    requires QueueInv(s) && ApplyCallback(s, step).Some?
    ensures QueueInv(ApplyCallback(s, step).value)
  {
    if step.CallbackAttach? {
      AttachConserves(s.taken, s.queue, s.cb.r);
      EnqueueConserves(s.queue, s.cb.r);
      var t := ApplyCallback(s, step).value;
      assert t.received == s.received + [s.cb.r];
      assert t.taken == s.taken + Drops(Overflow(s.queue));
    }
  }

  lemma QueueReader(s: State, id: nat, step: ReaderStep)
    requires QueueInv(s) && id in s.readers && ApplyReader(s, id, step).Some?
    ensures QueueInv(ApplyReader(s, id, step).value)
  {
    if s.queue != [] && !s.readers[id].RdIdle? {
      var report := s.queue[0];
      TakeOne(s.taken, s.queue, Delivered(id, report, report[..Min(s.readers[id].call.length, |report|)]));
    }
  }

  lemma QueueCloser(s: State, step: CloserStep)
    requires QueueInv(s) && ApplyCloser(s, step).Some?
    ensures QueueInv(ApplyCloser(s, step).value)
  {
    if step.CloseDrain? && s.queue != [] {
      TakeOne(s.taken, s.queue, Dropped(s.queue[0]));
    }
  }

  lemma QueueThread(s: State, step: ThreadStep)
    requires QueueInv(s) && ApplyThread(s, step).Some?
    ensures QueueInv(ApplyThread(s, step).value)
  {
  }

  lemma QueueStep(s: State, step: Step)
    requires QueueInv(s) && Apply(s, step).Some?
    ensures QueueInv(Apply(s, step).value)
  {
    match step {
      case OfThread(t) => QueueThread(s, t);
      case OfCallback(c) => QueueCallback(s, c);
      case OfReader(id, r) => QueueReader(s, id, r);
      case OfCloser(c) => QueueCloser(s, c);
    }
  }

  lemma LoneReader(readers: map<nat, RdPc>, a: nat, b: nat)
    requires |readers| == 1 && a in readers && b in readers
    ensures a == b
  {
    var rest := readers.Keys - {a};
    assert |rest| == 0;
    assert b !in rest;
  }

  /** A signal given to an empty queue cannot miss the only reader. */
  lemma SignalReachesLoneReader(s: State, woken: set<nat>, id: nat)
    requires |s.readers| == 1 && id in s.readers
    requires woken <= Sleepers(s) && (Sleepers(s) != {} ==> woken != {})
    ensures !WakeAll(s.readers, woken)[id].RdSleep?
  {
    if s.readers[id].RdSleep? {
      assert id in Sleepers(s);
      var other :| other in woken;
      LoneReader(s.readers, other, id);
    }
  }

  ghost predicate NoSleeper(readers: map<nat, RdPc>) {
    forall id | id in readers :: !readers[id].RdSleep?
  }

  lemma NoSleeperMeans(s: State)
    ensures NoSleeper(s.readers) <==> Sleepers(s) == {}
  {
    if Sleepers(s) == {} {
      forall id | id in s.readers ensures !s.readers[id].RdSleep? {
        assert id !in Sleepers(s);
      }
    }
  }

  lemma WakeAllKeys(readers: map<nat, RdPc>, woken: set<nat>)
    ensures WakeAll(readers, woken).Keys == readers.Keys
    ensures |WakeAll(readers, woken)| == |readers|
  {
    assert |WakeAll(readers, woken)| == |WakeAll(readers, woken).Keys| && |readers| == |readers.Keys|;
  }

  lemma SleepThread(s: State, step: ThreadStep)
    requires TransferInv(s) && SleepInv(s) && ApplyThread(s, step).Some?
    ensures SleepInv(ApplyThread(s, step).value)
  {
    WakeAllKeys(s.readers, Sleepers(s));
  }

  lemma SleepCallback(s: State, step: CallbackStep)
    requires SleepInv(s) && ApplyCallback(s, step).Some?
    ensures SleepInv(ApplyCallback(s, step).value)
  {
    if step.CallbackAttach? {
      var readers := WakeAll(s.readers, step.woken);
      WakeAllKeys(s.readers, step.woken);
      NoSleeperMeans(s);
      NoSleeperMeans(ApplyCallback(s, step).value);
      if |readers| == 1 && s.queue == [] {
        forall id | id in readers ensures !readers[id].RdSleep? {
          SignalReachesLoneReader(s, step.woken, id);
        }
      }
    }
  }

  lemma SleepReader(s: State, id: nat, step: ReaderStep)
    requires MutexInv(s) && TransferInv(s) && SleepInv(s) && id in s.readers && ApplyReader(s, id, step).Some?
    ensures SleepInv(ApplyReader(s, id, step).value)
  {
    var t := ApplyReader(s, id, step).value;
    assert t.readers.Keys == s.readers.Keys;
    assert |t.readers| == |t.readers.Keys| && |s.readers| == |s.readers.Keys|;
    NoSleeperMeans(s);
    NoSleeperMeans(t);
    if |t.readers| == 1 && t.queue != [] {
      LoneReaderAll(s.readers, id);
    }
  }

  lemma LoneReaderAll(readers: map<nat, RdPc>, id: nat)
    requires |readers| == 1 && id in readers
    ensures forall other | other in readers :: other == id
  {
    forall other | other in readers ensures other == id {
      LoneReader(readers, other, id);
    }
  }

  lemma SleepCloser(s: State, step: CloserStep)
    requires SleepInv(s) && ApplyCloser(s, step).Some?
    ensures SleepInv(ApplyCloser(s, step).value)
  {
  }

  lemma SleepStep(s: State, step: Step)
    requires Inv(s) && Apply(s, step).Some?
    ensures SleepInv(Apply(s, step).value)
  {
    match step {
      case OfThread(t) => SleepThread(s, t);
      case OfCallback(c) => SleepCallback(s, c);
      case OfReader(id, r) => SleepReader(s, id, r);
      case OfCloser(c) => SleepCloser(s, c);
    }
  }

  lemma InvStep(s: State, step: Step)
    requires Inv(s) && Apply(s, step).Some?
    ensures Inv(Apply(s, step).value)
  {
    MutexStep(s, step);
    TransferStep(s, step);
    SleepStep(s, step);
    QueueStep(s, step);
  }

  lemma {:induction false} InvRun(s: State, steps: seq<Step>)
    requires Inv(s) && Run(s, steps).Some?
    ensures Inv(Run(s, steps).value)
    decreases |steps|
  {
    if steps != [] {
      InvStep(s, steps[0]);
      InvRun(Apply(s, steps[0]).value, steps[1..]);
    }
  }

  lemma RunSnoc(s: State, steps: seq<Step>, step: Step)
    requires Run(s, steps).Some?
    ensures Run(s, steps + [step]) == Apply(Run(s, steps).value, step)
  {
    RunAppend(s, steps, [step]);
    var t := Run(s, steps).value;
    assert [step][1..] == [];
    assert Run(t, [step]) == Apply(t, step);
  }

  // ---------------------------------------------------------------- safety over whole runs

  /** A thread is about to touch the transfer, or libusb owns it. */
  predicate UsesTransfer(s: State) {
    s.rt.RtCancel? || s.rt.RtHandle? || s.rt.RtDrain? || s.cl.ClCancel? || s.inFlight || !s.cb.CbIdle?
  }

  /** What holds in every state of every interleaving, whether or not the first submission succeeded. */
  lemma Safety(ids: set<nat>, steps: seq<Step>, s: State)
    requires Run(Initial(ids), steps) == Some(s)
    ensures s.cancelled ==> s.shutdown && !s.inFlight && s.cb.CbIdle?
    ensures s.transfer == Freed ==> !s.inFlight && s.cb.CbIdle? && s.rt.RtDone?
    ensures UsesTransfer(s) ==> s.transfer == Live
    ensures s.rt.RtDone? ==> Sleepers(s) == {}
    ensures Reports(s.taken) + s.queue == s.received && |s.queue| <= 32
    ensures |ids| == 1 && s.queue != [] ==> Sleepers(s) == {}
  {
    InitialInv(ids);
    InvRun(Initial(ids), steps);
    ReadersKept(Initial(ids), steps);
    assert Initial(ids).readers.Keys == ids;
    assert |s.readers| == |s.readers.Keys|;
  }

  lemma InitialInv(ids: set<nat>)
    ensures Inv(Initial(ids))
  {
  }

  lemma ReaderKeys(s: State, step: Step)
    requires Apply(s, step).Some?
    ensures Apply(s, step).value.readers.Keys == s.readers.Keys
  {
    match step {
      case OfThread(t) => ThreadKeys(s, t);
      case OfCallback(c) => CallbackKeys(s, c);
      case OfReader(_, _) =>
      case OfCloser(_) =>
    }
  }

  lemma ThreadKeys(s: State, step: ThreadStep)
    requires ApplyThread(s, step).Some?
    ensures ApplyThread(s, step).value.readers.Keys == s.readers.Keys
  {
    hide Sleepers, WakeAll;
    if step.ThreadBroadcast? { WakeAllKeys(s.readers, Sleepers(s)); }
  }

  lemma CallbackKeys(s: State, step: CallbackStep)
    requires ApplyCallback(s, step).Some?
    ensures ApplyCallback(s, step).value.readers.Keys == s.readers.Keys
  {
    if step.CallbackAttach? {
      WakeAllKeys(s.readers, step.woken);
    }
  }

  lemma {:induction false} ReadersKept(s: State, steps: seq<Step>)
    requires Run(s, steps).Some?
    ensures Run(s, steps).value.readers.Keys == s.readers.Keys
    decreases |steps|
  {
    if steps != [] {
      ReaderKeys(s, steps[0]);
      ReadersKept(Apply(s, steps[0]).value, steps[1..]);
    }
  }

  // ---------------------------------------------------------------- when can hid_close finish?

  /** A step in which the device stays attached and accepts the transfer. */
  predicate Attached(step: Step) {
    step != OfCallback(Complete(NoDevice)) && step != OfCallback(CallbackSubmit(false))
  }

  predicate AllAttached(steps: seq<Step>) {
    forall step | step in steps :: Attached(step)
  }

  /** The read thread waits for a cancellation nobody will ask for again: both cancel requests were
      made while the transfer was not in flight, or were consumed by a transfer that completed. */
  predicate CancelLost(s: State) {
    && s.rt.RtDrain? && !s.cancelled && !s.cancelPending
    && !s.cb.CbShutdown? && !s.cb.CbCancelled?
    && !s.cl.ClIdle? && !s.cl.ClCancel?
  }

  /** The first submission, whose result read_thread ignores, failed. */
  predicate NeverSubmitted(s: State) {
    !s.rt.RtStart? && !s.firstOk
  }

  lemma NeverSubmittedStays(s: State, step: Step)
    requires TransferInv(s) && NeverSubmitted(s) && Apply(s, step).Some?
    ensures NeverSubmitted(Apply(s, step).value)
  {
  }

  lemma CancelLostStays(s: State, step: Step)
    requires TransferInv(s) && s.firstOk && CancelLost(s) && Attached(step) && Apply(s, step).Some?
    ensures CancelLost(Apply(s, step).value) && Apply(s, step).value.firstOk
  {
  }

  /** hid_close never ends: after a failed first submission in any run, and after a lost cancellation in any
      run in which the device stays attached. */
  lemma {:induction false} HangsForever(s: State, steps: seq<Step>)
    requires Inv(s) && (NeverSubmitted(s) || (CancelLost(s) && AllAttached(steps)))
    requires Run(s, steps).Some?
    ensures !Run(s, steps).value.cl.ClClosed?
    decreases |steps|
  {
    if steps != [] {
      var t := Apply(s, steps[0]).value;
      InvStep(s, steps[0]);
      if NeverSubmitted(s) {
        NeverSubmittedStays(s, steps[0]);
      } else {
        CancelLostStays(s, steps[0]);
      }
      HangsForever(t, steps[1..]);
    }
  }

  /** A step that brings hid_close nearer to its end: whoever holds the mutex first, then the
      callback, then the closer up to its join, then the read thread. */
  function Toward(s: State): Step {
    match s.mutex
    case ByReader(id) =>
      if id !in s.readers then OfReader(id, ReadUnlock)
      else OfReader(id, if s.readers[id].RdHold? then ReadFirstTest
                        else if s.readers[id].RdTest? then ReadLoopTest else ReadUnlock)
    case ByCallback =>
      OfCallback(if s.cb.CbHold? then CallbackAttach(if s.queue == [] then Sleepers(s) else {}) else CallbackUnlock)
    case ByThread => OfThread(if s.rt.RtBroadcast? then ThreadBroadcast else ThreadUnlock)
    case ByCloser => OfCloser(if s.cl.ClDrain? then CloseDrain else CloseUnlock)
    case Free =>
      if s.cb.CbLock? then OfCallback(CallbackLock)
      else if s.cb.CbSubmit? then OfCallback(CallbackSubmit(true))
      else if s.cb.CbShutdown? then OfCallback(CallbackShutdown)
      else if s.cb.CbCancelled? then OfCallback(CallbackCancelled)
      else if s.cl.ClIdle? then OfCloser(CloseShutdown)
      else if s.cl.ClCancel? then OfCloser(CloseCancel)
      else match s.rt
           case RtBarrier => OfThread(Barrier)
           case RtLoop => OfThread(ThreadTest)
           case RtHandle => OfThread(ThreadReturn(false))
           case RtCancel => OfThread(ThreadCancel)
           case RtDrain => if s.cancelled then OfThread(ThreadDrained) else OfCallback(Complete(Cancelled))
           case RtLock => OfThread(ThreadLock)
           case _ =>
             OfCloser(if s.cl.ClJoin? then CloseJoin
                      else if s.cl.ClFreeTransfer? then CloseFreeTransfer
                      else if s.cl.ClLock? then CloseLock
                      else CloseFree)
  }

  function OwnerRank(s: State): nat {
    if s.mutex.ByReader? && s.mutex.id in s.readers then
      (if s.readers[s.mutex.id].RdHold? then 3 else if s.readers[s.mutex.id].RdTest? then 2 else 1)
    else 0
  }

  function CallbackRank(s: State): nat {
    if s.cancelled then 0
    else match s.cb
         case CbCancelled => 1
         case CbShutdown => 2
         case CbIdle => 3
         case CbSubmit => 4
         case CbUnlock => 5
         case CbHold(_) => 6
         case CbLock(_) => 7
  }

  function ThreadRank(rt: RtPc): nat {
    match rt
    case RtStart => 10
    case RtBarrier => 9
    case RtHandle => 8
    case RtLoop => 7
    case RtCancel => 6
    case RtDrain => 5
    case RtLock => 4
    case RtBroadcast => 3
    case RtUnlock => 2
    case RtDone => 1
  }

  function CloserRank(cl: ClPc): nat {
    match cl
    case ClNotOpen => 9
    case ClIdle => 8
    case ClCancel => 7
    case ClJoin => 6
    case ClFreeTransfer => 5
    case ClLock => 4
    case ClDrain => 3
    case ClUnlock => 2
    case ClFree => 1
    case ClClosed => 0
  }

  function Rank(s: State): nat {
    (MAX_QUEUED + 1) * (OwnerRank(s) + CallbackRank(s) + ThreadRank(s.rt) + CloserRank(s.cl)) + |s.queue|
  }

  /** hid_close has not been overtaken by a lost cancel, and is not over. */
  ghost predicate CanProgress(s: State) {
    Inv(s) && !s.rt.RtStart? && s.firstOk && !CancelLost(s) && !s.cl.ClClosed?
  }

  ghost predicate Nearer(s: State, t: State) {
    !t.rt.RtStart? && t.firstOk && !CancelLost(t) && Rank(t) < Rank(s)
  }

  lemma TowardReader(s: State)
    requires CanProgress(s) && Toward(s).OfReader?
    ensures Apply(s, Toward(s)).Some? && Nearer(s, Apply(s, Toward(s)).value)
  {
    hide QueueInv, SleepInv;
    var id, step := Toward(s).id, Toward(s).reader;
    assert id in s.readers && Holds(s.readers[id]);
    assert ReaderEffect(s, id, s.readers[id], step).Some?;
  }

  lemma TowardCallback(s: State)
    requires CanProgress(s) && Toward(s).OfCallback?
    ensures Attached(Toward(s)) && Apply(s, Toward(s)).Some? && Nearer(s, Apply(s, Toward(s)).value)
  {
    var step := Toward(s).callback;
    assert ApplyCallback(s, step).Some?;
    var t := ApplyCallback(s, step).value;
    assert |t.queue| <= |s.queue| + 1;
    assert OwnerRank(t) <= OwnerRank(s);
    assert CallbackRank(t) < CallbackRank(s);
    assert t.rt == s.rt && t.cl == s.cl;
    RankFalls(s, t);
  }

  lemma RankFalls(s: State, t: State)
    requires |t.queue| <= |s.queue| + 1
    requires OwnerRank(t) + CallbackRank(t) + ThreadRank(t.rt) + CloserRank(t.cl)
           < OwnerRank(s) + CallbackRank(s) + ThreadRank(s.rt) + CloserRank(s.cl)
    ensures Rank(t) < Rank(s)
  {
    hide OwnerRank, CallbackRank, ThreadRank, CloserRank;
  }

  lemma TowardThread(s: State)
    requires CanProgress(s) && Toward(s).OfThread?
    ensures Apply(s, Toward(s)).Some? && Nearer(s, Apply(s, Toward(s)).value)
  {
  }

  lemma TowardCloser(s: State)
    requires CanProgress(s) && Toward(s).OfCloser?
    ensures Apply(s, Toward(s)).Some? && Nearer(s, Apply(s, Toward(s)).value)
  {
  }

  lemma TowardProgresses(s: State)
    requires CanProgress(s)
    ensures Attached(Toward(s)) && Apply(s, Toward(s)).Some? && Nearer(s, Apply(s, Toward(s)).value)
  {
    match Toward(s) {
      case OfThread(_) => TowardThread(s);
      case OfCallback(_) => TowardCallback(s);
      case OfReader(_, _) => TowardReader(s);
      case OfCloser(_) => TowardCloser(s);
    }
  }

  lemma {:induction false} FinishingRun(s: State) returns (steps: seq<Step>)
    requires Inv(s) && !s.rt.RtStart? && s.firstOk && !CancelLost(s)
    ensures AllAttached(steps) && Run(s, steps).Some? && Run(s, steps).value.cl.ClClosed?
    decreases Rank(s)
  {
    if s.cl.ClClosed? {
      steps := [];
    } else {
      TowardProgresses(s);
      InvStep(s, Toward(s));
      var rest := FinishingRun(Apply(s, Toward(s)).value);
      steps := [Toward(s)] + rest;
      assert steps[1..] == rest;
    }
  }

  ghost predicate CloseCanFinish(s: State) {
    exists steps :: AllAttached(steps) && Run(s, steps).Some? && Run(s, steps).value.cl.ClClosed?
  }

  /** With the device attached, hid_close can run to its end from a reachable state if and only if
      the first submission succeeded and no cancellation has been lost. */
  lemma CloseCanFinishIff(ids: set<nat>, steps: seq<Step>, s: State)
    requires Run(Initial(ids), steps) == Some(s) && !s.rt.RtStart?
    ensures CloseCanFinish(s) <==> s.firstOk && !CancelLost(s)
  {
    InitialInv(ids);
    InvRun(Initial(ids), steps);
    if s.firstOk && !CancelLost(s) {
      var run := FinishingRun(s);
    } else {
      forall run | AllAttached(run) && Run(s, run).Some? ensures !Run(s, run).value.cl.ClClosed? {
        HangsForever(s, run);
      }
    }
  }

  /** A lost cancellation does happen: the closer's request finds the transfer being resubmitted, and
      the read thread's request is overtaken by a report that completes the transfer. */
  lemma CancelCanBeLost() returns (steps: seq<Step>, s: State)
    ensures Run(Initial({}), steps) == Some(s) && CancelLost(s) && s.firstOk && AllAttached(steps)
  {
    var s0 := Initial({});
    steps, s := CloserCancelsTooEarly();
    steps, s := Extend(s0, steps, s, OfCallback(CallbackSubmit(true)));
    steps, s := Extend(s0, steps, s, OfThread(ThreadReturn(false)));
    steps, s := Extend(s0, steps, s, OfThread(ThreadTest));
    steps, s := Extend(s0, steps, s, OfThread(ThreadCancel));
    steps, s := Extend(s0, steps, s, OfCallback(Complete(Completed([]))));
  }

  lemma CloserCancelsTooEarly() returns (steps: seq<Step>, s: State)
    ensures Run(Initial({}), steps) == Some(s) && AllAttached(steps)
    ensures s.rt.RtHandle? && s.cb.CbSubmit? && s.cl.ClJoin? && s.firstOk && s.shutdown
    ensures !s.inFlight && !s.cancelPending && !s.cancelled
  {
    hide Run, AllAttached;
    var s0 := Initial({});
    Nothing(s0);
    steps, s := Extend(s0, [], s0, OfThread(FirstSubmit(true)));
    steps, s := Extend(s0, steps, s, OfThread(Barrier));
    steps, s := Extend(s0, steps, s, OfThread(ThreadTest));
    steps, s := Extend(s0, steps, s, OfCallback(Complete(Other)));
    steps, s := Extend(s0, steps, s, OfCloser(CloseShutdown));
    steps, s := Extend(s0, steps, s, OfCloser(CloseCancel));
  }

  lemma Nothing(s: State)
    ensures Run(s, []) == Some(s) && AllAttached([])
  {
  }

  lemma Extend(s0: State, steps: seq<Step>, s: State, step: Step) returns (more: seq<Step>, t: State)
    requires Run(s0, steps) == Some(s) && Apply(s, step).Some?
    ensures more == steps + [step] && t == Apply(s, step).value && Run(s0, more) == Some(t)
    ensures AllAttached(steps) && Attached(step) ==> AllAttached(more)
  {
    more, t := steps + [step], Apply(s, step).value;
    RunSnoc(s0, steps, step);
  }

  // ---------------------------------------------------------------- readers

  /** The reader was handed the report that was taken last, as much of it as fits. */
  predicate HandedLast(s: State, id: nat, call: Call, result: int) {
    && s.taken != [] && s.taken[|s.taken| - 1].Delivered?
    && var last := s.taken[|s.taken| - 1];
       last.reader == id && result == Min(call.length, |last.report|) && last.copied == last.report[..result]
  }

  /** A blocking read reports an error only after a shutdown; until it returns, what it was handed is the report
      taken last. */
  ghost predicate ResultInv(s: State) {
    forall id | id in s.readers ::
      var pc := s.readers[id];
      && (pc.RdWoken? && !pc.wake.Signalled? ==> pc.call.milliseconds != -1)
      && (pc.RdUnlock? && pc.call.milliseconds == -1 ==>
            if pc.result == -1 then s.shutdown else HandedLast(s, id, pc.call, pc.result))
  }

  lemma ResultThread(s: State, step: ThreadStep)
    requires ResultInv(s) && ApplyThread(s, step).Some?
    ensures ResultInv(ApplyThread(s, step).value)
  {
    var t := ApplyThread(s, step).value;
    assert forall id | id in t.readers && t.readers[id].RdUnlock? :: t.readers[id] == s.readers[id];
  }

  /** A report is taken only under the mutex, which a reader about to return holds. */
  lemma ResultCallback(s: State, step: CallbackStep)
    requires MutexInv(s) && ResultInv(s) && ApplyCallback(s, step).Some?
    ensures ResultInv(ApplyCallback(s, step).value)
  {
    var t := ApplyCallback(s, step).value;
    forall id | id in t.readers && t.readers[id].RdUnlock?
      ensures t.readers[id] == s.readers[id] && t.taken == s.taken
    {
      assert Holds(s.readers[id]);
    }
  }

  lemma ResultReader(s: State, id: nat, step: ReaderStep)
    requires MutexInv(s) && ResultInv(s) && id in s.readers && ApplyReader(s, id, step).Some?
    ensures ResultInv(ApplyReader(s, id, step).value)
  {
    var t := ApplyReader(s, id, step).value;
    forall other | other in t.readers && other != id && t.readers[other].RdUnlock? ensures t.taken == s.taken {
      assert Holds(s.readers[other]);
    }
    if t.taken != s.taken {
      assert t.taken[..|s.taken|] == s.taken;
    }
  }

  lemma ResultCloser(s: State, step: CloserStep)
    requires MutexInv(s) && ResultInv(s) && ApplyCloser(s, step).Some?
    ensures ResultInv(ApplyCloser(s, step).value)
  {
    var t := ApplyCloser(s, step).value;
    forall id | id in t.readers && t.readers[id].RdUnlock? ensures t.taken == s.taken {
      assert Holds(s.readers[id]);
    }
  }

  lemma {:induction false} ResultRun(s: State, steps: seq<Step>)
    requires Inv(s) && ResultInv(s) && Run(s, steps).Some?
    ensures ResultInv(Run(s, steps).value)
    decreases |steps|
  {
    if steps != [] {
      InvStep(s, steps[0]);
      match steps[0] {
        case OfThread(t) => ResultThread(s, t);
        case OfCallback(c) => ResultCallback(s, c);
        case OfReader(id, r) => ResultReader(s, id, r);
        case OfCloser(c) => ResultCloser(s, c);
      }
      ResultRun(Apply(s, steps[0]).value, steps[1..]);
    }
  }

  /** A blocking read returns -1 only after a shutdown; otherwise it returns what it copied of the report taken last,
      so 0 only for a report or a buffer without room for a byte. */
  lemma BlockingReadResult(ids: set<nat>, steps: seq<Step>, s: State, id: nat)
    requires Run(Initial(ids), steps) == Some(s)
    requires id in s.readers && s.readers[id].RdUnlock? && s.readers[id].call.milliseconds == -1
    ensures s.readers[id].result == -1 ==> s.shutdown
    ensures s.readers[id].result != -1 ==> HandedLast(s, id, s.readers[id].call, s.readers[id].result)
  {
    InitialInv(ids);
    ResultRun(Initial(ids), steps);
  }

  // ---------------------------------------------------------------- what a read returns

  predicate IsReader(step: Step, id: nat) { step.OfReader? && step.id == id }

  /** The call the reader made last, read off the steps. */
  function LastCall(steps: seq<Step>, id: nat): Option<Call> {
    if steps == [] then None
    else
      var step := steps[|steps| - 1];
      if IsReader(step, id) && step.reader.ReadCall? then Some(step.reader.call) else LastCall(steps[..|steps| - 1], id)
  }

  /** How its last wait in that call ended, if not by a signal from another thread. */
  function LastWake(steps: seq<Step>, id: nat): Option<Wake> {
    if steps == [] then None
    else
      var step := steps[|steps| - 1];
      if IsReader(step, id) && step.reader.ReadCall? then None
      else if IsReader(step, id) && step.reader.ReadWake? then Some(step.reader.wake)
      else LastWake(steps[..|steps| - 1], id)
  }

  predicate GaveUp(wake: Option<Wake>) { wake == Some(TimedOut) || wake == Some(Failed) }

  /** What a program point in a read tells about the call and the steps so far. */
  ghost predicate CallInv(pc: RdPc, queue: seq<Report>, call: Option<Call>, wake: Option<Wake>) {
    && (!pc.RdIdle? ==> call == Some(pc.call))
    && (pc.RdLock? || pc.RdHold? || pc.RdTest? || pc.RdSleep? ==> !GaveUp(wake))
    && (pc.RdWoken? ==>
          if pc.wake.Signalled? then !GaveUp(wake) else wake == Some(pc.wake) && pc.call.milliseconds != -1)
    && (pc.RdTest? || pc.RdSleep? || pc.RdWoken? ==> pc.call.milliseconds == -1 || pc.call.milliseconds > 0)
    && (pc.RdTest? && pc.call.milliseconds != -1 ==> queue == [])
  }

  lemma OwnCallStep(s: State, id: nat, step: ReaderStep, call: Option<Call>, wake: Option<Wake>)
    requires id in s.readers && CallInv(s.readers[id], s.queue, call, wake) && ApplyReader(s, id, step).Some?
    ensures var t := ApplyReader(s, id, step).value;
            CallInv(t.readers[id], t.queue, if step.ReadCall? then Some(step.call) else call,
                    if step.ReadCall? then None else if step.ReadWake? then Some(step.wake) else wake)
  {
  }

  /** The reader is left alone, or woken, and the queue too while it holds the mutex. */
  predicate LeftAlone(s: State, t: State, id: nat)
    requires id in s.readers
  {
    && id in t.readers
    && (t.readers[id] == s.readers[id]
        || (s.readers[id].RdSleep? && t.readers[id] == RdWoken(s.readers[id].call, Signalled)))
    && (Holds(s.readers[id]) ==> t.queue == s.queue && t.taken == s.taken)
  }

  lemma ThreadLeaves(s: State, step: ThreadStep, id: nat)
    requires ApplyThread(s, step).Some? && id in s.readers
    ensures LeftAlone(s, ApplyThread(s, step).value, id)
  {
    hide Sleepers;
  }

  lemma CallbackLeaves(s: State, step: CallbackStep, id: nat)
    requires MutexInv(s) && ApplyCallback(s, step).Some? && id in s.readers
    ensures LeftAlone(s, ApplyCallback(s, step).value, id)
  {
    hide Sleepers, Enqueue, Overflow, Drops;
  }

  lemma ReaderLeaves(s: State, other: nat, step: ReaderStep, id: nat)
    requires MutexInv(s) && other in s.readers && ApplyReader(s, other, step).Some? && id in s.readers && id != other
    ensures LeftAlone(s, ApplyReader(s, other, step).value, id)
  {
  }

  lemma CloserLeaves(s: State, step: CloserStep, id: nat)
    requires MutexInv(s) && ApplyCloser(s, step).Some? && id in s.readers
    ensures LeftAlone(s, ApplyCloser(s, step).value, id)
  {
  }

  lemma OthersLeaveReader(s: State, step: Step, id: nat)
    requires MutexInv(s) && Apply(s, step).Some? && id in s.readers && !IsReader(step, id)
    ensures LeftAlone(s, Apply(s, step).value, id)
  {
    hide LeftAlone, MutexInv, ApplyThread, ApplyCallback, ApplyReader, ApplyCloser;
    match step {
      case OfThread(t) => ThreadLeaves(s, t, id);
      case OfCallback(c) => CallbackLeaves(s, c, id);
      case OfReader(other, r) => ReaderLeaves(s, other, r, id);
      case OfCloser(c) => CloserLeaves(s, c, id);
    }
  }

  lemma {:induction false} CallRun(ids: set<nat>, steps: seq<Step>, s: State, id: nat)
    requires Run(Initial(ids), steps) == Some(s) && id in s.readers
    ensures CallInv(s.readers[id], s.queue, LastCall(steps, id), LastWake(steps, id))
    decreases |steps|
  {
    hide CallInv, Apply, Run, MutexInv;
    if steps == [] {
      AtStart(ids, s, id);
    } else {
      var before, step := steps[..|steps| - 1], steps[|steps| - 1];
      var u := BeforeLast(Initial(ids), steps, s);
      InvBefore(ids, before, u, step);
      CallRun(ids, before, u, id);
      CallStep(u, step, s, id, LastCall(before, id), LastWake(before, id));
    }
  }

  lemma AtStart(ids: set<nat>, s: State, id: nat)
    requires Run(Initial(ids), []) == Some(s) && id in s.readers
    ensures CallInv(s.readers[id], s.queue, LastCall([], id), LastWake([], id))
  {
  }

  lemma BeforeLast(s0: State, steps: seq<Step>, s: State) returns (u: State)
    requires steps != [] && Run(s0, steps) == Some(s)
    ensures Run(s0, steps[..|steps| - 1]) == Some(u) && Apply(u, steps[|steps| - 1]) == Some(s)
  {
    PrefixRuns(s0, steps, |steps| - 1);
    u := Run(s0, steps[..|steps| - 1]).value;
    RunSnoc(s0, steps[..|steps| - 1], steps[|steps| - 1]);
    assert steps == steps[..|steps| - 1] + [steps[|steps| - 1]];
  }

  lemma {:induction false} PrefixRuns(s0: State, steps: seq<Step>, k: nat)
    requires Run(s0, steps).Some? && k <= |steps|
    ensures Run(s0, steps[..k]).Some?
    decreases k
  {
    if k > 0 {
      hide Apply;
      PrefixRuns(Apply(s0, steps[0]).value, steps[1..], k - 1);
      assert steps[..k][1..] == steps[1..][..k - 1];
    }
  }

  lemma CallStep(s: State, step: Step, t: State, id: nat, call: Option<Call>, wake: Option<Wake>)
    requires MutexInv(s) && Apply(s, step) == Some(t) && id in s.readers && id in t.readers
    requires CallInv(s.readers[id], s.queue, call, wake)
    ensures CallInv(t.readers[id], t.queue,
                    if IsReader(step, id) && step.reader.ReadCall? then Some(step.reader.call) else call,
                    if IsReader(step, id) && step.reader.ReadCall? then None
                    else if IsReader(step, id) && step.reader.ReadWake? then Some(step.reader.wake)
                    else wake)
  {
    if IsReader(step, id) {
      hide CallInv;
      OwnCallStep(s, id, step.reader, call, wake);
    } else {
      hide Apply;
      OthersLeaveReader(s, step, id);
    }
  }

  /** What a read returns that decides in state u, after its last wait ended with wake. */
  function Returned(u: State, call: Call, wake: Option<Wake>): int {
    if wake == Some(TimedOut) then 0
    else if wake == Some(Failed) then -1
    else if u.queue != [] then Min(call.length, |u.queue[0]|)
    else if u.shutdown then -1
    else 0
  }

  /** The log of taken reports after that: the oldest report goes to the reader unless the wait gave up. */
  function TakenBy(u: State, id: nat, call: Call, wake: Option<Wake>): seq<Taken> {
    if GaveUp(wake) || u.queue == [] then u.taken
    else u.taken + [Delivered(id, u.queue[0], u.queue[0][..Min(call.length, |u.queue[0]|)])]
  }

  ghost predicate ReturnsFrom(u: State, id: nat, s: State, wake: Option<Wake>)
    requires id in s.readers && s.readers[id].RdUnlock?
  {
    var call := s.readers[id].call;
    && s.readers[id].result == Returned(u, call, wake) && s.taken == TakenBy(u, id, call, wake)
    && (GaveUp(wake) ==> call.milliseconds > 0)
    && (!GaveUp(wake) && u.queue == [] && !u.shutdown ==> call.milliseconds != -1 && call.milliseconds <= 0)
  }

  /** The step that takes a reader to its return decides. */
  lemma Decides(u: State, id: nat, step: ReaderStep, call: Option<Call>, wake: Option<Wake>)
    requires id in u.readers && CallInv(u.readers[id], u.queue, call, wake) && ApplyReader(u, id, step).Some?
    requires ApplyReader(u, id, step).value.readers[id].RdUnlock?
    ensures ReturnsFrom(u, id, ApplyReader(u, id, step).value, wake)
    ensures !step.ReadCall? && !step.ReadWake?
  {
  }

  lemma ReturnsStays(u: State, id: nat, s: State, t: State, wake: Option<Wake>)
    requires id in s.readers && s.readers[id].RdUnlock? && ReturnsFrom(u, id, s, wake)
    requires id in t.readers && t.readers[id] == s.readers[id] && t.taken == s.taken
    ensures ReturnsFrom(u, id, t, wake)
  {
  }

  lemma OwnStep(s: State, step: Step, id: nat, t: State)
    requires Apply(s, step) == Some(t) && IsReader(step, id)
    ensures id in s.readers && ApplyReader(s, id, step.reader) == Some(t)
  {
  }

  lemma InvBefore(ids: set<nat>, steps: seq<Step>, s: State, step: Step)
    requires Run(Initial(ids), steps) == Some(s) && Apply(s, step).Some?
    ensures MutexInv(s) && Apply(s, step).value.readers.Keys == s.readers.Keys
  {
    InitialInv(ids);
    InvRun(Initial(ids), steps);
    ReaderKeys(s, step);
  }

  lemma LastStep(steps: seq<Step>, id: nat)
    requires steps != []
    ensures var before, step := steps[..|steps| - 1], steps[|steps| - 1];
            || (IsReader(step, id) && (step.reader.ReadCall? || step.reader.ReadWake?))
            || (LastCall(steps, id) == LastCall(before, id) && LastWake(steps, id) == LastWake(before, id))
  {
  }

  lemma SomeStepTaken(ids: set<nat>, steps: seq<Step>, s: State, id: nat)
    requires Run(Initial(ids), steps) == Some(s) && id in s.readers && s.readers[id].RdUnlock?
    ensures steps != []
  {
  }

  /** hid_read_timeout in every run: a reader about to return does so from the state u in which it took its last step,
      for the call it was asked to make. A wait that timed out gives 0 and one that failed -1; otherwise a report in the
      queue is handed over, a shutdown gives -1, and only a call that does not wait can find neither. */
  lemma {:induction false} ReadResult(ids: set<nat>, steps: seq<Step>, s: State, id: nat) returns (k: nat, u: State)
    requires Run(Initial(ids), steps) == Some(s) && id in s.readers && s.readers[id].RdUnlock?
    ensures k < |steps| && IsReader(steps[k], id) && forall j | k < j < |steps| :: !IsReader(steps[j], id)
    ensures Run(Initial(ids), steps[..k]) == Some(u) && ReturnsFrom(u, id, s, LastWake(steps, id))
    ensures LastCall(steps, id) == Some(s.readers[id].call)
    decreases |steps|
  {
    hide Run, Apply, Inv, LastCall, LastWake, ReturnsFrom;
    SomeStepTaken(ids, steps, s, id);
    CallRun(ids, steps, s, id);
    var before, step := steps[..|steps| - 1], steps[|steps| - 1];
    var v := BeforeLast(Initial(ids), steps, s);
    InvBefore(ids, before, v, step);
    LastStep(steps, id);
    if IsReader(step, id) {
      k, u := |steps| - 1, v;
      CallRun(ids, before, v, id);
      OwnStep(v, step, id, s);
      Decides(v, id, step.reader, LastCall(before, id), LastWake(before, id));
    } else {
      OthersLeaveReader(v, step, id);
      k, u := ReadResult(ids, before, v, id);
      assert before[..k] == steps[..k];
      ReturnsStays(u, id, v, s, LastWake(steps, id));
    }
  }

  // ---------------------------------------------------------------- what the device sent

  /** The reports with which transfers completed, read off the steps. */
  function Sent(steps: seq<Step>): seq<Report> {
    if steps == [] then []
    else Sent(steps[..|steps| - 1]) + SentBy(steps[|steps| - 1])
  }

  function SentBy(step: Step): seq<Report> {
    if step.OfCallback? && step.callback.Complete? && step.callback.status.Completed?
    then [step.callback.status.report] else []
  }

  /** The report the callback is about to attach. */
  function InHand(s: State): seq<Report> {
    if s.cb.CbLock? || s.cb.CbHold? then [s.cb.r] else []
  }

  lemma SentByCallback(s: State, step: CallbackStep)
    requires ApplyCallback(s, step).Some?
    ensures var t := ApplyCallback(s, step).value;
            t.received + InHand(t) == s.received + InHand(s) + SentBy(OfCallback(step))
  {
    hide Sleepers, WakeAll, Enqueue, Overflow, Drops;
  }

  predicate SameReceived(s: State, t: State) { t.received == s.received && t.cb == s.cb }

  lemma ThreadReceives(s: State, step: ThreadStep)
    requires ApplyThread(s, step).Some?
    ensures SameReceived(s, ApplyThread(s, step).value)
  {
    hide Sleepers, WakeAll;
  }

  lemma ReaderReceives(s: State, id: nat, step: ReaderStep)
    requires id in s.readers && ApplyReader(s, id, step).Some?
    ensures SameReceived(s, ApplyReader(s, id, step).value)
  {
    hide ReaderEffect;
  }

  lemma CloserReceives(s: State, step: CloserStep)
    requires ApplyCloser(s, step).Some?
    ensures SameReceived(s, ApplyCloser(s, step).value)
  {
  }

  lemma OnlyCallbackReceives(s: State, step: Step)
    requires Apply(s, step).Some? && !step.OfCallback?
    ensures SameReceived(s, Apply(s, step).value)
  {
    hide ApplyThread, ApplyReader, ApplyCloser, SameReceived;
    match step {
      case OfThread(t) => ThreadReceives(s, t);
      case OfReader(id, r) => ReaderReceives(s, id, r);
      case OfCloser(c) => CloserReceives(s, c);
    }
  }

  lemma SentStep(s: State, step: Step)
    requires Apply(s, step).Some?
    ensures var t := Apply(s, step).value; t.received + InHand(t) == s.received + InHand(s) + SentBy(step)
  {
    if step.OfCallback? {
      SentByCallback(s, step.callback);
    } else {
      hide Apply;
      OnlyCallbackReceives(s, step);
    }
  }

  /** In every run each report the device sent has been taken off the queue, is in it, or is in the callback's hand, in
      the order in which they were sent. */
  lemma {:induction false} NothingSentIsMissed(ids: set<nat>, steps: seq<Step>, s: State)
    requires Run(Initial(ids), steps) == Some(s)
    ensures Sent(steps) == Reports(s.taken) + s.queue + InHand(s)
  {
    hide Run, Apply;
    SentIsReceived(ids, steps, s);
    Safety(ids, steps, s);
  }

  lemma {:induction false} SentIsReceived(ids: set<nat>, steps: seq<Step>, s: State)
    requires Run(Initial(ids), steps) == Some(s)
    ensures Sent(steps) == s.received + InHand(s)
    decreases |steps|
  {
    if steps == [] {
      assert s == Initial(ids);
    } else {
      hide Run, Apply;
      var before, step := steps[..|steps| - 1], steps[|steps| - 1];
      var u := BeforeLast(Initial(ids), steps, s);
      SentIsReceived(ids, before, u);
      SentStep(u, step);
    }
  }

  // ---------------------------------------------------------------- what closing leaves

  /** hid_close has emptied the queue. */
  predicate Emptied(s: State) { s.cl.ClUnlock? || s.cl.ClFree? || s.cl.ClClosed? }

  predicate StaysEmpty(s: State, t: State) {
    (Emptied(s) ==> s.queue == []) ==> (Emptied(t) ==> t.queue == [])
  }

  lemma ThreadStaysEmpty(s: State, step: ThreadStep)
    requires TransferInv(s) && ApplyThread(s, step).Some?
    ensures StaysEmpty(s, ApplyThread(s, step).value)
  {
    hide Sleepers, WakeAll;
  }

  lemma ReaderStaysEmpty(s: State, id: nat, step: ReaderStep)
    requires id in s.readers && ApplyReader(s, id, step).Some?
    ensures StaysEmpty(s, ApplyReader(s, id, step).value)
  {
  }

  lemma CloserStaysEmpty(s: State, step: CloserStep)
    requires ApplyCloser(s, step).Some?
    ensures StaysEmpty(s, ApplyCloser(s, step).value)
  {
  }

  lemma EmptiedStep(s: State, step: Step)
    requires TransferInv(s) && Apply(s, step).Some?
    ensures StaysEmpty(s, Apply(s, step).value)
  {
    hide TransferInv, ApplyThread, ApplyCallback, ApplyReader, ApplyCloser;
    match step {
      case OfThread(t) => ThreadStaysEmpty(s, t);
      case OfCallback(c) => CallbackWhileOpen(s, c);
      case OfReader(id, r) => ReaderStaysEmpty(s, id, r);
      case OfCloser(c) => CloserStaysEmpty(s, c);
    }
  }

  lemma CallbackWhileOpen(s: State, step: CallbackStep)
    requires TransferInv(s) && ApplyCallback(s, step).Some?
    ensures !Emptied(s) && ApplyCallback(s, step).value.cl == s.cl
  {
    hide Sleepers, WakeAll, Enqueue, Overflow, Drops;
  }

  /** In every run, once hid_close has let go of the mutex no report is left. */
  lemma {:induction false} CloseLeavesNothing(ids: set<nat>, steps: seq<Step>, s: State)
    requires Run(Initial(ids), steps) == Some(s)
    ensures Emptied(s) ==> s.queue == []
    decreases |steps|
  {
    if steps == [] {
      assert s == Initial(ids);
    } else {
      hide Run, Apply, TransferInv;
      var before, step := steps[..|steps| - 1], steps[|steps| - 1];
      var u := BeforeLast(Initial(ids), steps, s);
      CloseLeavesNothing(ids, before, u);
      InitialInv(ids);
      InvRun(Initial(ids), before);
      EmptiedStep(u, step);
    }
  }

  // ---------------------------------------------------------------- lost wake-ups

  /** One reader sleeps beside a report, and nobody is left who is about to do anything. */
  ghost predicate Stuck(s: State) {
    && s.queue != [] && s.mutex.Free? && s.cb.CbIdle?
    && exists id :: id in s.readers && s.readers[id].RdSleep?
                    && forall other | other in s.readers && other != id :: s.readers[other].RdIdle?
  }

  ghost predicate CanGetStuck(ids: set<nat>) {
    exists steps, s :: Run(Initial(ids), steps) == Some(s) && AllAttached(steps) && Stuck(s)
  }

  /** A wake-up can be lost if and only if there are two readers or more. */
  lemma CanGetStuckIff(ids: set<nat>)
    ensures CanGetStuck(ids) <==> |ids| >= 2
  {
    if CanGetStuck(ids) {
      var steps, s :| Run(Initial(ids), steps) == Some(s) && AllAttached(steps) && Stuck(s);
      FewReadersNeverStuck(ids, steps, s);
    } else if |ids| >= 2 {
      var a :| a in ids;
      var b :| b in ids - {a} by {
        assert |ids - {a}| == |ids| - 1;
      }
      var steps, s := TwoReadersLoseWakeup(ids, a, b, [], []);
      assert CanGetStuck(ids);
    }
  }

  lemma FewReadersNeverStuck(ids: set<nat>, steps: seq<Step>, s: State)
    requires Run(Initial(ids), steps) == Some(s) && Stuck(s)
    ensures |ids| >= 2
  {
    ReadersKept(Initial(ids), steps);
    var id :| id in s.readers && s.readers[id].RdSleep?;
    assert s.readers.Keys == Initial(ids).readers.Keys == ids;
    assert id in ids && id in Sleepers(s);
    if |ids| == 1 {
      Safety(ids, steps, s);
    }
  }

  /** Nobody steps except the callback, the closer and the read thread short of its broadcast. */
  predicate WakesNobody(step: Step) {
    !step.OfReader? && step != OfThread(ThreadBroadcast)
  }

  lemma SleepsOn(s: State, step: Step, id: nat)
    requires Inv(s) && s.queue != [] && id in s.readers && s.readers[id].RdSleep?
    requires WakesNobody(step) && Apply(s, step).Some?
    ensures var t := Apply(s, step).value; t.queue != [] && id in t.readers && t.readers[id].RdSleep?
  {
    hide MutexInv, QueueInv;
    assert id in Sleepers(s);
    match step {
      case OfThread(_) =>
      case OfCallback(_) =>
      case OfReader(_, _) =>
      case OfCloser(c) => assert !s.rt.RtDone?;
    }
  }

  /** In any run without a spurious wake-up, another reader or the final broadcast, the reader sleeps on beside
      the reports: later reports do not signal a queue that is not empty. */
  lemma {:induction false} LostWakeupLasts(s: State, steps: seq<Step>, id: nat)
    requires Inv(s) && s.queue != [] && id in s.readers && s.readers[id].RdSleep?
    requires (forall step | step in steps :: WakesNobody(step)) && Run(s, steps).Some?
    ensures var t := Run(s, steps).value; t.queue != [] && id in t.readers && t.readers[id].RdSleep?
    decreases |steps|
  {
    if steps != [] {
      hide Apply, Inv, WakesNobody;
      InvStep(s, steps[0]);
      SleepsOn(s, steps[0], id);
      LostWakeupLasts(Apply(s, steps[0]).value, steps[1..], id);
    }
  }

  /** The run: both sleep, one report signals a, a second finds the queue not empty, and a takes the first. */
  lemma TwoReadersLoseWakeup(ids: set<nat>, a: nat, b: nat, r: Report, q: Report) returns (steps: seq<Step>, s: State)
    requires a in ids && b in ids && a != b
    ensures Run(Initial(ids), steps) == Some(s) && AllAttached(steps)
    ensures s.queue == [q] && s.mutex.Free? && s.cb.CbIdle? && s.readers.Keys == ids
    ensures s.readers[b].RdSleep? && forall other | other in ids && other != b :: s.readers[other].RdIdle?
    ensures Stuck(s)
  {
    var s0 := Initial(ids);
    var call := Call(64, -1);
    steps, s := OneSignalTwoReports(ids, a, b, call, r, q);
    steps, s := Extend(s0, steps, s, OfReader(a, ReadRelock));
    steps, s := Extend(s0, steps, s, OfReader(a, ReadLoopTest));
    steps, s := Extend(s0, steps, s, OfReader(a, ReadUnlock));
  }

  lemma OneSignalTwoReports(ids: set<nat>, a: nat, b: nat, call: Call, r: Report, q: Report)
    returns (steps: seq<Step>, s: State)
    requires call.milliseconds == -1 && a in ids && b in ids && a != b
    ensures Run(Initial(ids), steps) == Some(s) && AllAttached(steps) && s.cl.ClIdle?
    ensures s.queue == [r, q] && s.mutex.Free? && s.cb.CbIdle?
    ensures s.readers == Initial(ids).readers[a := RdWoken(call, Signalled)][b := RdSleep(call)]
  {
    steps, s := TwoSleepers(ids, a, b, call);
    assert {a} <= Sleepers(s);
    steps, s := Arrives(ids, steps, s, r, {a});
    steps, s := Arrives(ids, steps, s, q, {});
    assert s.readers == Initial(ids).readers[a := RdWoken(call, Signalled)][b := RdSleep(call)];
  }

  /** A report arrives while nobody holds the mutex, and the transfer is submitted again. */
  lemma Arrives(ids: set<nat>, before: seq<Step>, s: State, r: Report, woken: set<nat>)
    returns (steps: seq<Step>, t: State)
    requires Run(Initial(ids), before) == Some(s) && AllAttached(before) && !s.cl.ClClosed?
    requires s.inFlight && s.cb.CbIdle? && s.mutex.Free?
    requires if s.queue == [] then {} < woken <= Sleepers(s) else woken == {}
    ensures Run(Initial(ids), steps) == Some(t) && AllAttached(steps) && t.cl == s.cl
    ensures t.queue == Enqueue(s.queue, r) && t.inFlight && t.cb.CbIdle? && t.mutex.Free?
    ensures t.readers == WakeAll(s.readers, woken) && t.readers.Keys == s.readers.Keys
  {
    hide Run, AllAttached;
    var s0 := Initial(ids);
    WakeAllKeys(s.readers, woken);
    steps, t := Extend(s0, before, s, OfCallback(Complete(Completed(r))));
    steps, t := Extend(s0, steps, t, OfCallback(CallbackLock));
    steps, t := Extend(s0, steps, t, OfCallback(CallbackAttach(woken)));
    steps, t := Extend(s0, steps, t, OfCallback(CallbackUnlock));
    steps, t := Extend(s0, steps, t, OfCallback(CallbackSubmit(true)));
  }

  lemma TwoSleepers(ids: set<nat>, a: nat, b: nat, call: Call) returns (steps: seq<Step>, s: State)
    requires call.milliseconds == -1 && a in ids && b in ids && a != b
    ensures Run(Initial(ids), steps) == Some(s) && AllAttached(steps)
    ensures s.queue == [] && s.inFlight && s.mutex.Free? && s.cb.CbIdle? && s.cl.ClIdle? && !s.shutdown
    ensures s.readers == Initial(ids).readers[a := RdSleep(call)][b := RdSleep(call)]
  {
    var s0 := Initial(ids);
    steps, s := Extend(s0, [], s0, OfThread(FirstSubmit(true)));
    steps, s := Extend(s0, steps, s, OfThread(Barrier));
    steps, s := FallsAsleep(ids, steps, s, a, call);
    steps, s := FallsAsleep(ids, steps, s, b, call);
  }

  lemma FallsAsleep(ids: set<nat>, before: seq<Step>, s: State, id: nat, call: Call)
    returns (steps: seq<Step>, t: State)
    requires Run(Initial(ids), before) == Some(s) && AllAttached(before)
    requires call.milliseconds == -1 && id in s.readers && s.readers[id].RdIdle?
    requires s.queue == [] && s.mutex.Free? && s.cl.ClIdle? && !s.shutdown
    ensures Run(Initial(ids), steps) == Some(t) && AllAttached(steps)
    ensures t == s.(readers := s.readers[id := RdSleep(call)])
  {
    hide Run, AllAttached;
    var s0 := Initial(ids);
    steps, t := Extend(s0, before, s, OfReader(id, ReadCall(call)));
    steps, t := Extend(s0, steps, t, OfReader(id, ReadLock));
    steps, t := Extend(s0, steps, t, OfReader(id, ReadFirstTest));
    steps, t := Extend(s0, steps, t, OfReader(id, ReadLoopTest));
    assert t.readers == s.readers[id := RdSleep(call)];
  }
}
