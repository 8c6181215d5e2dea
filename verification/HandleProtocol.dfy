/** Reads, takes, writes, sends, signals and closes on one handle as a step relation, with any number of calling
    threads (esd/src/esdcan_common.c, PREEMPT_RT branch).

    Everything a thread does while it holds the node lock is one step, with the callbacks the nucleus makes meanwhile.
    Waiting follows wait_event: a waiter evaluates its condition without the lock, sleeps if it is false, and
    evaluates it again after the next wake-up of its queue; queues count their wake-ups.

    The nucleus is an environment. It reports each job it has accepted by one callback, at any time from inside the
    call that started it on; a call it rejects makes no callback. It keeps at most one TX job per handle: frames it
    accepts later are added to the job it still has. When it is asked about an unfinished send it names no more frames
    than that job has, and from then on counts those; tx_done reports no more frames than the job has. An abort makes
    the outstanding job report, now or later, and on a take before nuc_rx_abort returns: the take reads the result
    right after that call, and the driver's own remark in rx_done relies on it too. close_done comes once, after
    nuc_close was called and when no TX job is outstanding. */
module HandleProtocol {
  import opened Handle
  import opened Basics

  datatype Report = Report(result: int, count: nat)

  datatype Phase =
    | Eval                           // about to evaluate the condition of the interruptible wait
    | Sleep(seen: nat)               // found it false when the queue had counted so many wake-ups
    | Signalled                      // interrupted, about to take the lock
    | AbortEval                      // in the uninterruptible wait for the aborted job
    | AbortSleep(seen: nat)
    | Harvest(interrupted: bool)     // about to take the lock and leave

  /** The variables of a read or write inside the driver; `pending` are the frames of an unfinished send. */
  datatype Waiter = Waiter(t: nat, phase: Phase, pending: nat)

  /** `intr` counts wake_up_interruptible, which reaches interruptible waiters only. */
  datatype Queue = Queue(all: nat, intr: nat)

  /** What belongs to one direction besides the Job in the handle: whether the nucleus holds a job and, for TX, how
      many frames that may report; what it has reported since the waiter began, the waiter and its queue. */
  datatype Side = Side(inNucleus: bool, load: nat, report: Option<nat>, waiter: Option<Waiter>, wq: Queue)

  datatype Call = InRead | InWrite | InClose | Returned(outcome: Outcome)

  datatype State = State(
    h: Handle,
    rx: Side,
    tx: Side,
    nucCloses: nat,
    calls: map<nat, Call>,
    closer: Option<Waiter>,
    wqClose: Queue)

  const NEW_SIDE := Side(false, 0, None, None, Queue(0, 0))
  const INIT := State(FRESH, NEW_SIDE, NEW_SIDE, 0, map[], None, Queue(0, 0))

  datatype Step =
    | ReadCall(t: nat, accepted: bool, now: Option<Report>)
    | TakeCall(t: nat, accepted: bool, first: Option<Report>, last: Report)
    | TakeObjectCall(t: nat, accepted: bool, count: nat)
    | WriteCall(t: nat, count: nat, query: Query, accepted: bool, taken: nat, now: Option<Report>)
    | SendCall(t: nat, accepted: bool, taken: nat, now: Option<Report>)
    | Evaluate(dir: Direction, signal: bool)
    | Wakes(dir: Direction)
    | Signal(dir: Direction)
    | Abort(dir: Direction, now: Option<Report>)
    | AbortEvaluate(dir: Direction)
    | AbortWakes(dir: Direction)
    | Leave(dir: Direction)
    | DestroyCall(t: nat, rxNow: Option<Report>, txNow: Option<Report>, done: bool)
    | ReleaseCall(t: nat, rxNow: Option<Report>, txNow: Option<Report>, done: bool)
    | CloseEvaluate | CloseWakes | CloseReturns
    | NucDone(dir: Direction, report: Report)
    | NucCloseDone

  /** What a write learns about an unfinished send. */
  datatype Query = QueryFails | Deferred | Unfinished(pending: nat)

  function SideOf(s: State, dir: Direction): Side {
    if dir.Rx? then s.rx else s.tx
  }

  function JobOf(s: State, dir: Direction): Job {
    if dir.Rx? then s.h.rx else s.h.tx
  }

  function With(s: State, dir: Direction, job: Job, side: Side): State {
    if dir.Rx? then s.(h := s.h.(rx := job), rx := side) else s.(h := s.h.(tx := job), tx := side)
  }

  function Role(dir: Direction): Call {
    if dir.Rx? then InRead else InWrite
  }

  function InterruptibleCount(q: Queue): nat { q.all + q.intr }

  function WakeQueue(q: Queue, wake: Wake): Queue {
    match wake
    case Everybody => q.(all := q.all + 1)
    case Interruptible => q.(intr := q.intr + 1)
    case _ => q
  }

  function Return(s: State, t: nat, o: Outcome): State {
    s.(calls := s.calls[t := Returned(o)])
  }

  // ---------------------------------------------------------------- callbacks

  function Done(dir: Direction, job: Job, side: Side, r: Report): (Job, Side) {
    var (job', wake) := DoneSpec(dir, job, r.result, r.count);
    (job', Side(false, 0, if side.waiter.Some? then Some(r.count) else side.report, side.waiter, WakeQueue(side.wq, wake)))
  }

  function MaybeDone(dir: Direction, job: Job, side: Side, r: Option<Report>): (Job, Side) {
    if r.Some? then Done(dir, job, side, r.value) else (job, side)
  }

  function Callback(s: State, dir: Direction, r: Option<Report>): State {
    var (job, side) := MaybeDone(dir, JobOf(s, dir), SideOf(s, dir), r);
    With(s, dir, job, side)
  }

  function CloseCallback(s: State, yes: bool): State {
    if yes then s.(h := s.h.(closeDone := true), wqClose := WakeQueue(s.wqClose, Everybody)) else s
  }

  // ---------------------------------------------------------------- the waiter of one direction

  function At(side: Side, phase: Phase): Side
    requires side.waiter.Some?
  {
    side.(waiter := Some(side.waiter.value.(phase := phase)))
  }

  function Evaluated(job: Job, side: Side, signal: bool): Side
    requires side.waiter.Some?
  {
    At(side, if Ready(job, side.waiter.value.pending) then Harvest(false)
             else if signal then Signalled
             else Sleep(InterruptibleCount(side.wq)))
  }

  /** The interrupted waiter with the lock: it aborts the job, which may report at once. */
  function Aborted(dir: Direction, job: Job, side: Side, now: Option<Report>): (Job, Side)
    requires side.waiter.Some?
  {
    var (job', abort) := InterruptSpec(job, side.waiter.value.pending);
    if abort then MaybeDone(dir, job', At(side, AbortEval), now) else (job, At(side, Harvest(false)))
  }

  function AbortEvaluated(job: Job, side: Side): Side
    requires side.waiter.Some?
  {
    At(side, if job.flags.signal then AbortSleep(side.wq.all) else Harvest(true))
  }

  function Begin(dir: Direction, job: Job, side: Side, t: nat, pending: nat, load: nat, now: Option<Report>): (Job, Side) {
    MaybeDone(dir, if dir.Rx? then Job(SYNC, 0, 0) else job.(flags := SYNC),
              Side(true, load, None, Some(Waiter(t, Eval, pending)), side.wq), now)
  }

  function BeginIn(s: State, dir: Direction, t: nat, pending: nat, load: nat, now: Option<Report>): State {
    var (job, side) := Begin(dir, JobOf(s, dir), SideOf(s, dir), t, pending, load, now);
    With(s, dir, job, side).(calls := s.calls[t := Role(dir)])
  }

  function LeaveIn(s: State, dir: Direction): State
    requires SideOf(s, dir).waiter.Some? && SideOf(s, dir).waiter.value.phase.Harvest?
  {
    var side := SideOf(s, dir);
    var w := side.waiter.value;
    var (job, o, wake) := FinishSpec(JobOf(s, dir), w.pending, w.phase.interrupted);
    var s' := With(s, dir, job, side.(waiter := None));
    Return(if wake then s'.(wqClose := WakeQueue(s.wqClose, Everybody)) else s', w.t, o)
  }

  // ---------------------------------------------------------------- requests that do not wait

  /** A take outside object mode: nuc_rx may report at once; if no frame has come, the abort makes the job report. */
  function Taken(job: Job, side: Side, first: Option<Report>, last: Report): (Job, Side) {
    var (j1, s1) := MaybeDone(Rx, Job(ASYNC, 0, job.result), side.(inNucleus := true), first);
    if j1.count == 0 && s1.inNucleus then Done(Rx, j1, s1, last) else (j1, s1)
  }

  function EndTake(s: State, t: nat, job: Job, side: Side): State {
    var (job', o) := TakeEndSpec(job);
    Return(With(s, Rx, job', side), t, o)
  }

  /** The frames of the TX job the nucleus has. */
  function Load(side: Side): nat {
    if side.inNucleus then side.load else 0
  }

  function SendIn(s: State, t: nat, taken: nat, now: Option<Report>): State {
    var (job, side) := MaybeDone(Tx, s.h.tx.(flags := ASYNC), s.tx.(inNucleus := true, load := Load(s.tx) + taken), now);
    Return(With(s, Tx, job, side), t, Accepted)
  }

  /** The frames of an unfinished send that a write puts up with. */
  function PendingOf(s: State, query: Query): nat {
    if s.h.tx.flags.async && query.Unfinished? then query.pending else 0
  }

  /** The frames of the job once the nucleus has accepted `taken` frames of a write. */
  function LoadWith(s: State, query: Query, taken: nat): nat {
    taken + if s.h.tx.flags.async then PendingOf(s, query) else Load(s.tx)
  }

  /** A write that passed the first tests. If a send is unfinished the nucleus is asked about it. */
  function AdmitWrite(s: State, t: nat, query: Query, accepted: bool, taken: nat, now: Option<Report>): State {
    if s.h.tx.flags.async && query.QueryFails? then Return(s, t, Restart)
    else if s.h.tx.flags.async && query.Deferred? then Return(s, t, Pending)
    else if !accepted then Return(s, t, Rejected)
    else BeginIn(s, Tx, t, PendingOf(s, query), LoadWith(s, query, taken), now)
  }

  // ---------------------------------------------------------------- close

  /** A callback is possible for an outstanding job; tx_done reports no more frames than that has. */
  predicate MayReport(dir: Direction, side: Side, r: Option<Report>) {
    r.Some? ==> side.inNucleus && (dir.Tx? ==> r.value.count <= side.load)
  }

  predicate CallbacksPossible(s: State, rxNow: Option<Report>, txNow: Option<Report>, done: bool) {
    && MayReport(Rx, s.rx, rxNow)
    && MayReport(Tx, s.tx, txNow)
    && (done ==> txNow.Some? || !s.tx.inNucleus)
  }

  function BeginClose(s: State, t: nat, rxNow: Option<Report>, txNow: Option<Report>, done: bool): State {
    var s1 := s.(h := DestroyBeginSpec(s.h), nucCloses := s.nucCloses + 1);
    var s2 := CloseCallback(Callback(Callback(s1, Rx, rxNow), Tx, txNow), done);
    s2.(calls := s.calls[t := InClose], closer := Some(Waiter(t, Eval, 0)))
  }

  function CloserAt(s: State, phase: Phase): State
    requires s.closer.Some?
  {
    s.(closer := Some(s.closer.value.(phase := phase)))
  }

  // ---------------------------------------------------------------- steps

  predicate InPhase(w: Option<Waiter>, p: Phase -> bool) {
    w.Some? && p(w.value.phase)
  }

  ghost predicate Enabled(s: State, step: Step) {
    match step
    case ReadCall(t, _, _) => t !in s.calls
    case TakeCall(t, _, _, _) => t !in s.calls
    case TakeObjectCall(t, _, _) => t !in s.calls
    case WriteCall(t, count, query, _, taken, now) =>
      && t !in s.calls && taken <= count
      && PendingOf(s, query) <= s.tx.load
      && (now.Some? ==> now.value.count <= LoadWith(s, query, taken))
    case SendCall(t, _, taken, now) => t !in s.calls && (now.Some? ==> now.value.count <= Load(s.tx) + taken)
    case Evaluate(dir, _) => InPhase(SideOf(s, dir).waiter, (p: Phase) => p.Eval?)
    case Wakes(dir) =>
      InPhase(SideOf(s, dir).waiter, (p: Phase) => p.Sleep? && p.seen != InterruptibleCount(SideOf(s, dir).wq))
    case Signal(dir) => InPhase(SideOf(s, dir).waiter, (p: Phase) => p.Sleep?)
    case Abort(dir, now) =>
      InPhase(SideOf(s, dir).waiter, (p: Phase) => p.Signalled?) && MayReport(dir, SideOf(s, dir), now)
    case AbortEvaluate(dir) => InPhase(SideOf(s, dir).waiter, (p: Phase) => p.AbortEval?)
    case AbortWakes(dir) =>
      InPhase(SideOf(s, dir).waiter, (p: Phase) => p.AbortSleep? && p.seen != SideOf(s, dir).wq.all)
    case Leave(dir) => InPhase(SideOf(s, dir).waiter, (p: Phase) => p.Harvest?)
    case DestroyCall(t, rxNow, txNow, done) => t !in s.calls && CallbacksPossible(s, rxNow, txNow, done)
    case ReleaseCall(t, rxNow, txNow, done) =>
      t !in s.calls && CallbacksPossible(s, rxNow, txNow, done) && forall u | u in s.calls :: s.calls[u].Returned?
    case CloseEvaluate => InPhase(s.closer, (p: Phase) => p.Eval?)
    case CloseWakes => InPhase(s.closer, (p: Phase) => p.Sleep? && p.seen != s.wqClose.all)
    case CloseReturns => InPhase(s.closer, (p: Phase) => p.Harvest?)
    case NucDone(dir, r) => SideOf(s, dir).inNucleus && MayReport(dir, SideOf(s, dir), Some(r))
    case NucCloseDone => s.nucCloses > 0 && !s.h.closeDone && !s.tx.inNucleus
  }

  function Apply(s: State, step: Step): State
    requires Enabled(s, step)
  {
    match step
    case ReadCall(t, accepted, now) =>
      if RxRefusal(s.h).Some? then Return(s, t, RxRefusal(s.h).value)
      else if !accepted then Return(s.(h := s.h.(rx := Job(IDLE, 0, 0))), t, Rejected)
      else BeginIn(s, Rx, t, 0, 0, now)
    case TakeCall(t, accepted, first, last) =>
      if RxRefusal(s.h).Some? then Return(s, t, RxRefusal(s.h).value)
      else if !accepted then Return(s.(h := s.h.(rx := Job(IDLE, 0, s.h.rx.result))), t, Rejected)
      else
        var (job, side) := Taken(s.h.rx, s.rx, first, last);
        EndTake(s, t, job, side)
    case TakeObjectCall(t, accepted, count) =>
      if RxRefusal(s.h).Some? then Return(s, t, RxRefusal(s.h).value)
      else if !accepted then Return(s.(h := s.h.(rx := Job(IDLE, 0, s.h.rx.result))), t, Rejected)
      else EndTake(s, t, Job(ASYNC, count, s.h.rx.result), s.rx)
    case WriteCall(t, count, query, accepted, taken, now) =>
      if WriteRefusal(s.h, count).Some? then Return(s, t, WriteRefusal(s.h, count).value)
      else AdmitWrite(s, t, query, accepted, taken, now)
    case SendCall(t, accepted, taken, now) =>
      if SendRefusal(s.h).Some? then Return(s, t, SendRefusal(s.h).value)
      else if !accepted then Return(s, t, Rejected)
      else SendIn(s, t, taken, now)
    case Evaluate(dir, signal) => With(s, dir, JobOf(s, dir), Evaluated(JobOf(s, dir), SideOf(s, dir), signal))
    case Wakes(dir) => With(s, dir, JobOf(s, dir), At(SideOf(s, dir), Eval))
    case Signal(dir) => With(s, dir, JobOf(s, dir), At(SideOf(s, dir), Eval))
    case Abort(dir, now) =>
      var (job, side) := Aborted(dir, JobOf(s, dir), SideOf(s, dir), now);
      With(s, dir, job, side)
    case AbortEvaluate(dir) => With(s, dir, JobOf(s, dir), AbortEvaluated(JobOf(s, dir), SideOf(s, dir)))
    case AbortWakes(dir) => With(s, dir, JobOf(s, dir), At(SideOf(s, dir), AbortEval))
    case Leave(dir) => LeaveIn(s, dir)
    case DestroyCall(t, rxNow, txNow, done) =>
      if s.h.closed then Return(s, t, InvalidHandle) else BeginClose(s, t, rxNow, txNow, done)
    case ReleaseCall(t, rxNow, txNow, done) =>
      if s.h.closed then Return(s, t, Closed) else BeginClose(s, t, rxNow, txNow, done)
    case CloseEvaluate => CloserAt(s, if CloseReady(s.h) then Harvest(false) else Sleep(s.wqClose.all))
    case CloseWakes => CloserAt(s, Eval)
    case CloseReturns => Return(s.(closer := None), s.closer.value.t, Closed)
    case NucDone(dir, r) => Callback(s, dir, Some(r))
    case NucCloseDone => CloseCallback(s, true)
  }
}
