/** Where the frames go: what the callbacks report, and what reads, takes and writes make of it. */
module HandleFrames {
  import opened Handle
  import opened HandleProtocol
  import opened HandleInvariant
  import opened HandleRuns
  import opened Basics

  /** The callback of one direction the nucleus makes in this step, whoever it reaches; there is at most one. */
  function CallbackIn(s: State, step: Step, dir: Direction): Option<Report>
    requires Enabled(s, step)
  {
    match step
    case ReadCall(_, _, now) => if dir.Rx? && Begins(s, step) then now else None
    case WriteCall(_, _, _, _, _, now) => if dir.Tx? && Begins(s, step) then now else None
    case SendCall(_, accepted, _, now) => if dir.Tx? && SendRefusal(s.h).None? && accepted then now else None
    case TakeCall(_, accepted, first, last) =>
      if dir.Rx? && RxRefusal(s.h).None? && accepted then if first.Some? then first else Some(last) else None
    case NucDone(d, report) => if d == dir then Some(report) else None
    case Abort(d, now) =>
      if d == dir && InterruptSpec(JobOf(s, dir), SideOf(s, dir).waiter.value.pending).1 then now else None
    case DestroyCall(_, rxNow, txNow, _) => if s.h.closed then None else if dir.Rx? then rxNow else txNow
    case ReleaseCall(_, rxNow, txNow, _) => if s.h.closed then None else if dir.Rx? then rxNow else txNow
    case _ => None
  }

  /** There is a request inside for it, or just coming in. */
  predicate Expected(s: State, step: Step, dir: Direction) {
    step.ReadCall? || step.TakeCall? || step.WriteCall? || SideOf(s, dir).waiter.Some?
  }

  function CountOf(r: Option<Report>): nat {
    if r.Some? then r.value.count else 0
  }

  // ---------------------------------------------------------------- RX frames are conserved

  /** The frames the nucleus delivers in this step: those of every rx_done, and those of a take in object mode. */
  function Delivered(s: State, step: Step): nat
    requires Enabled(s, step)
  {
    CountOf(CallbackIn(s, step, Rx))
    + if step.TakeObjectCall? && RxRefusal(s.h).None? && step.accepted then step.count else 0
  }

  /** Those of them that nobody is inside for. */
  function Late(s: State, step: Step): nat
    requires Enabled(s, step)
  {
    if Expected(s, step, Rx) then 0 else CountOf(CallbackIn(s, step, Rx))
  }

  function FramesOf(o: Outcome): nat {
    if o.Frames? then o.n else 0
  }

  /** The frames that the read or take which ends by this step hands to its caller. */
  function HandedOut(s: State, step: Step): nat
    requires Enabled(s, step)
  {
    if step.ReadCall? || step.TakeCall? || step.TakeObjectCall? then
      var c := Apply(s, step).calls[step.t];
      if c.Returned? then FramesOf(c.outcome) else 0
    else if step == Leave(Rx) then FramesOf(Apply(s, step).calls[s.rx.waiter.value.t].outcome)
    else 0
  }

  /** Reported to the read inside and not yet handed out. */
  function Held(s: State): nat {
    if s.rx.waiter.Some? then s.h.rx.count else 0
  }

  datatype Balance = Balance(delivered: nat, handedOut: nat, late: nat)

  function Totals(r: Run, i: nat): Balance
    requires IsRun(r) && i < |r.states|
  {
    if i == 0 then Balance(0, 0, 0)
    else
      var f, s, step := Totals(r, i - 1), r.states[i - 1], r.steps[i - 1];
      Balance(f.delivered + Delivered(s, step), f.handedOut + HandedOut(s, step), f.late + Late(s, step))
  }

  lemma RequestConserves(s: State, step: Step)
    requires Inv(s) && Enabled(s, step) && Request(step)
    ensures Held(s) + Delivered(s, step) == Held(Apply(s, step)) + HandedOut(s, step) + Late(s, step)
  {
    if step.TakeCall? && RxRefusal(s.h).None? && step.accepted {
      TakeKeeps(s.h.rx, s.rx, step.first, step.last);
    }
  }

  lemma WaiterConserves(s: State, step: Step)
    requires Inv(s) && Enabled(s, step) && WaiterStep(step)
    ensures Held(s) + Delivered(s, step) == Held(Apply(s, step)) + HandedOut(s, step) + Late(s, step)
  {
  }

  lemma RestConserves(s: State, step: Step)
    requires Inv(s) && Enabled(s, step) && !Request(step) && !WaiterStep(step)
    ensures Held(s) + Delivered(s, step) == Held(Apply(s, step)) + HandedOut(s, step) + Late(s, step)
  {
  }

  /** While the handle is open, no callback comes late. */
  lemma OpenIsInTime(s: State, step: Step)
    requires Inv(s) && Enabled(s, step) && !Apply(s, step).h.closed
    ensures Late(s, step) == 0 && !s.h.closed
  {
  }

  /** RX loses no frame and hands out none twice: all that any rx_done ever delivered is what reads and takes have
      returned, what the read inside has not returned yet, and what came late. As long as the handle is open nothing
      is late, whatever signals, aborts and timeouts there were. */
  lemma {:induction false} FramesConserved(r: Run, i: nat)
    requires IsRun(r) && i < |r.states|
    ensures var f := Totals(r, i);
            && f.delivered == f.handedOut + Held(r.states[i]) + f.late
            && (!r.states[i].h.closed ==> f.late == 0)
  {
    if i > 0 {
      var s, step := r.states[i - 1], r.steps[i - 1];
      FramesConserved(r, i - 1);
      Reachable(r, i - 1);
      if Request(step) {
        RequestConserves(s, step);
      } else if WaiterStep(step) {
        WaiterConserves(s, step);
      } else {
        RestConserves(s, step);
      }
      if !r.states[i].h.closed {
        OpenIsInTime(s, step);
      }
    }
  }

  /** Frames come late exactly if the nucleus reports some for the job of a read that the close has sent away. */
  lemma LateIffReaderWasSentAway(r: Run, i: nat)
    requires IsRun(r) && i < |r.steps|
    ensures Late(r.states[i], r.steps[i]) > 0 <==>
              && r.states[i].h.closed && r.states[i].rx.inNucleus && r.states[i].rx.waiter.None?
              && r.steps[i].NucDone? && r.steps[i].dir.Rx? && r.steps[i].report.count > 0
  {
    Reachable(r, i);
  }

  // ---------------------------------------------------------------- the account of one read or write

  /** What a read or write that is inside has gone through: the frames of an unfinished send it puts up with, the
      most its job can report (for TX), the stored result when it began, the one callback since then, and whether it
      has asked for an abort. */
  datatype Account = Account(t: nat, pending: nat, load: nat, before: int, report: Option<Report>, aborted: bool)

  predicate BeginsIn(s: State, step: Step, dir: Direction) {
    Begins(s, step) && (if dir.Rx? then step.ReadCall? else step.WriteCall?)
  }

  function Opened(s: State, step: Step, dir: Direction): Account
    requires Enabled(s, step) && BeginsIn(s, step, dir)
  {
    if dir.Rx? then Account(step.t, 0, 0, 0, CallbackIn(s, step, Rx), false)
    else Account(step.t, PendingOf(s, step.query), LoadWith(s, step.query, step.taken), s.h.tx.result,
                 CallbackIn(s, step, Tx), false)
  }

  predicate Aborts(s: State, step: Step, dir: Direction)
    requires Enabled(s, step)
  {
    step.Abort? && step.dir == dir && InterruptSpec(JobOf(s, dir), SideOf(s, dir).waiter.value.pending).1
  }

  function Booked(s: State, step: Step, dir: Direction, a: Account): Account
    requires Enabled(s, step)
  {
    var c := CallbackIn(s, step, dir);
    a.(report := if c.Some? then c else a.report, aborted := a.aborted || Aborts(s, step, dir))
  }

  /** The account after the steps from `i` to `j`. */
  function BookedOver(r: Run, i: nat, j: nat, dir: Direction, a: Account): Account
    requires IsRun(r) && i <= j < |r.states|
    decreases j - i
  {
    if i == j then a else BookedOver(r, i + 1, j, dir, Booked(r.states[i], r.steps[i], dir, a))
  }

  /** The account at moment `j` of the request that begins with step `i`. */
  function AccountAt(r: Run, i: nat, j: nat, dir: Direction): Account
    requires IsRun(r) && i < j < |r.states| && BeginsIn(r.states[i], r.steps[i], dir)
  {
    BookedOver(r, i + 1, j, dir, Opened(r.states[i], r.steps[i], dir))
  }

  ghost predicate Fits(dir: Direction, job: Job, side: Side, a: Account) {
    && side.waiter.Some? && side.waiter.value.t == a.t && side.waiter.value.pending == a.pending
    && side.report == (if a.report.Some? then Some(a.report.value.count) else None)
    && job.count == CountOf(a.report)
    && job.result == (if a.report.Some? then a.report.value.result else a.before)
    && (dir.Tx? ==> (side.inNucleus ==> side.load == a.load) && CountOf(a.report) <= a.load)
    && (a.aborted <==> var p := side.waiter.value.phase; p.AbortEval? || p.AbortSleep? || (p.Harvest? && p.interrupted))
  }

  /** The request is inside, and what the handle says of it is its account. */
  ghost predicate InsideWith(s: State, dir: Direction, a: Account) {
    Fits(dir, JobOf(s, dir), SideOf(s, dir), a)
  }

  ghost predicate InsideOrReturned(s: State, dir: Direction, a: Account) {
    InsideWith(s, dir, a) || (a.t in s.calls && s.calls[a.t].Returned?)
  }

  lemma OpenedFits(s: State, step: Step, dir: Direction)
    requires Inv(s) && Enabled(s, step) && BeginsIn(s, step, dir)
    ensures InsideWith(Apply(s, step), dir, Opened(s, step, dir))
  {
  }

  lemma AbortFits(dir: Direction, job: Job, closed: bool, side: Side, now: Option<Report>, a: Account)
    requires SideOk(dir, job, closed, side) && InPhase(side.waiter, (p: Phase) => p.Signalled?)
    requires MayReport(dir, side, now) && Fits(dir, job, side, a)
    ensures var (job', side') := Aborted(dir, job, side, now);
            var abort := InterruptSpec(job, side.waiter.value.pending).1;
            Fits(dir, job', side', a.(report := if abort && now.Some? then now else a.report, aborted := abort))
  {
  }

  lemma PhaseFits(s: State, step: Step, dir: Direction, a: Account)
    requires Enabled(s, step) && WaiterStep(step) && !step.Abort? && InsideWith(s, dir, a)
    ensures InsideWith(Apply(s, step), dir, Booked(s, step, dir, a))
  {
  }

  lemma WaiterStepFits(s: State, step: Step, dir: Direction, a: Account)
    requires SideOk(dir, JobOf(s, dir), s.h.closed, SideOf(s, dir))
    requires Enabled(s, step) && WaiterStep(step) && InsideWith(s, dir, a)
    ensures InsideWith(Apply(s, step), dir, Booked(s, step, dir, a))
  {
    if !step.Abort? {
      PhaseFits(s, step, dir, a);
    } else if step.dir == dir {
      AbortFits(dir, JobOf(s, dir), s.h.closed, SideOf(s, dir), step.now, a);
    }
  }

  lemma RequestFits(s: State, step: Step, dir: Direction, a: Account)
    requires SideOk(dir, JobOf(s, dir), s.h.closed, SideOf(s, dir))
    requires Enabled(s, step) && Request(step) && InsideWith(s, dir, a)
    ensures InsideWith(Apply(s, step), dir, Booked(s, step, dir, a))
  {
  }

  lemma RestFits(s: State, step: Step, dir: Direction, a: Account)
    requires SideOk(dir, JobOf(s, dir), s.h.closed, SideOf(s, dir))
    requires Enabled(s, step) && !WaiterStep(step) && !Request(step) && step != Leave(dir) && InsideWith(s, dir, a)
    ensures InsideWith(Apply(s, step), dir, Booked(s, step, dir, a))
  {
  }

  lemma LeaveReturns(s: State, dir: Direction)
    requires Enabled(s, Leave(dir))
    ensures var t := SideOf(s, dir).waiter.value.t;
            t in Apply(s, Leave(dir)).calls && Apply(s, Leave(dir)).calls[t].Returned?
  {
  }

  lemma StaysInside(s: State, step: Step, dir: Direction, a: Account)
    requires Inv(s) && Enabled(s, step) && step != Leave(dir) && InsideWith(s, dir, a)
    ensures InsideWith(Apply(s, step), dir, Booked(s, step, dir, a))
  {
    assert SideOk(dir, JobOf(s, dir), s.h.closed, SideOf(s, dir));
    if WaiterStep(step) {
      WaiterStepFits(s, step, dir, a);
    } else if Request(step) {
      RequestFits(s, step, dir, a);
    } else {
      RestFits(s, step, dir, a);
    }
  }

  lemma StepFits(s: State, step: Step, dir: Direction, a: Account)
    requires Inv(s) && Enabled(s, step) && InsideOrReturned(s, dir, a)
    ensures InsideOrReturned(Apply(s, step), dir, Booked(s, step, dir, a))
  {
    if a.t in s.calls && s.calls[a.t].Returned? {
      ReturnedStays(s, step, a.t);
    } else if step == Leave(dir) {
      LeaveReturns(s, dir);
    } else {
      StaysInside(s, step, dir, a);
    }
  }

  lemma {:induction false} AccountStays(r: Run, i: nat, j: nat, dir: Direction, a: Account)
    requires IsRun(r) && i <= j < |r.states|
    ensures var b := BookedOver(r, i, j, dir, a);
            a.t == b.t && a.pending == b.pending && a.load == b.load && a.before == b.before
    decreases j - i
  {
    if i < j {
      AccountStays(r, i + 1, j, dir, Booked(r.states[i], r.steps[i], dir, a));
    }
  }

  lemma AccountStep(r: Run, k: nat, dir: Direction, a: Account)
    requires IsRun(r) && k < |r.steps| && InsideOrReturned(r.states[k], dir, a)
    ensures InsideOrReturned(r.states[k + 1], dir, Booked(r.states[k], r.steps[k], dir, a))
  {
    Reachable(r, k);
    StepFits(r.states[k], r.steps[k], dir, a);
  }

  lemma AccountOpens(r: Run, i: nat, dir: Direction)
    requires IsRun(r) && i < |r.steps| && BeginsIn(r.states[i], r.steps[i], dir)
    ensures InsideWith(r.states[i + 1], dir, AccountAt(r, i, i + 1, dir))
  {
    Reachable(r, i);
    OpenedFits(r.states[i], r.steps[i], dir);
  }

  lemma {:induction false} KeptOn(r: Run, i: nat, j: nat, dir: Direction, a: Account)
    requires IsRun(r) && i <= j < |r.states| && InsideOrReturned(r.states[i], dir, a)
    ensures InsideOrReturned(r.states[j], dir, BookedOver(r, i, j, dir, a))
    decreases j - i
  {
    if i < j {
      AccountStep(r, i, dir, a);
      KeptOn(r, i + 1, j, dir, Booked(r.states[i], r.steps[i], dir, a));
    }
  }

  /** From its start to its return a read or write knows exactly what its callback reported: no count and no load of
      another request gets into its account. */
  lemma AccountIsKept(r: Run, i: nat, j: nat, dir: Direction)
    requires IsRun(r) && i < j < |r.states| && BeginsIn(r.states[i], r.steps[i], dir)
    ensures InsideOrReturned(r.states[j], dir, AccountAt(r, i, j, dir))
    ensures var a, b := AccountAt(r, i, j, dir), Opened(r.states[i], r.steps[i], dir);
            a.t == b.t && a.pending == b.pending && a.load == b.load && a.before == b.before
  {
    var b := Opened(r.states[i], r.steps[i], dir);
    AccountOpens(r, i, dir);
    KeptOn(r, i + 1, j, dir, b);
    AccountStays(r, i + 1, j, dir, b);
  }

  /** A request gets one callback: once it has one, none comes before it leaves. */
  lemma OneCallback(s: State, step: Step, dir: Direction, a: Account)
    requires Inv(s) && Enabled(s, step) && InsideWith(s, dir, a) && a.report.Some?
    ensures CallbackIn(s, step, dir).None?
  {
    assert SideOk(dir, JobOf(s, dir), s.h.closed, SideOf(s, dir));
  }

  // ---------------------------------------------------------------- what a request returns

  function OutcomeFor(a: Account, closed: bool): Outcome {
    if CountOf(a.report) > a.pending then Frames(CountOf(a.report) - a.pending)
    else if closed then Interrupted
    else if a.aborted then Restart
    else Ended(-(if a.report.Some? then a.report.value.result else a.before))
  }

  lemma LeaveReturnsOutcome(s: State, dir: Direction, a: Account)
    requires Inv(s) && Enabled(s, Leave(dir)) && InsideOrReturned(s, dir, a) && SideOf(s, dir).waiter.value.t == a.t
    ensures var s' := Apply(s, Leave(dir));
            a.t in s'.calls && s'.calls[a.t] == Returned(OutcomeFor(a, s.h.closed)) && InsideWith(s, dir, a)
  {
    assert s.calls[a.t] == Role(dir);
    assert SideOk(dir, JobOf(s, dir), s.h.closed, SideOf(s, dir));
  }

  /** The read or write that begins with step `i` leaves with step `j`. */
  ghost predicate Spans(r: Run, i: nat, j: nat, dir: Direction)
    requires IsRun(r)
  {
    && i < j < |r.steps| && BeginsIn(r.states[i], r.steps[i], dir) && r.steps[j] == Leave(dir)
    && SideOf(r.states[j], dir).waiter.Some? && SideOf(r.states[j], dir).waiter.value.t == r.steps[i].t
  }

  function OutcomeAt(r: Run, j: nat, t: nat): Call
    requires IsRun(r) && j < |r.steps|
  {
    if t in r.states[j + 1].calls then r.states[j + 1].calls[t] else InClose
  }

  /** What a read or write returns, told by the events between its start and its end alone: the frames of its callback
      less those an unfinished send owed when it started, if that is positive; else that the handle was closed; else,
      if it has asked for an abort, a restart; else the result of its callback, or without one the result that was
      stored when it began. */
  lemma ReturnsWhatWasReported(r: Run, i: nat, j: nat, dir: Direction)
    requires IsRun(r) && Spans(r, i, j, dir)
    ensures OutcomeAt(r, j, r.steps[i].t) == Returned(OutcomeFor(AccountAt(r, i, j, dir), r.states[j].h.closed))
    ensures InsideWith(r.states[j], dir, AccountAt(r, i, j, dir))
  {
    Reachable(r, j);
    AccountIsKept(r, i, j, dir);
    LeaveReturnsOutcome(r.states[j], dir, AccountAt(r, i, j, dir));
  }

  /** Who leaves an open handle without a callback leaves a job behind, started on an unfinished send. */
  lemma LeavesWithoutCallback(s: State, dir: Direction, a: Account)
    requires Inv(s) && Enabled(s, Leave(dir)) && InsideWith(s, dir, a) && a.report.None? && !s.h.closed
    ensures dir.Tx? && a.pending > 0 && !a.aborted && Apply(s, Leave(dir)).tx.inNucleus
  {
    assert SideOk(dir, JobOf(s, dir), s.h.closed, SideOf(s, dir));
  }

  /** A read that ends without frames, signal or close returns minus the result of its own callback, which reported
      nothing; and one that asks for a restart has had no frame reported. */
  lemma ReadReturnsItsOwnResult(r: Run, i: nat, j: nat)
    requires IsRun(r) && Spans(r, i, j, Rx)
    ensures var a, o := AccountAt(r, i, j, Rx), OutcomeAt(r, j, r.steps[i].t);
            && (o.Returned? && o.outcome.Ended? ==>
                  a.report.Some? && a.report.value.count == 0 && o.outcome.result == -a.report.value.result)
            && (o == Returned(Restart) ==> CountOf(a.report) == 0)
  {
    Reachable(r, j);
    AccountIsKept(r, i, j, Rx);
    ReturnsWhatWasReported(r, i, j, Rx);
    var a := AccountAt(r, i, j, Rx);
    if a.report.None? && !r.states[j].h.closed {
      LeavesWithoutCallback(r.states[j], Rx, a);
    }
  }

  // ---------------------------------------------------------------- the stored result of TX

  /** The result of the latest tx_done, whomever it was for; 0 before the first. */
  function LatestTxResult(r: Run, i: nat): int
    requires IsRun(r) && i < |r.states|
  {
    if i == 0 then 0
    else
      var c := CallbackIn(r.states[i - 1], r.steps[i - 1], Tx);
      if c.Some? then c.value.result else LatestTxResult(r, i - 1)
  }

  lemma RequestStoresResult(s: State, step: Step)
    requires Enabled(s, step) && Request(step)
    ensures var c := CallbackIn(s, step, Tx);
            Apply(s, step).h.tx.result == if c.Some? then c.value.result else s.h.tx.result
  {
  }

  lemma WaiterStoresResult(s: State, step: Step)
    requires Enabled(s, step) && WaiterStep(step)
    ensures var c := CallbackIn(s, step, Tx);
            Apply(s, step).h.tx.result == if c.Some? then c.value.result else s.h.tx.result
  {
  }

  lemma RestStoresResult(s: State, step: Step)
    requires Enabled(s, step) && !Request(step) && !WaiterStep(step)
    ensures var c := CallbackIn(s, step, Tx);
            Apply(s, step).h.tx.result == if c.Some? then c.value.result else s.h.tx.result
  {
  }

  lemma {:induction false} StoredTxResult(r: Run, i: nat)
    requires IsRun(r) && i < |r.states|
    ensures r.states[i].h.tx.result == LatestTxResult(r, i)
  {
    if i > 0 {
      StoredTxResult(r, i - 1);
      Reachable(r, i - 1);
      if Request(r.steps[i - 1]) {
        RequestStoresResult(r.states[i - 1], r.steps[i - 1]);
      } else if WaiterStep(r.steps[i - 1]) {
        WaiterStoresResult(r.states[i - 1], r.steps[i - 1]);
      } else {
        RestStoresResult(r.states[i - 1], r.steps[i - 1]);
      }
    }
  }

  /** Nothing resets tx.result. A write that ends without frames, signal or close returns minus the result of its own
      callback exactly if it has had one; otherwise the result is that of the latest job before it began, and then it
      began on an unfinished send and leaves its job behind. */
  lemma WriteReturnsLatestResult(r: Run, i: nat, j: nat)
    requires IsRun(r) && Spans(r, i, j, Tx)
    ensures var a, o := AccountAt(r, i, j, Tx), OutcomeAt(r, j, r.steps[i].t);
            o.Returned? && o.outcome.Ended? ==>
              && o.outcome.result == -(if a.report.Some? then a.report.value.result else LatestTxResult(r, i))
              && (a.report.None? ==> a.pending > 0 && r.states[j + 1].tx.inNucleus)
  {
    Reachable(r, j);
    StoredTxResult(r, i);
    AccountIsKept(r, i, j, Tx);
    ReturnsWhatWasReported(r, i, j, Tx);
    var a := AccountAt(r, i, j, Tx);
    if a.report.None? && !r.states[j].h.closed {
      LeavesWithoutCallback(r.states[j], Tx, a);
    }
  }

  // ---------------------------------------------------------------- a write returns its own frames

  /** The frames of a job some writer left behind, at the start of a write. */
  function LeftBehind(s: State): nat {
    if Abandoned(s) then s.tx.load else 0
  }

  /** A write returns at most the frames the nucleus took from it and those of a job left behind by another. */
  lemma WriteReturnsAtMost(r: Run, i: nat, j: nat)
    requires IsRun(r) && Spans(r, i, j, Tx)
    ensures var o := OutcomeAt(r, j, r.steps[i].t);
            o.Returned? && o.outcome.Frames? ==> o.outcome.n <= r.steps[i].taken + LeftBehind(r.states[i])
  {
    Reachable(r, i);
    AccountIsKept(r, i, j, Tx);
    ReturnsWhatWasReported(r, i, j, Tx);
  }

  lemma {:induction false} ReportStays(r: Run, i: nat, j: nat, dir: Direction, a: Account)
    requires IsRun(r) && i <= j < |r.states| && InsideOrReturned(r.states[i], dir, a) && a.report.Some?
    requires InsideWith(r.states[j], dir, BookedOver(r, i, j, dir, a))
    ensures BookedOver(r, i, j, dir, a).report == a.report
    decreases j - i
  {
    if i < j {
      AccountStays(r, i, j, dir, a);
      StillInside(r, i, j, dir, a);
      Reachable(r, i);
      OneCallback(r.states[i], r.steps[i], dir, a);
      AccountStep(r, i, dir, a);
      ReportStays(r, i + 1, j, dir, Booked(r.states[i], r.steps[i], dir, a));
    }
  }

  /** A request that is inside now has not returned before. */
  lemma StillInside(r: Run, i: nat, j: nat, dir: Direction, a: Account)
    requires IsRun(r) && i <= j < |r.states| && InsideOrReturned(r.states[i], dir, a)
    requires SideOf(r.states[j], dir).waiter.Some? && SideOf(r.states[j], dir).waiter.value.t == a.t
    ensures InsideWith(r.states[i], dir, a)
  {
    Reachable(r, j);
    assert r.states[j].calls[a.t] == Role(dir);
    if a.t in r.states[i].calls && r.states[i].calls[a.t].Returned? {
      ReturnedForGood(r, i, j, a.t);
    }
  }

  /** The write of call `t` returns, in a run that goes on from `r0`, more frames than the nucleus took from it. */
  ghost predicate ReturnsMore(r: Run, r0: Run, t: nat, taken: nat) {
    && Continues(r, r0) && t in r.states[|r.steps|].calls
    && var c := r.states[|r.steps|].calls[t]; c.Returned? && c.outcome.Frames? && c.outcome.n > taken
  }

  ghost predicate CanReturnMore(r0: Run, t: nat, taken: nat) {
    exists r: Run :: ReturnsMore(r, r0, t, taken)
  }

  /** A writer left a job with frames behind, and if the callback came within the call already, it reported more than
      the frames of this write. */
  predicate GetsMore(s: State, step: Step)
    requires step.WriteCall?
  {
    LeftBehind(s) > 0 && (step.now.Some? ==> step.now.value.count > step.taken)
  }

  /** Where a call is seen to have returned after it was inside, it has left in between. */
  lemma {:induction false} HasLeft(r: Run, i: nat, j: nat, dir: Direction, a: Account) returns (k: nat)
    requires IsRun(r) && i <= j < |r.states| && InsideWith(r.states[i], dir, a)
    requires a.t in r.states[j].calls && r.states[j].calls[a.t].Returned?
    ensures i <= k < j && r.steps[k] == Leave(dir) && InsideWith(r.states[k], dir, BookedOver(r, i, k, dir, a))
    ensures r.states[j].calls[a.t] == OutcomeAt(r, k, a.t)
    decreases j - i
  {
    Reachable(r, i);
    assert r.states[i].calls[a.t] == Role(dir);
    if r.steps[i] == Leave(dir) {
      k := i;
      LeaveReturns(r.states[i], dir);
      ReturnedForGood(r, i + 1, j, a.t);
    } else {
      StaysInside(r.states[i], r.steps[i], dir, a);
      k := HasLeft(r, i + 1, j, dir, Booked(r.states[i], r.steps[i], dir, a));
    }
  }

  /** Whether a write can return more frames than it handed over can be told when it is let in: if another has left
      its job behind, and not otherwise. */
  lemma WriteCanReturnMoreIff(r0: Run)
    requires IsRun(r0) && r0.steps != []
    requires var i := |r0.steps| - 1; BeginsIn(r0.states[i], r0.steps[i], Tx)
    ensures var i := |r0.steps| - 1;
            CanReturnMore(r0, r0.steps[i].t, r0.steps[i].taken) <==> GetsMore(r0.states[i], r0.steps[i])
  {
    var i := |r0.steps| - 1;
    var t, taken := r0.steps[i].t, r0.steps[i].taken;
    if CanReturnMore(r0, t, taken) {
      var r: Run :| ReturnsMore(r, r0, t, taken);
      assert r.states[i] == r0.states[i] && r.steps[i] == r0.steps[i];
      MoreWasLeftBehind(r, i);
    }
    if GetsMore(r0.states[i], r0.steps[i]) {
      var r := GoOnToReturn(r0);
      assert ReturnsMore(r, r0, t, taken);
    }
  }

  lemma MoreWasLeftBehind(r: Run, i: nat)
    requires IsRun(r) && i < |r.steps| && BeginsIn(r.states[i], r.steps[i], Tx)
    requires ReturnsMore(r, r, r.steps[i].t, r.steps[i].taken)
    ensures GetsMore(r.states[i], r.steps[i])
  {
    var b, j := Opened(r.states[i], r.steps[i], Tx), |r.steps|;
    AccountOpens(r, i, Tx);
    Reachable(r, i + 1);
    assert r.states[i + 1].calls[b.t] == InWrite;
    var k := HasLeft(r, i + 1, j, Tx, b);
    AccountStays(r, i + 1, k, Tx, b);
    WriteReturnsAtMost(r, i, k);
    ReturnsWhatWasReported(r, i, k, Tx);
    if r.steps[i].now.Some? {
      ReportStays(r, i + 1, k, Tx, b);
    }
  }

  lemma BegunWithMore(s: State, step: Step)
    requires Inv(s) && Enabled(s, step) && BeginsIn(s, step, Tx) && GetsMore(s, step)
    ensures var s' := Apply(s, step);
            && InPhase(s'.tx.waiter, (p: Phase) => p.Eval?) && Owner(s'.tx.waiter) == Some(step.t)
            && s'.tx.waiter.value.pending == 0
            && (step.now.Some? ==> s'.h.tx.count > step.taken)
            && (step.now.None? ==> s'.tx.inNucleus && s'.tx.load > step.taken)
  {
  }

  lemma TellAll(s: State)
    requires Inv(s) && s.tx.inNucleus && InPhase(s.tx.waiter, (p: Phase) => p.Eval?)
    ensures Enabled(s, NucDone(Tx, Report(0, s.tx.load)))
    ensures var s' := Apply(s, NucDone(Tx, Report(0, s.tx.load)));
            && s'.tx.waiter == s.tx.waiter && s'.h.tx.count == s.tx.load
  {
    assert SideOk(Tx, s.h.tx, s.h.closed, s.tx);
  }

  lemma LookAndLeave(s: State)
    requires Inv(s) && InPhase(s.tx.waiter, (p: Phase) => p.Eval?)
    requires s.tx.waiter.value.pending == 0 && s.h.tx.count > 0
    ensures Enabled(s, Evaluate(Tx, false))
    ensures var s1, t := Apply(s, Evaluate(Tx, false)), s.tx.waiter.value.t;
            && Enabled(s1, Leave(Tx))
            && var s2 := Apply(s1, Leave(Tx));
            && t in s2.calls && s2.calls[t] == Returned(Frames(s.h.tx.count))
  {
  }

  lemma GoOnToReturn(r0: Run) returns (r: Run)
    requires IsRun(r0) && r0.steps != []
    requires var i := |r0.steps| - 1; BeginsIn(r0.states[i], r0.steps[i], Tx) && GetsMore(r0.states[i], r0.steps[i])
    ensures var i := |r0.steps| - 1; ReturnsMore(r, r0, r0.steps[i].t, r0.steps[i].taken)
  {
    var i := |r0.steps| - 1;
    Reachable(r0, i);
    BegunWithMore(r0.states[i], r0.steps[i]);
    r := r0;
    if r0.steps[i].now.None? {
      Reachable(r, |r.steps|);
      TellAll(r.states[|r.steps|]);
      r := Continue(r0, r, NucDone(Tx, Report(0, r.states[|r.steps|].tx.load)));
    }
    Reachable(r, |r.steps|);
    LookAndLeave(r.states[|r.steps|]);
    r := Continue(r0, r, Evaluate(Tx, false));
    r := Continue(r0, r, Leave(Tx));
  }
}
