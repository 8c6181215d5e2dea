/** Closing a handle: what is true once ocb_destroy has returned, and that it does return unless a writer is stuck. */
module HandleClose {
  import opened Handle
  import opened HandleProtocol
  import opened HandleInvariant
  import opened HandleRuns
  import opened Basics

  // ---------------------------------------------------------------- close is complete

  /** The handle is dead: closed once, nothing outstanding but possibly a late rx_done, nobody inside. */
  ghost predicate Dead(s: State) {
    && s.h.closed && s.h.closeDone && s.nucCloses == 1 && s.closer.None?
    && s.h.rx.flags == IDLE && s.h.tx.flags == IDLE && !s.tx.inNucleus
    && s.rx.waiter.None? && s.tx.waiter.None?
    && forall t | t in s.calls :: s.calls[t].Returned?
  }

  lemma ClosedIsDead(s: State, t: nat)
    requires Inv(s) && t in s.calls && s.calls[t] == Returned(Closed)
    ensures Dead(s)
  {
  }

  /** A request to a dead handle is refused and changes nothing but its own record. */
  lemma DeadRefuses(s: State, step: Step)
    requires Dead(s) && Enabled(s, step) && (Request(step) || step.DestroyCall?)
    ensures Apply(s, step) == Return(s, step.t, InvalidHandle)
  {
  }

  /** Close is complete: from the moment a destroy or release has returned, close_done has come, both flag words
      are 0, no reader, writer or closer is inside, and every later request is turned away; nuc_close was called
      once in the whole run, however many calls tried to close the handle. */
  lemma CloseIsComplete(r: Run, i: nat, t: nat)
    requires IsRun(r) && i < |r.states| && t in r.states[i].calls && r.states[i].calls[t] == Returned(Closed)
    ensures Dead(r.states[i])
    ensures i < |r.steps| && (Request(r.steps[i]) || r.steps[i].DestroyCall?) ==>
              r.states[i + 1] == Return(r.states[i], r.steps[i].t, InvalidHandle)
  {
    Reachable(r, i);
    ClosedIsDead(r.states[i], t);
    if i < |r.steps| && (Request(r.steps[i]) || r.steps[i].DestroyCall?) {
      DeadRefuses(r.states[i], r.steps[i]);
    }
  }

  /** What is dead stays dead. */
  lemma DeadForGood(r: Run, i: nat, j: nat, t: nat)
    requires IsRun(r) && i <= j < |r.states| && t in r.states[i].calls && r.states[i].calls[t] == Returned(Closed)
    ensures Dead(r.states[j])
  {
    ReturnedForGood(r, i, j, t);
    CloseIsComplete(r, j, t);
  }

  /** Of all calls that ever try to close the handle, racing destroys and the release, one calls nuc_close; and
      nuc_close is never called before the handle is marked closed. */
  lemma ClosedOnce(r: Run, i: nat)
    requires IsRun(r) && i < |r.states|
    ensures r.states[i].nucCloses <= 1 && (r.states[i].nucCloses == 1 <==> r.states[i].h.closed)
  {
    Reachable(r, i);
  }

  // ---------------------------------------------------------------- close makes progress

  /** Steps the threads inside and the nucleus take of their own accord: no new call, no signal. */
  predicate Internal(step: Step) {
    || (step.Evaluate? && !step.signal) || step.Wakes? || step.Abort? || step.AbortEvaluate? || step.AbortWakes?
    || step.Leave? || step.CloseEvaluate? || step.CloseWakes? || step.CloseReturns? || step.NucDone? || step.NucCloseDone?
  }

  /** The writer whose tx_done came and was not enough to wake it: it sleeps and nothing will wake it. */
  ghost predicate Stuck(side: Side) {
    Parked(side) && Unnotified(side) && !side.inNucleus
  }

  function NextOf(dir: Direction, side: Side): Step
    requires side.waiter.Some?
  {
    match side.waiter.value.phase
    case Eval => Evaluate(dir, false)
    case Sleep(_) => if Unnotified(side) then NucDone(dir, Report(0, 0)) else Wakes(dir)
    case Signalled => Abort(dir, None)
    case AbortEval => AbortEvaluate(dir)
    case AbortSleep(_) => if Unnotified(side) then NucDone(dir, Report(0, 0)) else AbortWakes(dir)
    case Harvest(_) => Leave(dir)
  }

  lemma WaiterProgress(s: State, dir: Direction)
    requires Inv(s) && SideOf(s, dir).waiter.Some?
    ensures Enabled(s, NextOf(dir, SideOf(s, dir))) || (dir.Tx? && Stuck(s.tx))
  {
    assert SideOk(dir, JobOf(s, dir), s.h.closed, SideOf(s, dir));
  }

  function NextStep(s: State): Step
    requires s.closer.Some?
  {
    if s.rx.waiter.Some? then NextOf(Rx, s.rx)
    else if s.tx.waiter.Some? then NextOf(Tx, s.tx)
    else if s.tx.inNucleus then NucDone(Tx, Report(0, 0))
    else if !s.h.closeDone then NucCloseDone
    else match s.closer.value.phase
         case Eval => CloseEvaluate
         case Sleep(_) => CloseWakes
         case _ => CloseReturns
  }

  lemma CloserProgress(s: State)
    requires Inv(s) && s.closer.Some? && s.h.closeDone && s.rx.waiter.None? && s.tx.waiter.None?
    ensures Enabled(s, NextStep(s))
  {
  }

  /** No close is forgotten: as long as one waits, a thread inside or the nucleus can take a step, unless a writer
      is stuck. */
  lemma CloseCanProceed(r: Run, i: nat)
    requires IsRun(r) && i < |r.states| && r.states[i].closer.Some?
    ensures var s := r.states[i]; (Internal(NextStep(s)) && Enabled(s, NextStep(s))) || Stuck(s.tx)
  {
    Reachable(r, i);
    var s := r.states[i];
    if s.rx.waiter.Some? {
      WaiterProgress(s, Rx);
    } else if s.tx.waiter.Some? {
      WaiterProgress(s, Tx);
    } else if !s.tx.inNucleus && s.h.closeDone {
      CloserProgress(s);
    }
  }

  /** No thread inside and not the nucleus has anything left to do. */
  ghost predicate Quiescent(s: State) {
    forall step :: Internal(step) ==> !Enabled(s, step)
  }

  /** When all is done that the threads inside and the nucleus can do, the close has returned if and only if no writer
      is stuck. */
  lemma CloseHasReturnedIff(r: Run, i: nat)
    requires IsRun(r) && i < |r.states| && r.states[i].h.closed && Quiescent(r.states[i])
    ensures r.states[i].closer.None? <==> !Stuck(r.states[i].tx)
  {
    Reachable(r, i);
    var s := r.states[i];
    if s.closer.Some? {
      CloseCanProceed(r, i);
    } else {
      assert SideOk(Tx, s.h.tx, true, s.tx);
    }
  }

  // ---------------------------------------------------------------- close takes boundedly many steps

  function Rank(side: Side): nat {
    if side.waiter.None? then 0 else
    match side.waiter.value.phase
    case Sleep(seen) => if Unnotified(side) then 6 else 8
    case Eval => 7
    case Signalled => 5
    case AbortSleep(seen) => if Unnotified(side) then 2 else 4
    case AbortEval => 3
    case Harvest(_) => 1
  }

  function CloserRank(s: State): nat {
    if s.closer.None? then 0 else
    match s.closer.value.phase
    case Sleep(seen) => if seen == s.wqClose.all then 2 else 4
    case Eval => 3
    case _ => 1
  }

  function Measure(s: State): nat {
    (if s.rx.inNucleus then 10 else 0) + (if s.tx.inNucleus then 10 else 0) + (if s.h.closeDone then 0 else 3)
    + 3 * Rank(s.rx) + 3 * Rank(s.tx) + CloserRank(s)
  }

  function Cost(step: Step): nat {
    if Internal(step) then 1 else 0
  }

  lemma SideSinks(dir: Direction, job: Job, closed: bool, side: Side, signal: bool, now: Option<Report>)
    requires SideOk(dir, job, closed, side) && side.waiter.Some? && (now.Some? ==> side.inNucleus)
    ensures side.waiter.value.phase.Eval? ==> Rank(Evaluated(job, side, signal)) < Rank(side)
    ensures side.waiter.value.phase.Sleep? && !Unnotified(side) ==> Rank(At(side, Eval)) < Rank(side)
    ensures side.waiter.value.phase.AbortEval? ==> Rank(AbortEvaluated(job, side)) < Rank(side)
    ensures side.waiter.value.phase.AbortSleep? && !Unnotified(side) ==> Rank(At(side, AbortEval)) < Rank(side)
    ensures side.waiter.value.phase.Signalled? ==>
              var side' := Aborted(dir, job, side, now).1; Rank(side') < Rank(side) && (side'.inNucleus ==> side.inNucleus)
  {
  }

  lemma WithSinks(s: State, dir: Direction, job: Job, side: Side)
    requires Rank(side) < Rank(SideOf(s, dir)) && (side.inNucleus ==> SideOf(s, dir).inNucleus)
    ensures Measure(With(s, dir, job, side)) < Measure(s)
  {
  }

  lemma WaiterSinks(s: State, step: Step)
    requires Enabled(s, step) && WaiterStep(step) && !step.Signal?
    requires SideOk(step.dir, JobOf(s, step.dir), s.h.closed, SideOf(s, step.dir))
    ensures Measure(Apply(s, step)) < Measure(s)
  {
    var dir := step.dir;
    var job, side := JobOf(s, dir), SideOf(s, dir);
    SideSinks(dir, job, s.h.closed, side, step.Evaluate? && step.signal, if step.Abort? then step.now else None);
    match step
    case Evaluate(_, signal) => WithSinks(s, dir, job, Evaluated(job, side, signal));
    case Wakes(_) => WithSinks(s, dir, job, At(side, Eval));
    case Abort(_, now) => WithSinks(s, dir, Aborted(dir, job, side, now).0, Aborted(dir, job, side, now).1);
    case AbortEvaluate(_) => WithSinks(s, dir, job, AbortEvaluated(job, side));
    case AbortWakes(_) => WithSinks(s, dir, job, At(side, AbortEval));
    case _ =>
  }

  lemma CallbackSinks(s: State, dir: Direction, r: Report)
    requires SideOf(s, dir).inNucleus
    ensures Measure(Callback(s, dir, Some(r))) < Measure(s)
  {
  }

  lemma LeaveSinks(s: State, dir: Direction)
    requires Enabled(s, Leave(dir))
    ensures Measure(LeaveIn(s, dir)) < Measure(s)
  {
  }

  lemma CloseSinks(s: State, step: Step)
    requires InvClose(s) && Enabled(s, step) && Internal(step) && CloseStep(step)
    ensures Measure(Apply(s, step)) < Measure(s)
  {
  }

  /** Once the handle is closed, calls that come too late cost nothing, and a signal costs a sleeper one more look. */
  lemma LateCallsSink(s: State, step: Step)
    requires Inv(s) && Enabled(s, step) && s.h.closed && !Internal(step) && !WaiterStep(step)
    ensures Measure(Apply(s, step)) == Measure(s)
  {
  }

  lemma SignalSinks(s: State, step: Step)
    requires Inv(s) && Enabled(s, step) && step.Signal?
    ensures Measure(Apply(s, step)) <= Measure(s) + 3
  {
  }

  lemma StepSinks(s: State, step: Step)
    requires Inv(s) && Enabled(s, step) && s.h.closed
    ensures Measure(Apply(s, step)) + Cost(step) <= Measure(s) + if step.Signal? then 3 else 0
  {
    if step.Signal? {
      SignalSinks(s, step);
    } else if WaiterStep(step) {
      assert SideOk(step.dir, JobOf(s, step.dir), s.h.closed, SideOf(s, step.dir));
      WaiterSinks(s, step);
    } else if step.NucDone? {
      CallbackSinks(s, step.dir, step.report);
    } else if step.Leave? {
      LeaveSinks(s, step.dir);
    } else if Internal(step) {
      CloseSinks(s, step);
    } else {
      LateCallsSink(s, step);
    }
  }

  function Work(r: Run, i: nat, j: nat): nat
    requires i <= j <= |r.steps|
  {
    if i == j then 0 else Work(r, i, j - 1) + Cost(r.steps[j - 1])
  }

  function Signals(r: Run, i: nat, j: nat): nat
    requires i <= j <= |r.steps|
  {
    if i == j then 0 else Signals(r, i, j - 1) + if r.steps[j - 1].Signal? then 1 else 0
  }

  lemma MeasureIsSmall(s: State)
    ensures Measure(s) <= 75
  {
  }

  lemma ClosedStays(s: State, step: Step)
    requires Enabled(s, step) && s.h.closed
    ensures Apply(s, step).h.closed
  {
  }

  /** From the moment a handle is marked closed, at most 75 steps of the threads inside and of the nucleus are left
      to take, and three more for each signal. With CloseCanProceed: every close returns, or a writer is stuck. */
  lemma {:induction false} CloseIsBounded(r: Run, i: nat, j: nat)
    requires IsRun(r) && i <= j < |r.states| && r.states[i].h.closed
    ensures r.states[j].h.closed
    ensures Work(r, i, j) + Measure(r.states[j]) <= Measure(r.states[i]) + 3 * Signals(r, i, j)
    ensures Work(r, i, j) <= 75 + 3 * Signals(r, i, j)
  {
    MeasureIsSmall(r.states[i]);
    if i < j {
      CloseIsBounded(r, i, j - 1);
      Reachable(r, j - 1);
      StepSinks(r.states[j - 1], r.steps[j - 1]);
      ClosedStays(r.states[j - 1], r.steps[j - 1]);
    }
  }
}
