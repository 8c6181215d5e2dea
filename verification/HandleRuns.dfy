/** What holds of every run of the handle protocol: who owns a flag word, and whom the callbacks reach. */
module HandleRuns {
  import opened Handle
  import opened HandleProtocol
  import opened HandleInvariant
  import opened Basics

  type Run = Trace<State, Step>

  ghost predicate IsRun(r: Run) {
    && |r.states| == |r.steps| + 1
    && r.states[0] == INIT
    && forall i | 0 <= i < |r.steps| :: Enabled(r.states[i], r.steps[i]) && r.states[i + 1] == Apply(r.states[i], r.steps[i])
  }

  lemma {:induction false} Reachable(r: Run, i: nat)
    requires IsRun(r) && i < |r.states|
    ensures Inv(r.states[i])
  {
    if i > 0 {
      Reachable(r, i - 1);
      StepKeepsInv(r.states[i - 1], r.steps[i - 1]);
    }
  }

  /** One run goes on where another has stopped. */
  ghost predicate Continues(r: Run, r0: Run) {
    IsRun(r) && IsRun(r0) && r0.states <= r.states && r0.steps <= r.steps
  }

  lemma Continue(r0: Run, r: Run, step: Step) returns (r': Run)
    requires Continues(r, r0) && Enabled(r.states[|r.steps|], step)
    ensures Continues(r', r0) && r'.states[|r'.steps|] == Apply(r.states[|r.steps|], step)
    ensures Continues(r', r) && |r'.steps| == |r.steps| + 1 && r'.steps[|r.steps|] == step
  {
    r' := Trace(r.states + [Apply(r.states[|r.steps|], step)], r.steps + [step]);
  }

  // ---------------------------------------------------------------- ownership

  ghost predicate OnlyOne(calls: map<nat, Call>, role: Call) {
    exists t :: t in calls && calls[t] == role && forall u | u in calls && calls[u] == role :: u == t
  }

  /** Whenever the lock is free, a flag word that is not zero belongs to exactly one read or write inside the driver
      or, for TX, to an unfinished send; a take never leaves one behind. */
  lemma FlagsHaveOneOwner(r: Run, i: nat, dir: Direction)
    requires IsRun(r) && i < |r.states|
    ensures var s := r.states[i];
            var f := JobOf(s, dir).flags;
            && (f != IDLE ==> f.sync || (dir.Tx? && f.async && !f.sync && s.tx.inNucleus))
            && (f.sync ==> OnlyOne(s.calls, Role(dir)))
            && (!f.sync ==> forall u | u in s.calls :: s.calls[u] != Role(dir))
  {
    Reachable(r, i);
    var s := r.states[i];
    assert SideOk(dir, JobOf(s, dir), s.h.closed, SideOf(s, dir));
    HeldByOne(s.calls, Role(dir), Owner(SideOf(s, dir).waiter));
  }

  lemma HeldByOne(calls: map<nat, Call>, role: Call, owner: Option<nat>)
    requires HeldBy(calls, role, owner)
    ensures if owner.Some? then OnlyOne(calls, role) else forall u | u in calls :: calls[u] != role
  {
  }

  /** A read or take that was let in and ends by this step. */
  ghost predicate RxExits(s: State, step: Step)
    requires Enabled(s, step)
  {
    || (step.Leave? && step.dir.Rx?)
    || ((step.ReadCall? || step.TakeCall? || step.TakeObjectCall?)
        && RxRefusal(s.h).None? && Apply(s, step).calls[step.t].Returned?)
  }

  /** Every exit of a read or take, whatever its outcome, leaves rx.state 0; a refused one changes nothing. */
  lemma RxExitsLeaveZero(r: Run, i: nat)
    requires IsRun(r) && i < |r.steps|
    ensures RxExits(r.states[i], r.steps[i]) ==> r.states[i + 1].h.rx.flags == IDLE
    ensures var s, step := r.states[i], r.steps[i];
            ((step.ReadCall? || step.TakeCall? || step.TakeObjectCall?) && RxRefusal(s.h).Some? ==>
               r.states[i + 1] == Return(s, step.t, RxRefusal(s.h).value))
  {
  }

  // ---------------------------------------------------------------- callbacks reach the waiter

  /** As long as the handle is not closing, rx_done never is spurious: it finds a read and makes what that waits
      for true, be it frames, a timeout or the end of an abort. */
  lemma RxDoneReachesReader(r: Run, i: nat, result: int, count: nat)
    requires IsRun(r) && i < |r.states| && !r.states[i].h.closed && r.states[i].rx.inNucleus
    ensures var (job', wake) := RxDoneSpec(r.states[i].h.rx, result, count);
            && r.states[i].rx.waiter.Some? && wake != Spurious
            && (if r.states[i].h.rx.flags.signal then !job'.flags.signal && wake == Everybody
                else Ready(job', 0) && wake == Interruptible)
  {
    Reachable(r, i);
  }

  /** tx_done makes what a writer waits for true exactly if the writer is aborting, nothing was sent, or more was
      sent than the unfinished send owed; in all other cases the handle must be closing. */
  lemma TxDoneReachesWriter(r: Run, i: nat, result: int, count: nat)
    requires IsRun(r) && i < |r.states| && r.states[i].tx.inNucleus && r.states[i].tx.waiter.Some?
    requires !r.states[i].tx.waiter.value.phase.Harvest?
    ensures var job, pending := r.states[i].h.tx, r.states[i].tx.waiter.value.pending;
            var (job', wake) := TxDoneSpec(job, result, count);
            && wake != Spurious
            && (job.flags.signal ==> !job'.flags.signal)
            && (!job.flags.signal ==>
                  (Ready(job', pending) <==> count == 0 || count > pending || r.states[i].h.closed))
  {
    Reachable(r, i);
  }

  /** The waiter sleeps and no wake-up has reached it since it looked. */
  predicate Unnotified(side: Side) {
    side.waiter.Some? &&
    match side.waiter.value.phase
    case Sleep(seen) => seen == InterruptibleCount(side.wq)
    case AbortSleep(seen) => seen == side.wq.all
    case _ => false
  }

  /** No lost wake-up: a reader sleeps only while the nucleus still owes it a callback, and so does a writer,
      unless it was told of no more frames than the unfinished send before it still owed. */
  lemma SleepersAreOwedACallback(r: Run, i: nat, dir: Direction)
    requires IsRun(r) && i < |r.states| && Unnotified(SideOf(r.states[i], dir))
    ensures var side := SideOf(r.states[i], dir);
            side.inNucleus || (dir.Tx? && side.report.Some? && 0 < side.report.value <= side.waiter.value.pending)
  {
    Reachable(r, i);
    assert SideOk(dir, JobOf(r.states[i], dir), r.states[i].h.closed, SideOf(r.states[i], dir));
  }

  lemma ReturnedStays(s: State, step: Step, t: nat)
    requires Inv(s) && Enabled(s, step) && t in s.calls && s.calls[t].Returned?
    ensures t in Apply(s, step).calls && Apply(s, step).calls[t] == s.calls[t]
  {
  }

  lemma {:induction false} ReturnedForGood(r: Run, i: nat, j: nat, t: nat)
    requires IsRun(r) && i <= j < |r.states| && t in r.states[i].calls && r.states[i].calls[t].Returned?
    ensures t in r.states[j].calls && r.states[j].calls[t] == r.states[i].calls[t]
  {
    if i < j {
      ReturnedForGood(r, i, j - 1, t);
      Reachable(r, j - 1);
      ReturnedStays(r.states[j - 1], r.steps[j - 1], t);
    }
  }

  // ---------------------------------------------------------------- TX

  /** Without a write inside, no count is left for the next one to take for its own; nor is one without a read
      inside, as long as the handle is open. */
  lemma NoStaleCount(r: Run, i: nat)
    requires IsRun(r) && i < |r.states|
    ensures (forall t | t in r.states[i].calls :: r.states[i].calls[t] != InWrite) ==> r.states[i].h.tx.count == 0
    ensures (!r.states[i].h.closed && forall t | t in r.states[i].calls :: r.states[i].calls[t] != InRead)
            ==> r.states[i].h.rx.count == 0
  {
    Reachable(r, i);
    var s := r.states[i];
    assert s.tx.waiter.Some? ==> s.calls[s.tx.waiter.value.t] == InWrite;
    assert s.rx.waiter.Some? ==> s.calls[s.rx.waiter.value.t] == InRead;
  }

  /** A write inside shuts out writes and sends; one that is not let in, or whose job is not accepted, leaves the
      handle and the unfinished send as they were. */
  lemma RejectedTxChangesNothing(r: Run, i: nat)
    requires IsRun(r) && i < |r.steps|
    ensures var s, step, s' := r.states[i], r.steps[i], r.states[i + 1];
            step.WriteCall? || step.SendCall? ==>
              && (s.tx.waiter.Some? ==> s'.calls[step.t].Returned?
                                        && s'.calls[step.t].outcome in {InvalidHandle, InvalidParameter, Pending})
              && (s'.calls[step.t].Returned? && s'.calls[step.t] != Returned(Accepted) ==>
                    s'.h == s.h && s'.tx == s.tx && s'.rx == s.rx)
  {
    Reachable(r, i);
  }

  /** A write that was not started on top of an unfinished send never leaves its job in the nucleus, close aside. */
  lemma WriteTakesItsJobAlong(r: Run, i: nat)
    requires IsRun(r) && i < |r.steps| && r.steps[i] == Leave(Tx) && !r.states[i].h.closed
    requires r.states[i].tx.waiter.value.pending == 0
    ensures !r.states[i + 1].tx.inNucleus
  {
    Reachable(r, i);
  }

  /** A signalled writer gives up without an abort, and so with its job still in the nucleus, exactly if frames of
      an unfinished send were pending and nothing has been reported yet. */
  lemma SignalledWriterLeavesJobBehind(r: Run, i: nat)
    requires IsRun(r) && i < |r.steps| && r.steps[i].Abort? && r.steps[i].dir.Tx? && !r.states[i].h.closed
    ensures var w := r.states[i].tx.waiter.value;
            (r.states[i + 1].tx.waiter == Some(w.(phase := Harvest(false))) && r.states[i + 1].tx.inNucleus)
            <==> (w.pending > 0 && r.states[i].tx.report.None?)
  {
    Reachable(r, i);
  }

  /** A TX job that nobody answers for: the write it was accepted from has left, and the flags are 0. */
  predicate Abandoned(s: State) {
    s.tx.inNucleus && s.tx.waiter.None? && !s.h.tx.flags.async
  }

  /** As long as the handle is open, tx_done is spurious exactly if it reports a job a writer left behind. */
  lemma TxDoneIsSpuriousIff(r: Run, i: nat, result: int, count: nat)
    requires IsRun(r) && i < |r.states| && !r.states[i].h.closed && r.states[i].tx.inNucleus
    ensures TxDoneSpec(r.states[i].h.tx, result, count).1 == Spurious <==> Abandoned(r.states[i])
  {
    Reachable(r, i);
  }

  /** On an open handle a job becomes abandoned by one step only: a writer that started on an unfinished send leaves
      before anything is reported. */
  lemma OnlyAWriterAbandons(r: Run, i: nat)
    requires IsRun(r) && i < |r.steps| && !r.states[i].h.closed
    requires !Abandoned(r.states[i]) && Abandoned(r.states[i + 1])
    ensures r.steps[i] == Leave(Tx) && r.states[i].tx.report.None? && r.states[i].tx.waiter.value.pending > 0
  {
    Reachable(r, i);
    AbandonStep(r.states[i], r.steps[i]);
  }

  lemma AbandonStep(s: State, step: Step)
    requires Inv(s) && Enabled(s, step) && !s.h.closed && !Abandoned(s) && Abandoned(Apply(s, step))
    ensures step == Leave(Tx) && s.tx.report.None? && s.tx.waiter.value.pending > 0
  {
  }

  // ---------------------------------------------------------------- why a take needs its abort to report

  /** Were nuc_rx_abort to return from a take before the report, the take would end with the result of an earlier job
      and flags 0, and the report would be lost or, if a read had begun meanwhile, be taken for that read's own. */
  lemma LateReportOfTake(job: Job, result: int, count: nat)
    requires job.flags == ASYNC && job.count == 0
    ensures var (left, o) := TakeEndSpec(job);
            && left.flags == IDLE && o == Ended(job.result)
            && RxDoneSpec(left, result, count).1 == Spurious
            && Ready(RxDoneSpec(Job(SYNC, 0, 0), result, count).0, 0)
  {
  }
}
