/** What every step of the handle protocol keeps, whenever the node lock is free. */
module HandleInvariant {
  import opened Handle
  import opened HandleProtocol
  import opened Basics

  function Reported(r: Option<nat>): nat {
    if r.Some? then r.value else 0
  }

  /** A write on top of an unfinished send that was told of some, but no more than the old frames. */
  predicate Parked(side: Side) {
    side.waiter.Some? && side.report.Some? && 0 < side.report.value <= side.waiter.value.pending
  }

  /** It was told of the old frames exactly. */
  predicate ToldPending(side: Side) {
    Parked(side) && side.report.value == side.waiter.value.pending
  }

  /** The waiter of one direction. While it is inside, either its job is in the nucleus or that has reported; a
      waiter that sleeps un-notified waits for a report still to come, or is parked. */
  ghost predicate WaiterOk(job: Job, closed: bool, side: Side)
    requires side.waiter.Some?
  {
    var f, p := job.flags, side.waiter.value.phase;
    && job.count == Reported(side.report)
    && (side.inNucleus <==> side.report.None?)
    && (f.abort ==> side.report == Some(0))
    && (p.Eval? || p.Sleep? || p.Signalled? ==> !f.signal && (side.report == Some(0) ==> f.abort))
    && (p.Sleep? ==> p.seen <= InterruptibleCount(side.wq)
                     && (p.seen == InterruptibleCount(side.wq) ==> side.inNucleus || Parked(side)))
    && (p.AbortEval? || p.AbortSleep? ==>
          (side.inNucleus ==> f.signal) && (f.signal ==> side.inNucleus || ToldPending(side)))
    && (p.AbortSleep? ==> p.seen <= side.wq.all && (p.seen == side.wq.all ==> f.signal))
    && (p.Harvest? ==> !f.signal && (p.interrupted ==> !side.inNucleus)
                       && (side.inNucleus && !closed ==> side.waiter.value.pending > 0))
  }

  /** One direction: a flag word that is not zero belongs to the one waiter or, for TX, to an unfinished send. */
  ghost predicate SideOk(dir: Direction, job: Job, closed: bool, side: Side) {
    var f := job.flags;
    && (f.sync <==> side.waiter.Some?)
    && (f.async ==> dir.Tx? && !f.sync && side.inNucleus)
    && (f.abort || f.signal ==> f.sync)
    && (f.closing <==> closed && (f.sync || f.async))
    && (side.waiter.None? && (dir.Tx? || !closed) ==> job.count == 0)
    && (side.waiter.None? && dir.Rx? && !closed ==> !side.inNucleus)
    && (side.waiter.Some? && dir.Rx? ==> side.waiter.value.pending == 0)
    && (side.waiter.Some? ==> WaiterOk(job, closed, side))
  }

  ghost predicate InvSides(s: State) {
    && SideOk(Rx, s.h.rx, s.h.closed, s.rx)
    && SideOk(Tx, s.h.tx, s.h.closed, s.tx)
  }

  function Owner(w: Option<Waiter>): Option<nat> {
    if w.Some? then Some(w.value.t) else None
  }

  ghost predicate HeldBy(calls: map<nat, Call>, role: Call, owner: Option<nat>) {
    && (forall t | t in calls :: calls[t] == role <==> owner == Some(t))
    && (owner.Some? ==> owner.value in calls)
  }

  /** Each role is held by at most one call, the one the waiter belongs to. */
  ghost predicate Roles(calls: map<nat, Call>, reader: Option<nat>, writer: Option<nat>, closer: Option<nat>) {
    HeldBy(calls, InRead, reader) && HeldBy(calls, InWrite, writer) && HeldBy(calls, InClose, closer)
  }

  ghost predicate InvRoles(s: State) {
    Roles(s.calls, Owner(s.rx.waiter), Owner(s.tx.waiter), Owner(s.closer))
  }

  ghost predicate CloserOk(s: State)
    requires s.closer.Some?
  {
    var p := s.closer.value.phase;
    && (p.Eval? || p.Sleep? || (p.Harvest? && CloseReady(s.h)))
    && (p.Sleep? ==> p.seen <= s.wqClose.all && (p.seen == s.wqClose.all ==> !CloseReady(s.h)))
  }

  ghost predicate InvClose(s: State) {
    && s.nucCloses == (if s.h.closed then 1 else 0)
    && (s.h.closeDone ==> s.h.closed && !s.tx.inNucleus)
    && (s.closer.Some? ==> s.h.closed && CloserOk(s))
    && (s.h.closed && s.closer.None? ==> CloseReady(s.h))
    && (forall t | t in s.calls && s.calls[t] == Returned(Closed) :: s.h.closed && s.closer.None?)
  }

  ghost predicate Inv(s: State) {
    InvRoles(s) && InvSides(s) && InvClose(s)
  }

  // ---------------------------------------------------------------- one direction

  lemma DoneKeeps(dir: Direction, job: Job, closed: bool, side: Side, r: Report)
    requires SideOk(dir, job, closed, side) && side.inNucleus
    ensures SideOk(dir, Done(dir, job, side, r).0, closed, Done(dir, job, side, r).1)
  {
  }

  lemma BeginKeeps(dir: Direction, job: Job, side: Side, t: nat, pending: nat, load: nat, now: Option<Report>)
    requires SideOk(dir, job, false, side) && !job.flags.sync && (dir.Rx? ==> pending == 0)
    ensures var (j, d) := Begin(dir, job, side, t, pending, load, now); SideOk(dir, j, false, d)
  {
  }

  lemma EvaluateKeeps(dir: Direction, job: Job, closed: bool, side: Side, signal: bool)
    requires SideOk(dir, job, closed, side) && InPhase(side.waiter, (p: Phase) => p.Eval?)
    ensures SideOk(dir, job, closed, Evaluated(job, side, signal))
  {
  }

  lemma AbortKeeps(dir: Direction, job: Job, closed: bool, side: Side, now: Option<Report>)
    requires SideOk(dir, job, closed, side) && InPhase(side.waiter, (p: Phase) => p.Signalled?)
    requires now.Some? ==> side.inNucleus
    ensures var (j, d) := Aborted(dir, job, side, now); SideOk(dir, j, closed, d)
  {
  }

  lemma PhasesKeep(dir: Direction, job: Job, closed: bool, side: Side)
    requires SideOk(dir, job, closed, side) && side.waiter.Some?
    ensures side.waiter.value.phase.Sleep? ==> SideOk(dir, job, closed, At(side, Eval))
    ensures side.waiter.value.phase.AbortEval? ==> SideOk(dir, job, closed, AbortEvaluated(job, side))
    ensures side.waiter.value.phase.AbortSleep? ==> SideOk(dir, job, closed, At(side, AbortEval))
  {
  }

  lemma TakeKeeps(job: Job, side: Side, first: Option<Report>, last: Report)
    requires SideOk(Rx, job, false, side) && job.flags == IDLE
    ensures var (j, d) := Taken(job, side, first, last);
            && SideOk(Rx, TakeEndSpec(j).0, false, d)
            && (TakeEndSpec(j).0).flags == IDLE && !d.inNucleus && d.waiter.None?
  {
  }

  lemma SendKeeps(job: Job, side: Side, load: nat, now: Option<Report>)
    requires SideOk(Tx, job, false, side) && !job.flags.sync
    ensures var (j, d) := MaybeDone(Tx, job.(flags := ASYNC), side.(inNucleus := true, load := load), now);
            SideOk(Tx, j, false, d)
  {
  }

  lemma MarkKeeps(dir: Direction, job: Job, side: Side)
    requires SideOk(dir, job, false, side)
    ensures SideOk(dir, Marked(job), true, side)
  {
  }

  // ---------------------------------------------------------------- all steps

  lemma CloseKeepsSides(s: State, t: nat, rxNow: Option<Report>, txNow: Option<Report>, done: bool)
    requires InvSides(s) && !s.h.closed && CallbacksPossible(s, rxNow, txNow, done)
    ensures InvSides(BeginClose(s, t, rxNow, txNow, done))
  {
    MarkKeeps(Rx, s.h.rx, s.rx);
    MarkKeeps(Tx, s.h.tx, s.tx);
    if rxNow.Some? {
      DoneKeeps(Rx, Marked(s.h.rx), true, s.rx, rxNow.value);
    }
    if txNow.Some? {
      DoneKeeps(Tx, Marked(s.h.tx), true, s.tx, txNow.value);
    }
  }

  /** The steps of a waiter that is inside. */
  predicate WaiterStep(step: Step) {
    step.Evaluate? || step.Wakes? || step.Signal? || step.Abort? || step.AbortEvaluate? || step.AbortWakes?
  }

  lemma WaiterKeepsSides(s: State, step: Step)
    requires InvSides(s) && Enabled(s, step) && WaiterStep(step)
    ensures InvSides(Apply(s, step))
  {
    var dir := step.dir;
    var job, side := JobOf(s, dir), SideOf(s, dir);
    assert SideOk(dir, job, s.h.closed, side);
    PhasesKeep(dir, job, s.h.closed, side);
    if step.Evaluate? {
      EvaluateKeeps(dir, job, s.h.closed, side, step.signal);
    } else if step.Abort? {
      AbortKeeps(dir, job, s.h.closed, side, step.now);
    }
  }

  lemma ReadKeepsSides(s: State, step: Step)
    requires InvSides(s) && Enabled(s, step) && (step.ReadCall? || step.TakeCall? || step.TakeObjectCall?)
    ensures InvSides(Apply(s, step))
  {
    if RxRefusal(s.h).None? && step.accepted {
      if step.ReadCall? {
        BeginKeeps(Rx, s.h.rx, s.rx, step.t, 0, 0, step.now);
      } else if step.TakeCall? {
        TakeKeeps(s.h.rx, s.rx, step.first, step.last);
      }
    }
  }

  lemma WriteKeepsSides(s: State, step: Step)
    requires InvSides(s) && Enabled(s, step) && (step.WriteCall? || step.SendCall?)
    ensures InvSides(Apply(s, step))
  {
    if step.SendCall? {
      if SendRefusal(s.h).None? && step.accepted {
        SendKeeps(s.h.tx, s.tx, Load(s.tx) + step.taken, step.now);
      }
    } else if WriteRefusal(s.h, step.count).None? && step.accepted && (s.h.tx.flags.async ==> step.query.Unfinished?) {
      BeginKeeps(Tx, s.h.tx, s.tx, step.t, PendingOf(s, step.query), LoadWith(s, step.query, step.taken), step.now);
    }
  }

  lemma LeaveKeepsSides(s: State, dir: Direction)
    requires InvSides(s) && Enabled(s, Leave(dir))
    ensures InvSides(LeaveIn(s, dir))
  {
  }

  lemma CallbackKeepsSides(s: State, dir: Direction, r: Report)
    requires InvSides(s) && SideOf(s, dir).inNucleus
    ensures InvSides(Callback(s, dir, Some(r)))
  {
    DoneKeeps(dir, JobOf(s, dir), s.h.closed, SideOf(s, dir), r);
  }

  predicate CloseStep(step: Step) {
    step.DestroyCall? || step.ReleaseCall? || step.CloseEvaluate? || step.CloseWakes? || step.CloseReturns?
    || step.NucCloseDone?
  }

  lemma CloseStepKeepsSides(s: State, step: Step)
    requires InvSides(s) && Enabled(s, step) && CloseStep(step)
    ensures InvSides(Apply(s, step))
  {
    if (step.DestroyCall? || step.ReleaseCall?) && !s.h.closed {
      CloseKeepsSides(s, step.t, step.rxNow, step.txNow, step.done);
    }
  }

  lemma StepKeepsSides(s: State, step: Step)
    requires Inv(s) && Enabled(s, step)
    ensures InvSides(Apply(s, step))
  {
    if step.ReadCall? || step.TakeCall? || step.TakeObjectCall? {
      ReadKeepsSides(s, step);
    } else if step.WriteCall? || step.SendCall? {
      WriteKeepsSides(s, step);
    } else if WaiterStep(step) {
      WaiterKeepsSides(s, step);
    } else if step.Leave? {
      LeaveKeepsSides(s, step.dir);
    } else if step.NucDone? {
      CallbackKeepsSides(s, step.dir, step.report);
    } else {
      CloseStepKeepsSides(s, step);
    }
  }

  lemma RolesAfterCall(calls: map<nat, Call>, r: Option<nat>, w: Option<nat>, c: Option<nat>, t: nat, o: Outcome)
    requires Roles(calls, r, w, c) && t !in calls
    ensures Roles(calls[t := Returned(o)], r, w, c)
    ensures r == None ==> Roles(calls[t := InRead], Some(t), w, c)
    ensures w == None ==> Roles(calls[t := InWrite], r, Some(t), c)
    ensures c == None ==> Roles(calls[t := InClose], r, w, Some(t))
  {
  }

  lemma RolesAfterReturn(calls: map<nat, Call>, r: Option<nat>, w: Option<nat>, c: Option<nat>, t: nat, o: Outcome)
    requires Roles(calls, r, w, c) && t in calls
    ensures r == Some(t) ==> Roles(calls[t := Returned(o)], None, w, c)
    ensures w == Some(t) ==> Roles(calls[t := Returned(o)], r, None, c)
    ensures c == Some(t) ==> Roles(calls[t := Returned(o)], r, w, None)
  {
  }

  lemma WaiterKeepsRoles(s: State, step: Step)
    requires InvRoles(s) && Enabled(s, step)
    requires WaiterStep(step) || step.NucDone? || step.CloseEvaluate? || step.CloseWakes? || step.NucCloseDone?
    ensures InvRoles(Apply(s, step))
  {
    var s' := Apply(s, step);
    assert s'.calls == s.calls && Owner(s'.closer) == Owner(s.closer);
    assert Owner(s'.rx.waiter) == Owner(s.rx.waiter) && Owner(s'.tx.waiter) == Owner(s.tx.waiter);
  }

  predicate Request(step: Step) {
    step.ReadCall? || step.TakeCall? || step.TakeObjectCall? || step.WriteCall? || step.SendCall?
  }

  /** A request that does not get to wait returns at once and leaves both waiters alone. */
  predicate TurnedAway(s: State, s': State, t: nat) {
    && s'.rx.waiter == s.rx.waiter && s'.tx.waiter == s.tx.waiter && s'.closer == s.closer
    && t in s'.calls && s'.calls[t].Returned? && s'.calls == s.calls[t := s'.calls[t]]
  }

  lemma TurnedAwayKeepsRoles(s: State, s': State, t: nat)
    requires InvRoles(s) && t !in s.calls && TurnedAway(s, s', t)
    ensures InvRoles(s')
  {
  }

  lemma BeginKeepsRoles(s: State, dir: Direction, t: nat, pending: nat, load: nat, now: Option<Report>)
    requires InvRoles(s) && t !in s.calls && SideOf(s, dir).waiter.None?
    ensures InvRoles(BeginIn(s, dir, t, pending, load, now))
  {
  }

  /** The read or write that is let in and gets its job accepted. */
  predicate Begins(s: State, step: Step) {
    match step
    case ReadCall(_, accepted, _) => RxRefusal(s.h).None? && accepted
    case WriteCall(_, count, query, accepted, _, _) =>
      WriteRefusal(s.h, count).None? && accepted && (s.h.tx.flags.async ==> query.Unfinished?)
    case _ => false
  }

  lemma TakenKeepsWaiter(job: Job, side: Side, first: Option<Report>, last: Report)
    ensures Taken(job, side, first, last).1.waiter == side.waiter
  {
  }

  lemma OthersAreTurnedAway(s: State, step: Step)
    requires Enabled(s, step) && Request(step) && !Begins(s, step)
    ensures TurnedAway(s, Apply(s, step), step.t)
  {
    match step
    case ReadCall(t, accepted, now) =>
    case TakeCall(t, accepted, first, last) => TakenKeepsWaiter(s.h.rx, s.rx, first, last);
    case TakeObjectCall(t, accepted, count) =>
    case WriteCall(t, count, query, accepted, taken, now) =>
    case SendCall(t, accepted, taken, now) =>
  }

  lemma RequestKeepsRoles(s: State, step: Step)
    requires InvRoles(s) && InvSides(s) && Enabled(s, step) && Request(step)
    ensures InvRoles(Apply(s, step))
  {
    if !Begins(s, step) {
      OthersAreTurnedAway(s, step);
      TurnedAwayKeepsRoles(s, Apply(s, step), step.t);
    } else if step.ReadCall? {
      BeginKeepsRoles(s, Rx, step.t, 0, 0, step.now);
    } else {
      BeginKeepsRoles(s, Tx, step.t, PendingOf(s, step.query), LoadWith(s, step.query, step.taken), step.now);
    }
  }

  lemma CloseKeepsRoles(s: State, step: Step)
    requires Inv(s) && Enabled(s, step) && (step.DestroyCall? || step.ReleaseCall?)
    ensures InvRoles(Apply(s, step))
  {
    RolesAfterCall(s.calls, Owner(s.rx.waiter), Owner(s.tx.waiter), Owner(s.closer), step.t,
                   if step.DestroyCall? then InvalidHandle else Closed);
  }

  lemma LeaveKeepsRoles(s: State, step: Step)
    requires InvRoles(s) && Enabled(s, step) && (step.Leave? || step.CloseReturns?)
    ensures InvRoles(Apply(s, step))
  {
    var w := if step.Leave? then SideOf(s, step.dir).waiter.value else s.closer.value;
    var s' := Apply(s, step);
    assert w.t in s.calls;
    RolesAfterReturn(s.calls, Owner(s.rx.waiter), Owner(s.tx.waiter), Owner(s.closer), w.t, s'.calls[w.t].outcome);
  }

  /** Roles change hands only by these calls and by leaving. */
  lemma StepKeepsRoles(s: State, step: Step)
    requires Inv(s) && Enabled(s, step)
    ensures InvRoles(Apply(s, step))
  {
    if Request(step) {
      RequestKeepsRoles(s, step);
    } else if step.DestroyCall? || step.ReleaseCall? {
      CloseKeepsRoles(s, step);
    } else if step.Leave? || step.CloseReturns? {
      LeaveKeepsRoles(s, step);
    } else {
      WaiterKeepsRoles(s, step);
    }
  }

  lemma RequestKeepsClose(s: State, step: Step)
    requires Inv(s) && Enabled(s, step) && Request(step)
    ensures InvClose(Apply(s, step))
  {
    var s' := Apply(s, step);
    if s.h.closed {
      assert s' == Return(s, step.t, InvalidHandle);
    } else {
      assert !s'.h.closed && !s'.h.closeDone && s'.nucCloses == s.nucCloses && s'.closer == s.closer;
      assert forall t | t in s'.calls && t != step.t :: s'.calls[t] == s.calls[t];
    }
  }

  /** A step that neither makes a call nor returns from one and leaves the close flags alone. */
  lemma OthersKeepClose(s: State, s': State)
    requires InvClose(s)
    requires s'.calls == s.calls && s'.closer == s.closer && s'.nucCloses == s.nucCloses && s'.wqClose == s.wqClose
    requires s'.h.closed == s.h.closed && s'.h.closeDone == s.h.closeDone
    requires s.h.closeDone ==> !s'.tx.inNucleus && CloseReady(s'.h) == CloseReady(s.h)
    ensures InvClose(s')
  {
  }

  lemma WaiterKeepsClose(s: State, step: Step)
    requires Inv(s) && Enabled(s, step) && WaiterStep(step)
    ensures InvClose(Apply(s, step))
  {
    OthersKeepClose(s, Apply(s, step));
  }

  lemma CallbackKeepsClose(s: State, dir: Direction, r: Report)
    requires Inv(s) && SideOf(s, dir).inNucleus
    ensures InvClose(Callback(s, dir, Some(r)))
  {
  }

  lemma LeaveKeepsClose(s: State, step: Step)
    requires Inv(s) && Enabled(s, step) && step.Leave?
    ensures InvClose(Apply(s, step))
  {
    var s', w := Apply(s, step), SideOf(s, step.dir).waiter.value;
    assert s'.calls[w.t].Returned? && s'.calls[w.t].outcome != Closed;
    assert forall t | t in s'.calls && t != w.t :: s'.calls[t] == s.calls[t];
  }

  lemma BeginCloseKeepsClose(s: State, t: nat, rxNow: Option<Report>, txNow: Option<Report>, done: bool)
    requires Inv(s) && !s.h.closed && CallbacksPossible(s, rxNow, txNow, done)
    ensures InvClose(BeginClose(s, t, rxNow, txNow, done))
  {
  }

  lemma CloseKeepsClose(s: State, step: Step)
    requires Inv(s) && Enabled(s, step) && CloseStep(step)
    ensures InvClose(Apply(s, step))
  {
    if (step.DestroyCall? || step.ReleaseCall?) && !s.h.closed {
      BeginCloseKeepsClose(s, step.t, step.rxNow, step.txNow, step.done);
    } else if step.ReleaseCall? {
      NoCloserOnRelease(s);
    }
  }

  lemma NoCloserOnRelease(s: State)
    requires InvRoles(s) && forall u | u in s.calls :: s.calls[u].Returned?
    ensures s.closer.None?
  {
  }

  lemma StepKeepsClose(s: State, step: Step)
    requires Inv(s) && Enabled(s, step)
    ensures InvClose(Apply(s, step))
  {
    if Request(step) {
      RequestKeepsClose(s, step);
    } else if WaiterStep(step) {
      WaiterKeepsClose(s, step);
    } else if step.NucDone? {
      CallbackKeepsClose(s, step.dir, step.report);
    } else if step.Leave? {
      LeaveKeepsClose(s, step);
    } else {
      CloseKeepsClose(s, step);
    }
  }

  lemma StepKeepsInv(s: State, step: Step)
    requires Inv(s) && Enabled(s, step)
    ensures Inv(Apply(s, step))
  {
    StepKeepsSides(s, step);
    StepKeepsRoles(s, step);
    StepKeepsClose(s, step);
  }
}
