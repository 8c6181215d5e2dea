/** The write that gets stuck, and with it every close: when that happens, what frees it, and what does not. */
module HandleStuck {
  import opened Handle
  import opened HandleProtocol
  import opened HandleInvariant
  import opened HandleRuns
  import opened HandleFrames
  import opened HandleClose
  import opened Basics

  // ---------------------------------------------------------------- what a caller can do about it

  /** No write is let in while an earlier send is unfinished. */
  ghost predicate NoWriteOnSend(r: Run, n: nat)
    requires IsRun(r) && n <= |r.steps|
  {
    forall i | 0 <= i < n :: BeginsIn(r.states[i], r.steps[i], Tx) ==> !r.states[i].h.tx.flags.async
  }

  predicate NothingPending(s: State) {
    s.tx.waiter.Some? ==> s.tx.waiter.value.pending == 0
  }

  lemma NothingPendingStep(s: State, step: Step)
    requires Enabled(s, step) && NothingPending(s) && (BeginsIn(s, step, Tx) ==> !s.h.tx.flags.async)
    ensures NothingPending(Apply(s, step))
  {
  }

  lemma {:induction false} NothingPendingWithout(r: Run, i: nat)
    requires IsRun(r) && i < |r.states| && NoWriteOnSend(r, i)
    ensures NothingPending(r.states[i])
  {
    if i > 0 {
      NothingPendingWithout(r, i - 1);
      NothingPendingStep(r.states[i - 1], r.steps[i - 1]);
    }
  }

  /** Under that rule no writer is ever stuck, and a close that waits can always go on; with CloseIsBounded, it
      returns. */
  lemma CloseProceedsWithoutWriteOnSend(r: Run, i: nat)
    requires IsRun(r) && i < |r.states| && NoWriteOnSend(r, i)
    ensures !Stuck(r.states[i].tx)
    ensures r.states[i].closer.Some? ==> Internal(NextStep(r.states[i])) && Enabled(r.states[i], NextStep(r.states[i]))
    ensures r.states[i].h.closed && Quiescent(r.states[i]) ==> r.states[i].closer.None?
  {
    NothingPendingWithout(r, i);
    if r.states[i].closer.Some? {
      CloseCanProceed(r, i);
    }
  }

  // ---------------------------------------------------------------- a stuck writer holds up the close

  ghost predicate Hanging(s: State) {
    s.h.closed && s.closer.Some? && Stuck(s.tx)
  }

  lemma HangingStep(s: State, step: Step)
    requires Inv(s) && Enabled(s, step) && Hanging(s) && step != Signal(Tx)
    ensures Hanging(Apply(s, step))
  {
  }

  /** Without a signal to the writer the close does not return, at any later time. */
  lemma {:induction false} HangsWithoutSignal(r: Run, i: nat, j: nat)
    requires IsRun(r) && i <= j < |r.states| && Hanging(r.states[i])
    requires forall k | i <= k < j :: r.steps[k] != Signal(Tx)
    ensures Hanging(r.states[j])
  {
    if i < j {
      var k := j - 1;
      HangsWithoutSignal(r, i, k);
      Reachable(r, k);
      HangingStep(r.states[k], r.steps[k]);
    }
  }

  /** The writer waits without regard to signals for the report of a job the nucleus no longer has. */
  ghost predicate Unkillable(s: State) {
    && s.tx.waiter.Some? && (s.tx.waiter.value.phase.AbortEval? || s.tx.waiter.value.phase.AbortSleep?)
    && s.h.tx.flags.signal && !s.tx.inNucleus
  }

  /** A signal frees a stuck writer, and with it the close, if and only if it still is in the interruptible wait: then
      it finds the handle closing and leaves. In the other wait no signal can reach it. */
  lemma SignalFreesIff(r: Run, i: nat)
    requires IsRun(r) && i < |r.states| && Hanging(r.states[i])
    ensures var s := r.states[i];
            && (Enabled(s, Signal(Tx)) <==> s.tx.waiter.value.phase.Sleep?)
            && (s.tx.waiter.value.phase.Sleep? ==> forall signal :: LeavesAfterSignal(s, signal))
            && (!s.tx.waiter.value.phase.Sleep? ==> Unkillable(s))
  {
    Reachable(r, i);
    var s := r.states[i];
    assert SideOk(Tx, s.h.tx, true, s.tx);
  }

  /** With or without a further signal, the writer goes on to leave. */
  ghost predicate LeavesAfterSignal(s: State, signal: bool) {
    && Enabled(s, Signal(Tx))
    && var s1 := Apply(s, Signal(Tx));
    && Enabled(s1, Evaluate(Tx, signal))
    && Enabled(Apply(s1, Evaluate(Tx, signal)), Leave(Tx))
  }

  ghost predicate UnkillableBy(s: State, t: nat) {
    Unkillable(s) && s.tx.waiter.value.t == t
  }

  lemma UnkillableStep(s: State, step: Step, t: nat)
    requires Inv(s) && Enabled(s, step) && UnkillableBy(s, t)
    ensures UnkillableBy(Apply(s, step), t)
  {
    assert SideOk(Tx, s.h.tx, s.h.closed, s.tx);
  }

  /** The write has not returned, no close has, and no further write or send is let in. */
  ghost predicate NothingHelps(s: State, t: nat) {
    && t in s.calls && s.calls[t] == InWrite
    && (forall u | u in s.calls :: s.calls[u] != Returned(Closed))
    && SendRefusal(s.h).Some? && forall n: nat :: WriteRefusal(s.h, n).Some?
  }

  lemma UnkillableIsHopeless(s: State, t: nat)
    requires Inv(s) && UnkillableBy(s, t)
    ensures NothingHelps(s, t)
  {
    assert SideOk(Tx, s.h.tx, s.h.closed, s.tx);
  }

  lemma {:induction false} UnkillableStays(r: Run, i: nat, j: nat, t: nat)
    requires IsRun(r) && i <= j < |r.states| && UnkillableBy(r.states[i], t)
    ensures UnkillableBy(r.states[j], t)
  {
    if i < j {
      UnkillableStays(r, i, j - 1, t);
      Reachable(r, j - 1);
      UnkillableStep(r.states[j - 1], r.steps[j - 1], t);
    }
  }

  /** From then on nothing helps: whatever calls, signals and callbacks come, the write does not return, no destroy
      and no release ever returns, and no further write or send is let in. The handle need not be closed yet. */
  lemma UnkillableForGood(r: Run, i: nat, j: nat, t: nat)
    requires IsRun(r) && i <= j < |r.states| && UnkillableBy(r.states[i], t)
    ensures NothingHelps(r.states[j], t)
  {
    Reachable(r, j);
    UnkillableStays(r, i, j, t);
    UnkillableIsHopeless(r.states[j], t);
  }

  /** A signalled writer enters that wait if and only if exactly the frames of the unfinished send have been reported
      to it, and the handle is open. */
  lemma AbortIsUnkillableIff(r: Run, i: nat)
    requires IsRun(r) && i < |r.steps| && r.steps[i].Abort? && r.steps[i].dir.Tx?
    ensures var s := r.states[i];
            Unkillable(r.states[i + 1]) <==>
              !s.h.closed && s.tx.waiter.Some? && s.tx.waiter.value.pending > 0
              && s.tx.report == Some(s.tx.waiter.value.pending)
  {
    Reachable(r, i);
    var s := r.states[i];
    assert Enabled(s, r.steps[i]);
    assert SideOk(Tx, s.h.tx, s.h.closed, s.tx);
  }

  // ---------------------------------------------------------------- which writes can get stuck

  /** The write can get stuck: frames of an unfinished send were pending, and if its callback came within
      the call already, it reported some and no more than these. */
  predicate AtRisk(s: State, step: Step)
    requires step.WriteCall?
  {
    PendingOf(s, step.query) > 0 && (step.now.Some? ==> 0 < step.now.value.count <= PendingOf(s, step.query))
  }

  lemma StuckWasAtRisk(r: Run, i: nat, j: nat)
    requires IsRun(r) && i < j < |r.states| && BeginsIn(r.states[i], r.steps[i], Tx)
    requires Stuck(r.states[j].tx) && r.states[j].tx.waiter.value.t == r.steps[i].t
    ensures AtRisk(r.states[i], r.steps[i])
  {
    var b := Opened(r.states[i], r.steps[i], Tx);
    AccountIsKept(r, i, j, Tx);
    AccountOpens(r, i, Tx);
    StillInside(r, j, j, Tx, AccountAt(r, i, j, Tx));
    if r.steps[i].now.Some? {
      ReportStays(r, i + 1, j, Tx, b);
    }
  }

  /** A write inside that looks at its condition in vain goes to sleep, and stays asleep if told all it will be. */
  lemma LookInVain(s: State)
    requires Inv(s) && !s.h.closed && InPhase(s.tx.waiter, (p: Phase) => p.Eval?) && Parked(s.tx)
    ensures Enabled(s, Evaluate(Tx, false))
    ensures var s' := Apply(s, Evaluate(Tx, false));
            !s'.h.closed && Stuck(s'.tx) && Owner(s'.tx.waiter) == Owner(s.tx.waiter)
  {
    assert SideOk(Tx, s.h.tx, false, s.tx);
  }

  lemma CloseOnStuck(s: State, t: nat)
    requires Inv(s) && !s.h.closed && Stuck(s.tx) && t !in s.calls
    ensures Enabled(s, DestroyCall(t, None, None, false))
    ensures var s' := Apply(s, DestroyCall(t, None, None, false));
            Hanging(s') && Owner(s'.tx.waiter) == Owner(s.tx.waiter)
  {
  }

  lemma FreshCall(calls: map<nat, Call>) returns (t: nat)
    ensures t !in calls
  {
    t := if calls == map[] then 0 else MaxOf(calls.Keys) + 1;
  }

  /** An upper bound of a finite set. */
  ghost function MaxOf(s: set<nat>): (m: nat)
    ensures forall x | x in s :: x <= m
  {
    if s == {} then 0
    else
      var x :| x in s;
      assert forall y | y in s && y != x :: y in s - {x};
      Max(x, MaxOf(s - {x}))
  }

  ghost predicate HangsBy(r: Run, r0: Run, t: nat) {
    Continues(r, r0) && Hanging(r.states[|r.steps|]) && Owner(r.states[|r.steps|].tx.waiter) == Some(t)
  }

  ghost predicate CanHang(r0: Run, t: nat) {
    exists r: Run :: HangsBy(r, r0, t)
  }

  /** Which writes can hold up a close can be told when they are let in: those at risk and no others. The nucleus need
      only report one frame, the writer look once, and the handle be closed. */
  lemma WriteCanHangIff(r0: Run)
    requires IsRun(r0) && r0.steps != []
    requires var i := |r0.steps| - 1; BeginsIn(r0.states[i], r0.steps[i], Tx)
    ensures var i := |r0.steps| - 1; CanHang(r0, r0.steps[i].t) <==> AtRisk(r0.states[i], r0.steps[i])
  {
    var i := |r0.steps| - 1;
    var t := r0.steps[i].t;
    if CanHang(r0, t) {
      var r: Run :| HangsBy(r, r0, t);
      assert r.states[i] == r0.states[i] && r.steps[i] == r0.steps[i];
      StuckWasAtRisk(r, i, |r.steps|);
    }
    if AtRisk(r0.states[i], r0.steps[i]) {
      var r := GoOnToHang(r0);
      assert HangsBy(r, r0, t);
    }
  }

  lemma BegunAtRisk(s: State, step: Step)
    requires Inv(s) && Enabled(s, step) && BeginsIn(s, step, Tx) && AtRisk(s, step)
    ensures var s' := Apply(s, step);
            && !s'.h.closed && InPhase(s'.tx.waiter, (p: Phase) => p.Eval?) && s'.tx.waiter.value.t == step.t
            && (step.now.Some? ==> Parked(s'.tx))
            && (step.now.None? ==> s'.tx.inNucleus && s'.tx.waiter.value.pending > 0 && s'.tx.load > 0)
  {
  }

  lemma TellOne(s: State)
    requires Inv(s) && s.tx.inNucleus && s.tx.load > 0 && !s.h.closed
    requires InPhase(s.tx.waiter, (p: Phase) => p.Eval?) && s.tx.waiter.value.pending > 0
    ensures Enabled(s, NucDone(Tx, Report(0, 1)))
    ensures var s' := Apply(s, NucDone(Tx, Report(0, 1)));
            && !s'.h.closed && InPhase(s'.tx.waiter, (p: Phase) => p.Eval?) && Parked(s'.tx)
            && Owner(s'.tx.waiter) == Owner(s.tx.waiter)
  {
    assert SideOk(Tx, s.h.tx, false, s.tx);
  }

  lemma GoOnToHang(r0: Run) returns (r: Run)
    requires IsRun(r0) && r0.steps != []
    requires var i := |r0.steps| - 1; BeginsIn(r0.states[i], r0.steps[i], Tx) && AtRisk(r0.states[i], r0.steps[i])
    ensures HangsBy(r, r0, r0.steps[|r0.steps| - 1].t)
  {
    var i := |r0.steps| - 1;
    Reachable(r0, i);
    BegunAtRisk(r0.states[i], r0.steps[i]);
    r := r0;
    if r0.steps[i].now.None? {
      Reachable(r, |r.steps|);
      TellOne(r.states[|r.steps|]);
      r := Continue(r0, r, NucDone(Tx, Report(0, 1)));
    }
    Reachable(r, |r.steps|);
    LookInVain(r.states[|r.steps|]);
    r := Continue(r0, r, Evaluate(Tx, false));
    Reachable(r, |r.steps|);
    var t := FreshCall(r.states[|r.steps|].calls);
    CloseOnStuck(r.states[|r.steps|], t);
    r := Continue(r0, r, DestroyCall(t, None, None, false));
  }

  // ---------------------------------------------------------------- which writes can become unkillable

  /** Frames of an unfinished send were pending, and if the callback came within the call already, it reported
      exactly these. */
  predicate AtWorseRisk(s: State, step: Step)
    requires step.WriteCall?
  {
    PendingOf(s, step.query) > 0 && (step.now.Some? ==> step.now.value.count == PendingOf(s, step.query))
  }

  ghost predicate GetsUnkillable(r: Run, r0: Run, t: nat) {
    Continues(r, r0) && UnkillableBy(r.states[|r.steps|], t)
  }

  ghost predicate CanGetUnkillable(r0: Run, t: nat) {
    exists r: Run :: GetsUnkillable(r, r0, t)
  }

  /** Which writes can become unkillable can be told when they are let in, too: the nucleus need only report exactly
      the old frames, and a signal come. */
  lemma WriteCanGetUnkillableIff(r0: Run)
    requires IsRun(r0) && r0.steps != []
    requires var i := |r0.steps| - 1; BeginsIn(r0.states[i], r0.steps[i], Tx)
    ensures var i := |r0.steps| - 1; CanGetUnkillable(r0, r0.steps[i].t) <==> AtWorseRisk(r0.states[i], r0.steps[i])
  {
    var i := |r0.steps| - 1;
    var t := r0.steps[i].t;
    if CanGetUnkillable(r0, t) {
      var r: Run :| GetsUnkillable(r, r0, t);
      assert r.states[i] == r0.states[i] && r.steps[i] == r0.steps[i];
      UnkillableWasAtRisk(r, i, |r.steps|);
    }
    if AtWorseRisk(r0.states[i], r0.steps[i]) {
      var r := GoOnToUnkillable(r0);
      assert GetsUnkillable(r, r0, t);
    }
  }

  lemma UnkillableWasTold(s: State)
    requires Inv(s) && Unkillable(s)
    ensures ToldPending(s.tx)
  {
    assert SideOk(Tx, s.h.tx, s.h.closed, s.tx);
  }

  lemma UnkillableWasAtRisk(r: Run, i: nat, j: nat)
    requires IsRun(r) && i < j < |r.states| && BeginsIn(r.states[i], r.steps[i], Tx)
    requires UnkillableBy(r.states[j], r.steps[i].t)
    ensures AtWorseRisk(r.states[i], r.steps[i])
  {
    var b := Opened(r.states[i], r.steps[i], Tx);
    AccountIsKept(r, i, j, Tx);
    AccountOpens(r, i, Tx);
    StillInside(r, j, j, Tx, AccountAt(r, i, j, Tx));
    Reachable(r, j);
    UnkillableWasTold(r.states[j]);
    if r.steps[i].now.Some? {
      ReportStays(r, i + 1, j, Tx, b);
    }
  }

  lemma BegunAtWorseRisk(s: State, step: Step)
    requires Inv(s) && Enabled(s, step) && BeginsIn(s, step, Tx) && AtWorseRisk(s, step)
    ensures var s' := Apply(s, step);
            && !s'.h.closed && InPhase(s'.tx.waiter, (p: Phase) => p.Eval?) && s'.tx.waiter.value.t == step.t
            && (step.now.Some? ==> ToldPending(s'.tx))
            && (step.now.None? ==> s'.tx.inNucleus && 0 < s'.tx.waiter.value.pending <= s'.tx.load)
  {
  }

  lemma TellPending(s: State)
    requires Inv(s) && s.tx.inNucleus && !s.h.closed && InPhase(s.tx.waiter, (p: Phase) => p.Eval?)
    requires 0 < s.tx.waiter.value.pending <= s.tx.load
    ensures Enabled(s, NucDone(Tx, Report(0, s.tx.waiter.value.pending)))
    ensures var s' := Apply(s, NucDone(Tx, Report(0, s.tx.waiter.value.pending)));
            !s'.h.closed && s'.tx.waiter == s.tx.waiter && ToldPending(s'.tx)
  {
  }

  lemma SignalAndAbort(s: State)
    requires Inv(s) && !s.h.closed && InPhase(s.tx.waiter, (p: Phase) => p.Eval?) && ToldPending(s.tx)
    ensures Enabled(s, Evaluate(Tx, true))
    ensures var s1 := Apply(s, Evaluate(Tx, true));
            Enabled(s1, Abort(Tx, None)) && UnkillableBy(Apply(s1, Abort(Tx, None)), s.tx.waiter.value.t)
  {
    assert SideOk(Tx, s.h.tx, false, s.tx);
  }

  lemma GoOnToUnkillable(r0: Run) returns (r: Run)
    requires IsRun(r0) && r0.steps != []
    requires var i := |r0.steps| - 1; BeginsIn(r0.states[i], r0.steps[i], Tx) && AtWorseRisk(r0.states[i], r0.steps[i])
    ensures GetsUnkillable(r, r0, r0.steps[|r0.steps| - 1].t)
  {
    var i := |r0.steps| - 1;
    Reachable(r0, i);
    BegunAtWorseRisk(r0.states[i], r0.steps[i]);
    r := r0;
    if r0.steps[i].now.None? {
      Reachable(r, |r.steps|);
      TellPending(r.states[|r.steps|]);
      r := Continue(r0, r, NucDone(Tx, Report(0, r.states[|r.steps|].tx.waiter.value.pending)));
    }
    Reachable(r, |r.steps|);
    SignalAndAbort(r.states[|r.steps|]);
    r := Continue(r0, r, Evaluate(Tx, true));
    r := Continue(r0, r, Abort(Tx, None));
  }
}
