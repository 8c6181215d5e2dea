/** What holds of every run of the DPC engine. */
module DpcRuns {
  import opened DpcList
  import opened DpcProtocol
  import opened Basics

  type Run = Trace<State, Step>

  ghost predicate IsRun(r: Run) {
    && |r.states| == |r.steps| + 1
    && r.states[0] == INIT
    && forall i | 0 <= i < |r.steps| :: Enabled(r.states[i], r.steps[i]) && r.states[i + 1] == Apply(r.states[i], r.steps[i])
  }

  lemma {:induction false} Reachable(r: Run, i: nat)
    requires IsRun(r) && i < |r.states|
    ensures Inv(r.states[i])
  {
    if i > 0 {
      Reachable(r, i - 1);
      StepKeepsInv(r.states[i - 1], r.steps[i - 1]);
    }
  }

  /** No lost wake-up: a worker that sleeps although the list is not empty is about to be woken by a trigger call
      that has appended its entry already; if no call is in flight, the list is empty and trig is 0. */
  lemma NoLostWakeup(r: Run, i: nat)
    requires IsRun(r) && i < |r.states|
    ensures var s := r.states[i];
            s.worker.Scheduling? && s.interruptible ==>
              && (s.list.queue != [] ==> Notifying(s))
              && (!Notifying(s) ==> s.list.queue == [] && s.trig == 0)
  {
    Reachable(r, i);
  }

  /** At most one function runs, never two at a time and never one twice; and appends are conserved. */
  lemma OneAtATimeAndConserved(r: Run, i: nat)
    requires IsRun(r) && i < |r.states|
    ensures var s := r.states[i];
            && s.list.running == (if s.worker.Running? then {s.worker.d} else {})
            && NoDup(s.list.queue)
            && |s.hist.enqueued| == |s.hist.started| + |s.list.queue| + |s.hist.dropped|
            && Increasing(s.hist.started)
  {
    Reachable(r, i);
    var h := r.states[i].hist;
    assert h.started == Tickets(h)[..|h.started|];
  }

  // ---------------------------------------------------------------- triggers are not lost

  predicate TriggersAt(s: State, step: Step, d: Id) {
    step.TriggerLocked? && step.c in s.triggers && s.triggers[step.c].d == d && d !in s.list.destroyed
  }

  predicate StartsAt(s: State, step: Step, d: Id) {
    step.WPop? && s.list.queue != [] && s.list.queue[0] == d
  }

  /** `d` was triggered, successfully, at step `a`, and its function has not been started since. */
  ghost predicate TriggeredSince(r: Run, a: nat, i: nat, d: Id)
    requires IsRun(r) && a < i < |r.states|
  {
    TriggersAt(r.states[a], r.steps[a], d) && forall b | a < b < i :: !StartsAt(r.states[b], r.steps[b], d)
  }

  ghost predicate Triggered(r: Run, i: nat, d: Id)
    requires IsRun(r) && i < |r.states|
  {
    exists a: nat :: a < i && TriggeredSince(r, a, i, d)
  }

  lemma TriggeredStep(r: Run, k: nat, d: Id)
    requires IsRun(r) && k < |r.steps|
    ensures Triggered(r, k + 1, d) <==>
              TriggersAt(r.states[k], r.steps[k], d) || (Triggered(r, k, d) && !StartsAt(r.states[k], r.steps[k], d))
  {
    if TriggersAt(r.states[k], r.steps[k], d) {
      assert TriggeredSince(r, k, k + 1, d);
    } else if Triggered(r, k, d) && !StartsAt(r.states[k], r.steps[k], d) {
      var a: nat :| a < k && TriggeredSince(r, a, k, d);
      assert TriggeredSince(r, a, k + 1, d);
    }
    if Triggered(r, k + 1, d) && !TriggersAt(r.states[k], r.steps[k], d) {
      var a: nat :| a < k + 1 && TriggeredSince(r, a, k + 1, d);
      assert TriggeredSince(r, a, k, d);
    }
  }

  lemma {:induction false} OwedIsTriggeredSince(r: Run, i: nat, d: Id)
    requires IsRun(r) && i < |r.states|
    ensures d in r.states[i].hist.owed <==> Triggered(r, i, d)
  {
    if i > 0 {
      var k := i - 1;
      OwedIsTriggeredSince(r, k, d);
      Reachable(r, k);
      OwedStep(r.states[k], r.steps[k], d);
      TriggeredStep(r, k, d);
    }
  }

  lemma OwedStep(s: State, step: Step, d: Id)
    requires Inv(s) && Enabled(s, step)
    ensures d in Apply(s, step).hist.owed <==> TriggersAt(s, step, d) || (d in s.hist.owed && !StartsAt(s, step, d))
  {
  }

  /** A live entry is on the list exactly when it has been triggered since its function last started: neither a
      coalesced trigger nor one that arrives while the function runs is lost. */
  lemma QueuedIffTriggeredSince(r: Run, i: nat, d: Id)
    requires IsRun(r) && i < |r.states| && d !in r.states[i].list.destroyed
    ensures d in r.states[i].list.queue <==> Triggered(r, i, d)
  {
    Reachable(r, i);
    OwedIsTriggeredSince(r, i, d);
    assert d in r.states[i].list.queue <==> d in Elements(r.states[i].list.queue);
  }

  // ---------------------------------------------------------------- first come, first served

  predicate WorkerStep(step: Step) {
    step.WDecrement? || step.WLock? || step.WPop? || step.WPark? || step.WReadTrig? || step.WUnlock?
    || step.WSchedule? || step.WRearm? || step.WFinish?
  }

  function WorkerSteps(r: Run, i: nat, j: nat): nat
    requires i <= j <= |r.steps|
  {
    if i == j then 0 else WorkerSteps(r, i, j - 1) + if WorkerStep(r.steps[j - 1]) then 1 else 0
  }

  /** Worker steps before the next test of the drain loop. */
  function Distance(w: WorkerPc): nat {
    match w
    case Draining => 0
    case Running(_) => 1
    case TakeLock => 1
    case LoopTop => 2
    case Rearm => 3
    case Scheduling => 4
    case _ => 5
  }

  /** A ticket waits at position `q` with the worker in state `w`; this is what is left of what `p` allowed. */
  predicate WaitsAt(h: History, w: WorkerPc, t: nat, q: nat, starts: nat, work: nat) {
    && q < |h.pending| && h.pending[q] == t
    && |h.started| + q <= starts
    && 2 * q + Distance(w) <= work
  }

  lemma DropMoves(h: History, w: WorkerPc, i: nat, p: nat) returns (q: nat)
    requires i < |h.pending| && p < |h.pending| && i != p
    ensures WaitsAt(Drop(h, i), w, h.pending[p], q, |h.started| + p, 2 * p + Distance(w))
  {
    q := if i < p then p - 1 else p;
  }

  lemma WorkCounts(s: State, step: Step)
    requires InvList(s) && Enabled(s, step) && s.list.queue != [] && !step.WPop?
    ensures Distance(Apply(s, step).worker) + (if WorkerStep(step) then 1 else 0) <= Distance(s.worker)
  {
  }

  /** One step seen by the ticket at position `p`: it is dropped, it is started as the last start, or it is at
      a position `q` that makes up for every start and every step of the worker. */
  lemma TicketMoves(s: State, step: Step, p: nat) returns (q: nat)
    requires InvList(s) && PendingIs(s.hist, s.list.queue) && Enabled(s, step) && p < |s.hist.pending|
    ensures var t, h, h' := s.hist.pending[p], s.hist, Apply(s, step).hist;
            || t in h'.dropped
            || (p == 0 && h'.started == h.started + [t])
            || WaitsAt(h', Apply(s, step).worker, t, q, |h.started| + p,
                       2 * p + Distance(s.worker) - if WorkerStep(step) then 1 else 0)
  {
    q := p;
    if step.WPop? {
      q := if p > 0 then p - 1 else 0;
    } else {
      WorkCounts(s, step);
      if step.DestroyLocked? {
        var i := Position(s.list.queue, s.destroys[step.c].d);
        if i < |s.hist.pending| && i != p {
          q := DropMoves(s.hist, s.worker, i, p);
        }
      }
    }
  }

  lemma HistoryGrows(s: State, step: Step)
    requires Inv(s) && Enabled(s, step)
    ensures s.hist.started <= Apply(s, step).hist.started
    ensures s.hist.dropped <= Apply(s, step).hist.dropped
  {
  }

  ghost predicate StartedWithin(s: State, t: nat, base: nat, p: nat) {
    exists k :: base <= k <= base + p && k < |s.hist.started| && s.hist.started[k] == t
  }

  /** What has become of ticket `t`: dropped, started after at most `p` other starts, or it waits at `q`. */
  ghost predicate Served(s: State, t: nat, base: nat, p: nat, q: nat, work: int) {
    || t in s.hist.dropped
    || StartedWithin(s, t, base, p)
    || (base <= |s.hist.started| && work >= 0 && WaitsAt(s.hist, s.worker, t, q, base + p, work))
  }

  lemma ServedStep(s: State, step: Step, t: nat, base: nat, p: nat, q0: nat, work: int) returns (q: nat)
    requires Inv(s) && Enabled(s, step) && Served(s, t, base, p, q0, work)
    ensures Served(Apply(s, step), t, base, p, q, work - if WorkerStep(step) then 1 else 0)
  {
    var s' := Apply(s, step);
    HistoryGrows(s, step);
    q := q0;
    if t in s.hist.dropped {
    } else if StartedWithin(s, t, base, p) {
      var k :| base <= k <= base + p && k < |s.hist.started| && s.hist.started[k] == t;
      assert s'.hist.started[k] == t;
    } else {
      q := TicketMoves(s, step, q0);
      if q0 == 0 && s'.hist.started == s.hist.started + [t] {
        assert s'.hist.started[|s.hist.started|] == t;
      }
    }
  }

  lemma {:induction false} ServedOn(r: Run, i: nat, j: nat, t: nat, base: nat, p: nat, q0: nat, work: int) returns (q: nat)
    requires IsRun(r) && i <= j < |r.states| && Served(r.states[i], t, base, p, q0, work)
    ensures Served(r.states[j], t, base, p, q, work - WorkerSteps(r, i, j))
  {
    q := q0;
    if i < j {
      var k := j - 1;
      var q1 := ServedOn(r, i, k, t, base, p, q0, work);
      Reachable(r, k);
      q := ServedStep(r.states[k], r.steps[k], t, base, p, q1, work - WorkerSteps(r, i, k));
    }
  }

  /** A ticket at position `p` starts after at most `p` other starts, and as long as it waits the worker has taken
      at most `2 * p + Distance` steps, which is at most `2 * p + 5`: nothing else is served in between for ever. */
  lemma ServedInOrder(r: Run, i: nat, j: nat, p: nat) returns (q: nat)
    requires IsRun(r) && i <= j < |r.states| && p < |r.states[i].hist.pending|
    ensures Served(r.states[j], r.states[i].hist.pending[p], |r.states[i].hist.started|, p, q,
                   2 * p + Distance(r.states[i].worker) - WorkerSteps(r, i, j))
  {
    var h := r.states[i].hist;
    q := ServedOn(r, i, j, h.pending[p], |h.started|, p, p, 2 * p + Distance(r.states[i].worker));
  }

  function NextWorkerStep(s: State): Step {
    match s.worker
    case LoopTop => WDecrement
    case TakeLock => WLock
    case Draining => if s.list.queue == [] then WPark else WPop
    case Running(_) => WFinish
    case Parked => WReadTrig
    case Unlocking(_) => WUnlock
    case Scheduling => WSchedule
    case Rearm => WRearm
  }

  /** While an entry waits, either the worker can take its next step or a trigger call that will wake it can take
      its own. Together with ServedInOrder: with fair scheduling every queued function is started. */
  lemma NeverStuck(r: Run, i: nat)
    requires IsRun(r) && i < |r.states| && r.states[i].list.queue != []
    ensures var s := r.states[i];
            || (WorkerStep(NextWorkerStep(s)) && Enabled(s, NextWorkerStep(s)))
            || exists c :: c in s.triggers && (Enabled(s, TriggerInc(c)) || Enabled(s, TriggerWake(c)))
  {
    Reachable(r, i);
    var s := r.states[i];
    if Asleep(s) {
      var c :| c in s.triggers && (s.triggers[c].TrigInc? || s.triggers[c].TrigWake?);
      assert Enabled(s, TriggerInc(c)) || Enabled(s, TriggerWake(c));
    }
  }

  // ---------------------------------------------------------------- destroy is final

  /** The entries the worker may still dereference. */
  ghost function InReach(s: State): set<Id> {
    Elements(s.list.queue) + s.list.running + if s.worker.Running? then {s.worker.d} else {}
  }

  /** The step does not start `d`, and if it is the critical section of a trigger for `d`, that is refused and
      the list is left alone. */
  ghost predicate LeavesAlone(s: State, step: Step, d: Id)
    requires Enabled(s, step)
  {
    && !StartsAt(s, step, d)
    && (step.TriggerLocked? && s.triggers[step.c].d == d ==>
          Apply(s, step).triggers[step.c] == TrigDone(d, NoEntry) && Apply(s, step).list == s.list)
  }

  lemma DestroyedStays(s: State, step: Step, d: Id)
    requires Inv(s) && Enabled(s, step) && d in s.list.destroyed && d !in s.list.running
    ensures d in Apply(s, step).list.destroyed && d !in Apply(s, step).list.running
    ensures LeavesAlone(s, step, d)
  {
  }

  /** `d` is out of the worker's reach, and the step at `j`, if there is one, leaves it alone. */
  ghost predicate GoneAt(r: Run, j: nat, d: Id)
    requires IsRun(r) && j < |r.states|
  {
    && d in r.states[j].list.destroyed && d !in InReach(r.states[j])
    && (j < |r.steps| ==> LeavesAlone(r.states[j], r.steps[j], d))
  }

  lemma DestroyedIsGone(r: Run, j: nat, d: Id)
    requires IsRun(r) && j < |r.states| && Inv(r.states[j])
    requires d in r.states[j].list.destroyed && d !in r.states[j].list.running
    ensures GoneAt(r, j, d)
  {
  }

  lemma {:induction false} StaysGone(r: Run, i: nat, j: nat, d: Id)
    requires IsRun(r) && i <= j < |r.states|
    requires d in r.states[i].list.destroyed && d !in r.states[i].list.running
    ensures d in r.states[j].list.destroyed && d !in r.states[j].list.running
  {
    if i < j {
      var k := j - 1;
      StaysGone(r, i, k, d);
      Reachable(r, k);
      DestroyedStays(r.states[k], r.steps[k], d);
    }
  }

  /** From the moment `i` at which a destroy has marked `d` and the function of `d` is not running, so at the latest
      when it leaves its wait loop, at every later moment `j`: the worker cannot reach `d` any more, its function is
      never started again and every later trigger is refused without touching the list. */
  lemma DestroyIsFinal(r: Run, i: nat, j: nat, c: nat)
    requires IsRun(r) && i <= j < |r.states| && c in r.states[i].destroys && !r.states[i].destroys[c].DestroyLock?
    requires r.states[i].destroys[c].DestroyWait? ==> r.states[i].destroys[c].d !in r.states[i].list.running
    ensures GoneAt(r, j, r.states[i].destroys[c].d)
  {
    Reachable(r, i);
    StaysGone(r, i, j, r.states[i].destroys[c].d);
    Reachable(r, j);
    DestroyedIsGone(r, j, r.states[i].destroys[c].d);
  }
}
