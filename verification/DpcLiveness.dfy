/** What gets done in the end: calls of trigger and destroy return, with the right result, and an idle worker goes to
    sleep. */
module DpcLiveness {
  import opened DpcList
  import opened DpcProtocol
  import opened DpcRuns
  import opened Basics

  // ---------------------------------------------------------------- destroy leaves its wait loop

  ghost predicate WaitsFor(s: State, c: nat, d: Id) {
    c in s.destroys && s.destroys[c] == DestroyWait(d)
  }

  /** Past the wait loop: about to free the entry, or done with it. */
  ghost predicate PastLoop(s: State, c: nat, d: Id) {
    c in s.destroys && (s.destroys[c] == DestroyFree(d) || s.destroys[c] == DestroyDone(d))
  }

  function Polls(r: Run, i: nat, j: nat, c: nat): nat
    requires i <= j <= |r.steps|
  {
    if i == j then 0 else Polls(r, i, j - 1, c) + if r.steps[j - 1] == DestroyPoll(c) then 1 else 0
  }

  /** What a destroy in or behind its wait loop has come to, when the function has returned. */
  ghost predicate Outcome(s: State, c: nat, d: Id, polls: nat) {
    && d in s.list.destroyed && d !in s.list.running
    && if polls == 0 then WaitsFor(s, c, d) else polls == 1 && PastLoop(s, c, d)
  }

  lemma PollStep(s: State, step: Step, c: nat, d: Id, polls: nat)
    requires Inv(s) && Enabled(s, step) && Outcome(s, c, d, polls)
    ensures Outcome(Apply(s, step), c, d, polls + if step == DestroyPoll(c) then 1 else 0)
  {
    DestroyedStays(s, step, d);
  }

  /** Once the function of `d` is not running, a destroy that waits for it polls once more and is past the loop;
      `d` never runs again. */
  lemma {:induction false} OnePollMore(r: Run, i: nat, j: nat, c: nat, d: Id)
    requires IsRun(r) && i <= j < |r.states| && WaitsFor(r.states[i], c, d) && d !in r.states[i].list.running
    ensures Outcome(r.states[j], c, d, Polls(r, i, j, c))
  {
    if i < j {
      OnePollMore(r, i, j - 1, c, d);
      Reachable(r, j - 1);
      PollStep(r.states[j - 1], r.steps[j - 1], c, d, Polls(r, i, j - 1, c));
    } else {
      Reachable(r, i);
    }
  }

  /** Worker steps until the spinlock is free. */
  function UnlockDistance(s: State): nat {
    match s.worker
    case Draining => if s.list.queue == [] then 3 else 1
    case Parked => 2
    case Unlocking(_) => 1
    case _ => 0
  }

  /** What stands between a destroy that waits and the end of its loop: the function itself, which the worker is in
      and about to return from; or the spinlock, which the worker holds for three more of its steps at most; or
      nothing, and then its next poll ends the loop. */
  lemma WaitEnds(r: Run, i: nat, c: nat, d: Id)
    requires IsRun(r) && i < |r.states| && WaitsFor(r.states[i], c, d)
    ensures var s := r.states[i];
            && (d in s.list.running ==>
                  s.worker == Running(d) && Enabled(s, WFinish) && d !in Apply(s, WFinish).list.running)
            && (d !in s.list.running && Locked(s) ==>
                  && 1 <= UnlockDistance(s) <= 3
                  && Enabled(s, NextWorkerStep(s)) && WorkerStep(NextWorkerStep(s))
                  && UnlockDistance(Apply(s, NextWorkerStep(s))) < UnlockDistance(s))
            && (d !in s.list.running && !Locked(s) ==>
                  Enabled(s, DestroyPoll(c)) && PastLoop(Apply(s, DestroyPoll(c)), c, d))
  {
    Reachable(r, i);
  }

  lemma LockStep(s: State, step: Step)
    requires Inv(s) && Enabled(s, step) && Locked(s)
    ensures UnlockDistance(Apply(s, step)) + (if WorkerStep(step) then 1 else 0) <= UnlockDistance(s)
  {
  }

  /** The worker cannot keep the spinlock for more than three of its steps, whatever the others do. */
  lemma {:induction false} LockIsReleased(r: Run, i: nat, j: nat)
    requires IsRun(r) && i <= j < |r.states| && forall k | i <= k < j :: Locked(r.states[k])
    ensures UnlockDistance(r.states[j]) + WorkerSteps(r, i, j) <= UnlockDistance(r.states[i])
    ensures WorkerSteps(r, i, j) <= 3
  {
    if i < j {
      LockIsReleased(r, i, j - 1);
      Reachable(r, j - 1);
      LockStep(r.states[j - 1], r.steps[j - 1]);
    }
  }

  /** Behind the loop, the entry is freed exactly by the step that ends the call. */
  lemma FreedWhenDone(r: Run, i: nat, c: nat, d: Id)
    requires IsRun(r) && i < |r.states| && PastLoop(r.states[i], c, d)
    ensures d in r.states[i].freed <==> r.states[i].destroys[c] == DestroyDone(d)
    ensures (&& r.states[i].destroys[c] == DestroyFree(d)
             && forall t | t in r.states[i].triggers && r.states[i].triggers[t].TrigLock? :: r.states[i].triggers[t].d != d)
            ==> Enabled(r.states[i], Free(c)) && Apply(r.states[i], Free(c)).destroys[c] == DestroyDone(d)
  {
    Reachable(r, i);
  }

  /** A destroy that finds the function not running has nothing to wait for. */
  lemma IdleEntryIsNotWaitedFor(r: Run, i: nat)
    requires IsRun(r) && i < |r.steps| && r.steps[i].DestroyLocked?
    ensures var s, s', c := r.states[i], r.states[i + 1], r.steps[i].c;
            var d := s.destroys[c].d;
            && d in s'.list.destroyed && d !in s'.list.queue
            && if d in s.list.running then WaitsFor(s', c, d) else s'.destroys[c] == DestroyFree(d)
  {
    Reachable(r, i + 1);
    assert r.states[i].destroys[r.steps[i].c].d !in Elements(r.states[i + 1].list.queue);
  }

  // ---------------------------------------------------------------- what a trigger returns

  /** A call whose critical section found the entry destroyed or not: where it is, and what it returns. */
  ghost predicate TriggerGoes(s: State, c: nat, d: Id, refused: bool) {
    && c in s.triggers && s.triggers[c].d == d
    && if refused then s.triggers[c] == TrigDone(d, NoEntry)
       else s.triggers[c].TrigInc? || s.triggers[c].TrigWake? || s.triggers[c] == TrigDone(d, Success)
  }

  /** A trigger returns ENOENT if and only if its entry was marked destroyed when it had the spinlock; whether it
      appended the entry or found it on the list already, it returns success. */
  lemma {:induction false} TriggerReturns(r: Run, i: nat, j: nat, c: nat)
    requires IsRun(r) && i < j < |r.states| && r.steps[i] == TriggerLocked(c) && Enabled(r.states[i], r.steps[i])
    ensures var d := r.states[i].triggers[c].d; TriggerGoes(r.states[j], c, d, d in r.states[i].list.destroyed)
  {
    if i + 1 < j {
      TriggerReturns(r, i, j - 1, c);
      TriggerGoesOn(r.states[j - 1], r.steps[j - 1], c, r.states[i].triggers[c].d,
                    r.states[i].triggers[c].d in r.states[i].list.destroyed);
    }
  }

  lemma TriggerGoesOn(s: State, step: Step, c: nat, d: Id, refused: bool)
    requires Enabled(s, step) && TriggerGoes(s, c, d, refused)
    ensures TriggerGoes(Apply(s, step), c, d, refused)
  {
  }

  /** A call that has appended its entry has two steps of its own left, neither of which waits for anything. */
  lemma TriggerIsNotHeldUp(r: Run, i: nat, c: nat)
    requires IsRun(r) && i < |r.states| && c in r.states[i].triggers
    ensures var s := r.states[i];
            && (s.triggers[c].TrigInc? ==> Enabled(s, TriggerInc(c)) && Apply(s, TriggerInc(c)).triggers[c].TrigWake?)
            && (s.triggers[c].TrigWake? ==>
                  Enabled(s, TriggerWake(c)) && Apply(s, TriggerWake(c)).triggers[c].TrigDone?
                  && !Apply(s, TriggerWake(c)).interruptible)
  {
  }

  // ---------------------------------------------------------------- the counter and the task state

  /** Appends announced, and turns of the worker's loop that have taken one off. */
  function Announced(r: Run, i: nat): nat
    requires IsRun(r) && i < |r.states|
  {
    if i == 0 then 0 else Announced(r, i - 1) + if r.steps[i - 1].TriggerInc? then 1 else 0
  }

  function Consumed(r: Run, i: nat): nat
    requires IsRun(r) && i < |r.states|
  {
    if i == 0 then 0
    else Consumed(r, i - 1) + if r.steps[i - 1] == WDecrement && r.states[i - 1].trig > 0 then 1 else 0
  }

  /** `trig` is the number of announced appends less one for each turn of the loop that found it positive. */
  lemma {:induction false} TrigCounts(r: Run, i: nat)
    requires IsRun(r) && i < |r.states|
    ensures r.states[i].trig == Announced(r, i) - Consumed(r, i)
  {
    if i > 0 {
      TrigCounts(r, i - 1);
      TrigStep(r.states[i - 1], r.steps[i - 1]);
    }
  }

  lemma TrigStep(s: State, step: Step)
    requires Enabled(s, step)
    ensures Apply(s, step).trig == s.trig + (if step.TriggerInc? then 1 else 0)
                                   - (if step == WDecrement && s.trig > 0 then 1 else 0)
  {
  }

  /** From the top of its loop to the end of the list, functions included, the worker is not about to sleep. */
  lemma {:induction false} AwakeWhileWorking(r: Run, i: nat)
    requires IsRun(r) && i < |r.states|
    ensures var w := r.states[i].worker;
            r.states[i].interruptible ==> w.Parked? || w.Unlocking? || w.Scheduling? || w.Rearm?
  {
    if i > 0 {
      AwakeWhileWorking(r, i - 1);
      assert Enabled(r.states[i - 1], r.steps[i - 1]) && r.states[i] == Apply(r.states[i - 1], r.steps[i - 1]);
    }
  }

  // ---------------------------------------------------------------- an idle worker goes to sleep

  /** Steps that give the worker something to do or wake it. */
  predicate Disturbs(step: Step) {
    step.TriggerLocked? || step.TriggerInc? || step.TriggerWake? || step.SpuriousWake?
  }

  /** Worker steps before it sleeps, if nothing disturbs it and the list is empty: a turn of the loop for each count
      of `trig`. */
  function Restless(s: State): nat {
    var top := if s.trig == 0 then 6 else 8 * s.trig;
    match s.worker
    case LoopTop => top
    case TakeLock => if s.trig == 0 then 4 else 8 * s.trig + 5
    case Draining => if s.trig == 0 then 3 else 8 * s.trig + 4
    case Running(_) => if s.trig == 0 then 4 else 8 * s.trig + 5
    case Parked => if s.trig > 0 then top + 3 else if s.interruptible then 2 else top + 4
    case Unlocking(sleep) => if !sleep then top + 2 else if s.interruptible then 1 else top + 3
    case Scheduling => if s.interruptible then 0 else top + 2
    case Rearm => top + 1
  }

  lemma RestlessStep(s: State, step: Step)
    requires InvList(s) && Enabled(s, step) && s.list.queue == [] && !Disturbs(step)
    ensures Apply(s, step).list.queue == []
    ensures Restless(Apply(s, step)) + (if WorkerStep(step) then 1 else 0) <= Restless(s)
  {
  }

  /** The list is empty, the worker has at most `rest` steps left before it sleeps, and it sleeps or can take one. */
  ghost predicate GoesToSleep(s: State, rest: int) {
    && s.list.queue == [] && Restless(s) <= rest
    && ((s.worker.Scheduling? && s.interruptible)
        || (WorkerStep(NextWorkerStep(s)) && Enabled(s, NextWorkerStep(s))))
  }

  lemma IdleWorker(s: State)
    requires s.list.queue == []
    ensures GoesToSleep(s, 8 * s.trig + 10) && GoesToSleep(s, Restless(s))
  {
  }

  /** With an empty list and nothing to disturb it, the worker consumes `trig` and falls asleep: it has at most
      `8 * trig + 10` steps left before that, and one of them is enabled until it sleeps. */
  lemma {:induction false} FallsAsleep(r: Run, i: nat, j: nat)
    requires IsRun(r) && i <= j < |r.states| && r.states[i].list.queue == []
    requires forall k | i <= k < j :: !Disturbs(r.steps[k])
    ensures GoesToSleep(r.states[j], 8 * r.states[i].trig + 10 - WorkerSteps(r, i, j))
  {
    if i < j {
      var k := j - 1;
      FallsAsleep(r, i, k);
      Reachable(r, k);
      RestlessStep(r.states[k], r.steps[k]);
    }
    IdleWorker(r.states[j]);
  }

  // ---------------------------------------------------------------- a run

  ghost predicate Leads(s: State, step: Step, s': State) {
    Enabled(s, step) && Apply(s, step) == s'
  }

  const CREATED := INIT.(created := {1})
  const CALLED := CREATED.(triggers := map[0 := TrigLock(1)])
  const APPENDED := CREATED.(list := ListState([1], {1}, {}, {}), triggers := map[0 := TrigInc(1)],
                             hist := History([1], [0], [], {}, {1}))
  const COUNTED := APPENDED.(trig := 1, triggers := map[0 := TrigWake(1)])
  const WOKEN := COUNTED.(triggers := map[0 := TrigDone(1, Success)])
  const RUNNING := WOKEN.(trig := 0, worker := Running(1), list := ListState([], {}, {1}, {}),
                          hist := History([1], [], [0], {}, {}))
  const DESTROYING := RUNNING.(destroys := map[0 := DestroyWait(1)], list := ListState([], {}, {1}, {1}))
  const RETURNED := DESTROYING.(worker := Draining, list := ListState([], {}, {}, {1}))
  const RESTING := RETURNED.(worker := Scheduling, interruptible := true)
  const FREED := RESTING.(destroys := map[0 := DestroyDone(1)], freed := {1})

  lemma TriggerRuns()
    ensures Leads(INIT, Create(1), CREATED) && Leads(CREATED, CallTrigger(0, 1), CALLED)
    ensures Leads(CALLED, TriggerLocked(0), APPENDED) && Leads(APPENDED, TriggerInc(0), COUNTED)
    ensures Leads(COUNTED, TriggerWake(0), WOKEN)
  {
  }

  lemma WorkerRuns()
    ensures Leads(WOKEN, WDecrement, WOKEN.(trig := 0, worker := TakeLock))
    ensures Leads(WOKEN.(trig := 0, worker := TakeLock), WLock, WOKEN.(trig := 0, worker := Draining))
    ensures Leads(WOKEN.(trig := 0, worker := Draining), WPop, RUNNING)
  {
  }

  lemma DestroyIsCalled()
    ensures Leads(RUNNING, CallDestroy(0, 1), RUNNING.(destroys := map[0 := DestroyLock(1)]))
    ensures Leads(RUNNING.(destroys := map[0 := DestroyLock(1)]), DestroyLocked(0), DESTROYING)
  {
  }

  lemma DestroyWaits()
    ensures Leads(DESTROYING, DestroyPoll(0), DESTROYING) && Leads(DESTROYING, WFinish, RETURNED)
  {
  }

  lemma WorkerRests()
    ensures Leads(RETURNED, WPark, RETURNED.(worker := Parked, interruptible := true))
    ensures Leads(RETURNED.(worker := Parked, interruptible := true), WReadTrig, RESTING.(worker := Unlocking(true)))
    ensures Leads(RESTING.(worker := Unlocking(true)), WUnlock, RESTING)
  {
  }

  lemma DestroyEnds()
    ensures Leads(RESTING, DestroyPoll(0), RESTING.(destroys := map[0 := DestroyFree(1)]))
    ensures Leads(RESTING.(destroys := map[0 := DestroyFree(1)]), Free(0), FREED)
  {
  }

  lemma Follow(r: Run, step: Step, s': State) returns (r': Run)
    requires IsRun(r) && Leads(r.states[|r.steps|], step, s')
    ensures IsRun(r') && |r'.steps| == |r.steps| + 1 && r'.states[|r'.steps|] == s'
  {
    r' := Trace(r.states + [s'], r.steps + [step]);
  }

  lemma UntilRunning() returns (r: Run)
    ensures IsRun(r) && r.states[|r.steps|] == RUNNING
  {
    TriggerRuns();
    WorkerRuns();
    r := Trace([INIT], []);
    r := Follow(r, Create(1), CREATED);
    r := Follow(r, CallTrigger(0, 1), CALLED);
    r := Follow(r, TriggerLocked(0), APPENDED);
    r := Follow(r, TriggerInc(0), COUNTED);
    r := Follow(r, TriggerWake(0), WOKEN);
    r := Follow(r, WDecrement, WOKEN.(trig := 0, worker := TakeLock));
    r := Follow(r, WLock, WOKEN.(trig := 0, worker := Draining));
    r := Follow(r, WPop, RUNNING);
  }

  /** An entry is triggered and destroyed while its function runs: the destroy polls in vain, the function returns, the
      worker goes to sleep, and the next poll ends the wait. */
  lemma DestroyedWhileRunning() returns (r: Run)
    ensures IsRun(r) && r.states[|r.steps|] == FREED
  {
    DestroyIsCalled();
    DestroyWaits();
    WorkerRests();
    DestroyEnds();
    r := UntilRunning();
    r := Follow(r, CallDestroy(0, 1), RUNNING.(destroys := map[0 := DestroyLock(1)]));
    r := Follow(r, DestroyLocked(0), DESTROYING);
    r := Follow(r, DestroyPoll(0), DESTROYING);
    r := Follow(r, WFinish, RETURNED);
    r := Follow(r, WPark, RETURNED.(worker := Parked, interruptible := true));
    r := Follow(r, WReadTrig, RESTING.(worker := Unlocking(true)));
    r := Follow(r, WUnlock, RESTING);
    r := Follow(r, DestroyPoll(0), RESTING.(destroys := map[0 := DestroyFree(1)]));
    r := Follow(r, Free(0), FREED);
  }
}
