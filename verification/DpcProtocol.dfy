/** The DPC engine of esd/src/osif.c as a step relation: one worker thread, any number of trigger calls and
    destroy calls, in every interleaving the spinlock allows.

    Each critical section touches spinlock-protected data only, so it is one step; everything outside the
    spinlock (the counter `trig`, the worker's task state, the wake-up) is a step of its own. */
module DpcProtocol {
  import opened DpcList
  import opened Basics

  type Id = nat

  datatype TriggerPc =
    | TrigLock(d: Id)                          // about to take the spinlock
    | TrigInc(d: Id)                           // has appended the entry, about to increment trig
    | TrigWake(d: Id)                          // about to call wake_up_process
    | TrigDone(d: Id, result: TriggerResult)

  datatype DestroyPc =
    | DestroyLock(d: Id)
    | DestroyWait(d: Id)                       // in the loop that waits for a running function
    | DestroyFree(d: Id)                       // left the loop, about to free the entry
    | DestroyDone(d: Id)

  datatype WorkerPc =
    | LoopTop                                  // about to decrement trig
    | TakeLock
    | Draining                                 // holds the spinlock, at the test of the drain loop
    | Running(d: Id)                           // in the function of d, spinlock released
    | Parked                                   // holds the spinlock, task state set, about to read trig
    | Unlocking(sleep: bool)                   // holds the spinlock, has read trig
    | Scheduling                               // at schedule()
    | Rearm                                    // about to set its task state to running

  /** Bookkeeping: the n-th append ever made has ticket n. */
  datatype History = History(
    enqueued: seq<Id>,                         // ticket -> entry
    pending: seq<nat>,                         // tickets on the list, in list order
    started: seq<nat>,                         // tickets whose function was started, in order
    dropped: set<nat>,                         // tickets a destroy unlinked
    owed: set<Id>)                             // entries triggered since their function last started

  datatype State = State(
    list: ListState<Id>,
    created: set<Id>,
    freed: set<Id>,
    trig: nat,
    interruptible: bool,
    worker: WorkerPc,
    triggers: map<nat, TriggerPc>,
    destroys: map<nat, DestroyPc>,
    hist: History)

  datatype Step =
    | Create(d: Id)
    | CallTrigger(c: nat, d: Id) | TriggerLocked(c: nat) | TriggerInc(c: nat) | TriggerWake(c: nat)
    | CallDestroy(c: nat, d: Id) | DestroyLocked(c: nat) | DestroyPoll(c: nat) | Free(c: nat)
    | WDecrement | WLock | WPop | WPark | WReadTrig | WUnlock | WSchedule | WRearm | WFinish
    | SpuriousWake

  const INIT := State(ListState([], {}, {}, {}), {}, {}, 0, false, LoopTop, map[], map[],
                      History([], [], [], {}, {}))

  predicate Locked(s: State) {
    s.worker.Draining? || s.worker.Parked? || s.worker.Unlocking?
  }

  /** Which steps may be taken. Besides the control flow of the source this states what its callers must
      respect: an entry is not passed to a new call once it is freed, one destroy call is made for it, and
      no trigger call for it overlaps the free. */
  ghost predicate Enabled(s: State, step: Step) {
    match step
    case Create(d) => d !in s.created
    case CallTrigger(c, d) => c !in s.triggers && d in s.created && d !in s.freed
    case TriggerLocked(c) => c in s.triggers && s.triggers[c].TrigLock? && !Locked(s)
    case TriggerInc(c) => c in s.triggers && s.triggers[c].TrigInc?
    case TriggerWake(c) => c in s.triggers && s.triggers[c].TrigWake?
    case CallDestroy(c, d) => c !in s.destroys && d in s.created && d !in s.freed
                              && forall c' | c' in s.destroys :: s.destroys[c'].d != d
    case DestroyLocked(c) => c in s.destroys && s.destroys[c].DestroyLock? && !Locked(s)
    case DestroyPoll(c) => c in s.destroys && s.destroys[c].DestroyWait? && !Locked(s)
    case Free(c) => c in s.destroys && s.destroys[c].DestroyFree?
                    && forall t | t in s.triggers && s.triggers[t].TrigLock? :: s.triggers[t].d != s.destroys[c].d
    case WDecrement => s.worker.LoopTop?
    case WLock => s.worker.TakeLock?
    case WPop => s.worker.Draining? && s.list.queue != []
    case WPark => s.worker.Draining? && s.list.queue == []
    case WReadTrig => s.worker.Parked?
    case WUnlock => s.worker.Unlocking?
    case WSchedule => s.worker.Scheduling? && !s.interruptible
    case WRearm => s.worker.Rearm?
    case WFinish => s.worker.Running?
    case SpuriousWake => true
  }

  function Append(h: History, d: Id): History {
    h.(enqueued := h.enqueued + [d], pending := h.pending + [|h.enqueued|], owed := h.owed + {d})
  }

  function Owe(h: History, d: Id): History {
    h.(owed := h.owed + {d})
  }

  function Pop(h: History, d: Id): History {
    if h.pending == [] then h
    else h.(pending := h.pending[1..], started := h.started + [h.pending[0]], owed := h.owed - {d})
  }

  /** The ticket at list position `i` is dropped. */
  function Drop(h: History, i: nat): History {
    if i < |h.pending|
    then h.(pending := h.pending[..i] + h.pending[i + 1..], dropped := h.dropped + {h.pending[i]})
    else h
  }

  function Position(queue: seq<Id>, d: Id): (i: nat)
    ensures i <= |queue| && d !in queue[..i]
    ensures i < |queue| ==> queue[i] == d
    ensures i == |queue| ==> d !in queue
  {
    if queue == [] || queue[0] == d then 0
    else
      var i := Position(queue[1..], d) + 1;
      assert queue[..i] == [queue[0]] + queue[1..][..i - 1];
      assert queue == [queue[0]] + queue[1..];
      i
  }

  ghost function Apply(s: State, step: Step): State
    requires Enabled(s, step)
  {
    match step
    case Create(d) => s.(created := s.created + {d})
    case CallTrigger(c, d) => s.(triggers := s.triggers[c := TrigLock(d)])
    case TriggerLocked(c) =>
      var d := s.triggers[c].d;
      var (list, result, notify) := TriggerSpec(s.list, d);
      s.(list := list,
         triggers := s.triggers[c := if notify then TrigInc(d) else TrigDone(d, result)],
         hist := if notify then Append(s.hist, d) else if result.Success? then Owe(s.hist, d) else s.hist)
    case TriggerInc(c) => s.(trig := s.trig + 1, triggers := s.triggers[c := TrigWake(s.triggers[c].d)])
    case TriggerWake(c) => s.(interruptible := false, triggers := s.triggers[c := TrigDone(s.triggers[c].d, Success)])
    case CallDestroy(c, d) => s.(destroys := s.destroys[c := DestroyLock(d)])
    case DestroyLocked(c) =>
      var d := s.destroys[c].d;
      s.(list := UnlinkSpec(s.list, d),
         destroys := s.destroys[c := if d in s.list.running then DestroyWait(d) else DestroyFree(d)],
         hist := Drop(s.hist, Position(s.list.queue, d)))
    case DestroyPoll(c) =>
      var d := s.destroys[c].d;
      if d in s.list.running then s else s.(destroys := s.destroys[c := DestroyFree(d)])
    case Free(c) =>
      var d := s.destroys[c].d;
      s.(freed := s.freed + {d}, destroys := s.destroys[c := DestroyDone(d)])
    case WDecrement => s.(trig := if s.trig == 0 then 0 else s.trig - 1, worker := TakeLock)
    case WLock => s.(worker := Draining)
    case WPop =>
      var d := s.list.queue[0];
      s.(list := StartSpec(s.list), worker := Running(d), hist := Pop(s.hist, d))
    case WPark => s.(interruptible := true, worker := Parked)
    case WReadTrig => s.(worker := Unlocking(s.trig == 0))
    case WUnlock => s.(worker := if s.worker.sleep then Scheduling else Rearm)
    case WSchedule => s.(worker := Rearm)
    case WRearm => s.(interruptible := false, worker := LoopTop)
    case WFinish => s.(list := FinishSpec(s.list, s.worker.d), worker := Draining)
    case SpuriousWake => s.(interruptible := false)
  }

  // ---------------------------------------------------------------- what every step keeps

  ghost predicate InvList(s: State) {
    && ListInv(s.list)
    && Elements(s.list.queue) <= s.created - s.freed
    && s.list.running == (if s.worker.Running? then {s.worker.d} else {})
    && s.list.running <= s.created - s.freed
    && (s.worker.Parked? || s.worker.Unlocking? ==> s.list.queue == [])
    && s.freed <= s.list.destroyed <= s.created
  }

  ghost predicate Notifying(s: State) {
    exists c :: c in s.triggers && (s.triggers[c].TrigInc? || s.triggers[c].TrigWake?)
  }

  ghost predicate Waking(s: State) {
    exists c :: c in s.triggers && s.triggers[c].TrigWake?
  }

  /** The worker has decided to sleep and nobody has woken it since. */
  predicate Asleep(s: State) {
    s.interruptible && (s.worker == Unlocking(true) || s.worker.Scheduling?)
  }

  ghost predicate InvWake(s: State) {
    Asleep(s) ==>
      && (s.list.queue != [] ==> Notifying(s))
      && (s.trig > 0 ==> Waking(s))
  }

  ghost predicate InvTriggers(s: State) {
    forall c {:trigger s.triggers[c]} | c in s.triggers ::
      && s.triggers[c].d in s.created
      && (s.triggers[c].TrigLock? ==> s.triggers[c].d !in s.freed)
  }

  ghost predicate InvDestroys(s: State) {
    && (forall c {:trigger s.destroys[c]} | c in s.destroys ::
          && s.destroys[c].d in s.created
          && (s.destroys[c].d in s.freed <==> s.destroys[c].DestroyDone?)
          && (!s.destroys[c].DestroyLock? ==> s.destroys[c].d in s.list.destroyed)
          && (s.destroys[c].DestroyFree? || s.destroys[c].DestroyDone? ==> s.destroys[c].d !in s.list.running))
    && (forall c, c' {:trigger s.destroys[c], s.destroys[c']} | c in s.destroys && c' in s.destroys && c != c' ::
          s.destroys[c].d != s.destroys[c'].d)
  }

  ghost predicate InvCalls(s: State) {
    InvTriggers(s) && InvDestroys(s)
  }

  function Tickets(h: History): seq<nat> {
    h.started + h.pending
  }

  /** Started and waiting tickets are in one increasing order, no ticket is lost or counted twice. */
  ghost predicate TicketsOk(h: History) {
    && Increasing(Tickets(h))
    && (forall i | 0 <= i < |Tickets(h)| :: Tickets(h)[i] < |h.enqueued| && Tickets(h)[i] !in h.dropped)
    && (forall t | t in h.dropped :: t < |h.enqueued|)
    && |h.enqueued| == |h.started| + |h.pending| + |h.dropped|
  }

  ghost predicate PendingIs(h: History, queue: seq<Id>) {
    && |h.pending| == |queue|
    && (forall i | 0 <= i < |queue| :: h.pending[i] < |h.enqueued| && h.enqueued[h.pending[i]] == queue[i])
  }

  ghost predicate InvHist(s: State) {
    && TicketsOk(s.hist)
    && PendingIs(s.hist, s.list.queue)
    && Elements(s.list.queue) == s.hist.owed - s.list.destroyed
  }

  ghost predicate Inv(s: State) {
    InvList(s) && InvWake(s) && InvCalls(s) && InvHist(s)
  }

  lemma TriggerKeepsList(s: State, c: nat)
    requires InvList(s) && InvTriggers(s) && Enabled(s, TriggerLocked(c))
    ensures InvList(Apply(s, TriggerLocked(c)))
  {
    var d := s.triggers[c].d;
    SectionsKeepListInv(s.list, d);
    assert Elements(s.list.queue + [d]) == Elements(s.list.queue) + {d};
  }

  lemma DestroyKeepsList(s: State, c: nat)
    requires InvList(s) && InvDestroys(s) && Enabled(s, DestroyLocked(c))
    ensures InvList(Apply(s, DestroyLocked(c)))
  {
    SectionsKeepListInv(s.list, s.destroys[c].d);
    WithoutKeeps(s.list.queue, s.destroys[c].d);
  }

  /** The entry that is freed is neither on the list nor running. */
  lemma FreeKeepsList(s: State, c: nat)
    requires InvList(s) && InvDestroys(s) && Enabled(s, Free(c))
    ensures InvList(Apply(s, Free(c)))
  {
    assert s.destroys[c].d !in Elements(s.list.queue);
  }

  lemma StartKeepsList(s: State)
    requires InvList(s) && Enabled(s, WPop)
    ensures InvList(Apply(s, WPop))
  {
    SectionsKeepListInv(s.list, 0);
    TailOfNoDup(s.list.queue);
    assert s.list.queue[0] in Elements(s.list.queue);
  }

  lemma StepKeepsList(s: State, step: Step)
    requires InvList(s) && InvCalls(s) && Enabled(s, step)
    ensures InvList(Apply(s, step))
  {
    match step
    case TriggerLocked(c) => TriggerKeepsList(s, c);
    case DestroyLocked(c) => DestroyKeepsList(s, c);
    case Free(c) => FreeKeepsList(s, c);
    case WPop => StartKeepsList(s);
    case _ =>
  }

  lemma StepKeepsWake(s: State, step: Step)
    requires Inv(s) && Enabled(s, step)
    ensures InvWake(Apply(s, step))
  {
    var s' := Apply(s, step);
    if Asleep(s') {
      assert step.WReadTrig? || Asleep(s);
      match step
      case CallTrigger(c, d) => OthersStay(s, s', c);
      case TriggerLocked(c) => OthersStay(s, s', c); assert c in s'.triggers;
      case TriggerInc(c) => assert s'.triggers[c].TrigWake?;
      case _ =>
    }
  }

  lemma OthersStay(s: State, s': State, c: nat)
    requires c in s'.triggers && (c in s.triggers ==> !s.triggers[c].TrigInc? && !s.triggers[c].TrigWake?)
    requires s'.triggers == s.triggers[c := s'.triggers[c]]
    ensures Notifying(s) ==> Notifying(s')
    ensures Waking(s) ==> Waking(s')
  {
    if Notifying(s) {
      var x :| x in s.triggers && (s.triggers[x].TrigInc? || s.triggers[x].TrigWake?);
      assert s'.triggers[x] == s.triggers[x];
    }
    if Waking(s) {
      var x :| x in s.triggers && s.triggers[x].TrigWake?;
      assert s'.triggers[x] == s.triggers[x];
    }
  }

  lemma StepKeepsTriggers(s: State, step: Step)
    requires InvTriggers(s) && Enabled(s, step)
    ensures InvTriggers(Apply(s, step))
  {
  }

  predicate DestroyStep(step: Step) {
    step.CallDestroy? || step.DestroyLocked? || step.DestroyPoll? || step.Free?
  }

  lemma OthersKeepDestroys(s: State, step: Step)
    requires InvDestroys(s) && Enabled(s, step) && !DestroyStep(step)
    requires step.WPop? ==> s.list.queue[0] !in s.list.destroyed
    ensures InvDestroys(Apply(s, step))
  {
  }

  lemma DestroyKeepsDestroys(s: State, step: Step)
    requires InvDestroys(s) && Enabled(s, step) && DestroyStep(step)
    ensures InvDestroys(Apply(s, step))
  {
  }

  lemma StepKeepsDestroys(s: State, step: Step)
    requires InvList(s) && InvDestroys(s) && Enabled(s, step)
    ensures InvDestroys(Apply(s, step))
  {
    if DestroyStep(step) {
      DestroyKeepsDestroys(s, step);
    } else {
      if step.WPop? {
        assert s.list.queue[0] in Elements(s.list.queue);
      }
      OthersKeepDestroys(s, step);
    }
  }

  lemma AppendKeepsTickets(h: History, d: Id)
    requires TicketsOk(h)
    ensures TicketsOk(Append(h, d))
  {
    assert Tickets(Append(h, d)) == Tickets(h) + [|h.enqueued|];
  }

  lemma PopKeepsTickets(h: History, d: Id)
    requires TicketsOk(h)
    ensures TicketsOk(Pop(h, d))
  {
    if h.pending != [] {
      assert Tickets(Pop(h, d)) == Tickets(h);
    }
  }

  lemma DropKeepsTickets(h: History, i: nat)
    requires TicketsOk(h)
    ensures TicketsOk(Drop(h, i))
  {
    if i < |h.pending| {
      var k, all, w := |h.started| + i, Tickets(h), Tickets(Drop(h, i));
      assert all[k] == h.pending[i];
      assert forall j | 0 <= j < |w| :: w[j] == all[if j < k then j else j + 1];
    }
  }

  lemma SpliceAt<T>(s: seq<T>, i: nat)
    requires i < |s|
    ensures var w := s[..i] + s[i + 1..];
            |w| == |s| - 1 && forall j {:trigger w[j]} | 0 <= j < |w| :: w[j] == s[if j < i then j else j + 1]
  {
  }

  lemma UnlinkKeepsPending(h: History, queue: seq<Id>, d: Id)
    requires PendingIs(h, queue)
    ensures PendingIs(Drop(h, Position(queue, d)), Without(queue, d))
  {
    var i := Position(queue, d);
    if i < |queue| {
      WithoutAt(queue, d, i);
      SpliceAt(queue, i);
      SpliceAt(h.pending, i);
    } else {
      WithoutAbsent(queue, d);
    }
  }

  lemma TriggerKeepsHist(s: State, d: Id)
    requires ListInv(s.list) && InvHist(s)
    ensures var (list, result, notify) := TriggerSpec(s.list, d);
            InvHist(s.(list := list, hist := if notify then Append(s.hist, d)
                                             else if result.Success? then Owe(s.hist, d) else s.hist))
  {
    AppendKeepsTickets(s.hist, d);
    assert Elements(s.list.queue + [d]) == Elements(s.list.queue) + {d};
    if d in s.list.linked && d !in s.list.destroyed {
      assert d in Elements(s.list.queue);
      assert s.hist.owed + {d} == s.hist.owed;
    }
  }

  lemma UnlinkKeepsHist(s: State, d: Id)
    requires ListInv(s.list) && InvHist(s)
    ensures InvHist(s.(list := UnlinkSpec(s.list, d), hist := Drop(s.hist, Position(s.list.queue, d))))
  {
    DropKeepsTickets(s.hist, Position(s.list.queue, d));
    UnlinkKeepsPending(s.hist, s.list.queue, d);
    WithoutKeeps(s.list.queue, d);
  }

  lemma StartKeepsHist(s: State)
    requires ListInv(s.list) && InvHist(s) && s.list.queue != []
    ensures InvHist(s.(list := StartSpec(s.list), hist := Pop(s.hist, s.list.queue[0])))
  {
    PopKeepsTickets(s.hist, s.list.queue[0]);
    TailOfNoDup(s.list.queue);
  }

  lemma StepKeepsHist(s: State, step: Step)
    requires Inv(s) && Enabled(s, step)
    ensures InvHist(Apply(s, step))
  {
    match step
    case TriggerLocked(c) => TriggerKeepsHist(s, s.triggers[c].d);
    case DestroyLocked(c) => UnlinkKeepsHist(s, s.destroys[c].d);
    case WPop => StartKeepsHist(s);
    case _ =>
  }

  lemma StepKeepsInv(s: State, step: Step)
    requires Inv(s) && Enabled(s, step)
    ensures Inv(Apply(s, step))
  {
    StepKeepsList(s, step);
    StepKeepsWake(s, step);
    StepKeepsTriggers(s, step);
    StepKeepsDestroys(s, step);
    StepKeepsHist(s, step);
  }
}
