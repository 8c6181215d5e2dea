/** The bounded blocking queue of obu/utils/cmn_queue.h, which drops its oldest entries when it is full. */
module CmnQueue {
  import opened Basics

  // ---------------------------------------------------------------- the queue as a window on the pushes

  /** Everything that was ever pushed, and the indices of what was returned by pops, in the order of return. */
  datatype History<T> = History(pushed: seq<T>, popped: seq<nat>)

  /** The index of the oldest push still available: behind the last one popped, and among the last `max`. */
  function WindowStart<T>(h: History<T>, max: nat): nat {
    Max(if h.popped == [] then 0 else h.popped[|h.popped| - 1] + 1, |h.pushed| - max)
  }

  ghost predicate HistoryOk<T>(h: History<T>) {
    Increasing(h.popped) && forall i | 0 <= i < |h.popped| :: h.popped[i] < |h.pushed|
  }

  /** `queue` holds exactly the last at most `max` pushes that no pop has passed. */
  ghost predicate IsWindow<T>(queue: seq<T>, h: History<T>, max: nat) {
    && HistoryOk(h)
    && max >= 1
    && WindowStart(h, max) <= |h.pushed|
    && queue == h.pushed[WindowStart(h, max)..]
  }

  function Trimmed<T>(queue: seq<T>, max: nat): seq<T> {
    if |queue| > max then queue[|queue| - max..] else queue
  }

  lemma PushKeepsWindow<T>(queue: seq<T>, h: History<T>, max: nat, x: T)
    requires IsWindow(queue, h, max)
    ensures IsWindow(Trimmed(queue + [x], max), h.(pushed := h.pushed + [x]), max)
  {
  }

  /** A pop returns the entry at the start of the window, a later push than every one popped before. */
  lemma PopKeepsWindow<T>(queue: seq<T>, h: History<T>, max: nat)
    requires IsWindow(queue, h, max) && queue != []
    ensures var i := WindowStart(h, max);
            && i < |h.pushed| && queue[0] == h.pushed[i]
            && (forall k | 0 <= k < |h.popped| :: h.popped[k] < i)
            && IsWindow(queue[1..], h.(popped := h.popped + [i]), max)
  {
  }

  class CmnQueue<T> {
    const maxSize: nat
    var queue: seq<T>
    ghost var hist: History<T>
    ghost var drops: nat

    ghost predicate Valid()
      reads this
    {
      && IsWindow(queue, hist, maxSize)
      && |hist.pushed| == |hist.popped| + drops + |queue|
    }

    constructor (size: nat)
      ensures Valid() && maxSize == (if size > 0 then size else 1)
      ensures queue == [] && hist == History([], []) && drops == 0
    {
      maxSize := if size > 0 then size else 1;
      queue, hist, drops := [], History([], []), 0;
    }

    method IsEmpty() returns (empty: bool)
      requires Valid()
      ensures empty <==> WindowStart(hist, maxSize) == |hist.pushed|
    {
      empty := queue == [];
    }

    /** Appends, then drops from the front until the bound holds again. */
    method Push(data: T)
      requires Valid()
      modifies this
      ensures Valid() && hist == old(hist).(pushed := old(hist.pushed) + [data])
      ensures queue == Trimmed(old(queue) + [data], maxSize)
      ensures drops == old(drops) + |old(queue)| + 1 - |queue|
    {
      PushKeepsWindow(queue, hist, maxSize, data);
      hist := hist.(pushed := hist.pushed + [data]);
      queue := queue + [data];
      ghost var all := queue;
      while |queue| > maxSize
        invariant |queue| <= |all| && queue == all[|all| - |queue|..]
        invariant if |all| > maxSize then |queue| >= maxSize else |queue| == |all|
        invariant hist == old(hist).(pushed := old(hist.pushed) + [data])
        invariant drops == old(drops) + |all| - |queue|
        decreases |queue|
      {
        queue := queue[1..];
        drops := drops + 1;
      }
    }

    /** What `pop` does once its wait is over. */
    method Pop() returns (data: T)
      requires Valid() && queue != []
      modifies this
      ensures Valid() && hist == old(hist).(popped := old(hist.popped) + [WindowStart(old(hist), maxSize)])
      ensures data == old(hist.pushed)[WindowStart(old(hist), maxSize)] && drops == old(drops)
      ensures queue == old(queue)[1..]
    {
      PopKeepsWindow(queue, hist, maxSize);
      data := queue[0];
      queue := queue[1..];
      hist := hist.(popped := hist.popped + [WindowStart(hist, maxSize)]);
    }

    method TryPop() returns (data: Option<T>)
      requires Valid()
      modifies this
      ensures Valid() && drops == old(drops)
      ensures data.None? <==> old(queue) == []
      ensures data.None? ==> queue == old(queue) && hist == old(hist)
      ensures data.Some? ==>
                && data.value == old(hist.pushed)[WindowStart(old(hist), maxSize)]
                && queue == old(queue)[1..]
                && hist == old(hist).(popped := old(hist.popped) + [WindowStart(old(hist), maxSize)])
    {
      if queue == [] {
        return None;
      }
      var front := Pop();
      data := Some(front);
    }

    method TryRead() returns (data: Option<T>)
      requires Valid()
      ensures data.None? <==> WindowStart(hist, maxSize) == |hist.pushed|
      ensures data.Some? ==> data.value == hist.pushed[WindowStart(hist, maxSize)]
    {
      if queue == [] {
        return None;
      }
      data := Some(queue[0]);
    }
  }

  // ---------------------------------------------------------------- waiting and waking

  /** Pushed values are numbered here; threads in `pop` that wait for the condition variable are split into those
      that were not notified yet and those that were but have not run since. Threads in `read` likewise. */
  datatype State = State(
    max: nat,
    queue: seq<nat>,
    hist: History<nat>,
    waiting: set<nat>,
    notified: set<nat>,
    readWaiting: set<nat>,
    readNotified: set<nat>)

  function Initial(size: nat): State {
    State(if size > 0 then size else 1, [], History([], []), {}, {}, {}, {})
  }

  /** Steps under the mutex. A push names the waiting thread its notification reaches, if there is any. */
  datatype Step =
    | Push(x: nat, woken: Option<nat>)
    | PushThrows
    | Pop(p: nat) | PopResumes(p: nat) | TryPop | TryRead
    | SpuriousWake(p: nat)
    | Read(p: nat) | ReadResumes(p: nat)

  predicate Idle(s: State, p: nat) {
    p !in s.waiting && p !in s.notified && p !in s.readWaiting && p !in s.readNotified
  }

  predicate Enabled(s: State, step: Step) {
    match step
    case Push(x, woken) =>
      if woken.Some? then woken.value in s.waiting + s.readWaiting else s.waiting + s.readWaiting == {}
    case Pop(p) => Idle(s, p)
    case PopResumes(p) => p in s.notified
    case SpuriousWake(p) => p in s.waiting
    case Read(p) => Idle(s, p)
    case ReadResumes(p) => p in s.readNotified
    case _ => true
  }

  function Consume(s: State): State {
    if s.queue == [] then s
    else s.(queue := s.queue[1..], hist := s.hist.(popped := s.hist.popped + [WindowStart(s.hist, s.max)]))
  }

  function Wake(s: State, woken: Option<nat>): State {
    if woken.None? then s
    else if woken.value in s.waiting
    then s.(waiting := s.waiting - {woken.value}, notified := s.notified + {woken.value})
    else s.(readWaiting := s.readWaiting - {woken.value}, readNotified := s.readNotified + {woken.value})
  }

  function Apply(s: State, step: Step): State {
    match step
    case Push(x, woken) =>
      Wake(s.(queue := Trimmed(s.queue + [x], s.max), hist := s.hist.(pushed := s.hist.pushed + [x])), woken)
    case Pop(p) => if s.queue == [] then s.(waiting := s.waiting + {p}) else Consume(s)
    case PopResumes(p) =>
      var s' := s.(notified := s.notified - {p});
      if s.queue == [] then s'.(waiting := s'.waiting + {p}) else Consume(s')
    case TryPop => Consume(s)
    case SpuriousWake(p) => Wake(s, Some(p))
    case Read(p) => if s.queue == [] then s.(readWaiting := s.readWaiting + {p}) else s
    case ReadResumes(p) =>
      var s' := s.(readNotified := s.readNotified - {p});
      if s.queue == [] then s'.(readWaiting := s'.readWaiting + {p}) else s'
    case _ => s
  }

  /** A run given by its steps. */
  predicate Runs(s: State, steps: seq<Step>)
    decreases |steps|
  {
    steps == [] || (Enabled(s, steps[0]) && Runs(Apply(s, steps[0]), steps[1..]))
  }

  function Final(s: State, steps: seq<Step>): State
    decreases |steps|
  {
    if steps == [] then s else Final(Apply(s, steps[0]), steps[1..])
  }

  predicate ReadsNothing(steps: seq<Step>) {
    forall i | 0 <= i < |steps| :: !steps[i].Read?
  }

  /** A popper that waits un-notified leaves no entry that no notified popper is going to take. */
  ghost predicate NoLostWakeup(s: State) {
    s.waiting != {} ==> |s.queue| <= |s.notified|
  }

  ghost predicate Inv(s: State) {
    IsWindow(s.queue, s.hist, s.max) && s.waiting !! s.notified
  }

  lemma StepKeepsInv(s: State, step: Step)
    requires Inv(s) && Enabled(s, step)
    ensures Inv(Apply(s, step))
  {
    if step.Push? {
      PushKeepsWindow(s.queue, s.hist, s.max, step.x);
    }
    if s.queue != [] {
      PopKeepsWindow(s.queue, s.hist, s.max);
    }
  }

  /** pop, when it is called and when it resumes, and try_pop take the oldest entry if there is one; a push adds one;
      nothing else changes the queue but what a push drops. */
  lemma StepTakes(s: State, step: Step)
    requires Inv(s) && Enabled(s, step)
    ensures var s' := Apply(s, step);
            var takes := (step.Pop? || step.PopResumes? || step.TryPop?) && s.queue != [];
            && s'.hist.popped == s.hist.popped + (if takes then [WindowStart(s.hist, s.max)] else [])
            && s'.hist.pushed == s.hist.pushed + (if step.Push? then [step.x] else [])
            && (takes ==> s.queue[0] == s.hist.pushed[WindowStart(s.hist, s.max)] && s'.queue == s.queue[1..])
            && (!takes && !step.Push? ==> s'.queue == s.queue)
            && s'.max == s.max
  {
  }

  /** The queue never holds more entries than its size, which is 1 if 0 is asked for. */
  lemma {:induction false} NeverTooLong(s: State, steps: seq<Step>)
    requires Inv(s) && Runs(s, steps)
    ensures Final(s, steps).max == s.max && |Final(s, steps).queue| <= s.max
    decreases |steps|
  {
    if steps != [] {
      StepKeepsInv(s, steps[0]);
      StepTakes(s, steps[0]);
      NeverTooLong(Apply(s, steps[0]), steps[1..]);
    }
  }

  lemma QueueIsBounded(size: nat, steps: seq<Step>)
    requires Runs(Initial(size), steps)
    ensures |Final(Initial(size), steps).queue| <= Max(size, 1)
  {
    NeverTooLong(Initial(size), steps);
  }

  /** A push whose notification goes to a reader, while a popper waits and the notified ones do not suffice for what
      is in the queue after it. */
  predicate Misdirected(s: State, step: Step) {
    && step.Push? && s.waiting != {} && step.woken.Some? && step.woken.value !in s.waiting
    && |Trimmed(s.queue + [step.x], s.max)| > |s.notified|
  }

  /** A step loses a wake-up if and only if it is such a push. */
  lemma StepLosesIff(s: State, step: Step)
    requires Inv(s) && Enabled(s, step) && NoLostWakeup(s)
    ensures NoLostWakeup(Apply(s, step)) <==> !Misdirected(s, step)
  {
    if step.Push? && step.woken.Some? && step.woken.value in s.waiting {
      assert |s.notified + {step.woken.value}| == |s.notified| + 1;
    }
  }

  /** In every state of the run. */
  ghost predicate NeverLost(s: State, steps: seq<Step>)
    decreases |steps|
  {
    NoLostWakeup(s) && (steps == [] || NeverLost(Apply(s, steps[0]), steps[1..]))
  }

  predicate NoneMisdirected(s: State, steps: seq<Step>)
    decreases |steps|
  {
    steps == [] || (!Misdirected(s, steps[0]) && NoneMisdirected(Apply(s, steps[0]), steps[1..]))
  }

  lemma {:induction false} RunLosesIff(s: State, steps: seq<Step>)
    requires Inv(s) && NoLostWakeup(s) && Runs(s, steps)
    ensures NeverLost(s, steps) <==> NoneMisdirected(s, steps)
    decreases |steps|
  {
    if steps != [] {
      StepKeepsInv(s, steps[0]);
      StepLosesIff(s, steps[0]);
      if !Misdirected(s, steps[0]) {
        RunLosesIff(Apply(s, steps[0]), steps[1..]);
      }
    }
  }

  lemma {:induction false} RunKeepsInv(s: State, steps: seq<Step>)
    requires Inv(s) && Runs(s, steps)
    ensures Inv(Final(s, steps))
    ensures NeverLost(s, steps) ==> NoLostWakeup(Final(s, steps))
    decreases |steps|
  {
    if steps != [] {
      StepKeepsInv(s, steps[0]);
      RunKeepsInv(Apply(s, steps[0]), steps[1..]);
    }
  }

  /** In every run of pushes, pops, try_pops, reads and try_reads, with any spurious wake-ups, the queue is the window;
      and wake-ups are never lost if and only if no push sends its notification to a reader while poppers need it. */
  lemma WakeupsAreKeptIff(size: nat, steps: seq<Step>)
    requires Runs(Initial(size), steps)
    ensures var s := Final(Initial(size), steps); IsWindow(s.queue, s.hist, s.max)
    ensures NeverLost(Initial(size), steps) <==> NoneMisdirected(Initial(size), steps)
  {
    RunKeepsInv(Initial(size), steps);
    RunLosesIff(Initial(size), steps);
  }

  lemma {:induction false} WithoutReadsNoneMisdirected(s: State, steps: seq<Step>)
    requires Runs(s, steps) && ReadsNothing(steps) && s.readWaiting == {} && s.readNotified == {}
    ensures NoneMisdirected(s, steps)
    decreases |steps|
  {
    if steps != [] {
      assert !steps[0].Read?;
      WithoutReadsNoneMisdirected(Apply(s, steps[0]), steps[1..]);
    }
  }

  /** Without `read` none is: in every run no wake-up is lost, and when no notified popper is under way, poppers wait
      only for an empty queue. */
  lemma NoWakeupIsLost(size: nat, steps: seq<Step>)
    requires Runs(Initial(size), steps) && ReadsNothing(steps)
    ensures NeverLost(Initial(size), steps)
    ensures var s := Final(Initial(size), steps);
            NoLostWakeup(s) && (s.waiting != {} && s.notified == {} ==> s.queue == [])
  {
    WithoutReadsNoneMisdirected(Initial(size), steps);
    WakeupsAreKeptIff(size, steps);
    RunKeepsInv(Initial(size), steps);
  }

  /** With `read` the property fails: a reader takes the only notification and leaves the entry, and a popper waits
      on although the queue is not empty. */
  lemma ReadLosesWakeup()
    ensures var steps := [Pop(1), Read(2), Push(7, Some(2)), ReadResumes(2)];
            var s := Final(Initial(1), steps);
            Runs(Initial(1), steps) && s.waiting == {1} && s.notified == {} && s.queue == [7] && !NoLostWakeup(s)
  {
  }
}
