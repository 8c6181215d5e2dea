/** What a request gets that does not wait: takes, refusals and rejections; and the stored result of RX. */
module HandleRequests {
  import opened Handle
  import opened HandleProtocol
  import opened HandleInvariant
  import opened HandleRuns
  import opened HandleFrames
  import opened Basics

  // ---------------------------------------------------------------- the stored result of RX

  /** A read is let in: the handle is open and no other is inside. It clears the result. */
  predicate ReadIsLetIn(s: State, step: Step) {
    step.ReadCall? && !s.h.closed && s.rx.waiter.None?
  }

  /** The result of the latest rx_done, whomever it was for, but 0 once a later read was let in, or before the first. */
  function LatestRxResult(r: Run, i: nat): int
    requires IsRun(r) && i < |r.states|
  {
    if i == 0 then 0
    else
      var s, step := r.states[i - 1], r.steps[i - 1];
      var c := CallbackIn(s, step, Rx);
      if c.Some? then c.value.result else if ReadIsLetIn(s, step) then 0 else LatestRxResult(r, i - 1)
  }

  ghost predicate StoresRxResult(s: State, step: Step)
    requires Enabled(s, step)
  {
    var c := CallbackIn(s, step, Rx);
    Apply(s, step).h.rx.result
      == if c.Some? then c.value.result else if ReadIsLetIn(s, step) then 0 else s.h.rx.result
  }

  lemma RequestStoresRxResult(s: State, step: Step)
    requires Inv(s) && Enabled(s, step) && Request(step)
    ensures StoresRxResult(s, step)
  {
  }

  lemma WaiterStoresRxResult(s: State, step: Step)
    requires Enabled(s, step) && WaiterStep(step)
    ensures StoresRxResult(s, step)
  {
  }

  lemma RestStoresRxResult(s: State, step: Step)
    requires Enabled(s, step) && !Request(step) && !WaiterStep(step)
    ensures StoresRxResult(s, step)
  {
  }

  lemma {:induction false} StoredRxResult(r: Run, i: nat)
    requires IsRun(r) && i < |r.states|
    ensures r.states[i].h.rx.result == LatestRxResult(r, i)
  {
    if i > 0 {
      StoredRxResult(r, i - 1);
      Reachable(r, i - 1);
      if Request(r.steps[i - 1]) {
        RequestStoresRxResult(r.states[i - 1], r.steps[i - 1]);
      } else if WaiterStep(r.steps[i - 1]) {
        WaiterStoresRxResult(r.states[i - 1], r.steps[i - 1]);
      } else {
        RestStoresRxResult(r.states[i - 1], r.steps[i - 1]);
      }
    }
  }

  // ---------------------------------------------------------------- what a request returns at once

  /** The call returns in this step, with that outcome. */
  ghost predicate ReturnsNow(s: State, step: Step, t: nat, o: Outcome)
    requires Enabled(s, step)
  {
    t in Apply(s, step).calls && Apply(s, step).calls[t] == Returned(o)
  }

  /** Every answer to a take. Outside object mode it is made from the callback that came within the take: its frames,
      or if there were none its result. */
  lemma TakeReturns(r: Run, i: nat)
    requires IsRun(r) && i < |r.steps| && r.steps[i].TakeCall?
    ensures var s, step, c := r.states[i], r.steps[i], CallbackIn(r.states[i], r.steps[i], Rx);
            && (s.h.closed ==> ReturnsNow(s, step, step.t, InvalidHandle))
            && (!s.h.closed && s.rx.waiter.Some? ==> ReturnsNow(s, step, step.t, Pending))
            && (!s.h.closed && s.rx.waiter.None? && !step.accepted ==> ReturnsNow(s, step, step.t, Rejected))
            && (!s.h.closed && s.rx.waiter.None? && step.accepted ==>
                  c.Some? && ReturnsNow(s, step, step.t, if c.value.count > 0 then Frames(c.value.count)
                                                         else Ended(c.value.result)))
  {
    Reachable(r, i);
  }

  /** In object mode no callback comes: without a frame a take returns the result of an earlier job. */
  lemma TakeObjectReturns(r: Run, i: nat)
    requires IsRun(r) && i < |r.steps| && r.steps[i].TakeObjectCall?
    ensures var s, step := r.states[i], r.steps[i];
            && CallbackIn(s, step, Rx).None?
            && (s.h.closed ==> ReturnsNow(s, step, step.t, InvalidHandle))
            && (!s.h.closed && s.rx.waiter.Some? ==> ReturnsNow(s, step, step.t, Pending))
            && (!s.h.closed && s.rx.waiter.None? && !step.accepted ==> ReturnsNow(s, step, step.t, Rejected))
            && (!s.h.closed && s.rx.waiter.None? && step.accepted ==>
                  ReturnsNow(s, step, step.t, if step.count > 0 then Frames(step.count)
                                              else Ended(LatestRxResult(r, i))))
  {
    Reachable(r, i);
    StoredRxResult(r, i);
  }

  /** When a read is turned away, and how; otherwise it is inside. */
  lemma ReadReturnsAtOnce(r: Run, i: nat)
    requires IsRun(r) && i < |r.steps| && r.steps[i].ReadCall?
    ensures var s, step := r.states[i], r.steps[i];
            && (s.h.closed ==> ReturnsNow(s, step, step.t, InvalidHandle))
            && (!s.h.closed && s.rx.waiter.Some? ==> ReturnsNow(s, step, step.t, Pending))
            && (!s.h.closed && s.rx.waiter.None? && !step.accepted ==> ReturnsNow(s, step, step.t, Rejected))
            && (!s.h.closed && s.rx.waiter.None? && step.accepted ==> Apply(s, step).calls[step.t] == InRead)
  {
    Reachable(r, i);
  }

  /** A send is unfinished: its job is in the nucleus and no write is inside. */
  predicate SendUnfinished(s: State) {
    s.h.tx.flags.async
  }

  /** When a write is turned away, and how; otherwise it is inside. Only if a send is unfinished does the answer of the
      nucleus about it count. */
  lemma WriteReturnsAtOnce(r: Run, i: nat)
    requires IsRun(r) && i < |r.steps| && r.steps[i].WriteCall?
    ensures var s, step := r.states[i], r.steps[i];
            if s.h.closed then ReturnsNow(s, step, step.t, InvalidHandle)
            else if step.count == 0 then ReturnsNow(s, step, step.t, InvalidParameter)
            else if s.tx.waiter.Some? then ReturnsNow(s, step, step.t, Pending)
            else if SendUnfinished(s) && step.query == QueryFails then ReturnsNow(s, step, step.t, Restart)
            else if SendUnfinished(s) && step.query == Deferred then ReturnsNow(s, step, step.t, Pending)
            else if !step.accepted then ReturnsNow(s, step, step.t, Rejected)
            else Apply(s, step).calls[step.t] == InWrite
  {
    Reachable(r, i);
  }

  /** A send never waits. The one it leaves unfinished is the one whose callback has not come yet. */
  lemma SendReturns(r: Run, i: nat)
    requires IsRun(r) && i < |r.steps| && r.steps[i].SendCall?
    ensures var s, step := r.states[i], r.steps[i];
            && ReturnsNow(s, step, step.t, if s.h.closed then InvalidHandle
                                           else if s.tx.waiter.Some? then Pending
                                           else if !step.accepted then Rejected
                                           else Accepted)
            && (!s.h.closed && s.tx.waiter.None? && step.accepted ==>
                  && (SendUnfinished(Apply(s, step)) <==> step.now.None?)
                  && (step.now.None? ==> Apply(s, step).tx.load == Load(s.tx) + step.taken))
  {
    Reachable(r, i);
  }

  /** A destroy of a closed handle is an error, a release of one has nothing to do; else both wait for the close they
      begin. */
  lemma CloseReturnsAtOnce(r: Run, i: nat)
    requires IsRun(r) && i < |r.steps| && (r.steps[i].DestroyCall? || r.steps[i].ReleaseCall?)
    ensures var s, step := r.states[i], r.steps[i];
            var s' := Apply(s, step);
            if s.h.closed then
              && ReturnsNow(s, step, step.t, if step.DestroyCall? then InvalidHandle else Closed)
              && s'.h == s.h && s'.nucCloses == s.nucCloses
            else
              s'.h.closed && s'.calls[step.t] == InClose && s'.nucCloses == s.nucCloses + 1
  {
  }
}
