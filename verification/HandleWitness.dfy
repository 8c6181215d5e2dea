/** Runs in which what the other modules say can happen does happen. */
module HandleWitness {
  import opened Handle
  import opened HandleProtocol
  import opened HandleInvariant
  import opened HandleRuns
  import opened HandleFrames
  import opened HandleStuck
  import opened Basics

  ghost predicate Leads(s: State, step: Step, s': State) {
    Enabled(s, step) && Apply(s, step) == s'
  }

  function TxState(tx: Job, side: Side, calls: map<nat, Call>): State {
    INIT.(h := FRESH.(tx := tx), tx := side, calls := calls)
  }

  // ---------------------------------------------------------------- a write that gets stuck

  const TWO_SENT := TxState(Job(ASYNC, 0, 0), Side(true, 2, None, None, Queue(0, 0)), map[0 := Returned(Accepted)])
  const WRITE_ON_TOP := TxState(Job(SYNC, 0, 0), Side(true, 3, None, Some(Waiter(1, Eval, 2)), Queue(0, 0)),
                                map[0 := Returned(Accepted), 1 := InWrite])

  lemma TwoAreSent()
    ensures Leads(INIT, SendCall(0, true, 2, None), TWO_SENT)
  {
  }

  lemma WriteFollows()
    ensures Leads(TWO_SENT, WriteCall(1, 1, Unfinished(2), true, 1, None), WRITE_ON_TOP)
  {
  }

  /** After a send of two frames that is not finished, a write of one frame can hold up a close, and it can become
      unkillable. */
  lemma WriteOnTopOfSend() returns (r: Run)
    ensures IsRun(r) && r.states[|r.steps|] == WRITE_ON_TOP
    ensures CanHang(r, 1) && CanGetUnkillable(r, 1)
  {
    TwoAreSent();
    WriteFollows();
    r := Trace([INIT, TWO_SENT, WRITE_ON_TOP], [SendCall(0, true, 2, None), WriteCall(1, 1, Unfinished(2), true, 1, None)]);
    WriteCanHangIff(r);
    WriteCanGetUnkillableIff(r);
  }

  // ---------------------------------------------------------------- a write that leaves its job behind

  const SEVEN := Job(IDLE, 0, 7)
  const CALLS := map[0 := Returned(Accepted), 1 := Returned(Accepted)]
  const ONE_SENT := TxState(Job(ASYNC, 0, 0), Side(true, 1, None, None, Queue(0, 0)), map[0 := Returned(Accepted)])
  const ONE_DONE := TxState(SEVEN, Side(false, 0, None, None, Queue(0, 0)), map[0 := Returned(Accepted)])
  const TWO_MORE_SENT := TxState(SEVEN.(flags := ASYNC), Side(true, 2, None, None, Queue(0, 0)), CALLS)
  const WRITING := TxState(SEVEN.(flags := SYNC), Side(true, 3, None, Some(Waiter(2, Eval, 2)), Queue(0, 0)),
                           CALLS[2 := InWrite])
  const SIGNALLED := WRITING.(tx := WRITING.tx.(waiter := Some(Waiter(2, Signalled, 2))))
  const GIVING_UP := WRITING.(tx := WRITING.tx.(waiter := Some(Waiter(2, Harvest(false), 2))))
  const LEFT := TxState(SEVEN, Side(true, 3, None, None, Queue(0, 0)), CALLS[2 := Returned(Ended(-7))])
  const NEXT_WRITE := TxState(SEVEN.(flags := SYNC), Side(true, 4, None, Some(Waiter(3, Eval, 0)), Queue(0, 0)),
                              CALLS[2 := Returned(Ended(-7))][3 := InWrite])

  lemma FirstSendEnds()
    ensures Leads(INIT, SendCall(0, true, 1, None), ONE_SENT)
    ensures Leads(ONE_SENT, NucDone(Tx, Report(7, 1)), ONE_DONE)
  {
  }

  lemma SecondSendAndWrite()
    ensures Leads(ONE_DONE, SendCall(1, true, 2, None), TWO_MORE_SENT)
    ensures Leads(TWO_MORE_SENT, WriteCall(2, 1, Unfinished(2), true, 1, None), WRITING)
  {
  }

  lemma SignalledWriteGivesUp()
    ensures Leads(WRITING, Evaluate(Tx, true), SIGNALLED)
    ensures Leads(SIGNALLED, Abort(Tx, None), GIVING_UP)
  {
  }

  lemma GivesUpAndNextBegins()
    ensures Leads(GIVING_UP, Leave(Tx), LEFT)
    ensures Leads(LEFT, WriteCall(3, 1, QueryFails, true, 1, None), NEXT_WRITE)
  {
  }

  lemma RunThatWrites() returns (r: Run)
    ensures IsRun(r) && |r.steps| == 4 && r.states[4] == WRITING
    ensures r.states[3] == TWO_MORE_SENT && r.steps[3] == WriteCall(2, 1, Unfinished(2), true, 1, None)
  {
    FirstSendEnds();
    SecondSendAndWrite();
    r := Trace([INIT, ONE_SENT, ONE_DONE, TWO_MORE_SENT, WRITING],
               [SendCall(0, true, 1, None), NucDone(Tx, Report(7, 1)), SendCall(1, true, 2, None),
                WriteCall(2, 1, Unfinished(2), true, 1, None)]);
    forall i | 0 <= i < 4
      ensures Leads(r.states[i], r.steps[i], r.states[i + 1])
    {
    }
  }

  lemma RunThatLeavesJob() returns (r: Run)
    ensures IsRun(r) && |r.steps| == 7 && r.states[7] == LEFT
    ensures r.states[3] == TWO_MORE_SENT && r.steps[3] == WriteCall(2, 1, Unfinished(2), true, 1, None)
    ensures r.states[6] == GIVING_UP && r.steps[6] == Leave(Tx)
  {
    var w := RunThatWrites();
    SignalledWriteGivesUp();
    GivesUpAndNextBegins();
    r := Trace(w.states + [SIGNALLED, GIVING_UP, LEFT], w.steps + [Evaluate(Tx, true), Abort(Tx, None), Leave(Tx)]);
    forall i | 0 <= i < 7
      ensures Leads(r.states[i], r.steps[i], r.states[i + 1])
    {
      assert i < 4 ==> r.states[i] == w.states[i] && r.steps[i] == w.steps[i] && r.states[i + 1] == w.states[i + 1];
    }
  }

  /** A signalled write returns the result of a send that was over before it began, and leaves its job behind. */
  lemma StaleResult() returns (r: Run)
    ensures IsRun(r) && |r.steps| == 7 && Spans(r, 3, 6, Tx) && r.states[7] == LEFT
    ensures OutcomeAt(r, 6, 2) == Returned(Ended(-7)) && r.states[3].h.tx.result == 7
  {
    r := RunThatLeavesJob();
  }

  /** After that the next write, of one frame, can return more than one. */
  lemma ForeignFrames() returns (r: Run)
    ensures IsRun(r) && CanReturnMore(r, 3, 1)
  {
    var r0 := RunThatLeavesJob();
    GivesUpAndNextBegins();
    r := Continue(r0, r0, WriteCall(3, 1, QueryFails, true, 1, None));
    WriteCanReturnMoreIff(r);
  }

  // ---------------------------------------------------------------- frames that come too late

  function RxState(rx: Job, side: Side, wq: Queue): State {
    State(Handle(rx, Job(IDLE, 0, 0), true, true), side, NEW_SIDE, 1, map[0 := InRead, 1 := InClose],
          Some(Waiter(1, Eval, 0)), wq)
  }

  const READER := Waiter(0, Eval, 0)
  const READING := INIT.(h := FRESH.(rx := Job(SYNC, 0, 0)), rx := NEW_SIDE.(inNucleus := true, waiter := Some(READER)),
                         calls := map[0 := InRead])
  const CLOSING_READ := RxState(Job(SYNC.(closing := true), 0, 0), READING.rx, Queue(1, 0))
  const SENT_AWAY := RxState(Job(SYNC.(closing := true), 0, 0),
                             READING.rx.(waiter := Some(READER.(phase := Harvest(false)))), Queue(1, 0))
  const READ_LEFT := RxState(Job(IDLE, 0, 0), READING.rx.(waiter := None), Queue(2, 0)).(
    calls := map[0 := Returned(Interrupted), 1 := InClose])
  const TOO_LATE := READ_LEFT.(h := READ_LEFT.h.(rx := Job(IDLE, 5, 0)), rx := READ_LEFT.rx.(inNucleus := false))

  lemma ReadIsClosed()
    ensures Leads(INIT, ReadCall(0, true, None), READING)
    ensures Leads(READING, DestroyCall(1, None, None, true), CLOSING_READ)
  {
  }

  lemma ReadLeaves()
    ensures Leads(CLOSING_READ, Evaluate(Rx, false), SENT_AWAY)
    ensures Leads(SENT_AWAY, Leave(Rx), READ_LEFT)
  {
  }

  lemma ReportComesTooLate()
    ensures Leads(READ_LEFT, NucDone(Rx, Report(0, 5)), TOO_LATE) && Late(READ_LEFT, NucDone(Rx, Report(0, 5))) == 5
  {
  }

  /** A read that the close sends away before its callback comes: the frames reach nobody. */
  lemma FramesCanBeLate() returns (r: Run)
    ensures IsRun(r) && |r.steps| == 5 && Totals(r, 5).late >= 5
  {
    r := Trace([INIT, READING, CLOSING_READ, SENT_AWAY, READ_LEFT, TOO_LATE],
               [ReadCall(0, true, None), DestroyCall(1, None, None, true), Evaluate(Rx, false), Leave(Rx),
                NucDone(Rx, Report(0, 5))]);
    ReadIsClosed();
    ReadLeaves();
    ReportComesTooLate();
    forall i | 0 <= i < 5
      ensures Leads(r.states[i], r.steps[i], r.states[i + 1])
    {
    }
  }
}
