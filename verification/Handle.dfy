/** The part of an open handle (CAN_OCB) that the RX, TX and close paths of the PREEMPT_RT driver share: the flag words
    rx.state, tx.state and close_state with their counters (esd/src/esdcan.h), and what the callbacks and the critical
    sections of esd/src/esdcan_common.c do to them.

    Part one is the handle as a value. Part two is the record with its flag words, updated in place; each method is
    proved to do exactly what part one says. */
module Handle {
  import opened Basics

  datatype Direction = Rx | Tx

  /** One flag word. `sync` is PENDING_READ or PENDING_WRITE, `async` is PENDING_TAKE or PENDING_SEND. */
  datatype Flags = Flags(sync: bool, async: bool, abort: bool, signal: bool, closing: bool)

  const IDLE := Flags(false, false, false, false, false)
  const SYNC := Flags(true, false, false, false, false)
  const ASYNC := Flags(false, true, false, false, false)

  /** One direction of a handle: flag word, frames reported and not yet handed out, last result. */
  datatype Job = Job(flags: Flags, count: nat, result: int)

  datatype Handle = Handle(rx: Job, tx: Job, closed: bool, closeDone: bool)

  /** wake_up or wake_up_interruptible on the wait queue of the job, or the branch that reports a spurious call. */
  datatype Wake = Nobody | Everybody | Interruptible | Spurious

  /** How a request ends. */
  datatype Outcome =
    | InvalidHandle
    | Pending                  // -OSIF_PENDING_READ or -OSIF_PENDING_WRITE
    | InvalidParameter
    | Rejected                 // the nucleus did not accept the job
    | Interrupted              // -EINTR: the handle is being closed
    | Restart                  // -ERESTARTSYS
    | Ended(result: int)       // no frame, the result the nucleus stored
    | Frames(n: nat)
    | Accepted                 // a send
    | Closed

  const FRESH := Handle(Job(IDLE, 0, 0), Job(IDLE, 0, 0), false, false)

  // ---------------------------------------------------------------- callbacks

  function RxDoneSpec(job: Job, result: int, count: nat): (Job, Wake) {
    var f := job.flags;
    if f.async then (Job(IDLE, count, result), Nobody)
    else if f.signal then (Job(f.(signal := false), count, result), Everybody)
    else if f.sync then (Job(if count == 0 then f.(abort := true) else f, count, result), Interruptible)
    else (Job(f, count, result), Spurious)
  }

  function TxDoneSpec(job: Job, result: int, count: nat): (Job, Wake) {
    var f := job.flags;
    if f.async then (Job(IDLE, 0, result), Nobody)
    else if f.signal then (Job(f.(signal := false), count, result), Everybody)
    else if f.sync then (Job(if count == 0 then f.(abort := true) else f, count, result), Interruptible)
    else (job.(result := result), Spurious)
  }

  function DoneSpec(dir: Direction, job: Job, result: int, count: nat): (Job, Wake) {
    if dir.Rx? then RxDoneSpec(job, result, count) else TxDoneSpec(job, result, count)
  }

  // ---------------------------------------------------------------- critical sections of reads and writes

  /** The test every read and take starts with; None lets it in. */
  function RxRefusal(h: Handle): Option<Outcome> {
    if h.closed then Some(InvalidHandle) else if h.rx.flags != IDLE then Some(Pending) else None
  }

  function WriteRefusal(h: Handle, count: nat): Option<Outcome> {
    if h.closed then Some(InvalidHandle)
    else if count == 0 then Some(InvalidParameter)
    else if h.tx.flags.sync || h.tx.flags.abort then Some(Pending)
    else None
  }

  function SendRefusal(h: Handle): Option<Outcome> {
    if h.closed then Some(InvalidHandle) else if h.tx.flags.sync then Some(Pending) else None
  }

  /** What a reader or writer waits for. `pending` is what a writer knows of an unfinished send, 0 for a reader. */
  predicate Ready(job: Job, pending: nat) {
    job.count - pending > 0 || job.flags.abort || job.flags.closing
  }

  /** A signalled waiter asks for an abort only if it sees nothing reported yet. */
  function InterruptSpec(job: Job, pending: nat): (Job, bool) {
    if job.count - pending == 0 && !job.flags.abort && !job.flags.closing
    then (job.(flags := job.flags.(signal := true)), true)
    else (job, false)
  }

  /** The waiter leaves: its outcome, and whether it wakes a waiting close. */
  function FinishSpec(job: Job, pending: nat, interrupted: bool): (Job, Outcome, bool) {
    (Job(IDLE, 0, job.result),
     if job.count > pending then Frames(job.count - pending)
     else if job.flags.closing then Interrupted
     else if interrupted then Restart
     else Ended(-job.result),
     job.flags.closing)
  }

  /** The end of a take, after the nucleus has reported. */
  function TakeEndSpec(job: Job): (Job, Outcome) {
    if job.count == 0 then (job.(flags := IDLE), Ended(job.result))
    else (Job(IDLE, 0, job.result), Frames(job.count))
  }

  // ---------------------------------------------------------------- close

  function Marked(job: Job): Job {
    if job.flags == IDLE then job else job.(flags := job.flags.(closing := true))
  }

  function DestroyBeginSpec(h: Handle): Handle {
    h.(closed := true, rx := Marked(h.rx), tx := Marked(h.tx))
  }

  predicate CloseReady(h: Handle) {
    h.closeDone && !h.tx.flags.closing && !h.rx.flags.closing
  }

  // ---------------------------------------------------------------- the record in memory

  const PENDING_SYNC: bv32 := 0x01
  const PENDING_ASYNC: bv32 := 0x02
  const ABORT: bv32 := 0x10
  const SIGNAL_INTERRUPT: bv32 := 0x20
  const CLOSING: bv32 := 0x40
  const ALL_FLAGS: bv32 := 0x73
  const CLOSE_DONE: bv32 := 0x1
  const HANDLE_CLOSED: bv32 := 0x8000_0000

  function Decode(w: bv32): Flags {
    Flags(w & PENDING_SYNC != 0, w & PENDING_ASYNC != 0, w & ABORT != 0, w & SIGNAL_INTERRUPT != 0, w & CLOSING != 0)
  }

  predicate IsFlagWord(w: bv32) {
    w & !ALL_FLAGS == 0
  }

  /** The flags are independent bits, and the word is zero exactly if none is set. */
  lemma FlagBits(w: bv32)
    requires IsFlagWord(w)
    ensures w == 0 <==> Decode(w) == IDLE
    ensures IsFlagWord(w | ABORT) && Decode(w | ABORT) == Decode(w).(abort := true)
    ensures IsFlagWord(w | SIGNAL_INTERRUPT) && Decode(w | SIGNAL_INTERRUPT) == Decode(w).(signal := true)
    ensures IsFlagWord(w | CLOSING) && Decode(w | CLOSING) == Decode(w).(closing := true)
    ensures IsFlagWord(w & !SIGNAL_INTERRUPT) && Decode(w & !SIGNAL_INTERRUPT) == Decode(w).(signal := false)
  {
  }

  lemma FlagConstants()
    ensures IsFlagWord(0) && Decode(0) == IDLE
    ensures IsFlagWord(PENDING_SYNC) && Decode(PENDING_SYNC) == SYNC
    ensures IsFlagWord(PENDING_ASYNC) && Decode(PENDING_ASYNC) == ASYNC
  {
  }

  class Ocb {
    var rxState: bv32
    var rxCount: nat
    var rxResult: int
    var txState: bv32
    var txCount: nat
    var txResult: int
    var closeState: bv32

    ghost predicate Valid()
      reads this
    {
      IsFlagWord(rxState) && IsFlagWord(txState)
    }

    ghost function Abs(): Handle
      reads this
    {
      Handle(Job(Decode(rxState), rxCount, rxResult), Job(Decode(txState), txCount, txResult),
             closeState & HANDLE_CLOSED != 0, closeState & CLOSE_DONE != 0)
    }

    constructor ()
      ensures Valid() && Abs() == FRESH
    {
      rxState, rxCount, rxResult, txState, txCount, txResult, closeState := 0, 0, 0, 0, 0, 0, 0;
      new;
      FlagConstants();
    }

    method RxDone(result: int, count: nat) returns (wake: Wake)
      requires Valid()
      modifies this
      ensures Valid() && wake == RxDoneSpec(old(Abs().rx), result, count).1
      ensures Abs() == old(Abs()).(rx := RxDoneSpec(old(Abs().rx), result, count).0)
    {
      FlagBits(rxState);
      FlagConstants();
      rxResult := result;
      rxCount := count;
      if rxState & PENDING_ASYNC != 0 {
        rxState := 0;
        wake := Nobody;
      } else if rxState & SIGNAL_INTERRUPT != 0 {
        rxState := rxState & !SIGNAL_INTERRUPT;
        wake := Everybody;
      } else if rxState & PENDING_SYNC != 0 {
        if rxCount == 0 {
          rxState := rxState | ABORT;
        }
        wake := Interruptible;
      } else {
        wake := Spurious;
      }
    }

    method TxDone(result: int, count: nat) returns (wake: Wake)
      requires Valid()
      modifies this
      ensures Valid() && wake == TxDoneSpec(old(Abs().tx), result, count).1
      ensures Abs() == old(Abs()).(tx := TxDoneSpec(old(Abs().tx), result, count).0)
    {
      FlagBits(txState);
      FlagConstants();
      txResult := result;
      if txState & PENDING_ASYNC != 0 {
        txCount := 0;
        txState := 0;
        wake := Nobody;
      } else if txState & SIGNAL_INTERRUPT != 0 {
        txCount := count;
        txState := txState & !SIGNAL_INTERRUPT;
        wake := Everybody;
      } else if txState & PENDING_SYNC != 0 {
        txCount := count;
        if count == 0 {
          txState := txState | ABORT;
        }
        wake := Interruptible;
      } else {
        wake := Spurious;
      }
    }

    method CloseDone()
      requires Valid()
      modifies this
      ensures Valid() && Abs() == old(Abs()).(closeDone := true)
    {
      closeState := closeState | CLOSE_DONE;
    }

    method ReadBegin() returns (refused: Option<Outcome>)
      requires Valid()
      modifies this
      ensures Valid() && refused == RxRefusal(old(Abs()))
      ensures Abs() == if refused.Some? then old(Abs()) else old(Abs()).(rx := Job(SYNC, 0, 0))
    {
      FlagBits(rxState);
      FlagConstants();
      if closeState & HANDLE_CLOSED != 0 {
        return Some(InvalidHandle);
      }
      if rxState != 0 {
        return Some(Pending);
      }
      rxState := PENDING_SYNC;
      rxResult := 0;
      rxCount := 0;
      return None;
    }

    method TakeBegin() returns (refused: Option<Outcome>)
      requires Valid()
      modifies this
      ensures Valid() && refused == RxRefusal(old(Abs()))
      ensures Abs() == if refused.Some? then old(Abs()) else old(Abs()).(rx := Job(ASYNC, 0, old(rxResult)))
    {
      FlagBits(rxState);
      FlagConstants();
      if closeState & HANDLE_CLOSED != 0 {
        return Some(InvalidHandle);
      }
      if rxState != 0 {
        return Some(Pending);
      }
      rxState := PENDING_ASYNC;
      rxCount := 0;
      return None;
    }

    method RxCancel()
      requires Valid()
      modifies this
      ensures Valid() && Abs() == old(Abs()).(rx := Job(IDLE, old(rxCount), old(rxResult)))
    {
      FlagConstants();
      rxState := 0;
    }

    method TakeEnd() returns (outcome: Outcome)
      requires Valid()
      modifies this
      ensures Valid() && outcome == TakeEndSpec(old(Abs().rx)).1
      ensures Abs() == old(Abs()).(rx := TakeEndSpec(old(Abs().rx)).0)
    {
      FlagConstants();
      if rxCount == 0 {
        rxState := 0;
        return Ended(rxResult);
      }
      rxState := 0;
      outcome := Frames(rxCount);
      rxCount := 0;
    }

    method ReadInterrupt() returns (abort: bool)
      requires Valid()
      modifies this
      ensures Valid() && abort == InterruptSpec(old(Abs().rx), 0).1
      ensures Abs() == old(Abs()).(rx := InterruptSpec(old(Abs().rx), 0).0)
    {
      FlagBits(rxState);
      abort := rxCount == 0 && rxState & ABORT == 0 && rxState & CLOSING == 0;
      if abort {
        rxState := rxState | SIGNAL_INTERRUPT;
      }
    }

    method ReadFinish(interrupted: bool) returns (outcome: Outcome, wakeClose: bool)
      requires Valid()
      modifies this
      ensures Valid() && (Abs().rx, outcome, wakeClose) == FinishSpec(old(Abs().rx), 0, interrupted)
      ensures Abs() == old(Abs()).(rx := Abs().rx)
    {
      FlagConstants();
      var ret := rxCount;
      rxCount := 0;
      var ocbClosing := rxState & CLOSING != 0;
      rxState := 0;
      wakeClose := ocbClosing;
      if ret == 0 {
        if ocbClosing {
          return Interrupted, wakeClose;
        }
        if interrupted {
          return Restart, wakeClose;
        }
        return Ended(-rxResult), wakeClose;
      }
      outcome := Frames(ret);
    }

    method WriteBegin(count: nat) returns (refused: Option<Outcome>, oldState: bv32)
      requires Valid()
      modifies this
      ensures Valid() && refused == WriteRefusal(old(Abs()), count) && oldState == old(txState)
      ensures Abs() == if refused.Some? then old(Abs()) else old(Abs()).(tx := old(Abs().tx).(flags := SYNC))
    {
      FlagConstants();
      oldState := txState;
      if closeState & HANDLE_CLOSED != 0 {
        return Some(InvalidHandle), oldState;
      }
      if count == 0 {
        return Some(InvalidParameter), oldState;
      }
      if txState & (PENDING_SYNC | ABORT) != 0 {
        return Some(Pending), oldState;
      }
      txState := PENDING_SYNC;
      refused := None;
    }

    method SendBegin() returns (refused: Option<Outcome>, oldState: bv32)
      requires Valid()
      modifies this
      ensures Valid() && refused == SendRefusal(old(Abs())) && oldState == old(txState)
      ensures Abs() == if refused.Some? then old(Abs()) else old(Abs()).(tx := old(Abs().tx).(flags := ASYNC))
    {
      FlagConstants();
      oldState := txState;
      if closeState & HANDLE_CLOSED != 0 {
        return Some(InvalidHandle), oldState;
      }
      if txState & PENDING_SYNC != 0 {
        return Some(Pending), oldState;
      }
      txState := PENDING_ASYNC;
      refused := None;
    }

    /** A job the nucleus did not accept: the flags are what they were before it. */
    method TxRestore(oldState: bv32)
      requires Valid() && IsFlagWord(oldState)
      modifies this
      ensures Valid() && Abs() == old(Abs()).(tx := old(Abs().tx).(flags := Decode(oldState)))
    {
      txState := oldState;
    }

    method WriteInterrupt(oldPending: nat) returns (abort: bool)
      requires Valid()
      modifies this
      ensures Valid() && abort == InterruptSpec(old(Abs().tx), oldPending).1
      ensures Abs() == old(Abs()).(tx := InterruptSpec(old(Abs().tx), oldPending).0)
    {
      FlagBits(txState);
      abort := txCount - oldPending == 0 && txState & ABORT == 0 && txState & CLOSING == 0;
      if abort {
        txState := txState | SIGNAL_INTERRUPT;
      }
    }

    method WriteFinish(oldPending: nat, interrupted: bool) returns (outcome: Outcome, wakeClose: bool)
      requires Valid()
      modifies this
      ensures Valid() && (Abs().tx, outcome, wakeClose) == FinishSpec(old(Abs().tx), oldPending, interrupted)
      ensures Abs() == old(Abs()).(tx := Abs().tx)
    {
      FlagConstants();
      var txLen := txCount - oldPending;
      txCount := 0;
      var ocbClosing := txState & CLOSING != 0;
      txState := 0;
      wakeClose := ocbClosing;
      if txLen <= 0 {
        if ocbClosing {
          return Interrupted, wakeClose;
        }
        if interrupted {
          return Restart, wakeClose;
        }
        return Ended(-txResult), wakeClose;
      }
      outcome := Frames(txLen);
    }

    method DestroyBegin()
      requires Valid()
      modifies this
      ensures Valid() && Abs() == DestroyBeginSpec(old(Abs()))
    {
      FlagBits(rxState);
      FlagBits(txState);
      closeState := closeState | HANDLE_CLOSED;
      if rxState != 0 {
        rxState := rxState | CLOSING;
      }
      if txState != 0 {
        txState := txState | CLOSING;
      }
    }
  }
}
