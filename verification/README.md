# Verified model of the esd CAN driver's OS layer

This project models the parts of the driver under `esd/` that decide whether it is correct, and the blocking queue of
`obu/utils/cmn_queue.h`, and proves what they are for. `dafny verify dfyconfig.toml` checks all of it.

| modules | what they model |
|---|---|
| `DpcList`, `DpcProtocol`, `DpcRuns`, `DpcLiveness` | the engine for deferred procedure calls of `esd/src/osif.c`: the linked list in memory, all interleavings of one worker with any number of trigger and destroy calls, what holds of every run, and what gets done in the end |
| `Handle`, `HandleProtocol`, `HandleInvariant` | reads, takes, writes, sends, signals and closes on one handle (`esd/src/esdcan_common.c`): the record with its flag words, all interleavings with the nucleus, and what every step keeps |
| `HandleRuns`, `HandleFrames`, `HandleRequests`, `HandleClose`, `HandleStuck`, `HandleWitness` | what holds of every run of it: ownership of the flags, where the frames go and what each request returns, waiting or not, close, the writes that get stuck, and runs in which what can go wrong does |
| `Division` | 64-bit division by shifting and subtracting, and the approximate division by 64-bit divisors |
| `Formatting`, `FormatMeaning`, `Vsnprintf` | the text a format stands for, what that text means, and the code that writes it into a bounded buffer |
| `Serial` | printing and parsing of serial numbers |
| `IdFilter` | adding ranges of ids to the filter of a handle, with retries and roll-back |
| `CardAttach`, `PciAttach` | attaching and detaching a card on a ledger of what is held |
| `CmnQueue` | the bounded queue that drops its oldest entries |
| `Basics` | optional values, runs, and a few numbers |

Code that works in place is modelled in place: `DpcRoot`, `Ocb`, `Cursor`, `CmnQueue`, `Driver`, `Card` and `PciDevice` are
classes whose methods are proved against functions on values. The protocols are step relations over these same
functions: a step is what one thread does between two points at which others can interfere, and the theorems speak of
every sequence of steps.

## Assumptions

The nucleus and the board layer are binaries of which only prototypes are known (`esd/src/nucleus.h`). Assumed of them:

- Callbacks run under the node lock, and `nuc_rx`, `nuc_tx` and `nuc_close` do not release it.
- A job that was accepted is reported by one `rx_done` or `tx_done`, at any time from inside the call that started it on;
  a call that was rejected makes no callback.
- There is at most one TX job per handle; frames accepted later are added to the job the nucleus still has. Asked about an
  unfinished send (`nuc_tx_messages`) it names no more frames than the job has and counts those from then on, and
  `tx_done` reports no more frames than the job has.
- `nuc_rx_abort` and `nuc_tx_abort` make an outstanding job report, at once or later; on a take `nuc_rx_abort` makes it report
  before it returns. The take reads `rx.result` right after that call (esd/src/esdcan_common.c:1573-1577), and the remark in
  `rx_done` that resetting rx.state for a take is redundant (line 511) presumes it; `HandleRuns.LateReportOfTake` says what
  would follow otherwise.
- `close_done` comes once, after `nuc_close` was called and when no TX job is outstanding.
- `nuc_id_filter` works through the ids in order, stops at one that is enabled when it enables, returns EAGAIN only for
  short progress and not for ever, and does not fail otherwise.
- No trigger call overlaps the final free of its entry, an entry is destroyed once, and not from its own function.
- At most MAX_CARDS cards are attached, and the interrupts a card type registers have a context.

## What turned out to differ from what is said or expected

- `OSIF_DIV64_64` is never too small and at most one too large (`Division.Div64By64Bound`); the error of one occurs
  (`Division.Div64By64BoundIsTight`).
- An ID_RANGE_ADD of all 2^32 ids counts them as 0 and enables none, with success (`IdFilter.AddOfAllAddsNothing`).
- A failed ID_RANGE_ADD leaves the filter as it was exactly below the 29-bit region; a failed 29-bit add switches the region
  off (`IdFilter.FailedAddIsTransaction`, `IdFilter.SecondAddOf29BitDisables`).
- A write on top of an unfinished send can get stuck, and then no close returns. Which writes can is known when they are let
  in: those for which frames of a send are pending, and no others (`HandleStuck.WriteCanHangIff`). Under the rule that no
  write is issued while a send is unfinished, every close returns (`HandleStuck.CloseProceedsWithoutWriteOnSend` with
  `HandleClose.CloseIsBounded`).
- A signal frees a stuck writer if and only if it still is in the interruptible wait (`HandleStuck.SignalFreesIff`). If exactly
  the old frames were reported when the signal came, the writer has entered the uninterruptible wait for a report that will
  not come, and nothing frees it or any later close (`HandleStuck.AbortIsUnkillableIff`, `HandleStuck.UnkillableForGood`).
- A signalled writer leaves its job in the nucleus exactly if a send was unfinished when it started and nothing has been
  reported (`HandleRuns.SignalledWriterLeavesJobBehind`). It then returns the result of an earlier job, because nothing resets
  tx.result (`HandleFrames.WriteReturnsLatestResult`), and the next write can return more frames than it handed over
  (`HandleFrames.WriteCanReturnMoreIff`).
- Frames reported for a read that a close has sent away before its callback reach nobody (`HandleFrames.LateIffReaderWasSentAway`).
- A failed `can_attach` keeps the I/O regions it has reserved at address 0, and nothing else
  (`PciAttach.CanAttach`, `PciAttach.BalancedUnlessAtZero`, `PciAttach.RegionAtZeroLeaks`). When the device cannot be
  enabled it returns 0 although the card is not attached.
- `CmnQueue::read` takes notifications without taking entries. Wake-ups are lost if and only if a push sends its notification
  to a reader while poppers wait and the notified ones do not suffice (`CmnQueue.WakeupsAreKeptIff`,
  `CmnQueue.ReadLosesWakeup`).
- A serial number parses back for all 32-bit values; printing what was parsed gives the text back for all but "AA000000",
  which prints as "N/A".

## Model

| member | source | states |
|---|---|---|
| `DpcList.SectionsKeepListInv` | esd/src/osif.c:1411-1421 | every critical section keeps the list duplicate-free and an entry on it exactly when it is linked and not destroyed |
| `DpcList.DpcRoot.Trigger` | esd/src/osif.c:1568-1597 | refuses a destroyed entry, ignores a linked one, else appends it at the end and asks for a wake-up, whatever its stale `next` is |
| `DpcList.DpcRoot.StartNext` | esd/src/osif.c:1411-1417 | takes the head off the chain and marks it running, leaving its `next` stale |
| `DpcList.DpcRoot.Finish` | esd/src/osif.c:1419-1420 | takes the running mark off that entry alone |
| `DpcList.DpcRoot.FindBefore` | esd/src/osif.c:1536-1544 | finds the predecessor on the chain, or that the entry is not on it |
| `DpcList.DpcRoot.Unlink` | esd/src/osif.c:1530-1546 | marks the entry destroyed and removes exactly it, be it head, inner, last or absent |
| `DpcList.DpcRoot.Create` | esd/src/osif.c:1505-1519 | a fresh entry with no mark; the list is unchanged |
| `DpcProtocol.StepKeepsList` | esd/src/osif.c:1396-1421 | every step keeps the list invariant, and the worker and the list refer to entries that are not freed |
| `DpcProtocol.StepKeepsWake` | esd/src/osif.c:1423-1434 | every step keeps: a worker that has decided to sleep with work on the list has a trigger call on its way |
| `DpcProtocol.StepKeepsDestroys` | esd/src/osif.c:1521-1558 | every step keeps: a destroy past its wait loop has an entry that is destroyed and not running, an entry is freed exactly if its destroy is done, and no two destroys share one |
| `DpcProtocol.StepKeepsHist` | esd/src/osif.c:1573-1587 | every step keeps tickets in enqueue order, none lost, none twice |
| `DpcProtocol.StepKeepsInv` | esd/src/osif.c:1396-1434 | all of this together is an inductive invariant |
| `DpcRuns.Reachable` | esd/src/osif.c:1396-1434 | and so holds in every state of every run |
| `DpcRuns.NoLostWakeup` | esd/src/osif.c:1396-1434 | a worker asleep at `schedule()` with a non-empty list is about to be woken; with no trigger in flight the list is empty and `trig` is 0 |
| `DpcRuns.OneAtATimeAndConserved` | esd/src/osif.c:1411-1421 | one function runs at a time, starts follow enqueue order, enqueues = starts + queued + dropped by destroy |
| `DpcRuns.QueuedIffTriggeredSince` | esd/src/osif.c:1568-1587 | a live entry is queued if and only if it was triggered since its function last started, coalesced triggers and triggers during execution included |
| `DpcRuns.ServedInOrder` | esd/src/osif.c:1411-1421 | at any later time a ticket from position p has been dropped by a destroy, or started after at most p other starts, or it still waits and the worker has taken at most 2p + 5 steps |
| `DpcRuns.NeverStuck` | esd/src/osif.c:1396-1434 | while the list is not empty the worker can step or a trigger call that will wake it can |
| `DpcRuns.DestroyIsFinal` | esd/src/osif.c:1529-1558 | once it is marked by a destroy and its function is not running, so at the latest at the end of the wait loop, the entry is out of the worker's reach for good, is never started and every trigger for it is refused without a change |
| `DpcLiveness.OnePollMore` | esd/src/osif.c:1548-1553 | once the function has returned, a destroy that waits for it polls once more and is past its loop, and the function never runs again |
| `DpcLiveness.WaitEnds` | esd/src/osif.c:1548-1553 | while a destroy waits, its function is what the worker is in and about to return from; or the worker holds the spinlock; or the next poll ends the loop |
| `DpcLiveness.LockIsReleased` | esd/src/osif.c:1410-1432 | the worker keeps the spinlock for at most three of its steps, whatever the others do |
| `DpcLiveness.FreedWhenDone` | esd/src/osif.c:1553-1558 | behind the loop the entry is freed, by the step that ends the call |
| `DpcLiveness.IdleEntryIsNotWaitedFor` | esd/src/osif.c:1529-1553 | a destroy waits exactly if the function is running when it has unlinked the entry |
| `DpcLiveness.TriggerReturns` | esd/src/osif.c:1568-1600 | a trigger returns ENOENT if and only if its entry was marked destroyed when it had the spinlock; appended or coalesced, it returns success |
| `DpcLiveness.TriggerIsNotHeldUp` | esd/src/osif.c:1587-1592 | a trigger that has appended its entry counts it and wakes the worker without waiting for anything |
| `DpcLiveness.TrigCounts` | esd/src/osif.c:1397-1399 | `trig` is the number of announced appends less one for each turn of the loop that found it positive |
| `DpcLiveness.AwakeWhileWorking` | esd/src/osif.c:1423-1431 | the worker is in interruptible state only from the end of the list to the end of `schedule()` |
| `DpcLiveness.FallsAsleep` | esd/src/osif.c:1396-1434 | with an empty list and nothing to disturb it, the worker consumes `trig` and sleeps after at most 8 trig + 10 of its steps |
| `DpcLiveness.DestroyedWhileRunning` | esd/src/osif.c:1521-1558 | a run in which an entry is destroyed while its function runs |
| `Handle.FlagBits` | esd/src/esdcan.h:173-184 | the flags are independent bits and the word is 0 exactly if none is set |
| `Handle.Ocb.RxDone` | esd/src/esdcan_common.c:503-524 | `rx_done` on the flag words does what RxDoneSpec says, and which waiters it wakes |
| `Handle.Ocb.TxDone` | esd/src/esdcan_common.c:398-420 | the same for `tx_done` |
| `Handle.Ocb.CloseDone` | esd/src/esdcan_common.c:385-396 | sets close-done and nothing else |
| `Handle.Ocb.ReadBegin` | esd/src/esdcan_common.c:880-895 | refuses a closed handle and a pending read or take, else claims rx.state with a zero count |
| `Handle.Ocb.ReadInterrupt` | esd/src/esdcan_common.c:904-917 | a signalled reader aborts only if nothing is reported, timed out or closing |
| `Handle.Ocb.ReadFinish` | esd/src/esdcan_common.c:919-948 | frames before close before signal before result; rx.state and the count become 0 |
| `Handle.Ocb.RxCancel` | esd/src/esdcan_common.c:894-898 | a job the nucleus rejects leaves rx.state 0 |
| `Handle.Ocb.TakeBegin` | esd/src/esdcan_common.c:1535-1544 | the same admission for a take |
| `Handle.Ocb.TakeEnd` | esd/src/esdcan_common.c:1571-1617 | hands out the frames or the result, and leaves rx.state 0 |
| `Handle.Ocb.WriteBegin` | esd/src/esdcan_common.c:1145-1175 | refuses a closed handle, an empty write and a pending write; else the flags are those of a write and the old ones are kept aside |
| `Handle.Ocb.SendBegin` | esd/src/esdcan_common.c:1490-1503 | a send is refused only by a closed handle and a pending write |
| `Handle.Ocb.TxRestore` | esd/src/esdcan_common.c:1177-1183 | after a rejected `nuc_tx` the flags are the old ones |
| `Handle.Ocb.WriteInterrupt` | esd/src/esdcan_common.c:1192-1204 | a signalled writer aborts only if exactly the old frames are reported and neither ABORT nor CLOSING is set |
| `Handle.Ocb.WriteFinish` | esd/src/esdcan_common.c:1205-1239 | the frames beyond the old ones, before close before signal before result; tx.state and the count become 0 |
| `Handle.Ocb.DestroyBegin` | esd/src/esdcan_common.c:793-811 | marks the handle closed, and closing exactly those flag words that are not 0 |
| `HandleInvariant.DoneKeeps` | esd/src/esdcan_common.c:503-524 | a callback for a job in the nucleus keeps the invariant of its direction, closed or not |
| `HandleInvariant.AbortKeeps` | esd/src/esdcan_common.c:904-917 | so does an abort, whether the job reports at once or later |
| `HandleInvariant.StepKeepsSides` | esd/src/esdcan_common.c:871-948 | every step keeps who owns the flag words of both directions and what a sleeper waits for |
| `HandleInvariant.StepKeepsRoles` | esd/src/esdcan_common.c:880-890 | every step keeps at most one reader, one writer and one closer inside, the calls the waiters belong to |
| `HandleInvariant.StepKeepsClose` | esd/src/esdcan_common.c:788-867 | every step keeps: `nuc_close` is called once exactly if the handle is closed, and the closer that sleeps un-notified waits for something that is not so yet |
| `HandleInvariant.StepKeepsInv` | esd/src/esdcan_common.c:788-948 | all of this together is an inductive invariant |
| `HandleRuns.Reachable` | esd/src/esdcan_common.c:788-948 | and so holds in every state of every run |
| `HandleRuns.FlagsHaveOneOwner` | esd/src/esdcan_common.c:880-895 | whenever the lock is free, a non-zero rx.state is that of exactly one read inside, and a non-zero tx.state that of one write or of an unfinished send |
| `HandleRuns.RxExitsLeaveZero` | esd/src/esdcan_common.c:896-926 | every exit of an admitted read or take leaves rx.state 0, and a refused one changes nothing |
| `HandleRuns.RxDoneReachesReader` | esd/src/esdcan_common.c:503-524 | while the handle is open `rx_done` is never spurious and makes the predicate of the waiting read true |
| `HandleRuns.TxDoneReachesWriter` | esd/src/esdcan_common.c:411-420 | when exactly `tx_done` makes the predicate of a waiting write true |
| `HandleRuns.SleepersAreOwedACallback` | esd/src/esdcan_common.c:898-904 | a sleeper that no wake-up has reached waits for a callback still to come, or is the stuck writer |
| `HandleRuns.LateReportOfTake` | esd/src/esdcan_common.c:1571-1578 | if `nuc_rx_abort` returned from a take before the report, that would be lost or be taken for a later read's own |
| `HandleRuns.NoStaleCount` | esd/src/esdcan_common.c:398-420 | without a write inside tx.cm_count is 0, and on an open handle without a read inside rx.cm_count |
| `HandleRuns.RejectedTxChangesNothing` | esd/src/esdcan_common.c:1490-1508 | a write inside keeps writes and sends out; one that is not let in or not accepted leaves flags, counts and job as they were |
| `HandleRuns.WriteTakesItsJobAlong` | esd/src/esdcan_common.c:1188-1204 | on an open handle a write without an unfinished send below it never leaves its job in the nucleus |
| `HandleRuns.SignalledWriterLeavesJobBehind` | esd/src/esdcan_common.c:1192-1204 | a signalled writer does so if and only if frames of a send were pending and nothing was reported |
| `HandleRuns.OnlyAWriterAbandons` | esd/src/esdcan_common.c:1192-1211 | on an open handle no other step leaves a job in the nucleus that nobody answers for |
| `HandleRuns.TxDoneIsSpuriousIff` | esd/src/esdcan_common.c:403-420 | on an open handle `tx_done` is spurious if and only if it reports such a job |
| `HandleFrames.FramesConserved` | esd/src/esdcan_common.c:919-948 | over every run, all frames that any `rx_done` or object-mode take delivered = frames reads and takes returned + frames the read inside holds + frames that came late; none are late while the handle is open, whatever signals, aborts and timeouts there were |
| `HandleFrames.LateIffReaderWasSentAway` | esd/src/esdcan_common.c:928-936 | frames come late if and only if they are reported for the job of a read that the close has sent away |
| `HandleWitness.FramesCanBeLate` | esd/src/esdcan_common.c:928-936 | a run with five late frames |
| `HandleFrames.AccountIsKept` | esd/src/esdcan_common.c:1151-1239 | from start to return, count, stored result, job size and abort flag of a read or write are those of the events since it started |
| `HandleFrames.OneCallback` | esd/src/esdcan_common.c:503-524 | a read or write gets one callback: after it none comes before it leaves |
| `HandleFrames.ReturnsWhatWasReported` | esd/src/esdcan_common.c:1205-1239 | what a read or write returns, from the events since its start alone: the frames of its callback less those the earlier send owed; else that the handle was closed; else a restart if it has asked for an abort; else the result of its callback, or without one the result stored when it began |
| `HandleFrames.ReadReturnsItsOwnResult` | esd/src/esdcan_common.c:919-944 | the result a read returns is that of its own callback, which reported nothing; a read is restarted only if no frame was reported to it |
| `HandleRequests.StoredRxResult` | esd/src/esdcan_common.c:503-507 | rx.result is the result of the latest `rx_done` of the run, whomever it was for, or 0 if a read was let in since or there was none |
| `HandleRequests.TakeReturns` | esd/src/esdcan_common.c:1533-1618 | every answer to a take; outside object mode one that is let in returns the frames of the callback that came within it, or without frames the result of that callback |
| `HandleRequests.TakeObjectReturns` | esd/src/esdcan_common.c:1548-1578 | in object mode no callback comes, and without a frame a take returns the result of an earlier job |
| `HandleRequests.ReadReturnsAtOnce` | esd/src/esdcan_common.c:880-898 | with which error a read is turned away: closed handle, another read inside, rejected job |
| `HandleRequests.WriteReturnsAtOnce` | esd/src/esdcan_common.c:1145-1185 | with which error a write is turned away: closed handle, nothing to write, another write inside, and, only if a send is unfinished, a failed query and a deferred job; rejected job |
| `HandleRequests.SendReturns` | esd/src/esdcan_common.c:1490-1514 | a send is turned away by a closed handle and a write inside only, else accepted or rejected, and unfinished exactly if its callback has not come yet |
| `HandleRequests.CloseReturnsAtOnce` | esd/src/esdcan_common.c:1455-1468 | a destroy of a closed handle is an error, a release of one returns at once; else either begins the close |
| `HandleFrames.StoredTxResult` | esd/src/esdcan_common.c:398-401 | tx.result is the result of the latest `tx_done` of the run, whomever it was for |
| `HandleFrames.WriteReturnsLatestResult` | esd/src/esdcan_common.c:1213-1230 | the result a write returns is that of its own callback exactly if it has had one; otherwise that of the latest job before it began, and it leaves its own behind |
| `HandleWitness.StaleResult` | esd/src/esdcan_common.c:1192-1230 | a signalled write that returns the result 7 of a send that was over before it began |
| `HandleFrames.WriteReturnsAtMost` | esd/src/esdcan_common.c:1205-1239 | a write returns at most the frames the nucleus took from it and those of a job another left behind |
| `HandleFrames.WriteCanReturnMoreIff` | esd/src/esdcan_common.c:1151-1239 | some continuation makes a write return more than it handed over if and only if, when it is let in, frames of an abandoned job are in the nucleus (and a callback within the call reports more than its own) |
| `HandleWitness.ForeignFrames` | esd/src/esdcan_common.c:1192-1239 | a run that gets there |
| `HandleClose.CloseIsComplete` | esd/src/esdcan_common.c:788-867 | when a destroy or release has returned, close_done has come, both flag words are 0, nobody is inside, and the next request is refused |
| `HandleClose.DeadForGood` | esd/src/esdcan_common.c:1455-1468 | and this stays so in every later state |
| `HandleClose.ClosedOnce` | esd/src/esdcan.c:1095-1102 | racing destroys and the release make one call of `nuc_close` in all |
| `HandleClose.CloseCanProceed` | esd/src/esdcan_common.c:813-819 | while a close waits, a thread inside or the nucleus can step, or a writer is stuck |
| `HandleClose.CloseHasReturnedIff` | esd/src/esdcan_common.c:788-867 | when none of them has a step left, the close has returned if and only if no writer is stuck |
| `HandleClose.CloseIsBounded` | esd/src/esdcan_common.c:788-867 | after the handle is marked closed at most 75 such steps are left, and three more for each signal |
| `HandleStuck.CloseProceedsWithoutWriteOnSend` | esd/src/esdcan_common.c:1151-1169 | in a run in which no write is let in while PENDING_SEND is set no writer is ever stuck, and every close that waits can go on |
| `HandleStuck.WriteCanHangIff` | esd/src/esdcan_common.c:1158-1191 | some continuation makes a write hold up a close if and only if, when it is let in, frames of a send are pending (and a callback within the call reports some and no more than these) |
| `HandleStuck.HangsWithoutSignal` | esd/src/esdcan_common.c:1188-1191 | a stuck writer holds up the close in every later state, as long as no signal reaches it |
| `HandleStuck.SignalFreesIff` | esd/src/esdcan_common.c:1188-1204 | a signal reaches a stuck writer, and makes it leave, if and only if it is in the interruptible wait |
| `HandleStuck.AbortIsUnkillableIff` | esd/src/esdcan_common.c:1192-1202 | a signalled writer enters the uninterruptible wait with nothing left to report if and only if exactly the frames pending were reported and the handle is open |
| `HandleStuck.UnkillableForGood` | esd/src/esdcan_common.c:1197-1202 | from then on, whatever calls, signals and callbacks come, the write does not return, no close does, and no write or send is let in |
| `HandleStuck.WriteCanGetUnkillableIff` | esd/src/esdcan_common.c:1158-1202 | some continuation makes a write unkillable if and only if, when it is let in, frames of a send are pending (and a callback within the call reports exactly these) |
| `HandleWitness.WriteOnTopOfSend` | esd/src/esdcan_common.c:1151-1191 | a send of two frames and a write of one: it can hang a close and it can become unkillable |
| `Division.Div64By32` | esd/src/osif.c:1770-1798 | returns exactly n / base and n mod base after at most 32 doublings, for every 64-bit n and base > 0 |
| `Division.Reduction` | esd/src/osif.c:1777-1783 | the first reduction neither wraps nor changes the remainder |
| `Division.SignedGuardNeverDecides` | esd/src/osif.c:1784-1787 | b stays below 2^63 while it is below the remainder, so the signed test never ends the loop |
| `Division.SignedMeans` | esd/src/osif.c:1784 | the cast in the guard reads the pattern as the number in the signed range that is congruent to it |
| `Division.ScaleDown` | esd/src/osif.c:1788-1795 | halving and subtracting leaves the exact quotient and remainder |
| `Division.SftFixup` | esd/src/osif.h:259-271 | the result is the larger of the present shift and the least that brings the frequency below 2^32, which it does |
| `Division.Div64By64` | esd/src/osif.h:252-256 | divides by the shifted divisor and shifts the quotient |
| `Division.QuotientByCleared` | esd/src/osif.h:252-256 | the result is the exact quotient by the divisor with its low bits cleared |
| `Division.Div64By64Bound` | esd/src/osif.h:250-271 | with that shift it is never below floor(n / div), at most one above, and exact if the bits shifted out are 0 |
| `Division.Div64By64BoundIsTight` | esd/src/osif.h:252-256 | an input for which it is one above |
| `Formatting.DigitsEvaluate` | esd/src/osif.c:802-809 | the digits evaluate back to the magnitude in every base from 2 to 36 |
| `Formatting.FewerThan65` | esd/src/osif.c:768 | there are at most 64 of them |
| `Formatting.NumberLength` | esd/src/osif.c:796-871 | the length is max(size, sign + prefix + max(digits, precision)) |
| `Formatting.AtoiReadsNumber` | esd/src/osif.c:754-761 | `skip_atoi` gives back n from its unsigned decimal output, unpadded or zero-padded, and no intermediate result leaves 32 bits if and only if n <= 2^31 - 49 |
| `Formatting.DirectiveAdvances` | esd/src/osif.c:915-978 | every conversion moves on in the format and never past its end, also when the format ends inside it |
| `FormatMeaning.FormatPrintsPieces` | esd/src/osif.c:907-1100 | a format prints what its pieces print one after the other: plain characters as they are, and directives as they are written: each flag is set exactly if its character is there, width and precision are the numbers or the arguments in turn, the qualifier counts, also when the format ends inside the directive |
| `FormatMeaning.DirectiveIsRead` | esd/src/osif.c:915-965 | the same for one directive |
| `FormatMeaning.IntegerConversion` | esd/src/osif.c:1047-1099 | for o, x, X, d, i and u: the digits evaluate, in the radix ISO C gives the conversion, to the absolute value of the argument as qualifier and signedness read it; minus for negative numbers only, upper-case letters for X only, prefix for # only, and zeros and blanks on either side as flags, width and precision ask |
| `FormatMeaning.PointerConversion` | esd/src/osif.c:1016-1023 | a pointer shows the 64-bit pattern of its low 32 bits read as signed, in sixteen zero-padded digits unless a width is given |
| `FormatMeaning.CharConversion` | esd/src/osif.c:967-987 | the character with the code of the argument in eight bits, and the side of the blanks |
| `FormatMeaning.StringConversion` | esd/src/osif.c:989-1014 | the first min(length, precision) characters, `<NULL>` for a null pointer, and the side of the blanks |
| `FormatMeaning.OtherConversions` | esd/src/osif.c:1025-1078 | a percent sign, nothing for n, an unknown character behind its percent sign |
| `Vsnprintf.SkipAtoi` | esd/src/osif.c:754-761 | the loop computes the value and the end of the digits |
| `Vsnprintf.ReversedDigits` | esd/src/osif.c:802-809 | the loop with `do_div` leaves the digits in reverse, in at most 64 places |
| `Vsnprintf.Cursor.Put` | esd/src/osif.c:909-912 | a character goes to its place if that is inside the buffer, and nowhere else |
| `Vsnprintf.Cursor.Number` | esd/src/osif.c:766-872 | the loops of `number` write exactly NumberText |
| `Vsnprintf.ReadFlags` | esd/src/osif.c:915-925 | the flags and where they end |
| `Vsnprintf.ReadWidth` | esd/src/osif.c:926-938 | the width, from digits or an argument, negative meaning left |
| `Vsnprintf.ReadPrecision` | esd/src/osif.c:939-953 | the precision, negative meaning 0 |
| `Vsnprintf.Convert` | esd/src/osif.c:964-1099 | every conversion writes what the format stands for |
| `Vsnprintf.Vsnprintf` | esd/src/osif.c:886-1111 | the length is that of the untruncated text whatever the size; with size > 0 its first min(len, size - 1) characters and a NUL are stored, with size 0 nothing |
| `Serial.PrintedForm` | esd/src/esdcan_common.c:1954-1966 | through the formatter a serial prints as two letters and at least six digits, 0 as "N/A", ten characters at most |
| `Serial.FillSerialString` | esd/src/esdcan_common.c:1950-1966 | the 16 characters of `serial_string` receive the whole text and a NUL: nothing is cut off |
| `Serial.ParseOfPrint` | esd/src/osif.c:1906-1918 | parsing the printed form of any 32-bit serial gives it back |
| `Serial.PrintOfParse` | esd/src/osif.c:1906-1918 | printing a parsed string of two letters A to P and six digits gives it back, if and only if it is not "AA000000" |
| `IdFilter.FilterInSteps` | esd/src/esdcan_common.c:627-643 | across EAGAIN retries the ids processed are one contiguous prefix, each once, and the count returned is its length |
| `IdFilter.IdFilter` | esd/src/esdcan_common.c:612-645 | both branches; a failed 29-bit call reports a count of 0 |
| `IdFilter.RangeOfAdd` | esd/src/esdcan_common.c:1730 | the range has exactly the ids from the first to the last, across the top of the 32 bits if the last is the smaller, but none if these are all 2^32 |
| `IdFilter.RegionBit` | esd/src/esdcan_common.c:618 | the region is chosen by bit 29 of the first id |
| `IdFilter.RangeAdd` | esd/src/esdcan_common.c:1721-1737 | an add, with retries and roll-back, below the 29-bit region: it succeeds if and only if none of the ids first <= id <= last was enabled, and then exactly these are enabled on top; else the filter is as it was |
| `IdFilter.FailedAddIsTransaction` | esd/src/esdcan_common.c:1731-1735 | a failed add leaves the filter as it was if and only if it is below the 29-bit region; an add of that region succeeds if and only if it was not enabled, and a failed one switches it off |
| `IdFilter.AddOfAllAddsNothing` | esd/src/esdcan_common.c:1730 | an add of all 32-bit ids enables none and succeeds |
| `IdFilter.SecondAddOf29BitDisables` | esd/src/esdcan_common.c:618-626 | adding the 29-bit region twice leaves it disabled |
| `CardAttach.CreateNodes` | esd/src/esdcan.c:1121-1147 | memory and two locks for each node up to the first that gets none |
| `CardAttach.RequestIrqs` | esd/src/esdcan.c:1160-1204 | an interrupt for each handler up to the terminator or the first refusal, which leaves no entry |
| `CardAttach.AttachNodes` | esd/src/esdcan.c:1205-1233 | a node that fails is dropped, the others stay, and the global table shows exactly those |
| `CardAttach.DetachNets` | esd/src/esdcan.c:1246-1253 | the attached nodes leave the nucleus and the table, each once |
| `CardAttach.FreeIrqs` | esd/src/esdcan.c:1259-1265 | exactly the registered interrupts are freed, each once |
| `CardAttach.DestroyNodes` | esd/src/esdcan.c:1273-1284 | the nodes there are give back memory and locks, each once |
| `CardAttach.AttachCommon` | esd/src/esdcan.c:1113-1286 | succeeds if and only if nothing needed fails, one of four nodes being enough, and else returns the error of what failed first; then the ledger grows by exactly what the record shows, else by nothing, from every failure point |
| `CardAttach.DetachCommon` | esd/src/esdcan.c:1288-1313 | gives back exactly that, each thing once |
| `PciAttach.MapSpace` | esd/src/esdcan_pci.c:293-380 | one space is had if and only if the board layer's number is even for a memory space and odd or 0 for an I/O space and the mapping or region is granted; else ENOMEM or, for a refused region, EBUSY, with nothing held |
| `PciAttach.RecordedLength` | esd/src/esdcan_pci.c:306-352 | the recorded length is the smaller of what the two sides say, without the mark of an I/O space |
| `PciAttach.ReachedAllIff` | esd/src/esdcan_pci.c:293-384 | all spaces before the terminator are had, or one of them fails first |
| `PciAttach.MapSpaces` | esd/src/esdcan_pci.c:293-384 | the spaces up to the end of the table or the first that fails |
| `PciAttach.ReleaseSpaces` | esd/src/esdcan_pci.c:409-422 | everything with a base is given back, so what was had at base 0 stays |
| `PciAttach.UnmapSpaces` | esd/src/esdcan.c:1314-1325 | detaching goes by the length and leaves nothing |
| `PciAttach.CanAttach` | esd/src/esdcan_pci.c:237-436 | attaches if and only if memory, device, every space before the terminator and the common part are had, and else returns the error of what failed first, 0 for the device; if it attaches the ledger and the global table show exactly the card's record; on failure the ledger grows by nothing but I/O regions reserved at 0; nothing is given back twice |
| `PciAttach.BalancedUnlessAtZero` | esd/src/esdcan_pci.c:409-422 | a failed attach is balanced if and only if no I/O region that starts at 0 was reserved |
| `PciAttach.RegionAtZeroLeaks` | esd/src/esdcan_pci.c:409-422 | an input for which one leaks |
| `PciAttach.CanDetach` | esd/src/esdcan_pci.c:439-465 | gives back all the card had, MSI and the bus master included |
| `PciAttach.AttachAndDetach` | esd/src/esdcan_pci.c:237-465 | attach and then detach leaves the ledger as it was, whatever other cards hold |
| `CmnQueue.PushKeepsWindow` | obu/utils/cmn_queue.h:47-51 | after a push and the trimming the queue is again the last entries pushed and not popped, at most the maximum |
| `CmnQueue.PopKeepsWindow` | obu/utils/cmn_queue.h:64-66 | a pop returns the oldest of the window, later than all returned before |
| `CmnQueue.CmnQueue.Push` | obu/utils/cmn_queue.h:39-51 | the trimming loop leaves the last entries, and pushes = pops + drops + queued |
| `CmnQueue.CmnQueue.Pop` | obu/utils/cmn_queue.h:61-67 | returns and removes the oldest entry |
| `CmnQueue.CmnQueue.TryPop` | obu/utils/cmn_queue.h:69-77 | the same, or nothing exactly if the queue is empty |
| `CmnQueue.CmnQueue.TryRead` | obu/utils/cmn_queue.h:85-91 | the oldest entry, which stays |
| `CmnQueue.CmnQueue.IsEmpty` | obu/utils/cmn_queue.h:34-37 | whether there is an entry |
| `CmnQueue.StepTakes` | obu/utils/cmn_queue.h:39-91 | which steps take the oldest entry, and that no other step changes the queue but a push |
| `CmnQueue.QueueIsBounded` | obu/utils/cmn_queue.h:28-32 | in every run the queue holds at most the size asked for, and one entry for size 0 |
| `CmnQueue.StepLosesIff` | obu/utils/cmn_queue.h:39-83 | a step breaks "with a popper waiting un-notified there are at most as many entries as notified poppers" if and only if it is a push whose notification goes to a reader while poppers wait and the notified ones do not suffice |
| `CmnQueue.WakeupsAreKeptIff` | obu/utils/cmn_queue.h:39-83 | in every run, with any number of callers of push, pop, try_pop, read and try_read and spurious wake-ups, the queue is the window, and no state loses a wake-up if and only if no push is such |
| `CmnQueue.NoWakeupIsLost` | obu/utils/cmn_queue.h:39-77 | without `read` none is, so no wake-up is ever lost |
| `CmnQueue.ReadLosesWakeup` | obu/utils/cmn_queue.h:79-83 | a run with `read` in which an entry is left and a popper sleeps |

## Left out

- The code for kernels without PREEMPT_RT support: it returns with rx.state still set on some paths, so ownership does not hold there.
- The nucleus and the board layer, of which there are prototypes only; see Assumptions.
- `BOARD_CAN_FD` and the 64-byte messages of TAKE, which are disabled; copying to and from user memory and its EFAULT exits.
- The firmware check (CAN_ACTION_CHECK) and the hot-plug bolts in front of the requests.
- Waiters evaluate their condition in one step, although the driver reads counter and flags one after the other without the lock.
- How many frames `nuc_rx` reports at most, and which frames of a TX job are whose: the model counts them.
- Freeing the handle after the release, and requests that are still on their way into the driver then.
- Shutting down the DPC engine: `osif_dpc_root_destroy` does not raise `trig`, so nothing is claimed about it; freeing entries is a mark.
- Vsnprintf.SkipAtoi: the accumulator is an unbounded integer, because C leaves the overflow of INT32 open; AtoiReadsNumber says when it does not overflow.
- Vsnprintf.ReadWidth: the same for widths, and for the negation of a width argument of -2^31.
- Vsnprintf.ReadPrecision: the same for precisions.
- Vsnprintf.Convert: `%n` prints nothing and stores nothing, because its argument is a pointer outside the buffer.
- Vsnprintf.Vsnprintf: a size so large that the end pointer would wrap around is not modelled; strings and the format are sequences without NUL instead of pointers, and arguments are a function of their index, because C's va_list has no bounds to model.
- The 29-bit acceptance mask (`nuc_id_filter_mask`) beyond the stored code, and other threads that change the filter of the same handle while `id_filter` sleeps.
- CardAttach.AttachCommon: the interrupt line, names and parameters of a node are not in the ledger, because they are not held; the mutex the board layer may leave behind when `can_board_attach` fails belongs to the board layer.
- PciAttach.CanAttach: the search for the card type is an argument; `pci_enable_device` is not in the ledger, because the code never undoes it; `pci_clear_master` clears a flag also when it was not set.
- CmnQueue: failing allocations in `push` leave the queue as it was; the mutex makes each method one step.
- FormatMeaning.FormatPrintsPieces: leaves out directives whose conversion character is a flag, a digit, `*`, `.` or a qualifier; they print as unknown characters do.
- The unique numbering of cards after a detach: the code reuses numbers, and nothing is claimed.
- cantest, port I/O, proc files, PCI configuration access, `OsThread`, `Singleton`, the OpenSSL and ASN.1 wrappers and the SmarterEye and ROS headers: input and output, or wrappers without logic of their own.
- Ioctl renumbering, version packing, byte swaps and `__canLenToDataSize`: single expressions that would only add easy members.
