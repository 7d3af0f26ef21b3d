# srtgo poll descriptor and retry loops, in Dafny

This project models the part of the srtgo SRT binding that makes a non-blocking
SRT socket look blocking to Go code:

- the per-socket poll descriptor (`pollDesc`): its read and write states
  (default, ready, wait), its deadlines, its sequence counters, which guard
  against stale timer expiries, its unblock channels, and `pollDescInit`,
  `release`, `wait`, `close`, `checkPollErr`, `setDeadline`, `unblock` and
  `reset`;
- the retry loops of `SrtSocket.Read`, `SrtSocket.ReadPacket` and
  `SrtSocket.Write`, which call the native transport, wait on the descriptor
  when the call would block, and call it again;
- the normalisation in `srtRecvMsg2Impl` and `srtSendMsg2Impl`, which turns a
  native result into Go's `(n, err)`.

The model has two layers.

**Values.** Module `Poll` (`poll.dfy`) describes the descriptor as a value
`Desc` and gives one function per operation. Each operation is one atomic
step. The descriptor's mutexes and atomics collapse into that step. The
remaining time of a deadline is an integer input.

A goroutine blocked in `wait` needs more than one step. `WaitBegin` covers the
early error check, the ready fast path and the move from default to wait. Once
the waiter is suspended, it reacts to explicit events:

- `Receive` takes a value from the unblock channel;
- `Expire` takes a value from the timer's channel and applies the sequence
  guard;
- `Act` is something another goroutine does meanwhile: a notification from the
  poll server, a `setDeadline`, a `close`, the runtime firing a timer, or the
  fast-path `reset` of another `Read` or `Write`.

**Objects.** Class `PollDescriptor.PollDesc` (`poll_desc.dfy`) has the fields
of `pollDesc` and updates them in place. Every method states its new state as
the matching `Poll` function of its old state.

**Retry loops.** Module `Retry` (`retry.dfy`) defines the loops of `Read`,
`Write` and `ReadPacket` as functions of a supplied history:

- the native results, in order;
- for each call of `wait`, what other goroutines do before it and what it
  meets while suspended.

A run whose history runs out before it returns is reported as not returned.
`AfterWaits` replays the waits of a history one after another, so the lemmas
can say which wait ended a run and with what. The methods `Read.Read`, `Read.ReadPacket` and `Write.Write` are `while`
loops, each proved equal to its function. The lemmas state the exit rules and
the propagation rules.

`PollLemmas` (`poll_lemmas.dfy`) proves properties that span several
operations:

- after `pollDescInit`, expiries are stale until the next `setDeadline`;
- a deadline leads to a timeout;
- readiness or a notification that arrives before a wait is kept or lost;
- `close` alone does not wake a waiter.

Some of these results record behaviour of the code as written:

1. `ReadPacket` never returns a successful receive. It copies the message
   control and then always calls `wait`, so its only way out is an error from
   `wait`.
2. A timer value that lands in the channel before `setDeadline(zero time)`
   survives it, because `Stop` does not drain the channel. The next waiter then
   takes that value as a genuine expiry and times out with no deadline set.
3. A recycled descriptor keeps its deadlines, because `pollDescInit` does not
   clear them.
4. For modes 0 and 3, `reset` changes nothing, so a finished `wait` leaves the
   read state at wait.
5. The pool's one-hour timers are stopped only when a positive deadline is
   replaced. After `setDeadline(zero time)` on a new descriptor, the timer
   keeps running. When it fires an hour later, the expiry passes the guard and
   the wait times out although no deadline was ever set.
6. The system error of a failed native call never reaches the returned error.
   `srtRecvMsg2Impl` and `srtSendMsg2Impl` call `wrapSysErr` and discard its
   result (read.go:32, write.go:31), so `err` is the bare SRT error number.

## Model

| member | source | states |
|---|---|---|
| Poll.NewDesc | poll.go:64-76 | the pool's new descriptor has empty unblock channels, both one-hour timers running, no error and no closing flag |
| Poll.Init | poll.go:78-92 | pollDescInit sets fd. It puts both states to default and clears closing and pollErr. It bumps rdSeq and wdSeq by one and leaves the shadows, deadlines, channels and timers alone, so each shadow falls strictly behind its counter |
| Poll.Release | poll.go:94-102 | release panics (None) exactly when the descriptor is not closing or either direction is in wait. Otherwise it only sets fd to 0 |
| Poll.Close | poll.go:176-184 | close sets closing and nothing else. A second close changes nothing. Afterwards checkPollErr reports Closed for every mode |
| Poll.CheckPollErr | poll.go:186-202 | the fixed priority. Closing gives Closed. Otherwise a negative deadline gives Timeout, checked only for ModeRead and ModeWrite. Otherwise pollErr gives Closed. Otherwise nil, with both directions of each case |
| Poll.SetDeadline | poll.go:204-246 | each direction the mode touches gets its counter bumped by one, its shadow set to it, and its deadline set to 0, -1 or the remaining nanoseconds. Its timer runs iff the deadline is positive, or keeps running when it was not guarding a positive deadline. A notification is queued iff the deadline is negative and the state was wait. Untouched directions are unchanged. Mode 3 does both legs and mode 0 neither. The zero time clears a timeout |
| Poll.TimerFire | poll.go:111-125 | a running timer stops and its value lands in the channel that wait selects on. A stopped timer changes nothing. Only that direction's timer fields change |
| Poll.Unblock | poll.go:248-275 | pollErr becomes pollErr or pollerr. The state becomes ready iff ioready and is otherwise unchanged. A notification is queued iff the old state was wait, and a full slot drops it. Any mode other than ModeWrite acts on the read side. The other side is unchanged |
| Poll.Reset | poll.go:277-287 | ModeRead and ModeWrite put their own state to default and touch nothing else. Every other mode changes nothing. checkPollErr's verdict is unchanged |
| Poll.WaitBegin | poll.go:104-141 | an error from checkPollErr is returned at once. Otherwise a ready state returns nil without suspending. A default state becomes wait and suspends with the captured timerSeq. A wait state spins. For ModeRead and ModeWrite every return leaves the direction's state default. On an early error, modes 0 and 3 leave the descriptor unchanged. Only the mode's side changes, and closing, pollErr and fd are kept |
| Poll.OnUnblock | poll.go:145-148 | a receive on an empty slot blocks. A full slot is emptied, and wait returns checkPollErr's verdict. Apart from the slot, only the reset touches the side: its state becomes default for ModeRead and ModeWrite and stays for modes 0 and 3. The other side, closing, pollErr and fd are unchanged |
| Poll.OnExpiry | poll.go:149-170 | a captured timerSeq equal to the counter sets the deadline to -1 and returns Timeout, or Closed when closing. A different one refreshes timerSeq from the shadow and stays suspended. Modes 0 and 3 stay suspended. A waiter that stays suspended has only taken the timer's value, so deadline, state, slot, timer and counters stay. A returning one also changed only the deadline and the state, which becomes default. The other side, closing, pollErr and fd are unchanged |
| Poll.Run | poll.go:143-173 | the suspended waiter never spins and keeps its mode. Whenever it returns, the error is checkPollErr's verdict on the final state, and for ModeRead and ModeWrite the state is default. closing and pollErr stay set |
| Poll.Wait | poll.go:104-174 | a whole wait. An early error is returned unchanged, and a ready state returns nil. A return carries checkPollErr's verdict on the final state, with the state reset. On a closing descriptor, the only answer is Closed |
| Poll.SideOf | poll.go:254-259 | unblock, wait and a timer act on the write side for ModeWrite and on the read side for every other mode |
| Poll.TimedOut | poll.go:193 | a mode has timed out iff it is ModeRead or ModeWrite and its side's deadline is negative |
| Poll.DeadlineNs | poll.go:207-213 | the stored deadline is 0 exactly for the zero time, -1 when no time remains, and otherwise the remaining nanoseconds |
| Poll.DeadlineLeg | poll.go:214-228 | one leg bumps the counter and sets the shadow to it, and stores the deadline. The timer runs afterwards iff the deadline is positive, or it ran and guarded no positive deadline, since Stop runs only for a positive old deadline. A notification is queued iff the deadline is negative and the state was wait. State and the buffered timer value are unchanged |
| Poll.CapturedSeq | poll.go:113-122 | wait captures rtSeq for ModeRead, wtSeq for ModeWrite and 0 for other modes. Under Inv the capture never runs ahead of the counter |
| Poll.Finish | poll.go:171-173 | leaving wait returns checkPollErr's verdict, taken before the deferred reset, which leaves it unchanged. Only states change: ModeRead and ModeWrite end in default with the other direction unchanged, and other modes change nothing |
| Poll.OnEvent | poll.go:145-170 | one turn of the select never spins and keeps the waiter's mode. A return carries checkPollErr's verdict on the new state, the state reset for ModeRead and ModeWrite. closing, pollErr and Inv are kept |
| PollDescriptor.PollDesc.constructor | poll.go:64-76 | the new object's fields are Poll.NewDesc |
| PollDescriptor.PollDescInit | poll.go:78-92 | on a fresh or a pooled descriptor, the in-place update equals Poll.Init of its old fields |
| PollDescriptor.PollDesc.Release | poll.go:94-102 | the in-place update equals Poll.Release. The result flag is true exactly where the source panics, and then nothing changes |
| PollDescriptor.PollDesc.Close | poll.go:176-184 | the in-place update equals Poll.Close |
| PollDescriptor.PollDesc.CheckPollErr | poll.go:186-202 | returns Poll.CheckPollErr of the current fields and changes nothing |
| PollDescriptor.PollDesc.SetDeadline | poll.go:204-246 | the in-place update equals Poll.SetDeadline |
| PollDescriptor.PollDesc.ReadLeg | poll.go:214-229 | the read leg changes only the read side, to Poll.DeadlineLeg of it |
| PollDescriptor.PollDesc.WriteLeg | poll.go:230-245 | the write leg changes only the write side, to Poll.DeadlineLeg of it |
| PollDescriptor.PollDesc.Unblock | poll.go:248-275 | the in-place update equals Poll.Unblock |
| PollDescriptor.PollDesc.Reset | poll.go:277-287 | the in-place update equals Poll.Reset |
| PollDescriptor.PollDesc.TimerFire | poll.go:111-125 | the in-place update equals Poll.TimerFire |
| PollDescriptor.PollDesc.Finish | poll.go:106-109 | checkPollErr's verdict, then the deferred reset, as in Poll.Finish |
| PollDescriptor.PollDesc.WaitBegin | poll.go:104-141 | the in-place steps up to suspension equal Poll.WaitBegin |
| PollDescriptor.PollDesc.OnUnblock | poll.go:145-148 | equals Poll.OnUnblock |
| PollDescriptor.PollDesc.OnExpiry | poll.go:149-170 | equals Poll.OnExpiry |
| PollDescriptor.PollDesc.OnEvent | poll.go:145-170 | one turn of the select in place, or another goroutine's action, equals Poll.OnEvent |
| PollDescriptor.PollDesc.Wait | poll.go:104-174 | the CAS step and the select loop, run over the events, equal Poll.Wait |
| Transport.Normalize | read.go:25-38 | n is never negative. err is non-nil iff the native return is negative, and then n is 0 and err is the SRT error number. Otherwise the return passes through with nil. srtSendMsg2Impl (write.go:24-37) maps the same way |
| Transport.IsErrnoExact | read.go:51 | errors.Is(err, code) holds exactly for the SRT error with that number, as at read.go:88 and write.go:51 |
| Transport.SystemErrorDropped | read.go:30-34 | the system error of a failed call has no effect on (n, err), because wrapSysErr's result is discarded |
| Retry.WaitIn | read.go:55 | one call of wait, after what other goroutines do first. On a closing descriptor it can only return Closed, and a return carries checkPollErr's verdict on the new state. write.go:56 is the same call with ModeWrite |
| Socket.WaitWith | read.go:55-59 | one call of wait, after what other goroutines do first, equals Retry.WaitIn |
| Retry.RetryLoop | read.go:50-62 | a result that is not would-block, or any result on a blocking socket, ends the loop at once with that (n, err). Each turn makes at most one call and one wait. A stalled run has not returned. A returned error that is not the wait's is not would-block unless the socket blocks |
| Retry.Retry | read.go:41-63 | a blocking socket makes one call, returns its result and leaves the descriptor alone. A non-blocking one resets its state first and returns a first result that is not would-block at once. With no call made nothing is returned. write.go:40-62 is the same loop with ModeWrite and EAsyncSND |
| Retry.RetryLoopFacts | read.go:50-62 | from any point of the loop, the exit and propagation rules of Retry.RetryFacts hold for the outcome, in both directions |
| Retry.RetryLoopWaits | read.go:50-62 | from any point of the loop, entered where the earlier waits, all returning nil, left the descriptor, the run obeys Retry.WaitFacts: a returned wait error is the error of the last wait and checkPollErr's verdict on the final descriptor, and the run stalls exactly when that wait is still blocked |
| Retry.RetryWaits | read.go:41-63 | the waits decide how Read and Write end, Retry.WaitFacts. Every wait but a last one returned nil, each entered where the previous one left the descriptor. The run stalled exactly when the last wait is still blocked. Otherwise the last wait failed, and its error is the one returned, which is checkPollErr's verdict on the final descriptor. The final descriptor is where the last wait left it |
| Retry.RetryOutcome | read.go:41-63 | Read and Write obey the following on every history. Every call but the last would block, on a non-blocking socket, so the first result that is not would-block ends the loop. A returned result other than a wait error is the last call's (n, err) unchanged, and it is not would-block or the socket blocks. A wait error is returned with the n = 0 of the would-block call, after as many waits as calls. Calls equal successful waits plus one. A run that has not returned has a would-block last call on a non-blocking socket, and every wait before the last returned nil. It stopped only because its last wait is still blocked, the scripts ran out, or the calls ran out. So a result that is not would-block, and a failed wait, always end the loop. A blocking socket never waits |
| Retry.FastPathDropsEarlierReadiness | read.go:43-46 | readiness recorded before the call is cleared by the fast-path reset, so after a would-block result the wait suspends instead of returning |
| Retry.ReadinessBeforeWaitRetries | read.go:55-61 | readiness announced between the would-block call and the wait makes wait return nil without suspending, and the next call's result is returned |
| Retry.PacketLoop | read.go:87-104 | the loop exits only with an error of wait. Each turn makes at most one call and one wait. With no wait left, the packet is as the copy check leaves it |
| Retry.ReadPacket | read.go:74-105 | ReadPacket returns only a wait error and makes no more calls than supplied. With no call made, nothing is returned and the packet is unchanged |
| Retry.CopiesExact | read.go:88 | the copy check passes iff the socket blocks or the result is not the EAsyncRCV error |
| Retry.Delivered | read.go:88-93 | the packet holds its old contents or the message control of a receive that passed the copy check. It keeps its old contents when none did |
| Retry.PacketLoopFacts | read.go:87-104 | from any point of ReadPacket's loop, the rules of Retry.PacketFacts hold. The packet ends up holding the message control of the last receive that was not would-block (or of any receive on a blocking socket), as Retry.Delivered defines it. Which wait error is returned is stated by Retry.PacketLoopWaits |
| Retry.PacketLoopWaits | read.go:95-104 | from any point of ReadPacket's loop, Retry.WaitFacts holds: the returned error is the one the failing wait returned, checkPollErr's verdict on the final descriptor, and the run stalls exactly when its last wait is still blocked |
| Retry.ReadPacketOutcome | read.go:74-105 | ReadPacket returns only on a wait error, after as many waits as receives. The return carries the n of the last receive with the wait's error, so a successful receive is never returned on its own. A run that has not returned stopped only because its last wait is still blocked or the history ran out, with every earlier wait returning nil, so a failed wait always ends the loop |
| Retry.ReadPacketWaits | read.go:74-105 | Retry.WaitFacts for ReadPacket. It returns the error of the wait that failed, which is checkPollErr's verdict on the final descriptor, and it stalls exactly when its last wait is still blocked |
| Read.SrtPacket.Store | read.go:88-93 | when the copy check passes, the packet's three out-fields become the message control. Otherwise the packet is unchanged |
| Read.Read | read.go:41-63 | the loop over the supplied history equals Retry.Retry with ModeRead and EAsyncRCV. The outcome satisfies Retry.RetryFacts, and the run satisfies Retry.WaitFacts |
| Read.ReadPacket | read.go:74-105 | the loop over the supplied history equals Retry.ReadPacket. Both the descriptor's new fields and the packet's are stated. Retry.ReadPacketOutcome and Retry.ReadPacketWaits state the exit rules and the wait facts for that function |
| Write.Write | write.go:40-62 | the loop over the supplied history equals Retry.Retry with ModeWrite and EAsyncSND. The outcome satisfies Retry.RetryFacts, and the run satisfies Retry.WaitFacts |
| PollLemmas.ActionKeepsTiming | poll.go:248-275 | notifications, close, timer firings and resets never move a direction's deadline, counter or shadow. Only setDeadline does |
| PollLemmas.StaleRun | poll.go:149-170 | a waiter whose captured sequence lags its counter takes every expiry as stale, as long as no setDeadline reaches its side. The deadline, counter and shadow survive and the lag persists |
| PollLemmas.InitMakesEarlierExpiriesStale | poll.go:78-92 | after pollDescInit, and until the next setDeadline on that side, a wait never times out if the deadline had not passed. The deadline is left as it was |
| PollLemmas.DeadlineThenTimeout | poll.go:149-157 | a positive deadline, its timer firing and the expiry end the wait with Timeout and the deadline at -1 |
| PollLemmas.BufferedFireOutlivesZeroDeadline | poll.go:214-220 | a timer value buffered before setDeadline(zero time) passes the guard of the next wait, which times out although the stored deadline is 0 |
| PollLemmas.OneHourTimerFiresThroughZeroDeadline | poll.go:69-73 | on a new descriptor, setDeadline(zero time) leaves the one-hour timer running. Its expiry passes the guard, and the wait times out with the deadline at 0 |
| PollLemmas.ReadinessBeforeWaitIsNotMissed | poll.go:260-264 | readiness announced while nobody waits makes the next wait return nil at once |
| PollLemmas.NotificationWithoutWaiterIsLost | poll.go:266-274 | a notification without readiness while nobody waits is dropped, so the next wait stays suspended |
| PollLemmas.CloseDoesNotWakeWaiter | poll.go:176-184 | close alone does not end a suspended wait. The next notification does, and the wait reports Closed |

## Left out

- Concurrency: `lock`, `rdLock`, `wrLock`, the atomics, and goroutines
  blocking in `select`.
  - Each operation is one atomic step; what other goroutines do is an
    explicit event.
  - Another goroutine's fast-path `reset` (read.go:44, read.go:77, write.go:44) is one of
    these events. It can change the read state under a waiter in mode 0 or 3,
    which holds no `rdLock`.
  - The compare-and-swap loop of `wait` is one step. When it finds the state
    already at wait, it is reported as spinning, which ends that wait in the
    model.
- Poll.SetDeadline: only the state effect of the `unblock` call on the
  d < 0 path is modelled.
  - In the source, that call re-locks `pd.lock` (poll.go:260), which
    `setDeadline` already holds since poll.go:205, so the goroutine would
    deadlock there.
  - PollDescriptor.PollDesc.SetDeadline likewise.
- Real time and `time.Timer`.
  - `time.Until(t)` and `t.IsZero()` are inputs.
  - A timer is a running flag plus a flag for a value waiting in its channel.
  - `Stop` and `Reset` do not drain the channel, as timers did before Go 1.23.
  - The one-hour timers of the pool's `New` are just running timers.
- `sync.Pool`: `PollDescInit` takes either nothing, for a fresh descriptor,
  or any existing descriptor.
  - The model does not tie a pooled descriptor to the state `release` left it
    in.
  - Its contract holds for every old state.
- The poll server (`pollServerCtx`, `pollOpen`, `pollClose`) is not part of
  this model. In particular, `close` wakes no waiter here.
- The native calls `srt_recvmsg2`, `srt_sendmsg2` and `srt_getlasterror` are
  an oracle: a supplied sequence of (return, SRT error, system error).
  - `srt_msgctrl_init` and what the native receive leaves in the message
    control are also supplied, one per receive.
  - The error is the bare `SRTErrno` value. The system error is dropped,
    since the value `wrapSysErr` returns is discarded at read.go:32 and
    write.go:31.
  - errors.go, which defines `SRTErrno` and `wrapSysErr`, is not part of this
    model.
  - `errors.Is(err, EAsyncRCV)` is taken to compare the SRT error number.
- Buffers and their contents, `unsafe.Pointer`, and `SrtPacket.Buffer`.
- The `fmt` debug output.
- Integer widths.
  - The sequence counters and deadlines (`int64`) are unbounded integers, so
    counter wrap-around is not modelled.
  - The packet's `int32`/`int64` copies of the message control fields are
    taken as exact.
- Read.ReadPacket: its contract ties the result to Retry.ReadPacket only.
  - Retry.PacketFacts and Retry.WaitFacts are stated for that function, by
    Retry.ReadPacketOutcome and Retry.ReadPacketWaits, rather than restated
    on the method.
- Histories: a retry loop or a wait whose supplied history runs out is
  reported as not returned.
  - A retry loop whose last wait is still blocked is reported as stalled.
  - The model says nothing about what either does afterwards.
