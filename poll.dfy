/**
 * The per-socket poll descriptor (pollDesc) of the SRT binding, as a state
 * machine on values. Every function below is one operation of the descriptor
 * taken as a single atomic step: the descriptor's mutexes and atomics collapse
 * into that step, the remaining time of a deadline is an integer input, and the
 * things a suspended waiter reacts to (a notification on its unblock channel, a
 * value on its timer's channel) are explicit events.
 */
module Poll {
  import opened Wrappers

  /** PollMode of the binding. The raw integers matter: setDeadline tests for
      ModeRead + ModeWrite (3), and every mode other than ModeWrite falls to the
      read side in unblock and wait. */
  type PollMode = int

  const Blah: PollMode := 0
  const ModeWrite: PollMode := 1
  const ModeRead: PollMode := 2

  /** pollDefault, pollReady and pollWait. */
  datatype PollState = PollDefault | PollReady | PollWait

  /** SrtSocketClosed and SrtEpollTimeout, the two errors the descriptor produces. */
  datatype PollError = SrtSocketClosed | SrtEpollTimeout

  /** One direction of a descriptor: the rd... or the wr... fields. */
  datatype Side = Side(
    state: PollState,  // rdState / wrState
    deadline: int,     // rdDeadline / wdDeadline: 0 none, negative timed out, else nanoseconds
    seqNo: int,        // rdSeq / wdSeq
    shadowSeq: int,    // rtSeq / wtSeq, the shadow a waiter captures
    pending: bool,     // the single slot of unblockRd / unblockWr is full
    armed: bool,       // rdTimer / wdTimer is running
    fired: bool)       // a fired timer's value sits in its channel

  datatype Desc = Desc(closing: bool, fd: int, pollErr: bool, rd: Side, wr: Side)

  /** The shadow counter never runs ahead of its sequence counter. */
  predicate Inv(d: Desc)
  {
    d.rd.shadowSeq <= d.rd.seqNo && d.wr.shadowSeq <= d.wr.seqNo
  }

  /** The side that unblock, wait and a timer act on: the write side for
      ModeWrite, the read side for every other mode. */
  function SideOf(d: Desc, mode: PollMode): (s: Side)
    ensures mode == ModeWrite ==> s == d.wr
    ensures mode != ModeWrite ==> s == d.rd
  {
    if mode == ModeWrite then d.wr else d.rd
  }

  function WithSide(d: Desc, mode: PollMode, s: Side): (r: Desc)
    ensures SideOf(r, mode) == s
    ensures r.closing == d.closing && r.pollErr == d.pollErr && r.fd == d.fd
    ensures mode == ModeWrite ==> r.rd == d.rd
    ensures mode != ModeWrite ==> r.wr == d.wr
  {
    if mode == ModeWrite then d.(wr := s) else d.(rd := s)
  }

  /** a and b differ at most in the two directions' states. */
  predicate StatesOnly(a: Desc, b: Desc)
  {
    a.closing == b.closing && a.fd == b.fd && a.pollErr == b.pollErr &&
    a.rd.(state := b.rd.state) == b.rd && a.wr.(state := b.wr.state) == b.wr
  }

  /** The deadline, sequence and timer part of a side. */
  predicate SameTiming(a: Side, b: Side)
  {
    a.deadline == b.deadline && a.seqNo == b.seqNo && a.shadowSeq == b.shadowSeq &&
    a.armed == b.armed && a.fired == b.fired
  }

  // ---------------------------------------------------------------------------
  // Life cycle

  /** A descriptor as the pool's New builds it: empty unblock channels and both
      timers running (the one-hour timers), everything else zero. */
  function NewDesc(): (d: Desc)
    ensures Inv(d) && !d.closing && !d.pollErr
    ensures !d.rd.pending && !d.wr.pending && d.rd.armed && d.wr.armed
  {
    var s := Side(PollDefault, 0, 0, 0, false, true, false);
    Desc(false, 0, false, s, s)
  }

  /** pollDescInit on a descriptor taken from the pool (fresh or recycled). */
  function Init(d: Desc, s: int): (r: Desc)
    ensures r.fd == s && !r.closing && !r.pollErr
    ensures r.rd.state == PollDefault && r.wr.state == PollDefault
    ensures r.rd.seqNo == d.rd.seqNo + 1 && r.wr.seqNo == d.wr.seqNo + 1
    ensures r.rd.shadowSeq == d.rd.shadowSeq && r.wr.shadowSeq == d.wr.shadowSeq
    ensures r.rd.deadline == d.rd.deadline && r.wr.deadline == d.wr.deadline
    ensures r.rd.pending == d.rd.pending && r.wr.pending == d.wr.pending
    ensures r.rd.armed == d.rd.armed && r.wr.armed == d.wr.armed
    ensures r.rd.fired == d.rd.fired && r.wr.fired == d.wr.fired
    // a waiter captures the shadow, so before the next setDeadline every
    // expiry it sees fails the sequence guard
    ensures Inv(d) ==> Inv(r) && r.rd.shadowSeq < r.rd.seqNo && r.wr.shadowSeq < r.wr.seqNo
  {
    d.(fd := s, closing := false, pollErr := false,
       rd := d.rd.(state := PollDefault, seqNo := d.rd.seqNo + 1),
       wr := d.wr.(state := PollDefault, seqNo := d.wr.seqNo + 1))
  }

  /** release: the new state, or None where the source panics. */
  function Release(d: Desc): (r: Option<Desc>)
    ensures r.None? <==> !d.closing || d.rd.state == PollWait || d.wr.state == PollWait
    ensures r.Some? ==> r.value.fd == 0 && r.value.(fd := d.fd) == d
  {
    if !d.closing || d.rd.state == PollWait || d.wr.state == PollWait then None
    else Some(d.(fd := 0))
  }

  /** close (the poll server's deregistration is not part of this model). */
  function Close(d: Desc): (r: Desc)
    ensures r.closing && r.(closing := d.closing) == d
    ensures d.closing ==> r == d
    ensures forall mode :: CheckPollErr(r, mode) == Some(SrtSocketClosed)
  {
    if d.closing then d else d.(closing := true)
  }

  // ---------------------------------------------------------------------------
  // Errors

  /** The mode names a direction whose deadline has passed (modes 0 and 3 never do). */
  predicate TimedOut(d: Desc, mode: PollMode)
    ensures TimedOut(d, mode) <==> (mode == ModeRead || mode == ModeWrite) && SideOf(d, mode).deadline < 0
  {
    (mode == ModeRead && d.rd.deadline < 0) || (mode == ModeWrite && d.wr.deadline < 0)
  }

  /** checkPollErr: closing first, then an elapsed deadline, then the sticky error. */
  function CheckPollErr(d: Desc, mode: PollMode): (r: Option<PollError>)
    ensures d.closing ==> r == Some(SrtSocketClosed)
    ensures r == Some(SrtEpollTimeout) <==> !d.closing && TimedOut(d, mode)
    ensures r == None <==> !d.closing && !TimedOut(d, mode) && !d.pollErr
    ensures mode != ModeRead && mode != ModeWrite ==> r != Some(SrtEpollTimeout)
  {
    if d.closing then Some(SrtSocketClosed)
    else if (mode == ModeRead && d.rd.deadline < 0) || (mode == ModeWrite && d.wr.deadline < 0) then
      Some(SrtEpollTimeout)
    else if d.pollErr then Some(SrtSocketClosed)
    else None
  }

  // ---------------------------------------------------------------------------
  // Deadlines

  predicate TouchesRead(mode: PollMode) { mode == ModeRead || mode == ModeRead + ModeWrite }

  predicate TouchesWrite(mode: PollMode) { mode == ModeWrite || mode == ModeRead + ModeWrite }

  /** The stored deadline: 0 for the zero time, -1 when exactly no time
      remains, otherwise the remaining nanoseconds (negative when past). */
  function DeadlineNs(zero: bool, until: int): (dl: int)
    ensures dl == 0 <==> zero
    ensures !zero && until != 0 ==> dl == until
    ensures !zero && until == 0 ==> dl == -1
  {
    if zero then 0 else if until == 0 then -1 else until
  }

  /** One leg of setDeadline on one side: bump the counter and its shadow,
      stop the timer if it guarded a positive deadline, store the deadline,
      re-arm the timer for a positive one, and for a negative one run
      unblock(side, false, false). */
  function DeadlineLeg(s: Side, dl: int): (r: Side)
    ensures r.seqNo == s.seqNo + 1 && r.shadowSeq == r.seqNo && r.deadline == dl
    // the timer runs iff it guards a positive deadline, or it ran and guarded none
    ensures r.armed <==> dl > 0 || (s.armed && s.deadline <= 0)
    // a deadline already passed wakes a waiter, through unblock(mode, false, false)
    ensures r.pending <==> s.pending || (dl < 0 && s.state == PollWait)
    ensures r.state == s.state && r.fired == s.fired
  {
    var armed := if dl > 0 then true else if s.deadline > 0 then false else s.armed;
    s.(seqNo := s.seqNo + 1, shadowSeq := s.seqNo + 1, deadline := dl, armed := armed,
       pending := s.pending || (dl < 0 && s.state == PollWait))
  }

  /** What one leg of setDeadline(zero/until) does to a side o, leaving n. */
  predicate LegEffect(o: Side, n: Side, zero: bool, until: int)
  {
    && n.seqNo == o.seqNo + 1 && n.shadowSeq == n.seqNo
    && (zero ==> n.deadline == 0)
    && (!zero && until == 0 ==> n.deadline == -1)
    && (!zero && until != 0 ==> n.deadline == until)
    && (n.deadline > 0 ==> n.armed)
    && (n.deadline <= 0 ==> n.armed == (o.armed && o.deadline <= 0))
    && n.pending == (o.pending || (n.deadline < 0 && o.state == PollWait))
    && n.state == o.state && n.fired == o.fired
  }

  /** setDeadline(t, mode); zero says t is the zero time, until is time.Until(t). */
  function SetDeadline(d: Desc, mode: PollMode, zero: bool, until: int): (r: Desc)
    ensures r.closing == d.closing && r.pollErr == d.pollErr && r.fd == d.fd
    ensures TouchesRead(mode) ==> LegEffect(d.rd, r.rd, zero, until)
    ensures !TouchesRead(mode) ==> r.rd == d.rd
    ensures TouchesWrite(mode) ==> LegEffect(d.wr, r.wr, zero, until)
    ensures !TouchesWrite(mode) ==> r.wr == d.wr
    ensures Inv(d) ==> Inv(r)
    // the zero time clears a deadline that had timed out
    ensures zero && TouchesRead(mode) ==> CheckPollErr(r, ModeRead) != Some(SrtEpollTimeout)
    ensures zero && TouchesWrite(mode) ==> CheckPollErr(r, ModeWrite) != Some(SrtEpollTimeout)
  {
    var dl := DeadlineNs(zero, until);
    var d1 := if mode == ModeRead || mode == ModeRead + ModeWrite then d.(rd := DeadlineLeg(d.rd, dl)) else d;
    if mode == ModeWrite || mode == ModeRead + ModeWrite then d1.(wr := DeadlineLeg(d1.wr, dl)) else d1
  }

  /** A running timer fires: its value lands in the timer's channel. */
  function TimerFire(d: Desc, mode: PollMode): (r: Desc)
    ensures SideOf(d, mode).armed ==> !SideOf(r, mode).armed && SideOf(r, mode).fired
    ensures SideOf(r, mode).(armed := SideOf(d, mode).armed, fired := SideOf(d, mode).fired) == SideOf(d, mode)
    ensures !SideOf(d, mode).armed ==> r == d
    ensures r.closing == d.closing && r.pollErr == d.pollErr && r.fd == d.fd
    ensures mode == ModeWrite ==> r.rd == d.rd
    ensures mode != ModeWrite ==> r.wr == d.wr
  {
    var s := SideOf(d, mode);
    if s.armed then WithSide(d, mode, s.(armed := false, fired := true)) else d
  }

  // ---------------------------------------------------------------------------
  // Notification and reset

  /** unblock(mode, pollerr, ioready), called by the poll server. */
  function Unblock(d: Desc, mode: PollMode, pollerr: bool, ioready: bool): (r: Desc)
    ensures r.pollErr == (d.pollErr || pollerr)
    ensures r.closing == d.closing && r.fd == d.fd
    ensures SideOf(r, mode).state == (if ioready then PollReady else SideOf(d, mode).state)
    // a notification is queued only for a waiter; a full slot drops it
    ensures SideOf(r, mode).pending == (SideOf(d, mode).pending || SideOf(d, mode).state == PollWait)
    ensures SameTiming(SideOf(r, mode), SideOf(d, mode))
    ensures mode == ModeWrite ==> r.rd == d.rd
    ensures mode != ModeWrite ==> r.wr == d.wr
    ensures Inv(d) ==> Inv(r)
  {
    var d1 := if pollerr then d.(pollErr := pollerr) else d;
    var s := SideOf(d1, mode);
    var was := s.state;
    WithSide(d1, mode, s.(state := if ioready then PollReady else s.state,
                          pending := s.pending || was == PollWait))
  }

  /** reset(mode): only ModeRead and ModeWrite touch a state. */
  function Reset(d: Desc, mode: PollMode): (r: Desc)
    ensures mode == ModeRead ==> r.rd.state == PollDefault && r.wr == d.wr
    ensures mode == ModeWrite ==> r.wr.state == PollDefault && r.rd == d.rd
    ensures mode != ModeRead && mode != ModeWrite ==> r == d
    ensures StatesOnly(d, r)
    ensures forall m :: CheckPollErr(r, m) == CheckPollErr(d, m)
  {
    if mode == ModeRead then d.(rd := d.rd.(state := PollDefault))
    else if mode == ModeWrite then d.(wr := d.wr.(state := PollDefault))
    else d
  }

  // ---------------------------------------------------------------------------
  // What other goroutines do meanwhile

  datatype Action =
    | Notify(mode: PollMode, pollerr: bool, ioready: bool)  // the poll server calls unblock
    | SetDeadlineAt(mode: PollMode, zero: bool, until: int) // a caller sets a deadline
    | CloseDesc                                             // the socket is closed
    | TimerFires(mode: PollMode)                            // the runtime fires a timer
    | ResetState(mode: PollMode)                            // another Read's or Write's fast-path reset

  function Apply(d: Desc, a: Action): (r: Desc)
    ensures d.closing ==> r.closing
    ensures d.pollErr ==> r.pollErr
    ensures Inv(d) ==> Inv(r)
  {
    match a
    case Notify(mode, pollerr, ioready) => Unblock(d, mode, pollerr, ioready)
    case SetDeadlineAt(mode, zero, until) => SetDeadline(d, mode, zero, until)
    case CloseDesc => Close(d)
    case TimerFires(mode) => TimerFire(d, mode)
    case ResetState(mode) => Reset(d, mode)
  }

  function ApplyAll(d: Desc, acts: seq<Action>): (r: Desc)
    ensures d.closing ==> r.closing
    ensures d.pollErr ==> r.pollErr
    ensures Inv(d) ==> Inv(r)
    decreases |acts|
  {
    if acts == [] then d else ApplyAll(Apply(d, acts[0]), acts[1..])
  }

  // ---------------------------------------------------------------------------
  // wait, split into its atomic steps

  /** The locals of a suspended wait: its mode and the captured timerSeq. */
  datatype Waiter = Waiter(mode: PollMode, timerSeq: int)

  /** Suspended: blocked in the select; Returned: wait came back with err;
      Spinning: the compare-and-swap loop found pollWait and cannot leave it
      within the step (it retries holding pd.lock). */
  datatype WaitStatus = Suspended(w: Waiter) | Returned(err: Option<PollError>) | Spinning

  datatype WaitStep = WaitStep(desc: Desc, status: WaitStatus)

  /** What a suspended waiter meets: another goroutine's action, a receive on
      its unblock channel, or a receive on its timer's channel. A receive from
      an empty channel is not possible and leaves everything as it was. */
  datatype Event = Act(a: Action) | Receive | Expire

  /** The timerSeq wait captures: rtSeq, wtSeq, or 0 for the other modes. */
  function CapturedSeq(d: Desc, mode: PollMode): (r: int)
    ensures mode == ModeRead || mode == ModeWrite ==> r == SideOf(d, mode).shadowSeq
    ensures mode != ModeRead && mode != ModeWrite ==> r == 0
    // taken when Inv holds, it never runs ahead of the counter the guard compares with
    ensures Inv(d) && (mode == ModeRead || mode == ModeWrite) ==> r <= SideOf(d, mode).seqNo
  {
    if mode == ModeRead then d.rd.shadowSeq else if mode == ModeWrite then d.wr.shadowSeq else 0
  }

  /** Leaving wait: checkPollErr's verdict, then the deferred reset. */
  function Finish(d: Desc, mode: PollMode): (r: WaitStep)
    // the verdict is taken before the reset, which does not change it
    ensures r.status == Returned(CheckPollErr(d, mode)) && r.status.err == CheckPollErr(r.desc, mode)
    ensures StatesOnly(d, r.desc)
    ensures mode == ModeRead || mode == ModeWrite ==> SideOf(r.desc, mode).state == PollDefault
    ensures mode == ModeWrite ==> r.desc.rd == d.rd
    ensures mode != ModeWrite ==> r.desc.wr == d.wr
    ensures mode != ModeRead && mode != ModeWrite ==> r.desc == d
  {
    WaitStep(Reset(d, mode), Returned(CheckPollErr(d, mode)))
  }

  /** wait up to suspension: the early check, the Ready fast path, Default to Wait. */
  function WaitBegin(d: Desc, mode: PollMode): (r: WaitStep)
    ensures CheckPollErr(d, mode).Some? ==>
              r.status == Returned(CheckPollErr(d, mode)) && StatesOnly(d, r.desc)
    // modes 0 and 3 have no state to reset
    ensures CheckPollErr(d, mode).Some? && mode != ModeRead && mode != ModeWrite ==> r.desc == d
    ensures CheckPollErr(d, mode).None? && SideOf(d, mode).state == PollReady ==>
              r.status == Returned(None) && SideOf(r.desc, mode).state == PollDefault && StatesOnly(d, r.desc)
    ensures CheckPollErr(d, mode).None? && SideOf(d, mode).state == PollDefault ==>
              r.status == Suspended(Waiter(mode, CapturedSeq(d, mode))) &&
              r.desc == WithSide(d, mode, SideOf(d, mode).(state := PollWait))
    ensures CheckPollErr(d, mode).None? && SideOf(d, mode).state == PollWait ==> r == WaitStep(d, Spinning)
    // the deferred reset runs on every return
    ensures r.status.Returned? && (mode == ModeRead || mode == ModeWrite) ==> SideOf(r.desc, mode).state == PollDefault
    // only mode's side changes
    ensures r.desc.closing == d.closing && r.desc.pollErr == d.pollErr && r.desc.fd == d.fd
    ensures mode == ModeWrite ==> r.desc.rd == d.rd
    ensures mode != ModeWrite ==> r.desc.wr == d.wr
  {
    var err := CheckPollErr(d, mode);
    if err.Some? then WaitStep(Reset(d, mode), Returned(err))
    else
      var s := SideOf(d, mode);
      if s.state == PollReady then WaitStep(Reset(WithSide(d, mode, s.(state := PollDefault)), mode), Returned(None))
      else if s.state == PollDefault then WaitStep(WithSide(d, mode, s.(state := PollWait)), Suspended(Waiter(mode, CapturedSeq(d, mode))))
      else WaitStep(d, Spinning)
  }

  /** The select takes the unblock channel. */
  function OnUnblock(d: Desc, w: Waiter): (r: WaitStep)
    ensures !SideOf(d, w.mode).pending ==> r == WaitStep(d, Suspended(w))
    ensures SideOf(d, w.mode).pending ==>
              r.status == Returned(CheckPollErr(d, w.mode)) && !SideOf(r.desc, w.mode).pending &&
              SameTiming(SideOf(r.desc, w.mode), SideOf(d, w.mode))
    ensures r.status.Returned? && (w.mode == ModeRead || w.mode == ModeWrite) ==> SideOf(r.desc, w.mode).state == PollDefault
    // taking the notification empties the slot; only the reset touches the state
    ensures SideOf(r.desc, w.mode).(pending := SideOf(d, w.mode).pending, state := SideOf(d, w.mode).state) == SideOf(d, w.mode)
    ensures w.mode != ModeRead && w.mode != ModeWrite ==> SideOf(r.desc, w.mode).state == SideOf(d, w.mode).state
    ensures r.desc.closing == d.closing && r.desc.pollErr == d.pollErr && r.desc.fd == d.fd
    ensures w.mode == ModeWrite ==> r.desc.rd == d.rd
    ensures w.mode != ModeWrite ==> r.desc.wr == d.wr
  {
    var s := SideOf(d, w.mode);
    if !s.pending then WaitStep(d, Suspended(w))
    else Finish(WithSide(d, w.mode, s.(pending := false)), w.mode)
  }

  /** The select takes the timer channel: the sequence guard. */
  function OnExpiry(d: Desc, w: Waiter): (r: WaitStep)
    ensures !SideOf(d, w.mode).fired ==> r == WaitStep(d, Suspended(w))
    ensures SideOf(d, w.mode).fired ==> !SideOf(r.desc, w.mode).fired
    // a genuine expiry: the deadline becomes -1 and wait reports it
    ensures SideOf(d, w.mode).fired && (w.mode == ModeRead || w.mode == ModeWrite) && w.timerSeq == SideOf(d, w.mode).seqNo ==>
              SideOf(r.desc, w.mode).deadline == -1 &&
              r.status == Returned(if d.closing then Some(SrtSocketClosed) else Some(SrtEpollTimeout))
    // a stale one: the deadline stays, the captured sequence is refreshed from the shadow
    ensures SideOf(d, w.mode).fired && (w.mode == ModeRead || w.mode == ModeWrite) && w.timerSeq != SideOf(d, w.mode).seqNo ==>
              SideOf(r.desc, w.mode).deadline == SideOf(d, w.mode).deadline &&
              r.status == Suspended(w.(timerSeq := SideOf(d, w.mode).shadowSeq))
    ensures w.mode != ModeRead && w.mode != ModeWrite ==> r.status == Suspended(w)
    // a waiter that stays suspended has only consumed the timer's value
    ensures r.status.Suspended? ==> SideOf(r.desc, w.mode).(fired := SideOf(d, w.mode).fired) == SideOf(d, w.mode)
    // a returning one also set the deadline to -1 and reset the state
    ensures r.status.Returned? ==>
              SideOf(r.desc, w.mode).(fired := true, deadline := SideOf(d, w.mode).deadline, state := SideOf(d, w.mode).state)
              == SideOf(d, w.mode) && SideOf(r.desc, w.mode).state == PollDefault
    ensures r.desc.closing == d.closing && r.desc.pollErr == d.pollErr && r.desc.fd == d.fd
    ensures w.mode == ModeWrite ==> r.desc.rd == d.rd
    ensures w.mode != ModeWrite ==> r.desc.wr == d.wr
  {
    var s := SideOf(d, w.mode);
    if !s.fired then WaitStep(d, Suspended(w))
    else
      var s1 := s.(fired := false);
      if (w.mode == ModeRead || w.mode == ModeWrite) && w.timerSeq == s.seqNo then
        Finish(WithSide(d, w.mode, s1.(deadline := -1)), w.mode)
      else if w.mode == ModeRead || w.mode == ModeWrite then
        WaitStep(WithSide(d, w.mode, s1), Suspended(w.(timerSeq := s.shadowSeq)))
      else
        WaitStep(WithSide(d, w.mode, s1), Suspended(w))
  }

  function OnEvent(d: Desc, w: Waiter, e: Event): (r: WaitStep)
    ensures !r.status.Spinning?
    ensures d.closing ==> r.desc.closing
    ensures d.pollErr ==> r.desc.pollErr
    ensures Inv(d) ==> Inv(r.desc)
    ensures r.status.Suspended? ==> r.status.w.mode == w.mode
    ensures r.status.Returned? ==> r.status.err == CheckPollErr(r.desc, w.mode)
    ensures r.status.Returned? && (w.mode == ModeRead || w.mode == ModeWrite) ==> SideOf(r.desc, w.mode).state == PollDefault
  {
    match e
    case Act(a) => WaitStep(Apply(d, a), Suspended(w))
    case Receive => OnUnblock(d, w)
    case Expire => OnExpiry(d, w)
  }

  /** A suspended waiter going through evs, until it returns or evs run out. */
  function Run(d: Desc, w: Waiter, evs: seq<Event>): (r: WaitStep)
    ensures !r.status.Spinning?
    ensures d.closing ==> r.desc.closing
    ensures d.pollErr ==> r.desc.pollErr
    ensures Inv(d) ==> Inv(r.desc)
    ensures r.status.Suspended? ==> r.status.w.mode == w.mode
    ensures r.status.Returned? ==> r.status.err == CheckPollErr(r.desc, w.mode)
    ensures r.status.Returned? && (w.mode == ModeRead || w.mode == ModeWrite) ==> SideOf(r.desc, w.mode).state == PollDefault
    decreases |evs|
  {
    if evs == [] then WaitStep(d, Suspended(w))
    else
      var st := OnEvent(d, w, evs[0]);
      if st.status.Suspended? then Run(st.desc, st.status.w, evs[1..]) else st
  }

  /** wait(mode), with evs the history seen while suspended. */
  function Wait(d: Desc, mode: PollMode, evs: seq<Event>): (r: WaitStep)
    ensures CheckPollErr(d, mode).Some? ==> r.status == Returned(CheckPollErr(d, mode))
    ensures CheckPollErr(d, mode).None? && SideOf(d, mode).state == PollReady ==> r.status == Returned(None)
    ensures r.status.Returned? ==> r.status.err == CheckPollErr(r.desc, mode)
    ensures r.status.Returned? && (mode == ModeRead || mode == ModeWrite) ==> SideOf(r.desc, mode).state == PollDefault
    // a closing descriptor only ever answers Closed
    ensures d.closing ==> r.desc.closing && (r.status.Returned? ==> r.status.err == Some(SrtSocketClosed))
    ensures d.pollErr ==> r.desc.pollErr
    ensures Inv(d) ==> Inv(r.desc)
    ensures r.status.Suspended? ==> r.status.w.mode == mode
  {
    var b := WaitBegin(d, mode);
    if b.status.Suspended? then Run(b.desc, b.status.w, evs) else b
  }
}
