/**
 * The poll descriptor as the object the binding mutates in place. Its fields
 * are those of pollDesc; each unblock channel (capacity 1) is the flag that
 * says whether its slot is full, and each timer is a running flag plus a flag
 * for a value waiting in its channel. Every method is one atomic step and
 * states its new state through the matching function of module Poll.
 */
module PollDescriptor {
  import opened Wrappers
  import opened Poll

  class PollDesc {
    var closing: bool
    var fd: int
    var pollErr: bool
    var unblockRd: bool
    var rdState: PollState
    var rdDeadline: int
    var rdSeq: int
    var rdTimerArmed: bool
    var rdTimerFired: bool
    var rtSeq: int
    var unblockWr: bool
    var wrState: PollState
    var wdDeadline: int
    var wdSeq: int
    var wdTimerArmed: bool
    var wdTimerFired: bool
    var wtSeq: int

    /** The descriptor's fields as a value of module Poll. */
    function Snapshot(): Desc
      reads this
    {
      Desc(closing, fd, pollErr,
           Side(rdState, rdDeadline, rdSeq, rtSeq, unblockRd, rdTimerArmed, rdTimerFired),
           Side(wrState, wdDeadline, wdSeq, wtSeq, unblockWr, wdTimerArmed, wdTimerFired))
    }

    /** The pool's New: empty channels and two running one-hour timers. */
    constructor ()
      ensures Snapshot() == NewDesc()
    {
      closing, fd, pollErr := false, 0, false;
      unblockRd, rdState, rdDeadline, rdSeq, rtSeq := false, PollDefault, 0, 0, 0;
      rdTimerArmed, rdTimerFired := true, false;
      unblockWr, wrState, wdDeadline, wdSeq, wtSeq := false, PollDefault, 0, 0, 0;
      wdTimerArmed, wdTimerFired := true, false;
    }

    /** release; true where the source panics, which changes nothing. */
    method Release() returns (panicked: bool)
      modifies this
      ensures panicked <==> Poll.Release(old(Snapshot())).None?
      ensures !panicked ==> Snapshot() == Poll.Release(old(Snapshot())).value
      ensures panicked ==> Snapshot() == old(Snapshot())
    {
      if !closing || rdState == PollWait || wrState == PollWait {
        return true;
      }
      fd := 0;
      return false;
    }

    method Close()
      modifies this
      ensures Snapshot() == Poll.Close(old(Snapshot()))
    {
      if closing {
        return;
      }
      closing := true;
    }

    method CheckPollErr(mode: PollMode) returns (err: Option<PollError>)
      ensures err == Poll.CheckPollErr(Snapshot(), mode)
    {
      if closing {
        return Some(SrtSocketClosed);
      }
      if (mode == ModeRead && rdDeadline < 0) || (mode == ModeWrite && wdDeadline < 0) {
        return Some(SrtEpollTimeout);
      }
      if pollErr {
        return Some(SrtSocketClosed);
      }
      return None;
    }

    /** setDeadline(t, mode); zero says t is the zero time, until is time.Until(t). */
    method SetDeadline(zero: bool, until: int, mode: PollMode)
      modifies this
      ensures Snapshot() == Poll.SetDeadline(old(Snapshot()), mode, zero, until)
    {
      var d := 0;
      if !zero {
        d := until;
        if d == 0 {
          d := -1;
        }
      }
      if mode == ModeRead || mode == ModeRead + ModeWrite {
        ReadLeg(d);
      }
      if mode == ModeWrite || mode == ModeRead + ModeWrite {
        WriteLeg(d);
      }
    }

    /** The read leg of setDeadline for the stored deadline d. */
    method ReadLeg(d: int)
      modifies this
      ensures Snapshot() == old(Snapshot()).(rd := DeadlineLeg(old(Snapshot()).rd, d))
    {
      rdSeq := rdSeq + 1;
      rtSeq := rdSeq;
      if rdDeadline > 0 {
        rdTimerArmed := false;  // rdTimer.Stop()
      }
      rdDeadline := d;
      if d > 0 {
        rdTimerArmed := true;   // rdTimer.Reset(d)
      }
      if d < 0 {
        Unblock(ModeRead, false, false);
      }
    }

    /** The write leg of setDeadline for the stored deadline d. */
    method WriteLeg(d: int)
      modifies this
      ensures Snapshot() == old(Snapshot()).(wr := DeadlineLeg(old(Snapshot()).wr, d))
    {
      wdSeq := wdSeq + 1;
      wtSeq := wdSeq;
      if wdDeadline > 0 {
        wdTimerArmed := false;
      }
      wdDeadline := d;
      if d > 0 {
        wdTimerArmed := true;
      }
      if d < 0 {
        Unblock(ModeWrite, false, false);
      }
    }

    method Unblock(mode: PollMode, pollerr: bool, ioready: bool)
      modifies this
      ensures Snapshot() == Poll.Unblock(old(Snapshot()), mode, pollerr, ioready)
    {
      if pollerr {
        pollErr := pollerr;
      }
      if mode == ModeWrite {
        var was := wrState;
        if ioready {
          wrState := PollReady;
        }
        if was == PollWait {
          unblockWr := true;  // a send that never blocks: a full slot stays as it is
        }
      } else {
        var was := rdState;
        if ioready {
          rdState := PollReady;
        }
        if was == PollWait {
          unblockRd := true;
        }
      }
    }

    method Reset(mode: PollMode)
      modifies this
      ensures Snapshot() == Poll.Reset(old(Snapshot()), mode)
    {
      if mode == ModeRead {
        rdState := PollDefault;
      } else if mode == ModeWrite {
        wrState := PollDefault;
      }
    }

    /** The runtime firing the timer of the side mode selects. */
    method TimerFire(mode: PollMode)
      modifies this
      ensures Snapshot() == Poll.TimerFire(old(Snapshot()), mode)
    {
      if mode == ModeWrite {
        if wdTimerArmed {
          wdTimerArmed, wdTimerFired := false, true;
        }
      } else if rdTimerArmed {
        rdTimerArmed, rdTimerFired := false, true;
      }
    }

    method Apply(a: Action)
      modifies this
      ensures Snapshot() == Poll.Apply(old(Snapshot()), a)
    {
      match a
      case Notify(mode, pollerr, ioready) => Unblock(mode, pollerr, ioready);
      case SetDeadlineAt(mode, zero, until) => SetDeadline(zero, until, mode);
      case CloseDesc => Close();
      case TimerFires(mode) => TimerFire(mode);
      case ResetState(mode) => Reset(mode);
    }

    method ApplyAll(acts: seq<Action>)
      modifies this
      ensures Snapshot() == Poll.ApplyAll(old(Snapshot()), acts)
    {
      var i := 0;
      while i < |acts|
        invariant 0 <= i <= |acts|
        invariant Poll.ApplyAll(Snapshot(), acts[i..]) == Poll.ApplyAll(old(Snapshot()), acts)
      {
        assert acts[i..][1..] == acts[i + 1..];
        Apply(acts[i]);
        i := i + 1;
      }
    }

    /** The way out of wait: checkPollErr's verdict, then the deferred reset. */
    method Finish(mode: PollMode) returns (st: WaitStatus)
      modifies this
      ensures WaitStep(Snapshot(), st) == Poll.Finish(old(Snapshot()), mode)
    {
      var err := CheckPollErr(mode);
      Reset(mode);
      return Returned(err);
    }

    /** wait(mode) up to suspension. */
    method WaitBegin(mode: PollMode) returns (st: WaitStatus)
      modifies this
      ensures WaitStep(Snapshot(), st) == Poll.WaitBegin(old(Snapshot()), mode)
    {
      var err := CheckPollErr(mode);
      if err.Some? {
        st := Finish(mode);
        return;
      }
      var timerSeq := 0;
      if mode == ModeRead {
        timerSeq := rtSeq;
      } else if mode == ModeWrite {
        timerSeq := wtSeq;
      }
      // the compare-and-swap loop, taken as one step
      var state := if mode == ModeWrite then wrState else rdState;
      if state == PollReady {
        if mode == ModeWrite {
          wrState := PollDefault;
        } else {
          rdState := PollDefault;
        }
        Reset(mode);
        return Returned(None);
      }
      if state == PollDefault {
        if mode == ModeWrite {
          wrState := PollWait;
        } else {
          rdState := PollWait;
        }
        return Suspended(Waiter(mode, timerSeq));
      }
      return Spinning;
    }

    /** The select of a suspended wait takes the unblock channel. */
    method OnUnblock(w: Waiter) returns (st: WaitStatus)
      modifies this
      ensures WaitStep(Snapshot(), st) == Poll.OnUnblock(old(Snapshot()), w)
    {
      if w.mode == ModeWrite {
        if !unblockWr {
          return Suspended(w);
        }
        unblockWr := false;
      } else {
        if !unblockRd {
          return Suspended(w);
        }
        unblockRd := false;
      }
      st := Finish(w.mode);
    }

    /** The select of a suspended wait takes the timer channel. */
    method OnExpiry(w: Waiter) returns (st: WaitStatus)
      modifies this
      ensures WaitStep(Snapshot(), st) == Poll.OnExpiry(old(Snapshot()), w)
    {
      if w.mode == ModeWrite {
        if !wdTimerFired {
          return Suspended(w);
        }
        wdTimerFired := false;
      } else {
        if !rdTimerFired {
          return Suspended(w);
        }
        rdTimerFired := false;
      }
      var timerSeq := w.timerSeq;
      if w.mode == ModeRead {
        if timerSeq == rdSeq {
          rdDeadline := -1;
          st := Finish(w.mode);
          return;
        }
        timerSeq := rtSeq;
      }
      if w.mode == ModeWrite {
        if timerSeq == wdSeq {
          wdDeadline := -1;
          st := Finish(w.mode);
          return;
        }
        timerSeq := wtSeq;
      }
      return Suspended(w.(timerSeq := timerSeq));
    }

    method OnEvent(w: Waiter, e: Event) returns (st: WaitStatus)
      modifies this
      ensures WaitStep(Snapshot(), st) == Poll.OnEvent(old(Snapshot()), w, e)
    {
      match e
      case Act(a) =>
        Apply(a);
        st := Suspended(w);
      case Receive =>
        st := OnUnblock(w);
      case Expire =>
        st := OnExpiry(w);
    }

    /** wait(mode), with evs the history met while suspended; Suspended when
        evs run out first. */
    method Wait(mode: PollMode, evs: seq<Event>) returns (st: WaitStatus)
      modifies this
      ensures WaitStep(Snapshot(), st) == Poll.Wait(old(Snapshot()), mode, evs)
    {
      st := WaitBegin(mode);
      if !st.Suspended? {
        return;
      }
      var i := 0;
      while i < |evs|
        invariant 0 <= i <= |evs|
        invariant st.Suspended?
        invariant Poll.Run(Snapshot(), st.w, evs[i..]) == Poll.Wait(old(Snapshot()), mode, evs)
      {
        assert evs[i..][1..] == evs[i + 1..];
        st := OnEvent(st.w, evs[i]);
        if !st.Suspended? {
          return;
        }
        i := i + 1;
      }
    }
  }

  /** pollDescInit: a descriptor from the pool (pooled, or a new one when the
      pool is empty) set up for socket s. Registration with the poll server is
      not part of this model. */
  method PollDescInit(s: int, pooled: PollDesc?) returns (pd: PollDesc)
    modifies pooled
    ensures pooled == null ==> fresh(pd) && pd.Snapshot() == Poll.Init(NewDesc(), s)
    ensures pooled != null ==> pd == pooled && pd.Snapshot() == Poll.Init(old(pooled.Snapshot()), s)
  {
    if pooled == null {
      pd := new PollDesc();
    } else {
      pd := pooled;
    }
    pd.fd := s;
    pd.rdState := PollDefault;
    pd.wrState := PollDefault;
    pd.closing := false;
    pd.pollErr := false;
    pd.rdSeq := pd.rdSeq + 1;
    pd.wdSeq := pd.wdSeq + 1;
  }
}
