/**
 * Properties of the poll descriptor that span several operations: the
 * sequence guard against stale expiries, and scenarios that show how a
 * notification, a deadline and close reach (or fail to reach) a waiter.
 */
module PollLemmas {
  import opened Wrappers
  import opened Poll

  /** The deadline of mode's side is stored by a setDeadline with this mode. */
  predicate Touches(setMode: PollMode, mode: PollMode)
  {
    if mode == ModeWrite then TouchesWrite(setMode) else TouchesRead(setMode)
  }

  /** a is not a setDeadline that reaches mode's side. */
  predicate KeepsDeadline(a: Action, mode: PollMode)
  {
    !(a.SetDeadlineAt? && Touches(a.mode, mode))
  }

  /** No setDeadline reaching mode's side happens during evs. */
  predicate NoDeadlineChange(evs: seq<Event>, mode: PollMode)
  {
    forall i :: 0 <= i < |evs| && evs[i].Act? ==> KeepsDeadline(evs[i].a, mode)
  }

  /** Apart from setDeadline, no action moves a side's deadline or counters. */
  lemma ActionKeepsTiming(d: Desc, a: Action, mode: PollMode)
    requires mode == ModeRead || mode == ModeWrite
    requires KeepsDeadline(a, mode)
    ensures SideOf(Apply(d, a), mode).deadline == SideOf(d, mode).deadline
    ensures SideOf(Apply(d, a), mode).seqNo == SideOf(d, mode).seqNo
    ensures SideOf(Apply(d, a), mode).shadowSeq == SideOf(d, mode).shadowSeq
  {
  }

  /** A waiter whose captured sequence is behind its side's counter, with no
      setDeadline reaching that side, never takes an expiry as genuine: the
      deadline, the counters and the lag all survive every event. */
  lemma {:induction false} StaleRun(d: Desc, w: Waiter, evs: seq<Event>)
    requires w.mode == ModeRead || w.mode == ModeWrite
    requires w.timerSeq <= SideOf(d, w.mode).shadowSeq < SideOf(d, w.mode).seqNo
    requires NoDeadlineChange(evs, w.mode)
    ensures SideOf(Run(d, w, evs).desc, w.mode).deadline == SideOf(d, w.mode).deadline
    ensures SideOf(Run(d, w, evs).desc, w.mode).seqNo == SideOf(d, w.mode).seqNo
    ensures SideOf(Run(d, w, evs).desc, w.mode).shadowSeq == SideOf(d, w.mode).shadowSeq
    ensures Run(d, w, evs).status.Suspended? ==> Run(d, w, evs).status.w.timerSeq < SideOf(d, w.mode).seqNo
    decreases |evs|
  {
    if evs != [] {
      var st := OnEvent(d, w, evs[0]);
      match evs[0] {
        case Act(a) =>
          assert KeepsDeadline(evs[0].a, w.mode);
          ActionKeepsTiming(d, a, w.mode);
        case Receive =>
        case Expire =>
      }
      if st.status.Suspended? {
        assert NoDeadlineChange(evs[1..], w.mode) by {
          forall i | 0 <= i < |evs[1..]| && evs[1..][i].Act?
            ensures KeepsDeadline(evs[1..][i].a, w.mode)
          {
            assert evs[1..][i] == evs[i + 1];
          }
        }
        StaleRun(st.desc, st.status.w, evs[1..]);
      }
    }
  }

  /** pollDescInit leaves a waiter's first expiry stale: until the next
      setDeadline on the side, a wait on a descriptor whose deadline had not
      passed never times out (a recycled one keeps its old deadline). */
  lemma InitMakesEarlierExpiriesStale(d: Desc, s: int, mode: PollMode, evs: seq<Event>)
    requires Inv(d)
    requires mode == ModeRead || mode == ModeWrite
    requires SideOf(d, mode).deadline >= 0
    requires NoDeadlineChange(evs, mode)
    ensures Wait(Init(d, s), mode, evs).status != Returned(Some(SrtEpollTimeout))
    ensures SideOf(Wait(Init(d, s), mode, evs).desc, mode).deadline == SideOf(d, mode).deadline
  {
    var d1 := Init(d, s);
    var b := WaitBegin(d1, mode);
    if b.status.Suspended? {
      StaleRun(b.desc, b.status.w, evs);
    }
  }

  /** A positive deadline, its timer firing and the waiter taking the
      expiry: wait reports a timeout and the deadline is left at -1. */
  lemma DeadlineThenTimeout(d: Desc, mode: PollMode, until: int)
    requires mode == ModeRead || mode == ModeWrite
    requires !d.closing && !d.pollErr && SideOf(d, mode).state == PollDefault
    requires until > 0
    ensures Wait(SetDeadline(d, mode, false, until), mode, [Act(TimerFires(mode)), Expire])
            == WaitStep(WithSide(SetDeadline(d, mode, false, until), mode,
                                 SideOf(SetDeadline(d, mode, false, until), mode).(deadline := -1, armed := false, fired := false)),
                        Returned(Some(SrtEpollTimeout)))
  {
    var d1 := SetDeadline(d, mode, false, until);
    var b := WaitBegin(d1, mode);
    assert b.status == Suspended(Waiter(mode, SideOf(d1, mode).seqNo));
    var e := OnEvent(b.desc, b.status.w, Act(TimerFires(mode)));
    assert [Act(TimerFires(mode)), Expire][1..] == [Expire];
    assert Run(e.desc, e.status.w, [Expire]) == OnExpiry(e.desc, e.status.w);
  }

  /** A timer value that landed in the channel before setDeadline(zero) is
      still there afterwards (Stop does not drain it), and the next waiter
      captures the bumped shadow, so the guard takes the old value as
      genuine: wait times out although no deadline is set. */
  lemma BufferedFireOutlivesZeroDeadline(d: Desc, until: int)
    requires !d.closing && !d.pollErr && d.rd.state == PollDefault
    requires until > 0
    ensures var d3 := SetDeadline(TimerFire(SetDeadline(d, ModeRead, false, until), ModeRead), ModeRead, true, 0);
            d3.rd.deadline == 0 &&
            Wait(d3, ModeRead, [Expire]).status == Returned(Some(SrtEpollTimeout)) &&
            Wait(d3, ModeRead, [Expire]).desc.rd.deadline == -1
  {
  }

  /** The pool's one-hour timer keeps running through setDeadline(zero time),
      since Stop is called only for a positive deadline. When it fires, the
      waiter has captured the bumped shadow, so its expiry passes the guard:
      a wait with no deadline set times out. (Without the setDeadline the
      same expiry is stale: InitMakesEarlierExpiriesStale.) */
  lemma OneHourTimerFiresThroughZeroDeadline(s: int)
    ensures var d := SetDeadline(Init(NewDesc(), s), ModeRead, true, 0);
            d.rd.deadline == 0 && d.rd.armed &&
            Wait(d, ModeRead, [Act(TimerFires(ModeRead)), Expire]).status == Returned(Some(SrtEpollTimeout))
  {
    var d := SetDeadline(Init(NewDesc(), s), ModeRead, true, 0);
    var b := WaitBegin(d, ModeRead);
    var e := OnEvent(b.desc, b.status.w, Act(TimerFires(ModeRead)));
    assert [Act(TimerFires(ModeRead)), Expire][1..] == [Expire];
    assert Run(e.desc, e.status.w, [Expire]) == OnExpiry(e.desc, e.status.w);
  }

  /** Readiness announced while nobody waits is kept in the state: the next
      wait returns nil at once, whatever it would have met. */
  lemma ReadinessBeforeWaitIsNotMissed(d: Desc, mode: PollMode, evs: seq<Event>)
    requires mode == ModeRead || mode == ModeWrite
    requires !d.closing && !d.pollErr && !TimedOut(d, mode)
    ensures Wait(Unblock(d, mode, false, true), mode, evs).status == Returned(None)
    ensures SideOf(Wait(Unblock(d, mode, false, true), mode, evs).desc, mode).state == PollDefault
  {
  }

  /** A notification without readiness while nobody waits is lost: a wait
      that starts after it stays suspended on its unblock channel. */
  lemma NotificationWithoutWaiterIsLost(d: Desc, mode: PollMode)
    requires mode == ModeRead || mode == ModeWrite
    requires CheckPollErr(d, mode).None? && SideOf(d, mode).state == PollDefault && !SideOf(d, mode).pending
    ensures Wait(Unblock(d, mode, false, false), mode, [Receive]).status.Suspended?
  {
  }

  /** close alone does not wake a suspended waiter; the next notification
      does, and the waiter then reports the socket closed. */
  lemma CloseDoesNotWakeWaiter(d: Desc, w: Waiter)
    requires w.mode == ModeRead || w.mode == ModeWrite
    requires !SideOf(d, w.mode).pending && !SideOf(d, w.mode).fired && SideOf(d, w.mode).state == PollWait
    ensures Run(d, w, [Act(CloseDesc), Receive, Expire]).status.Suspended?
    ensures Run(d, w, [Act(CloseDesc), Act(Notify(w.mode, false, false)), Receive]).status == Returned(Some(SrtSocketClosed))
  {
    var c := Close(d);
    assert OnEvent(d, w, Act(CloseDesc)) == WaitStep(c, Suspended(w));
    assert OnEvent(c, w, Receive) == WaitStep(c, Suspended(w)) && OnEvent(c, w, Expire) == WaitStep(c, Suspended(w));
    assert [Act(CloseDesc), Receive, Expire][1..] == [Receive, Expire];
    assert [Receive, Expire][1..] == [Expire];
    assert Run(d, w, [Act(CloseDesc), Receive, Expire]) == Run(c, w, [Receive, Expire]);
    assert Run(c, w, [Receive, Expire]) == Run(c, w, [Expire]);
    assert Run(c, w, [Expire]) == Run(c, w, []);
    var n := Unblock(c, w.mode, false, false);
    assert SideOf(n, w.mode).pending && CheckPollErr(n, w.mode) == Some(SrtSocketClosed);
    var u := OnEvent(n, w, Receive);
    assert u.status == Returned(Some(SrtSocketClosed));
    assert OnEvent(c, w, Act(Notify(w.mode, false, false))) == WaitStep(n, Suspended(w));
    assert [Act(CloseDesc), Act(Notify(w.mode, false, false)), Receive][1..] == [Act(Notify(w.mode, false, false)), Receive];
    assert [Act(Notify(w.mode, false, false)), Receive][1..] == [Receive];
    assert Run(d, w, [Act(CloseDesc), Act(Notify(w.mode, false, false)), Receive]) == Run(c, w, [Act(Notify(w.mode, false, false)), Receive]);
    assert Run(c, w, [Act(Notify(w.mode, false, false)), Receive]) == Run(n, w, [Receive]);
    assert Run(n, w, [Receive]) == u;
  }
}
