/**
 * The retry loops of Read, Write and ReadPacket as functions of a supplied
 * history: the results of the transport calls in order, and for each call of
 * wait what other goroutines do before it is entered and what it meets while
 * suspended. A loop whose history runs out before it returns is reported as
 * not returned.
 */
module Retry {
  import opened Wrappers
  import opened Poll
  import opened Transport

  /** What happens around one call of wait. */
  datatype WaitScript = WaitScript(before: seq<Action>, during: seq<Event>)

  /** How far an operation got: whether it returned and with which (n, err);
      when it did not, whether that is because its last wait was still
      blocked (stalled) rather than because the history ran out; how many
      transport calls it made, how many times it called wait and how many of
      those calls returned nil. */
  datatype IoOutcome = IoOutcome(returned: bool, stalled: bool, n: int, err: Option<IoError>,
                                 calls: nat, waits: nat, okWaits: nat)

  datatype IoRun = IoRun(desc: Desc, out: IoOutcome)

  /** One call of wait after what other goroutines do first. */
  function WaitIn(d: Desc, mode: PollMode, sc: WaitScript): (r: WaitStep)
    ensures d.closing ==> (r.status.Returned? ==> r.status.err == Some(SrtSocketClosed))
    ensures r.status.Returned? ==> r.status.err == CheckPollErr(r.desc, mode)
  {
    Wait(ApplyAll(d, sc.before), mode, sc.during)
  }

  predicate IsPollFailure(err: Option<IoError>)
  {
    err.Some? && err.value.PollFailure?
  }

  /** The descriptor once the waits of scripts have run one after another,
      each entered where the previous one left it. */
  function AfterWaits(d: Desc, mode: PollMode, scripts: seq<WaitScript>): Desc
    decreases |scripts|
  {
    if scripts == [] then d
    else WaitIn(AfterWaits(d, mode, scripts[..|scripts| - 1]), mode, scripts[|scripts| - 1]).desc
  }

  /** Wait number k of a run from d, entered after waits 0 to k - 1. */
  function NthWait(d: Desc, mode: PollMode, scripts: seq<WaitScript>, k: nat): WaitStep
    requires k < |scripts|
  {
    WaitIn(AfterWaits(d, mode, scripts[..k]), mode, scripts[k])
  }

  /** What the waits of a run from d decide. Every wait but a last one
      returned nil. The last one, if any, is still blocked exactly when the
      run stalled, and otherwise its error is the one the run returns. The
      run ends where its last wait left the descriptor. */
  predicate WaitFacts(r: IoRun, d: Desc, mode: PollMode, scripts: seq<WaitScript>)
  {
    var o := r.out;
    && o.okWaits <= o.waits <= o.okWaits + 1 && o.waits <= |scripts|
    && (forall k :: 0 <= k < o.okWaits ==> NthWait(d, mode, scripts, k).status == Returned(None))
    && r.desc == AfterWaits(d, mode, scripts[..o.waits])
    && (o.waits == o.okWaits ==> !o.stalled)
    && (o.waits == o.okWaits + 1 ==>
          var last := NthWait(d, mode, scripts, o.okWaits);
          && (o.stalled <==> !last.status.Returned?)
          && (!o.stalled ==>
                last.status.Returned? && last.status.err.Some? &&
                o.returned && o.err == Some(PollFailure(last.status.err.value))))
    // so a returned wait error is checkPollErr's verdict on the final descriptor
    && (o.returned && IsPollFailure(o.err) ==>
          o.waits == o.okWaits + 1 && CheckPollErr(r.desc, mode) == Some(o.err.value.e))
  }

  // ---------------------------------------------------------------------------
  // Read and Write

  /** The loop of Read (ModeRead, EAsyncRCV) and Write (ModeWrite, EAsyncSND)
      from its head, (n, err) being what the last transport call gave. */
  function RetryLoop(d: Desc, mode: PollMode, code: int, blocking: bool, n: int, err: Option<IoError>,
                     calls: seq<Native>, scripts: seq<WaitScript>, made: nat, waited: nat, ok: nat): (r: IoRun)
    // a result that is not would-block, or any result on a blocking socket, ends the loop at once
    ensures !IsErrno(err, code) || blocking ==> r == IoRun(d, IoOutcome(true, false, n, err, made, waited, ok))
    ensures made <= r.out.calls <= made + |calls|
    ensures waited <= r.out.waits <= waited + |scripts|
    ensures ok <= r.out.okWaits
    ensures r.out.stalled ==> !r.out.returned
    ensures r.out.returned && !IsPollFailure(r.out.err) ==> !IsErrno(r.out.err, code) || blocking
    decreases |calls|
  {
    if !IsErrno(err, code) || blocking then IoRun(d, IoOutcome(true, false, n, err, made, waited, ok))
    else if scripts == [] then IoRun(d, IoOutcome(false, false, n, err, made, waited, ok))
    else
      var ws := WaitIn(d, mode, scripts[0]);
      if ws.status.Returned? && ws.status.err.Some? then
        IoRun(ws.desc, IoOutcome(true, false, n, Some(PollFailure(ws.status.err.value)), made, waited + 1, ok))
      else if ws.status.Returned? then
        if calls == [] then IoRun(ws.desc, IoOutcome(false, false, n, None, made, waited + 1, ok + 1))
        else
          var t := Normalize(calls[0]);
          RetryLoop(ws.desc, mode, code, blocking, t.n, t.err, calls[1..], scripts[1..], made + 1, waited + 1, ok + 1)
      else IoRun(ws.desc, IoOutcome(false, true, n, err, made, waited + 1, ok))
  }

  /** Read or Write as a whole: the fast-path reset on a non-blocking socket,
      the first transport call, then the loop. */
  function Retry(d: Desc, mode: PollMode, code: int, blocking: bool, calls: seq<Native>, scripts: seq<WaitScript>): (r: IoRun)
    ensures calls == [] ==> !r.out.returned && r.out.calls == 0
    // a blocking socket makes one transport call, returns its result and leaves the descriptor alone
    ensures blocking && calls != [] ==>
              r == IoRun(d, IoOutcome(true, false, Normalize(calls[0]).n, Normalize(calls[0]).err, 1, 0, 0))
    // a non-blocking one resets the state first, and returns at once a first result that is not would-block
    ensures !blocking && calls != [] && !IsErrno(Normalize(calls[0]).err, code) ==>
              r == IoRun(Reset(d, mode), IoOutcome(true, false, Normalize(calls[0]).n, Normalize(calls[0]).err, 1, 0, 0))
  {
    var d0 := if !blocking then Reset(d, mode) else d;
    if calls == [] then IoRun(d0, IoOutcome(false, false, 0, None, 0, 0, 0))
    else
      var t := Normalize(calls[0]);
      RetryLoop(d0, mode, code, blocking, t.n, t.err, calls[1..], scripts, 1, 0, 0)
  }

  /** How a run that did not return can stop: its last wait is still blocked,
      the scripts ran out after a would-block call, or the calls ran out after
      a wait that returned nil. In every case each wait before the last
      returned nil. */
  predicate Unfinished(o: IoOutcome, ncalls: nat, nscripts: nat)
  {
    || (o.stalled && o.waits == o.okWaits + 1 && o.calls == o.waits)
    || (!o.stalled && o.waits == o.okWaits && o.calls == o.waits + 1 && o.waits == nscripts)
    || (!o.stalled && o.waits == o.okWaits && o.calls == o.waits && o.calls == ncalls)
  }

  /** Every call but the last would block, on a non-blocking socket: the
      first result that is not would-block ends the loop. */
  predicate FirstExit(o: IoOutcome, code: int, blocking: bool, calls: seq<Native>)
  {
    WouldBlockBefore(code, blocking, calls, o.calls - 1)
  }

  /** The calls before number m would block, on a non-blocking socket. */
  predicate WouldBlockBefore(code: int, blocking: bool, calls: seq<Native>, m: int)
  {
    forall k :: 0 <= k < m && k < |calls| ==> !blocking && IsErrno(Normalize(calls[k]).err, code)
  }

  /** The exit and propagation rules of Read and Write. */
  predicate RetryFacts(o: IoOutcome, code: int, blocking: bool, calls: seq<Native>, scripts: seq<WaitScript>)
  {
    && o.calls <= |calls| && o.waits <= |scripts|
    && o.okWaits <= o.waits <= o.okWaits + 1
    && (o.calls == 0 <==> calls == [])
    && (o.calls == 0 ==> !o.returned && !o.stalled && o.waits == 0)
    // every transport call after the first follows exactly one wait that returned nil
    && (o.returned ==> o.calls == o.okWaits + 1 && !o.stalled)
    && FirstExit(o, code, blocking, calls)
    // a result that is not would-block, or any result on a blocking socket, is returned unchanged
    && (o.returned && !IsPollFailure(o.err) ==>
          o.waits == o.okWaits &&
          Transfer(o.n, o.err) == Normalize(calls[o.calls - 1]) &&
          (!IsErrno(o.err, code) || blocking))
    // an error of wait is returned at once, with the n = 0 of the would-block call
    && (o.returned && IsPollFailure(o.err) ==>
          o.waits == o.calls && o.n == 0 && !blocking &&
          IsErrno(Normalize(calls[o.calls - 1]).err, code))
    // the loop goes on only past a would-block call on a non-blocking socket and a wait that returned nil
    && (!o.returned && o.calls >= 1 ==>
          !blocking && IsErrno(Normalize(calls[o.calls - 1]).err, code) && Unfinished(o, |calls|, |scripts|))
    && (blocking ==> o.waits == 0)
  }

  lemma {:induction false} RetryLoopFacts(d: Desc, mode: PollMode, code: int, blocking: bool, n: int, err: Option<IoError>,
                                          all: seq<Native>, allScripts: seq<WaitScript>, made: nat, waited: nat)
    requires 1 <= made <= |all| && waited == made - 1 && waited <= |allScripts|
    requires blocking ==> made == 1
    requires Transfer(n, err) == Normalize(all[made - 1])
    requires WouldBlockBefore(code, blocking, all, made - 1)
    ensures RetryFacts(RetryLoop(d, mode, code, blocking, n, err, all[made..], allScripts[waited..], made, waited, waited).out,
                       code, blocking, all, allScripts)
    decreases |all| - made
  {
    if !IsErrno(err, code) || blocking || waited == |allScripts| {
      RetryLoopStopsAtHead(d, mode, code, blocking, n, err, all, allScripts, made, waited);
      return;
    }
    var ws := WaitIn(d, mode, allScripts[waited]);
    if !(ws.status.Returned? && ws.status.err.None? && made < |all|) {
      RetryLoopStopsInWait(d, mode, code, blocking, n, err, all, allScripts, made, waited);
      return;
    }
    var t := Normalize(all[made]);
    assert all[made..][0] == all[made] && allScripts[waited..][0] == allScripts[waited];
    assert all[made..][1..] == all[made + 1..] && allScripts[waited..][1..] == allScripts[waited + 1..];
    assert RetryLoop(d, mode, code, blocking, n, err, all[made..], allScripts[waited..], made, waited, waited)
           == RetryLoop(ws.desc, mode, code, blocking, t.n, t.err, all[made + 1..], allScripts[waited + 1..], made + 1, waited + 1, waited + 1);
    assert WouldBlockBefore(code, blocking, all, made);
    RetryLoopFacts(ws.desc, mode, code, blocking, t.n, t.err, all, allScripts, made + 1, waited + 1);
  }

  /** The loop ends at its head: a result that ends it, or no wait left. */
  lemma RetryLoopStopsAtHead(d: Desc, mode: PollMode, code: int, blocking: bool, n: int, err: Option<IoError>,
                             all: seq<Native>, allScripts: seq<WaitScript>, made: nat, waited: nat)
    requires 1 <= made <= |all| && waited == made - 1 && waited <= |allScripts|
    requires blocking ==> made == 1
    requires Transfer(n, err) == Normalize(all[made - 1])
    requires WouldBlockBefore(code, blocking, all, made - 1)
    requires !IsErrno(err, code) || blocking || waited == |allScripts|
    ensures RetryFacts(RetryLoop(d, mode, code, blocking, n, err, all[made..], allScripts[waited..], made, waited, waited).out,
                       code, blocking, all, allScripts)
  {
    var r := RetryLoop(d, mode, code, blocking, n, err, all[made..], allScripts[waited..], made, waited, waited);
    if !IsErrno(err, code) || blocking {
      assert r.out == IoOutcome(true, false, n, err, made, waited, waited);
    } else {
      assert allScripts[waited..] == [];
      assert r.out == IoOutcome(false, false, n, err, made, waited, waited);
    }
  }

  /** The loop ends in its wait: the wait failed or is still blocked, or it
      returned nil and no call is left. */
  lemma RetryLoopStopsInWait(d: Desc, mode: PollMode, code: int, blocking: bool, n: int, err: Option<IoError>,
                             all: seq<Native>, allScripts: seq<WaitScript>, made: nat, waited: nat)
    requires 1 <= made <= |all| && waited == made - 1 && waited < |allScripts|
    requires Transfer(n, err) == Normalize(all[made - 1])
    requires WouldBlockBefore(code, blocking, all, made - 1)
    requires IsErrno(err, code) && !blocking
    requires var ws := WaitIn(d, mode, allScripts[waited]); !(ws.status.Returned? && ws.status.err.None? && made < |all|)
    ensures RetryFacts(RetryLoop(d, mode, code, blocking, n, err, all[made..], allScripts[waited..], made, waited, waited).out,
                       code, blocking, all, allScripts)
  {
    var calls, scripts := all[made..], allScripts[waited..];
    var r := RetryLoop(d, mode, code, blocking, n, err, calls, scripts, made, waited, waited);
    var ws := WaitIn(d, mode, allScripts[waited]);
    assert scripts[0] == allScripts[waited];
    if ws.status.Returned? && ws.status.err.Some? {
      assert r.out == IoOutcome(true, false, n, Some(PollFailure(ws.status.err.value)), made, waited + 1, waited);
    } else if ws.status.Returned? {
      assert calls == [];
      assert r.out == IoOutcome(false, false, n, None, made, waited + 1, waited + 1);
    } else {
      assert r.out == IoOutcome(false, true, n, err, made, waited + 1, waited);
    }
  }

  /** Read and Write obey their exit and propagation rules on every history. */
  lemma RetryOutcome(d: Desc, mode: PollMode, code: int, blocking: bool, calls: seq<Native>, scripts: seq<WaitScript>)
    ensures RetryFacts(Retry(d, mode, code, blocking, calls, scripts).out, code, blocking, calls, scripts)
  {
    if calls != [] {
      var t := Normalize(calls[0]);
      RetryLoopFacts(if !blocking then Reset(d, mode) else d, mode, code, blocking, t.n, t.err, calls, scripts, 1, 0);
    }
  }

  /** WaitFacts of a run that ends without entering its next wait. */
  lemma StopsBeforeWait(d0: Desc, mode: PollMode, scripts: seq<WaitScript>, o: IoOutcome)
    requires o.waits == o.okWaits <= |scripts| && !o.stalled && !(o.returned && IsPollFailure(o.err))
    requires forall k :: 0 <= k < o.okWaits ==> NthWait(d0, mode, scripts, k).status == Returned(None)
    ensures WaitFacts(IoRun(AfterWaits(d0, mode, scripts[..o.waits]), o), d0, mode, scripts)
  {
  }

  /** WaitFacts of a run that ends in its last wait, which failed or is still blocked. */
  lemma StopsInWait(d0: Desc, mode: PollMode, scripts: seq<WaitScript>, o: IoOutcome)
    requires o.waits == o.okWaits + 1 <= |scripts| && (o.stalled ==> !o.returned)
    requires forall k :: 0 <= k < o.okWaits ==> NthWait(d0, mode, scripts, k).status == Returned(None)
    requires var last := NthWait(d0, mode, scripts, o.okWaits);
             && (o.stalled <==> !last.status.Returned?)
             && (!o.stalled ==> last.status.Returned? && last.status.err.Some? &&
                                o.returned && o.err == Some(PollFailure(last.status.err.value)))
    ensures WaitFacts(IoRun(AfterWaits(d0, mode, scripts[..o.waits]), o), d0, mode, scripts)
  {
    assert scripts[..o.waits][..o.okWaits] == scripts[..o.okWaits];
    assert AfterWaits(d0, mode, scripts[..o.waits]) == NthWait(d0, mode, scripts, o.okWaits).desc;
  }

  lemma {:induction false} RetryLoopWaits(d0: Desc, d: Desc, mode: PollMode, code: int, blocking: bool, n: int, err: Option<IoError>,
                                          calls: seq<Native>, allScripts: seq<WaitScript>, made: nat, waited: nat)
    requires waited <= |allScripts|
    requires d == AfterWaits(d0, mode, allScripts[..waited])
    // (n, err) come from a transport call, never from wait
    requires !IsPollFailure(err)
    requires forall k :: 0 <= k < waited ==> NthWait(d0, mode, allScripts, k).status == Returned(None)
    ensures WaitFacts(RetryLoop(d, mode, code, blocking, n, err, calls, allScripts[waited..], made, waited, waited), d0, mode, allScripts)
    decreases |calls|
  {
    if IsErrno(err, code) && !blocking && waited < |allScripts| && calls != [] {
      var ws := WaitIn(d, mode, allScripts[waited]);
      if ws.status.Returned? && ws.status.err.None? {
        var scripts := allScripts[waited..];
        var t := Normalize(calls[0]);
        assert scripts[0] == allScripts[waited] && scripts[1..] == allScripts[waited + 1..];
        assert RetryLoop(d, mode, code, blocking, n, err, calls, scripts, made, waited, waited)
               == RetryLoop(ws.desc, mode, code, blocking, t.n, t.err, calls[1..], allScripts[waited + 1..], made + 1, waited + 1, waited + 1);
        assert ws == NthWait(d0, mode, allScripts, waited);
        assert allScripts[..waited + 1][..waited] == allScripts[..waited];
        assert ws.desc == AfterWaits(d0, mode, allScripts[..waited + 1]);
        assert forall k :: 0 <= k < waited + 1 ==> NthWait(d0, mode, allScripts, k).status == Returned(None);
        RetryLoopWaits(d0, ws.desc, mode, code, blocking, t.n, t.err, calls[1..], allScripts, made + 1, waited + 1);
        return;
      }
    }
    RetryLoopWaitsStop(d0, d, mode, code, blocking, n, err, calls, allScripts, made, waited);
  }

  /** RetryLoopWaits where the loop ends: at its head, or in the wait it makes. */
  lemma RetryLoopWaitsStop(d0: Desc, d: Desc, mode: PollMode, code: int, blocking: bool, n: int, err: Option<IoError>,
                           calls: seq<Native>, allScripts: seq<WaitScript>, made: nat, waited: nat)
    requires waited <= |allScripts|
    requires d == AfterWaits(d0, mode, allScripts[..waited])
    requires !IsPollFailure(err)
    requires forall k :: 0 <= k < waited ==> NthWait(d0, mode, allScripts, k).status == Returned(None)
    requires IsErrno(err, code) && !blocking && waited < |allScripts| && calls != [] ==>
               var ws := WaitIn(d, mode, allScripts[waited]); !(ws.status.Returned? && ws.status.err.None?)
    ensures WaitFacts(RetryLoop(d, mode, code, blocking, n, err, calls, allScripts[waited..], made, waited, waited), d0, mode, allScripts)
  {
    var scripts := allScripts[waited..];
    var r := RetryLoop(d, mode, code, blocking, n, err, calls, scripts, made, waited, waited);
    if !IsErrno(err, code) || blocking {
      assert r == IoRun(d, IoOutcome(true, false, n, err, made, waited, waited));
      StopsBeforeWait(d0, mode, allScripts, r.out);
    } else if scripts == [] {
      assert r == IoRun(d, IoOutcome(false, false, n, err, made, waited, waited));
      StopsBeforeWait(d0, mode, allScripts, r.out);
    } else {
      var ws := WaitIn(d, mode, scripts[0]);
      assert scripts[0] == allScripts[waited];
      assert ws == NthWait(d0, mode, allScripts, waited);
      assert allScripts[..waited + 1][..waited] == allScripts[..waited];
      assert ws.desc == AfterWaits(d0, mode, allScripts[..waited + 1]);
      if ws.status.Returned? && ws.status.err.Some? {
        assert r == IoRun(ws.desc, IoOutcome(true, false, n, Some(PollFailure(ws.status.err.value)), made, waited + 1, waited));
        StopsInWait(d0, mode, allScripts, r.out);
      } else if ws.status.Returned? {
        assert calls == [];
        assert r == IoRun(ws.desc, IoOutcome(false, false, n, None, made, waited + 1, waited + 1));
        assert forall k :: 0 <= k < waited + 1 ==> NthWait(d0, mode, allScripts, k).status == Returned(None);
        StopsBeforeWait(d0, mode, allScripts, r.out);
      } else {
        assert r == IoRun(ws.desc, IoOutcome(false, true, n, err, made, waited + 1, waited));
        StopsInWait(d0, mode, allScripts, r.out);
      }
    }
  }


  /** The waits of Read and Write decide how they end: the error returned
      after a failed wait is that wait's, and a run stalls exactly when its
      last wait is still blocked. */
  lemma RetryWaits(d: Desc, mode: PollMode, code: int, blocking: bool, calls: seq<Native>, scripts: seq<WaitScript>)
    ensures WaitFacts(Retry(d, mode, code, blocking, calls, scripts), if !blocking then Reset(d, mode) else d, mode, scripts)
  {
    var d0 := if !blocking then Reset(d, mode) else d;
    assert scripts[..0] == [] && scripts[0..] == scripts;
    if calls != [] {
      var t := Normalize(calls[0]);
      RetryLoopWaits(d0, d0, mode, code, blocking, t.n, t.err, calls[1..], scripts, 1, 0);
    }
  }

  /** Readiness recorded before the call is dropped by the fast-path reset:
      when the first call would block, wait suspends instead of returning. */
  lemma FastPathDropsEarlierReadiness(d: Desc, mode: PollMode, code: int, c: Native)
    requires mode == ModeRead || mode == ModeWrite
    requires CheckPollErr(d, mode).None? && SideOf(d, mode).state == PollReady
    requires IsErrno(Normalize(c).err, code)
    ensures Retry(d, mode, code, false, [c], [WaitScript([], [])]).out == IoOutcome(false, true, 0, Normalize(c).err, 1, 1, 0)
    ensures SideOf(Retry(d, mode, code, false, [c], [WaitScript([], [])]).desc, mode).state == PollWait
  {
  }

  /** Readiness announced between a would-block call and the wait is not
      missed: wait returns nil without suspending and the call is made again. */
  lemma ReadinessBeforeWaitRetries(d: Desc, mode: PollMode, code: int, c: Native, c2: Native)
    requires mode == ModeRead || mode == ModeWrite
    requires CheckPollErr(d, mode).None?
    requires IsErrno(Normalize(c).err, code) && c2.ret >= 0
    ensures Retry(d, mode, code, false, [c, c2], [WaitScript([Notify(mode, false, true)], [])]).out
            == IoOutcome(true, false, c2.ret, None, 2, 1, 1)
  {
    var sc := WaitScript([Notify(mode, false, true)], []);
    assert [c, c2][1..] == [c2] && [c2][1..] == [] && [sc][1..] == [];
    var d0 := Reset(d, mode);
    assert ApplyAll(d0, sc.before) == Unblock(d0, mode, false, true);
    var ws := WaitIn(d0, mode, sc);
    assert ws.status == Returned(None);
    var t := Normalize(c);
    assert RetryLoop(d0, mode, code, false, t.n, t.err, [c2], [sc], 1, 0, 0)
           == RetryLoop(ws.desc, mode, code, false, c2.ret, None, [], [], 2, 1, 1);
  }

  // ---------------------------------------------------------------------------
  // ReadPacket

  /** The fields of SRT_MSGCTRL that ReadPacket copies. */
  datatype MsgCtrl = MsgCtrl(pktseq: int, msgno: int, srctime: int)

  /** A native receive with what it left in msgctrl. */
  datatype PacketCall = PacketCall(native: Native, ctrl: MsgCtrl)

  datatype PacketRun = PacketRun(desc: Desc, out: IoOutcome, pkt: MsgCtrl)

  /** The check at the head of ReadPacket's loop. */
  predicate Copies(t: Transfer, blocking: bool)
  {
    !IsErrno(t.err, EAsyncRCV) || blocking
  }

  /** The copy check passes unless a non-blocking receive failed with EAsyncRCV. */
  lemma CopiesExact(t: Transfer, blocking: bool)
    ensures Copies(t, blocking) <==> blocking || t.err != Some(SrtErrno(EAsyncRCV))
  {
  }

  /** The loop of ReadPacket from its head: (n, err) and ctrl are what the last
      native call gave, pkt what the packet holds. */
  function PacketLoop(d: Desc, blocking: bool, n: int, err: Option<IoError>, ctrl: MsgCtrl, pkt: MsgCtrl,
                      calls: seq<PacketCall>, scripts: seq<WaitScript>, made: nat, waited: nat, ok: nat): (r: PacketRun)
    // the only way out is an error of wait
    ensures r.out.returned ==> IsPollFailure(r.out.err)
    ensures r.out.stalled ==> !r.out.returned
    ensures made <= r.out.calls <= made + |calls|
    ensures waited <= r.out.waits <= waited + |scripts|
    // a run with no wait left keeps the packet as the check leaves it
    ensures scripts == [] ==> r.pkt == (if Copies(Transfer(n, err), blocking) then ctrl else pkt) && !r.out.returned
    decreases |calls|
  {
    var pkt' := if Copies(Transfer(n, err), blocking) then ctrl else pkt;
    if scripts == [] then PacketRun(d, IoOutcome(false, false, n, err, made, waited, ok), pkt')
    else
      var ws := WaitIn(d, ModeRead, scripts[0]);
      if ws.status.Returned? && ws.status.err.Some? then
        PacketRun(ws.desc, IoOutcome(true, false, n, Some(PollFailure(ws.status.err.value)), made, waited + 1, ok), pkt')
      else if ws.status.Returned? then
        if calls == [] then PacketRun(ws.desc, IoOutcome(false, false, n, None, made, waited + 1, ok + 1), pkt')
        else
          var t := Normalize(calls[0].native);
          PacketLoop(ws.desc, blocking, t.n, t.err, calls[0].ctrl, pkt', calls[1..], scripts[1..], made + 1, waited + 1, ok + 1)
      else PacketRun(ws.desc, IoOutcome(false, true, n, err, made, waited + 1, ok), pkt')
  }

  /** PacketLoop once its wait has run: the run it ends with, or the loop
      from the next receive. */
  lemma PacketLoopAfterWait(d: Desc, blocking: bool, n: int, err: Option<IoError>, ctrl: MsgCtrl, pkt: MsgCtrl,
                            calls: seq<PacketCall>, scripts: seq<WaitScript>, made: nat, waited: nat, ok: nat)
    requires scripts != []
    ensures var pkt' := if Copies(Transfer(n, err), blocking) then ctrl else pkt;
            var ws := WaitIn(d, ModeRead, scripts[0]);
            var r := PacketLoop(d, blocking, n, err, ctrl, pkt, calls, scripts, made, waited, ok);
            if ws.status.Returned? && ws.status.err.Some? then
              r == PacketRun(ws.desc, IoOutcome(true, false, n, Some(PollFailure(ws.status.err.value)), made, waited + 1, ok), pkt')
            else if !ws.status.Returned? then
              r == PacketRun(ws.desc, IoOutcome(false, true, n, err, made, waited + 1, ok), pkt')
            else if calls == [] then
              r == PacketRun(ws.desc, IoOutcome(false, false, n, None, made, waited + 1, ok + 1), pkt')
            else
              r == PacketLoop(ws.desc, blocking, Normalize(calls[0].native).n, Normalize(calls[0].native).err, calls[0].ctrl, pkt',
                              calls[1..], scripts[1..], made + 1, waited + 1, ok + 1)
  {
  }

  /** ReadPacket as a whole, pkt being what the packet held before. */
  function ReadPacket(d: Desc, blocking: bool, pkt: MsgCtrl, calls: seq<PacketCall>, scripts: seq<WaitScript>): (r: PacketRun)
    ensures r.out.returned ==> IsPollFailure(r.out.err)
    ensures r.out.calls <= |calls|
    ensures calls == [] ==> !r.out.returned && r.out.calls == 0 && r.pkt == pkt
  {
    var d0 := if !blocking then Reset(d, ModeRead) else d;
    if calls == [] then PacketRun(d0, IoOutcome(false, false, 0, None, 0, 0, 0), pkt)
    else
      var t := Normalize(calls[0].native);
      PacketLoop(d0, blocking, t.n, t.err, calls[0].ctrl, pkt, calls[1..], scripts, 1, 0, 0)
  }

  /** The packet after the calls cs, starting from pkt: the message control of
      the last call that passed the check, or pkt when none did. */
  function Delivered(pkt: MsgCtrl, cs: seq<PacketCall>, blocking: bool): (r: MsgCtrl)
    ensures r == pkt || exists i :: 0 <= i < |cs| && r == cs[i].ctrl && Copies(Normalize(cs[i].native), blocking)
    ensures (forall i :: 0 <= i < |cs| ==> !Copies(Normalize(cs[i].native), blocking)) ==> r == pkt
    decreases |cs|
  {
    if cs == [] then pkt
    else
      var last := cs[|cs| - 1];
      if Copies(Normalize(last.native), blocking) then last.ctrl else Delivered(pkt, cs[..|cs| - 1], blocking)
  }

  predicate PacketFacts(r: PacketRun, pkt: MsgCtrl, blocking: bool, calls: seq<PacketCall>, scripts: seq<WaitScript>)
  {
    var o := r.out;
    && o.calls <= |calls| && o.waits <= |scripts|
    && o.okWaits <= o.waits <= o.okWaits + 1
    && (o.calls == 0 <==> calls == [])
    && (o.calls == 0 ==> !o.returned && !o.stalled && o.waits == 0)
    // the only way out is an error of wait, after as many waits as calls, with
    // the n of the last receive
    && (o.returned ==>
          IsPollFailure(o.err) && o.calls >= 1 && o.waits == o.calls && o.okWaits + 1 == o.calls && !o.stalled &&
          o.n == Normalize(calls[o.calls - 1].native).n)
    // otherwise every wait returned nil but a last one that is still blocked, and the history ran out
    && (!o.returned && o.calls >= 1 ==> Unfinished(o, |calls|, |scripts|))
    && r.pkt == Delivered(pkt, calls[..o.calls], blocking)
  }

  lemma {:induction false} PacketLoopFacts(d: Desc, blocking: bool, n: int, err: Option<IoError>, pkt0: MsgCtrl, pkt: MsgCtrl,
                                           all: seq<PacketCall>, allScripts: seq<WaitScript>, made: nat, waited: nat)
    requires 1 <= made <= |all| && waited == made - 1 && waited <= |allScripts|
    requires Transfer(n, err) == Normalize(all[made - 1].native)
    requires pkt == Delivered(pkt0, all[..made - 1], blocking)
    ensures PacketFacts(PacketLoop(d, blocking, n, err, all[made - 1].ctrl, pkt, all[made..], allScripts[waited..], made, waited, waited),
                        pkt0, blocking, all, allScripts)
    decreases |all| - made
  {
    if waited < |allScripts| && made < |all| {
      var ws := WaitIn(d, ModeRead, allScripts[waited]);
      if ws.status.Returned? && ws.status.err.None? {
        var calls, scripts := all[made..], allScripts[waited..];
        var ctrl := all[made - 1].ctrl;
        var pkt' := if Copies(Transfer(n, err), blocking) then ctrl else pkt;
        var t := Normalize(all[made].native);
        assert all[..made][..made - 1] == all[..made - 1];
        assert pkt' == Delivered(pkt0, all[..made], blocking);
        assert calls[0] == all[made] && scripts[0] == allScripts[waited];
        assert calls[1..] == all[made + 1..] && scripts[1..] == allScripts[waited + 1..];
        assert PacketLoop(d, blocking, n, err, ctrl, pkt, calls, scripts, made, waited, waited)
               == PacketLoop(ws.desc, blocking, t.n, t.err, all[made].ctrl, pkt', all[made + 1..], allScripts[waited + 1..],
                             made + 1, waited + 1, waited + 1);
        PacketLoopFacts(ws.desc, blocking, t.n, t.err, pkt0, pkt', all, allScripts, made + 1, waited + 1);
        return;
      }
    }
    PacketLoopStops(d, blocking, n, err, pkt0, pkt, all, allScripts, made, waited);
  }

  /** PacketLoop's ends: no wait left, a wait that fails or is still blocked,
      or a wait that returned nil with no receive left. */
  lemma PacketLoopStops(d: Desc, blocking: bool, n: int, err: Option<IoError>, pkt0: MsgCtrl, pkt: MsgCtrl,
                        all: seq<PacketCall>, allScripts: seq<WaitScript>, made: nat, waited: nat)
    requires 1 <= made <= |all| && waited == made - 1 && waited <= |allScripts|
    requires Transfer(n, err) == Normalize(all[made - 1].native)
    requires pkt == Delivered(pkt0, all[..made - 1], blocking)
    requires waited < |allScripts| && made < |all| ==>
               var ws := WaitIn(d, ModeRead, allScripts[waited]); !(ws.status.Returned? && ws.status.err.None?)
    ensures PacketFacts(PacketLoop(d, blocking, n, err, all[made - 1].ctrl, pkt, all[made..], allScripts[waited..], made, waited, waited),
                        pkt0, blocking, all, allScripts)
  {
    var calls, scripts := all[made..], allScripts[waited..];
    var ctrl := all[made - 1].ctrl;
    var r := PacketLoop(d, blocking, n, err, ctrl, pkt, calls, scripts, made, waited, waited);
    var pkt' := if Copies(Transfer(n, err), blocking) then ctrl else pkt;
    assert all[..made][..made - 1] == all[..made - 1];
    assert pkt' == Delivered(pkt0, all[..made], blocking);
    if scripts == [] {
      assert r == PacketRun(d, IoOutcome(false, false, n, err, made, waited, waited), pkt') && waited == |allScripts|;
    } else {
      var ws := WaitIn(d, ModeRead, scripts[0]);
      assert scripts[0] == allScripts[waited];
      if ws.status.Returned? && ws.status.err.Some? {
        assert r == PacketRun(ws.desc, IoOutcome(true, false, n, Some(PollFailure(ws.status.err.value)), made, waited + 1, waited), pkt');
      } else if ws.status.Returned? {
        assert calls == [] && made == |all|;
        assert r == PacketRun(ws.desc, IoOutcome(false, false, n, None, made, waited + 1, waited + 1), pkt');
      } else {
        assert r == PacketRun(ws.desc, IoOutcome(false, true, n, err, made, waited + 1, waited), pkt');
      }
    }
  }

  lemma {:induction false} PacketLoopWaits(d0: Desc, d: Desc, blocking: bool, n: int, err: Option<IoError>, ctrl: MsgCtrl, pkt: MsgCtrl,
                                           calls: seq<PacketCall>, allScripts: seq<WaitScript>, made: nat, waited: nat)
    requires waited <= |allScripts|
    requires d == AfterWaits(d0, ModeRead, allScripts[..waited])
    requires forall k :: 0 <= k < waited ==> NthWait(d0, ModeRead, allScripts, k).status == Returned(None)
    ensures var r := PacketLoop(d, blocking, n, err, ctrl, pkt, calls, allScripts[waited..], made, waited, waited);
            WaitFacts(IoRun(r.desc, r.out), d0, ModeRead, allScripts)
    decreases |calls|
  {
    if waited < |allScripts| && calls != [] {
      var ws := WaitIn(d, ModeRead, allScripts[waited]);
      if ws.status.Returned? && ws.status.err.None? {
        var scripts := allScripts[waited..];
        var pkt' := if Copies(Transfer(n, err), blocking) then ctrl else pkt;
        var t := Normalize(calls[0].native);
        assert scripts[0] == allScripts[waited] && scripts[1..] == allScripts[waited + 1..];
        assert PacketLoop(d, blocking, n, err, ctrl, pkt, calls, scripts, made, waited, waited)
               == PacketLoop(ws.desc, blocking, t.n, t.err, calls[0].ctrl, pkt', calls[1..], allScripts[waited + 1..], made + 1, waited + 1, waited + 1);
        assert ws == NthWait(d0, ModeRead, allScripts, waited);
        assert allScripts[..waited + 1][..waited] == allScripts[..waited];
        assert ws.desc == AfterWaits(d0, ModeRead, allScripts[..waited + 1]);
        assert forall k :: 0 <= k < waited + 1 ==> NthWait(d0, ModeRead, allScripts, k).status == Returned(None);
        PacketLoopWaits(d0, ws.desc, blocking, t.n, t.err, calls[0].ctrl, pkt', calls[1..], allScripts, made + 1, waited + 1);
        return;
      }
    }
    PacketLoopWaitsStop(d0, d, blocking, n, err, ctrl, pkt, calls, allScripts, made, waited);
  }

  /** PacketLoopWaits where the loop ends: no wait left, or in the wait it makes. */
  lemma PacketLoopWaitsStop(d0: Desc, d: Desc, blocking: bool, n: int, err: Option<IoError>, ctrl: MsgCtrl, pkt: MsgCtrl,
                            calls: seq<PacketCall>, allScripts: seq<WaitScript>, made: nat, waited: nat)
    requires waited <= |allScripts|
    requires d == AfterWaits(d0, ModeRead, allScripts[..waited])
    requires forall k :: 0 <= k < waited ==> NthWait(d0, ModeRead, allScripts, k).status == Returned(None)
    requires waited < |allScripts| && calls != [] ==>
               var ws := WaitIn(d, ModeRead, allScripts[waited]); !(ws.status.Returned? && ws.status.err.None?)
    ensures var r := PacketLoop(d, blocking, n, err, ctrl, pkt, calls, allScripts[waited..], made, waited, waited);
            WaitFacts(IoRun(r.desc, r.out), d0, ModeRead, allScripts)
  {
    var scripts := allScripts[waited..];
    var r := PacketLoop(d, blocking, n, err, ctrl, pkt, calls, scripts, made, waited, waited);
    var pkt' := if Copies(Transfer(n, err), blocking) then ctrl else pkt;
    if scripts == [] {
      assert r == PacketRun(d, IoOutcome(false, false, n, err, made, waited, waited), pkt');
      StopsBeforeWait(d0, ModeRead, allScripts, r.out);
    } else {
      var ws := WaitIn(d, ModeRead, scripts[0]);
      assert scripts[0] == allScripts[waited];
      assert ws == NthWait(d0, ModeRead, allScripts, waited);
      assert allScripts[..waited + 1][..waited] == allScripts[..waited];
      assert ws.desc == AfterWaits(d0, ModeRead, allScripts[..waited + 1]);
      if ws.status.Returned? && ws.status.err.Some? {
        assert r == PacketRun(ws.desc, IoOutcome(true, false, n, Some(PollFailure(ws.status.err.value)), made, waited + 1, waited), pkt');
        StopsInWait(d0, ModeRead, allScripts, r.out);
      } else if ws.status.Returned? {
        assert calls == [];
        assert r == PacketRun(ws.desc, IoOutcome(false, false, n, None, made, waited + 1, waited + 1), pkt');
        assert forall k :: 0 <= k < waited + 1 ==> NthWait(d0, ModeRead, allScripts, k).status == Returned(None);
        StopsBeforeWait(d0, ModeRead, allScripts, r.out);
      } else {
        assert r == PacketRun(ws.desc, IoOutcome(false, true, n, err, made, waited + 1, waited), pkt');
        StopsInWait(d0, ModeRead, allScripts, r.out);
      }
    }
  }


  /** ReadPacket returns only on an error of wait, and leaves in the packet the
      message control of the last receive that passed the check. */
  lemma ReadPacketOutcome(d: Desc, blocking: bool, pkt: MsgCtrl, calls: seq<PacketCall>, scripts: seq<WaitScript>)
    ensures PacketFacts(ReadPacket(d, blocking, pkt, calls, scripts), pkt, blocking, calls, scripts)
  {
    if calls != [] {
      var t := Normalize(calls[0].native);
      assert calls[..0] == [];
      PacketLoopFacts(if !blocking then Reset(d, ModeRead) else d, blocking, t.n, t.err, pkt, pkt, calls, scripts, 1, 0);
    }
  }

  /** The waits of ReadPacket decide how it ends: it returns the error of the
      wait that failed, and stalls exactly when its last wait is still
      blocked. */
  lemma ReadPacketWaits(d: Desc, blocking: bool, pkt: MsgCtrl, calls: seq<PacketCall>, scripts: seq<WaitScript>)
    ensures var r := ReadPacket(d, blocking, pkt, calls, scripts);
            WaitFacts(IoRun(r.desc, r.out), if !blocking then Reset(d, ModeRead) else d, ModeRead, scripts)
  {
    var d0 := if !blocking then Reset(d, ModeRead) else d;
    assert scripts[..0] == [] && scripts[0..] == scripts;
    if calls != [] {
      var t := Normalize(calls[0].native);
      PacketLoopWaits(d0, d0, blocking, t.n, t.err, calls[0].ctrl, pkt, calls[1..], scripts, 1, 0);
    }
  }
}
