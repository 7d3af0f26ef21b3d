/**
 * SrtSocket.Read and SrtSocket.ReadPacket. The native receive is an oracle:
 * calls holds what each call of srt_recvmsg2 hands back, in order, and
 * scripts what happens around each call of wait (see module Retry). Both
 * methods are proved against the loop functions of module Retry.
 */
module Read {
  import opened Wrappers
  import opened Poll
  import opened Transport
  import opened Retry
  import opened Socket

  /** The out-fields of SrtPacket; its buffer is not part of this model. */
  class SrtPacket {
    var srctime: int
    var pktseq: int
    var msgno: int

    function Ctrl(): MsgCtrl
      reads this
    {
      MsgCtrl(pktseq, msgno, srctime)
    }

    /** The check at the head of ReadPacket's loop and the three assignments
        it guards, which copy a message control into the packet. */
    method Store(copy: bool, c: MsgCtrl)
      modifies this
      ensures Ctrl() == if copy then c else old(Ctrl())
    {
      if copy {
        pktseq := c.pktseq;
        msgno := c.msgno;
        srctime := c.srctime;
      }
    }
  }

  /** Read: a reset on a non-blocking socket, one receive, then wait and
      receive again for as long as the receive would block. */
  method Read(s: SrtSocket, calls: seq<Native>, scripts: seq<WaitScript>) returns (o: IoOutcome)
    modifies s.pd
    ensures IoRun(s.pd.Snapshot(), o) == Retry.Retry(old(s.pd.Snapshot()), ModeRead, EAsyncRCV, s.blocking, calls, scripts)
    ensures RetryFacts(o, EAsyncRCV, s.blocking, calls, scripts)
    ensures WaitFacts(IoRun(s.pd.Snapshot(), o), if !s.blocking then Reset(old(s.pd.Snapshot()), ModeRead) else old(s.pd.Snapshot()), ModeRead, scripts)
  {
    ghost var spec := Retry.Retry(s.pd.Snapshot(), ModeRead, EAsyncRCV, s.blocking, calls, scripts);
    RetryOutcome(s.pd.Snapshot(), ModeRead, EAsyncRCV, s.blocking, calls, scripts);
    RetryWaits(s.pd.Snapshot(), ModeRead, EAsyncRCV, s.blocking, calls, scripts);
    if !s.blocking {
      s.pd.Reset(ModeRead);
    }
    if calls == [] {
      return IoOutcome(false, false, 0, None, 0, 0, 0);
    }
    var t := Normalize(calls[0]);
    var n, err := t.n, t.err;
    var made, waited := 1, 0;
    while true
      invariant 1 <= made <= |calls| && waited == made - 1 && waited <= |scripts|
      invariant RetryLoop(s.pd.Snapshot(), ModeRead, EAsyncRCV, s.blocking, n, err, calls[made..], scripts[waited..], made, waited, waited)
                == spec
      decreases |calls| - made
    {
      if !IsErrno(err, EAsyncRCV) || s.blocking {
        return IoOutcome(true, false, n, err, made, waited, waited);
      }
      if waited == |scripts| {
        return IoOutcome(false, false, n, err, made, waited, waited);
      }
      var st := WaitWith(s.pd, ModeRead, scripts[waited]);
      if st.Returned? && st.err.Some? {
        return IoOutcome(true, false, n, Some(PollFailure(st.err.value)), made, waited + 1, waited);
      }
      if !st.Returned? {
        return IoOutcome(false, true, n, err, made, waited + 1, waited);
      }
      err := None;
      if made == |calls| {
        return IoOutcome(false, false, n, err, made, waited + 1, waited + 1);
      }
      assert calls[made..][1..] == calls[made + 1..] && scripts[waited..][1..] == scripts[waited + 1..];
      t := Normalize(calls[made]);
      n, err := t.n, t.err;
      made, waited := made + 1, waited + 1;
    }
  }

  /** ReadPacket: like Read, but the message control of a receive that did
      not would-block (or of any receive on a blocking socket) is copied into
      packet, and the loop goes on to wait in every case. */
  method ReadPacket(s: SrtSocket, packet: SrtPacket, calls: seq<PacketCall>, scripts: seq<WaitScript>) returns (o: IoOutcome)
    modifies s.pd, packet
    ensures PacketRun(s.pd.Snapshot(), o, packet.Ctrl())
            == Retry.ReadPacket(old(s.pd.Snapshot()), s.blocking, old(packet.Ctrl()), calls, scripts)
  {
    ghost var spec := Retry.ReadPacket(s.pd.Snapshot(), s.blocking, packet.Ctrl(), calls, scripts);
    if !s.blocking {
      s.pd.Reset(ModeRead);
    }
    if calls == [] {
      return IoOutcome(false, false, 0, None, 0, 0, 0);
    }
    var t := Normalize(calls[0].native);
    var n, err, msgctrl := t.n, t.err, calls[0].ctrl;
    var made, waited := 1, 0;
    ghost var d, p := s.pd.Snapshot(), packet.Ctrl();
    while true
      invariant 1 <= made <= |calls| && waited == made - 1 && waited <= |scripts|
      invariant d == s.pd.Snapshot() && p == packet.Ctrl()
      invariant PacketLoop(d, s.blocking, n, err, msgctrl, p, calls[made..], scripts[waited..], made, waited, waited) == spec
      decreases |calls| - made
    {
      ghost var r := PacketLoop(d, s.blocking, n, err, msgctrl, p, calls[made..], scripts[waited..], made, waited, waited);
      packet.Store(Copies(Transfer(n, err), s.blocking), msgctrl);
      ghost var p' := packet.Ctrl();
      if waited == |scripts| {
        assert r == PacketRun(d, IoOutcome(false, false, n, err, made, waited, waited), p');
        return IoOutcome(false, false, n, err, made, waited, waited);
      }
      PacketLoopAfterWait(d, s.blocking, n, err, msgctrl, p, calls[made..], scripts[waited..], made, waited, waited);
      assert scripts[waited..][0] == scripts[waited] && scripts[waited..][1..] == scripts[waited + 1..];
      ghost var ws := WaitIn(d, ModeRead, scripts[waited]);
      var st := WaitWith(s.pd, ModeRead, scripts[waited]);
      assert s.pd.Snapshot() == ws.desc && st == ws.status && packet.Ctrl() == p';
      if st.Returned? && st.err.Some? {
        return IoOutcome(true, false, n, Some(PollFailure(st.err.value)), made, waited + 1, waited);
      }
      if !st.Returned? {
        return IoOutcome(false, true, n, err, made, waited + 1, waited);
      }
      err := None;
      if made == |calls| {
        return IoOutcome(false, false, n, err, made, waited + 1, waited + 1);
      }
      assert calls[made..][0] == calls[made] && calls[made..][1..] == calls[made + 1..];
      t := Normalize(calls[made].native);
      assert r == PacketLoop(ws.desc, s.blocking, t.n, t.err, calls[made].ctrl, p', calls[made + 1..], scripts[waited + 1..],
                             made + 1, waited + 1, waited + 1);
      n, err, msgctrl := t.n, t.err, calls[made].ctrl;
      made, waited := made + 1, waited + 1;
      d, p := ws.desc, p';
    }
  }
}
