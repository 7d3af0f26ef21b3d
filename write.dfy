/**
 * SrtSocket.Write. The native send is an oracle: calls holds what each call
 * of srt_sendmsg2 hands back, in order, and scripts what happens around each
 * call of wait (see module Retry).
 */
module Write {
  import opened Wrappers
  import opened Poll
  import opened Transport
  import opened Retry
  import opened Socket

  /** Write: a reset on a non-blocking socket, one send, then wait and send
      again for as long as the send would block. */
  method Write(s: SrtSocket, calls: seq<Native>, scripts: seq<WaitScript>) returns (o: IoOutcome)
    modifies s.pd
    ensures IoRun(s.pd.Snapshot(), o) == Retry.Retry(old(s.pd.Snapshot()), ModeWrite, EAsyncSND, s.blocking, calls, scripts)
    ensures RetryFacts(o, EAsyncSND, s.blocking, calls, scripts)
    ensures WaitFacts(IoRun(s.pd.Snapshot(), o), if !s.blocking then Reset(old(s.pd.Snapshot()), ModeWrite) else old(s.pd.Snapshot()), ModeWrite, scripts)
  {
    ghost var spec := Retry.Retry(s.pd.Snapshot(), ModeWrite, EAsyncSND, s.blocking, calls, scripts);
    RetryOutcome(s.pd.Snapshot(), ModeWrite, EAsyncSND, s.blocking, calls, scripts);
    RetryWaits(s.pd.Snapshot(), ModeWrite, EAsyncSND, s.blocking, calls, scripts);
    if !s.blocking {
      s.pd.Reset(ModeWrite);
    }
    if calls == [] {
      return IoOutcome(false, false, 0, None, 0, 0, 0);
    }
    var t := Normalize(calls[0]);
    var n, err := t.n, t.err;
    var made, waited := 1, 0;
    while true
      invariant 1 <= made <= |calls| && waited == made - 1 && waited <= |scripts|
      invariant RetryLoop(s.pd.Snapshot(), ModeWrite, EAsyncSND, s.blocking, n, err, calls[made..], scripts[waited..], made, waited, waited)
                == spec
      decreases |calls| - made
    {
      if !IsErrno(err, EAsyncSND) || s.blocking {
        return IoOutcome(true, false, n, err, made, waited, waited);
      }
      if waited == |scripts| {
        return IoOutcome(false, false, n, err, made, waited, waited);
      }
      var st := WaitWith(s.pd, ModeWrite, scripts[waited]);
      if st.Returned? && st.err.Some? {
        return IoOutcome(true, false, n, Some(PollFailure(st.err.value)), made, waited + 1, waited);
      }
      if !st.Returned? {
        return IoOutcome(false, true, n, err, made, waited + 1, waited);
      }
      err := None;
      if made == |calls| {
        return IoOutcome(false, false, n, err, made, waited + 1, waited + 1);
      }
      assert calls[made..][1..] == calls[made + 1..] && scripts[waited..][1..] == scripts[waited + 1..];
      t := Normalize(calls[made]);
      n, err := t.n, t.err;
      made, waited := made + 1, waited + 1;
    }
  }
}
