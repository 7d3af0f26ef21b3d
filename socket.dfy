/** The parts of SrtSocket that Read, ReadPacket and Write use. */
module Socket {
  import opened Poll
  import opened Retry
  import opened PollDescriptor

  datatype SrtSocket = SrtSocket(socket: int, blocking: bool, pd: PollDesc)

  /** One call of wait(mode) with what the script says other goroutines do
      before it and while it is suspended. */
  method WaitWith(pd: PollDesc, mode: PollMode, sc: WaitScript) returns (st: WaitStatus)
    modifies pd
    ensures WaitStep(pd.Snapshot(), st) == WaitIn(old(pd.Snapshot()), mode, sc)
  {
    pd.ApplyAll(sc.before);
    st := pd.Wait(mode, sc.during);
  }
}
