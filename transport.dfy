/**
 * The native SRT calls as an oracle, and the normalisation the binding puts
 * around them (srtRecvMsg2Impl for receives, srtSendMsg2Impl for sends: the
 * two map a native result the same way).
 */
module Transport {
  import opened Wrappers
  import opened Poll

  /** EAsyncSND and EAsyncRCV: libsrt's SRT_EASYNCSND and SRT_EASYNCRCV. */
  const EAsyncSND: int := 6001
  const EAsyncRCV: int := 6002

  /** What a wrapped native call hands back: its return value and, when that
      is negative, the SRT error number and the system error that
      srt_getlasterror reported. */
  datatype Native = Native(ret: int, srterr: int, syserr: int)

  /** The errors a Read or a Write returns: an SRT error number, or an error
      of the poll descriptor. */
  datatype IoError = SrtErrno(code: int) | PollFailure(e: PollError)

  /** The (n, err) pair of srtRecvMsg2Impl / srtSendMsg2Impl. */
  datatype Transfer = Transfer(n: int, err: Option<IoError>)

  /** A negative native return becomes n = 0 with the SRT error number;
      anything else passes through with no error. The system error is not
      carried into err: the value wrapSysErr builds from it is discarded. */
  function Normalize(c: Native): (t: Transfer)
    ensures t.n >= 0
    ensures t.err.Some? <==> c.ret < 0
    ensures c.ret >= 0 ==> t.n == c.ret
    ensures c.ret < 0 ==> t.n == 0 && t.err == Some(SrtErrno(c.srterr))
  {
    if c.ret < 0 then
      Transfer(0, Some(SrtErrno(c.srterr)))
    else
      Transfer(c.ret, None)
  }

  /** The system error reported with a failed call never reaches (n, err). */
  lemma SystemErrorDropped(c: Native, syserr: int)
    ensures Normalize(c.(syserr := syserr)) == Normalize(c)
  {
  }

  /** errors.Is(err, code) for an SRT error number. */
  predicate IsErrno(err: Option<IoError>, code: int)
  {
    err.Some? && err.value.SrtErrno? && err.value.code == code
  }

  /** errors.Is matches exactly the SRT error with that number. */
  lemma IsErrnoExact(err: Option<IoError>, code: int)
    ensures IsErrno(err, code) <==> err == Some(SrtErrno(code))
  {
  }
}
