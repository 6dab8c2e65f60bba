/**
 The lock-protected sections of a logical request: what cancellation, expiry, native completion,
 error classification and authorization-retry resolution each do to the request's flags.
 */
module RequestFlags {

  /** The shared awaitable of a request, as its lock-protected sections see it. */
  datatype Future = NoFuture | Pending | FutureCancelled | FutureDone

  /**
   `terminal` and `attemptTerminal` tell that a native attempt has finished, with and without its
   result being classified; `undecided` that a retry is still being decided; `deferred` that a
   cancellation was recorded behind a finished attempt; `expired` that it was a deadline.
   */
  datatype Flags = Flags(cancelled: bool, terminal: bool, attemptTerminal: bool, undecided: bool,
                         deferred: bool, expired: bool, future: Future)

  const INITIAL := Flags(false, false, false, false, false, false, NoFuture)

  predicate FutureOver(f: Flags) { f.future == FutureCancelled || f.future == FutureDone }

  /** A native result that no retry can replace any more. */
  predicate Final(f: Flags) { f.terminal && !f.undecided }

  predicate Done(f: Flags) { Final(f) || FutureOver(f) }

  /** Cancelling the shared awaitable; a cancelled one accepts again, a finished one does not. */
  function CancelFuture(f: Flags): (Flags, bool) {
    match f.future
    case Pending => (f.(future := FutureCancelled), true)
    case FutureCancelled => (f, true)
    case _ => (f, false)
  }

  function AfterCancel(f: Flags): (Flags, bool) {
    if f.cancelled || Final(f) then (f, false)
    else if f.attemptTerminal then (f.(cancelled := true, deferred := true), true)
    else if f.future == NoFuture then (f.(cancelled := true), true)
    else
      var (g, accepted) := CancelFuture(f);
      (if accepted then g.(cancelled := true) else g, accepted)
  }

  /** The shared awaitable as it is after something may have arrived at it. */
  function Arrived(f: Flags, arrived: Future): Flags { if f.future == Pending then f.(future := arrived) else f }

  /**
   Deadline expiry; the answer tells whether the wait must go on for a finished attempt. What arrives at
   a pending awaitable between the first look at it and its cancellation is `arrived`.
   */
  function AfterExpire(f: Flags, arrived: Future): (Flags, bool) {
    if FutureOver(f) then (f, f.future == FutureDone)
    else if Final(f) then (f.(expired := true), true)
    else if f.attemptTerminal || (f.terminal && f.undecided) then
      (if f.cancelled then f else f.(expired := true, cancelled := true, deferred := true), true)
    else
      var g := AfterCancel(Arrived(f, arrived)).0;
      (g, g.future == FutureDone)
  }

  function MarkAttempt(f: Flags): Flags {
    if f.terminal then f else f.(attemptTerminal := true)
  }

  function PublishSuccess(f: Flags): Flags {
    var g := f.(terminal := true, attemptTerminal := false);
    if g.deferred then g.(deferred := false, cancelled := false) else g
  }

  /** A native error: a retry may still be possible, or authorization may still allow one. */
  function ClassifyError(f: Flags, couldRetry: bool, awaitingAuth: bool): Flags {
    var g := f.(terminal := true, attemptTerminal := awaitingAuth, undecided := couldRetry || awaitingAuth);
    if g.deferred && !g.undecided then g.(deferred := false, cancelled := false) else g
  }

  datatype Verdict = CancelledRetry | Retry | Raise

  /** The failure handler of the retry loop. */
  function HandleFailure(f: Flags, wantsRetry: bool, deferAuth: bool): (Flags, Verdict) {
    var retry := wantsRetry && !(f.expired && !f.undecided);
    var over := f.terminal || f.attemptTerminal;
    var stop := retry && over && f.undecided && f.cancelled;
    var g := f.(terminal := over,
                attemptTerminal := f.attemptTerminal && (!over || deferAuth),
                undecided := f.undecided && deferAuth,
                deferred := f.deferred && (!over || deferAuth),
                cancelled := f.cancelled && (!over || retry || deferAuth));
    (if retry && over && !stop then g.(terminal := false) else g,
     if stop then CancelledRetry else if retry then Retry else Raise)
  }

  /** The authorization decision; the answer tells whether a cancellation prevents the retry. */
  function ResolveAuth(f: Flags, retry: bool): (Flags, bool) {
    var stop := retry && f.undecided && f.cancelled;
    var g := f.(undecided := false, attemptTerminal := false, deferred := false);
    (if retry && !stop then g.(terminal := false) else if !retry then g.(cancelled := false) else g, stop)
  }

  // ---------------------------------------------------------------------------------------------
  // The request object
  // ---------------------------------------------------------------------------------------------

  class Request {
    var cancelled: bool
    var nativeTerminal: bool
    var nativeAttemptTerminal: bool
    var retryDecisionPending: bool
    var cancelAfterTerminalAttempt: bool
    var deadlineExpired: bool
    var future: Future

    function View(): Flags
      reads this
    {
      Flags(cancelled, nativeTerminal, nativeAttemptTerminal, retryDecisionPending,
            cancelAfterTerminalAttempt, deadlineExpired, future)
    }

    constructor ()
      ensures View() == INITIAL
    {
      cancelled, nativeTerminal, nativeAttemptTerminal := false, false, false;
      retryDecisionPending, cancelAfterTerminalAttempt, deadlineExpired := false, false, false;
      future := NoFuture;
    }

    method IsDone() returns (r: bool)
      ensures r == Done(View())
    {
      var terminal := nativeTerminal && !retryDecisionPending;
      return terminal || future == FutureCancelled || future == FutureDone;
    }

    /** `Future.cancel` of the shared awaitable. */
    method CancelShared() returns (accepted: bool)
      modifies this
      ensures (View(), accepted) == CancelFuture(old(View()))
    {
      match future {
        case Pending => future := FutureCancelled; return true;
        case FutureCancelled => return true;
        case _ => return false;
      }
    }

    method Cancel() returns (accepted: bool)
      modifies this
      ensures (View(), accepted) == AfterCancel(old(View()))
    {
      if cancelled || (nativeTerminal && !retryDecisionPending) { return false; }
      if nativeAttemptTerminal {
        cancelled := true;
        cancelAfterTerminalAttempt := true;
        return true;
      }
      if future == NoFuture {
        cancelled := true;
        return true;
      }
      accepted := CancelShared();
      if accepted { cancelled := true; }
    }

    /** `arrived` is what the shared awaitable has become when it is to be cancelled. */
    method ExpireWait(arrived: Future) returns (keepWaiting: bool)
      modifies this
      ensures (View(), keepWaiting) == AfterExpire(old(View()), arrived)
    {
      if future == FutureCancelled || future == FutureDone { return future == FutureDone; }
      if nativeTerminal && !retryDecisionPending {
        deadlineExpired := true;
        return true;
      }
      if nativeAttemptTerminal || (nativeTerminal && retryDecisionPending) {
        if !cancelled {
          deadlineExpired := true;
          cancelled := true;
          cancelAfterTerminalAttempt := true;
        }
        return true;
      }
      if future == Pending { future := arrived; }
      var _ := Cancel();
      return future == FutureDone;
    }

    method MarkNativeAttemptTerminal()
      modifies this
      ensures View() == MarkAttempt(old(View()))
    {
      if !nativeTerminal { nativeAttemptTerminal := true; }
    }

    method PublishNativeSuccess()
      modifies this
      ensures View() == PublishSuccess(old(View()))
    {
      nativeTerminal := true;
      nativeAttemptTerminal := false;
      if cancelAfterTerminalAttempt {
        cancelAfterTerminalAttempt := false;
        cancelled := false;
      }
    }

    method ClassifyNativeError(couldRetry: bool, awaitingAuthRetry: bool)
      modifies this
      ensures View() == ClassifyError(old(View()), couldRetry, awaitingAuthRetry)
    {
      nativeTerminal := true;
      nativeAttemptTerminal := awaitingAuthRetry;
      retryDecisionPending := couldRetry || awaitingAuthRetry;
      if cancelAfterTerminalAttempt && !retryDecisionPending {
        cancelAfterTerminalAttempt := false;
        cancelled := false;
      }
    }

    method HandleAttemptFailure(wantsRetry: bool, deferredUnauthenticated: bool) returns (v: Verdict)
      modifies this
      ensures (View(), v) == HandleFailure(old(View()), wantsRetry, deferredUnauthenticated)
    {
      var retry := wantsRetry;
      if deadlineExpired && !retryDecisionPending { retry := false; }
      var terminalAttempt := nativeTerminal || nativeAttemptTerminal;
      if terminalAttempt {
        nativeTerminal := true;
        if !deferredUnauthenticated { nativeAttemptTerminal := false; }
      }
      var cancelledDuringDecision := retry && terminalAttempt && retryDecisionPending && cancelled;
      if !deferredUnauthenticated { retryDecisionPending := false; }
      if terminalAttempt && !deferredUnauthenticated {
        nativeAttemptTerminal := false;
        cancelAfterTerminalAttempt := false;
      }
      if terminalAttempt && !retry && !deferredUnauthenticated { cancelled := false; }
      if retry && terminalAttempt && !cancelledDuringDecision { nativeTerminal := false; }
      return if cancelledDuringDecision then CancelledRetry else if retry then Retry else Raise;
    }

    method ResolveAuthorizationRetry(retry: bool) returns (cancelledRetry: bool)
      modifies this
      ensures (View(), cancelledRetry) == ResolveAuth(old(View()), retry)
    {
      cancelledRetry := retry && retryDecisionPending && cancelled;
      retryDecisionPending := false;
      nativeAttemptTerminal := false;
      cancelAfterTerminalAttempt := false;
      if retry && !cancelledRetry {
        nativeTerminal := false;
      } else if !retry {
        cancelled := false;
      }
    }
  }
}
