/**
 What a request's runs guarantee about `done()`, `cancel()` and late cancellations, under four side
 conditions on the environment, each of which is shown to be needed.
 */
module RequestOutcome {
  import opened RequestFlags
  import opened RequestRun

  /** With authorization, an UNAUTHENTICATED error is not itself retriable. */
  predicate R1(s: State, e: Event) {
    e.NativeFinish? && e.outcome.Error? ==> !(s.auth && e.outcome.unauth && e.outcome.retriable)
  }

  /** An authorization retry follows only an attempt that was classified with request time left. */
  predicate R2(s: State, e: Event) {
    e.Resolve? && e.allow && s.pc.AuthDeciding? ==> s.pc.awaiting
  }

  /** Work after a native success does not fail with an error that is retried. */
  predicate R3(s: State, e: Event) {
    e.CompleteFail? ==> !e.retry
  }

  /** An error is retried only if it was classified as one that can be. */
  predicate R4(s: State, e: Event) {
    e.HandleError? && e.retry && s.pc.ErrorSeen? ==> s.pc.could
  }

  predicate Fair(s: State, e: Event) { R1(s, e) && R2(s, e) && R3(s, e) && R4(s, e) }

  predicate FairRun(s: State, es: seq<Event>, t: State)
    decreases |es|
  {
    if es == [] then s == t else Enabled(s, es[0]) && Fair(s, es[0]) && FairRun(Next(s, es[0]), es[1..], t)
  }

  // ---------------------------------------------------------------------------------------------
  // The invariant
  // ---------------------------------------------------------------------------------------------

  predicate Early(pc: Pc) { pc in {Idle, Queued, Authenticating, LoopHead, Sending, Opening} }

  /** No trace of a finished attempt. */
  predicate Clean(f: Flags) { !f.terminal && !f.attemptTerminal && !f.undecided && !f.deferred }

  /** What the flags say at each place of the wrapper task. */
  predicate Coherent(s: State) {
    var f := s.flags;
    match s.pc
    case Idle => Clean(f) && f.future == NoFuture
    case InFlight =>
      && !f.terminal && !f.undecided && s.native != NoCall
      && (f.attemptTerminal <==> s.native.Finished? && s.native.marked)
      && (f.deferred ==> f.attemptTerminal && f.cancelled)
    case Completing => f.terminal && !f.undecided && !f.attemptTerminal && !f.deferred
    case ErrorSeen(could, awaiting, unauth) =>
      && f.terminal && f.attemptTerminal == awaiting && f.undecided == (could || awaiting)
      && (awaiting ==> s.auth && unauth && !could) && (could && s.auth ==> !unauth)
      && (f.deferred ==> f.undecided)
    case AuthDeciding(awaiting, unauth) =>
      && f.terminal && f.attemptTerminal == awaiting == f.undecided && (awaiting ==> unauth)
      && (f.deferred ==> awaiting)
    case Ended(r) =>
      && (r != TaskCancelled ==> !f.attemptTerminal && !f.undecided && !f.deferred)
      && (r in {Succeeded, FinalError} ==> f.terminal)
      && (r == TaskCancelled ==> !f.terminal && !f.undecided)
    case _ => Clean(f)
  }

  /** Native calls are marked before they are looked at, and looked at once. */
  predicate NativeOk(s: State) {
    && (Early(s.pc) ==> s.native.NoCall? || (s.native.Finished? && s.native.marked))
    && (s.pc.Completing? || s.pc.ErrorSeen? || s.pc.AuthDeciding? ==> s.native.Finished? && s.native.marked)
    && (s.pc.Ended? && s.pc.result != TaskCancelled ==> s.native.NoCall? || (s.native.Finished? && s.native.marked))
    && (s.native.Finished? && s.native.outcome.Error? ==>
              !(s.auth && s.native.outcome.unauth && s.native.outcome.retriable))
  }

  /** A request that recorded a late cancellation opens no further call and ends in one of two ways. */
  predicate LateOk(s: State) {
    s.late.Some? ==>
      && s.late.value == s.attempts && !Early(s.pc)
      && match s.pc
         case InFlight => s.flags.cancelled && s.flags.deferred
         case Completing => !s.flags.cancelled
         case ErrorSeen(_, _, _) => s.flags.cancelled == s.flags.undecided
         case AuthDeciding(awaiting, _) => s.flags.cancelled == awaiting
         case Ended(r) =>
           if r in {Succeeded, FinalError} then !s.flags.cancelled else r in {CancelledError, DeadlineError}
         case _ => false
  }

  predicate Inv(s: State) { Coherent(s) && NativeOk(s) && LateOk(s) }

  lemma StartInv(auth: bool, override: bool)
    ensures Inv(Start(auth, override)) && LeaseInv(Start(auth, override)) && FutureInv(Start(auth, override))
  {}

  lemma BeginningInv(s: State, e: Event)
    requires Inv(s) && Enabled(s, e) && Preparing(e) && !(e.Head? || e.SendCheck? || e.OpenCall? || e.OpenFail?)
    ensures Inv(Next(s, e))
  {
    hide GiveBack, Take, HandleFailure;
  }

  lemma CheckingInv(s: State, e: Event)
    requires Inv(s) && Enabled(s, e) && (e.Head? || e.SendCheck?)
    ensures Inv(Next(s, e))
  {
    hide GiveBack, Take;
  }

  lemma OpeningInv(s: State, e: Event)
    requires Inv(s) && Enabled(s, e) && (e.OpenCall? || e.OpenFail?)
    ensures Inv(Next(s, e))
  {
    hide GiveBack, Take;
  }

  lemma ResumeInv(s: State, e: Event)
    requires Inv(s) && Enabled(s, e) && Fair(s, e) && (e.Resume? || e.CompleteOk? || e.Resolve?)
    ensures Inv(Next(s, e))
  {
    hide GiveBack, Take;
  }

  lemma ErrorInv(s: State, e: Event)
    requires Inv(s) && Enabled(s, e) && Fair(s, e) && e.HandleError?
    ensures Inv(Next(s, e))
  {
    hide GiveBack, Take;
  }

  lemma CompletionInv(s: State, e: Event)
    requires Inv(s) && Enabled(s, e) && Fair(s, e) && e.CompleteFail?
    ensures Inv(Next(s, e))
  {
    hide GiveBack, Take;
  }

  lemma CallerInv(s: State, e: Event)
    requires Inv(s) && Enabled(s, e) && (e.Cancel? || e.Expire?)
    ensures Inv(Next(s, e))
  {
    hide GiveBack, Take;
  }

  lemma OtherInv(s: State, e: Event)
    requires Inv(s) && Enabled(s, e) && Fair(s, e) && !Preparing(e) && !Concluding(e) && !e.Cancel? && !e.Expire?
    ensures Inv(Next(s, e))
  {
    hide GiveBack, Take;
  }

  lemma InvStep(s: State, e: Event)
    requires Inv(s) && Enabled(s, e) && Fair(s, e)
    ensures Inv(Next(s, e))
  {
    hide Inv, Enabled, Fair, Next;
    if e.Head? || e.SendCheck? {
      CheckingInv(s, e);
    } else if e.OpenCall? || e.OpenFail? {
      OpeningInv(s, e);
    } else if Preparing(e) {
      BeginningInv(s, e);
    } else if e.Resume? || e.CompleteOk? || e.Resolve? {
      ResumeInv(s, e);
    } else if e.HandleError? {
      ErrorInv(s, e);
    } else if e.CompleteFail? {
      CompletionInv(s, e);
    } else if e.Cancel? || e.Expire? {
      CallerInv(s, e);
    } else {
      OtherInv(s, e);
    }
  }

  // ---------------------------------------------------------------------------------------------
  // The flags after a concluding event
  // ---------------------------------------------------------------------------------------------

  function ConcludedFlags(s: State, e: Event): Flags
    requires Enabled(s, e) && Concluding(e)
  {
    match e
    case Resume(timeLeft, retriesLeft) => (
      match s.native.outcome
      case Success => PublishSuccess(s.flags)
      case Error(unauth, retriable) =>
        ClassifyError(s.flags, timeLeft && retriable && retriesLeft, s.auth && timeLeft && unauth))
    case HandleError(retry, _) => HandleFailure(s.flags, retry, s.auth && s.pc.unauth).0
    case CompleteFail(retry, unauth, _, _) => HandleFailure(s.flags, retry, s.auth && unauth).0
    case Resolve(allow) => ResolveAuth(s.flags, allow).0
    case _ => s.flags
  }

  /** A step that gives back leases and moves on keeps everything else of its state. */
  predicate Moved(s: State, f: Flags, t: State) {
    t.flags == f && t.injected == s.injected && (t.pc.Ended? ==> t.pc.result != TaskCancelled)
  }

  lemma AfterFailureMoves(s: State, d: (Flags, Verdict), deferAuth: bool, awaiting: bool, service: bool,
                          dropLease: bool)
    ensures Moved(s, d.0, AfterFailure(s, d, deferAuth, awaiting, service, dropLease))
  {
    hide GiveBack;
  }

  lemma ConcludingMoves(s: State, e: Event)
    requires Enabled(s, e) && Concluding(e)
    ensures Moved(s, ConcludedFlags(s, e), Next(s, e))
  {
    hide GiveBack, AfterFailure, HandleFailure, ResolveAuth, PublishSuccess, ClassifyError;
    match e
    case HandleError(retry, dropLease) =>
      var deferAuth := s.auth && s.pc.unauth;
      AfterFailureMoves(s, HandleFailure(s.flags, retry, deferAuth), deferAuth, s.pc.awaiting, true, dropLease);
    case CompleteFail(retry, unauth, service, dropLease) =>
      var deferAuth := s.auth && unauth;
      AfterFailureMoves(s, HandleFailure(s.flags, retry, deferAuth), deferAuth, false, service, dropLease);
    case Resolve(allow) =>
    case _ =>
  }

  // ---------------------------------------------------------------------------------------------
  // done() is stable, and late cancellations are resolved
  // ---------------------------------------------------------------------------------------------

  lemma DoneStep(s: State, e: Event)
    requires Inv(s) && Enabled(s, e) && Fair(s, e) && Done(s.flags)
    ensures Done(Next(s, e).flags)
  {
    hide Inv, Enabled, Fair, Next, Done;
    if Preparing(e) {
      DonePreparing(s, e);
    } else if Concluding(e) {
      DoneConcluding(s, e);
    } else {
      DoneOther(s, e);
    }
  }

  /** A final result stays final, and a recorded cancellation is forgotten only for a final result. */
  lemma ConcludingSettles(s: State, e: Event)
    requires Coherent(s) && Enabled(s, e) && Fair(s, e) && Concluding(e)
    ensures Final(s.flags) ==> Final(ConcludedFlags(s, e))
    ensures s.flags.cancelled ==> ConcludedFlags(s, e).cancelled || Final(ConcludedFlags(s, e))
    ensures ConcludedFlags(s, e).future == s.flags.future
  {}

  lemma DoneConcluding(s: State, e: Event)
    requires Inv(s) && Enabled(s, e) && Fair(s, e) && Done(s.flags) && Concluding(e)
    ensures Done(Next(s, e).flags)
  {
    hide Coherent, NativeOk, LateOk, Fair, Enabled, Next, ConcludedFlags;
    ConcludingMoves(s, e);
    ConcludingSettles(s, e);
  }

  lemma DoneOther(s: State, e: Event)
    requires Inv(s) && Enabled(s, e) && Done(s.flags) && !Preparing(e) && !Concluding(e)
    ensures Done(Next(s, e).flags)
  {
    hide GiveBack, Take, LateOk, NativeOk;
  }

  lemma DonePreparing(s: State, e: Event)
    requires Inv(s) && Enabled(s, e) && Done(s.flags) && Preparing(e)
    ensures Done(Next(s, e).flags)
  {
    hide GiveBack, Take, LateOk, NativeOk;
  }

  /**
   In every fair run a late cancellation or expiry opens no further native call, and the request
   ends in its finished attempt's success or final error with `cancelled` cleared, or else in a
   cancellation or deadline error. Once done, a request stays done.
   */
  lemma {:induction false} FairRunsAreSafe(s: State, es: seq<Event>, t: State)
    requires Inv(s) && FairRun(s, es, t)
    ensures Inv(t)
    ensures Done(s.flags) ==> Done(t.flags)
    ensures t.late.Some? ==> t.attempts == t.late.value
    ensures t.late.Some? && t.pc.Ended? ==>
              || (t.pc.result in {Succeeded, FinalError} && t.flags.terminal && !t.flags.cancelled)
              || t.pc.result in {CancelledError, DeadlineError}
    decreases |es|
  {
    hide Enabled, Fair, Next, Done;
    if es != [] {
      InvStep(s, es[0]);
      if Done(s.flags) { DoneStep(s, es[0]); }
      FairRunsAreSafe(Next(s, es[0]), es[1..], t);
    }
  }

  /** The same from the start of a request, for any two moments of one of its runs. */
  lemma RequestIsSafe(auth: bool, override: bool, es: seq<Event>, s: State, fs: seq<Event>, t: State)
    requires FairRun(Start(auth, override), es, s) && FairRun(s, fs, t)
    ensures Done(s.flags) ==> Done(t.flags)
    ensures t.late.Some? ==> t.attempts == t.late.value
    ensures t.late.Some? && t.pc.Ended? ==>
              || (t.pc.result in {Succeeded, FinalError} && t.flags.terminal && !t.flags.cancelled)
              || t.pc.result in {CancelledError, DeadlineError}
  {
    hide FairRun, Inv, Done;
    StartInv(auth, override);
    FairRunsAreSafe(Start(auth, override), es, s);
    FairRunsAreSafe(s, fs, t);
  }

  // ---------------------------------------------------------------------------------------------
  // cancel() on a request that is done
  // ---------------------------------------------------------------------------------------------

  /** The shared awaitable was cancelled although the request neither knows nor has a final result. */
  predicate Orphaned(s: State) {
    s.flags.future == FutureCancelled && !s.flags.cancelled && !Final(s.flags)
  }

  /** A done request accepts a cancellation exactly when its awaitable was cancelled behind its back. */
  lemma CancelOfDone(s: State)
    requires Inv(s) && Done(s.flags) && (s.flags.future == FutureDone ==> s.pc.Ended? && s.pc.result != TaskCancelled)
    ensures AfterCancel(s.flags).1 <==> Orphaned(s)
  {}

  /**
   Events that go through the request: no cancellation of the awaitable or the task by somebody
   else, and no authorization deadline that passes under a cancelled awaitable.
   */
  predicate Own(s: State, e: Event) {
    && !e.OutsideCancel?
    && (e.InjectCancel? ==> s.flags.future == FutureCancelled)
    && (e.AuthFail? && e.deadlinePassed ==> s.flags.future != FutureCancelled)
  }

  predicate OwnRun(s: State, es: seq<Event>, t: State)
    decreases |es|
  {
    if es == [] then s == t
    else Enabled(s, es[0]) && Fair(s, es[0]) && Own(s, es[0]) && OwnRun(Next(s, es[0]), es[1..], t)
  }

  predicate FutureInv(s: State) {
    && (s.injected ==> s.flags.future == FutureCancelled)
    && (s.pc.Ended? && s.pc.result == TaskCancelled ==> s.flags.future == FutureCancelled)
    && (s.flags.future == FutureDone ==> s.pc.Ended? && s.pc.result != TaskCancelled)
    && !Orphaned(s)
  }

  lemma FutureConcluding(s: State, e: Event)
    requires Inv(s) && FutureInv(s) && Enabled(s, e) && Fair(s, e) && Concluding(e)
    ensures FutureInv(Next(s, e))
  {
    hide Coherent, NativeOk, LateOk, Fair, Next, ConcludedFlags;
    ConcludingMoves(s, e);
    ConcludingSettles(s, e);
  }

  lemma FutureBeginning(s: State, e: Event)
    requires Inv(s) && FutureInv(s) && Enabled(s, e) && Own(s, e)
    requires Preparing(e) && !(e.Head? || e.SendCheck? || e.OpenCall? || e.OpenFail?)
    ensures FutureInv(Next(s, e))
  {
    hide GiveBack, Take, LateOk, NativeOk, HandleFailure;
  }

  lemma FutureSending(s: State, e: Event)
    requires Inv(s) && FutureInv(s) && Enabled(s, e) && (e.Head? || e.SendCheck? || e.OpenCall? || e.OpenFail?)
    ensures FutureInv(Next(s, e))
  {
    hide GiveBack, Take, LateOk, NativeOk;
  }

  lemma FutureOther(s: State, e: Event)
    requires Inv(s) && FutureInv(s) && Enabled(s, e) && Own(s, e) && !Preparing(e) && !Concluding(e)
    ensures FutureInv(Next(s, e))
  {
    hide GiveBack, Take, LateOk, NativeOk;
  }

  lemma FutureStep(s: State, e: Event)
    requires Inv(s) && FutureInv(s) && Enabled(s, e) && Fair(s, e) && Own(s, e)
    ensures FutureInv(Next(s, e))
  {
    hide Inv, FutureInv, Enabled, Fair, Own, Next;
    if e.Head? || e.SendCheck? || e.OpenCall? || e.OpenFail? {
      FutureSending(s, e);
    } else if Preparing(e) {
      FutureBeginning(s, e);
    } else if Concluding(e) {
      FutureConcluding(s, e);
    } else {
      FutureOther(s, e);
    }
  }

  /** In runs of the request's own events, `cancel()` returns false once the request is done. */
  lemma {:induction false} DoneRefusesCancel(s: State, es: seq<Event>, t: State)
    requires Inv(s) && FutureInv(s) && OwnRun(s, es, t)
    ensures FutureInv(t)
    ensures Done(t.flags) ==> AfterCancel(t.flags) == (t.flags, false)
    decreases |es|
  {
    hide Enabled, Fair, Own, Next, Done, AfterCancel, Orphaned, Coherent, NativeOk, LateOk;
    if es != [] {
      InvStep(s, es[0]);
      FutureStep(s, es[0]);
      DoneRefusesCancel(Next(s, es[0]), es[1..], t);
    } else if Done(t.flags) {
      CancelOfDone(t);
      RefusedCancel(t.flags);
    }
  }

  lemma DoneRequestRefusesCancel(auth: bool, override: bool, es: seq<Event>, t: State)
    requires OwnRun(Start(auth, override), es, t) && Done(t.flags)
    ensures AfterCancel(t.flags) == (t.flags, false)
  {
    hide OwnRun, Inv, FutureInv, Done;
    StartInv(auth, override);
    DoneRefusesCancel(Start(auth, override), es, t);
  }

  lemma RefusedCancel(f: Flags)
    requires !AfterCancel(f).1
    ensures AfterCancel(f).0 == f
  {}
}
