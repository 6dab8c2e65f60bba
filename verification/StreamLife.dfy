/**
 The life of a stream: starting it, cancelling it from any thread at any point of the start, and
 handing its transport back. Every step is one section under the state lock, or the foreign call
 between two of them.
 */
module StreamLife {
  import opened Deadlines
  import opened Options

  /** Where the start of the stream stands. */
  datatype Pc = Idle | Authenticating | Ready | Acquired | Leased | Made | Running | Failed

  /** The native call: not created, created but not published yet, or published. */
  datatype Call = NoCall | Unpublished | Published

  /** How far a cancellation has come: asked for, on its way to the loop, or rejected by it. */
  datatype Cancelling = NoCancel | Asked | Submitted | Rejected

  /** How far an abort has come. */
  datatype Abort = NotAborting | Marked(sawCall: bool) | CallAsked | Aborted

  /**
   The transport: the stream holds or held one, `released` claims its release and `releasing` tells that
   the release is under way. `handedBack` counts the releases that succeeded, and `lastFailed` tells that
   the last one to end failed. A transport obtained too late to be held goes back at once and is not one
   of these.
   */
  datatype Lease = Lease(hasLease: bool, released: bool, releasing: bool, handedBack: nat, lastFailed: bool)

  /** The flags of a cancellation; `forgotten` tells that one was made repeatable since the last abort began. */
  datatype Stop = Stop(cancelRequested: bool, cancelled: bool, forgotten: bool)

  /** `auth` tells that authentication is still to be done, and `event` that an abort has waked it up. */
  datatype Stream = Stream(
    pc: Pc, auth: bool, event: bool, call: Call, callAsked: bool, lease: Lease, stop: Stop, terminal: bool,
    serverStreaming: bool, cancelling: Cancelling, abort: Abort)

  /** A new stream, with or without a transport of the caller and authentication. */
  function Fresh(override: bool, serverStreaming: bool, auth: bool): Stream {
    Stream(Idle, auth, false, NoCall, false, Lease(override, false, false, 0, false), Stop(false, false, false), false,
           serverStreaming, NoCancel, NotAborting)
  }

  predicate Stopped(s: Stream) { s.stop.cancelRequested || s.stop.cancelled }

  // ---------------------------------------------------------------------------------------------
  // Sections
  // ---------------------------------------------------------------------------------------------

  /** Claims the release of the transport, unless there is none or it is claimed already. */
  function Claimed(l: Lease): Lease {
    if l.released || !l.hasLease then l else l.(released := true, releasing := true)
  }

  function ClaimRelease(s: Stream): Stream { s.(lease := Claimed(s.lease)) }

  /** The release has ended; a failed one gives the claim back. */
  function ReleaseEnded(l: Lease, ok: bool): Lease {
    if ok then l.(releasing := false, handedBack := l.handedBack + 1, lastFailed := false)
    else l.(releasing := false, released := false, lastFailed := true)
  }

  /** A cancellation has something to do: the stream is open, or a terminal one still has its lease. */
  predicate Cancellable(s: Stream) {
    !s.stop.cancelRequested && !s.stop.cancelled && !s.lease.released && !(s.terminal && !s.serverStreaming)
  }

  function Cancel(s: Stream): (Stream, bool) {
    if Cancellable(s) then (s.(stop := s.stop.(cancelRequested := true), cancelling := Asked), !s.terminal)
    else (s, false)
  }

  /** A submission that is rejected releases the transport before the cancellation is forgotten. */
  function CancelSubmitted(s: Stream, ok: bool): Stream {
    if ok then s.(cancelling := Submitted) else ClaimRelease(s.(cancelling := Rejected))
  }

  /** Without a loop to submit to, the abort runs on the loop of the owner, if that still runs. */
  function CancelledLocally(s: Stream, dispatched: bool): Stream {
    var kept := dispatched || s.stop.cancelled || s.lease.released;
    s.(cancelling := NoCancel, stop := s.stop.(cancelRequested := kept))
  }

  /** The submitted cancellation has ended; with an error and the transport not released it can be repeated. */
  function SubmissionEnded(s: Stream, error: bool): Stream {
    s.(cancelling := NoCancel, stop := if error && !s.lease.released then Stop(false, false, true) else s.stop)
  }

  /** An operation whose dispatch comes too late cancels and releases the stream without an abort. */
  function DispatchedLate(s: Stream): Stream {
    ClaimRelease(s.(stop := s.stop.(cancelRequested := true, cancelled := true)))
  }

  /** The end of authentication; one that an abort has waked up fails, and the event is never taken back. */
  function AuthEnded(s: Stream): Stream {
    if Stopped(s) || (s.auth && s.event) then ClaimRelease(s.(pc := Failed)) else s.(pc := Ready, auth := false)
  }

  /** Publishes a transport just obtained, or hands it back at once; the start can then be tried again. */
  function PublishLease(s: Stream): Stream {
    if !Stopped(s) && !s.lease.released then s.(lease := s.lease.(hasLease := true), pc := Leased)
    else s.(pc := Idle)
  }

  /** Publishes a native call just created, or asks it to cancel. */
  function PublishCall(s: Stream): Stream {
    if !Stopped(s) && !s.lease.released then s.(call := Published, pc := Running)
    else ClaimRelease(s.(callAsked := true, pc := Failed))
  }

  function AbortMark(s: Stream): Stream {
    s.(stop := s.stop.(cancelled := true, forgotten := false), event := true, abort := Marked(s.call == Published))
  }

  // ---------------------------------------------------------------------------------------------
  // Runs
  // ---------------------------------------------------------------------------------------------

  datatype Event =
    | Enter
    | AuthOk
    | AuthFail
    | Acquire
    | PublishAddress
    | MakeCall(ok: bool)
    | Publish
    | NativeTerminal
    | CancelAsk
    | SubmitCancel(ok: bool)
    | ForgetCancel
    | CancelLocally(dispatched: bool)
    | SubmissionEnds(error: bool)
    | DispatchExpires
    | RejectClose
    | AbortStart
    | AbortCall
    | AbortRelease
    | EndRelease(ok: bool)
    | Finish

  predicate Enabled(s: Stream, e: Event) {
    match e
    case Enter => s.pc == Idle
    case AuthOk | AuthFail => s.pc == Authenticating
    case Acquire => s.pc == Ready
    case PublishAddress => s.pc == Acquired
    case MakeCall(_) => s.pc == Leased
    case Publish => s.pc == Made
    case NativeTerminal => s.pc == Running
    case CancelAsk | DispatchExpires | RejectClose => true
    case SubmitCancel(_) | CancelLocally(_) => s.cancelling == Asked
    case ForgetCancel => s.cancelling == Rejected
    case SubmissionEnds(_) => s.cancelling == Submitted
    case AbortStart => s.abort in {NotAborting, Aborted}
    case AbortCall => s.abort.Marked?
    case AbortRelease => s.abort == CallAsked
    case EndRelease(_) => s.lease.releasing
    case Finish => s.pc == Running && s.terminal
  }

  function Next(s: Stream, e: Event): Stream
    requires Enabled(s, e)
  {
    match e
    case Enter => if Stopped(s) then s else s.(pc := Authenticating)
    case AuthOk => AuthEnded(s)
    case AuthFail => ClaimRelease(s.(pc := Failed))
    case Acquire => s.(pc := if s.lease.hasLease then Leased else Acquired)
    case PublishAddress => PublishLease(s)
    case MakeCall(ok) => if ok then s.(call := Unpublished, pc := Made) else ClaimRelease(s.(pc := Failed))
    case Publish => PublishCall(s)
    case NativeTerminal => s.(terminal := true)
    case CancelAsk => Cancel(s).0
    case SubmitCancel(ok) => CancelSubmitted(s, ok)
    case ForgetCancel => s.(cancelling := NoCancel, stop := s.stop.(cancelRequested := false))
    case CancelLocally(dispatched) => CancelledLocally(s, dispatched)
    case SubmissionEnds(error) => SubmissionEnded(s, error)
    case DispatchExpires => DispatchedLate(s)
    case RejectClose => s.(stop := s.stop.(cancelled := true))
    case AbortStart => AbortMark(s)
    case AbortCall => s.(callAsked := s.callAsked || s.abort.sawCall, abort := CallAsked)
    case AbortRelease => ClaimRelease(s.(abort := Aborted))
    case EndRelease(ok) => s.(lease := ReleaseEnded(s.lease, ok))
    case Finish => ClaimRelease(s)
  }

  predicate Reaches(s: Stream, es: seq<Event>, t: Stream)
    decreases |es|
  {
    if es == [] then s == t else Enabled(s, es[0]) && Reaches(Next(s, es[0]), es[1..], t)
  }

  // ---------------------------------------------------------------------------------------------
  // The invariant
  // ---------------------------------------------------------------------------------------------

  predicate LeaseInv(s: Stream) {
    && (s.lease.released ==> s.lease.hasLease)
    && (s.lease.releasing ==> s.lease.released)
    && s.lease.handedBack == (if s.lease.released && !s.lease.releasing then 1 else 0)
    && (s.lease.lastFailed && s.lease.released ==> s.lease.releasing)
    && (s.pc in {Leased, Made, Running} ==> s.lease.hasLease)
    && (s.pc == Acquired ==> !s.lease.hasLease)
    && (s.call != NoCall ==> s.lease.hasLease)
  }

  predicate CallInv(s: Stream) {
    && (s.call == Published <==> s.pc == Running)
    && (s.call == Unpublished ==> s.pc == Made || (s.pc == Failed && s.callAsked))
    && (s.call == NoCall ==> s.pc !in {Made, Running})
  }

  /** As long as it is not forgotten, an abort under way or done keeps the stream from going on. */
  predicate AbortInv(s: Stream) {
    !s.stop.forgotten && s.abort != NotAborting ==>
      && s.stop.cancelled
      && (s.abort.Marked? && s.pc == Running ==> s.abort.sawCall || s.callAsked)
      && (s.abort in {CallAsked, Aborted} && s.pc == Running ==> s.callAsked)
      && (s.abort == Aborted && s.lease.hasLease ==> s.lease.released || s.lease.lastFailed)
  }

  predicate Inv(s: Stream) { LeaseInv(s) && CallInv(s) && AbortInv(s) }

  predicate OfStart(e: Event) {
    e.Enter? || e.AuthOk? || e.AuthFail? || e.Acquire? || e.PublishAddress? || e.MakeCall? || e.Publish?
  }

  predicate OfCancel(e: Event) {
    || e.CancelAsk? || e.SubmitCancel? || e.ForgetCancel? || e.CancelLocally? || e.SubmissionEnds?
    || e.DispatchExpires? || e.RejectClose?
  }

  predicate OfAbort(e: Event) { e.AbortStart? || e.AbortCall? || e.AbortRelease? }

  predicate OfEnd(e: Event) { e.NativeTerminal? || e.EndRelease? || e.Finish? }

  lemma LeaseOfStart(s: Stream, e: Event)
    requires LeaseInv(s) && CallInv(s) && Enabled(s, e) && OfStart(e)
    ensures LeaseInv(Next(s, e))
  {}

  predicate SameStart(s: Stream, t: Stream) {
    && t.pc == s.pc && t.call == s.call && t.callAsked == s.callAsked && t.abort == s.abort
    && t.lease.hasLease == s.lease.hasLease
  }

  /** Cancelling touches neither the start nor the call, and the lease only by claiming its release. */
  predicate LeavesStart(s: Stream, t: Stream) {
    && t.pc == s.pc && t.call == s.call && t.callAsked == s.callAsked && t.abort == s.abort
    && (t.lease == s.lease || t.lease == Claimed(s.lease))
  }

  lemma CancelLeavesStart(s: Stream, e: Event)
    requires Enabled(s, e) && OfCancel(e)
    ensures LeavesStart(s, Next(s, e))
  {
    hide Enabled, Claimed, Cancellable;
  }

  lemma LeaseOfCancel(s: Stream, t: Stream)
    requires LeaseInv(s) && LeavesStart(s, t)
    ensures LeaseInv(t)
  {}

  lemma LeaseOfAbort(s: Stream, e: Event)
    requires LeaseInv(s) && Enabled(s, e) && OfAbort(e)
    ensures LeaseInv(Next(s, e))
  {}

  lemma LeaseOfEnd(s: Stream, e: Event)
    requires LeaseInv(s) && Enabled(s, e) && OfEnd(e)
    ensures LeaseInv(Next(s, e))
  {}

  lemma LeaseStep(s: Stream, e: Event)
    requires LeaseInv(s) && CallInv(s) && Enabled(s, e)
    ensures LeaseInv(Next(s, e))
  {
    hide LeaseInv, CallInv, LeavesStart, Next, Enabled;
    if OfStart(e) {
      LeaseOfStart(s, e);
    } else if OfCancel(e) {
      CancelLeavesStart(s, e);
      LeaseOfCancel(s, Next(s, e));
    } else if OfAbort(e) {
      LeaseOfAbort(s, e);
    } else {
      LeaseOfEnd(s, e);
    }
  }

  lemma CallOfStart(s: Stream, e: Event)
    requires CallInv(s) && Enabled(s, e) && OfStart(e)
    ensures CallInv(Next(s, e))
  {}

  lemma EndLeavesStart(s: Stream, e: Event)
    requires Enabled(s, e) && OfEnd(e)
    ensures SameStart(s, Next(s, e))
  {
    hide Enabled;
  }

  lemma LeavingIsSame(s: Stream, t: Stream)
    requires LeavesStart(s, t)
    ensures SameStart(s, t)
  {}

  lemma CallKept(s: Stream, t: Stream)
    requires CallInv(s) && SameStart(s, t)
    ensures CallInv(t)
  {}

  lemma CallOfAbort(s: Stream, e: Event)
    requires CallInv(s) && Enabled(s, e) && OfAbort(e)
    ensures CallInv(Next(s, e))
  {}

  lemma CallStep(s: Stream, e: Event)
    requires CallInv(s) && Enabled(s, e)
    ensures CallInv(Next(s, e))
  {
    hide CallInv, SameStart, LeavesStart, Next, Enabled;
    if OfStart(e) {
      CallOfStart(s, e);
    } else if OfCancel(e) {
      CancelLeavesStart(s, e);
      LeavingIsSame(s, Next(s, e));
      CallKept(s, Next(s, e));
    } else if OfAbort(e) {
      CallOfAbort(s, e);
    } else {
      EndLeavesStart(s, e);
      CallKept(s, Next(s, e));
    }
  }

  lemma AbortOfStart(s: Stream, e: Event)
    requires Inv(s) && Enabled(s, e) && OfStart(e)
    ensures AbortInv(Next(s, e))
  {}

  lemma AbortOfAbort(s: Stream, e: Event)
    requires Inv(s) && Enabled(s, e) && OfAbort(e)
    ensures AbortInv(Next(s, e))
  {}

  lemma AbortOfEnd(s: Stream, e: Event)
    requires Inv(s) && Enabled(s, e) && OfEnd(e)
    ensures AbortInv(Next(s, e))
  {}

  /** What cancelling does to the flags that an abort depends on. */
  predicate KeepsAbort(s: Stream, t: Stream) {
    !t.stop.forgotten ==> !s.stop.forgotten && (s.stop.cancelled ==> t.stop.cancelled)
  }

  lemma CancelKeepsAbort(s: Stream, e: Event)
    requires Enabled(s, e) && OfCancel(e)
    ensures KeepsAbort(s, Next(s, e))
  {
    hide Enabled, Claimed, Cancellable;
  }

  lemma AbortKept(s: Stream, t: Stream)
    requires LeaseInv(s) && AbortInv(s) && LeavesStart(s, t) && KeepsAbort(s, t)
    ensures AbortInv(t)
  {}

  lemma AbortStep(s: Stream, e: Event)
    requires Inv(s) && Enabled(s, e)
    ensures AbortInv(Next(s, e))
  {
    hide LeaseInv, CallInv, AbortInv, LeavesStart, KeepsAbort, Next, Enabled;
    if OfStart(e) {
      AbortOfStart(s, e);
    } else if OfAbort(e) {
      AbortOfAbort(s, e);
    } else if OfCancel(e) {
      CancelLeavesStart(s, e);
      CancelKeepsAbort(s, e);
      AbortKept(s, Next(s, e));
    } else {
      AbortOfEnd(s, e);
    }
  }

  lemma InvStep(s: Stream, e: Event)
    requires Inv(s) && Enabled(s, e)
    ensures Inv(Next(s, e))
  {
    hide LeaseInv, CallInv, AbortInv, Next, Enabled;
    LeaseStep(s, e);
    CallStep(s, e);
    AbortStep(s, e);
  }

  lemma {:induction false} InvRun(s: Stream, es: seq<Event>, t: Stream)
    requires Inv(s) && Reaches(s, es, t)
    ensures Inv(t)
    decreases |es|
  {
    hide Inv, Next, Enabled;
    if es != [] {
      InvStep(s, es[0]);
      InvRun(Next(s, es[0]), es[1..], t);
    }
  }

  /** No start, abort or release is between two of its steps. */
  predicate Settled(s: Stream) {
    s.pc in {Idle, Running, Failed} && s.abort in {NotAborting, Aborted} && !s.lease.releasing
  }

  /** The native call was not created or was asked to cancel. */
  predicate CallStopped(s: Stream) { s.call == NoCall || s.callAsked }

  /**
   In every run, with failing releases too, the transport is handed back successfully at most once.
   When an abort has run and was not forgotten since, everything settles with the native call not
   created or asked to cancel. The transport, if there was one, is then handed back exactly once if and
   only if the last release of it did not fail.
   */
  lemma CancelledStreamIsClean(override: bool, serverStreaming: bool, auth: bool, es: seq<Event>, t: Stream)
    requires Reaches(Fresh(override, serverStreaming, auth), es, t)
    ensures t.lease.handedBack <= 1 && (t.lease.handedBack == 1 ==> t.lease.released)
    ensures t.abort == Aborted && !t.stop.forgotten && Settled(t) ==>
              && CallStopped(t)
              && (t.lease.hasLease ==> (t.lease.handedBack == 1 <==> !t.lease.lastFailed))
              && (!t.lease.hasLease ==> t.call == NoCall)
  {
    hide Reaches;
    InvRun(Fresh(override, serverStreaming, auth), es, t);
  }

  /** The events after which a cancellation can count as never asked for. */
  predicate Forgets(e: Event) {
    e.ForgetCancel? || e == SubmissionEnds(true) || e == CancelLocally(false)
  }

  /** What a stopped stream keeps: it stays stopped and publishes neither transport nor call. */
  predicate HeldUp(s: Stream, t: Stream) {
    && Stopped(t)
    && t.lease.hasLease == s.lease.hasLease
    && (t.pc == Running ==> s.pc == Running)
    && (t.call == Published ==> s.call == Published)
  }

  /** An abort was begun and has not been forgotten. */
  predicate Aborting(s: Stream) { !s.stop.forgotten && s.abort != NotAborting }

  lemma HeldUpOfStart(s: Stream, e: Event)
    requires Stopped(s) && Enabled(s, e) && OfStart(e)
    ensures HeldUp(s, Next(s, e)) && (Aborting(s) ==> Aborting(Next(s, e)))
  {}

  lemma HeldUpOfCancel(s: Stream, e: Event)
    requires Stopped(s) && Enabled(s, e) && !Forgets(e) && OfCancel(e)
    ensures HeldUp(s, Next(s, e)) && (Aborting(s) ==> Aborting(Next(s, e)))
  {
    hide Enabled;
  }

  lemma HeldUpOfOthers(s: Stream, e: Event)
    requires Stopped(s) && Enabled(s, e) && !OfStart(e) && !OfCancel(e)
    ensures HeldUp(s, Next(s, e)) && (Aborting(s) || e == AbortStart ==> Aborting(Next(s, e)))
  {}

  lemma HeldUpStep(s: Stream, e: Event)
    requires Stopped(s) && Enabled(s, e) && !Forgets(e)
    ensures HeldUp(s, Next(s, e)) && (Aborting(s) || e == AbortStart ==> Aborting(Next(s, e)))
  {
    hide Stopped, HeldUp, Aborting, Enabled, Next, Forgets;
    if OfStart(e) {
      HeldUpOfStart(s, e);
    } else if OfCancel(e) {
      HeldUpOfCancel(s, e);
    } else {
      HeldUpOfOthers(s, e);
    }
  }

  /**
   From a stopped stream, a run that forgets no cancellation publishes neither transport nor call; an
   abort in it, or before it, still counts at its end.
   */
  lemma {:induction false} StoppedRun(s: Stream, es: seq<Event>, t: Stream)
    requires Stopped(s) && Reaches(s, es, t) && (forall e :: e in es ==> !Forgets(e))
    ensures HeldUp(s, t)
    ensures Aborting(s) || AbortStart in es ==> Aborting(t)
    decreases |es|
  {
    hide Stopped, Next, Enabled, Forgets, Aborting;
    if es != [] {
      assert es[0] in es;
      HeldUpStep(s, es[0]);
      assert forall e :: e in es[1..] ==> e in es;
      assert AbortStart in es ==> es[0] == AbortStart || AbortStart in es[1..];
      StoppedRun(Next(s, es[0]), es[1..], t);
    }
  }

  /**
   After a cancellation that found something to do, in any run that does not forget it, the stream
   publishes neither transport nor call any more. Once its abort has run and everything has settled, the
   call was never created or was asked to cancel, and the transport is back unless releasing it failed.
   */
  lemma AcceptedCancelIsClean(override: bool, serverStreaming: bool, auth: bool, es: seq<Event>, s: Stream,
                              after: seq<Event>, t: Stream)
    requires Reaches(Fresh(override, serverStreaming, auth), es, s) && Cancellable(s)
    requires Reaches(Cancel(s).0, after, t) && (forall e :: e in after ==> !Forgets(e))
    ensures t.lease.hasLease == s.lease.hasLease
    ensures t.pc == Running ==> s.pc == Running
    ensures t.call == Published ==> s.call == Published
    ensures AbortStart in after && Settled(t) ==>
              CallStopped(t) && (t.lease.hasLease ==> (t.lease.handedBack == 1 <==> !t.lease.lastFailed))
  {
    hide Reaches, Forgets;
    StoppedRun(Cancel(s).0, after, t);
    InvRun(Fresh(override, serverStreaming, auth), es, s);
    InvStep(s, CancelAsk);
    InvRun(Cancel(s).0, after, t);
  }

  lemma {:induction false} Append(s: Stream, es: seq<Event>, t: Stream, e: Event) returns (fs: seq<Event>, u: Stream)
    requires Reaches(s, es, t) && Enabled(t, e)
    ensures u == Next(t, e) && fs == es + [e] && Reaches(s, fs, u)
    decreases |es|
  {
    hide Enabled, Next;
    fs, u := es + [e], Next(t, e);
    if es == [] {
      assert fs == [e] && [e][1..] == [];
    } else {
      var _, _ := Append(Next(s, es[0]), es[1..], t, e);
      assert fs[1..] == es[1..] + [e];
    }
  }

  lemma ReachesItself(s: Stream)
    ensures Reaches(s, [], s)
  {}

  /** A cancellation before the start, with an abort that fails to release the caller's transport. */
  lemma AbortBeforeStart() returns (es: seq<Event>, t: Stream)
    ensures Reaches(Fresh(true, true, false), es, t)
    ensures t == Fresh(true, true, false).(stop := Stop(true, true, false), event := true, cancelling := Submitted,
                                           abort := CallAsked)
  {
    var s := Fresh(true, true, false);
    ReachesItself(s);
    hide Reaches;
    es, t := Append(s, [], s, CancelAsk);
    es, t := Append(s, es, t, SubmitCancel(true));
    es, t := Append(s, es, t, AbortStart);
    es, t := Append(s, es, t, AbortCall);
  }

  lemma FailedCancel() returns (es: seq<Event>, t: Stream)
    ensures Reaches(Fresh(true, true, false), es, t)
    ensures t == Fresh(true, true, false).(stop := Stop(false, false, true), event := true, abort := Aborted,
                                           lease := Lease(true, false, false, 0, true))
  {
    hide Reaches;
    var s := Fresh(true, true, false);
    es, t := AbortBeforeStart();
    es, t := Append(s, es, t, AbortRelease);
    es, t := Append(s, es, t, EndRelease(false));
    es, t := Append(s, es, t, SubmissionEnds(true));
  }

  /** Authentication is still to be done and an abort has begun. */
  predicate Unauthenticated(s: Stream) {
    s.auth && s.event && s.pc in {Idle, Authenticating, Failed} && s.call == NoCall
  }

  lemma UnauthenticatedStep(s: Stream, e: Event)
    requires Unauthenticated(s) && Enabled(s, e)
    ensures Unauthenticated(Next(s, e))
  {
    hide Claimed, ReleaseEnded;
  }

  /** A stream aborted before it was authenticated never has a call, forgotten or not. */
  lemma {:induction false} AbortedUnauthenticated(s: Stream, es: seq<Event>, t: Stream)
    requires Unauthenticated(s) && Reaches(s, es, t)
    ensures t.call == NoCall && t.pc != Running
    decreases |es|
  {
    hide Next, Enabled;
    if es != [] {
      UnauthenticatedStep(s, es[0]);
      AbortedUnauthenticated(Next(s, es[0]), es[1..], t);
    }
  }

  /**
   Why the cancellation must not have been forgotten: with a caller's transport whose release fails and no
   authentication to be done, the stream is cancelled and aborted before it starts, the failure makes the
   cancellation repeatable, and the start then goes on to a native call that nobody has asked to cancel.
   */
  lemma ForgottenStreamRuns() returns (es: seq<Event>, t: Stream)
    ensures Reaches(Fresh(true, true, false), es, t)
    ensures t.abort == Aborted && Settled(t) && !Stopped(t)
    ensures t.pc == Running && t.call == Published && !t.callAsked && t.lease.handedBack == 0
  {
    hide Reaches;
    var s := Fresh(true, true, false);
    es, t := FailedCancel();
    es, t := Append(s, es, t, Enter);
    es, t := Append(s, es, t, AuthOk);
    es, t := Append(s, es, t, Acquire);
    es, t := Append(s, es, t, MakeCall(true));
    es, t := Append(s, es, t, Publish);
  }

  // ---------------------------------------------------------------------------------------------
  // The stream object
  // ---------------------------------------------------------------------------------------------

  class StreamRequest {
    const timeout: Option<real>
    const authTimeout: Option<real>
    const authEnabled: bool
    var released: bool
    var hasLease: bool
    var cancelRequested: bool
    var cancelled: bool
    var nativeTerminal: bool
    const serverStreaming: bool
    var deadlinesStarted: bool
    var requestDeadline: Option<real>
    var authDeadline: Option<real>
    var requestRemaining: Option<real>
    var paused: bool
    var authFinished: bool

    constructor (timeout: Option<real>, authTimeout: Option<real>, authEnabled: bool, serverStreaming: bool,
                 override: bool)
      ensures this.timeout == timeout && this.authTimeout == authTimeout && this.authEnabled == authEnabled
      ensures !released && hasLease == override && !cancelRequested && !cancelled && !nativeTerminal
      ensures !deadlinesStarted && requestDeadline.None? && authDeadline.None? && !paused && !authFinished
    {
      this.timeout, this.authTimeout := timeout, authTimeout;
      this.authEnabled, this.serverStreaming := authEnabled, serverStreaming;
      released, hasLease, cancelRequested, cancelled, nativeTerminal := false, override, false, false, false;
      deadlinesStarted, requestDeadline, authDeadline, requestRemaining := false, None, None, None;
      paused, authFinished := false, false;
    }

    /** This object is where the model stream `s` says. */
    predicate Shows(s: Stream)
      reads this
    {
      && s.lease.released == released && s.lease.hasLease == hasLease && s.stop.cancelRequested == cancelRequested
      && s.stop.cancelled == cancelled && s.terminal == nativeTerminal && s.serverStreaming == serverStreaming
    }

    method RequestCancel(ghost s: Stream) returns (accepted: bool)
      requires Shows(s)
      modifies this`cancelRequested
      ensures Shows(Cancel(s).0) && accepted == Cancel(s).1
    {
      if cancelRequested || cancelled || released { return false; }
      if nativeTerminal && !serverStreaming { return false; }
      cancelRequested := true;
      return !nativeTerminal;
    }

    /** Claims the release; only the claimant may hand the transport back. */
    method ClaimTransport(ghost s: Stream) returns (mine: bool)
      requires Shows(s)
      modifies this`released
      ensures Shows(ClaimRelease(s)) && (mine <==> !s.lease.released && s.lease.hasLease)
    {
      if released || !hasLease { return false; }
      released := true;
      return true;
    }

    /** The remaining budget; the first operation fixes the deadlines, later ones reuse them. */
    method RemainingDeadline(initialize: bool, now: real) returns (r: Option<real>)
      modifies this
      ensures deadlinesStarted == (old(deadlinesStarted) || initialize)
      ensures old(deadlinesStarted) || !initialize ==>
                requestDeadline == old(requestDeadline) && authDeadline == old(authDeadline)
      ensures !old(deadlinesStarted) && initialize ==>
                && requestDeadline == (if timeout.None? then None else Some(now + Max0(timeout.value)))
                && authDeadline == if authTimeout.None? || !authEnabled then None
                                   else Some(now + Max0(authTimeout.value))
      ensures var d := if authEnabled && !authFinished then authDeadline else Earlier(requestDeadline, authDeadline);
              r == if d.None? then None else Some(d.value - now)
      ensures paused == old(paused) && requestRemaining == old(requestRemaining) && authFinished == old(authFinished)
      ensures forall s: Stream :: old(Shows(s)) <==> Shows(s)
    {
      if initialize && !deadlinesStarted {
        deadlinesStarted := true;
        requestDeadline := if timeout.None? then None else Some(now + Max0(timeout.value));
        authDeadline := if authTimeout.None? || !authEnabled then None else Some(now + Max0(authTimeout.value));
      }
      var d := if authEnabled && !authFinished then authDeadline else Earlier(requestDeadline, authDeadline);
      return if d.None? then None else Some(d.value - now);
    }

    method PauseForAuthorization(now: real)
      modifies this`requestRemaining, this`requestDeadline, this`paused
      ensures timeout.None? || old(paused) ==>
                && requestDeadline == old(requestDeadline) && requestRemaining == old(requestRemaining)
                && paused == old(paused)
      ensures timeout.Some? && !old(paused) ==>
                && paused && requestDeadline.None?
                && requestRemaining == Some(if old(requestDeadline).None? then Max0(timeout.value)
                                            else Max0(old(requestDeadline).value - now))
    {
      if timeout.None? || paused { return; }
      var left := if requestDeadline.None? then timeout.value else requestDeadline.value - now;
      requestRemaining := Some(Max0(left));
      requestDeadline := None;
      paused := true;
    }

    method ResumeAfterAuthorization(now: real)
      modifies this`requestDeadline, this`paused, this`authFinished
      ensures authFinished
      ensures timeout.None? || !old(paused) ==> requestDeadline == old(requestDeadline) && paused == old(paused)
      ensures timeout.Some? && old(paused) ==>
                && !paused
                && requestDeadline == Some(now + if old(requestRemaining).None? then Max0(timeout.value)
                                                 else old(requestRemaining).value)
    {
      if timeout.Some? && paused {
        var left := if requestRemaining.None? then Max0(timeout.value) else requestRemaining.value;
        requestDeadline := Some(now + left);
        paused := false;
      }
      authFinished := true;
    }

    /**
     Authentication between `p` and `r` costs the request clock nothing: what is left of it at `r` is
     what was left at `p`, and never negative.
     */
    method Authenticated(p: real, r: real) returns (left: Option<real>)
      requires p <= r && !paused && deadlinesStarted && (timeout.Some? <==> requestDeadline.Some?)
      modifies this
      ensures left == Earlier(if timeout.None? then None else Some(Max0(old(requestDeadline).value - p)),
                              if authDeadline.None? then None else Some(authDeadline.value - r))
      ensures authDeadline == old(authDeadline)
      ensures !paused && authFinished
    {
      PauseForAuthorization(p);
      ResumeAfterAuthorization(r);
      left := RemainingDeadline(false, r);
    }
  }
}
