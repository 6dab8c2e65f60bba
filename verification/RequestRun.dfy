/**
 Whole runs of a logical request. Callers cancel and expire it, native calls finish, and the wrapper
 task submits, authenticates, sends, classifies and retries, one lock-protected section or loop
 callback at a time and in any interleaving.
 */
module RequestRun {
  import opened RequestFlags
  import opened Options

  /** How a native attempt ended; an error can ask for authentication and can be retriable. */
  datatype Outcome = Success | Error(unauth: bool, retriable: bool)

  /**
   The last native call and the transport lease it was opened on; `marked` tells that its completion
   callback has run.
   */
  datatype Native = NoCall | Open(lease: nat) | Finished(lease: nat, outcome: Outcome, marked: bool)

  datatype Result = Succeeded | FinalError | CancelledError | DeadlineError | TaskCancelled | SetupError

  /** Where the wrapper task stands. */
  datatype Pc =
    | Idle
    | Queued
    | Authenticating
    | LoopHead
    | Sending
    | Opening
    | InFlight
    | Completing
    | ErrorSeen(could: bool, awaiting: bool, unauth: bool)
    | AuthDeciding(awaiting: bool, unauth: bool)
    | Ended(result: Result)

  /**
   `attempts` counts native calls opened. `late` is that count when a cancellation or expiry was
   first recorded behind a finished attempt. `injected` tells that the task was asked to cancel.
   */
  datatype State = State(
    flags: Flags, pc: Pc, native: Native, auth: bool, override: bool, attempts: nat, late: Option<nat>,
    injected: bool, ledger: Ledger)

  /**
   Transport leases, numbered from 0: the one the request has, those handed back in order, and which of
   these went back for reuse; the others were handed back to be discarded.
   */
  datatype Ledger = Ledger(held: Option<nat>, leases: nat, returned: seq<nat>, reusable: set<nat>)

  /** A request, with or without authorization and with or without a caller-supplied transport. */
  function Start(auth: bool, override: bool): State {
    State(INITIAL, Idle, NoCall, auth, override, 0, None, false,
          if override then Ledger(Some(0), 1, [], {}) else Ledger(None, 0, [], {}))
  }

  datatype Event =
    | Cancel
    | Expire(arrived: Future)
    | Submit(accepted: bool)
    | RejectStart
    | Begin(dispatchExpired: bool)
    | AuthOk
    | AuthFail(deadlinePassed: bool)
    | Head(timeLeft: bool)
    | SendCheck(valid: bool)
    | OpenCall
    | OpenFail(acquired: bool, wrongLoop: bool, retry: bool)
    | NativeFinish(outcome: Outcome)
    | Mark
    | Resume(timeLeft: bool, retriesLeft: bool)
    | HandleError(retry: bool, dropLease: bool)
    | CompleteOk
    | CompleteFail(retry: bool, unauth: bool, service: bool, dropLease: bool)
    | Resolve(allow: bool)
    | InjectCancel
    | DeliverCancel
    | OutsideCancel
    | Publish

  // ---------------------------------------------------------------------------------------------
  // Leases
  // ---------------------------------------------------------------------------------------------

  function GiveBack(l: Ledger, discard: bool): Ledger {
    if l.held.None? then l
    else Ledger(None, l.leases, l.returned + [l.held.value], l.reusable + if discard then {} else {l.held.value})
  }

  /** A fresh lease, unless the request still has one. */
  function Take(l: Ledger): Ledger {
    if l.held.Some? then l else Ledger(Some(l.leases), l.leases + 1, l.returned, l.reusable)
  }

  function Release(s: State, discard: bool): State { s.(ledger := GiveBack(s.ledger, discard)) }

  function Acquire(s: State): State { s.(ledger := Take(s.ledger)) }

  function End(s: State, r: Result, discard: bool): State { Release(s, discard).(pc := Ended(r)) }

  /** A cancellation that was a deadline is reported as one. */
  function EndCancelled(s: State, discard: bool): State {
    End(s, if s.flags.expired then DeadlineError else CancelledError, discard)
  }

  /** What the guard around the whole request does with a lease that is still held. */
  predicate GuardDiscards(s: State) { !s.native.NoCall? && !s.flags.terminal }

  // ---------------------------------------------------------------------------------------------
  // Steps
  // ---------------------------------------------------------------------------------------------

  /** Remembers a cancellation first recorded behind a finished attempt. */
  function Recorded(s: State, f: Flags): State {
    var first := s.late.None? && !s.pc.Ended? && !s.flags.cancelled && f.cancelled;
    var behind := s.flags.attemptTerminal || (s.flags.terminal && s.flags.undecided);
    s.(flags := f, late := if first && behind then Some(s.attempts) else s.late)
  }

  /** The retry loop after its failure handler has decided. */
  function AfterFailure(s: State, d: (Flags, Verdict), deferAuth: bool, awaiting: bool, service: bool,
                        dropLease: bool): State {
    var t := s.(flags := d.0);
    match d.1
    case CancelledRetry => EndCancelled(t, true)
    case Retry => t.(pc := LoopHead)
    case Raise =>
      if deferAuth then (if dropLease then Release(t, true) else t).(pc := AuthDeciding(awaiting, true))
      else if s.auth && service then Release(t, dropLease).(pc := AuthDeciding(false, false))
      else End(t, FinalError, dropLease)
  }

  /** What the result of the wrapper task makes of the shared awaitable. */
  function Published(r: Result): Future { if r == TaskCancelled then FutureCancelled else FutureDone }

  predicate Enabled(s: State, e: Event) {
    match e
    case Cancel => true
    case Expire(arrived) => arrived == Pending || (s.pc.Ended? && arrived == Published(s.pc.result))
    case Submit(_) => s.pc == Idle
    case RejectStart => s.pc == Queued && s.flags.future == FutureCancelled
    case Begin(_) => s.pc == Queued
    case AuthOk | AuthFail(_) => s.pc == Authenticating
    case Head(_) => s.pc == LoopHead
    case SendCheck(_) => s.pc == Sending
    case OpenCall => s.pc == Opening
    case OpenFail(acquired, wrongLoop, _) => s.pc == Opening && (wrongLoop ==> acquired)
    case NativeFinish(_) => s.native.Open?
    case Mark => s.native.Finished? && !s.native.marked
    case Resume(_, _) => s.pc == InFlight && s.native.Finished? && s.native.marked
    case HandleError(_, _) => s.pc.ErrorSeen?
    case CompleteOk | CompleteFail(_, _, _, _) => s.pc == Completing
    case Resolve(allow) => s.pc.AuthDeciding? && (allow ==> s.pc.unauth)
    case InjectCancel => s.pc != Idle && !s.pc.Ended?
    case DeliverCancel => s.injected && s.pc in {Authenticating, InFlight, Completing}
    case OutsideCancel => s.flags.future == Pending
    case Publish => s.pc.Ended? && s.flags.future == Pending
  }

  function Next(s: State, e: Event): State
    requires Enabled(s, e)
  {
    match e
    case Cancel => Recorded(s, AfterCancel(s.flags).0)
    case Expire(arrived) => Recorded(s, AfterExpire(s.flags, arrived).0)
    case Submit(accepted) =>
      if accepted then s.(flags := s.flags.(future := Pending), pc := Queued) else Release(s, true)
    case RejectStart => End(s, TaskCancelled, true)
    case Begin(dispatchExpired) =>
      if dispatchExpired then End(s.(flags := s.flags.(cancelled := true)), SetupError, true)
      else s.(pc := if s.auth then Authenticating else LoopHead)
    case AuthOk => s.(pc := LoopHead)
    case AuthFail(deadlinePassed) =>
      End(if deadlinePassed then s.(flags := ResolveAuth(s.flags, false).0) else s, SetupError, false)
    case Head(timeLeft) =>
      if s.flags.cancelled then EndCancelled(s, GuardDiscards(s))
      else if !timeLeft then End(s, SetupError, GuardDiscards(s))
      else s.(pc := Sending)
    case SendCheck(valid) =>
      if !valid then End(s.(flags := HandleFailure(s.flags, false, false).0), SetupError, false)
      else if s.flags.cancelled then EndCancelled(s.(flags := HandleFailure(s.flags, false, false).0), false)
      else s.(pc := Opening)
    case OpenCall =>
      var t := Acquire(s);
      t.(native := Open(t.ledger.held.value), attempts := s.attempts + 1, pc := InFlight)
    case OpenFail(acquired, wrongLoop, retry) =>
      var t := if !acquired then s else if wrongLoop then Release(Acquire(s), true) else Acquire(s);
      var d := HandleFailure(s.flags, retry, false);
      if d.1 == Retry then t.(flags := d.0, pc := LoopHead) else End(t.(flags := d.0), SetupError, false)
    case NativeFinish(o) => s.(native := Finished(s.native.lease, o, false))
    case Mark => s.(native := s.native.(marked := true), flags := MarkAttempt(s.flags))
    case Resume(timeLeft, retriesLeft) => (
      match s.native.outcome
      case Success => s.(flags := PublishSuccess(s.flags), pc := Completing)
      case Error(unauth, retriable) =>
        var could := timeLeft && retriable && retriesLeft;
        var awaiting := s.auth && timeLeft && unauth;
        s.(flags := ClassifyError(s.flags, could, awaiting), pc := ErrorSeen(could, awaiting, unauth)))
    case HandleError(retry, dropLease) =>
      var deferAuth := s.auth && s.pc.unauth;
      AfterFailure(s, HandleFailure(s.flags, retry, deferAuth), deferAuth, s.pc.awaiting, true, dropLease)
    case CompleteOk => End(s, Succeeded, false)
    case CompleteFail(retry, unauth, service, dropLease) =>
      var deferAuth := s.auth && unauth;
      AfterFailure(s, HandleFailure(s.flags, retry, deferAuth), deferAuth, false, service, dropLease)
    case Resolve(allow) =>
      var d := ResolveAuth(s.flags, allow);
      var t := s.(flags := d.0);
      if d.1 then EndCancelled(t, true)
      else if allow then (if s.override then t else Release(t, false)).(pc := Authenticating)
      else End(t, FinalError, false)
    case InjectCancel => s.(injected := true)
    case DeliverCancel =>
      if s.pc == Completing || s.flags.attemptTerminal then s.(injected := false)
      else End(s.(injected := false), TaskCancelled, s.pc == InFlight || GuardDiscards(s))
    case OutsideCancel => s.(flags := s.flags.(future := FutureCancelled))
    case Publish =>
      s.(flags := s.flags.(future := Published(s.pc.result)))
  }

  predicate Run(s: State, es: seq<Event>, t: State)
    decreases |es|
  {
    if es == [] then s == t else Enabled(s, es[0]) && Run(Next(s, es[0]), es[1..], t)
  }

  // ---------------------------------------------------------------------------------------------
  // Leases: each is handed back exactly once, and none is left at the end
  // ---------------------------------------------------------------------------------------------

  /** Each lease so far is either held or was handed back, and that exactly once. */
  predicate Balanced(l: Ledger) {
    && (forall i, j :: 0 <= i < j < |l.returned| ==> l.returned[i] != l.returned[j])
    && (forall i :: 0 <= i < |l.returned| ==> l.returned[i] < l.leases)
    && (forall k: nat :: k < l.leases ==> k in l.returned || l.held == Some(k))
    && (l.held.Some? ==> l.held.value < l.leases && l.held.value !in l.returned)
    && (forall k :: k in l.reusable ==> k in l.returned)
  }

  /** A lease that a call was opened on is the one held, or was handed back to be discarded. */
  predicate CallHasLease(s: State) {
    && (s.pc == InFlight ==> !s.native.NoCall? && s.ledger.held == Some(s.native.lease))
    && (s.native.Open? && s.pc != InFlight ==>
          s.pc.Ended? && s.native.lease in s.ledger.returned && s.native.lease !in s.ledger.reusable)
  }

  predicate LeaseInv(s: State) {
    && Balanced(s.ledger)
    && CallHasLease(s)
    && (s.pc.Ended? ==> s.ledger.held.None?)
  }

  lemma LedgerKeeps(l: Ledger, discard: bool)
    requires Balanced(l)
    ensures Balanced(GiveBack(l, discard)) && Balanced(Take(l)) && Balanced(GiveBack(Take(l), discard))
  {
    GiveBackKeeps(l, discard);
    GiveBackKeeps(Take(l), discard);
  }

  lemma GiveBackKeeps(l: Ledger, discard: bool)
    requires Balanced(l)
    ensures Balanced(GiveBack(l, discard))
  {
    var m := GiveBack(l, discard);
    forall k: nat | k < m.leases ensures k in m.returned {
      if l.held == Some(k) { assert m.returned[|l.returned|] == k; }
    }
  }

  /** A lease handed back to be discarded does not become reusable. */
  lemma DiscardedLease(l: Ledger)
    requires Balanced(l) && l.held.Some?
    ensures l.held.value in GiveBack(l, true).returned && l.held.value !in GiveBack(l, true).reusable
  {}

  /** Events of the wrapper task before it has a native call. */
  predicate Preparing(e: Event) {
    || e.Submit? || e.RejectStart? || e.Begin? || e.AuthOk? || e.AuthFail? || e.Head? || e.SendCheck?
    || e.OpenCall? || e.OpenFail?
  }

  /** Events of the wrapper task after a native call has finished. */
  predicate Concluding(e: Event) {
    e.Resume? || e.HandleError? || e.CompleteOk? || e.CompleteFail? || e.Resolve?
  }

  lemma LeaseSending(s: State, e: Event)
    requires LeaseInv(s) && Enabled(s, e) && (e.Head? || e.SendCheck? || e.OpenCall? || e.OpenFail?)
    ensures LeaseInv(Next(s, e))
  {
    hide Balanced, HandleFailure, ClassifyError, ResolveAuth, AfterCancel, AfterExpire, PublishSuccess, MarkAttempt;
    LedgerKeeps(s.ledger, true);
    LedgerKeeps(s.ledger, false);
  }

  lemma LeasePreparing(s: State, e: Event)
    requires LeaseInv(s) && Enabled(s, e) && Preparing(e) && !(e.Head? || e.SendCheck? || e.OpenCall? || e.OpenFail?)
    ensures LeaseInv(Next(s, e))
  {
    hide Balanced, HandleFailure, ClassifyError, ResolveAuth, AfterCancel, AfterExpire, PublishSuccess, MarkAttempt;
    LedgerKeeps(s.ledger, true);
    LedgerKeeps(s.ledger, false);
  }

  lemma LeaseAfterFailure(s: State, d: (Flags, Verdict), deferAuth: bool, awaiting: bool, service: bool,
                          dropLease: bool)
    requires LeaseInv(s) && s.pc != InFlight && !s.pc.Ended?
    ensures LeaseInv(AfterFailure(s, d, deferAuth, awaiting, service, dropLease))
  {
    hide Balanced;
    LedgerKeeps(s.ledger, true);
    LedgerKeeps(s.ledger, false);
  }

  lemma LeaseConcluding(s: State, e: Event)
    requires LeaseInv(s) && Enabled(s, e) && Concluding(e)
    ensures LeaseInv(Next(s, e))
  {
    hide LeaseInv, AfterFailure, HandleFailure, ResolveAuth;
    match e
    case HandleError(retry, dropLease) =>
      var deferAuth := s.auth && s.pc.unauth;
      LeaseAfterFailure(s, HandleFailure(s.flags, retry, deferAuth), deferAuth, s.pc.awaiting, true, dropLease);
    case CompleteFail(retry, unauth, service, dropLease) =>
      var deferAuth := s.auth && unauth;
      LeaseAfterFailure(s, HandleFailure(s.flags, retry, deferAuth), deferAuth, false, service, dropLease);
    case _ => LeaseResolving(s, e);
  }

  lemma LeaseResolving(s: State, e: Event)
    requires LeaseInv(s) && Enabled(s, e) && (e.Resume? || e.CompleteOk? || e.Resolve?)
    ensures LeaseInv(Next(s, e))
  {
    hide Balanced, HandleFailure, ClassifyError, ResolveAuth, AfterCancel, AfterExpire, PublishSuccess, MarkAttempt;
    LedgerKeeps(s.ledger, true);
    LedgerKeeps(s.ledger, false);
  }

  lemma LeaseOther(s: State, e: Event)
    requires LeaseInv(s) && Enabled(s, e) && !Preparing(e) && !Concluding(e)
    ensures LeaseInv(Next(s, e))
  {
    hide Balanced, HandleFailure, ClassifyError, ResolveAuth, AfterCancel, AfterExpire, PublishSuccess, MarkAttempt;
    LedgerKeeps(s.ledger, true);
    LedgerKeeps(s.ledger, false);
    if s.ledger.held.Some? { DiscardedLease(s.ledger); }
  }

  lemma LeaseStep(s: State, e: Event)
    requires LeaseInv(s) && Enabled(s, e)
    ensures LeaseInv(Next(s, e))
  {
    hide LeaseInv, Enabled, Next;
    if e.Head? || e.SendCheck? || e.OpenCall? || e.OpenFail? {
      LeaseSending(s, e);
    } else if Preparing(e) {
      LeasePreparing(s, e);
    } else if Concluding(e) {
      LeaseConcluding(s, e);
    } else {
      LeaseOther(s, e);
    }
  }

  lemma {:induction false} LeasesBalance(s: State, es: seq<Event>, t: State)
    requires LeaseInv(s) && Run(s, es, t)
    ensures LeaseInv(t)
    decreases |es|
  {
    hide LeaseInv, Next;
    if es != [] {
      LeaseStep(s, es[0]);
      LeasesBalance(Next(s, es[0]), es[1..], t);
    }
  }

  /**
   Over every run, each transport lease a request obtains or is given is handed back exactly once or
   still held, and none is held when the request has ended or its submission was rejected. A call is
   opened on a lease that was not handed back, which stays the one held while the request waits for the
   call. A lease can go back under an open call only to be discarded: one handed back for reuse never has
   an open call on it.
   */
  lemma LeasesHandedBackOnce(auth: bool, override: bool, es: seq<Event>, t: State)
    requires Run(Start(auth, override), es, t)
    ensures forall i, j :: 0 <= i < j < |t.ledger.returned| ==> t.ledger.returned[i] != t.ledger.returned[j]
    ensures forall k: nat :: k < t.ledger.leases ==> (k in t.ledger.returned <==> t.ledger.held != Some(k))
    ensures t.pc.Ended? ==> t.ledger.held.None?
    ensures Enabled(t, Submit(false)) ==> Next(t, Submit(false)).ledger.held.None?
    ensures Enabled(t, OpenCall) ==>
              Next(t, OpenCall).native.Open? && Next(t, OpenCall).native.lease !in t.ledger.returned
    ensures t.pc == InFlight ==> !t.native.NoCall? && t.ledger.held == Some(t.native.lease)
    ensures t.native.Open? ==> t.native.lease !in t.ledger.reusable
    ensures forall k :: k in t.ledger.reusable ==> k in t.ledger.returned
  {
    hide Run;
    assert LeaseInv(Start(auth, override));
    LeasesBalance(Start(auth, override), es, t);
  }
}
