/**
 One submission to the SDK event loop: who starts the submitted work, who disposes of it, and how a
 cancellation of its handle reaches the task. Each step is one lock-protected section or one loop
 callback; handle cancellation comes from any thread at any time.
 */
module Submission {

  datatype Handle = Pending | Cancelled | Finished

  /** The SDK-loop task, as far as it exists; a task that is over was cancelled or not. */
  datatype Task = NoTask | Live | Over(cancelled: bool)

  /** How far the dispatch to the loop has come. */
  datatype Dispatch = Admitting | Queued | Creating | Dispatched | Rejected

  /**
   What was done: how often the work was disposed of and started, how often the task was asked to cancel,
   and whether the one-slot work list was ever read or popped while empty.
   */
  datatype Record = Record(disposals: nat, starts: nat, cancels: nat, emptyAccess: bool)

  /**
   The variables of a submission, what is on its way, `forwards` cancellation callbacks and `requests`
   queued task cancellations, and whether the loop is closed.
   */
  datatype Sub = Sub(
    handle: Handle, work: bool, task: Task, published: bool, copied: bool, claimed: bool, started: bool,
    disposed: bool, dispatch: Dispatch, requested: bool, forwards: nat, requests: nat, closed: bool, did: Record)

  const SUBMITTED :=
    Sub(Pending, true, NoTask, false, false, false, false, false, Admitting, false, 0, 0, false,
        Record(0, 0, 0, false))

  // ---------------------------------------------------------------------------------------------
  // Lock-protected sections
  // ---------------------------------------------------------------------------------------------

  /** Pops the work and disposes of it. */
  function Dispose(s: Sub): Sub {
    s.(disposed := true, work := false,
       did := s.did.(disposals := s.did.disposals + 1, emptyAccess := s.did.emptyAccess || !s.work))
  }

  /** Cancelling the handle runs its done callbacks, among them the forwarding one. */
  function CancelHandle(s: Sub): Sub {
    if s.handle != Pending then s else s.(handle := Cancelled, forwards := s.forwards + 1)
  }

  /** The forwarding callback of a cancelled handle; a closed loop takes no request any more. */
  function Forward(s: Sub): Sub
    requires s.forwards > 0
  {
    var t := s.(forwards := s.forwards - 1);
    if !s.published && !s.claimed && !s.started && !s.disposed then Dispose(t)
    else if s.published && !s.closed then t.(requests := t.requests + 1)
    else t
  }

  function CancelTaskOnce(s: Sub): Sub {
    if s.task.Over? || s.requested then s else s.(requested := true, did := s.did.(cancels := s.did.cancels + 1))
  }

  /** The dispatch reaches the loop: skip a cancelled submission, or claim the start. */
  function StartOnLoop(s: Sub): Sub {
    if s.handle == Cancelled || s.disposed then
      (if s.disposed then s else Dispose(s)).(dispatch := Dispatched)
    else s.(claimed := true, dispatch := Creating)
  }

  /** The task takes the work. */
  function BeginRun(s: Sub): Sub {
    s.(started := true, task := Live,
       did := s.did.(starts := s.did.starts + 1, emptyAccess := s.did.emptyAccess || !s.work))
  }

  function TaskCreated(s: Sub): Sub {
    var t := s.(task := if s.task.NoTask? then Live else s.task, published := true, claimed := false,
                dispatch := Dispatched);
    if s.handle == Cancelled then CancelTaskOnce(t) else t
  }

  /** Work that nobody has started or disposed of is given up. */
  function GivenUp(s: Sub): Sub { if !s.started && !s.disposed then Dispose(s) else s }

  function Finish(s: Sub): Sub { if s.handle == Pending then s.(handle := Finished) else s }

  function CreationFailed(s: Sub): Sub {
    var t := s.(claimed := false, dispatch := Dispatched, task := if s.task.Live? then Over(false) else s.task);
    Finish(GivenUp(t))
  }

  /** The done callback of the task publishes its outcome. */
  function CopyOutcome(s: Sub): Sub
    requires s.task.Over?
  {
    var t := s.(published := false, copied := true);
    if s.task.cancelled then CancelHandle(GivenUp(t).(work := false)) else Finish(t.(work := false))
  }

  /** The loop does not take the dispatch: the submitter disposes of the work. */
  function Reject(s: Sub): Sub {
    CancelHandle(s.(disposed := true, work := false, dispatch := Rejected,
                    did := s.did.(disposals := s.did.disposals + 1)))
  }

  // ---------------------------------------------------------------------------------------------
  // Runs
  // ---------------------------------------------------------------------------------------------

  datatype Event =
    | Accepted
    | RejectedDispatch
    | HandleCancel
    | ForwardCancel
    | LoopStart
    | EagerRun
    | EagerEnd(cancelled: bool)
    | Created
    | CreateFailed
    | Run
    | CancelRequest
    | ShutdownCancel
    | TaskEnd(cancelled: bool)
    | Outcome
    | LoopCloses

  predicate Enabled(s: Sub, e: Event) {
    match e
    case Accepted => s.dispatch == Admitting && !s.closed
    case RejectedDispatch => s.dispatch == Admitting
    case HandleCancel => s.handle == Pending
    case ForwardCancel => s.forwards > 0
    case LoopCloses => s.dispatch != Creating
    case _ => !s.closed && EnabledOnLoop(s, e)
  }

  /** The callbacks of the loop, which a closed one does not run. */
  predicate EnabledOnLoop(s: Sub, e: Event) {
    match e
    case LoopStart => s.dispatch == Queued
    case EagerRun => s.dispatch == Creating && s.task.NoTask?
    case EagerEnd(_) => s.dispatch == Creating && s.task.Live?
    case Created | CreateFailed => s.dispatch == Creating
    case Run => s.published && s.task.Live? && !s.started
    case CancelRequest => s.requests > 0
    case ShutdownCancel => s.published && s.started && s.task.Live?
    case TaskEnd(cancelled) => s.published && s.task.Live? && (s.started || (cancelled && s.requested))
    case Outcome => s.published && s.task.Over?
    case _ => false
  }

  function Next(s: Sub, e: Event): Sub
    requires Enabled(s, e)
  {
    match e
    case Accepted => s.(dispatch := Queued)
    case RejectedDispatch => Reject(s)
    case HandleCancel => CancelHandle(s)
    case ForwardCancel => Forward(s)
    case LoopStart => StartOnLoop(s)
    case EagerRun | Run => BeginRun(s)
    case EagerEnd(c) => s.(task := Over(c))
    case TaskEnd(c) => s.(task := Over(c))
    case Created => TaskCreated(s)
    case CreateFailed => CreationFailed(s)
    case CancelRequest => CancelTaskOnce(s.(requests := s.requests - 1))
    case ShutdownCancel => CancelTaskOnce(s)
    case Outcome => CopyOutcome(s)
    case LoopCloses => s.(closed := true)
  }

  /** The admission lock: nobody cancels the handle of a submission whose dispatch is then rejected. */
  predicate Admitted(s: Sub, e: Event) { e.RejectedDispatch? ==> !s.disposed }

  predicate Reaches(s: Sub, es: seq<Event>, t: Sub)
    decreases |es|
  {
    if es == [] then s == t else Enabled(s, es[0]) && Admitted(s, es[0]) && Reaches(Next(s, es[0]), es[1..], t)
  }

  // ---------------------------------------------------------------------------------------------
  // The invariant
  // ---------------------------------------------------------------------------------------------

  /** Nothing is on its way any more. */
  predicate Quiet(s: Sub) {
    && s.dispatch in {Dispatched, Rejected}
    && s.forwards == 0 && s.requests == 0 && !s.claimed && !s.task.Live? && !s.published
  }

  predicate WorkInv(s: Sub) {
    && !(s.started && s.disposed)
    && s.did.disposals == (if s.disposed then 1 else 0)
    && s.did.starts == (if s.started then 1 else 0)
    && !s.did.emptyAccess
    && (s.disposed ==> !s.work)
    && (!s.disposed && !s.copied ==> s.work)
  }

  predicate StageInv(s: Sub) {
    && (s.claimed <==> s.dispatch == Creating)
    && (s.dispatch in {Admitting, Queued, Rejected} ==> s.task.NoTask? && !s.published && !s.started && !s.copied)
    && (s.dispatch == Rejected ==> s.disposed && s.handle != Pending)
    && (s.dispatch == Creating ==> !s.published && !s.disposed && !s.copied && (s.task.NoTask? <==> !s.started))
    && (s.published ==> s.dispatch == Dispatched && !s.task.NoTask? && !s.disposed && !s.copied)
    && (s.task.Live? && s.dispatch == Dispatched ==> s.published)
    && (s.dispatch == Dispatched && !s.published ==> s.started || s.disposed)
    && (s.dispatch == Dispatched && !s.published ==> s.handle != Pending)
    && (s.task.Over? && !s.started ==> s.task.cancelled)
    && (s.disposed ==> s.handle != Pending)
    && (s.started ==> !s.task.NoTask?)
  }

  /** A cancelled handle has disposed of its work, or something is on its way to the task. */
  predicate CancelInv(s: Sub) {
    && s.did.cancels == (if s.requested then 1 else 0)
    && (s.handle == Cancelled ==>
              || s.forwards > 0 || s.requests > 0 || s.claimed || s.disposed || s.requested || s.task.Over?
              || (s.closed && s.task.Live?))
    && (s.requested ==> !s.task.NoTask?)
    && (s.requests > 0 ==> s.dispatch == Dispatched && !s.task.NoTask?)
    && (s.forwards > 0 ==> s.handle == Cancelled)
  }

  predicate Inv(s: Sub) { WorkInv(s) && StageInv(s) && CancelInv(s) }

  predicate OfLoop(e: Event) {
    e.LoopStart? || e.EagerRun? || e.EagerEnd? || e.Created? || e.CreateFailed? || e.Run?
  }

  lemma LoopInv(s: Sub, e: Event)
    requires Inv(s) && Enabled(s, e) && OfLoop(e)
    ensures Inv(Next(s, e))
  {}

  lemma OtherInv(s: Sub, e: Event)
    requires Inv(s) && Enabled(s, e) && Admitted(s, e) && !OfLoop(e)
    ensures Inv(Next(s, e))
  {}

  lemma {:induction false} InvRun(s: Sub, es: seq<Event>, t: Sub)
    requires Inv(s) && Reaches(s, es, t)
    ensures Inv(t)
    decreases |es|
  {
    hide Inv, Next, Enabled, Admitted;
    if es != [] {
      if OfLoop(es[0]) { LoopInv(s, es[0]); } else { OtherInv(s, es[0]); }
      InvRun(Next(s, es[0]), es[1..], t);
    }
  }

  // ---------------------------------------------------------------------------------------------
  // What a submission guarantees
  // ---------------------------------------------------------------------------------------------

  /**
   In every run the work is never both started and disposed of, each at most once, and the work list
   is never read or popped empty. When the handle is terminal and nothing is on its way, the work
   was either started or disposed of.
   */
  lemma StartedOrDisposedOnce(es: seq<Event>, t: Sub)
    requires Reaches(SUBMITTED, es, t)
    ensures !(t.started && t.disposed) && !t.did.emptyAccess
    ensures t.did.starts <= 1 && t.did.disposals <= 1 && t.did.starts + t.did.disposals <= 1
    ensures t.handle != Pending && Quiet(t) ==> t.did.starts + t.did.disposals == 1
  {
    hide Reaches;
    InvRun(SUBMITTED, es, t);
  }

  /**
   No accepted cancellation is lost, unless the loop was closed under the live task: with nothing on its
   way, or nothing that a closed loop would still take, a cancelled handle has had its work disposed of, or
   its task asked to cancel, or its task was over. All routes together ask the task to cancel at most once.
   */
  lemma CancellationIsForwarded(es: seq<Event>, t: Sub)
    requires Reaches(SUBMITTED, es, t)
    ensures t.did.cancels <= 1
    ensures t.handle == Cancelled && t.forwards == 0 && (t.requests == 0 || t.closed) && t.dispatch != Creating ==>
              t.disposed || t.did.cancels == 1 || t.task.Over? || (t.closed && t.task.Live?)
  {
    hide Reaches;
    InvRun(SUBMITTED, es, t);
  }

  /** The claimed window: a cancellation that finds neither task nor work to dispose of is not lost. */
  lemma ClaimedWindow(s: Sub)
    requires Inv(s) && s.dispatch == Creating && s.handle == Pending
    ensures var t := Forward(CancelHandle(s));
            && t.did.disposals == s.did.disposals && t.requests == s.requests
            && (s.task.NoTask? ==> TaskCreated(t).did.cancels == s.did.cancels + 1)
  {}

  /** Without the admission lock the work could be disposed of twice. */
  lemma AdmissionLockNeeded()
    ensures var s := Forward(CancelHandle(SUBMITTED));
            && Enabled(s, RejectedDispatch) && !Admitted(s, RejectedDispatch)
            && Next(s, RejectedDispatch).did.disposals == 2
  {}

  // ---------------------------------------------------------------------------------------------
  // The submission object
  // ---------------------------------------------------------------------------------------------

  /** The shared variables of a submission; ghost fields are what only its environment knows. */
  class Submitted<Work(0)> {
    var future: Handle
    var work: seq<Work>
    var task: Task
    var published: bool
    var startClaimed: bool
    var started: bool
    var disposed: bool
    var cancellationRequested: bool
    var loopClosed: bool
    ghost var dispatch: Dispatch
    ghost var copied: bool
    ghost var forwards: nat
    ghost var requests: nat
    ghost var disposals: nat
    ghost var starts: nat
    ghost var cancels: nat

    ghost function View(): Sub
      reads this
    {
      Sub(future, |work| == 1, task, published, copied, startClaimed, started, disposed, dispatch,
          cancellationRequested, forwards, requests, loopClosed, Record(disposals, starts, cancels, false))
    }

    ghost predicate Valid()
      reads this
    {
      |work| <= 1 && Inv(View())
    }

    constructor (awaitable: Work)
      ensures Valid() && View() == SUBMITTED && work == [awaitable]
    {
      future, work, task := Pending, [awaitable], NoTask;
      published, startClaimed, started, disposed, cancellationRequested := false, false, false, false, false;
      loopClosed := false;
      dispatch, copied, forwards, requests, disposals, starts, cancels := Admitting, false, 0, 0, 0, 0, 0;
    }

    method PopWork() returns (rejected: Work)
      requires |work| == 1
      modifies this`disposed, this`work, this`disposals
      ensures View() == Dispose(old(View())) && rejected == old(work)[0] && work == []
    {
      disposed := true;
      rejected, work := work[0], [];
      disposals := disposals + 1;
    }

    /** Sends a handle cancellation to the work or to the task; returns the work to dispose of. */
    method ForwardCancellation() returns (rejected: seq<Work>)
      requires Valid() && forwards > 0
      modifies this
      ensures Valid() && View() == Forward(old(View()))
      ensures rejected == if View().did.disposals > old(disposals) then old(work) else []
    {
      LoopOrOther(View(), ForwardCancel);
      forwards := forwards - 1;
      rejected := [];
      if !published && !startClaimed && !started && !disposed {
        var w := PopWork();
        rejected := [w];
      } else if published && !loopClosed {
        requests := requests + 1;
      }
    }

    /** Skips a cancelled submission, returning its work, or claims the start. */
    method ClaimStart() returns (rejected: seq<Work>, claimed: bool)
      requires Valid() && dispatch == Queued && !loopClosed
      modifies this
      ensures Valid() && View() == StartOnLoop(old(View())) && claimed == startClaimed
      ensures rejected == if View().did.disposals > old(disposals) then old(work) else []
    {
      LoopOrOther(View(), LoopStart);
      rejected := [];
      if future == Cancelled || disposed {
        if !disposed {
          var w := PopWork();
          rejected := [w];
        }
        dispatch := Dispatched;
        return rejected, false;
      }
      startClaimed := true;
      dispatch := Creating;
      return [], true;
    }

    /** The task takes the work: the list is never empty here. */
    method TakeWork() returns (current: Work)
      requires Valid() && Enabled(View(), if dispatch == Creating then EagerRun else Run)
      modifies this
      ensures Valid() && View() == BeginRun(old(View())) && current == old(work)[0]
    {
      LoopOrOther(View(), if dispatch == Creating then EagerRun else Run);
      started := true;
      task := Live;
      starts := starts + 1;
      current := work[0];
    }

    method PublishTask()
      requires Valid() && dispatch == Creating && !loopClosed
      modifies this
      ensures Valid() && View() == TaskCreated(old(View()))
    {
      hide CancelInv;
      LoopOrOther(View(), Created);
      if task.NoTask? { task := Live; }
      published := true;
      startClaimed := false;
      dispatch := Dispatched;
      if future == Cancelled { CancelOnce(); }
    }

    method CancelOnce()
      modifies this
      ensures View() == CancelTaskOnce(old(View())) && work == old(work)
    {
      if task.Over? || cancellationRequested { return; }
      cancellationRequested := true;
      cancels := cancels + 1;
    }

    /** Publishes the outcome of a finished task; returns the work of a task that never began. */
    method PublishOutcome() returns (rejected: seq<Work>)
      requires Valid() && published && task.Over? && !loopClosed
      modifies this
      ensures Valid() && View() == CopyOutcome(old(View()))
      ensures rejected == if View().did.disposals > old(disposals) then old(work) else []
    {
      hide Inv, GivenUp, CancelHandle, Finish;
      if !disposed { WorkIsThere(View()); }
      LoopOrOther(View(), Outcome);
      ghost var s := View();
      published, copied, rejected := false, true, [];
      assert View() == s.(published := false, copied := true);
      if task.cancelled {
        rejected := GiveUp();
        ghost var u := View();
        work := [];
        assert View() == u.(work := false);
        CancelFuture();
      } else {
        work := [];
        FinishFuture();
      }
    }

    /** Returns work that nobody has started or disposed of. */
    method GiveUp() returns (rejected: seq<Work>)
      requires |work| <= 1 && (!disposed ==> |work| == 1)
      modifies this`disposed, this`work, this`disposals
      ensures View() == GivenUp(old(View())) && |work| <= 1
      ensures rejected == if View().did.disposals > old(disposals) then old(work) else []
    {
      rejected := [];
      if !started && !disposed {
        var w := PopWork();
        rejected := [w];
      }
    }

    method CancelFuture()
      modifies this`future, this`forwards
      ensures View() == CancelHandle(old(View()))
    {
      if future == Pending {
        future := Cancelled;
        forwards := forwards + 1;
      }
    }

    method FinishFuture()
      modifies this`future
      ensures View() == Finish(old(View()))
    {
      if future == Pending { future := Finished; }
    }

    /** Task creation failed; returns the work if the task had not begun it. */
    method CreationRejected() returns (rejected: seq<Work>)
      requires Valid() && dispatch == Creating && !loopClosed
      modifies this
      ensures Valid() && View() == CreationFailed(old(View()))
      ensures rejected == if View().did.disposals > old(disposals) then old(work) else []
    {
      hide Inv, GivenUp, CancelHandle, Finish;
      if !disposed { WorkIsThere(View()); }
      LoopOrOther(View(), CreateFailed);
      ghost var s := View();
      task := if task.Live? then Over(false) else task;
      startClaimed, dispatch := false, Dispatched;
      assert View() == s.(claimed := false, dispatch := Dispatched, task := task);
      rejected := GiveUp();
      FinishFuture();
    }
  }

  /** Work that was not disposed of is still there while the task is created or published. */
  lemma WorkIsThere(s: Sub)
    requires Inv(s) && (s.published || s.dispatch == Creating) && !s.disposed
    ensures s.work
  {}

  lemma LoopOrOther(s: Sub, e: Event)
    requires Inv(s) && Enabled(s, e) && Admitted(s, e)
    ensures Inv(Next(s, e))
  {
    hide Inv, Next, Enabled, Admitted;
    if OfLoop(e) { LoopInv(s, e); } else { OtherInv(s, e); }
  }
}
