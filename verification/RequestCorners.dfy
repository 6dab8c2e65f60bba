/**
 Why the side conditions are there: for each of them, a run that breaks only that condition and on
 which the request reopens after it was done, or reports success while it is cancelled.
 */
module RequestCorners {
  import opened RequestFlags
  import opened RequestRun
  import opened RequestOutcome
  import opened Options

  datatype Condition = NoCondition | First | Second | Third | Fourth

  /** All side conditions but `c` hold of the event. */
  predicate FairBut(c: Condition, s: State, e: Event) {
    (c == First || R1(s, e)) && (c == Second || R2(s, e)) && (c == Third || R3(s, e)) && (c == Fourth || R4(s, e))
  }

  predicate RunBut(c: Condition, s: State, es: seq<Event>, t: State)
    decreases |es|
  {
    if es == [] then s == t else Enabled(s, es[0]) && FairBut(c, s, es[0]) && RunBut(c, Next(s, es[0]), es[1..], t)
  }

  lemma {:induction false} Append(c: Condition, s: State, es: seq<Event>, t: State, e: Event) returns (fs: seq<Event>,
                                  u: State)
    requires RunBut(c, s, es, t) && Enabled(t, e) && FairBut(c, t, e)
    ensures u == Next(t, e) && fs == es + [e] && RunBut(c, s, fs, u)
    decreases |es|
  {
    hide Enabled, Next, FairBut;
    fs, u := es + [e], Next(t, e);
    if es == [] {
      assert fs == [e] && [e][1..] == [];
    } else {
      var _, _ := Append(c, Next(s, es[0]), es[1..], t, e);
      assert fs[1..] == es[1..] + [e];
    }
  }

  /** A run up to a finished, marked native call, for a request with or without authorization. */
  lemma FirstAttempt(c: Condition, auth: bool, o: Outcome) returns (es: seq<Event>, s: State)
    requires c == First || o.Success? || !(auth && o.unauth && o.retriable)
    ensures RunBut(c, Start(auth, false), es, s)
    ensures s == Start(auth, false).(flags := INITIAL.(future := Pending, attemptTerminal := true), pc := InFlight,
                                     native := Finished(0, o, true), attempts := 1,
                                     ledger := Ledger(Some(0), 1, [], {}))
  {
    hide RunBut;
    s := Start(auth, false);
    RunNothing(c, s);
    es, s := Append(c, Start(auth, false), [], s, Submit(true));
    es, s := Append(c, Start(auth, false), es, s, Begin(false));
    if auth { es, s := Append(c, Start(auth, false), es, s, AuthOk); }
    assert s == Start(auth, false).(flags := INITIAL.(future := Pending), pc := LoopHead);
    es, s := SendOnce(c, Start(auth, false), es, s, o);
  }

  lemma RunNothing(c: Condition, s: State)
    ensures RunBut(c, s, [], s)
  {}

  /** The lease that the next call is opened on. */
  function NextLease(s: State): nat { if s.ledger.held.Some? then s.ledger.held.value else s.ledger.leases }

  /** From the head of the retry loop to the next finished, marked native call. */
  lemma SendOnce(c: Condition, s0: State, es0: seq<Event>, s1: State, o: Outcome) returns (es: seq<Event>, s: State)
    requires RunBut(c, s0, es0, s1) && s1.pc == LoopHead && !s1.flags.cancelled && !s1.flags.terminal
    requires c == First || o.Success? || !(s1.auth && o.unauth && o.retriable)
    ensures RunBut(c, s0, es, s)
    ensures s == s1.(flags := s1.flags.(attemptTerminal := true), pc := InFlight,
                     native := Finished(NextLease(s1), o, true), attempts := s1.attempts + 1, ledger := Take(s1.ledger))
  {
    hide RunBut, Take;
    es, s := OpenOnce(c, s0, es0, s1);
    es, s := Append(c, s0, es, s, NativeFinish(o));
    es, s := Append(c, s0, es, s, Mark);
  }

  lemma OpenOnce(c: Condition, s0: State, es0: seq<Event>, s1: State) returns (es: seq<Event>, s: State)
    requires RunBut(c, s0, es0, s1) && s1.pc == LoopHead && !s1.flags.cancelled
    ensures RunBut(c, s0, es, s)
    ensures s == s1.(pc := InFlight, native := Open(NextLease(s1)), attempts := s1.attempts + 1,
                     ledger := Take(s1.ledger))
  {
    hide RunBut, HandleFailure;
    es, s := Append(c, s0, es0, s1, Head(true));
    assert s == s1.(pc := Sending);
    es, s := Append(c, s0, es, s, SendCheck(true));
    assert s == s1.(pc := Opening);
    es, s := Append(c, s0, es, s, OpenCall);
  }

  /** The retry keeps the flags that were meant for the authorization decision. */
  lemma RetriedUnauthenticated() returns (es: seq<Event>, t: State)
    ensures RunBut(First, Start(true, false), es, t) && t.pc == LoopHead
    ensures t.flags == INITIAL.(future := Pending, attemptTerminal := true, undecided := true) && t.late.None?
  {
    hide RunBut;
    var s0 := Start(true, false);
    es, t := FirstAttempt(First, true, Error(true, true));
    es, t := Append(First, s0, es, t, Resume(true, true));
    es, t := Append(First, s0, es, t, HandleError(true, false));
  }

  /** A retriable UNAUTHENTICATED error lets a cancellation be accepted over a native success. */
  lemma NeedsFirst() returns (es: seq<Event>, t: State)
    ensures RunBut(First, Start(true, false), es, t)
    ensures t.pc == Ended(Succeeded) && t.late.Some? && t.flags.cancelled
  {
    hide RunBut, Take;
    var s0 := Start(true, false);
    es, t := RetriedUnauthenticated();
    es, t := SendOnce(First, s0, es, t, Success);
    es, t := Append(First, s0, es, t, Resume(true, true));
    es, t := Append(First, s0, es, t, Cancel);
    es, t := Append(First, s0, es, t, CompleteOk);
  }

  /** An UNAUTHENTICATED error classified without request time left is final, and done. */
  lemma FinalUnauthenticated() returns (es: seq<Event>, s: State)
    ensures RunBut(Second, Start(true, false), es, s) && s.pc == ErrorSeen(false, false, true) && s.auth
    ensures s.flags == INITIAL.(future := Pending, terminal := true)
  {
    hide RunBut;
    es, s := FirstAttempt(Second, true, Error(true, false));
    es, s := Append(Second, Start(true, false), es, s, Resume(false, true));
  }

  /** An authorization retry behind a final error reopens a request that was done. */
  lemma NeedsSecond() returns (es: seq<Event>, s: State, e: Event)
    ensures RunBut(Second, Start(true, false), es, s) && Done(s.flags)
    ensures Enabled(s, e) && FairBut(Second, s, e) && !Done(Next(s, e).flags)
  {
    hide RunBut;
    es, s := FinalUnauthenticated();
    es, s := Append(Second, Start(true, false), es, s, HandleError(false, false));
    e := Resolve(true);
  }

  /** A retried failure behind a native success reopens a request that was done. */
  lemma NeedsThird() returns (es: seq<Event>, s: State, e: Event)
    ensures RunBut(Third, Start(false, false), es, s) && Done(s.flags)
    ensures Enabled(s, e) && FairBut(Third, s, e) && !Done(Next(s, e).flags)
  {
    hide RunBut;
    es, s := FirstAttempt(Third, false, Success);
    es, s := Append(Third, Start(false, false), es, s, Resume(true, true));
    e := CompleteFail(true, false, false, false);
  }

  /** A retry of an error that was classified as final reopens a request that was done. */
  lemma NeedsFourth() returns (es: seq<Event>, s: State, e: Event)
    ensures RunBut(Fourth, Start(false, false), es, s) && Done(s.flags)
    ensures Enabled(s, e) && FairBut(Fourth, s, e) && !Done(Next(s, e).flags)
  {
    hide RunBut;
    es, s := FirstAttempt(Fourth, false, Error(false, false));
    es, s := Append(Fourth, Start(false, false), es, s, Resume(true, true));
    e := HandleError(true, false);
  }

  lemma CancelledWhileAuthenticating(s0: State, es0: seq<Event>, s: State) returns (es: seq<Event>, t: State)
    requires RunBut(NoCondition, s0, es0, s) && s.pc == Authenticating && s.flags == INITIAL.(future := Pending)
    ensures RunBut(NoCondition, s0, es, t)
    ensures t == s.(flags := INITIAL.(cancelled := true, future := FutureCancelled))
  {
    hide RunBut;
    es, t := Append(NoCondition, s0, es0, s, Cancel);
  }

  /**
   With all four conditions: a cancellation accepted while authenticating is forgotten when the
   authorization deadline passes, and the request, done by then, accepts a second one.
   */
  lemma ForgottenCancellation() returns (es: seq<Event>, t: State)
    ensures RunBut(NoCondition, Start(true, false), es, t)
    ensures Done(t.flags) && Orphaned(t) && AfterCancel(t.flags).1
  {
    hide RunBut;
    var s0 := Start(true, false);
    RunNothing(NoCondition, s0);
    es, t := Append(NoCondition, s0, [], s0, Submit(true));
    es, t := Append(NoCondition, s0, es, t, Begin(false));
    assert t == s0.(flags := INITIAL.(future := Pending), pc := Authenticating);
    es, t := CancelledWhileAuthenticating(s0, es, t);
    es, t := Append(NoCondition, s0, es, t, AuthFail(true));
  }
}
