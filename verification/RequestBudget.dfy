/**
 The clocks of a request: the request budget, which pauses while the request authenticates and is
 full again for every authenticated cycle, the authorization deadline over all cycles, and the
 timeout each native attempt is given. Times are real numbers; clock readings never go back.
 */
module RequestBudget {
  import opened Deadlines
  import opened Options

  /** Retries are on when unlimited or positive. */
  predicate RetriesEnabled(retries: Option<int>) { retries.None? || retries.value > 0 }

  /** At most this many native attempts per cycle; unlimited retries have no bound. */
  function AttemptLimit(retries: Option<int>): Option<nat> {
    if retries.None? then None else Some(if retries.value < 1 then 1 else retries.value)
  }

  /** The limits every attempt of a request is under. */
  datatype Limits = Limits(
    timeout: Option<real>, perRetry: Option<real>, authTimeout: Option<real>, retries: Option<int>)

  /**
   What one pass of the retry loop sees: the clock when it starts, when it clips the per-retry
   limit and when it classifies the result, and whether the result is a retriable error.
   */
  datatype Pass = Pass(at: real, clipAt: real, classifiedAt: real, retriable: bool)

  /** One authenticated cycle: when it starts, and the passes of its retry loop. */
  datatype Cycle = Cycle(start: real, passes: seq<Pass>)

  predicate ClockForward(now: real, passes: seq<Pass>) {
    && (forall i :: 0 <= i < |passes| ==> now <= passes[i].at <= passes[i].clipAt <= passes[i].classifiedAt)
    && (forall i, j :: 0 <= i < j < |passes| ==> passes[i].classifiedAt <= passes[j].at)
  }

  /** A native attempt that was opened: in which cycle, when, and with which timeout. */
  datatype Opened = Opened(cycle: nat, at: real, timeout: Option<real>)

  /** What an attempt may use, told from the deadlines and limits alone. */
  predicate Bounded(l: Limits, deadline: Option<real>, o: Opened) {
    && (deadline.Some? ==> o.at < deadline.value && o.timeout.Some? && o.timeout.value <= deadline.value - o.at)
    && (RetriesEnabled(l.retries) && l.perRetry.Some? ==> o.timeout.Some? && o.timeout.value <= Max0(l.perRetry.value))
    && (o.timeout.Some? ==> deadline.Some? || (RetriesEnabled(l.retries) && l.perRetry.Some?))
  }

  /** A failed attempt, the `attempt`-th of its cycle, is retried. */
  predicate Retried(l: Limits, deadline: Option<real>, p: Pass, attempt: nat) {
    (deadline.None? || deadline.value > p.classifiedAt) && p.retriable && (l.retries.None? || l.retries.value > attempt)
  }

  class Clocks {
    const limits: Limits
    var requestDeadline: Option<real>
    var remaining: Option<real>
    var paused: bool

    constructor (limits: Limits, submitted: real)
      ensures this.limits == limits && !paused && remaining.None?
      ensures requestDeadline == if limits.timeout.None? then None else Some(submitted + Max0(limits.timeout.value))
    {
      this.limits := limits;
      requestDeadline := if limits.timeout.None? then None else Some(submitted + Max0(limits.timeout.value));
      remaining := None;
      paused := false;
    }

    /** Stops the request clock and keeps what is left of it. */
    method Pause(now: real)
      modifies this
      ensures limits.timeout.None? || old(paused) ==>
                requestDeadline == old(requestDeadline) && remaining == old(remaining) && paused == old(paused)
      ensures limits.timeout.Some? && !old(paused) ==>
                && paused && requestDeadline.None?
                && remaining == Some(if old(requestDeadline).None? then Max0(limits.timeout.value)
                                     else Max0(old(requestDeadline).value - now))
    {
      if limits.timeout.None? || paused { return; }
      var left := if requestDeadline.None? then limits.timeout.value else requestDeadline.value - now;
      remaining := Some(Max0(left));
      requestDeadline := None;
      paused := true;
    }

    method Resume(now: real)
      modifies this
      ensures limits.timeout.None? || !old(paused) ==>
                requestDeadline == old(requestDeadline) && remaining == old(remaining) && paused == old(paused)
      ensures limits.timeout.Some? && old(paused) ==>
                && !paused && remaining == old(remaining)
                && requestDeadline == Some(now + if old(remaining).None? then Max0(limits.timeout.value)
                                                 else old(remaining).value)
    {
      if limits.timeout.None? || !paused { return; }
      var left := if remaining.None? then Max0(limits.timeout.value) else remaining.value;
      requestDeadline := Some(now + left);
      paused := false;
    }

    /** The timeout of the next attempt, or nothing when the deadline has passed. */
    method AttemptTimeout(deadline: Option<real>, p: Pass) returns (r: Option<Option<real>>)
      requires p.at <= p.clipAt
      ensures r.None? <==> deadline.Some? && deadline.value <= p.at
      ensures r.Some? ==> forall c :: Bounded(limits, deadline, Opened(c, p.at, r.value))
      ensures r.Some? && p.clipAt == p.at ==>
                r.value == Earlier(if deadline.None? then None else Some(deadline.value - p.at),
                                   if RetriesEnabled(limits.retries) then limits.perRetry else None)
    {
      var timeout: Option<real> := if deadline.None? then None else Some(deadline.value - p.at);
      if timeout.Some? && timeout.value <= 0.0 { return None; }
      if RetriesEnabled(limits.retries) && limits.perRetry.Some?
         && (timeout.None? || timeout.value > limits.perRetry.value) {
        var perAttempt := limits.perRetry.value;
        if deadline.Some? {
          var left := deadline.value - p.clipAt;
          if left <= 0.0 {
            perAttempt := 0.0;
          } else {
            perAttempt := Min(perAttempt, left);
          }
        }
        timeout := Some(perAttempt);
      }
      return Some(timeout);
    }

    /**
     The retry loop of one cycle, over as many passes as it gets to see. All its attempts are
     bounded by the earlier deadline, and there are at most `AttemptLimit` of them.
     */
    method RetryLoop(cycle: nat, outer: Option<real>, passes: seq<Pass>) returns (log: seq<Opened>)
      requires forall i :: 0 <= i < |passes| ==> passes[i].at <= passes[i].clipAt
      ensures |log| <= |passes|
      ensures AttemptLimit(limits.retries).Some? ==> |log| <= AttemptLimit(limits.retries).value
      ensures forall i :: 0 <= i < |log| ==> log[i].cycle == cycle && log[i].at == passes[i].at
      ensures forall i :: 0 <= i < |log| ==> Bounded(limits, Earlier(requestDeadline, outer), log[i])
      ensures forall i :: 0 <= i < |log| - 1 ==> Retried(limits, Earlier(requestDeadline, outer), passes[i], i + 1)
      ensures |log| < |passes| && (|log| > 0 ==>
                Retried(limits, Earlier(requestDeadline, outer), passes[|log| - 1], |log|)) ==>
                Earlier(requestDeadline, outer).Some? && Earlier(requestDeadline, outer).value <= passes[|log|].at
    {
      var deadline := Earlier(requestDeadline, outer);
      log := [];
      var attempt := 0;
      while attempt < |passes|
        invariant attempt == |log| <= |passes|
        invariant attempt > 0 && limits.retries.Some? ==> limits.retries.value > attempt
        invariant forall i :: 0 <= i < |log| ==> log[i].cycle == cycle && log[i].at == passes[i].at
        invariant forall i :: 0 <= i < |log| ==> Retried(limits, deadline, passes[i], i + 1)
        invariant forall i :: 0 <= i < |log| ==> Bounded(limits, deadline, log[i])
      {
        var p := passes[attempt];
        attempt := attempt + 1;
        var timeout := AttemptTimeout(deadline, p);
        if timeout.None? { return; }
        log := log + [Opened(cycle, p.at, timeout.value)];
        var retry := (deadline.None? || deadline.value > p.classifiedAt) && p.retriable
                     && (limits.retries.None? || limits.retries.value > attempt);
        if !retry { return; }
      }
    }
  
    /**
     The authorization loop over as many authenticated cycles as it gets to run. Every cycle starts
     with the full request budget, whatever earlier cycles and authentication have used.
     */
    method AuthorizedCycles(authDeadline: Option<real>, cycles: seq<Cycle>, now: real) returns (logs: seq<seq<Opened>>)
      requires !paused && (limits.timeout.None? ==> requestDeadline.None?)
      requires forall k :: 0 <= k < |cycles| ==> ClockForward(cycles[k].start, cycles[k].passes)
      modifies this
      ensures |logs| == |cycles|
      ensures forall k :: 0 <= k < |logs| ==> CycleBounded(limits, authDeadline, cycles[k], k, logs[k])
    {
      Pause(now);
      logs := [];
      for k := 0 to |cycles|
        invariant paused <==> limits.timeout.Some?
        invariant limits.timeout.None? ==> requestDeadline == old(requestDeadline)
        invariant |logs| == k
        invariant forall i :: 0 <= i < k ==> CycleBounded(limits, authDeadline, cycles[i], i, logs[i])
      {
        if limits.timeout.Some? { remaining := Some(Max0(limits.timeout.value)); }
        Resume(cycles[k].start);
        var log := RetryLoop(k, authDeadline, cycles[k].passes);
        var passes := cycles[k].passes;
        var end := if passes == [] then cycles[k].start else passes[|passes| - 1].classifiedAt;
        Pause(end);
        logs := logs + [log];
      }
    }
  }

  function FullBudget(l: Limits, start: real): Option<real> {
    if l.timeout.None? then None else Some(start + Max0(l.timeout.value))
  }

  /** The attempts of a cycle: few enough, and each under the full budget and the outer deadline. */
  predicate CycleBounded(l: Limits, authDeadline: Option<real>, c: Cycle, k: nat, log: seq<Opened>) {
    && (AttemptLimit(l.retries).Some? ==> |log| <= AttemptLimit(l.retries).value)
    && |log| <= |c.passes|
    && forall i :: 0 <= i < |log| ==>
         && log[i].cycle == k && log[i].at == c.passes[i].at
         && Bounded(l, Earlier(FullBudget(l, c.start), authDeadline), log[i])
  }
}
