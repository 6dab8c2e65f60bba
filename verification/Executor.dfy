/**
 The bounded executor of daemon threads: idle tokens, queued items and stop markers. A step is a section
 under the shutdown lock or one action of a worker; workers do not take that lock, so a shutdown that
 drains and marks the queue is one step per queue access.
 */
module Executor {

  /** A queue entry: a work item, or a marker that stops the worker that takes it. */
  datatype Slot = Item(id: nat) | Stop

  /** Whether the shutdown lock is free, or what the shutdown that holds it is doing. */
  datatype Phase = Unlocked | Draining | Marking(left: nat)

  /**
   `threads` counts workers ever started, `live` those that have not stopped, and `idle` the tokens
   of the idle semaphore. Items are numbered in submission order; `done` and `dropped` are those
   that ran and those cancelled by shutdown.
   */
  datatype Pool = Pool(max: nat, threads: nat, live: nat, idle: nat, queue: seq<Slot>, running: multiset<nat>,
                       submitted: nat, done: multiset<nat>, dropped: multiset<nat>, shutdown: bool, phase: Phase)

  function Fresh(max: nat): Pool { Pool(max, 0, 0, 0, [], multiset{}, 0, multiset{}, multiset{}, false, Unlocked) }

  function Items(q: seq<Slot>): multiset<nat> {
    if q == [] then multiset{}
    else Items(q[..|q| - 1]) + (if q[|q| - 1].Item? then multiset{q[|q| - 1].id} else multiset{})
  }

  function Stops(q: seq<Slot>): nat {
    if q == [] then 0 else Stops(q[..|q| - 1]) + (if q[|q| - 1].Stop? then 1 else 0)
  }

  /** Items that are queued or running. */
  function Outstanding(p: Pool): nat { |Items(p.queue)| + |p.running| }

  /** In how many places an item is: queued, running, done or dropped. */
  function Places(p: Pool, id: nat): nat {
    Items(p.queue)[id] + p.running[id] + p.done[id] + p.dropped[id]
  }

  function Markers(n: nat): seq<Slot> { seq(n, _ => Stop) }

  // ---------------------------------------------------------------------------------------------
  // Steps
  // ---------------------------------------------------------------------------------------------

  /** A submission; starting a thread can fail, and then nothing has changed. */
  function Submit(p: Pool, startFails: bool): Pool {
    if p.shutdown then p
    else if p.idle > 0 then p.(idle := p.idle - 1, queue := p.queue + [Item(p.submitted)], submitted := p.submitted + 1)
    else if p.threads < p.max then
      if startFails then p
      else p.(threads := p.threads + 1, live := p.live + 1, queue := p.queue + [Item(p.submitted)],
              submitted := p.submitted + 1)
    else p.(queue := p.queue + [Item(p.submitted)], submitted := p.submitted + 1)
  }

  /** A shutdown begins: it may drain the queue, and then marks it if it is the first one or has drained it. */
  function BeginShutdown(p: Pool, cancelFutures: bool): Pool {
    p.(shutdown := true,
       phase := if cancelFutures then Draining else if p.shutdown then Unlocked else Marking(p.threads))
  }

  /** One access of a draining shutdown to the queue. */
  function Drain(p: Pool): Pool {
    if p.queue == [] then p.(phase := Marking(p.threads))
    else
      p.(queue := p.queue[1..],
         dropped := if p.queue[0].Item? then p.dropped + multiset{p.queue[0].id} else p.dropped)
  }

  /** A marking shutdown queues a marker, or is done. */
  function Mark(p: Pool): Pool
    requires p.phase.Marking?
  {
    if p.phase.left == 0 then p.(phase := Unlocked)
    else p.(queue := p.queue + [Stop], phase := Marking(p.phase.left - 1))
  }

  /** A waiting worker takes the head of the queue. */
  function TakeNext(p: Pool): Pool
    requires p.queue != []
  {
    match p.queue[0]
    case Item(id) => p.(queue := p.queue[1..], running := p.running + multiset{id})
    case Stop => p.(queue := p.queue[1..], live := if p.live > 0 then p.live - 1 else 0)
  }

  /** A worker has run an item, whatever the item raised. */
  function FinishItem(p: Pool, id: nat): Pool {
    p.(running := p.running - multiset{id}, done := p.done + multiset{id}, idle := p.idle + 1)
  }

  datatype Event =
    | Submitted(startFails: bool)
    | ShutDown(cancelFutures: bool)
    | DrainStep
    | MarkStep
    | Took
    | Finished(id: nat)

  predicate Enabled(p: Pool, e: Event) {
    match e
    case Took => p.queue != [] && |p.running| < p.live
    case Finished(id) => id in p.running
    case DrainStep => p.phase == Draining
    case MarkStep => p.phase.Marking?
    case Submitted(_) | ShutDown(_) => p.phase == Unlocked
  }

  function Next(p: Pool, e: Event): Pool
    requires Enabled(p, e)
  {
    match e
    case Submitted(f) => Submit(p, f)
    case ShutDown(c) => BeginShutdown(p, c)
    case DrainStep => Drain(p)
    case MarkStep => Mark(p)
    case Took => TakeNext(p)
    case Finished(id) => FinishItem(p, id)
  }

  predicate Reaches(p: Pool, es: seq<Event>, q: Pool)
    decreases |es|
  {
    if es == [] then p == q else Enabled(p, es[0]) && Reaches(Next(p, es[0]), es[1..], q)
  }

  // ---------------------------------------------------------------------------------------------
  // The invariant
  // ---------------------------------------------------------------------------------------------

  /** After shutdown: the markers that are queued, or still to be queued, stop every live worker. */
  predicate Covered(p: Pool) {
    match p.phase
    case Unlocked => Stops(p.queue) >= p.live
    case Marking(left) => Stops(p.queue) + left >= p.live
    case Draining => true
  }

  predicate Counts(p: Pool) {
    && p.threads <= p.max && p.live <= p.threads && |p.running| <= p.live
    && (!p.shutdown ==>
          && p.phase == Unlocked && p.live == p.threads && Stops(p.queue) == 0
          && (if p.threads < p.max then p.idle + Outstanding(p) == p.threads else p.idle + Outstanding(p) >= p.threads))
    && (p.shutdown ==> Covered(p))
  }

  /** Every submitted item is in exactly one place. */
  ghost predicate Accounted(p: Pool) {
    forall id: nat :: Places(p, id) == if id < p.submitted then 1 else 0
  }

  ghost predicate Inv(p: Pool) { Counts(p) && Accounted(p) }

  lemma SnocQueue(q: seq<Slot>, s: Slot)
    ensures Items(q + [s]) == Items(q) + (if s.Item? then multiset{s.id} else multiset{})
    ensures Stops(q + [s]) == Stops(q) + (if s.Stop? then 1 else 0)
  {
    assert (q + [s])[..|q|] == q;
  }

  function One(s: Slot): multiset<nat> { if s.Item? then multiset{s.id} else multiset{} }

  lemma ItemsSnoc(q: seq<Slot>)
    requires q != []
    ensures Items(q) == Items(q[..|q| - 1]) + One(q[|q| - 1])
  {}

  lemma {:induction false} HeadItems(q: seq<Slot>)
    requires q != []
    ensures Items(q) == One(q[0]) + Items(q[1..])
    decreases |q|
  {
    hide Items, One;
    ItemsSnoc(q);
    var l := |q| - 1;
    if l > 0 {
      HeadItems(q[..l]);
      ItemsSnoc(q[1..]);
      assert q[..l][1..] == q[1..][..l - 1] && q[1..][l - 1] == q[l];
    } else {
      NoItems();
      assert q[1..] == [] && q[..0] == [];
    }
  }

  lemma {:induction false} HeadStops(q: seq<Slot>)
    requires q != []
    ensures Stops(q) == (if q[0].Stop? then 1 else 0) + Stops(q[1..])
    decreases |q|
  {
    if |q| > 1 {
      var l := |q| - 1;
      HeadStops(q[..l]);
      assert q[..l][1..] == q[1..][..l - 1] && q[1..][l - 1] == q[l];
    } else {
      assert q[1..] == [] && q[..0] == [];
    }
  }

  lemma HeadQueue(q: seq<Slot>)
    requires q != []
    ensures Items(q) == (if q[0].Item? then multiset{q[0].id} else multiset{}) + Items(q[1..])
    ensures Stops(q) == (if q[0].Stop? then 1 else 0) + Stops(q[1..])
  {
    hide Items, Stops;
    HeadItems(q);
    HeadStops(q);
  }

  lemma SubmitCounts(p: Pool, startFails: bool)
    requires Counts(p)
    ensures Counts(Submit(p, startFails))
  {
    hide Items, Stops;
    SnocSize(p.queue, p.submitted);
  }

  lemma SnocSize(q: seq<Slot>, id: nat)
    ensures |Items(q + [Item(id)])| == |Items(q)| + 1 && Stops(q + [Item(id)]) == Stops(q)
  {
    SnocQueue(q, Item(id));
  }

  lemma SubmitAccounted(p: Pool, startFails: bool)
    requires Accounted(p)
    ensures Accounted(Submit(p, startFails))
  {
    hide Items;
    SnocQueue(p.queue, Item(p.submitted));
    var q := Submit(p, startFails);
    forall id: nat ensures Places(q, id) == if id < q.submitted then 1 else 0 {
      assert Places(p, id) == if id < p.submitted then 1 else 0;
    }
  }

  lemma SubmitInv(p: Pool, startFails: bool)
    requires Inv(p)
    ensures Inv(Submit(p, startFails))
  {
    hide Counts, Accounted, Submit;
    SubmitCounts(p, startFails);
    SubmitAccounted(p, startFails);
  }

  lemma ShutdownCounts(p: Pool, e: Event)
    requires Counts(p) && Enabled(p, e) && (e.ShutDown? || e.DrainStep? || e.MarkStep?)
    ensures Counts(Next(p, e))
  {
    hide Items, Stops;
    SnocQueue(p.queue, Stop);
  }

  lemma ShutdownAccounted(p: Pool, e: Event)
    requires Accounted(p) && Enabled(p, e) && (e.ShutDown? || e.DrainStep? || e.MarkStep?)
    ensures Accounted(Next(p, e))
  {
    hide Items, Stops;
    SnocQueue(p.queue, Stop);
    if p.queue != [] { HeadQueue(p.queue); }
    var q := Next(p, e);
    forall id: nat ensures Places(q, id) == if id < q.submitted then 1 else 0 {
      assert Places(p, id) == if id < p.submitted then 1 else 0;
    }
  }

  lemma ShutdownInv(p: Pool, e: Event)
    requires Inv(p) && Enabled(p, e) && (e.ShutDown? || e.DrainStep? || e.MarkStep?)
    ensures Inv(Next(p, e))
  {
    hide Counts, Accounted, Next;
    ShutdownCounts(p, e);
    ShutdownAccounted(p, e);
  }

  lemma WorkerInv(p: Pool, e: Event)
    requires Inv(p) && Enabled(p, e) && (e.Took? || e.Finished?)
    ensures Inv(Next(p, e))
  {
    if e.Took? {
      HeadQueue(p.queue);
    } else {
      assert p.running == (p.running - multiset{e.id}) + multiset{e.id};
    }
    var q := Next(p, e);
    assert Counts(q) by { hide Accounted; }
    forall id: nat ensures Places(q, id) == if id < q.submitted then 1 else 0 {
      assert Places(p, id) == if id < p.submitted then 1 else 0;
    }
  }

  lemma {:induction false} InvRun(p: Pool, es: seq<Event>, q: Pool)
    requires Inv(p) && Reaches(p, es, q)
    ensures Inv(q)
    decreases |es|
  {
    hide Inv, Submit, BeginShutdown, Drain, Mark, TakeNext, FinishItem;
    if es != [] {
      match es[0] {
        case Submitted(f) => SubmitInv(p, f);
        case Took | Finished(_) => WorkerInv(p, es[0]);
        case _ => ShutdownInv(p, es[0]);
      }
      InvRun(Next(p, es[0]), es[1..], q);
    }
  }

  /**
   Conservation, over every run: before shutdown, idle tokens and outstanding items balance the
   threads, so no item lacks a worker while the pool can grow; when no shutdown is under way after one,
   there is a stop marker for every live worker, whatever the workers did in the middle of it; and
   every item is queued, running, done or dropped exactly once.
   */
  lemma PoolIsConserved(max: nat, es: seq<Event>, q: Pool)
    requires Reaches(Fresh(max), es, q)
    ensures q.threads <= max
    ensures !q.shutdown && q.threads < max ==> q.idle + Outstanding(q) == q.threads && Outstanding(q) <= q.live
    ensures !q.shutdown && q.threads == max ==> q.idle + Outstanding(q) >= q.threads
    ensures q.shutdown && q.phase == Unlocked ==> Stops(q.queue) >= q.live
    ensures forall id: nat :: Places(q, id) == if id < q.submitted then 1 else 0
  {
    hide Reaches;
    assert Inv(Fresh(max));
    MaxIsFixed(Fresh(max), es, q);
    InvRun(Fresh(max), es, q);
  }

  lemma {:induction false} MaxIsFixed(p: Pool, es: seq<Event>, q: Pool)
    requires Reaches(p, es, q)
    ensures p.max == q.max
    decreases |es|
  {
    if es != [] { MaxIsFixed(Next(p, es[0]), es[1..], q); }
  }

  // ---------------------------------------------------------------------------------------------
  // The executor object
  // ---------------------------------------------------------------------------------------------

  class DaemonExecutor {
    const maxWorkers: nat
    var threads: nat
    var idleTokens: nat
    var workQueue: seq<Slot>
    var stopping: bool
    ghost var pool: Pool

    ghost predicate Valid()
      reads this
    {
      && Inv(pool) && pool.max == maxWorkers && pool.threads == threads && pool.idle == idleTokens
      && pool.queue == workQueue && pool.shutdown == stopping && pool.phase == Unlocked
    }

    constructor (maxWorkers: nat)
      requires maxWorkers > 0
      ensures Valid() && pool == Fresh(maxWorkers) && this.maxWorkers == maxWorkers
    {
      this.maxWorkers := maxWorkers;
      threads, idleTokens, workQueue, stopping := 0, 0, [], false;
      pool := Fresh(maxWorkers);
    }

    /** Queues an item, with an idle token or a new thread where there is one; false is an error. */
    method SubmitItem(id: nat, startFails: bool) returns (ok: bool)
      requires Valid() && id == pool.submitted
      modifies this
      ensures Valid() && pool == Submit(old(pool), startFails)
      ensures ok <==> pool.submitted == id + 1
    {
      hide Inv;
      SubmitInv(pool, startFails);
      pool := Submit(pool, startFails);
      if stopping { return false; }
      if idleTokens > 0 {
        idleTokens := idleTokens - 1;
      } else if threads < maxWorkers {
        if startFails { return false; }
        threads := threads + 1;
      }
      workQueue := workQueue + [Item(id)];
      return true;
    }

    /**
     Stops the executor; a repeated call with `cancelFutures` drains and marks the queue anew. The events
     are the queue accesses it makes when no worker comes in between.
     */
    method ShutDown(cancelFutures: bool) returns (cancelled: multiset<nat>, ghost es: seq<Event>)
      requires Valid()
      modifies this
      ensures Valid() && stopping && Reaches(old(pool), es, pool)
      ensures cancelled == if cancelFutures then Items(old(workQueue)) else multiset{}
      ensures pool.dropped == old(pool).dropped + cancelled
      ensures workQueue == (if cancelFutures then [] else old(workQueue))
                           + (if !old(stopping) || cancelFutures then Markers(threads) else [])
    {
      hide Inv, Stops, Items, Reaches, Next, Enabled;
      ghost var p0 := pool;
      var first := !stopping;
      es := Begin(cancelFutures);
      cancelled := multiset{};
      if cancelFutures {
        cancelled, es := DrainQueue(p0, es);
      } else if !first {
        assert workQueue == workQueue + [];
        return;
      }
      es := MarkQueue(p0, es);
    }

    /** The pool is the one a shutdown under way has come to. */
    ghost predicate Stopping(p0: Pool, es: seq<Event>)
      reads this
    {
      && Inv(pool) && pool.max == maxWorkers && pool.threads == threads && pool.idle == idleTokens
      && pool.queue == workQueue && pool.shutdown && stopping && Reaches(p0, es, pool)
    }

    method Begin(cancelFutures: bool) returns (ghost es: seq<Event>)
      requires Valid()
      modifies this`stopping, this`pool
      ensures Stopping(old(pool), es) && pool == BeginShutdown(old(pool), cancelFutures)
    {
      hide Inv;
      ShutdownInv(pool, Event.ShutDown(cancelFutures));
      es := Snoc(pool, [], pool, Event.ShutDown(cancelFutures));
      pool := BeginShutdown(pool, cancelFutures);
      stopping := true;
    }

    method DrainQueue(ghost p0: Pool, ghost before: seq<Event>) returns (cancelled: multiset<nat>, ghost es: seq<Event>)
      requires Stopping(p0, before) && pool.phase == Draining
      modifies this`workQueue, this`pool
      ensures Stopping(p0, es) && pool.phase == Marking(threads) && workQueue == []
      ensures cancelled == Items(old(workQueue)) && pool.dropped == old(pool).dropped + cancelled
    {
      hide Inv, Reaches, Items;
      cancelled, es := multiset{}, before;
      while workQueue != []
        invariant Stopping(p0, es) && pool.phase == Draining
        invariant cancelled + Items(workQueue) == Items(old(workQueue))
        invariant pool.dropped == old(pool).dropped + cancelled
        decreases |workQueue|
      {
        HeadQueue(workQueue);
        ShutdownInv(pool, DrainStep);
        es := Snoc(p0, es, pool, DrainStep);
        pool := Drain(pool);
        if workQueue[0].Item? { cancelled := cancelled + multiset{workQueue[0].id}; }
        workQueue := workQueue[1..];
      }
      ShutdownInv(pool, DrainStep);
      es := Snoc(p0, es, pool, DrainStep);
      pool := Drain(pool);
      NoItems();
    }

    method MarkQueue(ghost p0: Pool, ghost before: seq<Event>) returns (ghost es: seq<Event>)
      requires Stopping(p0, before) && pool.phase == Marking(threads)
      modifies this`workQueue, this`pool
      ensures Valid() && stopping && Reaches(p0, es, pool) && pool.dropped == old(pool).dropped
      ensures workQueue == old(workQueue) + Markers(threads)
    {
      hide Inv, Reaches, Items, Stops;
      es := before;
      assert workQueue == workQueue + Markers(0);
      for i := 0 to threads
        invariant Stopping(p0, es) && pool.phase == Marking(threads - i) && pool.dropped == old(pool).dropped
        invariant workQueue == old(workQueue) + Markers(i)
      {
        ShutdownInv(pool, MarkStep);
        es := Snoc(p0, es, pool, MarkStep);
        pool := Mark(pool);
        workQueue := workQueue + [Stop];
      }
      ShutdownInv(pool, MarkStep);
      es := Snoc(p0, es, pool, MarkStep);
      pool := Mark(pool);
    }
  }

  lemma NoItems()
    ensures Items([]) == multiset{}
  {}

  /** One more event behind a run. */
  ghost function Snoc(p: Pool, es: seq<Event>, q: Pool, e: Event): (fs: seq<Event>)
    requires Reaches(p, es, q) && Enabled(q, e)
    ensures fs == es + [e] && Reaches(p, fs, Next(q, e))
  {
    SnocReaches(p, es, q, e);
    es + [e]
  }

  lemma {:induction false} SnocReaches(p: Pool, es: seq<Event>, q: Pool, e: Event)
    requires Reaches(p, es, q) && Enabled(q, e)
    ensures Reaches(p, es + [e], Next(q, e))
    decreases |es|
  {
    hide Next, Enabled;
    var fs := es + [e];
    if es == [] {
      assert fs == [e] && fs[1..] == [];
      assert Reaches(Next(p, e), [], Next(p, e));
    } else {
      SnocReaches(Next(p, es[0]), es[1..], q, e);
      assert fs[1..] == es[1..] + [e];
    }
  }
}
