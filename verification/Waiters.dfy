/**
 Waiters of a cross-loop handle. A waiter that arrives registers unless the handle is done; the
 completion callback takes all registered waiters out and schedules their publication.
 */
module Waiters {

  /**
   `called` tells that the completion callback has run. `scheduled` counts publications per waiter;
   `left` are the waiters that gave up, `early` those of them that did so while registered.
   */
  datatype Handle = Handle(done: bool, called: bool, registry: set<nat>, arrived: set<nat>, left: set<nat>,
                           early: set<nat>, scheduled: multiset<nat>)

  const FRESH := Handle(false, false, {}, {}, {}, {}, multiset{})

  datatype Event = Complete | Callback | Arrive(w: nat) | Abandon(w: nat)

  predicate Enabled(h: Handle, e: Event) {
    match e
    case Complete => !h.done
    case Callback => h.done && !h.called
    case Arrive(w) => w !in h.arrived
    case Abandon(w) => w in h.arrived && w !in h.left
  }

  function Next(h: Handle, e: Event): Handle {
    match e
    case Complete => h.(done := true)
    case Callback => h.(called := true, registry := {}, scheduled := h.scheduled + multiset(h.registry))
    case Arrive(w) =>
      if h.done then h.(arrived := h.arrived + {w}, scheduled := h.scheduled + multiset{w})
      else h.(arrived := h.arrived + {w}, registry := h.registry + {w})
    case Abandon(w) =>
      h.(left := h.left + {w}, registry := h.registry - {w},
         early := if w in h.registry then h.early + {w} else h.early)
  }

  predicate Reaches(h: Handle, es: seq<Event>, k: Handle)
    decreases |es|
  {
    if es == [] then h == k else Enabled(h, es[0]) && Reaches(Next(h, es[0]), es[1..], k)
  }

  /** An arrived waiter is registered, or gave up while it was, or was scheduled once. */
  ghost predicate Inv(h: Handle) {
    && (h.called ==> h.done && h.registry == {})
    && h.registry <= h.arrived && h.early <= h.left <= h.arrived && h.registry !! h.left
    && (forall w :: w in h.scheduled ==> w in h.arrived && h.scheduled[w] == 1)
    && (forall w :: w in h.arrived ==>
          (w in h.registry || w in h.early || w in h.scheduled)
          && !(w in h.scheduled && (w in h.registry || w in h.early)))
  }

  lemma InvStep(h: Handle, e: Event)
    requires Inv(h) && Enabled(h, e)
    ensures Inv(Next(h, e))
  {
    var k := Next(h, e);
    match e
    case Callback =>
      forall w | w in k.scheduled ensures w in k.arrived && k.scheduled[w] == 1 {
        assert k.scheduled[w] == h.scheduled[w] + multiset(h.registry)[w];
        assert w in h.scheduled || w in h.registry;
      }
    case Arrive(w) =>
      assert w !in h.scheduled;
      if h.done { assert k.scheduled[w] == 1; }
    case _ =>
  }

  lemma {:induction false} InvRun(h: Handle, es: seq<Event>, k: Handle)
    requires Inv(h) && Reaches(h, es, k)
    ensures Inv(k)
    decreases |es|
  {
    hide Inv, Next, Enabled;
    if es != [] {
      InvStep(h, es[0]);
      InvRun(Next(h, es[0]), es[1..], k);
    }
  }

  /**
   No wakeup is lost: in every run, once the completion callback has run, each waiter that did not
   give up while registered, early or late, was scheduled exactly once, and the others not at all.
   A waiter that gave up leaves no registry entry, and the registry is empty in the end.
   */
  lemma NoLostWakeup(es: seq<Event>, k: Handle)
    requires Reaches(FRESH, es, k)
    ensures k.registry !! k.left
    ensures forall w :: w in k.arrived ==> k.scheduled[w] <= 1
    ensures k.called ==> k.registry == {} && forall w :: w in k.arrived ==> (k.scheduled[w] == 1 <==> w !in k.early)
  {
    hide Reaches;
    assert Inv(FRESH);
    InvRun(FRESH, es, k);
  }

  class CrossLoopHandle {
    var done: bool
    var waiters: set<nat>
    ghost var view: Handle

    ghost predicate Valid()
      reads this
    {
      Inv(view) && view.done == done && view.registry == waiters
    }

    constructor ()
      ensures Valid() && view == FRESH
    {
      done, waiters, view := false, {}, FRESH;
    }

    /** Registers a waiter, or tells that it is to be published at once. */
    method Register(w: nat) returns (publishNow: bool)
      requires Valid() && w !in view.arrived
      modifies this
      ensures Valid() && view == Next(old(view), Arrive(w))
      ensures publishNow == done == old(done) && (publishNow <==> w !in waiters)
    {
      InvStep(view, Arrive(w));
      view := Next(view, Arrive(w));
      publishNow := done;
      if !publishNow { waiters := waiters + {w}; }
    }

    /** The completion callback: detaches every waiter and returns those to publish. */
    method PublishWaiters() returns (destinations: set<nat>)
      requires Valid() && done && !view.called
      modifies this
      ensures Valid() && view == Next(old(view), Callback) && destinations == old(waiters) && waiters == {} && done
    {
      InvStep(view, Callback);
      view := Next(view, Callback);
      destinations := waiters;
      waiters := {};
    }

    method Leave(w: nat)
      requires Valid() && w in view.arrived && w !in view.left
      modifies this
      ensures Valid() && view == Next(old(view), Abandon(w)) && waiters == old(waiters) - {w} && done == old(done)
    {
      InvStep(view, Abandon(w));
      view := Next(view, Abandon(w));
      waiters := waiters - {w};
    }
  }
}
