/**
 The pool of transports and its shutdown. Checkout, release, retirement and close each consist of
 several sections under the pool lock or the task lock; any number of them run interleaved, and
 holders may release a wrapper late, twice or after it was retired.
 */
module ChannelPool {

  /** A wrapper of a native transport; wrappers are numbered in creation order. */
  datatype Wrapper = Wrapper(native: nat, address: nat)

  /** A release between its two sections; `reserved` tells that it retired the wrapper itself. */
  datatype Op = Op(wrapper: nat, discard: bool, reserved: bool)

  datatype Phase = Open | Snapshotted | Cleaned | Complete

  /**
   `free` and `leased` are the pool and the lease table. `inHand` are wrappers popped or created by a
   checkout that has not leased them yet, and `ops` releases in progress. `closing` are wrappers
   retired for a close of their own that is not registered yet, `registered` those whose close is
   pending, and `ended` those whose close has ended.
   */
  datatype Pool = Pool(
    max: nat, wrappers: seq<Wrapper>, natives: nat, free: set<nat>, leased: set<nat>, retired: set<nat>,
    inHand: set<nat>, ops: multiset<Op>, closing: set<nat>, registered: set<nat>, ended: set<nat>,
    closed: bool, phase: Phase, snapshot: set<nat>)

  function Empty(max: nat): Pool {
    Pool(max, [], 0, {}, {}, {}, {}, multiset{}, {}, {}, {}, false, Open, {})
  }

  predicate Known(p: Pool, w: nat) { w < |p.wrappers| }

  ghost function FreeAt(p: Pool, address: nat): set<nat> {
    set w | w in p.free && Known(p, w) && p.wrappers[w].address == address
  }

  // ---------------------------------------------------------------------------------------------
  // Sections
  // ---------------------------------------------------------------------------------------------

  /** Reserves a wrapper for a close of its own; a retired wrapper is left alone. */
  function ScheduleClose(p: Pool, w: nat, alreadyRetired: bool): Pool {
    if !alreadyRetired && w in p.retired then p
    else p.(retired := p.retired + {w}, free := p.free - {w}, closing := p.closing + {w})
  }

  function Lease(p: Pool, w: nat): Pool {
    var q := p.(inHand := p.inHand - {w});
    if p.closed then ScheduleClose(q, w, false) else q.(leased := p.leased + {w})
  }

  /** First section of a release. After close was requested it ends here. */
  function BeginRelease(p: Pool, w: nat, discard: bool): Pool {
    if p.closed then
      var q := if p.phase == Open then p else p.(leased := p.leased - {w});
      if w !in p.leased && w !in p.retired then ScheduleClose(q, w, false) else q
    else
      var reserved := discard && w !in p.retired;
      p.(leased := p.leased - {w},
         retired := if reserved then p.retired + {w} else p.retired,
         ops := p.ops + multiset{Op(w, discard, reserved)})
  }

  /** Second section: the transport goes back to the pool in a fresh wrapper, or is closed. */
  ghost function EndRelease(p: Pool, o: Op, reusable: bool): Pool {
    var q := p.(ops := p.ops - multiset{o});
    if !p.closed && reusable && !o.discard && o.wrapper !in p.retired && Known(p, o.wrapper)
       && |FreeAt(p, p.wrappers[o.wrapper].address)| < p.max
    then q.(retired := p.retired + {o.wrapper}, wrappers := p.wrappers + [p.wrappers[o.wrapper]],
            free := p.free + {|p.wrappers|})
    else ScheduleClose(q, o.wrapper, o.reserved)
  }

  /** The close snapshot: everything free or leased is retired and owned by the cleanup. */
  function TakeSnapshot(p: Pool): Pool {
    p.(closed := true, phase := Snapshotted, snapshot := p.free + p.leased,
       retired := p.retired + p.free + p.leased, free := {})
  }

  datatype Event =
    | TakeFree(w: nat)
    | Create(address: nat)
    | LeaseOut(w: nat)
    | DropStopped(w: nat)
    | ReleaseBegin(w: nat, discard: bool)
    | ReleaseEnd(op: Op, reusable: bool)
    | RegisterClose(w: nat)
    | CloseEnded(w: nat)
    | RequestClose
    | CloseSnapshot
    | CloseCleanup
    | PublishClose

  /** Holders only know wrappers that were leased out to them. */
  predicate Enabled(p: Pool, e: Event) {
    match e
    case TakeFree(w) => !p.closed && w in p.free
    case Create(_) => true
    case LeaseOut(w) => w in p.inHand
    case DropStopped(w) => w in p.inHand
    case ReleaseBegin(w, _) => Known(p, w) && w !in p.inHand && w !in p.free
    case ReleaseEnd(o, _) => o in p.ops
    case RegisterClose(w) => w in p.closing
    case CloseEnded(w) => w in p.registered
    case RequestClose => true
    case CloseSnapshot => p.phase == Open
    case CloseCleanup => p.phase == Snapshotted
    case PublishClose => p.phase == Cleaned && p.registered == {}
  }

  ghost function Next(p: Pool, e: Event): Pool
    requires Enabled(p, e)
  {
    match e
    case TakeFree(w) => p.(free := p.free - {w}, inHand := p.inHand + {w})
    case Create(a) =>
      p.(wrappers := p.wrappers + [Wrapper(p.natives, a)], natives := p.natives + 1,
         inHand := p.inHand + {|p.wrappers|})
    case LeaseOut(w) => Lease(p, w)
    case DropStopped(w) => ScheduleClose(p.(inHand := p.inHand - {w}), w, false)
    case ReleaseBegin(w, discard) => BeginRelease(p, w, discard)
    case ReleaseEnd(o, reusable) => EndRelease(p, o, reusable)
    case RegisterClose(w) => p.(closing := p.closing - {w}, registered := p.registered + {w})
    case CloseEnded(w) => p.(registered := p.registered - {w}, ended := p.ended + {w})
    case RequestClose => p.(closed := true)
    case CloseSnapshot => TakeSnapshot(p)
    case CloseCleanup => p.(leased := p.leased - p.snapshot, phase := Cleaned)
    case PublishClose => p.(phase := Complete)
  }

  ghost predicate Reaches(p: Pool, es: seq<Event>, q: Pool)
    decreases |es|
  {
    if es == [] then p == q else Enabled(p, es[0]) && Reaches(Next(p, es[0]), es[1..], q)
  }

  // ---------------------------------------------------------------------------------------------
  // The invariant
  // ---------------------------------------------------------------------------------------------

  /** Wrappers are known, and each is in at most one place of the pool. */
  ghost predicate Places(p: Pool) {
    && (forall w :: w in p.free || w in p.leased || w in p.retired || w in p.inHand ==> Known(p, w))
    && (forall w :: w in p.closing || w in p.registered || w in p.ended || w in p.snapshot ==> Known(p, w))
    && (forall o :: o in p.ops ==> Known(p, o.wrapper))
    && p.free !! p.leased && p.free !! p.inHand && p.leased !! p.inHand
    && (forall o :: o in p.ops ==> o.wrapper !in p.free && o.wrapper !in p.leased && o.wrapper !in p.inHand)
    && p.free !! p.retired && p.inHand !! p.retired
    && (p.phase == Open ==> p.leased !! p.retired && p.snapshot == {})
    && (p.phase != Open ==> p.closed && p.free == {} && p.leased <= p.snapshot && p.snapshot <= p.retired)
    && (p.phase in {Cleaned, Complete} ==> p.leased == {})
  }

  ghost predicate WithinMax(p: Pool) { forall a :: |FreeAt(p, a)| <= p.max }

  /** A transport has at most one wrapper that is not retired, and it is the newest one. */
  ghost predicate OneWrapper(p: Pool) {
    && (forall v, w :: 0 <= v < w < |p.wrappers| && p.wrappers[v].native == p.wrappers[w].native ==> v in p.retired)
    && (forall w :: 0 <= w < |p.wrappers| ==> p.wrappers[w].native < p.natives)
  }

  /** The newest wrapper of its transport. */
  predicate Newest(p: Pool, w: nat) {
    Known(p, w) && forall v :: w < v < |p.wrappers| ==> p.wrappers[v].native != p.wrappers[w].native
  }

  /** The close of `w` is the cleanup's, or its own. */
  predicate CloseOwned(p: Pool, w: nat) {
    w in p.snapshot || w in p.closing || w in p.registered || w in p.ended
  }

  ghost predicate Reserved(p: Pool, w: nat) { exists o :: o in p.ops && o.wrapper == w && o.reserved }

  ghost predicate InOps(p: Pool, w: nat) { exists o :: o in p.ops && o.wrapper == w }

  /** Somebody is responsible for every transport. */
  ghost predicate NotLost(p: Pool) {
    forall w :: Newest(p, w) ==>
      if w in p.retired then CloseOwned(p, w) || Reserved(p, w)
      else w in p.free || w in p.leased || w in p.inHand || InOps(p, w)
  }

  /** A transport gets at most one close: owned closes are of newest wrappers and in one place. */
  ghost predicate ClosedOnce(p: Pool) {
    && (forall w :: CloseOwned(p, w) || Reserved(p, w) ==> w in p.retired && Newest(p, w))
    && p.snapshot !! p.closing && p.snapshot !! p.registered && p.snapshot !! p.ended
    && p.closing !! p.registered && p.closing !! p.ended && p.registered !! p.ended
    && (forall o :: o in p.ops && o.reserved ==> p.ops[o] == 1 && !CloseOwned(p, o.wrapper))
    && (forall o, q :: o in p.ops && q in p.ops && o.reserved && q.reserved && o.wrapper == q.wrapper ==> o == q)
    && (forall o :: o in p.ops && o.reserved ==> o.discard)
  }

  ghost predicate Inv(p: Pool) { Places(p) && WithinMax(p) && OneWrapper(p) && NotLost(p) && ClosedOnce(p) }

  // ---------------------------------------------------------------------------------------------
  // Each section keeps it
  // ---------------------------------------------------------------------------------------------

  predicate OfCheckout(e: Event) { e.TakeFree? || e.Create? || e.LeaseOut? || e.DropStopped? }

  predicate OfClose(e: Event) {
    e.RegisterClose? || e.CloseEnded? || e.RequestClose? || e.CloseSnapshot? || e.CloseCleanup? || e.PublishClose?
  }

  lemma PlacesCheckout(p: Pool, e: Event)
    requires Places(p) && Enabled(p, e) && OfCheckout(e)
    ensures Places(Next(p, e))
  {}

  lemma PlacesBegin(p: Pool, w: nat, discard: bool)
    requires Places(p) && Known(p, w) && w !in p.inHand && w !in p.free
    ensures Places(BeginRelease(p, w, discard))
  {}

  lemma PlacesEnd(p: Pool, o: Op, reusable: bool)
    requires Places(p) && o in p.ops
    ensures Places(EndRelease(p, o, reusable))
  {
    hide FreeAt;
  }

  lemma PlacesClose(p: Pool, e: Event)
    requires Places(p) && Enabled(p, e) && OfClose(e)
    ensures Places(Next(p, e))
  {}

  lemma PlacesStep(p: Pool, e: Event)
    requires Places(p) && Enabled(p, e)
    ensures Places(Next(p, e))
  {
    hide Places, BeginRelease, EndRelease;
    match e
    case ReleaseBegin(w, discard) => PlacesBegin(p, w, discard);
    case ReleaseEnd(o, reusable) => PlacesEnd(p, o, reusable);
    case TakeFree(_) => PlacesCheckout(p, e);
    case Create(_) => PlacesCheckout(p, e);
    case LeaseOut(_) => PlacesCheckout(p, e);
    case DropStopped(_) => PlacesCheckout(p, e);
    case _ => PlacesClose(p, e);
  }

  lemma OneWrapperStep(p: Pool, e: Event)
    requires OneWrapper(p) && Enabled(p, e)
    ensures OneWrapper(Next(p, e))
  {
    if e.ReleaseEnd? {
      OneWrapperEnd(p, e.op, e.reusable);
    } else if e.Create? {
      hide FreeAt;
    } else {
      OneWrapperFrame(p, Next(p, e));
    }
  }

  lemma OneWrapperFrame(p: Pool, q: Pool)
    requires OneWrapper(p) && q.wrappers == p.wrappers && q.natives == p.natives && p.retired <= q.retired
    ensures OneWrapper(q)
  {}

  lemma OneWrapperEnd(p: Pool, o: Op, reusable: bool)
    requires OneWrapper(p)
    ensures OneWrapper(EndRelease(p, o, reusable))
  {
    hide FreeAt;
  }

  /** Only a returned transport enters the pool, and only below the maximum. */
  lemma WithinMaxStep(p: Pool, e: Event)
    requires Places(p) && WithinMax(p) && Enabled(p, e)
    ensures WithinMax(Next(p, e))
  {
    hide FreeAt, Places;
    var q := Next(p, e);
    forall a ensures |FreeAt(q, a)| <= q.max {
      if e.ReleaseEnd? && q.free > p.free {
        FreeAdded(p, q, a, p.wrappers[e.op.wrapper].address);
      } else {
        FreeShrinks(p, q, a);
      }
    }
  }

  lemma FreeShrinks(p: Pool, q: Pool, a: nat)
    requires Places(p) && q.free <= p.free && p.wrappers <= q.wrappers
    ensures |FreeAt(q, a)| <= |FreeAt(p, a)|
  {
    Smaller(FreeAt(q, a), FreeAt(p, a));
  }

  lemma Smaller(a: set<nat>, b: set<nat>)
    requires a <= b
    ensures |a| <= |b|
  {
    assert b == a + (b - a);
  }

  lemma FreeAdded(p: Pool, q: Pool, a: nat, b: nat)
    requires Places(p) && |q.wrappers| == |p.wrappers| + 1 && p.wrappers <= q.wrappers
    requires q.wrappers[|p.wrappers|].address == b
    requires q.free == p.free + {|p.wrappers|}
    ensures FreeAt(q, a) == FreeAt(p, a) + (if a == b then {|p.wrappers|} else {})
    ensures |FreeAt(q, a)| == |FreeAt(p, a)| + (if a == b then 1 else 0)
  {
    hide FreeAt;
    var n := |p.wrappers|;
    forall w: nat ensures w in FreeAt(q, a) <==> w in FreeAt(p, a) || (a == b && w == n) { FreeMember(p, q, a, b, w); }
    FreeIsKnown(p, a, n);
    assert FreeAt(q, a) == FreeAt(p, a) + if a == b then {n} else {};
  }

  lemma FreeMember(p: Pool, q: Pool, a: nat, b: nat, w: nat)
    requires Places(p) && |q.wrappers| == |p.wrappers| + 1 && p.wrappers <= q.wrappers
    requires q.wrappers[|p.wrappers|].address == b
    requires q.free == p.free + {|p.wrappers|}
    ensures w in FreeAt(q, a) <==> w in FreeAt(p, a) || (a == b && w == |p.wrappers|)
  {
    var n := |p.wrappers|;
    assert n !in p.free;
    assert w < n ==> q.wrappers[w] == p.wrappers[w];
  }

  lemma FreeIsKnown(p: Pool, a: nat, w: nat)
    requires !Known(p, w)
    ensures w !in FreeAt(p, a)
  {}

  // ---------------------------------------------------------------------------------------------
  // Nobody loses a transport
  // ---------------------------------------------------------------------------------------------

  /** The condition of `NotLost` for one wrapper. */
  ghost predicate Kept(p: Pool, w: nat) {
    if w in p.retired then CloseOwned(p, w) || Reserved(p, w)
    else w in p.free || w in p.leased || w in p.inHand || InOps(p, w)
  }

  lemma NewestOfMore(p: Pool, q: Pool, w: nat)
    requires p.wrappers <= q.wrappers && Newest(q, w) && Known(p, w)
    ensures Newest(p, w)
  {}

  lemma KeptCheckout(p: Pool, e: Event, w: nat)
    requires Places(p) && OneWrapper(p) && NotLost(p) && Enabled(p, e) && OfCheckout(e) && Newest(Next(p, e), w)
    ensures Kept(Next(p, e), w)
  {
    var q := Next(p, e);
    if Known(p, w) {
      NewestOfMore(p, q, w);
      assert Kept(p, w);
      OpsSame(p, q, w);
    }
  }

  lemma OpsSame(p: Pool, q: Pool, w: nat)
    requires p.ops == q.ops
    ensures Reserved(p, w) <==> Reserved(q, w)
    ensures InOps(p, w) <==> InOps(q, w)
  {}

  lemma KeptBegin(p: Pool, v: nat, discard: bool, w: nat)
    requires Places(p) && NotLost(p) && Known(p, v) && v !in p.inHand && v !in p.free && Newest(p, w)
    ensures Kept(BeginRelease(p, v, discard), w)
  {
    var q := BeginRelease(p, v, discard);
    assert Kept(p, w);
    if p.closed {
      OpsSame(p, q, w);
    } else {
      var o := Op(v, discard, discard && v !in p.retired);
      OpsMore(p, q, w, o);
    }
  }

  lemma OpsMore(p: Pool, q: Pool, w: nat, o: Op)
    requires q.ops == p.ops + multiset{o}
    ensures Reserved(p, w) ==> Reserved(q, w)
    ensures InOps(p, w) ==> InOps(q, w)
    ensures InOps(q, o.wrapper) && (o.reserved ==> Reserved(q, o.wrapper))
  {
    assert o in q.ops;
    assert forall r :: r in p.ops ==> r in q.ops;
  }

  lemma KeptEnd(p: Pool, o: Op, reusable: bool, w: nat)
    requires Places(p) && OneWrapper(p) && NotLost(p) && o in p.ops && Newest(EndRelease(p, o, reusable), w)
    ensures Kept(EndRelease(p, o, reusable), w)
  {
    hide FreeAt;
    var q := EndRelease(p, o, reusable);
    if Known(p, w) {
      NewestOfMore(p, q, w);
      assert Kept(p, w);
      hide Places, NotLost, OneWrapper, Newest;
      OpsLess(p, q, w, o);
      if w == o.wrapper { NotPooled(p, o, reusable); }
    }
  }

  /** A wrapper that went back to the pool is not its transport's newest any more. */
  lemma NotPooled(p: Pool, o: Op, reusable: bool)
    requires Newest(EndRelease(p, o, reusable), o.wrapper) && Known(p, o.wrapper)
    ensures EndRelease(p, o, reusable) == ScheduleClose(p.(ops := p.ops - multiset{o}), o.wrapper, o.reserved)
  {
    hide FreeAt;
    var q := EndRelease(p, o, reusable);
    if q.wrappers != p.wrappers { PooledIsOlder(p, q, o.wrapper); }
  }

  lemma PooledIsOlder(p: Pool, q: Pool, w: nat)
    requires Known(p, w) && q.wrappers == p.wrappers + [p.wrappers[w]]
    ensures !Newest(q, w)
  {
    assert q.wrappers[|p.wrappers|].native == q.wrappers[w].native;
  }

  lemma OpsLess(p: Pool, q: Pool, w: nat, o: Op)
    requires q.ops == p.ops - multiset{o}
    ensures w != o.wrapper ==> (Reserved(p, w) ==> Reserved(q, w)) && (InOps(p, w) ==> InOps(q, w))
    ensures !o.reserved ==> (Reserved(p, w) ==> Reserved(q, w))
  {
    assert forall r :: r in p.ops && r != o ==> r in q.ops;
  }

  lemma KeptClose(p: Pool, e: Event, w: nat)
    requires Places(p) && NotLost(p) && Enabled(p, e) && OfClose(e) && Newest(p, w)
    ensures Kept(Next(p, e), w)
  {
    assert Kept(p, w);
    OpsSame(p, Next(p, e), w);
  }

  lemma NotLostStep(p: Pool, e: Event)
    requires Places(p) && OneWrapper(p) && NotLost(p) && Enabled(p, e)
    ensures NotLost(Next(p, e))
  {
    var q := Next(p, e);
    forall w | Newest(q, w) ensures Kept(q, w) {
      hide Places, OneWrapper, NotLost, Kept, FreeAt;
      if e.ReleaseEnd? {
        KeptEnd(p, e.op, e.reusable, w);
      } else if e.ReleaseBegin? {
        NewestOfMore(p, q, w);
        KeptBegin(p, e.w, e.discard, w);
      } else if OfCheckout(e) {
        KeptCheckout(p, e, w);
      } else {
        NewestOfMore(p, q, w);
        KeptClose(p, e, w);
      }
    }
  }

  // ---------------------------------------------------------------------------------------------
  // No transport is closed twice
  // ---------------------------------------------------------------------------------------------

  lemma UnretiredIsNewest(p: Pool, w: nat)
    requires OneWrapper(p) && Known(p, w) && w !in p.retired
    ensures Newest(p, w)
  {}

  lemma UnretiredUnreserved(p: Pool, w: nat)
    requires ClosedOnce(p) && w !in p.retired
    ensures forall o :: o in p.ops && o.reserved ==> o.wrapper != w
  {
    forall o | o in p.ops && o.reserved ensures o.wrapper != w { assert Reserved(p, o.wrapper); }
  }

  lemma NewestStays(p: Pool, q: Pool, w: nat)
    requires Newest(p, w) && |q.wrappers| == |p.wrappers| + 1 && p.wrappers <= q.wrappers
    requires q.wrappers[|p.wrappers|].native != p.wrappers[w].native
    ensures Newest(q, w)
  {}

  lemma OnceSchedule(p: Pool, w: nat)
    requires Places(p) && OneWrapper(p) && ClosedOnce(p) && Known(p, w) && w !in p.retired
    ensures ClosedOnce(ScheduleClose(p, w, false))
  {
    UnretiredIsNewest(p, w);
    OnceClosing(p, w);
  }

  lemma OnceClosing(p: Pool, w: nat)
    requires ClosedOnce(p) && Newest(p, w) && !CloseOwned(p, w) && !Reserved(p, w)
    ensures ClosedOnce(ScheduleClose(p, w, true))
  {
    var q := ScheduleClose(p, w, true);
    forall v | CloseOwned(q, v) || Reserved(q, v) ensures v in q.retired && Newest(q, v) {
      OpsSame(p, q, v);
      assert v == w || CloseOwned(p, v) || Reserved(p, v);
      assert Newest(p, v);
    }
  }

  /** Changes outside closes, wrappers and releases do not matter. */
  lemma OnceFrame(p: Pool, q: Pool)
    requires ClosedOnce(p) && q.wrappers == p.wrappers && q.ops == p.ops && q.retired == p.retired
    requires q.snapshot == p.snapshot && q.closing == p.closing && q.registered == p.registered && q.ended == p.ended
    ensures ClosedOnce(q)
  {
    forall v | CloseOwned(q, v) || Reserved(q, v) ensures v in q.retired && Newest(q, v) {
      OpsSame(p, q, v);
      assert CloseOwned(p, v) || Reserved(p, v);
      assert Newest(p, v);
    }
  }

  lemma OnceCheckout(p: Pool, e: Event)
    requires Places(p) && OneWrapper(p) && ClosedOnce(p) && Enabled(p, e) && OfCheckout(e)
    ensures ClosedOnce(Next(p, e))
  {
    hide ClosedOnce, OneWrapper;
    match e
    case TakeFree(w) => OnceFrame(p, Next(p, e));
    case Create(a) => OnceCreate(p, a);
    case LeaseOut(w) =>
      var q := p.(inHand := p.inHand - {w});
      OnceFrame(p, q);
      if p.closed { OneWrapperFrame(p, q); OnceSchedule(q, w); } else { OnceFrame(p, Next(p, e)); }
    case DropStopped(w) =>
      var q := p.(inHand := p.inHand - {w});
      OnceFrame(p, q);
      OneWrapperFrame(p, q);
      OnceSchedule(q, w);
  }

  lemma OnceCreate(p: Pool, a: nat)
    requires OneWrapper(p) && ClosedOnce(p)
    ensures ClosedOnce(Next(p, Create(a)))
  {
    var q := Next(p, Create(a));
    forall v | CloseOwned(q, v) || Reserved(q, v) ensures v in q.retired && Newest(q, v) {
      OpsSame(p, q, v);
      assert CloseOwned(p, v) || Reserved(p, v);
      NewestStays(p, q, v);
    }
  }

  lemma OnceBegin(p: Pool, w: nat, discard: bool)
    requires Places(p) && OneWrapper(p) && ClosedOnce(p) && Known(p, w)
    ensures ClosedOnce(BeginRelease(p, w, discard))
  {
    hide OneWrapper;
    if p.closed {
      var q := if p.phase == Open then p else p.(leased := p.leased - {w});
      hide ClosedOnce;
      OnceFrame(p, q);
      if w !in p.leased && w !in p.retired {
        OneWrapperFrame(p, q);
        assert Places(q);
        OnceSchedule(q, w);
      }
    } else {
      OnceOp(p, w, discard);
    }
  }

  lemma OnceOp(p: Pool, w: nat, discard: bool)
    requires Places(p) && OneWrapper(p) && ClosedOnce(p) && Known(p, w) && !p.closed
    ensures ClosedOnce(BeginRelease(p, w, discard))
  {
    var q := BeginRelease(p, w, discard);
    var o := Op(w, discard, discard && w !in p.retired);
    if o.reserved {
      UnretiredIsNewest(p, w);
      UnretiredUnreserved(p, w);
    }
    assert forall r :: r in q.ops <==> r in p.ops || r == o;
    forall v | CloseOwned(q, v) || Reserved(q, v) ensures v in q.retired && Newest(q, v) {
      if CloseOwned(p, v) || Reserved(p, v) { assert Newest(p, v); }
    }
    forall r | r in q.ops && r.reserved ensures q.ops[r] == 1 && !CloseOwned(q, r.wrapper) {
      assert o.reserved && r == o ==> o !in p.ops;
    }
    forall r, t | r in q.ops && t in q.ops && r.reserved && t.reserved && r.wrapper == t.wrapper ensures r == t {
      assert o.reserved && r.wrapper == w ==> r !in p.ops && t !in p.ops;
    }
  }

  lemma OnceEnd(p: Pool, o: Op, reusable: bool)
    requires Places(p) && OneWrapper(p) && ClosedOnce(p) && o in p.ops
    ensures ClosedOnce(EndRelease(p, o, reusable))
  {
    hide FreeAt, OneWrapper;
    var d := p.(ops := p.ops - multiset{o});
    var q := EndRelease(p, o, reusable);
    OnceFewerOps(p, o);
    OneWrapperFrame(p, d);
    if |q.wrappers| > |p.wrappers| {
      OncePooled(d, q, o.wrapper);
    } else if o.wrapper !in p.retired {
      OnceScheduleOpen(d, o.wrapper);
    } else if o.reserved {
      ReservedIsFree(p, o);
      OnceClosing(d, o.wrapper);
    }
  }

  lemma OnceScheduleOpen(p: Pool, w: nat)
    requires OneWrapper(p) && ClosedOnce(p) && Known(p, w) && w !in p.retired
    ensures ClosedOnce(ScheduleClose(p, w, false)) && ClosedOnce(ScheduleClose(p, w, true))
  {
    UnretiredIsNewest(p, w);
    UnretiredUnreserved(p, w);
    OnceClosing(p, w);
  }

  lemma OnceFewerOps(p: Pool, o: Op)
    requires ClosedOnce(p) && o in p.ops
    ensures ClosedOnce(p.(ops := p.ops - multiset{o}))
  {
    var q := p.(ops := p.ops - multiset{o});
    assert forall r :: r in q.ops ==> r in p.ops && q.ops[r] <= p.ops[r];
    forall v | CloseOwned(q, v) || Reserved(q, v) ensures v in q.retired && Newest(q, v) {
      assert CloseOwned(p, v) || Reserved(p, v);
      assert Newest(p, v);
    }
  }

  /** A reserved release is the only one to close its wrapper. */
  lemma ReservedIsFree(p: Pool, o: Op)
    requires ClosedOnce(p) && o in p.ops && o.reserved
    ensures var q := p.(ops := p.ops - multiset{o});
            Newest(q, o.wrapper) && !CloseOwned(q, o.wrapper) && !Reserved(q, o.wrapper)
  {
    var q := p.(ops := p.ops - multiset{o});
    assert Reserved(p, o.wrapper);
    assert Newest(p, o.wrapper);
    assert o !in q.ops;
    assert forall r :: r in q.ops ==> r in p.ops;
  }

  lemma OncePooled(p: Pool, q: Pool, w: nat)
    requires OneWrapper(p) && ClosedOnce(p) && Known(p, w) && w !in p.retired
    requires q.wrappers == p.wrappers + [p.wrappers[w]] && q.retired == p.retired + {w} && q.ops == p.ops
    requires q.snapshot == p.snapshot && q.closing == p.closing && q.registered == p.registered && q.ended == p.ended
    ensures ClosedOnce(q)
  {
    UnretiredIsNewest(p, w);
    forall v | CloseOwned(q, v) || Reserved(q, v) ensures v in q.retired && Newest(q, v) {
      OpsSame(p, q, v);
      assert CloseOwned(p, v) || Reserved(p, v);
      assert Newest(p, v) && v in p.retired;
      NewestUnique(p, v, w);
      NewestStays(p, q, v);
    }
  }

  lemma NewestUnique(p: Pool, v: nat, w: nat)
    requires Newest(p, v) && Newest(p, w) && v != w
    ensures p.wrappers[v].native != p.wrappers[w].native
  {}

  lemma OnceClose(p: Pool, e: Event)
    requires Places(p) && OneWrapper(p) && ClosedOnce(p) && Enabled(p, e) && OfClose(e)
    ensures ClosedOnce(Next(p, e))
  {
    var q := Next(p, e);
    if e.CloseSnapshot? {
      OnceSnapshot(p);
    } else {
      forall v | CloseOwned(q, v) || Reserved(q, v) ensures v in q.retired && Newest(q, v) {
        OpsSame(p, q, v);
        assert CloseOwned(p, v) || Reserved(p, v);
        assert Newest(p, v);
      }
    }
  }

  lemma OnceSnapshot(p: Pool)
    requires Places(p) && OneWrapper(p) && ClosedOnce(p) && p.phase == Open
    ensures ClosedOnce(TakeSnapshot(p))
  {
    var q := TakeSnapshot(p);
    forall v | CloseOwned(q, v) || Reserved(q, v) ensures v in q.retired && Newest(q, v) {
      OpsSame(p, q, v);
      if v in q.snapshot {
        UnretiredIsNewest(p, v);
        assert Newest(q, v);
      } else {
        assert CloseOwned(p, v) || Reserved(p, v);
        assert Newest(p, v);
      }
    }
    forall o | o in q.ops && o.reserved ensures !CloseOwned(q, o.wrapper) {
      assert o.wrapper !in p.free && o.wrapper !in p.leased;
    }
  }

  lemma OnceStep(p: Pool, e: Event)
    requires Places(p) && OneWrapper(p) && ClosedOnce(p) && Enabled(p, e)
    ensures ClosedOnce(Next(p, e))
  {
    hide Places, OneWrapper, ClosedOnce, BeginRelease, EndRelease;
    match e
    case ReleaseBegin(w, discard) => OnceBegin(p, w, discard);
    case ReleaseEnd(o, reusable) => OnceEnd(p, o, reusable);
    case TakeFree(_) => OnceCheckout(p, e);
    case Create(_) => OnceCheckout(p, e);
    case LeaseOut(_) => OnceCheckout(p, e);
    case DropStopped(_) => OnceCheckout(p, e);
    case _ => OnceClose(p, e);
  }

  // ---------------------------------------------------------------------------------------------
  // Whole runs
  // ---------------------------------------------------------------------------------------------

  lemma InvStep(p: Pool, e: Event)
    requires Inv(p) && Enabled(p, e)
    ensures Inv(Next(p, e))
  {
    hide Places, OneWrapper, ClosedOnce, NotLost, WithinMax, Enabled, Next;
    PlacesStep(p, e);
    WithinMaxStep(p, e);
    OneWrapperStep(p, e);
    NotLostStep(p, e);
    OnceStep(p, e);
  }

  lemma {:induction false} InvRun(p: Pool, es: seq<Event>, q: Pool)
    requires Inv(p) && Reaches(p, es, q)
    ensures Inv(q)
    decreases |es|
  {
    hide Inv, Enabled, Next;
    if es != [] {
      InvStep(p, es[0]);
      InvRun(Next(p, es[0]), es[1..], q);
    }
  }

  lemma EmptyInv(max: nat)
    ensures Inv(Empty(max))
  {
    assert forall a :: FreeAt(Empty(max), a) == {};
  }

  /**
   Before the close snapshot, over every run with stale and repeated releases: each address's free
   list stays within its maximum, free and leased wrappers are disjoint and not retired, and no
   transport has two tracked wrappers.
   */
  lemma PoolIsSound(max: nat, es: seq<Event>, q: Pool, v: nat, w: nat, a: nat)
    requires Reaches(Empty(max), es, q) && q.phase == Open
    ensures |FreeAt(q, a)| <= q.max
    ensures q.free !! q.leased && (q.free + q.leased) !! q.retired
    ensures v in q.free + q.leased && w in q.free + q.leased && v != w ==>
              Known(q, v) && Known(q, w) && q.wrappers[v].native != q.wrappers[w].native
  {
    hide Reaches;
    EmptyInv(max);
    InvRun(Empty(max), es, q);
    assert Places(q) && WithinMax(q) && OneWrapper(q);
  }

  /**
   Releasing a retired wrapper, in whatever way and with whatever between the two sections: each section
   changes nothing but the list of releases in progress.
   */
  lemma StaleReleaseChangesNothing(p: Pool, w: nat, discard: bool, reusable: bool)
    requires Inv(p) && w in p.retired
    ensures !p.closed ==> BeginRelease(p, w, discard) == p.(ops := p.ops + multiset{Op(w, discard, false)})
    ensures p.closed && w !in p.leased ==> BeginRelease(p, w, discard) == p
    ensures var o := Op(w, discard, false); EndRelease(p, o, reusable) == p.(ops := p.ops - multiset{o})
  {
    hide FreeAt, WithinMax, OneWrapper, NotLost, ClosedOnce;
    assert w in p.leased ==> p.closed;
    assert w !in p.leased ==> p.leased - {w} == p.leased;
  }

  lemma RetiredStays(p: Pool, e: Event)
    requires Enabled(p, e)
    ensures p.retired <= Next(p, e).retired
  {
    hide FreeAt;
  }

  lemma {:induction false} RetiredForGood(p: Pool, es: seq<Event>, q: Pool)
    requires Reaches(p, es, q)
    ensures p.retired <= q.retired
    decreases |es|
  {
    hide Next, Enabled;
    if es != [] {
      RetiredStays(p, es[0]);
      RetiredForGood(Next(p, es[0]), es[1..], q);
    }
  }

  /**
   Once a release has ended, the wrapper is retired for good: at any later moment of any run, releasing
   it again changes nothing but the list of releases in progress.
   */
  lemma SecondReleaseChangesNothing(p: Pool, o: Op, reusable: bool, es: seq<Event>, q: Pool, discard: bool,
                                    reusableAgain: bool)
    requires Inv(p) && o in p.ops && Reaches(EndRelease(p, o, reusable), es, q)
    ensures o.wrapper in q.retired && o.wrapper !in q.free
    ensures !q.closed ==>
              BeginRelease(q, o.wrapper, discard) == q.(ops := q.ops + multiset{Op(o.wrapper, discard, false)})
    ensures var again := Op(o.wrapper, discard, false);
            EndRelease(q, again, reusableAgain) == q.(ops := q.ops - multiset{again})
  {
    hide FreeAt, Inv, BeginRelease, Reaches;
    InvStep(p, ReleaseEnd(o, reusable));
    InvRun(EndRelease(p, o, reusable), es, q);
    RetiredForGood(EndRelease(p, o, reusable), es, q);
    assert o.wrapper in EndRelease(p, o, reusable).retired;
    StaleReleaseChangesNothing(q, o.wrapper, discard, reusableAgain);
    InvPlaces(q);
  }

  lemma InvPlaces(q: Pool)
    requires Inv(q)
    ensures q.free !! q.retired
  {
    assert Places(q);
  }

  /** Nothing is between two of its sections. */
  predicate Settled(p: Pool) { p.inHand == {} && p.ops == multiset{} && p.closing == {} }

  /**
   No transport is lost to a close that races with checkouts and releases: when close is complete
   and nothing is in progress, every transport ever created was in the close snapshot or had a close
   of its own, and exactly one of the two. Completion is published with an empty pool, an empty lease
   table and no registered close pending: unless something is in progress, each transport's close was
   the cleanup's or has ended by then.
   */
  lemma CloseLosesNothing(max: nat, es: seq<Event>, q: Pool, n: nat)
    requires Reaches(Empty(max), es, q) && n < q.natives
    ensures q.phase in {Cleaned, Complete} ==> q.free == {} && q.leased == {}
    ensures q.phase == Complete && Settled(q) ==> exists w: nat :: ClosesNative(q, n, w)
    ensures Enabled(q, PublishClose) && Settled(q) ==>
              exists w: nat :: ClosesNative(q, n, w) && (w in q.snapshot || w in q.ended)
    ensures forall v: nat, w: nat :: v != w ==> !(ClosesNative(q, n, v) && ClosesNative(q, n, w))
  {
    hide Reaches, Inv, ClosesNative, Newest;
    EmptyInv(max);
    InvRun(Empty(max), es, q);
    EveryNativeWrapped(max, es, q, n);
    var w := NewestOf(q, n, |q.wrappers|);
    CompleteFacts(q);
    if q.phase in {Cleaned, Complete} && Settled(q) { SettledIsClosed(q, n, w); }
    forall v: nat, w: nat | v != w ensures !(ClosesNative(q, n, v) && ClosesNative(q, n, w)) {
      ClosedOnceEach(q, n, v, w);
    }
  }

  /** Wrapper `w` is the one whose close, the cleanup's or its own but not both, closes transport `n`. */
  predicate ClosesNative(p: Pool, n: nat, w: nat) {
    && Known(p, w) && p.wrappers[w].native == n && w in p.retired
    && CloseOwned(p, w) && (w in p.snapshot ==> w !in p.closing && w !in p.registered && w !in p.ended)
  }

  lemma CompleteFacts(q: Pool)
    requires Inv(q)
    ensures q.phase in {Cleaned, Complete} ==> q.free == {} && q.leased == {}
  {
    assert Places(q);
  }

  lemma SettledIsClosed(q: Pool, n: nat, w: nat)
    requires Inv(q) && q.phase in {Cleaned, Complete} && Settled(q) && Newest(q, w) && q.wrappers[w].native == n
    ensures ClosesNative(q, n, w) && (w in q.snapshot || w in q.registered || w in q.ended)
  {
    assert Kept(q, w);
    assert Places(q) && ClosedOnce(q);
  }

  lemma ClosedOnceEach(q: Pool, n: nat, v: nat, w: nat)
    requires Inv(q) && v != w
    ensures !(ClosesNative(q, n, v) && ClosesNative(q, n, w))
  {
    assert ClosedOnce(q);
    if Newest(q, v) && Newest(q, w) { NewestUnique(q, v, w); }
  }

  lemma {:induction false} EveryNativeWrapped(max: nat, es: seq<Event>, q: Pool, n: nat)
    requires Reaches(Empty(max), es, q) && n < q.natives
    ensures exists w: nat :: w < |q.wrappers| && q.wrappers[w].native == n
  {
    WrappedRun(Empty(max), es, q);
    assert Wrapped(q, n);
  }

  ghost predicate Wrapped(p: Pool, n: nat) { exists w: nat :: w < |p.wrappers| && p.wrappers[w].native == n }

  lemma {:induction false} WrappedRun(p: Pool, es: seq<Event>, q: Pool)
    requires Reaches(p, es, q) && forall n: nat :: n < p.natives ==> Wrapped(p, n)
    ensures forall n: nat :: n < q.natives ==> Wrapped(q, n)
    decreases |es|
  {
    if es != [] {
      WrappedStep(p, es[0]);
      WrappedRun(Next(p, es[0]), es[1..], q);
    }
  }

  lemma WrappedStep(p: Pool, e: Event)
    requires Enabled(p, e) && forall n: nat :: n < p.natives ==> Wrapped(p, n)
    ensures forall n: nat :: n < Next(p, e).natives ==> Wrapped(Next(p, e), n)
  {
    hide FreeAt;
    var q := Next(p, e);
    forall n: nat | n < q.natives ensures Wrapped(q, n) {
      if n < p.natives {
        assert Wrapped(p, n);
        var w: nat :| w < |p.wrappers| && p.wrappers[w].native == n;
        assert q.wrappers[w].native == n;
      } else {
        assert q.wrappers[|p.wrappers|].native == n;
      }
    }
  }

  lemma {:induction false} NewestOf(p: Pool, n: nat, k: nat) returns (w: nat)
    requires k <= |p.wrappers| && exists v: nat :: v < k && p.wrappers[v].native == n
    requires forall v :: k <= v < |p.wrappers| ==> p.wrappers[v].native != n
    ensures Newest(p, w) && p.wrappers[w].native == n
    decreases k
  {
    if p.wrappers[k - 1].native == n { w := k - 1; } else { w := NewestOf(p, n, k - 1); }
  }
}
