/**
 The pool object: free wrappers in one list per address, the lease table and the wrappers' own
 retirement flags, updated in place. Every method is one section and does one step of `ChannelPool`.
 */
module TransportPool {
  import opened ChannelPool

  predicate NoRepeats(s: seq<nat>) { forall i, j :: 0 <= i < j < |s| ==> s[i] != s[j] }

  ghost function ListSet(s: seq<nat>): set<nat> { set w | w in s }

  lemma {:induction false} ListSize(s: seq<nat>)
    requires NoRepeats(s)
    ensures |ListSet(s)| == |s|
  {
    if s != [] {
      var l := |s| - 1;
      ListSize(s[..l]);
      assert ListSet(s) == ListSet(s[..l]) + {s[l]};
    }
  }

  /** The lists hold exactly the free wrappers, each once and under its own address. */
  ghost predicate Lists(free: map<nat, seq<nat>>, p: Pool) {
    && (forall a :: a in free ==> NoRepeats(free[a]) && ListSet(free[a]) == FreeAt(p, a))
    && (forall a :: a !in free ==> FreeAt(p, a) == {})
  }

  class ChannelTable {
    const maxFree: nat
    var free: map<nat, seq<nat>>
    var wrappers: seq<Wrapper>
    var natives: nat
    var leased: set<nat>
    var retired: set<nat>
    var closed: bool
    var phase: Phase
    ghost var pool: Pool

    ghost predicate Valid()
      reads this
    {
      && Inv(pool) && Lists(free, pool)
      && pool.max == maxFree && pool.wrappers == wrappers && pool.leased == leased && pool.retired == retired
      && pool.closed == closed && pool.phase == phase && pool.natives == natives
    }

    constructor (maxFree: nat)
      ensures Valid() && pool == Empty(maxFree)
    {
      this.maxFree := maxFree;
      free, wrappers, natives, leased, retired, closed, phase := map[], [], 0, {}, {}, false, Open;
      pool := Empty(maxFree);
      new;
      EmptyInv(maxFree);
      assert forall a :: FreeAt(pool, a) == {};
    }

    /** Takes the last free wrapper of an address that belongs to the SDK loop out of its list. */
    method PopFree(address: nat, ofLoop: set<nat>) returns (r: seq<nat>)
      requires Valid() && !closed
      modifies this
      ensures Valid() && |r| <= 1
      ensures r == [] ==> pool == old(pool) && FreeAt(pool, address) !! ofLoop
      ensures r != [] ==> r[0] in ofLoop && r[0] in FreeAt(old(pool), address) && Enabled(old(pool), TakeFree(r[0]))
                          && pool == Next(old(pool), TakeFree(r[0]))
    {
      hide Inv;
      var chans := if address in free then free[address] else [];
      ghost var p := pool;
      assert ListSet(chans) == FreeAt(p, address) by { if address !in free { assert ListSet([]) == {}; } }
      var i := |chans|;
      while i > 0
        invariant 0 <= i <= |chans| && free == old(free) && pool == p && Valid()
        invariant forall j :: i <= j < |chans| ==> chans[j] !in ofLoop
      {
        i := i - 1;
        if chans[i] in ofLoop {
          var w := chans[i];
          assert w in ListSet(chans) && w in FreeAt(p, address);
          InvStep(p, TakeFree(w));
          pool := Next(p, TakeFree(w));
          free := free[address := chans[..i] + chans[i + 1..]];
          Removed(p, pool, old(free), free, address, w, i);
          return [w];
        }
      }
      assert forall w :: w in FreeAt(p, address) ==> w in ListSet(chans);
      return [];
    }

    /** Tracks a checked-out wrapper, or retires it if close was requested first. */
    method LeaseOut(w: nat) returns (ok: bool)
      requires Valid() && w in pool.inHand
      modifies this
      ensures Valid() && pool == Next(old(pool), ChannelPool.Event.LeaseOut(w)) && (ok <==> !closed)
    {
      hide Inv;
      InvFacts(pool);
      InvStep(pool, ChannelPool.Event.LeaseOut(w));
      ghost var p := pool;
      pool := Next(p, ChannelPool.Event.LeaseOut(w));
      SameFree(p, pool, free);
      if !closed {
        leased := leased + {w};
        return true;
      }
      retired := retired + {w};
      return false;
    }

    /** A stopped transport taken from the pool goes to its own close. */
    method DropStopped(w: nat)
      requires Valid() && w in pool.inHand
      modifies this
      ensures Valid() && pool == Next(old(pool), ChannelPool.Event.DropStopped(w))
      ensures closed == old(closed) && phase == old(phase) && leased == old(leased)
    {
      hide Inv;
      InvFacts(pool);
      InvStep(pool, ChannelPool.Event.DropStopped(w));
      ghost var p := pool;
      pool := Next(p, ChannelPool.Event.DropStopped(w));
      SameFree(p, pool, free);
      retired := retired + {w};
    }

    method CreateChannel(address: nat) returns (w: nat)
      requires Valid()
      modifies this
      ensures Valid() && pool == Next(old(pool), Create(address)) && w == |old(wrappers)| && w in pool.inHand
      ensures closed == old(closed) && phase == old(phase) && leased == old(leased)
    {
      hide Inv;
      InvFacts(pool);
      InvStep(pool, Create(address));
      ghost var p := pool;
      pool := Next(p, Create(address));
      MoreWrappers(p, pool, free);
      w := |wrappers|;
      wrappers := wrappers + [Wrapper(natives, address)];
      natives := natives + 1;
    }

    /**
     Checkout: reuses a free transport of the SDK loop that has not stopped, closing the stopped ones
     on the way, and otherwise creates one; after close was requested it is refused. The events are the
     sections it went through.
     */
    method CheckOut(address: nat, ofLoop: set<nat>, stopped: set<nat>)
      returns (ok: bool, w: nat, ghost es: seq<Event>)
      requires Valid()
      modifies this
      ensures Valid() && Reaches(old(pool), es, pool)
      ensures ok <==> !old(closed)
      ensures !ok ==> pool == old(pool)
      ensures ok ==> w in leased && leased == old(leased) + {w} && w !in retired
      ensures ok ==> Known(pool, w) && wrappers[w].address == address
      ensures ok && Known(old(pool), w) ==> w in FreeAt(old(pool), address) && w in ofLoop && w !in stopped
      ensures ok && !Known(old(pool), w) ==> forall v :: v in FreeAt(old(pool), address) && v in ofLoop ==> v in stopped
    {
      hide Inv, Next, Enabled, FreeAt;
      ghost var p0 := pool;
      es, w, ok := [], 0, !closed;
      if closed { return; }
      while true
        invariant Valid() && !closed && leased == old(leased) && Reaches(p0, es, pool)
        invariant p0.wrappers == pool.wrappers && FreeAt(pool, address) <= FreeAt(p0, address)
        invariant forall v :: v in FreeAt(p0, address) && v !in FreeAt(pool, address) ==> v in stopped
        decreases |FreeAt(pool, address)|
      {
        ghost var p := pool;
        var r := PopFree(address, ofLoop);
        if r == [] { break; }
        w := r[0];
        TakeFacts(p, pool, address, w);
        es := Append(p0, es, p, TakeFree(w));
        ghost var p1 := pool;
        if w !in stopped {
          var tracked := LeaseOut(w);
          LeaseFacts(p1, w);
          es := Append(p0, es, p1, ChannelPool.Event.LeaseOut(w));
          return;
        }
        DropStopped(w);
        DropFacts(p1, w, address);
        es := Append(p0, es, p1, ChannelPool.Event.DropStopped(w));
      }
      ghost var p := pool;
      w := CreateChannel(address);
      CreateFacts(p, address);
      es := Append(p0, es, p, Create(address));
      ghost var p1 := pool;
      var tracked := LeaseOut(w);
      LeaseFacts(p1, w);
      es := Append(p0, es, p1, ChannelPool.Event.LeaseOut(w));
    }

    /** First section of a release; true when the release goes on to its second section. */
    method BeginRelease(w: nat, discard: bool) returns (goesOn: bool, reserved: bool)
      requires Valid() && Known(pool, w) && w !in pool.inHand && w !in pool.free
      modifies this
      ensures Valid() && pool == ChannelPool.BeginRelease(old(pool), w, discard)
      ensures goesOn <==> !closed
      ensures reserved <==> goesOn && discard && w !in old(retired)
    {
      hide Inv;
      InvStep(pool, ReleaseBegin(w, discard));
      ghost var p := pool;
      pool := ChannelPool.BeginRelease(p, w, discard);
      SameFree(p, pool, free);
      if closed {
        var held := w in leased;
        if phase != Open { leased := leased - {w}; }
        if !held && w !in retired { retired := retired + {w}; }
        return false, false;
      }
      leased := leased - {w};
      reserved := discard && w !in retired;
      if reserved { retired := retired + {w}; }
      return true, reserved;
    }

    /** Second section: back into the pool in a fresh wrapper, or to its own close. */
    method EndRelease(w: nat, discard: bool, reserved: bool, reusable: bool) returns (pooled: bool)
      requires Valid() && Op(w, discard, reserved) in pool.ops
      modifies this
      ensures Valid() && pool == ChannelPool.EndRelease(old(pool), Op(w, discard, reserved), reusable)
      ensures pooled <==>
                && !closed && reusable && !discard && w !in old(retired)
                && |FreeAt(old(pool), old(wrappers)[w].address)| < maxFree
      ensures Known(old(pool), w) && old(wrappers) <= wrappers
    {
      hide Inv;
      InvFacts(pool);
      InvStep(pool, ReleaseEnd(Op(w, discard, reserved), reusable));
      ghost var p := pool;
      pool := ChannelPool.EndRelease(p, Op(w, discard, reserved), reusable);
      var address := wrappers[w].address;
      var chans := if address in free then free[address] else [];
      ListSize(chans);
      assert ListSet(chans) == FreeAt(p, address) by { if address !in free { assert ListSet([]) == {}; } }
      if !closed && reusable && !discard && w !in retired && |chans| < maxFree {
        retired := retired + {w};
        Added(p, pool, free, address);
        free := free[address := chans + [|wrappers|]];
        wrappers := wrappers + [wrappers[w]];
        return true;
      }
      SameFree(p, pool, free);
      if reserved || w !in retired { retired := retired + {w}; }
      return false;
    }

    /** Publishes that close was requested; from here on nothing is leased or pooled any more. */
    method RequestClose()
      requires Valid()
      modifies this
      ensures Valid() && pool == Next(old(pool), ChannelPool.Event.RequestClose)
    {
      hide Inv;
      InvStep(pool, ChannelPool.Event.RequestClose);
      SameFree(pool, pool.(closed := true), free);
      pool := Next(pool, ChannelPool.Event.RequestClose);
      closed := true;
    }

    /** Takes everything free or leased over for the cleanup, retired under the same lock. */
    method TakeSnapshot() returns (channels: set<nat>)
      requires Valid() && phase == Open
      modifies this
      ensures Valid() && pool == Next(old(pool), CloseSnapshot) && channels == pool.snapshot
    {
      hide Inv;
      ghost var p := pool;
      channels := {};
      var left := free.Keys;
      while left != {}
        invariant left <= free.Keys && free == old(free) && pool == p && Valid() && phase == Open
        invariant forall w :: w in channels <==> exists a :: a in free.Keys - left && w in free[a]
        decreases |left|
      {
        var a :| a in left;
        channels := channels + set w | w in free[a];
        left := left - {a};
      }
      InvFacts(p);
      AllListed(p, free, channels);
      channels := channels + leased;
      InvStep(p, CloseSnapshot);
      pool := Next(p, CloseSnapshot);
      closed, phase, retired, free := true, Snapshotted, retired + channels, map[];
      assert forall a :: FreeAt(pool, a) == {};
    }

    /** After the closes of the snapshot: its leases are forgotten. */
    method CleanUp(channels: set<nat>)
      requires Valid() && phase == Snapshotted && channels == pool.snapshot
      modifies this
      ensures Valid() && pool == Next(old(pool), CloseCleanup) && leased == {} && pool.free == {}
    {
      hide Inv;
      InvStep(pool, CloseCleanup);
      CleanFacts(pool);
      SameFree(pool, Next(pool, CloseCleanup), free);
      pool := Next(pool, CloseCleanup);
      var left := channels;
      while left != {}
        invariant leased <= left <= channels
        invariant pool == Next(old(pool), CloseCleanup) && free == old(free) && wrappers == old(wrappers)
        invariant natives == old(natives) && retired == old(retired) && closed == old(closed) && phase == old(phase)
        decreases |left|
      {
        var w :| w in left;
        if w in leased { leased := leased - {w}; }
        left := left - {w};
      }
      phase := Cleaned;
    }
  }

  lemma AllListed(p: Pool, free: map<nat, seq<nat>>, channels: set<nat>)
    requires Lists(free, p) && forall w :: w in p.free ==> Known(p, w)
    requires forall w :: w in channels <==> exists a :: a in free && w in free[a]
    ensures channels == p.free
  {
    forall w ensures w in channels <==> w in p.free {
      if w in p.free {
        var a := p.wrappers[w].address;
        assert w in FreeAt(p, a);
        assert a in free && w in ListSet(free[a]);
      }
      if w in channels {
        var a :| a in free && w in free[a];
        assert w in ListSet(free[a]);
      }
    }
  }

  lemma CleanFacts(p: Pool)
    requires Inv(p) && p.phase == Snapshotted
    ensures p.leased <= p.snapshot && p.free == {}
  {
    assert Places(p);
  }

  lemma {:induction false} ReachesMore(p: Pool, es: seq<Event>, q: Pool, e: Event)
    requires Reaches(p, es, q) && Enabled(q, e)
    ensures Reaches(p, es + [e], Next(q, e))
    decreases |es|
  {
    hide Enabled, Next;
    if es == [] {
      assert [] + [e] == [e] && [e][1..] == [];
    } else {
      ReachesMore(Next(p, es[0]), es[1..], q, e);
      assert (es + [e])[1..] == es[1..] + [e];
    }
  }

  ghost function Append(p: Pool, es: seq<Event>, q: Pool, e: Event): (r: seq<Event>)
    requires Reaches(p, es, q) && Enabled(q, e)
    ensures Reaches(p, r, Next(q, e))
  {
    ReachesMore(p, es, q, e);
    es + [e]
  }

  lemma TakeFacts(p: Pool, q: Pool, a: nat, w: nat)
    requires Enabled(p, TakeFree(w)) && q == Next(p, TakeFree(w)) && w in FreeAt(p, a)
    ensures FreeAt(q, a) == FreeAt(p, a) - {w} && |FreeAt(q, a)| < |FreeAt(p, a)|
    ensures q.wrappers == p.wrappers && w in q.inHand && q.leased == p.leased
    ensures Known(p, w) && p.wrappers[w].address == a
    ensures q.closed == p.closed
    ensures Enabled(q, ChannelPool.Event.LeaseOut(w)) && Enabled(q, ChannelPool.Event.DropStopped(w))
  {}

  lemma LeaseFacts(p: Pool, w: nat)
    requires Inv(p) && w in p.inHand && !p.closed
    ensures Enabled(p, ChannelPool.Event.LeaseOut(w))
    ensures var q := Next(p, ChannelPool.Event.LeaseOut(w));
            && q.leased == p.leased + {w} && q.wrappers == p.wrappers
            && q.retired == p.retired && w !in q.retired && Known(q, w)
  {
    assert Places(p);
  }

  lemma DropFacts(p: Pool, w: nat, a: nat)
    requires Inv(p) && w in p.inHand
    ensures Enabled(p, ChannelPool.Event.DropStopped(w))
    ensures var q := Next(p, ChannelPool.Event.DropStopped(w));
            q.wrappers == p.wrappers && FreeAt(q, a) == FreeAt(p, a) && q.closed == p.closed
  {
    assert Places(p);
  }

  lemma CreateFacts(p: Pool, a: nat)
    ensures Enabled(p, Create(a))
    ensures var q := Next(p, Create(a));
            |q.wrappers| == |p.wrappers| + 1 && q.wrappers[|p.wrappers|].address == a && q.closed == p.closed
  {}

  lemma InvFacts(p: Pool)
    requires Inv(p)
    ensures forall w :: w in p.inHand ==> Known(p, w) && w !in p.free && w !in p.retired
    ensures forall o :: o in p.ops ==> Known(p, o.wrapper) && o.wrapper !in p.free
    ensures forall w :: w in p.free ==> Known(p, w) && w !in p.retired
    ensures p.phase == Open ==> p.leased !! p.retired
  {
    assert Places(p);
  }

  /** Sections that leave the free wrappers alone leave the lists right. */
  lemma SameFree(p: Pool, q: Pool, free: map<nat, seq<nat>>)
    requires Lists(free, p) && q.free == p.free && q.wrappers == p.wrappers
    ensures Lists(free, q)
  {
    assert forall a :: FreeAt(q, a) == FreeAt(p, a);
  }

  lemma MoreWrappers(p: Pool, q: Pool, free: map<nat, seq<nat>>)
    requires Lists(free, p) && q.free == p.free && p.wrappers <= q.wrappers && forall w :: w in p.free ==> Known(p, w)
    ensures Lists(free, q)
  {
    assert forall a :: FreeAt(q, a) == FreeAt(p, a);
  }

  lemma Removed(p: Pool, q: Pool, free: map<nat, seq<nat>>, rest: map<nat, seq<nat>>, a: nat, w: nat, i: nat)
    requires Lists(free, p) && a in free && i < |free[a]| && free[a][i] == w
    requires q.free == p.free - {w} && q.wrappers == p.wrappers
    requires rest == free[a := free[a][..i] + free[a][i + 1..]]
    ensures Lists(rest, q)
  {
    var s, t := free[a], rest[a];
    assert w in FreeAt(p, a) by { assert w in ListSet(s); }
    assert FreeAt(q, a) == FreeAt(p, a) - {w};
    assert ListSet(t) == ListSet(s) - {w} by {
      forall v ensures v in t <==> v in s && v != w {
        if v in s && v != w {
          var k :| 0 <= k < |s| && s[k] == v;
          assert v == if k < i then t[k] else t[k - 1];
        }
      }
    }
    forall b | b != a ensures FreeAt(q, b) == FreeAt(p, b) {}
  }

  lemma Added(p: Pool, q: Pool, free: map<nat, seq<nat>>, a: nat)
    requires Lists(free, p) && (forall v :: v in p.free ==> Known(p, v))
    requires q.free == p.free + {|p.wrappers|} && |q.wrappers| == |p.wrappers| + 1 && p.wrappers <= q.wrappers
    requires q.wrappers[|p.wrappers|].address == a
    ensures Lists(free[a := (if a in free then free[a] else []) + [|p.wrappers|]], q)
  {
    var s := if a in free then free[a] else [];
    assert ListSet(s) == FreeAt(p, a);
    assert FreeAt(q, a) == FreeAt(p, a) + {|p.wrappers|};
    assert ListSet(s + [|p.wrappers|]) == ListSet(s) + {|p.wrappers|};
    assert |p.wrappers| !in ListSet(s);
    forall b | b != a ensures FreeAt(q, b) == FreeAt(p, b) {}
  }
}
