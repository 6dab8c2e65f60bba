/**
 Exception handlers on a borrowed event loop. Every SDK assignment is staged: it forwards to its own
 handler until it is rolled back, and from then on to the nearest predecessor that is not.
 */
module HandlerChain {

  /**
   One assignment of the loop's handler; assignments are numbered in the order they were made and
   number 0 is what the loop had at first, possibly its default. A staged assignment that was not
   committed remembers its predecessor.
   */
  datatype Entry = Foreign | Pending(prev: nat) | Committed | RolledBack(prev: nat)

  type Chain = seq<Entry>

  /** Predecessors are older. */
  predicate Older(c: Chain) {
    && c != [] && !c[0].RolledBack? && !c[0].Pending?
    && forall i :: 0 <= i < |c| && (c[i].Pending? || c[i].RolledBack?) ==> c[i].prev < i
  }

  /** Where a diagnostic handed to assignment `i` ends up. */
  function Reached(c: Chain, i: nat): (r: nat)
    requires Older(c) && i < |c|
    ensures r <= i && !c[r].RolledBack?
    decreases i
  {
    if c[i].RolledBack? then Reached(c, c[i].prev) else i
  }

  /** The most recent assignment that was not rolled back. */
  function Latest(c: Chain): (r: nat)
    requires c != [] && !c[0].RolledBack?
    ensures r < |c| && !c[r].RolledBack? && forall i :: r < i < |c| ==> c[i].RolledBack?
  {
    if c[|c| - 1].RolledBack? then Latest(c[..|c| - 1]) else |c| - 1
  }

  /** Everything assigned between `i` and `j` was rolled back. */
  predicate Gap(c: Chain, i: nat, j: nat) { forall k :: i < k < j && k < |c| ==> c[k].RolledBack? }

  /** Between an assignment and its predecessor, and behind the installed one, all is rolled back. */
  predicate Linked(c: Chain, current: nat) {
    && Older(c) && current < |c| && Gap(c, current, |c|)
    && forall i :: 0 <= i < |c| && (c[i].Pending? || c[i].RolledBack?) ==> Gap(c, c[i].prev, i)
  }

  lemma {:induction false} ReachedAcrossGap(c: Chain, i: nat, j: nat)
    requires Older(c) && i < |c| && i < j <= |c| && Gap(c, i, j)
    requires forall k :: 0 <= k < |c| && (c[k].Pending? || c[k].RolledBack?) ==> Gap(c, c[k].prev, k)
    ensures Gap(c, Reached(c, i), j)
    decreases i
  {
    if c[i].RolledBack? { ReachedAcrossGap(c, c[i].prev, j); }
  }

  /** A diagnostic always reaches the most recent assignment that was not rolled back. */
  lemma {:induction false} DiagnosticReachesLatest(c: Chain, current: nat)
    requires Linked(c, current)
    ensures Reached(c, current) == Latest(c)
  {
    ReachedAcrossGap(c, current, |c|);
  }

  // ---------------------------------------------------------------------------------------------
  // The loop's handler
  // ---------------------------------------------------------------------------------------------

  class BorrowedLoop {
    var chain: Chain
    var current: nat

    ghost predicate Valid()
      reads this
    {
      Linked(chain, current)
    }

    constructor ()
      ensures Valid() && chain == [Foreign] && current == 0
    {
      chain := [Foreign];
      current := 0;
    }

    /** The nearest predecessor of assignment `i` that is not rolled back. */
    method RestorablePredecessor(i: nat) returns (r: nat)
      requires Older(chain) && i < |chain| && chain[i].RolledBack?
      ensures r == Reached(chain, i) && r < i
    {
      r := chain[i].prev;
      while chain[r].RolledBack?
        invariant r < i && Reached(chain, r) == Reached(chain, i)
        decreases r
      {
        r := chain[r].prev;
      }
    }

    /** Whom a diagnostic reaches: the installed handler, through rolled-back assignments if need be. */
    method Deliver() returns (target: nat)
      requires Valid()
      ensures target == Latest(chain)
    {
      DiagnosticReachesLatest(chain, current);
      if !chain[current].RolledBack? { return current; }
      target := RestorablePredecessor(current);
    }

    /** Somebody else assigns a handler of their own, or the default. */
    method ForeignAssign()
      requires Valid()
      modifies this
      ensures Valid() && chain == old(chain) + [Foreign] && current == |old(chain)| == Latest(chain)
    {
      chain := chain + [Foreign];
      current := |chain| - 1;
    }

    /** Stages a new assignment over the installed one; a failing loop leaves it rolled back. */
    method Install(accepted: bool) returns (i: nat)
      requires Valid()
      modifies this
      ensures Valid() && i == |old(chain)|
      ensures accepted ==> chain == old(chain) + [Pending(old(current))] && current == i == Latest(chain)
      ensures !accepted ==>
                && chain == old(chain) + [RolledBack(old(current))] && current == old(current)
                && Latest(chain) == Latest(old(chain))
    {
      i := |chain|;
      if accepted {
        chain := chain + [Pending(current)];
        current := i;
      } else {
        chain := chain + [RolledBack(current)];
        assert chain[..i] == old(chain);
      }
    }

    /** Gives up the way back; diagnostics go where they went. */
    method Commit(i: nat)
      requires Valid() && i < |chain| && chain[i].Pending?
      modifies this
      ensures Valid() && chain == old(chain)[i := Committed] && current == old(current)
      ensures Latest(chain) == Latest(old(chain))
    {
      chain := chain[i := Committed];
      SameLatest(old(chain), chain);
    }

    /** From here on diagnostics pass assignment `i` by, although it may still be installed. */
    method Rollback(i: nat)
      requires Valid() && i < |chain| && chain[i].Pending?
      modifies this
      ensures Valid() && chain == old(chain)[i := RolledBack(old(chain)[i].prev)] && current == old(current)
      ensures Latest(chain) != i && (Latest(old(chain)) != i ==> Latest(chain) == Latest(old(chain)))
    {
      chain := chain[i := RolledBack(chain[i].prev)];
      LatestIs(chain, Latest(chain));
      if Latest(old(chain)) != i { LatestIs(chain, Latest(old(chain))); }
    }

    /** Takes a rolled-back assignment out, if it is still the installed one. */
    method Restore(i: nat)
      requires Valid() && i < |chain| && chain[i].RolledBack?
      modifies this
      ensures Valid() && chain == old(chain) && (old(current) != i ==> current == old(current))
      ensures current != i
    {
      if current == i {
        ReachedAcrossGap(chain, i, |chain|);
        current := RestorablePredecessor(i);
      }
    }
  }

  lemma LatestIs(c: Chain, r: nat)
    requires c != [] && !c[0].RolledBack? && r < |c| && !c[r].RolledBack? && Gap(c, r, |c|)
    ensures Latest(c) == r
  {}

  lemma SameLatest(c: Chain, d: Chain)
    requires c != [] && |c| == |d| && !c[0].RolledBack? && forall i :: 0 <= i < |c| ==>
              c[i].RolledBack? == d[i].RolledBack?
    ensures Latest(c) == Latest(d)
  {
    LatestIs(d, Latest(c));
  }
}
