/**
 The sparse vector of the search index: a flat list of index, value, index, value, ... with the
 indices increasing, and a cached magnitude. It stands for a finite map from indices to values.
 */
module SparseVector {

  type Flat = seq<real>

  /** Pairs, with strictly increasing indices. */
  ghost predicate Sorted(e: Flat) {
    |e| % 2 == 0 && forall i, j :: 0 <= i < j && 2 * j < |e| ==> e[2 * i] < e[2 * j]
  }

  ghost predicate Has(e: Flat, k: real) { exists i :: 0 <= i && 2 * i + 1 < |e| && e[2 * i] == k }

  /** The value at index `k`, 0 where there is none. */
  function Get(e: Flat, k: real): real
    decreases |e|
  {
    if |e| < 2 then 0.0 else if e[0] == k then e[1] else Get(e[2..], k)
  }

  function SumOfSquares(e: Flat): real
    decreases |e|
  {
    if |e| < 2 then 0.0 else e[1] * e[1] + SumOfSquares(e[2..])
  }

  /** The dot product: each value of `a` times the value of `b` at the same index. */
  function Dot(a: Flat, b: Flat): real
    decreases |a|
  {
    if |a| < 2 then 0.0 else Times(a[1], Get(b, a[0])) + Dot(a[2..], b)
  }

  function Times(x: real, y: real): real { x * y }

  // ---------------------------------------------------------------------------------------------
  // Facts about sorted flat lists
  // ---------------------------------------------------------------------------------------------

  lemma SortedTail(e: Flat)
    requires Sorted(e) && e != []
    ensures |e| >= 2 && Sorted(e[2..])
    ensures forall i :: 0 <= i && 2 * i < |e| - 2 ==> e[0] < e[2..][2 * i]
  {
    var t := e[2..];
    forall i, j | 0 <= i < j && 2 * j < |t| ensures t[2 * i] < t[2 * j] {
      assert t[2 * i] == e[2 * (i + 1)] && t[2 * j] == e[2 * (j + 1)];
    }
    forall i | 0 <= i && 2 * i < |e| - 2 ensures e[0] < t[2 * i] {
      assert t[2 * i] == e[2 * (i + 1)] && e[2 * 0] == e[0];
    }
  }

  lemma {:induction false} GetAt(e: Flat, i: nat)
    requires Sorted(e) && 2 * i < |e|
    ensures Get(e, e[2 * i]) == e[2 * i + 1]
    decreases i
  {
    SortedTail(e);
    if i > 0 {
      assert e[2..][2 * (i - 1)] == e[2 * i] && e[2..][2 * (i - 1) + 1] == e[2 * i + 1];
      assert e[2 * 0] < e[2 * i];
      GetAt(e[2..], i - 1);
    }
  }

  lemma TailHas(e: Flat, k: real)
    requires |e| >= 2 && Has(e[2..], k)
    ensures Has(e, k)
  {
    var i :| 0 <= i && 2 * i + 1 < |e[2..]| && e[2..][2 * i] == k;
    assert e[2 * (i + 1)] == k;
  }

  lemma {:induction false} GetMissing(e: Flat, k: real)
    requires !Has(e, k)
    ensures Get(e, k) == 0.0
    decreases |e|
  {
    if |e| >= 2 {
      assert e[2 * 0] == e[0];
      if Has(e[2..], k) { TailHas(e, k); }
      GetMissing(e[2..], k);
    }
  }

  /** All indices of `e` are above `k`. */
  ghost predicate Above(e: Flat, k: real) { forall i :: 0 <= i && 2 * i < |e| ==> k < e[2 * i] }

  lemma AboveMissing(e: Flat, k: real)
    requires Above(e, k)
    ensures !Has(e, k)
  {}

  /** An index below all of `a` does not matter to the product. */
  lemma {:induction false} DotSkips(a: Flat, b: Flat)
    requires Sorted(a) && Sorted(b) && b != [] && Above(a, b[0])
    ensures Dot(a, b) == Dot(a, b[2..])
    decreases |a|
  {
    if a != [] {
      SortedTail(a);
      SortedTail(b);
      assert a[2 * 0] == a[0];
      forall i | 0 <= i && 2 * i < |a[2..]| ensures b[0] < a[2..][2 * i] { assert a[2..][2 * i] == a[2 * (i + 1)]; }
      DotSkips(a[2..], b);
    }
  }

  lemma HeadBelow(a: Flat, b: Flat)
    requires Sorted(a) && Sorted(b) && a != [] && b != [] && a[0] < b[0]
    ensures Above(b, a[0])
  {
    forall i | 0 <= i && 2 * i < |b| ensures a[0] < b[2 * i] { assert i > 0 ==> b[2 * 0] < b[2 * i]; }
  }

  lemma MergeLeft(a: Flat, b: Flat)
    requires Sorted(a) && Sorted(b) && a != [] && b != [] && a[0] < b[0]
    ensures Dot(a, b) == Dot(a[2..], b)
  {
    hide Sorted, Get;
    SortedTail(a);
    HeadBelow(a, b);
    AboveMissing(b, a[0]);
    GetMissing(b, a[0]);
    assert Times(a[1], Get(b, a[0])) == 0.0;
  }

  lemma MergeRight(a: Flat, b: Flat)
    requires Sorted(a) && Sorted(b) && a != [] && b != [] && b[0] < a[0]
    ensures Dot(a, b) == Dot(a, b[2..])
  {
    hide Sorted, Dot;
    HeadBelow(b, a);
    DotSkips(a, b);
  }

  lemma MergeBoth(a: Flat, b: Flat)
    requires Sorted(a) && Sorted(b) && a != [] && b != [] && a[0] == b[0]
    ensures |a| >= 2 && |b| >= 2 && Dot(a, b) == Times(a[1], b[1]) + Dot(a[2..], b[2..])
  {
    hide Sorted, Times;
    SortedTail(a);
    SortedTail(b);
    assert Above(a[2..], b[0]);
    DotSkips(a[2..], b);
    assert Get(b, a[0]) == b[1];
  }

  /** One step of the merge. */
  lemma MergeStep(a: Flat, b: Flat)
    requires Sorted(a) && Sorted(b) && a != [] && b != []
    ensures |a| >= 2 && |b| >= 2
    ensures a[0] < b[0] ==> Dot(a, b) == Dot(a[2..], b)
    ensures b[0] < a[0] ==> Dot(a, b) == Dot(a, b[2..])
    ensures a[0] == b[0] ==> Dot(a, b) == Times(a[1], b[1]) + Dot(a[2..], b[2..])
  {
    SortedTail(a);
    SortedTail(b);
    hide Sorted, Dot, Times;
    if a[0] < b[0] {
      MergeLeft(a, b);
    } else if b[0] < a[0] {
      MergeRight(a, b);
    } else {
      MergeBoth(a, b);
    }
  }

  /** The product does not depend on the order of its arguments. */
  lemma {:induction false} DotCommutes(a: Flat, b: Flat)
    requires Sorted(a) && Sorted(b)
    ensures Dot(a, b) == Dot(b, a)
    decreases |a| + |b|
  {
    if a == [] {
      DotEmpty(b);
    } else if b == [] {
      DotEmpty(a);
    } else {
      MergeStep(a, b);
      MergeStep(b, a);
      SortedTail(a);
      SortedTail(b);
      if a[0] < b[0] {
        DotCommutes(a[2..], b);
      } else if b[0] < a[0] {
        DotCommutes(a, b[2..]);
      } else {
        assert Times(a[1], b[1]) == Times(b[1], a[1]);
        DotCommutes(a[2..], b[2..]);
      }
    }
  }

  lemma {:induction false} DotEmpty(a: Flat)
    ensures Dot(a, []) == 0.0
    decreases |a|
  {
    if |a| >= 2 { DotEmpty(a[2..]); }
  }

  lemma DotOver(a: Flat, b: Flat)
    requires a == [] || b == []
    ensures Dot(a, b) == 0.0
  {
    DotEmpty(a);
  }

  // ---------------------------------------------------------------------------------------------
  // The slot of an index
  // ---------------------------------------------------------------------------------------------

  /** `pos` is where index `k` is, or where it has to be inserted. */
  ghost predicate IsSlot(e: Flat, k: real, pos: nat) {
    && pos % 2 == 0 && pos <= |e|
    && (forall i :: 0 <= i && 2 * i < pos ==> e[2 * i] < k)
    && (forall i :: pos <= 2 * i && 2 * i < |e| ==> k <= e[2 * i])
  }

  lemma NoLaterSlot(e: Flat, k: real, p: nat, q: nat)
    requires IsSlot(e, k, p) && p < q <= |e|
    ensures !IsSlot(e, k, q)
  {
    assert p == 2 * (p / 2) && k <= e[2 * (p / 2)];
  }

  lemma SlotIsUnique(e: Flat, k: real, p: nat, q: nat)
    requires IsSlot(e, k, p) && IsSlot(e, k, q)
    ensures p == q
  {
    hide IsSlot;
    if p < q && q <= |e| { NoLaterSlot(e, k, p, q); }
    if q < p && p <= |e| { NoLaterSlot(e, k, q, p); }
    SlotBound(e, k, p);
    SlotBound(e, k, q);
  }

  lemma SlotBound(e: Flat, k: real, p: nat)
    requires IsSlot(e, k, p)
    ensures p <= |e|
  {}

  /** Binary search over the pairs. */
  method PositionForIndex(e: Flat, index: real) returns (pos: nat)
    requires Sorted(e)
    ensures IsSlot(e, index, pos)
  {
    if |e| == 0 { return 0; }
    var start, end := 0, |e| / 2;
    var sliceLength := end - start;
    var pivotPoint := sliceLength / 2;
    var pivotIndex := e[2 * pivotPoint];
    while sliceLength > 1
      invariant 0 <= start < end <= |e| / 2 && sliceLength == end - start
      invariant pivotPoint == start + sliceLength / 2 && pivotIndex == e[2 * pivotPoint]
      invariant start > 0 ==> e[2 * start] < index
      invariant end < |e| / 2 ==> index < e[2 * end]
      decreases sliceLength
    {
      if pivotIndex < index { start := pivotPoint; }
      if pivotIndex > index { end := pivotPoint; }
      if pivotIndex == index { break; }
      sliceLength := end - start;
      pivotPoint := start + sliceLength / 2;
      pivotIndex := e[2 * pivotPoint];
    }
    if pivotIndex < index {
      pos := (pivotPoint + 1) * 2;
    } else {
      pos := pivotPoint * 2;
    }
    forall i | 0 <= i && 2 * i < pos ensures e[2 * i] < index {
      assert i < pivotPoint ==> e[2 * i] < e[2 * pivotPoint];
    }
    forall i | pos <= 2 * i && 2 * i < |e| ensures index <= e[2 * i] {
      assert pivotPoint < i ==> e[2 * pivotPoint] < e[2 * i];
      assert end < i ==> e[2 * end] < e[2 * i];
    }
  }

  // ---------------------------------------------------------------------------------------------
  // Inserting and updating
  // ---------------------------------------------------------------------------------------------

  function Spliced(e: Flat, pos: nat, k: real, v: real): Flat
    requires pos <= |e|
  {
    e[..pos] + [k, v] + e[pos..]
  }

  lemma {:induction false} SplicedGet(e: Flat, pos: nat, k: real, v: real, x: real)
    requires Sorted(e) && IsSlot(e, k, pos) && !Has(e, k)
    ensures Get(Spliced(e, pos, k, v), x) == if x == k then v else Get(e, x)
    decreases pos
  {
    var s := Spliced(e, pos, k, v);
    if pos == 0 {
      assert s == [k, v] + e;
      assert s[2..] == e;
    } else {
      SortedTail(e);
      assert e[2 * 0] < k;
      var t := e[2..];
      assert s[2..] == Spliced(t, pos - 2, k, v) && s[0] == e[0] && s[1] == e[1];
      forall i | 0 <= i && 2 * i < pos - 2 ensures t[2 * i] < k { assert t[2 * i] == e[2 * (i + 1)]; }
      forall i | pos - 2 <= 2 * i && 2 * i < |t| ensures k <= t[2 * i] { assert t[2 * i] == e[2 * (i + 1)]; }
      if Has(t, k) { TailHas(e, k); }
      SplicedGet(t, pos - 2, k, v, x);
    }
  }

  lemma SplicedSorted(e: Flat, pos: nat, k: real, v: real)
    requires Sorted(e) && IsSlot(e, k, pos) && !Has(e, k)
    ensures Sorted(Spliced(e, pos, k, v))
  {
    var s := Spliced(e, pos, k, v);
    forall i | 0 <= i && 2 * i < |s|
      ensures s[2 * i] == if 2 * i < pos then e[2 * i] else if 2 * i == pos then k else e[2 * (i - 1)]
    {}
    forall i, j | 0 <= i < j && 2 * j < |s| ensures s[2 * i] < s[2 * j] {
      if 2 * i == pos {
        assert k <= e[2 * (j - 1)] && e[2 * (j - 1)] != k;
      } else if 2 * j > pos && 2 * i < pos && 2 * j != pos {
        assert e[2 * i] < e[2 * (j - 1)];
      }
    }
  }

  lemma {:induction false} UpdatedGet(e: Flat, i: nat, v: real, x: real)
    requires Sorted(e) && 2 * i < |e|
    ensures Get(e[2 * i + 1 := v], x) == if x == e[2 * i] then v else Get(e, x)
    decreases i
  {
    var s := e[2 * i + 1 := v];
    SortedTail(e);
    if i == 0 {
      assert s[2..] == e[2..];
    } else {
      assert e[2 * 0] < e[2 * i];
      assert s[2..] == e[2..][2 * (i - 1) + 1 := v] && e[2..][2 * (i - 1)] == e[2 * i];
      UpdatedGet(e[2..], i - 1, v, x);
    }
  }

  // ---------------------------------------------------------------------------------------------
  // The vector object
  // ---------------------------------------------------------------------------------------------

  class Vector {
    const sqrt: real -> real
    var magnitudeCache: real
    var elements: Flat

    /** The cache is stale at 0 and otherwise right. */
    ghost predicate Valid()
      reads this
    {
      Sorted(elements) && (magnitudeCache != 0.0 ==> magnitudeCache == sqrt(SumOfSquares(elements)))
    }

    constructor (sqrt: real -> real)
      ensures Valid() && elements == [] && this.sqrt == sqrt
    {
      this.sqrt := sqrt;
      magnitudeCache, elements := 0.0, [];
    }

    /** Inserts a value, or combines it with the one there; all other indices keep theirs. */
    method Upsert(index: real, value: real, combine: (real, real) -> real)
      requires Valid()
      modifies this
      ensures Valid() && magnitudeCache == 0.0
      ensures forall k :: Get(elements, k) == if k != index then Get(old(elements), k)
                                             else if !Has(old(elements), index) then value
                                             else combine(Get(old(elements), index), value)
      ensures |elements| == |old(elements)| + if Has(old(elements), index) then 0 else 2
    {
      magnitudeCache := 0.0;
      ghost var e := elements;
      var position := PositionForIndex(elements, index);
      if position < |elements| && elements[position] == index {
        assert e[2 * (position / 2)] == index;
        GetAt(e, position / 2);
        var v := combine(elements[position + 1], value);
        forall k ensures Get(e[position + 1 := v], k) == if k == index then v else Get(e, k) {
          UpdatedGet(e, position / 2, v, k);
        }
        elements := elements[position + 1 := v];
      } else {
        NotThere(e, index, position);
        SplicedSorted(e, position, index, value);
        forall k ensures Get(Spliced(e, position, index, value), k) == if k == index then value else Get(e, k) {
          SplicedGet(e, position, index, value, k);
        }
        elements := Spliced(elements, position, index, value);
      }
    }

    /** Inserts a new index; a duplicate is an error and only drops the cached magnitude. */
    method Insert(index: real, value: real) returns (ok: bool)
      requires Valid()
      modifies this
      ensures Valid() && magnitudeCache == 0.0 && (ok <==> !Has(old(elements), index))
      ensures ok ==> forall k :: Get(elements, k) == if k == index then value else Get(old(elements), k)
      ensures !ok ==> elements == old(elements)
    {
      magnitudeCache := 0.0;
      ghost var e := elements;
      var position := PositionForIndex(elements, index);
      if position < |elements| && elements[position] == index {
        assert e[2 * (position / 2)] == index;
        return false;
      }
      NotThere(e, index, position);
      SplicedSorted(e, position, index, value);
      forall k ensures Get(Spliced(e, position, index, value), k) == if k == index then value else Get(e, k) {
        SplicedGet(e, position, index, value, k);
      }
      elements := Spliced(elements, position, index, value);
      return true;
    }

    method Magnitude() returns (r: real)
      requires Valid()
      modifies this`magnitudeCache
      ensures Valid() && r == sqrt(SumOfSquares(elements))
    {
      if magnitudeCache != 0.0 { return magnitudeCache; }
      var sum := 0.0;
      var i := 1;
      while i < |elements|
        invariant i % 2 == 1 && 1 <= i <= |elements| + 1
        invariant sum + SumOfSquares(elements[i - 1..]) == SumOfSquares(elements)
      {
        assert elements[i - 1..][2..] == elements[i + 1..];
        sum := sum + elements[i] * elements[i];
        i := i + 2;
      }
      magnitudeCache := sqrt(sum);
      return magnitudeCache;
    }

    /** The merge over both lists. */
    method DotProduct(other: Vector) returns (r: real)
      requires Valid() && other.Valid()
      ensures r == Dot(elements, other.elements)
    {
      hide Dot, Sorted;
      var a, b := elements, other.elements;
      r := 0.0;
      var i, j := 0, 0;
      while i < |a| && j < |b|
        invariant 0 <= i <= |a| && 0 <= j <= |b| && i % 2 == 0 && j % 2 == 0
        invariant Sorted(a[i..]) && Sorted(b[j..])
        invariant r + Dot(a[i..], b[j..]) == Dot(a, b)
        decreases |a| + |b| - i - j
      {
        MergeStep(a[i..], b[j..]);
        SortedTail(a[i..]);
        SortedTail(b[j..]);
        assert a[i..][1] == a[i + 1] && b[j..][1] == b[j + 1];
        assert a[i..][2..] == a[i + 2..] && b[j..][2..] == b[j + 2..];
        if a[i] < b[j] {
          i := i + 2;
        } else if a[i] > b[j] {
          j := j + 2;
        } else {
          r := r + a[i + 1] * b[j + 1];
          i := i + 2;
          j := j + 2;
        }
      }
      DotOver(a[i..], b[j..]);
    }
  }

  lemma NotThere(e: Flat, k: real, pos: nat)
    requires Sorted(e) && IsSlot(e, k, pos) && !(pos < |e| && e[pos] == k)
    ensures !Has(e, k)
  {
    forall i | 0 <= i && 2 * i + 1 < |e| ensures e[2 * i] != k {
      assert pos < 2 * i ==> e[2 * (pos / 2)] < e[2 * i];
    }
  }
}
