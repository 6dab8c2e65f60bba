/**
 Node keys: the string under which the index builder registers a node.

 A key is the finality flag followed by each label and the decimal identifier of its target, in
 label order and with nothing in between. Two different nodes can therefore have one key as soon
 as a digit can follow another label; `KeyInjectiveIff` gives the exact alphabets that are free
 of such collisions.
 */
module TokenSetKey {
  import opened TokenSet

  predicate IsDigit(u: Unit) { 48 <= u <= 57 }

  /** Decimal representation of a node identifier. */
  function Digits(n: nat): (r: Word)
    ensures r != []
    ensures forall i :: 0 <= i < |r| ==> IsDigit(r[i])
  {
    if n < 10 then [48 + n] else Digits(n / 10) + [48 + n % 10]
  }

  function Value(w: Word): int {
    if w == [] then 0 else 10 * Value(w[..|w| - 1]) + (w[|w| - 1] as int - 48)
  }

  lemma {:induction false} ValueOfDigits(n: nat)
    ensures Value(Digits(n)) == n
  {
    if n >= 10 {
      ValueOfDigits(n / 10);
      assert Digits(n)[..|Digits(n)| - 1] == Digits(n / 10);
    }
  }

  ghost predicate IsLeast(m: Unit, s: set<Unit>) {
    m in s && forall x :: x in s ==> m <= x
  }

  function Least(s: set<Unit>): (m: Unit)
    requires s != {}
    ensures IsLeast(m, s)
  {
    LeastExists(s);
    var m :| m in s && forall x :: x in s ==> m <= x;
    m
  }

  lemma {:induction false} LeastExists(s: set<Unit>)
    requires s != {}
    ensures exists m :: IsLeast(m, s)
  {
    var y :| y in s;
    var t := s - {y};
    if t == {} {
      assert s == {y};
      assert IsLeast(y, s);
    } else {
      LeastExists(t);
      var m :| IsLeast(m, t);
      assert s == t + {y};
      assert IsLeast(if m <= y then m else y, s);
    }
  }

  ghost predicate StrictlySorted(labels: seq<Unit>) {
    forall i, j :: 0 <= i < j < |labels| ==> labels[i] < labels[j]
  }

  /** `Object.keys(edges).sort()`. */
  function SortedLabels(s: set<Unit>): (r: seq<Unit>)
    ensures StrictlySorted(r)
    ensures forall x :: x in r <==> x in s
  {
    if s == {} then [] else
      var m := Least(s);
      [m] + SortedLabels(s - {m})
  }

  function EdgeText(labels: seq<Unit>, edges: map<Unit, nat>): Word
    requires forall x :: x in labels ==> x in edges
  {
    if labels == [] then []
    else [labels[0]] + Digits(edges[labels[0]]) + EdgeText(labels[1..], edges)
  }

  function Flag(final: bool): Unit { if final then 49 else 48 }

  function Key(final: bool, edges: map<Unit, nat>): Word {
    [Flag(final)] + EdgeText(SortedLabels(edges.Keys), edges)
  }

  lemma KeyStart(final: bool, edges: map<Unit, nat>)
    ensures Key(final, edges) == [Flag(final)] + EdgeText(SortedLabels(edges.Keys)[0..], edges)
  {
    hide SortedLabels, EdgeText, Flag, StrictlySorted;
    assert SortedLabels(edges.Keys)[0..] == SortedLabels(edges.Keys);
  }

  lemma EdgeTextStep(labels: seq<Unit>, edges: map<Unit, nat>, i: nat)
    requires i < |labels| && forall x :: x in labels ==> x in edges
    ensures EdgeText(labels[i..], edges) == [labels[i]] + Digits(edges[labels[i]]) + EdgeText(labels[i + 1..], edges)
  {
    assert labels[i..][1..] == labels[i + 1..];
  }

  lemma EdgeTextEnd(labels: seq<Unit>, edges: map<Unit, nat>)
    requires labels == []
    ensures EdgeText(labels, edges) == []
  {}

  /** Computes the key by one pass over the sorted labels, or returns the cached one. */
  method NodeKey(node: Node) returns (str: Word)
    ensures node.str.Some? ==> str == node.str.value
    ensures node.str.None? ==> str == Key(node.final, node.edges)
  {
    if node.str.Some? {
      return node.str.value;
    }
    hide SortedLabels, Digits, Flag, EdgeText, StrictlySorted, Key;
    str := [Flag(node.final)];
    var labels := SortedLabels(node.edges.Keys);
    ghost var key := Key(node.final, node.edges);
    KeyStart(node.final, node.edges);
    for i := 0 to |labels|
      invariant key == str + EdgeText(labels[i..], node.edges)
    {
      var here := [labels[i]] + Digits(node.edges[labels[i]]);
      EdgeTextStep(labels, node.edges, i);
      Regrouped(str, here, EdgeText(labels[i + 1..], node.edges));
      str := str + here;
    }
    EdgeTextEnd(labels[|labels|..], node.edges);
  }

  lemma Regrouped(a: Word, b: Word, c: Word)
    ensures a + (b + c) == (a + b) + c
  {}

  /** A digit may only be the smallest label of an alphabet. */
  ghost predicate KeySafe(alphabet: set<Unit>) {
    forall c, d :: c in alphabet && d in alphabet && IsDigit(d) ==> d <= c
  }

  ghost predicate NoDigits(w: Word) {
    forall i :: 0 <= i < |w| ==> !IsDigit(w[i])
  }

  /** The digits in front of a text that does not go on with a digit are determined by the whole. */
  lemma {:induction false} DigitRunUnique(d1: Word, r1: Word, d2: Word, r2: Word)
    requires forall i :: 0 <= i < |d1| ==> IsDigit(d1[i])
    requires forall i :: 0 <= i < |d2| ==> IsDigit(d2[i])
    requires r1 == [] || !IsDigit(r1[0])
    requires r2 == [] || !IsDigit(r2[0])
    requires d1 + r1 == d2 + r2
    ensures d1 == d2 && r1 == r2
    decreases |d1|
  {
    if d1 == [] || d2 == [] {
      assert d1 == [] ==> d1 + r1 == r1;
      assert d2 == [] ==> d2 + r2 == r2;
    } else {
      assert (d1 + r1)[0] == d1[0] && (d2 + r2)[0] == d2[0];
      assert (d1 + r1)[1..] == d1[1..] + r1 && (d2 + r2)[1..] == d2[1..] + r2;
      DigitRunUnique(d1[1..], r1, d2[1..], r2);
      assert d1 == [d1[0]] + d1[1..] && d2 == [d2[0]] + d2[1..];
    }
  }

  lemma {:induction false} EdgeTextInjective(l1: seq<Unit>, e1: map<Unit, nat>, l2: seq<Unit>, e2: map<Unit, nat>)
    requires forall x :: x in l1 ==> x in e1
    requires forall x :: x in l2 ==> x in e2
    requires l1 != [] ==> NoDigits(l1[1..])
    requires l2 != [] ==> NoDigits(l2[1..])
    requires EdgeText(l1, e1) == EdgeText(l2, e2)
    ensures l1 == l2
    ensures forall x :: x in l1 ==> e1[x] == e2[x]
    decreases |l1|
  {
    if l1 != [] && l2 != [] {
      var t := EdgeText(l1, e1);
      var d1, r1 := Digits(e1[l1[0]]), EdgeText(l1[1..], e1);
      var d2, r2 := Digits(e2[l2[0]]), EdgeText(l2[1..], e2);
      assert t[0] == l1[0] && t[0] == l2[0];
      assert t[1..] == d1 + r1 && t[1..] == d2 + r2;
      DigitRunUnique(d1, r1, d2, r2);
      ValueOfDigits(e1[l1[0]]);
      ValueOfDigits(e2[l2[0]]);
      EdgeTextInjective(l1[1..], e1, l2[1..], e2);
      assert l1 == [l1[0]] + l1[1..] && l2 == [l2[0]] + l2[1..];
    }
  }

  lemma LabelsAfterFirst(alphabet: set<Unit>, s: set<Unit>)
    requires KeySafe(alphabet) && s <= alphabet
    ensures var l := SortedLabels(s); l != [] ==> NoDigits(l[1..])
  {
    var l := SortedLabels(s);
    forall i | 1 <= i < |l| ensures !IsDigit(l[i]) {
      assert l[0] in s && l[i] in s;
    }
  }

  lemma SameEdges(e1: map<Unit, nat>, e2: map<Unit, nat>, l: seq<Unit>)
    requires forall x :: x in l <==> x in e1.Keys
    requires forall x :: x in l <==> x in e2.Keys
    requires forall x :: x in l ==> e1[x] == e2[x]
    ensures e1 == e2
  {
    assert forall x :: x in e1 <==> x in e2;
    assert forall x :: x in e1 ==> e1[x] == e2[x];
  }

  /** Over a key-safe alphabet the key determines the node. */
  lemma {:induction false} KeyInjective(alphabet: set<Unit>, f1: bool, e1: map<Unit, nat>, f2: bool, e2: map<Unit, nat>)
    requires KeySafe(alphabet) && e1.Keys <= alphabet && e2.Keys <= alphabet
    requires Key(f1, e1) == Key(f2, e2)
    ensures f1 == f2 && e1 == e2
  {
    var l1, l2 := SortedLabels(e1.Keys), SortedLabels(e2.Keys);
    assert Key(f1, e1)[0] == Flag(f1) && Key(f2, e2)[0] == Flag(f2);
    assert EdgeText(l1, e1) == EdgeText(l2, e2) by {
      assert Key(f1, e1)[1..] == EdgeText(l1, e1) && Key(f2, e2)[1..] == EdgeText(l2, e2);
    }
    LabelsAfterFirst(alphabet, e1.Keys);
    LabelsAfterFirst(alphabet, e2.Keys);
    EdgeTextInjective(l1, e1, l2, e2);
    SameEdges(e1, e2, l1);
  }

  /** No two different nodes with labels from `alphabet` share a key. */
  ghost predicate KeysDistinguish(alphabet: set<Unit>) {
    forall f1: bool, e1: map<Unit, nat>, f2: bool, e2: map<Unit, nat> ::
      e1.Keys <= alphabet && e2.Keys <= alphabet && Key(f1, e1) == Key(f2, e2) ==> f1 == f2 && e1 == e2
  }

  lemma SortedOne(c: Unit)
    ensures SortedLabels({c}) == [c]
  {
    assert {c} - {c} == {};
    assert SortedLabels({c} - {c}) == [];
    assert Least({c}) == c;
  }

  lemma SortedTwo(c: Unit, d: Unit)
    requires c < d
    ensures SortedLabels({c, d}) == [c, d]
  {
    SortedOne(d);
    assert {c, d} - {c} == {d};
    assert Least({c, d}) == c;
    assert SortedLabels({c, d}) == [c] + SortedLabels({c, d} - {c});
  }

  ghost predicate AllDigits(w: Word) { forall i :: 0 <= i < |w| ==> IsDigit(w[i]) }

  /** A numeral without a leading zero is the decimal representation of its value. */
  lemma {:induction false} DigitsOfValue(w: Word)
    requires w != [] && AllDigits(w) && w[0] != 48
    ensures Value(w) > 0 && Digits(Value(w)) == w
    decreases |w|
  {
    var front, last := w[..|w| - 1], w[|w| - 1];
    assert w == front + [last];
    if front != [] {
      DigitsOfValue(front);
      assert Value(w) / 10 == Value(front) && Value(w) % 10 == last - 48;
    }
  }

  lemma {:induction false} NoLeadingZero(n: nat)
    requires n > 0
    ensures Digits(n)[0] != 48
  {
    if n >= 10 { NoLeadingZero(n / 10); }
  }

  lemma {:induction false} LongerIsLarger(w: Word, v: Word)
    requires w != [] && AllDigits(w) && w[0] != 48 && AllDigits(v) && v != []
    ensures Value(w + v) > Value(w)
    decreases |v|
  {
    DigitsOfValue(w);
    var front, last := v[..|v| - 1], v[|v| - 1];
    assert IsDigit(last);
    assert (w + v)[..|w + v| - 1] == w + front;
    if front == [] {
      assert w + front == w;
    } else {
      LongerIsLarger(w, front);
    }
  }

  /** The numeral of `x`, the digit `d` and the numeral of `x` again. */
  function Doubled(x: nat, d: Unit): Word { Digits(x) + [d] + Digits(x) }

  /** The identifier that reads like `Doubled`. */
  function Spliced(x: nat, d: Unit): (k: nat)
    requires IsDigit(d) && x > 0
    ensures k > x && Digits(k) == Doubled(x, d)
  {
    var v := [d] + Digits(x);
    NoLeadingZero(x);
    assert Doubled(x, d) == Digits(x) + v;
    DigitsOfValue(Doubled(x, d));
    LongerIsLarger(Digits(x), v);
    ValueOfDigits(x);
    Value(Doubled(x, d))
  }

  /** Identifier `x` under label `c` and under the digit `d`. */
  function TwoEdges(c: Unit, d: Unit, x: nat): map<Unit, nat> { map[c := x, d := x] }

  /** The identifier written x d x under label `c`. */
  function OneEdge(c: Unit, d: Unit, x: nat): map<Unit, nat>
    requires IsDigit(d) && x > 0
  {
    map[c := Spliced(x, d)]
  }

  lemma OneEdgeText(c: Unit, edges: map<Unit, nat>)
    requires edges.Keys == {c}
    ensures Key(false, edges) == [Flag(false)] + ([c] + Digits(edges[c]))
  {
    hide Digits, SortedLabels;
    SortedOne(c);
    assert [c][1..] == [];
    assert EdgeText([c], edges) == [c] + Digits(edges[c]) + [];
  }

  lemma TwoEdgesText(c: Unit, d: Unit, edges: map<Unit, nat>)
    requires c < d && edges.Keys == {c, d}
    ensures Key(false, edges) == [Flag(false)] + ([c] + (Digits(edges[c]) + [d] + Digits(edges[d])))
  {
    hide Digits, SortedLabels;
    SortedTwo(c, d);
    assert [c, d][1..] == [d] && [d][1..] == [];
    assert EdgeText([d], edges) == [d] + Digits(edges[d]) + [];
    assert EdgeText([c, d], edges) == [c] + Digits(edges[c]) + EdgeText([d], edges);
  }

  /** A collision: the digit label disappears into the identifier of the label before it. */
  lemma {:induction false} KeyCollision(c: Unit, d: Unit, x: nat)
    requires c < d && IsDigit(d) && x > 0
    ensures TwoEdges(c, d, x) != OneEdge(c, d, x)
    ensures Key(false, TwoEdges(c, d, x)) == Key(false, OneEdge(c, d, x))
  {
    hide Spliced, Digits, Key;
    var two, one := TwoEdges(c, d, x), OneEdge(c, d, x);
    assert d in two && d !in one;
    assert two.Keys == {c, d} && one.Keys == {c};
    TwoEdgesText(c, d, two);
    OneEdgeText(c, one);
  }

  /** Keys tell nodes apart exactly for the alphabets in which a digit can only be the least label. */
  lemma {:induction false} KeyInjectiveIff(alphabet: set<Unit>)
    ensures KeysDistinguish(alphabet) <==> KeySafe(alphabet)
  {
    if KeySafe(alphabet) {
      forall f1: bool, e1: map<Unit, nat>, f2: bool, e2: map<Unit, nat> |
        e1.Keys <= alphabet && e2.Keys <= alphabet && Key(f1, e1) == Key(f2, e2)
        ensures f1 == f2 && e1 == e2
      {
        KeyInjective(alphabet, f1, e1, f2, e2);
      }
    } else {
      var c, d :| c in alphabet && d in alphabet && IsDigit(d) && c < d;
      KeyCollision(c, d, 1);
      assert TwoEdges(c, d, 1).Keys <= alphabet && OneEdge(c, d, 1).Keys <= alphabet;
    }
  }
}
