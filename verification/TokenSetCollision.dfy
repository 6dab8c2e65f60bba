/**
 A sorted list that the builder gets wrong, for every digit `d`, every smaller label `c` and every first
 identifier: a long run of `c` registers a node for each identifier up to the one that is written like
 two short edges, and the node with these two edges is then taken for it.
 */
module TokenSetCollision {
  import opened TokenSet
  import opened TokenSetKey
  import opened TokenSetBuilder
  import opened Options

  function Repeated(c: Unit, n: nat): Word { seq(n, i => c) }

  /** The last identifier of the run, written like the first one, `d` and the first one again. */
  function RunEnd(d: Unit, firstId: nat): (k: nat)
    requires IsDigit(d)
    ensures k > firstId + 1
  {
    Spliced(firstId + 1, d)
  }

  /** The three words. */
  function Collision(c: Unit, d: Unit, firstId: nat): seq<Word>
    requires IsDigit(d)
  {
    var n := RunEnd(d, firstId) - firstId;
    [Repeated(c, n), [d, c] + Repeated(c, n - 1), [d, d] + Repeated(c, n - 1)]
  }

  lemma CollisionIsSorted(c: Unit, d: Unit, firstId: nat)
    requires c < d && IsDigit(d)
    ensures Sorted(Collision(c, d, firstId)) && LettersOf(Collision(c, d, firstId)) <= {c, d}
  {
    hide RunEnd;
    var arr := Collision(c, d, firstId);
    assert arr[0][0] == c && arr[1][0] == d && arr[2][0] == d;
    assert arr[1][1..][0] == c && arr[2][1..][0] == d;
    assert !Less(arr[2][1..], arr[1][1..]);
    assert !Less(arr[1], arr[0]) && !Less(arr[2], arr[1]);
    forall i, j | 0 <= i < |arr| && 0 <= j < |arr[i]| ensures arr[i][j] in {c, d} {
      if i > 0 { assert arr[i][j] == if j < 2 then arr[i][..2][j] else Repeated(c, |arr[i]| - 2)[j - 2]; }
    }
  }

  // ---------------------------------------------------------------------------------------------
  // The registry of a run of one label
  // ---------------------------------------------------------------------------------------------

  /** The table of the nodes from `j` to `k`, each with one edge to the next, and `k` final. */
  function Table(c: Unit, j: nat, k: nat): map<Word, nat>
    decreases k - j
  {
    if j >= k then map[Key(true, map[]) := k] else Table(c, j + 1, k)[Key(false, map[c := j + 1]) := j]
  }

  lemma OneLabelKeys(c: Unit, f1: bool, e1: map<Unit, nat>, f2: bool, e2: map<Unit, nat>)
    requires e1.Keys <= {c} && e2.Keys <= {c} && Key(f1, e1) == Key(f2, e2)
    ensures f1 == f2 && e1 == e2
  {
    hide Key;
    assert KeySafe({c});
    KeyInjective({c}, f1, e1, f2, e2);
  }

  lemma OneEdgeKeys(c: Unit, i: nat, j: nat)
    requires Key(false, map[c := i]) == Key(false, map[c := j])
    ensures i == j
  {
    hide Key;
    OneLabelKeys(c, false, map[c := i], false, map[c := j]);
    assert map[c := i][c] == i && map[c := j][c] == j;
  }

  lemma {:induction false} TableMisses(c: Unit, j: nat, k: nat, i: nat)
    requires i <= j <= k
    ensures Key(false, map[c := i]) !in Table(c, j, k)
    decreases k - j
  {
    hide Key;
    var e := map[c := i];
    if j == k {
      if Key(false, e) == Key(true, map[]) { OneLabelKeys(c, false, e, true, map[]); }
    } else {
      TableMisses(c, j + 1, k, i);
      if Key(false, e) == Key(false, map[c := j + 1]) {
        OneEdgeKeys(c, i, j + 1);
      }
    }
  }

  lemma {:induction false} TableHits(c: Unit, j: nat, k: nat, i: nat)
    requires j <= i < k
    ensures Key(false, map[c := i + 1]) in Table(c, j, k) && Table(c, j, k)[Key(false, map[c := i + 1])] == i
    decreases k - j
  {
    hide Key;
    if i > j {
      TableHits(c, j + 1, k, i);
      if Key(false, map[c := i + 1]) == Key(false, map[c := j + 1]) {
        OneEdgeKeys(c, i + 1, j + 1);
      }
    }
  }

  lemma {:induction false} TableHitsEnd(c: Unit, j: nat, k: nat)
    requires j <= k
    ensures Key(true, map[]) in Table(c, j, k) && Table(c, j, k)[Key(true, map[])] == k
    decreases k - j
  {
    hide Key;
    if j < k {
      TableHitsEnd(c, j + 1, k);
      if Key(true, map[]) == Key(false, map[c := j + 1]) { OneLabelKeys(c, true, map[], false, map[c := j + 1]); }
    }
  }

  // ---------------------------------------------------------------------------------------------
  // The first word
  // ---------------------------------------------------------------------------------------------

  /** The chain of the first `m` letters of the run. */
  ghost predicate Growing(s: State, c: Unit, f: nat, m: nat) {
    && s.root == f && s.nextId == f + m + 1 && s.minimized == map[] && |s.unchecked| == m
    && (forall i :: 0 <= i < m ==> s.unchecked[i] == Link(f + i, c, f + i + 1))
    && (forall n :: n in s.nodes ==> n < s.nextId)
    && (forall n :: f <= n < f + m ==> n in s.nodes && s.nodes[n] == Node(false, map[c := n + 1], None))
    && f + m in s.nodes && s.nodes[f + m] == EMPTY_NODE
  }

  lemma GrowingStep(s: State, c: Unit, f: nat, m: nat)
    requires Growing(s, c, f, m)
    ensures Tip(s) in s.nodes && Growing(Append(s, c), c, f, m + 1)
  {
    assert Tip(s) == f + m;
    assert EMPTY_NODE.edges[c := f + m + 1] == map[c := f + m + 1];
  }

  lemma {:induction false} GrowingAll(s: State, c: Unit, f: nat, m: nat, n: nat)
    requires Growing(s, c, f, m) && m <= n
    ensures Growing(AppendAll(s, Repeated(c, n), m), c, f, n)
    decreases n - m
  {
    hide Growing, AppendAll;
    AppendAllStep(s, Repeated(c, n), m);
    if m < n {
      GrowingStep(s, c, f, m);
      GrowingAll(Append(s, c), c, f, m + 1, n);
    }
  }

  /** The nodes from `j` on are the run to the final node `k`. */
  ghost predicate Line(s: State, c: Unit, j: nat, k: nat) {
    && (forall n :: j <= n < k ==> n in s.nodes && !s.nodes[n].final && s.nodes[n].edges == map[c := n + 1])
    && k in s.nodes && s.nodes[k].final && s.nodes[k].edges == map[]
  }

  /** The run with the chain still unchecked down to node `i`, and registered behind it. */
  ghost predicate Registering(s: State, c: Unit, f: nat, k: nat, i: nat) {
    && f <= i <= k && s.root == f && s.nextId == k + 1 && |s.unchecked| == i - f
    && s.minimized == (if i == k then map[] else Table(c, i + 1, k))
    && (forall j :: 0 <= j < i - f ==> s.unchecked[j] == Link(f + j, c, f + j + 1))
    && (forall n :: n in s.nodes ==> n < s.nextId)
    && Line(s, c, f, k)
    && s.nodes[f].str.None?
  }

  lemma FirstWord(s: State, c: Unit, f: nat, k: nat)
    requires f < k && Growing(s, c, f, k - f)
    ensures Registering(MarkTipFinal(s), c, f, k, k)
  {
    assert Tip(s) == k;
  }

  lemma RegisteringStep(s: State, c: Unit, f: nat, k: nat, i: nat)
    requires Registering(s, c, f, k, i) && f < i
    ensures Foldable(s) && Registering(FoldLast(s), c, f, k, i - 1)
  {
    hide Key;
    assert Tip(s) == i;
    if i == k {
      assert map[][Key(true, map[]) := k] == Table(c, k, k);
    } else {
      TableMisses(c, i + 1, k, i + 1);
    }
  }

  lemma {:induction false} RegisteringAll(s: State, c: Unit, f: nat, k: nat, i: nat)
    requires Registering(s, c, f, k, i)
    ensures Registering(FoldTo(s, 0), c, f, k, f)
    decreases i
  {
    hide FoldTo, FoldLast;
    FoldToStep(s, 0);
    if f < i {
      RegisteringStep(s, c, f, k, i);
      hide Registering;
      RegisteringAll(FoldLast(s), c, f, k, i - 1);
    }
  }

  // ---------------------------------------------------------------------------------------------
  // The other words: another run of the same length behind `d` and one more label
  // ---------------------------------------------------------------------------------------------

  /** The registry is that of the run, and the root has the unchecked node `n` behind `d`. */
  ghost predicate Base(s: State, c: Unit, d: Unit, f: nat, k: nat, n: nat) {
    && f < k < n < s.nextId && s.root == f && s.minimized == Table(c, f + 1, k)
    && (forall m :: m in s.nodes ==> m < s.nextId)
    && s.unchecked != [] && s.unchecked[0] == Link(f, d, n)
    && Line(s, c, f + 1, k)
    && f in s.nodes && d in s.nodes[f].edges && n in s.nodes && !s.nodes[n].final
  }

  /** A chain of `m` new nodes from `e` on behind node `n`: the first one by `v`, the others by `c`. */
  ghost predicate Links(s: State, c: Unit, n: nat, v: Unit, e: nat, m: nat) {
    && |s.unchecked| == 1 + m && n < e
    && (m >= 1 ==> s.unchecked[1] == Link(n, v, e))
    && (forall q :: 2 <= q <= m ==> s.unchecked[q] == Link(e + q - 2, c, e + q - 1))
    && (forall q :: e <= q < e + m - 1 ==> q in s.nodes && s.nodes[q] == Node(false, map[c := q + 1], None))
    && (m >= 1 ==> e + m - 1 in s.nodes)
  }

  /** The first `m` letters of the branch `v` of node `n` have been appended. */
  ghost predicate Branching(s: State, c: Unit, d: Unit, f: nat, k: nat, n: nat, v: Unit, others: map<Unit, nat>, e: nat,
                            m: nat) {
    && Base(s, c, d, f, k, n) && Links(s, c, n, v, e, m)
    && s.nextId == e + m
    && s.nodes[n].edges == (if m == 0 then others else others[v := e])
    && (m >= 1 ==> s.nodes[e + m - 1] == EMPTY_NODE)
  }

  lemma BaseFacts(s: State, c: Unit, d: Unit, f: nat, k: nat, n: nat)
    requires Base(s, c, d, f, k, n)
    ensures f < k < n && n in s.nodes && s.unchecked != [] && s.unchecked[0] == Link(f, d, n)
    ensures forall m :: m in s.nodes ==> m < s.nextId
  {
    hide Table, Line;
  }

  lemma AppendedBase(s: State, c: Unit, d: Unit, f: nat, k: nat, n: nat, v: Unit)
    requires Base(s, c, d, f, k, n) && Tip(s) in s.nodes && Tip(s) >= n
    ensures Base(Append(s, v), c, d, f, k, n)
  {
    hide Table;
  }

  lemma BranchingStep(s: State, c: Unit, d: Unit, f: nat, k: nat, n: nat, v: Unit, others: map<Unit, nat>, e: nat,
                      m: nat)
    requires Branching(s, c, d, f, k, n, v, others, e, m)
    ensures Tip(s) in s.nodes
    ensures Branching(Append(s, if m == 0 then v else c), c, d, f, k, n, v, others, e, m + 1)
  {
    hide Base;
    BaseFacts(s, c, d, f, k, n);
    assert Tip(s) == if m == 0 then n else e + m - 1;
    AppendedBase(s, c, d, f, k, n, if m == 0 then v else c);
    assert EMPTY_NODE.edges[c := e + m] == map[c := e + m];
  }

  /** A word that goes through node `n` by its first letter. */
  function Through(c: Unit, d: Unit, v: Unit, rest: nat): Word { [d, v] + Repeated(c, rest) }

  lemma {:induction false} BranchingAll(s: State, c: Unit, d: Unit, f: nat, k: nat, n: nat, v: Unit,
                                        others: map<Unit, nat>, e: nat, m: nat)
    requires f < k && Branching(s, c, d, f, k, n, v, others, e, m) && m <= k - f
    ensures Branching(AppendAll(s, Through(c, d, v, k - f - 1), 1 + m), c, d, f, k, n, v, others, e, k - f)
    decreases k - m
  {
    hide Branching, AppendAll;
    var word := Through(c, d, v, k - f - 1);
    AppendAllStep(s, word, 1 + m);
    if m < k - f {
      assert word[1 + m] == if m == 0 then v else c;
      BranchingStep(s, c, d, f, k, n, v, others, e, m);
      BranchingAll(Append(s, word[1 + m]), c, d, f, k, n, v, others, e, m + 1);
    }
  }

  /** The branch is merged into the run down to its `m`-th node. */
  ghost predicate Merging(s: State, c: Unit, d: Unit, f: nat, k: nat, n: nat, v: Unit, others: map<Unit, nat>, e: nat,
                          m: nat) {
    && Base(s, c, d, f, k, n) && Links(s, c, n, v, e, m)
    && m <= k - f && s.nextId == e + (k - f)
    && s.nodes[n].edges == others[v := if m == 0 then f + 1 else e]
    && (m >= 1 ==>
          && s.nodes[e + m - 1].final == (m == k - f)
          && s.nodes[e + m - 1].edges == if m == k - f then map[] else map[c := f + m + 1])
  }

  lemma MergingStart(s: State, c: Unit, d: Unit, f: nat, k: nat, n: nat, v: Unit, others: map<Unit, nat>, e: nat)
    requires f < k && Branching(s, c, d, f, k, n, v, others, e, k - f)
    ensures Merging(MarkTipFinal(s), c, d, f, k, n, v, others, e, k - f)
  {
    hide Table;
    assert Tip(s) == e + (k - f) - 1;
  }

  /** The last node of the branch has the key of node `f + m` of the run. */
  lemma MergingTarget(s: State, c: Unit, d: Unit, f: nat, k: nat, n: nat, v: Unit, others: map<Unit, nat>, e: nat,
                      m: nat)
    requires Merging(s, c, d, f, k, n, v, others, e, m) && m >= 1
    ensures Foldable(s) && FoldLast(s) == MergeLast(s, f + m)
    ensures Tip(s) == e + m - 1 && s.unchecked[m].parent == (if m == 1 then n else e + m - 2)
  {
    hide Key, Table;
    if m == k - f { TableHitsEnd(c, f + 1, k); } else { TableHits(c, f + 1, k, f + m); }
  }

  lemma MergedBase(s: State, c: Unit, d: Unit, f: nat, k: nat, n: nat, target: nat)
    requires Base(s, c, d, f, k, n) && |s.unchecked| > 1
    requires s.unchecked[|s.unchecked| - 1].parent in s.nodes && s.unchecked[|s.unchecked| - 1].parent >= n
    ensures Base(MergeLast(s, target), c, d, f, k, n)
  {
    hide Table;
  }

  lemma MergingStep(s: State, c: Unit, d: Unit, f: nat, k: nat, n: nat, v: Unit, others: map<Unit, nat>, e: nat, m: nat)
    requires Merging(s, c, d, f, k, n, v, others, e, m) && m >= 1
    ensures Foldable(s) && Merging(FoldLast(s), c, d, f, k, n, v, others, e, m - 1)
  {
    hide FoldLast, Base;
    MergingTarget(s, c, d, f, k, n, v, others, e, m);
    BaseFacts(s, c, d, f, k, n);
    MergedBase(s, c, d, f, k, n, f + m);
    assert others[v := e][v := f + 1] == others[v := f + 1];
    assert map[c := e + m - 1][c := f + m] == map[c := f + m];
  }

  lemma {:induction false} MergingAll(s: State, c: Unit, d: Unit, f: nat, k: nat, n: nat, v: Unit,
                                      others: map<Unit, nat>, e: nat, m: nat)
    requires Merging(s, c, d, f, k, n, v, others, e, m)
    ensures Merging(FoldTo(s, 1), c, d, f, k, n, v, others, e, 0)
    decreases m
  {
    hide FoldTo, FoldLast, Base;
    FoldToStep(s, 1);
    if m >= 1 {
      MergingStep(s, c, d, f, k, n, v, others, e, m);
      hide Merging;
      MergingAll(FoldLast(s), c, d, f, k, n, v, others, e, m - 1);
    }
  }

  /** The chain is down to node `n`, whose edges are `edges`. */
  ghost predicate AtBranch(s: State, c: Unit, d: Unit, f: nat, k: nat, n: nat, edges: map<Unit, nat>) {
    Base(s, c, d, f, k, n) && |s.unchecked| == 1 && s.nodes[n].edges == edges
  }

  /** One more word through node `n` gives it one more edge to the start of the run. */
  lemma {:induction false} AddBranch(s: State, c: Unit, d: Unit, f: nat, k: nat, n: nat, v: Unit,
                                     others: map<Unit, nat>)
    requires AtBranch(s, c, d, f, k, n, others)
    ensures AtBranch(FoldTo(MarkTipFinal(AppendAll(s, Through(c, d, v, k - f - 1), 1)), 1), c, d, f, k, n,
                     others[v := f + 1])
  {
    hide Base, AppendAll, FoldTo, MarkTipFinal;
    BaseIsBranching(s, c, d, f, k, n, v, others);
    BranchingAll(s, c, d, f, k, n, v, others, s.nextId, 0);
    var t := AppendAll(s, Through(c, d, v, k - f - 1), 1);
    MergingStart(t, c, d, f, k, n, v, others, s.nextId);
    MergingAll(MarkTipFinal(t), c, d, f, k, n, v, others, s.nextId, k - f);
  }

  lemma BaseIsBranching(s: State, c: Unit, d: Unit, f: nat, k: nat, n: nat, v: Unit, others: map<Unit, nat>)
    requires AtBranch(s, c, d, f, k, n, others)
    ensures f < k && Branching(s, c, d, f, k, n, v, others, s.nextId, 0)
  {}

  // ---------------------------------------------------------------------------------------------
  // The three words together
  // ---------------------------------------------------------------------------------------------

  /** The first letter of the second word, behind the registered run. */
  lemma BranchPoint(s: State, c: Unit, d: Unit, f: nat, k: nat)
    requires f < k && c != d && Registering(s, c, f, k, f)
    ensures Tip(s) in s.nodes && AtBranch(Append(s, d), c, d, f, k, k + 1, map[])
  {
    hide Table;
    assert Tip(s) == f;
  }

  lemma {:induction false} FoldToInParts(s: State, j: nat, k: nat)
    requires j <= k
    ensures FoldTo(s, j) == FoldTo(FoldTo(s, k), j)
    decreases |s.unchecked|
  {
    hide FoldLast;
    if |s.unchecked| > k && Foldable(s) {
      FoldRoot(s);
      FoldToInParts(FoldLast(s), j, k);
    }
  }

  lemma AfterFirst(c: Unit, f: nat, k: nat)
    requires f < k
    ensures Registering(FoldTo(Inserted(NewState(f), [], Repeated(c, k - f)), 0), c, f, k, f)
  {
    hide FoldTo, AppendAll, MarkTipFinal;
    var s, word := NewState(f), Repeated(c, k - f);
    assert Common([], word) == 0;
    FoldToStep(s, 0);
    assert Growing(s, c, f, 0);
    hide Growing, Registering;
    GrowingAll(s, c, f, 0, k - f);
    FirstWord(AppendAll(s, word, 0), c, f, k);
    RegisteringAll(MarkTipFinal(AppendAll(s, word, 0)), c, f, k, k);
  }

  /** After the second word and the folding for the third, node `k + 1` has its edge by `c`. */
  lemma AfterSecond(s: State, c: Unit, d: Unit, f: nat, k: nat)
    requires f < k && c != d && Registering(FoldTo(s, 0), c, f, k, f)
    ensures var word := Through(c, d, c, k - f - 1);
            AtBranch(FoldTo(Inserted(s, Repeated(c, k - f), word), 1), c, d, f, k, k + 1, map[c := f + 1])
  {
    hide FoldTo, AppendAll, MarkTipFinal, Registering, AtBranch;
    var word := Through(c, d, c, k - f - 1);
    assert word[0] == d && Repeated(c, k - f)[0] == c;
    assert Common(Repeated(c, k - f), word) == 0;
    var t := FoldTo(s, 0);
    BranchPoint(t, c, d, f, k);
    AppendAllStep(t, word, 0);
    AddBranch(Append(t, d), c, d, f, k, k + 1, c, map[]);
    assert map[][c := f + 1] == map[c := f + 1];
  }

  lemma AfterThird(s: State, c: Unit, d: Unit, f: nat, k: nat)
    requires f < k && c != d && AtBranch(FoldTo(s, 1), c, d, f, k, k + 1, map[c := f + 1])
    ensures var before, word := Through(c, d, c, k - f - 1), Through(c, d, d, k - f - 1);
            AtBranch(FoldTo(Inserted(s, before, word), 1), c, d, f, k, k + 1, TwoEdges(c, d, f + 1))
  {
    hide FoldTo, AppendAll, MarkTipFinal, AtBranch;
    var before, word := Through(c, d, c, k - f - 1), Through(c, d, d, k - f - 1);
    assert before[0] == d && word[0] == d && before[1..][0] == c && word[1..][0] == d;
    assert Common(before[1..], word[1..]) == 0;
    assert Common(before, word) == 1;
    AddBranch(FoldTo(s, 1), c, d, f, k, k + 1, d, map[c := f + 1]);
    assert map[c := f + 1][d := f + 1] == TwoEdges(c, d, f + 1);
  }

  /** Behind `d`, the finished automaton has the last but one node of the run. */
  ghost predicate Misled(t: State, c: Unit, d: Unit, f: nat, k: nat) {
    && 0 < k && t.root == f && f in t.nodes && d in t.nodes[f].edges && t.nodes[f].edges[d] == k - 1
    && k - 1 in t.nodes && t.nodes[k - 1].edges == map[c := k]
  }

  /** The node with the two edges is merged into the node of the run that has its key. */
  lemma FalseMerge(s: State, c: Unit, d: Unit, f: nat)
    requires c < d && IsDigit(d)
    requires AtBranch(s, c, d, f, RunEnd(d, f), RunEnd(d, f) + 1, TwoEdges(c, d, f + 1))
    ensures Misled(FoldTo(s, 0), c, d, f, RunEnd(d, f))
  {
    hide Key, Table, Spliced;
    var k := RunEnd(d, f);
    KeyCollision(c, d, f + 1);
    TableHits(c, f + 1, k, k - 1);
    assert OneEdge(c, d, f + 1) == map[c := k];
    assert Tip(s) == k + 1;
    FoldToStep(s, 0);
    FoldToStep(FoldLast(s), 0);
  }

  lemma CollisionMisleads(c: Unit, d: Unit, firstId: nat)
    requires c < d && IsDigit(d)
    ensures Misled(Built(Collision(c, d, firstId), firstId), c, d, firstId, RunEnd(d, firstId))
  {
    hide FoldTo, Inserted, AtBranch, Registering, RunEnd, Misled, Built;
    var k, arr := RunEnd(d, firstId), Collision(c, d, firstId);
    var s1 := Inserted(NewState(firstId), [], arr[0]);
    var s2 := Inserted(s1, arr[0], arr[1]);
    var s3 := Inserted(s2, arr[1], arr[2]);
    AfterFirst(c, firstId, k);
    AfterSecond(s1, c, d, firstId, k);
    AfterThird(s2, c, d, firstId, k);
    FalseMerge(FoldTo(s3, 1), c, d, firstId);
    FoldToInParts(s3, 0, 1);
    ThreeWords(arr, firstId);
  }

  lemma MisledLosesWord(t: State, c: Unit, d: Unit, f: nat, k: nat, v: Word)
    requires Misled(t, c, d, f, k) && c != d
    ensures !Accepts(t.nodes, t.root, [d, d] + v)
  {
    var w := [d, d] + v;
    assert w[0] == d && w[1..][0] == d && w[1..] != [];
  }

  /** The list is sorted, and its last word is not accepted. */
  lemma CollisionLosesWord(c: Unit, d: Unit, firstId: nat)
    requires c < d && IsDigit(d)
    ensures var arr := Collision(c, d, firstId);
            && Sorted(arr) && LettersOf(arr) <= {c, d}
            && !Accepts(Built(arr, firstId).nodes, Built(arr, firstId).root, arr[2])
  {
    hide Sorted, LettersOf, Built, Misled, Accepts, RunEnd, Repeated;
    var arr := Collision(c, d, firstId);
    CollisionIsSorted(c, d, firstId);
    CollisionMisleads(c, d, firstId);
    MisledLosesWord(Built(arr, firstId), c, d, firstId, RunEnd(d, firstId), arr[2][2..]);
    assert arr[2] == [d, d] + arr[2][2..];
  }

  lemma ThreeWords(arr: seq<Word>, firstId: nat)
    requires |arr| == 3
    ensures Built(arr, firstId) ==
            FoldTo(Inserted(Inserted(Inserted(NewState(firstId), [], arr[0]), arr[0], arr[1]), arr[1], arr[2]), 0)
  {
    hide BuiltFrom, Inserted, FoldTo;
    assert arr[0..] == arr;
    BuiltFromStep(NewState(firstId), [], arr, 0);
    var s1 := Inserted(NewState(firstId), [], arr[0]);
    BuiltFromStep(s1, arr[0], arr, 1);
    var s2 := Inserted(s1, arr[0], arr[1]);
    BuiltFromStep(s2, arr[1], arr, 2);
    BuiltFromEnd(Inserted(s2, arr[1], arr[2]), arr[2], arr[3..]);
  }
}
