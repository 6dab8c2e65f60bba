/**
 Wildcard lookup: a query string becomes a small cyclic automaton, which is intersected with the
 index automaton; the words of the result are then listed.
 */
module TokenSetSearch {
  import opened TokenSet
  import opened TokenSetKey
  import opened TokenSetBuilder
  import opened TokenSetCollision
  import opened TokenSetExact
  import opened Options

  // ---------------------------------------------------------------------------------------------
  // Query automata and the patterns they stand for
  // ---------------------------------------------------------------------------------------------

  /** Reading a query automaton: an edge labelled `*` may be taken on any code unit. */
  predicate QAccepts(st: Store, q: nat, w: Word)
    decreases |w|
  {
    && q in st
    && if w == [] then st[q].final
       else || (w[0] in st[q].edges && QAccepts(st, st[q].edges[w[0]], w[1..]))
            || (STAR in st[q].edges && QAccepts(st, st[q].edges[STAR], w[1..]))
  }

  /** The reference meaning of a query string: `*` stands for any string, other units for themselves. */
  predicate Glob(p: Word, w: Word)
    decreases |p| + |w|
  {
    if p == [] then w == []
    else if p[0] == STAR then Glob(p[1..], w) || (w != [] && Glob(p, w[1..]))
    else w != [] && w[0] == p[0] && Glob(p[1..], w[1..])
  }

  lemma {:induction false} StarMatchesAll(w: Word)
    ensures Glob([STAR], w)
  {
    assert [STAR][1..] == [];
    if w != [] { StarMatchesAll(w[1..]); }
  }

  lemma {:induction false} DoubleStar(p: Word, w: Word)
    requires p != [] && p[0] == STAR
    ensures Glob([STAR] + p, w) == Glob(p, w)
    decreases |w|
  {
    var pp := [STAR] + p;
    assert pp[1..] == p;
    if w != [] { DoubleStar(p, w[1..]); }
  }

  /** The loop a `*` leaves on the node it is read at is still there for the unit that follows. */
  function Pending(str: Word, i: nat): Word
    requires i <= |str|
  {
    if i > 0 && str[i - 1] == STAR then [STAR] else []
  }

  /** Edges of the node in front of `str[i]`, when `str[i]` is not a star and leads to `next`. */
  function LiteralEdges(str: Word, i: nat, here: nat, next: nat): map<Unit, nat>
    requires i < |str|
  {
    (if Pending(str, i) == [] then map[] else map[STAR := here])[str[i] := next]
  }

  function LastEdges(str: Word, i: nat, here: nat): map<Unit, nat>
    requires i <= |str|
  {
    if Pending(str, i) == [] then map[] else map[STAR := here]
  }

  /** `at[j]` is the node reached after `j` units of `str`; the first `i` units have been read. */
  ghost predicate PatternChain(st: Store, at: seq<nat>, str: Word, i: nat) {
    && i <= |str| && |at| == i + 1
    && (forall j :: 0 <= j <= i ==> at[j] in st)
    && (forall j, k :: 0 <= j <= k <= i ==> at[j] <= at[k])
    && (forall j {:trigger str[j]} :: 0 <= j < i && str[j] == STAR ==> at[j + 1] == at[j])
    && (forall j {:trigger str[j]} :: 0 <= j < i && str[j] != STAR ==>
          && at[j] < at[j + 1]
          && !st[at[j]].final && st[at[j]].edges == LiteralEdges(str, j, at[j], at[j + 1]))
    && st[at[i]].edges == LastEdges(str, i, at[i])
    && st[at[i]].final == (0 < i == |str|)
  }

  lemma {:induction false} LoopAcceptsAll(st: Store, q: nat, w: Word)
    requires q in st && st[q].final && STAR in st[q].edges && st[q].edges[STAR] == q
    ensures QAccepts(st, q, w)
    decreases |w|
  {
    if w != [] { LoopAcceptsAll(st, q, w[1..]); }
  }

  /** The node in front of `str[i..]` accepts what the rest of the pattern, with its pending star, matches. */
  lemma {:induction false} ChainMatchesGlob(st: Store, at: seq<nat>, str: Word, i: nat, w: Word)
    requires PatternChain(st, at, str, |str|) && str != [] && i <= |str|
    ensures QAccepts(st, at[i], w) <==> Glob(Pending(str, i) + str[i..], w)
    decreases |str| - i, |w|
  {
    var pat := Pending(str, i) + str[i..];
    if i == |str| {
      if Pending(str, i) == [] {
        assert pat == [];
      } else {
        assert pat == [STAR];
        StarMatchesAll(w);
        LoopAcceptsAll(st, at[i], w);
      }
    } else if str[i] == STAR {
      ChainMatchesGlob(st, at, str, i + 1, w);
      assert Pending(str, i + 1) + str[i + 1..] == str[i..];
      if Pending(str, i) == [] {
        assert pat == str[i..];
      } else {
        DoubleStar(str[i..], w);
      }
    } else {
      LiteralStep(st, at, str, i, w);
    }
  }

  lemma LiteralNode(st: Store, at: seq<nat>, str: Word, i: nat)
    requires PatternChain(st, at, str, |str|) && i < |str| && str[i] != STAR
    ensures |at| == |str| + 1 && at[i] in st && !st[at[i]].final
    ensures str[i] in st[at[i]].edges && st[at[i]].edges[str[i]] == at[i + 1]
    ensures STAR in st[at[i]].edges <==> Pending(str, i) == [STAR]
    ensures STAR in st[at[i]].edges ==> st[at[i]].edges[STAR] == at[i]
    ensures forall c :: c in st[at[i]].edges ==> c == str[i] || c == STAR
  {}

  lemma {:induction false} LiteralStep(st: Store, at: seq<nat>, str: Word, i: nat, w: Word)
    requires PatternChain(st, at, str, |str|) && i < |str| && str[i] != STAR
    ensures QAccepts(st, at[i], w) <==> Glob(Pending(str, i) + str[i..], w)
    decreases |str| - i, |w|, 0
  {
    hide PatternChain;
    LiteralNode(st, at, str, i);
    var pat := Pending(str, i) + str[i..];
    var q := at[i];
    assert str[i..][1..] == str[i + 1..] && str[i..][0] == str[i];
    assert Pending(str, i + 1) + str[i + 1..] == str[i + 1..];
    if w == [] {
      if Pending(str, i) == [] { assert pat == str[i..]; } else { assert pat[1..] == str[i..]; }
    } else {
      assert w[0] == str[i] ==> st[q].edges[w[0]] == at[i + 1];
      if w[0] == str[i] { ChainMatchesGlob(st, at, str, i + 1, w[1..]); }
      if Pending(str, i) == [] {
        assert pat == str[i..];
      } else {
        assert pat[1..] == str[i..] && pat[0] == STAR;
        LiteralStep(st, at, str, i, w[1..]);
      }
    }
  }

  /** A store without dangling references whose identifiers lie below `nextId`. */
  ghost predicate Heap(st: Store, nextId: nat) {
    Closed(st, st.Keys) && forall n :: n in st ==> n < nextId
  }

  ghost predicate Untouched(st: Store, st': Store) {
    st.Keys <= st'.Keys && forall n :: n in st ==> st'[n] == st[n]
  }

  function AfterStar(st: Store, n: nat, last: bool): Store
    requires n in st
  {
    st[n := Node(last, st[n].edges[STAR := n], st[n].str)]
  }

  function AfterLiteral(st: Store, n: nat, c: Unit, next: nat, last: bool): Store
    requires n in st
  {
    st[next := Node(last, map[], None)][n := Node(st[n].final, st[n].edges[c := next], st[n].str)]
  }

  lemma {:induction false} StarGrows(st: Store, at: seq<nat>, str: Word, i: nat)
    requires PatternChain(st, at, str, i) && i < |str| && str[i] == STAR
    ensures PatternChain(AfterStar(st, at[i], i == |str| - 1), at + [at[i]], str, i + 1)
  {
    var st', at' := AfterStar(st, at[i], i == |str| - 1), at + [at[i]];
    forall j | 0 <= j < i + 1 && str[j] != STAR
      ensures at'[j] < at'[j + 1] && !st'[at'[j]].final && st'[at'[j]].edges == LiteralEdges(str, j, at'[j], at'[j + 1])
    {
      assert at[j] < at[j + 1] <= at[i];
    }
  }

  lemma {:induction false} LiteralGrows(st: Store, nextId: nat, at: seq<nat>, str: Word, i: nat)
    requires PatternChain(st, at, str, i) && i < |str| && str[i] != STAR && forall n :: n in st ==> n < nextId
    ensures PatternChain(AfterLiteral(st, at[i], str[i], nextId, i == |str| - 1), at + [nextId], str, i + 1)
  {
    var st', at' := AfterLiteral(st, at[i], str[i], nextId, i == |str| - 1), at + [nextId];
    assert at[i] < nextId;
    forall j | 0 <= j < i + 1 && str[j] != STAR
      ensures at'[j] < at'[j + 1] && !st'[at'[j]].final && st'[at'[j]].edges == LiteralEdges(str, j, at'[j], at'[j + 1])
    {
      if j < i { assert at[j] < at[j + 1] <= at[i]; }
    }
  }

  lemma ChainFacts(st: Store, at: seq<nat>, str: Word, i: nat)
    requires PatternChain(st, at, str, i)
    ensures |at| == i + 1 && at[i] in st && (i == 0 ==> st[at[0]].edges == map[])
  {}

  lemma EmptyChain(st: Store, root: nat, str: Word)
    requires root in st && st[root] == EMPTY_NODE
    ensures PatternChain(st, [root], str, 0)
  {}

  /** Turns a query string into its automaton. */
  method FromString(st: Store, nextId: nat, str: Word) returns (st': Store, nextId': nat, root: nat)
    requires Heap(st, nextId)
    ensures Heap(st', nextId') && Untouched(st, st') && root in st'
    ensures forall w: Word :: str != [] || w != [] ==> (QAccepts(st', root, w) <==> Glob(str, w))
  {
    hide PatternChain;
    root := nextId;
    st', nextId' := st[root := EMPTY_NODE], nextId + 1;
    var node := root;
    ghost var at := [root];
    EmptyChain(st', root, str);
    var i := 0;
    while i < |str|
      invariant 0 <= i <= |str|
      invariant PatternChain(st', at, str, i) && |at| == i + 1 && at[0] == root && at[i] == node && nextId <= node
      invariant Heap(st', nextId') && Untouched(st, st') && root in st'
    {
      ChainFacts(st', at, str, i);
      var c, final := str[i], i == |str| - 1;
      if c == STAR {
        StarGrows(st', at, str, i);
        st' := st'[node := Node(final, st'[node].edges[c := node], st'[node].str)];
      } else {
        LiteralGrows(st', nextId', at, str, i);
        var next := nextId';
        nextId' := nextId' + 1;
        st' := st'[next := Node(final, map[], None)];
        st' := st'[node := Node(st'[node].final, st'[node].edges[c := next], st'[node].str)];
        node := next;
      }
      at := at + [node];
      i := i + 1;
    }
    ChainFacts(st', at, str, i);
    if str != [] {
      forall w: Word ensures QAccepts(st', root, w) <==> Glob(str, w) {
        ChainMatchesGlob(st', at, str, 0, w);
        assert Pending(str, 0) + str[0..] == str;
      }
    }
  }

  // ---------------------------------------------------------------------------------------------
  // Intersection
  // ---------------------------------------------------------------------------------------------

  /** Work item: intersect what follows `node` with what follows `qNode`, into `output`. */
  datatype Frame = Frame(qNode: nat, output: nat, node: nat)

  /** Two edges that can be taken together. */
  datatype Pair = Pair(qEdge: Unit, nEdge: Unit, qNode: nat, node: nat)

  ghost function Pairs(st: Store, q: nat, n: nat): set<Pair>
    requires q in st && n in st
  {
    set e, c | e in st[q].edges && c in st[n].edges && (c == e || e == STAR) ::
      Pair(e, c, st[q].edges[e], st[n].edges[c])
  }

  /** A word both automata read from the given nodes. */
  predicate Both(st: Store, n: nat, q: nat, w: Word) { Accepts(st, n, w) && QAccepts(st, q, w) }

  /** `w` is still to be found behind a pair of nodes that stands for the prefix `p`. */
  predicate Behind(st: Store, n: nat, q: nat, p: Word, w: Word) {
    |p| <= |w| && w[..|p|] == p && Both(st, n, q, w[|p|..])
  }

  /** A non-empty common word starts with a pair of edges. */
  lemma {:induction false} CommonWordStarts(st: Store, n: nat, q: nat, w: Word) returns (t: Pair)
    requires n in st && q in st && w != [] && Both(st, n, q, w)
    ensures t in Pairs(st, q, n) && t.nEdge == w[0] && Both(st, t.node, t.qNode, w[1..])
  {
    var c := w[0];
    if c in st[q].edges && QAccepts(st, st[q].edges[c], w[1..]) {
      t := Pair(c, c, st[q].edges[c], st[n].edges[c]);
    } else {
      t := Pair(STAR, c, st[q].edges[STAR], st[n].edges[c]);
    }
  }

  lemma {:induction false} PairExtends(st: Store, n: nat, q: nat, t: Pair, w: Word)
    requires n in st && q in st && t in Pairs(st, q, n) && Both(st, t.node, t.qNode, w)
    ensures Both(st, n, q, [t.nEdge] + w)
  {
    assert ([t.nEdge] + w)[1..] == w;
  }

  /** The output nodes form a tree: `tree[p]` is the one reached by reading `p` from the output root. */
  ghost predicate OutputTree(st0: Store, st: Store, tree: map<Word, nat>) {
    && [] in tree
    && (forall p :: p in tree ==> tree[p] in st && tree[p] !in st0)
    && (forall p, r :: p in tree && r in tree && tree[p] == tree[r] ==> p == r)
    && (forall p, c: Unit {:trigger p + [c]} :: p + [c] in tree ==> p in tree)
    && (forall p, c: Unit {:trigger p + [c]} :: p in tree ==> (c in st[tree[p]].edges <==> p + [c] in tree))
    && (forall p, c: Unit {:trigger p + [c]} :: p in tree && c in st[tree[p]].edges ==>
        st[tree[p]].edges[c] == tree[p + [c]])
  }

  /** Reading the output tree. */
  lemma {:induction false} TreeAccepts(st0: Store, st: Store, tree: map<Word, nat>, p: Word, w: Word)
    requires OutputTree(st0, st, tree) && p in tree
    ensures Accepts(st, tree[p], w) <==> p + w in tree && st[tree[p + w]].final
    decreases |w|
  {
    if w == [] {
      assert p + [] == p;
    } else {
      assert p + w == (p + [w[0]]) + w[1..];
      if p + [w[0]] in tree {
        TreeAccepts(st0, st, tree, p + [w[0]], w[1..]);
      } else if (p + [w[0]]) + w[1..] in tree {
        TreePrefix(st0, st, tree, p + [w[0]], w[1..]);
      }
    }
  }

  lemma {:induction false} TreePrefix(st0: Store, st: Store, tree: map<Word, nat>, p: Word, w: Word)
    requires OutputTree(st0, st, tree) && p + w in tree
    ensures p in tree
    decreases |w|
  {
    if w == [] {
      assert p + [] == p;
    } else {
      var l := |w| - 1;
      assert p + w == (p + w[..l]) + [w[l]];
      TreePrefix(st0, st, tree, p, w[..l]);
    }
  }

  /** The output node for label `c` behind `out`: the existing one, or a new one. */
  function Target(st: Store, nextId: nat, out: nat, c: Unit): nat
    requires out in st
  {
    if c in st[out].edges then st[out].edges[c] else nextId
  }

  /** Makes sure `out` has an edge labelled `c`, and marks its target final if asked to. */
  function Linked(st: Store, nextId: nat, out: nat, c: Unit, final: bool): Store
    requires out in st && Target(st, nextId, out, c) in st.Keys + {nextId}
  {
    var k := Target(st, nextId, out, c);
    if c in st[out].edges && k in st then
      st[k := Node(st[k].final || final, st[k].edges, st[k].str)]
    else
      st[nextId := Node(final, map[], None)][out := Node(st[out].final, st[out].edges[c := nextId], st[out].str)]
  }

  lemma {:induction false} LinkKeepsTree(st0: Store, st: Store, nextId: nat, tree: map<Word, nat>, p: Word, c: Unit,
                                         final: bool)
    requires OutputTree(st0, st, tree) && Heap(st, nextId) && st0.Keys <= st.Keys && p in tree
    ensures tree[p] in st && Target(st, nextId, tree[p], c) in st.Keys + {nextId}
    ensures var tree' := tree[p + [c] := Target(st, nextId, tree[p], c)];
            var st' := Linked(st, nextId, tree[p], c, final);
            && OutputTree(st0, st', tree')
            && (forall r :: r in tree && r != p + [c] ==> st'[tree[r]].final == st[tree[r]].final)
            && st'[tree'[p + [c]]].final == (final || (p + [c] in tree && st[tree[p + [c]]].final))
  {
    var out := tree[p];
    var st' := Linked(st, nextId, out, c, final);
    var tree' := tree[p + [c] := Target(st, nextId, out, c)];
    if c in st[out].edges {
      assert tree' == tree;
    } else {
      assert p + [c] !in tree;
      assert nextId !in st;
      forall r, d: Unit | r + [d] in tree' ensures r in tree' {
        if r + [d] == p + [c] { LastOf(r, d, p, c); }
      }
      forall r, d: Unit | r in tree'
        ensures d in st'[tree'[r]].edges <==> r + [d] in tree'
        ensures d in st'[tree'[r]].edges ==> st'[tree'[r]].edges[d] == tree'[r + [d]]
      {
        if r + [d] == p + [c] { LastOf(r, d, p, c); }
      }
    }
  }

  lemma LastOf(r: Word, d: Unit, p: Word, c: Unit)
    requires r + [d] == p + [c]
    ensures r == p && d == c
  {
    assert (r + [d])[..|r|] == r && (p + [c])[..|p|] == p;
    assert (r + [d])[|r|] == d && (p + [c])[|p|] == c;
  }

  /** Linking touches only output nodes and leaves no dangling reference. */
  lemma {:induction false} LinkKeepsHeap(st0: Store, st: Store, nextId: nat, tree: map<Word, nat>, p: Word, c: Unit,
                                         final: bool)
    requires OutputTree(st0, st, tree) && Heap(st, nextId) && Untouched(st0, st) && p in tree
    ensures tree[p] in st && Target(st, nextId, tree[p], c) in st.Keys + {nextId}
    ensures var st' := Linked(st, nextId, tree[p], c, final);
            && Heap(st', if c in st[tree[p]].edges then nextId else nextId + 1)
            && Untouched(st0, st')
  {
    var out := tree[p];
    var st' := Linked(st, nextId, out, c, final);
    assert c in st[out].edges ==> st[out].edges[c] == tree[p + [c]];
    forall n, e | n in st' && e in st'[n].edges ensures st'[n].edges[e] in st' {
      if n in st && e in st[n].edges { assert st[n].edges[e] in st; }
    }
  }

  /** The two automata to intersect: `node` in the ranked part of the store, `query` anywhere in it. */
  datatype Problem = Problem(st: Store, rank: map<nat, nat>, node: nat, query: nat)

  ghost predicate Posed(pr: Problem) {
    && Closed(pr.st, pr.st.Keys)
    && Ranked(pr.st, pr.rank.Keys, pr.rank)
    && pr.node in pr.rank && pr.query in pr.st
  }

  /** The words looked for. */
  ghost predicate Wanted(pr: Problem, w: Word) { w != [] && Both(pr.st, pr.node, pr.query, w) }

  /** A frame stands for prefix `p`: what it finds, after `p`, is wanted; it lies within the rank. */
  ghost predicate FrameOk(pr: Problem, tree: map<Word, nat>, f: Frame, p: Word)
    requires Posed(pr)
  {
    && p in tree && tree[p] == f.output
    && f.node in pr.rank && f.qNode in pr.st
    && |p| + pr.rank[f.node] <= pr.rank[pr.node]
    && forall v: Word {:trigger Both(pr.st, f.node, f.qNode, v)} ::
         v != [] && Both(pr.st, f.node, f.qNode, v) ==> Wanted(pr, p + v)
  }

  ghost predicate PairOk(pr: Problem, t: Pair, p: Word)
    requires Posed(pr)
  {
    && t.node in pr.rank && t.qNode in pr.st
    && |p| + 1 + pr.rank[t.node] <= pr.rank[pr.node]
    && forall v: Word {:trigger Both(pr.st, t.node, t.qNode, v)} ::
         Both(pr.st, t.node, t.qNode, v) ==> Wanted(pr, (p + [t.nEdge]) + v)
  }

  ghost predicate FramesOk(pr: Problem, tree: map<Word, nat>, stack: seq<Frame>, paths: seq<Word>)
    requires Posed(pr)
  {
    |stack| == |paths| && forall i :: 0 <= i < |stack| ==> FrameOk(pr, tree, stack[i], paths[i])
  }

  /** Everything the output accepts so far is wanted. */
  ghost predicate Sound(pr: Problem, st: Store, tree: map<Word, nat>)
    requires Posed(pr) && OutputTree(pr.st, st, tree)
  {
    forall p :: p in tree ==> |p| <= pr.rank[pr.node] && (st[tree[p]].final ==> Wanted(pr, p))
  }

  ghost predicate FoundBy(pr: Problem, stack: seq<Frame>, paths: seq<Word>, w: Word)
    requires |stack| == |paths|
  {
    exists i :: 0 <= i < |stack| && |w| > |paths[i]| && Behind(pr.st, stack[i].node, stack[i].qNode, paths[i], w)
  }

  ghost predicate FoundIn(pr: Problem, todo: set<Pair>, p: Word, w: Word) {
    exists t :: t in todo && Behind(pr.st, t.node, t.qNode, p + [t.nEdge], w)
  }

  /** No wanted word is lost: the output accepts it, or a frame or a pair of the open frame will find it. */
  ghost predicate Complete(pr: Problem, st: Store, tree: map<Word, nat>, stack: seq<Frame>, paths: seq<Word>,
                           todo: set<Pair>, p: Word)
    requires OutputTree(pr.st, st, tree) && |stack| == |paths|
  {
    forall w :: Wanted(pr, w) ==>
                  (w in tree && st[tree[w]].final) || FoundBy(pr, stack, paths, w) || FoundIn(pr, todo, p, w)
  }

  /** Opening a frame replaces it by its pairs. */
  lemma {:induction false} OpenFrame(pr: Problem, st: Store, tree: map<Word, nat>, stack: seq<Frame>, paths: seq<Word>,
                                     f: Frame, p: Word)
    requires Posed(pr) && OutputTree(pr.st, st, tree) && |stack| == |paths|
    requires FrameOk(pr, tree, f, p)
    requires Complete(pr, st, tree, stack + [f], paths + [p], {}, p)
    ensures Complete(pr, st, tree, stack, paths, Pairs(pr.st, f.qNode, f.node), p)
    ensures forall t :: t in Pairs(pr.st, f.qNode, f.node) ==> PairOk(pr, t, p)
  {
    var all := Pairs(pr.st, f.qNode, f.node);
    forall w | Wanted(pr, w) && !(w in tree && st[tree[w]].final) && !FoundBy(pr, stack, paths, w)
      ensures FoundIn(pr, all, p, w)
    {
      assert FoundBy(pr, stack + [f], paths + [p], w);
      var i :| 0 <= i < |stack| + 1 && |w| > |(paths + [p])[i]|
               && Behind(pr.st, (stack + [f])[i].node, (stack + [f])[i].qNode, (paths + [p])[i], w);
      assert i < |stack| ==> FoundBy(pr, stack, paths, w);
      var t := CommonWordStarts(pr.st, f.node, f.qNode, w[|p|..]);
      assert w[|p|..][1..] == w[|p + [t.nEdge]|..] && w[..|p| + 1] == p + [t.nEdge];
      assert Behind(pr.st, t.node, t.qNode, p + [t.nEdge], w);
    }
    forall t | t in all ensures PairOk(pr, t, p) {
      assert pr.st[f.node].edges[t.nEdge] == t.node;
      forall v: Word | Both(pr.st, t.node, t.qNode, v) ensures Wanted(pr, (p + [t.nEdge]) + v) {
        PairExtends(pr.st, f.node, f.qNode, t, v);
        assert p + ([t.nEdge] + v) == (p + [t.nEdge]) + v;
      }
    }
  }

  /** Linking one pair and pushing its frame does the pair's share of the work. */
  lemma {:induction false} LinkPair(pr: Problem, st: Store, nextId: nat, tree: map<Word, nat>, stack: seq<Frame>,
                                    paths: seq<Word>,
                                    todo: set<Pair>, p: Word, t: Pair)
    requires Posed(pr) && OutputTree(pr.st, st, tree) && Heap(st, nextId) && Untouched(pr.st, st)
    requires FramesOk(pr, tree, stack, paths) && Sound(pr, st, tree)
    requires t in todo && PairOk(pr, t, p) && p in tree && tree[p] in st
    requires Complete(pr, st, tree, stack, paths, todo, p)
    ensures Target(st, nextId, tree[p], t.nEdge) in st.Keys + {nextId}
    ensures var k := Target(st, nextId, tree[p], t.nEdge);
            var tree' := tree[p + [t.nEdge] := k];
            var st' := Linked(st, nextId, tree[p], t.nEdge, pr.st[t.node].final && pr.st[t.qNode].final);
            var stack', paths' := stack + [Frame(t.qNode, k, t.node)], paths + [p + [t.nEdge]];
            && OutputTree(pr.st, st', tree')
            && FramesOk(pr, tree', stack', paths') && Sound(pr, st', tree')
            && Complete(pr, st', tree', stack', paths', todo - {t}, p)
  {
    var c := t.nEdge;
    var pc := p + [c];
    var final := pr.st[t.node].final && pr.st[t.qNode].final;
    LinkKeepsTree(pr.st, st, nextId, tree, p, c, final);
    var k := Target(st, nextId, tree[p], c);
    var tree' := tree[pc := k];
    var st' := Linked(st, nextId, tree[p], c, final);
    var stack', paths' := stack + [Frame(t.qNode, k, t.node)], paths + [pc];
    LinkedFrames(pr, st, nextId, tree, stack, paths, p, t);
    assert Sound(pr, st', tree') by {
      if final {
        assert Both(pr.st, t.node, t.qNode, []);
        assert pc + [] == pc;
      }
    }
    LinkedComplete(pr, st, tree, st', tree', stack, paths, todo, p, t, k);
  }

  lemma {:induction false} LinkedFrames(pr: Problem, st: Store, nextId: nat, tree: map<Word, nat>, stack: seq<Frame>,
                                        paths: seq<Word>, p: Word, t: Pair)
    requires Posed(pr) && OutputTree(pr.st, st, tree) && p in tree && tree[p] in st
    requires FramesOk(pr, tree, stack, paths) && PairOk(pr, t, p)
    ensures var k := Target(st, nextId, tree[p], t.nEdge);
            FramesOk(pr, tree[p + [t.nEdge] := k], stack + [Frame(t.qNode, k, t.node)], paths + [p + [t.nEdge]])
  {
    var pc := p + [t.nEdge];
    var k := Target(st, nextId, tree[p], t.nEdge);
    var tree' := tree[pc := k];
    assert pc in tree ==> tree[pc] == k;
    forall i | 0 <= i < |stack| ensures FrameOk(pr, tree', stack[i], paths[i]) {
      assert FrameOk(pr, tree, stack[i], paths[i]);
    }
    assert FrameOk(pr, tree', Frame(t.qNode, k, t.node), pc);
  }

  lemma {:induction false} LinkedComplete(pr: Problem, st: Store, tree: map<Word, nat>, st': Store,
                                          tree': map<Word, nat>, stack: seq<Frame>, paths: seq<Word>,
                                          todo: set<Pair>, p: Word, t: Pair, k: nat)
    requires OutputTree(pr.st, st, tree) && OutputTree(pr.st, st', tree') && |stack| == |paths|
    requires t in todo && t.node in pr.st && t.qNode in pr.st
    requires tree' == tree[p + [t.nEdge] := k] && (p + [t.nEdge] in tree ==> tree[p + [t.nEdge]] == k)
    requires forall r :: r in tree && r != p + [t.nEdge] ==> st'[tree'[r]].final == st[tree[r]].final
    requires st'[tree'[p + [t.nEdge]]].final <==>
               || (pr.st[t.node].final && pr.st[t.qNode].final)
               || (p + [t.nEdge] in tree && st[tree[p + [t.nEdge]]].final)
    requires Complete(pr, st, tree, stack, paths, todo, p)
    ensures Complete(pr, st', tree', stack + [Frame(t.qNode, k, t.node)], paths + [p + [t.nEdge]], todo - {t}, p)
  {
    var pc := p + [t.nEdge];
    var stack', paths' := stack + [Frame(t.qNode, k, t.node)], paths + [pc];
    forall w | Wanted(pr, w) && !FoundIn(pr, todo - {t}, p, w)
      ensures (w in tree' && st'[tree'[w]].final) || FoundBy(pr, stack', paths', w)
    {
      if w in tree && st[tree[w]].final {
        assert st'[tree'[w]].final;
      } else if FoundBy(pr, stack, paths, w) {
        var i :| 0 <= i < |stack| && |w| > |paths[i]| && Behind(pr.st, stack[i].node, stack[i].qNode, paths[i], w);
        assert stack'[i] == stack[i] && paths'[i] == paths[i];
      } else {
        assert FoundIn(pr, todo, p, w);
        var u :| u in todo && Behind(pr.st, u.node, u.qNode, p + [u.nEdge], w);
        assert u == t;
        if |w| == |pc| {
          assert w == pc && w[|pc|..] == [];
        } else {
          assert stack'[|stack|] == Frame(t.qNode, k, t.node) && paths'[|stack|] == pc;
        }
      }
    }
  }

  // ---------------------------------------------------------------------------------------------
  // Termination: the index side of every new frame has a smaller rank
  // ---------------------------------------------------------------------------------------------

  /** Upper bound for the number of frames that can follow from one of rank `r` with fan-out `b`. */
  ghost function Weight(b: nat, r: nat): nat {
    if r == 0 then 1 else 1 + b * Weight(b, r - 1)
  }

  lemma {:induction false} WeightMonotone(b: nat, r: nat, r': nat)
    requires r <= r'
    ensures 1 <= Weight(b, r) <= Weight(b, r')
    decreases r'
  {
    if r == 0 {
      if r' > 0 { WeightMonotone(b, 0, r' - 1); }
    } else {
      WeightMonotone(b, r - 1, r' - 1);
      ScaleMonotone(b, Weight(b, r - 1), Weight(b, r' - 1));
    }
  }

  lemma ScaleMonotone(b: nat, x: nat, y: nat)
    requires x <= y
    ensures b * x <= b * y
  {}

  ghost function Load(b: nat, ranks: seq<nat>): nat {
    if ranks == [] then 0 else Load(b, ranks[..|ranks| - 1]) + Weight(b, ranks[|ranks| - 1])
  }

  lemma LoadPush(b: nat, ranks: seq<nat>, r: nat)
    ensures Load(b, ranks + [r]) == Load(b, ranks) + Weight(b, r)
  {
    assert (ranks + [r])[..|ranks|] == ranks;
  }

  /** Some number bounds the fan-out of all pairs of nodes. */
  lemma {:induction false} FanOutBounded(st: Store, nodes: set<(nat, nat)>) returns (b: nat)
    requires forall x :: x in nodes ==> x.0 in st && x.1 in st
    ensures forall x :: x in nodes ==> |Pairs(st, x.0, x.1)| <= b
    decreases |nodes|
  {
    if nodes == {} {
      b := 0;
    } else {
      var y :| y in nodes;
      var b' := FanOutBounded(st, nodes - {y});
      var k := |Pairs(st, y.0, y.1)|;
      b := if b' <= k then k else b';
    }
  }

  /** The state of an intersection: output, open work, and the pairs of the frame being expanded. */
  ghost predicate Run(pr: Problem, st: Store, nextId: nat, tree: map<Word, nat>, stack: seq<Frame>, paths: seq<Word>,
                      ranks: seq<nat>, todo: set<Pair>, p: Word)
  {
    && Posed(pr) && Heap(st, nextId) && Untouched(pr.st, st)
    && OutputTree(pr.st, st, tree)
    && FramesOk(pr, tree, stack, paths)
    && |ranks| == |stack| && (forall i :: 0 <= i < |stack| ==>
              stack[i].node in pr.rank && ranks[i] == pr.rank[stack[i].node])
    && Sound(pr, st, tree)
    && p in tree && (forall t :: t in todo ==> PairOk(pr, t, p))
    && Complete(pr, st, tree, stack, paths, todo, p)
  }

  lemma {:induction false} RunStart(pr: Problem, st: Store, nextId: nat, out: nat)
    requires Posed(pr) && Heap(pr.st, out) && nextId == out + 1 && st == pr.st[out := EMPTY_NODE]
    ensures Run(pr, st, nextId, map[[] := out], [Frame(pr.query, out, pr.node)], [[]], [pr.rank[pr.node]], {}, [])
  {
    var tree: map<Word, nat> := map[[] := out];
    var f := Frame(pr.query, out, pr.node);
    assert OutputTree(pr.st, st, tree);
    assert FrameOk(pr, tree, f, []) by {
      forall v: Word | v != [] && Both(pr.st, f.node, f.qNode, v) ensures Wanted(pr, [] + v) {
        assert [] + v == v;
      }
    }
    forall w | Wanted(pr, w) ensures FoundBy(pr, [f], [[]], w) {
      assert w[..0] == [] && w[0..] == w;
      assert Behind(pr.st, [f][0].node, [f][0].qNode, [[]][0], w);
    }
  }

  lemma {:induction false} RunOpen(pr: Problem, st: Store, nextId: nat, tree: map<Word, nat>, stack: seq<Frame>,
                                   paths: seq<Word>,
                                   ranks: seq<nat>, q: Word)
    requires Run(pr, st, nextId, tree, stack, paths, ranks, {}, q) && stack != []
    ensures |paths| == |ranks| == |stack|
    ensures var l := |stack| - 1;
            && stack[l].qNode in pr.st && stack[l].node in pr.st
            && paths[l] in tree && tree[paths[l]] == stack[l].output
            && stack[l].node in pr.rank && ranks[l] == pr.rank[stack[l].node]
            && Run(pr, st, nextId, tree, stack[..l], paths[..l], ranks[..l],
                   Pairs(pr.st, stack[l].qNode, stack[l].node), paths[l])
  {
    hide OutputTree;
    var l := |stack| - 1;
    assert stack == stack[..l] + [stack[l]] && paths == paths[..l] + [paths[l]];
    assert FrameOk(pr, tree, stack[l], paths[l]);
    assert Complete(pr, st, tree, stack, paths, {}, paths[l]) by {
      assert forall w :: !FoundIn(pr, {}, q, w);
    }
    OpenFrame(pr, st, tree, stack[..l], paths[..l], stack[l], paths[l]);
  }

  lemma {:induction false} RunLink(pr: Problem, st: Store, nextId: nat, tree: map<Word, nat>, stack: seq<Frame>,
                                   paths: seq<Word>,
                                   ranks: seq<nat>, todo: set<Pair>, p: Word, t: Pair)
    requires Run(pr, st, nextId, tree, stack, paths, ranks, todo, p) && t in todo
    ensures p in tree && tree[p] in st && Target(st, nextId, tree[p], t.nEdge) in st.Keys + {nextId}
    ensures t.node in pr.rank && t.node in pr.st && t.qNode in pr.st && Untouched(pr.st, st)
    ensures t.nEdge in st[tree[p]].edges ==> st[tree[p]].edges[t.nEdge] in st
    ensures var k := Target(st, nextId, tree[p], t.nEdge);
            Run(pr, Linked(st, nextId, tree[p], t.nEdge, pr.st[t.node].final && pr.st[t.qNode].final),
                if t.nEdge in st[tree[p]].edges then nextId else nextId + 1,
                tree[p + [t.nEdge] := k], stack + [Frame(t.qNode, k, t.node)], paths + [p + [t.nEdge]],
                ranks + [pr.rank[t.node]], todo - {t}, p)
  {
    hide Complete, Sound, FramesOk;
    assert PairOk(pr, t, p);
    LinkPair(pr, st, nextId, tree, stack, paths, todo, p, t);
    LinkKeepsHeap(pr.st, st, nextId, tree, p, t.nEdge, pr.st[t.node].final && pr.st[t.qNode].final);
  }

  lemma {:induction false} RunDone(pr: Problem, st: Store, nextId: nat, tree: map<Word, nat>, paths: seq<Word>,
                                   ranks: seq<nat>, p: Word, w: Word)
    requires Run(pr, st, nextId, tree, [], paths, ranks, {}, p)
    ensures [] in tree && Heap(st, nextId) && Untouched(pr.st, st)
    ensures Accepts(st, tree[[]], w) <==> Wanted(pr, w)
  {
    TreeAccepts(pr.st, st, tree, [], w);
    assert [] + w == w;
    assert !FoundBy(pr, [], paths, w) && !FoundIn(pr, {}, p, w);
  }

  /** The output of a finished run is acyclic: depth in the tree is bounded by the rank. */
  lemma {:induction false} RunRanked(pr: Problem, st: Store, nextId: nat, tree: map<Word, nat>, stack: seq<Frame>,
                                     paths: seq<Word>,
                                     ranks: seq<nat>, todo: set<Pair>, p: Word) returns (rank: map<nat, nat>)
    requires Run(pr, st, nextId, tree, stack, paths, ranks, todo, p)
    ensures [] in tree && tree[[]] in rank && Ranked(st, rank.Keys, rank)
  {
    hide Complete, FramesOk;
    rank := map r | r in tree :: tree[r] := pr.rank[pr.node] - |r|;
    forall n, c | n in rank && c in st[n].edges
      ensures st[n].edges[c] in rank && rank[st[n].edges[c]] < rank[n]
    {
      var r :| r in tree && tree[r] == n;
      assert r + [c] in tree && st[n].edges[c] == tree[r + [c]];
    }
  }

  /** Every label of the node, once. */
  ghost predicate Enumerates(ks: seq<Unit>, m: map<Unit, nat>) {
    && (forall c :: c in ks <==> c in m)
    && (forall i, j :: 0 <= i < j < |ks| ==> ks[i] != ks[j])
  }

  /** `Object.keys`: every label once, in some order. */
  method ObjectKeys(m: map<Unit, nat>) returns (ks: seq<Unit>)
    ensures Enumerates(ks, m) && |ks| == |m|
  {
    ks := [];
    var rest := m.Keys;
    while rest != {}
      invariant rest <= m.Keys && |ks| + |rest| == |m.Keys|
      invariant forall c :: c in ks <==> c in m && c !in rest
      invariant forall i, j :: 0 <= i < j < |ks| ==> ks[i] != ks[j]
      decreases |rest|
    {
      var c :| c in rest;
      ks := ks + [c];
      rest := rest - {c};
    }
  }

  /** The pair belongs to row `q`, column `n` of the two nested loops, or comes later. */
  ghost predicate Later(t: Pair, qEdges: seq<Unit>, nEdges: seq<Unit>, q: nat, n: nat) {
    exists i, j {:trigger qEdges[i], nEdges[j]} ::
      && 0 <= i < |qEdges| && 0 <= j < |nEdges| && qEdges[i] == t.qEdge && nEdges[j] == t.nEdge
      && (q < i || (q == i && n <= j))
  }

  ghost function Remaining(all: set<Pair>, qEdges: seq<Unit>, nEdges: seq<Unit>, q: nat, n: nat): set<Pair> {
    set t | t in all && Later(t, qEdges, nEdges, q, n)
  }

  lemma {:induction false} RemainingStart(st: Store, f: Frame, qEdges: seq<Unit>, nEdges: seq<Unit>)
    requires f.qNode in st && f.node in st
    requires Enumerates(qEdges, st[f.qNode].edges) && Enumerates(nEdges, st[f.node].edges)
    ensures Remaining(Pairs(st, f.qNode, f.node), qEdges, nEdges, 0, 0) == Pairs(st, f.qNode, f.node)
  {
    forall t | t in Pairs(st, f.qNode, f.node) ensures Later(t, qEdges, nEdges, 0, 0) {
      assert t.qEdge in qEdges && t.nEdge in nEdges;
      var i :| 0 <= i < |qEdges| && qEdges[i] == t.qEdge;
      var j :| 0 <= j < |nEdges| && nEdges[j] == t.nEdge;
    }
  }

  lemma {:induction false} RemainingNextRow(all: set<Pair>, qEdges: seq<Unit>, nEdges: seq<Unit>, q: nat)
    ensures Remaining(all, qEdges, nEdges, q, |nEdges|) == Remaining(all, qEdges, nEdges, q + 1, 0)
  {
    forall t ensures Later(t, qEdges, nEdges, q, |nEdges|) <==> Later(t, qEdges, nEdges, q + 1, 0) {}
  }

  lemma {:induction false} RemainingEnd(all: set<Pair>, qEdges: seq<Unit>, nEdges: seq<Unit>)
    ensures Remaining(all, qEdges, nEdges, |qEdges|, 0) == {}
  {}

  lemma {:induction false} RemainingNextColumn(st: Store, f: Frame, qEdges: seq<Unit>, nEdges: seq<Unit>, q: nat,
                                               n: nat)
    requires f.qNode in st && f.node in st && q < |qEdges| && n < |nEdges|
    requires Enumerates(qEdges, st[f.qNode].edges) && Enumerates(nEdges, st[f.node].edges)
    ensures var all := Pairs(st, f.qNode, f.node);
            var e, c := qEdges[q], nEdges[n];
            if c == e || e == STAR then
              e in st[f.qNode].edges && c in st[f.node].edges
              && var t := Pair(e, c, st[f.qNode].edges[e], st[f.node].edges[c]);
                 t in Remaining(all, qEdges, nEdges, q, n)
                 && Remaining(all, qEdges, nEdges, q, n + 1) == Remaining(all, qEdges, nEdges, q, n) - {t}
            else
              Remaining(all, qEdges, nEdges, q, n + 1) == Remaining(all, qEdges, nEdges, q, n)
  {
    var all := Pairs(st, f.qNode, f.node);
    var e, c := qEdges[q], nEdges[n];
    assert e in qEdges && c in nEdges;
    forall t | t in all
      ensures Later(t, qEdges, nEdges, q, n + 1) <==> Later(t, qEdges, nEdges, q, n) && !(t.qEdge == e && t.nEdge == c)
    {
      if Later(t, qEdges, nEdges, q, n) {
        var i, j :| 0 <= i < |qEdges| && 0 <= j < |nEdges| && qEdges[i] == t.qEdge && nEdges[j] == t.nEdge
                    && (q < i || (q == i && n <= j));
      }
    }
    if c == e || e == STAR {
      var t := Pair(e, c, st[f.qNode].edges[e], st[f.node].edges[c]);
      assert t in all && Later(t, qEdges, nEdges, q, n);
    }
  }

  /** Work the remaining pairs of a frame can still cause. */
  ghost function Allowance(b: nat, r: nat, k: nat): nat { if r == 0 then 0 else k * Weight(b, r - 1) }

  lemma AllowanceStep(b: nat, r: nat, k: nat, r': nat)
    requires r' < r && k > 0
    ensures Weight(b, r') + Allowance(b, r, k - 1) <= Allowance(b, r, k)
  {
    WeightMonotone(b, r', r - 1);
    var x := Weight(b, r - 1);
    assert k * x == (k - 1) * x + x;
  }

  lemma AllowanceWithin(b: nat, r: nat, k: nat)
    requires k <= b
    ensures Allowance(b, r, k) < Weight(b, r)
  {
    if r > 0 {
      var x := Weight(b, r - 1);
      assert k * x <= b * x;
    }
  }

  /** One pair of edges: reuse or create the output node behind `nEdge`, and push its frame. */
  method LinkEdges(st: Store, nextId: nat, stack: seq<Frame>, frame: Frame, qEdge: Unit, nEdge: Unit)
    returns (st': Store, nextId': nat, stack': seq<Frame>)
    requires frame.node in st && frame.qNode in st && frame.output in st
    requires nEdge in st[frame.node].edges && st[frame.node].edges[nEdge] in st
    requires qEdge in st[frame.qNode].edges && st[frame.qNode].edges[qEdge] in st
    requires nEdge in st[frame.output].edges ==> st[frame.output].edges[nEdge] in st
    ensures var n, q := st[frame.node].edges[nEdge], st[frame.qNode].edges[qEdge];
            && st' == Linked(st, nextId, frame.output, nEdge, st[n].final && st[q].final)
            && nextId' == (if nEdge in st[frame.output].edges then nextId else nextId + 1)
            && stack' == stack + [Frame(q, Target(st, nextId, frame.output, nEdge), n)]
  {
    var node := st[frame.node].edges[nEdge];
    var qNode := st[frame.qNode].edges[qEdge];
    var final := st[node].final && st[qNode].final;
    var next;
    if nEdge in st[frame.output].edges {
      next, nextId' := st[frame.output].edges[nEdge], nextId;
      st' := st[next := Node(st[next].final || final, st[next].edges, st[next].str)];
    } else {
      next, nextId' := nextId, nextId + 1;
      st' := st[next := Node(final, map[], None)];
      var out := st[frame.output];
      st' := st'[frame.output := Node(out.final, out.edges[nEdge := next], out.str)];
    }
    stack' := stack + [Frame(qNode, next, node)];
  }

  /** Facts about a running intersection that the loops below rely on. */
  lemma RunFacts(pr: Problem, st: Store, nextId: nat, tree: map<Word, nat>, stack: seq<Frame>, paths: seq<Word>,
                 ranks: seq<nat>,
                 todo: set<Pair>, p: Word)
    requires Run(pr, st, nextId, tree, stack, paths, ranks, todo, p)
    ensures Untouched(pr.st, st) && p in tree && tree[p] in st && |ranks| == |paths| == |stack|
    ensures Closed(pr.st, pr.st.Keys) && pr.rank.Keys <= pr.st.Keys && Ranked(pr.st, pr.rank.Keys, pr.rank)
  {}

  /** Expands one frame: every pair of edges that can be taken together is linked into the output. */
  method Expand(ghost pr: Problem, st0: Store, nextId0: nat, stack0: seq<Frame>, frame: Frame, ghost b: nat,
                ghost tree0: map<Word, nat>, ghost paths0: seq<Word>, ghost ranks0: seq<nat>, ghost p: Word)
    returns (st: Store, nextId: nat, stack: seq<Frame>, ghost tree: map<Word, nat>, ghost paths: seq<Word>,
             ghost ranks: seq<nat>)
    requires frame.node in pr.rank && frame.node in pr.st && frame.qNode in pr.st
    requires p in tree0 && tree0[p] == frame.output
    requires Run(pr, st0, nextId0, tree0, stack0, paths0, ranks0, Pairs(pr.st, frame.qNode, frame.node), p)
    ensures Run(pr, st, nextId, tree, stack, paths, ranks, {}, p)
    ensures [] in tree0 && [] in tree && tree[[]] == tree0[[]]
    ensures Load(b, ranks) <=
              Load(b, ranks0) + Allowance(b, pr.rank[frame.node], |Pairs(pr.st, frame.qNode, frame.node)|)
  {
    hide Run, Pairs, Linked, Later, Remaining, Weight, Load, Allowance;
    ghost var all := Pairs(pr.st, frame.qNode, frame.node);
    ghost var r := pr.rank[frame.node];
    st, nextId, stack, tree, paths, ranks := st0, nextId0, stack0, tree0, paths0, ranks0;
    RunFacts(pr, st, nextId, tree, stack, paths, ranks, all, p);
    RootStays(pr, st, nextId, tree, stack, paths, ranks, all, p);
    var qEdges := ObjectKeys(st[frame.qNode].edges);
    var nEdges := ObjectKeys(st[frame.node].edges);
    RemainingStart(pr.st, frame, qEdges, nEdges);
    var q := 0;
    while q < |qEdges|
      invariant 0 <= q <= |qEdges|
      invariant Run(pr, st, nextId, tree, stack, paths, ranks, Remaining(all, qEdges, nEdges, q, 0), p)
      invariant p in tree && tree[p] == frame.output && [] in tree && tree[[]] == tree0[[]]
      invariant Load(b, ranks) + Allowance(b, r, |Remaining(all, qEdges, nEdges, q, 0)|) <=
                  Load(b, ranks0) + Allowance(b, r, |all|)
    {
      var n := 0;
      while n < |nEdges|
        invariant 0 <= n <= |nEdges|
        invariant Run(pr, st, nextId, tree, stack, paths, ranks, Remaining(all, qEdges, nEdges, q, n), p)
        invariant p in tree && tree[p] == frame.output && [] in tree && tree[[]] == tree0[[]]
        invariant Load(b, ranks) + Allowance(b, r, |Remaining(all, qEdges, nEdges, q, n)|) <=
                    Load(b, ranks0) + Allowance(b, r, |all|)
      {
        ghost var todo := Remaining(all, qEdges, nEdges, q, n);
        RunFacts(pr, st, nextId, tree, stack, paths, ranks, todo, p);
        RemainingNextColumn(pr.st, frame, qEdges, nEdges, q, n);
        var qEdge, nEdge := qEdges[q], nEdges[n];
        if nEdge == qEdge || qEdge == STAR {
          ghost var t := Pair(qEdge, nEdge, pr.st[frame.qNode].edges[qEdge], pr.st[frame.node].edges[nEdge]);
          RunLink(pr, st, nextId, tree, stack, paths, ranks, todo, p, t);
          LoadPush(b, ranks, pr.rank[t.node]);
          AllowanceStep(b, r, |todo|, pr.rank[t.node]);
          ghost var k := Target(st, nextId, tree[p], nEdge);
          NotTheRoot(p, nEdge);
          st, nextId, stack := LinkEdges(st, nextId, stack, frame, qEdge, nEdge);
          tree, paths, ranks := tree[p + [nEdge] := k], paths + [p + [nEdge]], ranks + [pr.rank[t.node]];
        }
        n := n + 1;
      }
      RemainingNextRow(all, qEdges, nEdges, q);
      q := q + 1;
    }
    RemainingEnd(all, qEdges, nEdges);
  }

  lemma RootStays(pr: Problem, st: Store, nextId: nat, tree: map<Word, nat>, stack: seq<Frame>, paths: seq<Word>,
                  ranks: seq<nat>,
                  todo: set<Pair>, p: Word)
    requires Run(pr, st, nextId, tree, stack, paths, ranks, todo, p)
    ensures [] in tree
  {}

  lemma NotTheRoot(p: Word, c: Unit)
    ensures p + [c] != [] && p + [c] != p
  {
    assert |p + [c]| == |p| + 1;
  }

  /**
   Intersects an acyclic automaton with a query automaton that may have cycles. The output accepts
   exactly the non-empty common words, is acyclic, and the inputs are left alone.
   */
  method Intersect(st0: Store, nextId0: nat, self: nat, query: nat, ghost rank: map<nat, nat>)
    returns (st: Store, nextId: nat, output: nat, ghost outRank: map<nat, nat>)
    requires Heap(st0, nextId0) && Ranked(st0, rank.Keys, rank) && self in rank && query in st0
    ensures Heap(st, nextId) && Untouched(st0, st)
    ensures output in outRank && Ranked(st, outRank.Keys, outRank)
    ensures forall w: Word :: Accepts(st, output, w) <==> w != [] && Accepts(st0, self, w) && QAccepts(st0, query, w)
  {
    hide Run, Pairs;
    ghost var pr := Problem(st0, rank, self, query);
    ghost var b := FanOutBounded(st0, set q, n | q in st0 && n in rank :: (q, n));
    output := nextId0;
    st, nextId := st0[output := EMPTY_NODE], nextId0 + 1;
    var stack := [Frame(query, output, self)];
    ghost var tree: map<Word, nat> := map[[] := output];
    ghost var paths: seq<Word>, ranks, p: Word := [[]], [rank[self]], [];
    RunStart(pr, st, nextId, output);
    while stack != []
      invariant Run(pr, st, nextId, tree, stack, paths, ranks, {}, p)
      invariant [] in tree && tree[[]] == output
      decreases Load(b, ranks)
    {
      ghost var l := |stack| - 1;
      RunOpen(pr, st, nextId, tree, stack, paths, ranks, p);
      var frame := stack[|stack| - 1];
      stack := stack[..|stack| - 1];
      p := paths[l];
      assert (frame.qNode, frame.node) in set q, n | q in st0 && n in rank :: (q, n);
      AllowanceWithin(b, rank[frame.node], |Pairs(st0, frame.qNode, frame.node)|);
      assert ranks == ranks[..l] + [ranks[l]];
      LoadPush(b, ranks[..l], ranks[l]);
      st, nextId, stack, tree, paths, ranks := Expand(pr, st, nextId, stack, frame, b, tree, paths[..l], ranks[..l], p);
    }
    outRank := RunRanked(pr, st, nextId, tree, stack, paths, ranks, {}, p);
    forall w: Word ensures Accepts(st, output, w) <==> Wanted(pr, w) {
      RunDone(pr, st, nextId, tree, paths, ranks, p, w);
    }
    RunDone(pr, st, nextId, tree, paths, ranks, p, []);
  }

  // ---------------------------------------------------------------------------------------------
  // Listing
  // ---------------------------------------------------------------------------------------------

  /** Work item of the listing: the words behind `node`, each after `pre`. */
  datatype Prefixed = Prefixed(pre: Word, node: nat)

  predicate StartsWith(w: Word, p: Word) { |p| <= |w| && w[..|p|] == p }

  ghost predicate Lists(st: Store, f: Prefixed, w: Word) {
    StartsWith(w, f.pre) && Accepts(st, f.node, w[|f.pre|..])
  }

  ghost predicate ListedBy(st: Store, stack: seq<Prefixed>, w: Word) {
    exists i :: 0 <= i < |stack| && Lists(st, stack[i], w)
  }

  /** Pending prefixes never extend each other, so no two frames can list one word. */
  ghost predicate Apart(stack: seq<Prefixed>, words: seq<Word>) {
    && (forall i, j :: 0 <= i < |stack| && 0 <= j < |stack| && i != j ==> !StartsWith(stack[i].pre, stack[j].pre))
    && (forall i, k :: 0 <= i < |stack| && 0 <= k < |words| ==> !StartsWith(words[k], stack[i].pre))
  }

  ghost predicate Distinct(words: seq<Word>) {
    forall i, j :: 0 <= i < j < |words| ==> words[i] != words[j]
  }

  /** Words listed or still to be listed: exactly the accepted ones. */
  ghost predicate Listing(st: Store, root: nat, rank: map<nat, nat>, stack: seq<Prefixed>, words: seq<Word>) {
    && Ranked(st, rank.Keys, rank)
    && (forall i :: 0 <= i < |stack| ==> stack[i].node in rank)
    && Apart(stack, words) && Distinct(words)
    && (forall w: Word :: Accepts(st, root, w) <==> w in words || ListedBy(st, stack, w))
  }

  ghost function Children(st: Store, f: Prefixed, edges: seq<Unit>): seq<Prefixed>
    requires f.node in st && forall c :: c in edges ==> c in st[f.node].edges
  {
    seq(|edges|, i requires 0 <= i < |edges| => Prefixed(f.pre + [edges[i]], st[f.node].edges[edges[i]]))
  }

  function Emitted(st: Store, f: Prefixed, words: seq<Word>): seq<Word>
    requires f.node in st
  {
    if st[f.node].final then words + [f.pre] else words
  }

  /** A prefix one unit longer than `p` is comparable only with prefixes that are comparable with `p`. */
  lemma LongerStaysApart(p: Word, c: Unit, r: Word)
    ensures StartsWith(r, p + [c]) ==> StartsWith(r, p)
    ensures StartsWith(p + [c], r) ==> StartsWith(p, r) || StartsWith(r, p)
  {
    if StartsWith(r, p + [c]) { assert r[..|p|] == r[..|p| + 1][..|p|] == p; }
    if StartsWith(p + [c], r) {
      if |r| <= |p| { assert (p + [c])[..|r|] == p[..|r|]; } else { assert r == p + [c] && r[..|p|] == p; }
    }
  }

  lemma {:induction false} ChildrenApart(st: Store, stack: seq<Prefixed>, f: Prefixed, words: seq<Word>,
                                         edges: seq<Unit>)
    requires f.node in st && Enumerates(edges, st[f.node].edges)
    requires Apart(stack + [f], words)
    ensures Apart(stack + Children(st, f, edges), Emitted(st, f, words))
  {
    var all, kids := stack + [f], Children(st, f, edges);
    var next, words' := stack + kids, Emitted(st, f, words);
    var l := |stack|;
    assert all[l] == f;
    forall i | 0 <= i < l ensures !StartsWith(stack[i].pre, f.pre) && !StartsWith(f.pre, stack[i].pre) {
      assert all[i] == stack[i];
    }
    forall i, j | 0 <= i < |next| && 0 <= j < |next| && i != j ensures !StartsWith(next[i].pre, next[j].pre) {
      if i < l && j < l {
        assert all[i] == stack[i] && all[j] == stack[j];
      } else if i < l {
        LongerStaysApart(f.pre, edges[j - l], stack[i].pre);
      } else if j < l {
        LongerStaysApart(f.pre, edges[i - l], stack[j].pre);
      } else {
        assert next[i].pre[|f.pre|] == edges[i - l] && next[j].pre[|f.pre|] == edges[j - l];
      }
    }
    forall i, k | 0 <= i < |next| && 0 <= k < |words'| ensures !StartsWith(words'[k], next[i].pre) {
      if k < |words| {
        assert words'[k] == words[k] && !StartsWith(words[k], all[l].pre);
        if i < l { assert all[i] == stack[i]; } else { LongerStaysApart(f.pre, edges[i - l], words[k]); }
      }
    }
  }

  lemma {:induction false} ChildrenList(st: Store, f: Prefixed, edges: seq<Unit>, w: Word)
    requires f.node in st && Enumerates(edges, st[f.node].edges)
    ensures Lists(st, f, w) <==> (w == f.pre && st[f.node].final) || ListedBy(st, Children(st, f, edges), w)
  {
    var kids := Children(st, f, edges);
    if Lists(st, f, w) && w != f.pre {
      var v := w[|f.pre|..];
      assert w == w[..|f.pre|] + v;
      assert v[0] in edges;
      var i :| 0 <= i < |edges| && edges[i] == v[0];
      assert w[..|f.pre| + 1] == f.pre + [v[0]] && w[|f.pre| + 1..] == v[1..];
      assert Lists(st, kids[i], w);
    }
    if w == f.pre { assert w[|f.pre|..] == []; }
    if ListedBy(st, kids, w) {
      var i :| 0 <= i < |kids| && Lists(st, kids[i], w);
      var p := kids[i].pre;
      assert w[..|f.pre|] == w[..|p|][..|f.pre|] == f.pre;
      var v := w[|f.pre|..];
      assert v[0] == w[..|p|][|f.pre|] == edges[i] && v[1..] == w[|p|..];
      assert edges[i] in edges;
    }
  }

  lemma ListedBySplit(st: Store, s1: seq<Prefixed>, s2: seq<Prefixed>, w: Word)
    ensures ListedBy(st, s1 + s2, w) <==> ListedBy(st, s1, w) || ListedBy(st, s2, w)
  {
    var s := s1 + s2;
    if ListedBy(st, s1, w) {
      var i :| 0 <= i < |s1| && Lists(st, s1[i], w);
      assert s[i] == s1[i];
    }
    if ListedBy(st, s2, w) {
      var i :| 0 <= i < |s2| && Lists(st, s2[i], w);
      assert s[|s1| + i] == s2[i];
    }
    if ListedBy(st, s, w) {
      var i :| 0 <= i < |s| && Lists(st, s[i], w);
      assert s[i] == if i < |s1| then s1[i] else s2[i - |s1|];
    }
  }

  /** Expanding one frame of the listing. */
  lemma {:induction false} ListingStep(st: Store, root: nat, rank: map<nat, nat>, stack: seq<Prefixed>, f: Prefixed,
                                       words: seq<Word>, edges: seq<Unit>)
    requires Listing(st, root, rank, stack + [f], words) && f.node in st && Enumerates(edges, st[f.node].edges)
    ensures Listing(st, root, rank, stack + Children(st, f, edges), Emitted(st, f, words))
  {
    hide Apart, ListedBy, Lists;
    var all, kids, words' := stack + [f], Children(st, f, edges), Emitted(st, f, words);
    assert all[|stack|] == f;
    ChildrenApart(st, stack, f, words, edges);
    NewWordDistinct(st, stack, f, words);
    forall i | 0 <= i < |stack + kids| ensures (stack + kids)[i].node in rank {
      if i < |stack| {
        assert all[i] == stack[i];
      } else {
        assert st[f.node].edges[edges[i - |stack|]] == kids[i - |stack|].node;
      }
    }
    forall w: Word ensures Accepts(st, root, w) <==> w in words' || ListedBy(st, stack + kids, w) {
      ListedBySplit(st, stack, [f], w);
      ListedBySplit(st, stack, kids, w);
      ListedByOne(st, f, w);
      ChildrenList(st, f, edges, w);
    }
  }

  lemma ListedByOne(st: Store, f: Prefixed, w: Word)
    ensures ListedBy(st, [f], w) <==> Lists(st, f, w)
  {
    if Lists(st, f, w) { assert Lists(st, [f][0], w); }
  }

  lemma NewWordDistinct(st: Store, stack: seq<Prefixed>, f: Prefixed, words: seq<Word>)
    requires f.node in st && Apart(stack + [f], words) && Distinct(words)
    ensures Distinct(Emitted(st, f, words))
  {
    assert (stack + [f])[|stack|] == f;
    forall k | 0 <= k < |words| ensures words[k] != f.pre {
      assert !StartsWith(words[k], (stack + [f])[|stack|].pre);
      assert f.pre[..|f.pre|] == f.pre;
    }
  }

  lemma {:induction false} EdgesBounded(st: Store, nodes: set<nat>) returns (b: nat)
    requires nodes <= st.Keys
    ensures forall n :: n in nodes ==> |st[n].edges| <= b
    decreases |nodes|
  {
    if nodes == {} {
      b := 0;
    } else {
      var y :| y in nodes;
      var b' := EdgesBounded(st, nodes - {y});
      b := if b' <= |st[y].edges| then |st[y].edges| else b';
    }
  }

  ghost predicate RankedStack(rank: map<nat, nat>, stack: seq<Prefixed>, ranks: seq<nat>) {
    |ranks| == |stack| && forall i :: 0 <= i < |stack| ==> stack[i].node in rank && ranks[i] == rank[stack[i].node]
  }

  method PushEdges(st: Store, stack0: seq<Prefixed>, frame: Prefixed, edges: seq<Unit>, ghost rank: map<nat, nat>,
                   ghost b: nat,
                   ghost ranks0: seq<nat>)
    returns (stack: seq<Prefixed>, ghost ranks: seq<nat>)
    requires Ranked(st, rank.Keys, rank) && frame.node in rank && Enumerates(edges, st[frame.node].edges)
    requires RankedStack(rank, stack0, ranks0)
    ensures stack == stack0 + Children(st, frame, edges)
    ensures RankedStack(rank, stack, ranks)
    ensures Load(b, ranks) <= Load(b, ranks0) + Allowance(b, rank[frame.node], |edges|)
  {
    hide Weight, Load, Allowance;
    ghost var r, kids := rank[frame.node], Children(st, frame, edges);
    stack, ranks := stack0, ranks0;
    var i := 0;
    while i < |edges|
      invariant 0 <= i <= |edges| && stack == stack0 + kids[..i]
      invariant RankedStack(rank, stack, ranks)
      invariant Load(b, ranks) + Allowance(b, r, |edges| - i) <= Load(b, ranks0) + Allowance(b, r, |edges|)
    {
      var edge := edges[i];
      assert edge in edges;
      ghost var n := st[frame.node].edges[edge];
      assert kids[..i + 1] == kids[..i] + [kids[i]];
      LoadPush(b, ranks, rank[n]);
      AllowanceStep(b, r, |edges| - i, rank[n]);
      stack, ranks := stack + [Prefixed(frame.pre + [edge], st[frame.node].edges[edge])], ranks + [rank[n]];
      i := i + 1;
    }
    assert kids[..i] == kids;
  }

  /** One round of the listing. */
  method ListFrame(st: Store, ghost root: nat, stack0: seq<Prefixed>, words0: seq<Word>, ghost rank: map<nat, nat>,
                   ghost b: nat,
                   ghost ranks0: seq<nat>)
    returns (stack: seq<Prefixed>, words: seq<Word>, ghost ranks: seq<nat>)
    requires stack0 != [] && Ranked(st, rank.Keys, rank) && rank.Keys <= st.Keys && forall n :: n in rank ==>
              |st[n].edges| <= b
    requires Listing(st, root, rank, stack0, words0) && RankedStack(rank, stack0, ranks0)
    ensures Listing(st, root, rank, stack, words) && RankedStack(rank, stack, ranks)
    ensures Load(b, ranks) < Load(b, ranks0)
  {
    hide Listing, Weight, Load, Allowance, Children, Ranked, Enumerates;
    ghost var l := |stack0| - 1;
    var frame := stack0[|stack0| - 1];
    assert stack0 == stack0[..l] + [frame] && ranks0 == ranks0[..l] + [ranks0[l]];
    LoadPush(b, ranks0[..l], ranks0[l]);
    var edges := ObjectKeys(st[frame.node].edges);
    ListingStep(st, root, rank, stack0[..l], frame, words0, edges);
    AllowanceWithin(b, ranks0[l], |edges|);
    words := if st[frame.node].final then words0 + [frame.pre] else words0;
    stack, ranks := PushEdges(st, stack0[..|stack0| - 1], frame, edges, rank, b, ranks0[..l]);
  }

  /** Lists the words of an acyclic automaton, each exactly once. */
  method ToArray(st: Store, root: nat, ghost rank: map<nat, nat>) returns (words: seq<Word>)
    requires Ranked(st, rank.Keys, rank) && root in rank
    ensures Distinct(words)
    ensures forall w: Word :: w in words <==> Accepts(st, root, w)
  {
    hide Listing, Load;
    ghost var b := EdgesBounded(st, rank.Keys);
    words := [];
    var stack := [Prefixed([], root)];
    ghost var ranks := [rank[root]];
    ListingStart(st, root, rank);
    while stack != []
      invariant Listing(st, root, rank, stack, words)
      invariant RankedStack(rank, stack, ranks)
      decreases Load(b, ranks)
    {
      stack, words, ranks := ListFrame(st, root, stack, words, rank, b, ranks);
    }
    ListingDone(st, root, rank, words);
  }

  lemma ListingStart(st: Store, root: nat, rank: map<nat, nat>)
    requires Ranked(st, rank.Keys, rank) && root in rank
    ensures Listing(st, root, rank, [Prefixed([], root)], [])
  {
    forall w: Word ensures Accepts(st, root, w) <==> ListedBy(st, [Prefixed([], root)], w) {
      ListedByOne(st, Prefixed([], root), w);
      assert w[0..] == w && w[..0] == [];
    }
  }

  lemma ListingDone(st: Store, root: nat, rank: map<nat, nat>, words: seq<Word>)
    requires Listing(st, root, rank, [], words)
    ensures Distinct(words)
    ensures forall w: Word :: w in words <==> Accepts(st, root, w)
  {
    assert forall w: Word :: !ListedBy(st, [], w);
  }

  // ---------------------------------------------------------------------------------------------
  // The whole lookup
  // ---------------------------------------------------------------------------------------------

  /** What a lookup finds: the non-empty words of the index automaton that match the pattern. */
  ghost predicate Finds(index: seq<Word>, firstId: nat, pattern: Word, w: Word) {
    Accepts(Built(index, firstId).nodes, Built(index, firstId).root, w) && w != [] && Glob(pattern, w)
  }

  /** What a lookup is meant to find: the non-empty indexed words that match the pattern. */
  ghost predicate Matching(index: seq<Word>, pattern: Word, w: Word) { w in index && w != [] && Glob(pattern, w) }

  /**
   Expands a query term: each word found, exactly once. They are the wanted words whenever the automaton
   was built with true rounds only; `LookupExactIffKeySafe` has the alphabets where that is always so.
   */
  method ExpandTerm(index: seq<Word>, firstId: nat, pattern: Word)
    returns (ok: bool, terms: seq<Word>, ghost allTrue: bool)
    ensures ok <==> Sorted(index)
    ensures KeySafe(LettersOf(index)) ==> allTrue
    ensures ok ==> Distinct(terms)
    ensures ok ==> forall w: Word :: w in terms <==> Finds(index, firstId, pattern, w)
    ensures ok && allTrue ==> forall w: Word :: w in terms <==> Matching(index, pattern, w)
  {
    hide Sorted, Minimal, Glob, KeySafe, LettersOf, Built;
    terms := [];
    var nodes, root, nextId;
    ghost var rank;
    ok, nodes, root, nextId, rank, allTrue := FromArray(index, firstId);
    if ok {
      var st, id, query := FromString(nodes, nextId, pattern);
      UntouchedRanked(nodes, st, rank);
      var st', id', output;
      ghost var outRank;
      st', id', output, outRank := Intersect(st, id, root, query, rank);
      terms := ToArray(st', output, outRank);
      forall w: Word ensures w in terms <==> Accepts(nodes, root, w) && w != [] && Glob(pattern, w) {
        AcceptsFrame(nodes, st, rank.Keys, root, w);
      }
    }
  }

  /** Every lookup in a sorted index over `alphabet` finds exactly the wanted words. */
  ghost predicate LookupsExact(alphabet: set<Unit>, firstId: nat) {
    forall index: seq<Word>, pattern: Word, w: Word ::
      Sorted(index) && LettersOf(index) <= alphabet ==>
        (Finds(index, firstId, pattern, w) <==> Matching(index, pattern, w))
  }

  /** Lookups are exact on an alphabet, wherever identifiers start, iff a digit can only be its least label. */
  lemma LookupExactIffKeySafe(alphabet: set<Unit>, firstId: nat)
    ensures LookupsExact(alphabet, firstId) <==> KeySafe(alphabet)
  {
    hide Sorted, LettersOf, Built, Accepts, Glob;
    if KeySafe(alphabet) {
      forall index: seq<Word>, pattern: Word, w: Word | Sorted(index) && LettersOf(index) <= alphabet
        ensures Finds(index, firstId, pattern, w) <==> Matching(index, pattern, w)
      {
        SafeListIsExact(index, firstId, alphabet);
      }
    } else {
      var c, d :| c in alphabet && d in alphabet && IsDigit(d) && c < d;
      LookupMisses(c, d, firstId);
    }
  }

  /** The word that the colliding index loses is not found by the pattern that matches everything. */
  lemma LookupMisses(c: Unit, d: Unit, firstId: nat)
    requires c < d && IsDigit(d)
    ensures var index := Collision(c, d, firstId);
            && Sorted(index) && LettersOf(index) <= {c, d}
            && Matching(index, [STAR], index[2]) && !Finds(index, firstId, [STAR], index[2])
  {
    hide Sorted, LettersOf, Built, Accepts, Glob;
    CollisionLosesWord(c, d, firstId);
    StarMatchesAll(Collision(c, d, firstId)[2]);
  }

  lemma UntouchedRanked(st: Store, st': Store, rank: map<nat, nat>)
    requires Ranked(st, rank.Keys, rank) && Untouched(st, st')
    ensures Ranked(st', rank.Keys, rank)
  {}
}
