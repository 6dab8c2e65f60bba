/**
 Token sets: the finite automata behind the documentation search index.

 A token set is a graph of nodes that the search library allocates with increasing identifiers and
 then mutates through references. Here the nodes live in an explicit store that maps an
 identifier to the current contents of that node, so sharing and update in place stay visible.
 */
module TokenSet {
  import opened Options

  /** A UTF-16 code unit: one element of a string and the label of one edge. */
  type Unit = u: int | 0 <= u < 0x1_0000

  type Word = seq<Unit>

  const STAR: Unit := 42

  /** Contents of one node; `str` is the cached node key, set when the node is registered. */
  datatype Node = Node(final: bool, edges: map<Unit, nat>, str: Option<Word>)

  type Store = map<nat, Node>

  const EMPTY_NODE := Node(false, map[], None)

  /** The words read from node `n` along labelled edges to a final node. */
  predicate Accepts(st: Store, n: nat, w: Word)
    decreases |w|
  {
    && n in st
    && if w == [] then st[n].final
       else w[0] in st[n].edges && Accepts(st, st[n].edges[w[0]], w[1..])
  }

  /** Reading `u` from node `a` leads to node `b`. */
  predicate Walks(st: Store, a: nat, u: Word, b: nat)
    decreases |u|
  {
    && a in st
    && if u == [] then a == b
       else u[0] in st[a].edges && Walks(st, st[a].edges[u[0]], u[1..], b)
  }

  /** Every node of `nodes` can be reached from `root`. */
  ghost predicate AllReached(st: Store, root: nat, nodes: set<nat>) {
    forall n {:trigger n in nodes} :: n in nodes ==> Reached(st, root, n)
  }

  ghost predicate Reached(st: Store, root: nat, n: nat) { exists u: Word :: Walks(st, root, u, n) }

  ghost predicate SameLanguage(st: Store, a: nat, b: nat) {
    forall w: Word :: Accepts(st, a, w) == Accepts(st, b, w)
  }

  /** Every edge that leaves a node of `nodes` stays in `nodes`. */
  ghost predicate Closed(st: Store, nodes: set<nat>) {
    && nodes <= st.Keys
    && forall n, c {:trigger st[n].edges[c]} :: n in nodes && c in st[n].edges ==> st[n].edges[c] in nodes
  }

  /** `rank` strictly decreases along every edge between nodes of `nodes`: the graph is acyclic. */
  ghost predicate Ranked(st: Store, nodes: set<nat>, rank: map<nat, nat>) {
    && Closed(st, nodes)
    && nodes <= rank.Keys
    && forall n, c {:trigger st[n].edges[c]} :: n in nodes && c in st[n].edges ==> rank[st[n].edges[c]] < rank[n]
  }

  /** Reached, acyclic and pairwise different in language: the minimal automaton of its language. */
  ghost predicate Minimal(st: Store, root: nat, rank: map<nat, nat>) {
    && root in rank
    && Ranked(st, rank.Keys, rank)
    && AllReached(st, root, rank.Keys)
    && (forall a, b :: a in rank && b in rank && SameLanguage(st, a, b) ==> a == b)
  }

  /** A closed part of the graph that two stores agree on has the same language in both. */
  lemma {:induction false} AcceptsFrame(st: Store, st': Store, nodes: set<nat>, n: nat, w: Word)
    requires Closed(st, nodes)
    requires nodes <= st'.Keys
    requires forall m :: m in nodes ==> st'[m].final == st[m].final && st'[m].edges == st[m].edges
    requires n in nodes
    ensures Accepts(st', n, w) == Accepts(st, n, w)
    decreases |w|
  {
    if w != [] && w[0] in st[n].edges {
      AcceptsFrame(st, st', nodes, st[n].edges[w[0]], w[1..]);
    }
  }

  lemma {:induction false} WalkThenStep(st: Store, a: nat, u: Word, b: nat, c: Unit)
    requires Walks(st, a, u, b) && b in st && c in st[b].edges && st[b].edges[c] in st
    ensures Walks(st, a, u + [c], st[b].edges[c])
    decreases |u|
  {
    if u == [] {
      assert [] + [c] == [c];
    } else {
      WalkThenStep(st, st[a].edges[u[0]], u[1..], b, c);
      assert (u + [c])[1..] == u[1..] + [c];
    }
  }

  /** `st'` has all nodes and edges of `st`. */
  ghost predicate Extends(st: Store, st': Store) {
    forall n, c :: n in st && c in st[n].edges ==> n in st' && c in st'[n].edges && st'[n].edges[c] == st[n].edges[c]
  }

  /** Walks survive new nodes and new edges. */
  lemma {:induction false} WalkGrows(st: Store, st': Store, a: nat, u: Word, b: nat)
    requires Walks(st, a, u, b) && st.Keys <= st'.Keys && Extends(st, st')
    ensures Walks(st', a, u, b)
    decreases |u|
  {
    if u != [] {
      WalkGrows(st, st', st[a].edges[u[0]], u[1..], b);
    }
  }
}
