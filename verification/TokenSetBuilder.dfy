/**
 Incremental construction of the minimal automaton of a sorted word list.

 The builder keeps one chain of unchecked nodes, the path of the word inserted last. Inserting a
 word first folds the part of that chain the new word does not share into the registry of
 finished nodes, then appends a fresh chain for the rest of the word.
 */
module TokenSetBuilder {
  import opened TokenSet
  import opened TokenSetKey
  import opened Options

  /** An unchecked edge: its child may still change. */
  datatype Link = Link(parent: nat, via: Unit, child: nat)

  /** The builder's data at one moment. */
  datatype State = State(nodes: Store, root: nat, unchecked: seq<Link>, minimized: map<Word, nat>, nextId: nat)

  /** The end of the unchecked chain, or the root when there is none. */
  function Tip(s: State): nat {
    if s.unchecked == [] then s.root else s.unchecked[|s.unchecked| - 1].child
  }

  /** No dangling references, identifiers below the counter, labels from the alphabet. */
  ghost predicate WellFormed(s: State, alphabet: set<Unit>) {
    && Closed(s.nodes, s.nodes.Keys)
    && s.root in s.nodes
    && (forall n :: n in s.nodes ==> n < s.nextId)
    && (forall n, c {:trigger s.nodes[n].edges[c]} :: n in s.nodes && c in s.nodes[n].edges ==> c in alphabet)
  }

  /** `spine` lists the nodes of the unchecked chain from the root: distinct and unregistered. */
  ghost predicate Chained(s: State, spine: seq<nat>, rank: map<nat, nat>) {
    && |spine| == |s.unchecked| + 1
    && spine[0] == s.root
    && (forall i {:trigger spine[i]} :: 0 <= i < |spine| ==>
          spine[i] in s.nodes && spine[i] !in rank && s.nodes[spine[i]].str.None?)
    && (forall i, j :: 0 <= i < j < |spine| ==> spine[i] != spine[j])
    && (forall i {:trigger s.unchecked[i]} :: 0 <= i < |s.unchecked| ==>
          && s.unchecked[i].parent == spine[i] && s.unchecked[i].child == spine[i + 1]
          && s.unchecked[i].via in s.nodes[spine[i]].edges
          && s.nodes[spine[i]].edges[s.unchecked[i].via] == spine[i + 1])
  }

  /** Apart from the chain itself, chain nodes only point at registered nodes. */
  ghost predicate SideEdgesRegistered(s: State, spine: seq<nat>, rank: map<nat, nat>)
    requires Chained(s, spine, rank)
  {
    forall i, c {:trigger s.nodes[spine[i]].edges[c]} ::
      0 <= i < |spine| && c in s.nodes[spine[i]].edges && !(i < |s.unchecked| && c == s.unchecked[i].via)
      ==> s.nodes[spine[i]].edges[c] in rank
  }

  ghost predicate Productive(st: Store, n: nat) { exists w: Word :: Accepts(st, n, w) }

  ghost predicate AllProductive(st: Store, nodes: set<nat>) {
    forall n {:trigger Productive(st, n)} :: n in nodes ==> Productive(st, n)
  }

  /** The registered nodes carry their key, and the table maps every key to its one node. */
  ghost predicate TableOf(s: State, rank: map<nat, nat>)
    requires rank.Keys <= s.nodes.Keys
  {
    && (forall n {:trigger s.nodes[n].str} :: n in rank ==>
          && s.nodes[n].str == Some(Key(s.nodes[n].final, s.nodes[n].edges))
          && s.nodes[n].str.value in s.minimized && s.minimized[s.nodes[n].str.value] == n)
    && (forall k :: k in s.minimized ==> s.minimized[k] in rank && s.nodes[s.minimized[k]].str == Some(k))
  }

  /** The registry: one node per key, finished, acyclic, and from every one a word can be read. */
  ghost predicate Registered(s: State, rank: map<nat, nat>) {
    && Ranked(s.nodes, rank.Keys, rank)
    && (forall n :: n in rank ==> rank[n] < |rank|)
    && AllProductive(s.nodes, rank.Keys)
    && TableOf(s, rank)
  }

  ghost predicate Inv(s: State, spine: seq<nat>, rank: map<nat, nat>, alphabet: set<Unit>) {
    && WellFormed(s, alphabet)
    && Chained(s, spine, rank)
    && SideEdgesRegistered(s, spine, rank)
    && Registered(s, rank)
  }

  /** The chain spells a prefix of `path`, and no chain node has a label beyond `path`. */
  ghost predicate Spells(s: State, spine: seq<nat>, path: Word) {
    && |s.unchecked| + 1 == |spine| <= |path| + 1
    && (forall i :: 0 <= i < |s.unchecked| ==> s.unchecked[i].via == path[i])
    && (forall i :: 0 <= i < |spine| ==> spine[i] in s.nodes)
    && (forall i, c {:trigger s.nodes[spine[i]].edges[c]} ::
          0 <= i < |spine| && c in s.nodes[spine[i]].edges ==> i < |path| && c <= path[i])
  }

  // ---------------------------------------------------------------------------------------------
  // Steps on the data
  // ---------------------------------------------------------------------------------------------

  /** The last child is equivalent to registered node `m`: point its parent there instead. */
  function MergeLast(s: State, m: nat): State
    requires s.unchecked != [] && s.unchecked[|s.unchecked| - 1].parent in s.nodes
  {
    var l := s.unchecked[|s.unchecked| - 1];
    var p := s.nodes[l.parent];
    s.(nodes := s.nodes[l.parent := p.(edges := p.edges[l.via := m])], unchecked := s.unchecked[..|s.unchecked| - 1])
  }

  /** The last child is new: cache its key and register it. */
  function RegisterLast(s: State, key: Word): State
    requires s.unchecked != [] && Tip(s) in s.nodes
  {
    var c := Tip(s);
    s.(nodes := s.nodes[c := s.nodes[c].(str := Some(key))], minimized := s.minimized[key := c],
       unchecked := s.unchecked[..|s.unchecked| - 1])
  }

  /** A fresh node behind the tip of the chain. */
  function Append(s: State, via: Unit): State
    requires Tip(s) in s.nodes
  {
    var t := Tip(s);
    s.(nodes := s.nodes[s.nextId := EMPTY_NODE][t := s.nodes[t].(edges := s.nodes[t].edges[via := s.nextId])],
       unchecked := s.unchecked + [Link(t, via, s.nextId)], nextId := s.nextId + 1)
  }

  function MarkFinal(s: State): State
    requires Tip(s) in s.nodes
  {
    s.(nodes := s.nodes[Tip(s) := s.nodes[Tip(s)].(final := true)])
  }

  // ---------------------------------------------------------------------------------------------
  // What each step does to the language of every node
  // ---------------------------------------------------------------------------------------------

  /** Redirecting an edge to a node with the same contents changes no language. */
  lemma {:induction false} RedirectKeepsLanguage(st: Store, p: nat, c: Unit, m: nat, n: nat, w: Word)
    requires p in st && c in st[p].edges && st[p].edges[c] in st && m in st
    requires st[m].final == st[st[p].edges[c]].final && st[m].edges == st[st[p].edges[c]].edges
    ensures Accepts(st[p := st[p].(edges := st[p].edges[c := m])], n, w) == Accepts(st, n, w)
    decreases |w|
  {
    var st' := st[p := st[p].(edges := st[p].edges[c := m])];
    if n in st && w != [] && w[0] in st[n].edges {
      var k := st[n].edges[w[0]];
      RedirectKeepsLanguage(st, p, c, m, k, w[1..]);
      RedirectKeepsLanguage(st, p, c, m, m, w[1..]);
    }
  }

  /** Redirecting an edge to a node with the same contents keeps every walk, except to the old target. */
  lemma {:induction false} RedirectKeepsWalk(st: Store, p: nat, c: Unit, m: nat, a: nat, u: Word, b: nat)
    requires p in st && c in st[p].edges && st[p].edges[c] in st && m in st
    requires st[m].edges == st[st[p].edges[c]].edges
    requires Walks(st, a, u, b) && b != st[p].edges[c]
    ensures Walks(st[p := st[p].(edges := st[p].edges[c := m])], a, u, b)
    decreases |u|
  {
    if u != [] {
      var k := st[a].edges[u[0]];
      if a == p && u[0] == c {
        assert u[1..] != [];
        assert Walks(st, m, u[1..], b);
        RedirectKeepsWalk(st, p, c, m, m, u[1..], b);
      } else {
        RedirectKeepsWalk(st, p, c, m, k, u[1..], b);
      }
    }
  }

  /** The chain itself is a walk from the root. */
  lemma {:induction false} ChainWalk(s: State, spine: seq<nat>, rank: map<nat, nat>, i: nat)
    requires Chained(s, spine, rank) && i < |spine|
    ensures Reached(s.nodes, s.root, spine[i])
    decreases i
  {
    if i == 0 {
      assert Walks(s.nodes, s.root, [], spine[0]);
    } else {
      ChainWalk(s, spine, rank, i - 1);
      var u: Word :| Walks(s.nodes, s.root, u, spine[i - 1]);
      assert s.unchecked[i - 1].child == spine[i];
      WalkThenStep(s.nodes, s.root, u, spine[i - 1], s.unchecked[i - 1].via);
    }
  }

  /** A new edge to a new empty node changes no language. */
  lemma {:induction false} ExtendKeepsLanguage(st: Store, t: nat, c: Unit, x: nat, n: nat, w: Word)
    requires Closed(st, st.Keys)
    requires t in st && c !in st[t].edges && x !in st && n in st
    ensures Accepts(st[x := EMPTY_NODE][t := st[t].(edges := st[t].edges[c := x])], n, w) == Accepts(st, n, w)
    decreases |w|
  {
    var st' := st[x := EMPTY_NODE][t := st[t].(edges := st[t].edges[c := x])];
    if w != [] {
      if n == t && w[0] == c {
        assert !Accepts(st', x, w[1..]);
      } else if w[0] in st[n].edges {
        ExtendKeepsLanguage(st, t, c, x, st[n].edges[w[0]], w[1..]);
      }
    }
  }

  /** Marking the tip final adds exactly the word spelled by the chain. */
  lemma {:induction false} MarkFinalAddsChainWord(s: State, spine: seq<nat>, rank: map<nat, nat>, path: Word, i: nat,
                                                  w: Word)
    requires Chained(s, spine, rank) && SideEdgesRegistered(s, spine, rank) && Closed(s.nodes, rank.Keys)
    requires |path| == |s.unchecked| && (forall j :: 0 <= j < |path| ==> s.unchecked[j].via == path[j])
    requires i < |spine|
    ensures Accepts(MarkFinal(s).nodes, spine[i], w) <==> Accepts(s.nodes, spine[i], w) || w == path[i..]
    decreases |spine| - i
  {
    var st, st' := s.nodes, MarkFinal(s).nodes;
    var n := spine[i];
    assert Tip(s) == spine[|s.unchecked|];
    if w == [] {
    } else if w[0] in st[n].edges {
      var k := st[n].edges[w[0]];
      if i < |path| && w[0] == path[i] {
        assert k == spine[i + 1];
        MarkFinalAddsChainWord(s, spine, rank, path, i + 1, w[1..]);
        assert w == [w[0]] + w[1..] && path[i..] == [path[i]] + path[i + 1..];
      } else {
        assert k in rank;
        AcceptsFrame(st, st', rank.Keys, k, w[1..]);
        assert st'[n].edges == st[n].edges;
      }
    }
  }

  // ---------------------------------------------------------------------------------------------
  // Every step keeps the invariant
  // ---------------------------------------------------------------------------------------------

  lemma {:induction false} ProductiveFrame(st: Store, st': Store, nodes: set<nat>)
    requires Closed(st, nodes) && AllProductive(st, nodes)
    requires nodes <= st'.Keys
    requires forall n :: n in nodes ==> st'[n].final == st[n].final && st'[n].edges == st[n].edges
    ensures AllProductive(st', nodes)
  {
    forall n | n in nodes ensures Productive(st', n) {
      assert Productive(st, n);
      var w: Word :| Accepts(st, n, w);
      AcceptsFrame(st, st', nodes, n, w);
    }
  }

  lemma TableFrame(s: State, s': State, rank: map<nat, nat>)
    requires rank.Keys <= s.nodes.Keys && TableOf(s, rank)
    requires rank.Keys <= s'.nodes.Keys && s'.minimized == s.minimized
    requires forall n :: n in rank ==> s'.nodes[n] == s.nodes[n]
    ensures TableOf(s', rank)
  {}

  /** Steps that leave the registered nodes and the table alone keep the registry. */
  lemma {:induction false} RegistryFrame(s: State, s': State, rank: map<nat, nat>)
    requires Registered(s, rank)
    requires rank.Keys <= s'.nodes.Keys && s'.minimized == s.minimized
    requires forall n :: n in rank ==> s'.nodes[n] == s.nodes[n]
    ensures Registered(s', rank)
  {
    ProductiveFrame(s.nodes, s'.nodes, rank.Keys);
    TableFrame(s, s', rank);
  }

  /** A node and its registered twin have the same contents. */
  lemma TwinHasSameContents(s: State, rank: map<nat, nat>, alphabet: set<Unit>, c: nat)
    requires KeySafe(alphabet) && WellFormed(s, alphabet) && rank.Keys <= s.nodes.Keys && TableOf(s, rank)
    requires c in s.nodes && Key(s.nodes[c].final, s.nodes[c].edges) in s.minimized
    ensures var m := s.minimized[Key(s.nodes[c].final, s.nodes[c].edges)];
            m in rank && s.nodes[m].final == s.nodes[c].final && s.nodes[m].edges == s.nodes[c].edges
  {
    var t := s.nodes[c];
    var m := s.minimized[Key(t.final, t.edges)];
    assert m in rank;
    var r := s.nodes[m];
    assert r.str == Some(Key(t.final, t.edges)) && r.str == Some(Key(r.final, r.edges));
    forall e | e in t.edges ensures e in alphabet { assert s.nodes[c].edges[e] == t.edges[e]; }
    forall e | e in r.edges ensures e in alphabet { assert s.nodes[m].edges[e] == r.edges[e]; }
    KeyInjective(alphabet, t.final, t.edges, r.final, r.edges);
  }

  lemma {:induction false} MergeChain(s: State, spine: seq<nat>, rank: map<nat, nat>, m: nat)
    requires Chained(s, spine, rank) && SideEdgesRegistered(s, spine, rank) && s.unchecked != [] && m in rank
    ensures var s', spine' := MergeLast(s, m), spine[..|spine| - 1];
            Chained(s', spine', rank) && SideEdgesRegistered(s', spine', rank)
  {
    var s', spine' := MergeLast(s, m), spine[..|spine| - 1];
    assert Chained(s', spine', rank);
    forall i, c | && 0 <= i < |spine'| && c in s'.nodes[spine'[i]].edges
                  && !(i < |s'.unchecked| && c == s'.unchecked[i].via)
      ensures s'.nodes[spine'[i]].edges[c] in rank
    {
      if i < |s'.unchecked| || c != s.unchecked[i].via {
        assert s.nodes[spine[i]].edges[c] in rank;
      }
    }
  }

  lemma {:induction false} MergeLastKeepsInv(s: State, spine: seq<nat>, rank: map<nat, nat>, alphabet: set<Unit>,
                                             m: nat)
    requires Inv(s, spine, rank, alphabet) && s.unchecked != [] && m in rank
    ensures Inv(MergeLast(s, m), spine[..|spine| - 1], rank, alphabet)
  {
    var s' := MergeLast(s, m);
    assert s.unchecked[|s.unchecked| - 1].parent == spine[|spine| - 2];
    assert s'.nodes.Keys == s.nodes.Keys;
    assert WellFormed(s', alphabet) by {
      forall n, c | n in s'.nodes && c in s'.nodes[n].edges ensures c in alphabet && s'.nodes[n].edges[c] in s'.nodes {
        assert s.nodes[n].edges[c] in s.nodes;
      }
    }
    MergeChain(s, spine, rank, m);
    RegistryFrame(s, s', rank);
  }

  lemma {:induction false} RegisterChained(s: State, spine: seq<nat>, rank: map<nat, nat>, key: Word)
    requires Chained(s, spine, rank) && s.unchecked != []
    ensures Tip(s) == spine[|spine| - 1]
    ensures Chained(RegisterLast(s, key), spine[..|spine| - 1], rank[Tip(s) := |rank|])
  {
    var s', spine', rank' := RegisterLast(s, key), spine[..|spine| - 1], rank[Tip(s) := |rank|];
    assert Tip(s) == spine[|spine| - 1];
    assert forall i :: 0 <= i < |spine'| ==>
              spine'[i] == spine[i] && spine[i] != Tip(s) && s'.nodes[spine[i]] == s.nodes[spine[i]];
  }

  lemma {:induction false} RegisterChain(s: State, spine: seq<nat>, rank: map<nat, nat>, key: Word)
    requires Chained(s, spine, rank) && SideEdgesRegistered(s, spine, rank) && s.unchecked != []
    ensures var s', spine', rank' := RegisterLast(s, key), spine[..|spine| - 1], rank[Tip(s) := |rank|];
            Chained(s', spine', rank') && SideEdgesRegistered(s', spine', rank')
  {
    hide Key;
    var s', spine', rank' := RegisterLast(s, key), spine[..|spine| - 1], rank[Tip(s) := |rank|];
    RegisterChained(s, spine, rank, key);
    forall i, c | && 0 <= i < |spine'| && c in s'.nodes[spine'[i]].edges
                  && !(i < |s'.unchecked| && c == s'.unchecked[i].via)
      ensures s'.nodes[spine'[i]].edges[c] in rank'
    {
      if i < |s'.unchecked| || c != s.unchecked[i].via {
        assert s.nodes[spine[i]].edges[c] in rank;
      }
    }
  }

  /** The targets of the tip are registered, so its rank can be put above all others. */
  lemma {:induction false} RegisterRanks(s: State, spine: seq<nat>, rank: map<nat, nat>)
    requires Chained(s, spine, rank) && SideEdgesRegistered(s, spine, rank) && s.unchecked != []
    requires Ranked(s.nodes, rank.Keys, rank) && (forall n :: n in rank ==> rank[n] < |rank|)
    ensures var rank' := rank[Tip(s) := |rank|];
            && rank'.Keys == rank.Keys + {Tip(s)}
            && Ranked(s.nodes, rank'.Keys, rank')
            && forall n :: n in rank' ==> rank'[n] < |rank'|
  {
    var rank' := rank[Tip(s) := |rank|];
    assert Tip(s) == spine[|spine| - 1];
    assert |rank'| == |rank| + 1;
    forall n, e | n in rank' && e in s.nodes[n].edges
      ensures s.nodes[n].edges[e] in rank' && rank'[s.nodes[n].edges[e]] < rank'[n]
    {
      assert n == Tip(s) ==> s.nodes[spine[|spine| - 1]].edges[e] in rank;
    }
  }

  lemma {:induction false} RegisterTable(s: State, rank: map<nat, nat>)
    requires Tip(s) in s.nodes && Tip(s) !in rank && s.unchecked != []
    requires rank.Keys <= s.nodes.Keys && TableOf(s, rank)
    requires Key(s.nodes[Tip(s)].final, s.nodes[Tip(s)].edges) !in s.minimized
    ensures TableOf(RegisterLast(s, Key(s.nodes[Tip(s)].final, s.nodes[Tip(s)].edges)), rank[Tip(s) := |rank|])
  {}

  /** Caching a key changes neither edges nor languages. */
  lemma {:induction false} RegisterFrame(s: State, key: Word, nodes: set<nat>, rank: map<nat, nat>)
    requires s.unchecked != [] && Tip(s) in s.nodes && Ranked(s.nodes, nodes, rank)
    requires AllProductive(s.nodes, nodes - {Tip(s)}) && Productive(s.nodes, Tip(s))
    ensures Ranked(RegisterLast(s, key).nodes, nodes, rank) && AllProductive(RegisterLast(s, key).nodes, nodes)
  {
    hide Productive, Accepts;
    var st' := RegisterLast(s, key).nodes;
    assert forall n :: n in s.nodes ==>
              n in st' && st'[n].edges == s.nodes[n].edges && st'[n].final == s.nodes[n].final;
    assert AllProductive(s.nodes, nodes);
    ProductiveFrame(s.nodes, st', nodes);
  }

  lemma {:induction false} RegisterProductive(s: State, spine: seq<nat>, rank: map<nat, nat>, key: Word)
    requires Chained(s, spine, rank) && SideEdgesRegistered(s, spine, rank) && s.unchecked != []
    requires Ranked(s.nodes, rank.Keys, rank) && (forall n :: n in rank ==> rank[n] < |rank|)
    requires AllProductive(s.nodes, rank.Keys) && Productive(s.nodes, Tip(s))
    ensures var s', rank' := RegisterLast(s, key), rank[Tip(s) := |rank|];
            && Ranked(s'.nodes, rank'.Keys, rank') && (forall n :: n in rank' ==> rank'[n] < |rank'|)
            && AllProductive(s'.nodes, rank'.Keys)
  {
    var s', rank' := RegisterLast(s, key), rank[Tip(s) := |rank|];
    RegisterRanks(s, spine, rank);
    assert Tip(s) == spine[|spine| - 1] && Tip(s) in s.nodes;
    RegisterFrame(s, key, rank'.Keys, rank');
    hide Ranked, SideEdgesRegistered, Chained;
  }

  lemma {:induction false} RegisterWellFormed(s: State, alphabet: set<Unit>, key: Word)
    requires WellFormed(s, alphabet) && s.unchecked != [] && Tip(s) in s.nodes
    ensures WellFormed(RegisterLast(s, key), alphabet)
  {
    var s' := RegisterLast(s, key);
    assert s'.nodes.Keys == s.nodes.Keys;
    assert forall n :: n in s.nodes ==> s'.nodes[n].edges == s.nodes[n].edges;
  }

  lemma {:induction false} RegisterLastKeepsInv(s: State, spine: seq<nat>, rank: map<nat, nat>, alphabet: set<Unit>,
                                                key: Word)
    requires Inv(s, spine, rank, alphabet) && s.unchecked != []
    requires Tip(s) in s.nodes && Productive(s.nodes, Tip(s))
    requires key == Key(s.nodes[Tip(s)].final, s.nodes[Tip(s)].edges) && key !in s.minimized
    ensures Inv(RegisterLast(s, key), spine[..|spine| - 1], rank[Tip(s) := |rank|], alphabet)
  {
    hide TableOf, AllProductive, WellFormed, SideEdgesRegistered, Productive, Key;
    assert Tip(s) == spine[|spine| - 1] && Tip(s) !in rank;
    RegisterWellFormed(s, alphabet, key);
    RegisterChain(s, spine, rank, key);
    RegisterProductive(s, spine, rank, key);
    RegisterTable(s, rank);
  }

  lemma {:induction false} AppendChained(s: State, spine: seq<nat>, rank: map<nat, nat>, via: Unit)
    requires Chained(s, spine, rank) && s.nextId !in s.nodes && s.nextId !in rank
    ensures Tip(s) == spine[|spine| - 1] && Chained(Append(s, via), spine + [s.nextId], rank)
  {
    var s', spine' := Append(s, via), spine + [s.nextId];
    assert Tip(s) == spine[|spine| - 1];
    assert forall i :: 0 <= i < |spine| ==> spine'[i] == spine[i] && spine[i] != s.nextId;
  }

  lemma {:induction false} AppendChain(s: State, spine: seq<nat>, rank: map<nat, nat>, via: Unit)
    requires Chained(s, spine, rank) && SideEdgesRegistered(s, spine, rank)
    requires s.nextId !in s.nodes && s.nextId !in rank
    ensures var s', spine' := Append(s, via), spine + [s.nextId];
            Chained(s', spine', rank) && SideEdgesRegistered(s', spine', rank)
  {
    var s', spine' := Append(s, via), spine + [s.nextId];
    AppendChained(s, spine, rank, via);
    forall i, c | && 0 <= i < |spine'| && c in s'.nodes[spine'[i]].edges
                  && !(i < |s'.unchecked| && c == s'.unchecked[i].via)
      ensures s'.nodes[spine'[i]].edges[c] in rank
    {
      assert s.nodes[spine[i]].edges[c] in rank;
    }
  }

  lemma {:induction false} AppendKeepsInv(s: State, spine: seq<nat>, rank: map<nat, nat>, alphabet: set<Unit>,
                                          via: Unit)
    requires Inv(s, spine, rank, alphabet) && Tip(s) in s.nodes && via in alphabet
    ensures Inv(Append(s, via), spine + [s.nextId], rank, alphabet)
  {
    var s' := Append(s, via);
    assert Tip(s) == spine[|spine| - 1];
    assert s.nextId !in s.nodes;
    assert s'.nodes.Keys == s.nodes.Keys + {s.nextId};
    assert WellFormed(s', alphabet) by {
      forall n, c | n in s'.nodes && c in s'.nodes[n].edges ensures c in alphabet && s'.nodes[n].edges[c] in s'.nodes {
        if n in s.nodes && c in s.nodes[n].edges { assert s.nodes[n].edges[c] in s.nodes; }
      }
    }
    AppendChain(s, spine, rank, via);
    RegistryFrame(s, s', rank);
  }

  lemma {:induction false} MarkFinalChain(s: State, spine: seq<nat>, rank: map<nat, nat>)
    requires Chained(s, spine, rank) && SideEdgesRegistered(s, spine, rank) && Tip(s) in s.nodes
    ensures Chained(MarkFinal(s), spine, rank) && SideEdgesRegistered(MarkFinal(s), spine, rank)
  {
    var s' := MarkFinal(s);
    assert forall n :: n in s.nodes ==> s'.nodes[n].edges == s.nodes[n].edges && s'.nodes[n].str == s.nodes[n].str;
    assert Chained(s', spine, rank);
    forall i, c | 0 <= i < |spine| && c in s'.nodes[spine[i]].edges && !(i < |s'.unchecked| && c == s'.unchecked[i].via)
      ensures s'.nodes[spine[i]].edges[c] in rank
    {
      assert s.nodes[spine[i]].edges[c] in rank;
    }
  }

  lemma {:induction false} MarkFinalKeepsInv(s: State, spine: seq<nat>, rank: map<nat, nat>, alphabet: set<Unit>)
    requires Inv(s, spine, rank, alphabet) && Tip(s) in s.nodes
    ensures Inv(MarkFinal(s), spine, rank, alphabet)
  {
    hide TableOf, AllProductive, Key, SideEdgesRegistered;
    var s' := MarkFinal(s);
    assert Tip(s) == spine[|spine| - 1];
    assert s'.nodes.Keys == s.nodes.Keys;
    assert forall n :: n in s.nodes ==> s'.nodes[n].edges == s.nodes[n].edges;
    MarkFinalChain(s, spine, rank);
    RegistryFrame(s, s', rank);
  }

  // ---------------------------------------------------------------------------------------------
  // Folding the end of the chain
  // ---------------------------------------------------------------------------------------------

  /** One round of minimization: merge the last child into its registered twin, or register it. */
  function FoldLast(s: State): State
    requires s.unchecked != [] && Tip(s) in s.nodes && s.unchecked[|s.unchecked| - 1].parent in s.nodes
  {
    var key := Key(s.nodes[Tip(s)].final, s.nodes[Tip(s)].edges);
    if key in s.minimized then MergeLast(s, s.minimized[key]) else RegisterLast(s, key)
  }

  ghost function FoldRank(s: State, rank: map<nat, nat>): map<nat, nat>
    requires Tip(s) in s.nodes
  {
    if Key(s.nodes[Tip(s)].final, s.nodes[Tip(s)].edges) in s.minimized then rank else rank[Tip(s) := |rank|]
  }

  /** The round registers the child, or merges it into a node with the same contents. */
  predicate TrueFold(s: State)
    requires Tip(s) in s.nodes
  {
    var t := s.nodes[Tip(s)];
    var key := Key(t.final, t.edges);
    key in s.minimized && s.minimized[key] in s.nodes ==>
      s.nodes[s.minimized[key]].final == t.final && s.nodes[s.minimized[key]].edges == t.edges
  }

  lemma MinimizedRegistered(s: State, rank: map<nat, nat>, key: Word)
    requires rank.Keys <= s.nodes.Keys && TableOf(s, rank) && key in s.minimized
    ensures s.minimized[key] in rank
  {}

  /** Where keys are unambiguous, every round is a true one. */
  lemma SafeFoldIsTrue(s: State, spine: seq<nat>, rank: map<nat, nat>, alphabet: set<Unit>)
    requires KeySafe(alphabet) && Inv(s, spine, rank, alphabet) && Tip(s) in s.nodes
    ensures TrueFold(s)
  {
    hide Key, KeySafe, WellFormed, Chained, SideEdgesRegistered, TableOf, AllProductive;
    if Key(s.nodes[Tip(s)].final, s.nodes[Tip(s)].edges) in s.minimized {
      assert rank.Keys <= s.nodes.Keys;
      TwinHasSameContents(s, rank, alphabet, Tip(s));
    }
  }

  lemma ChainEnds(s: State, spine: seq<nat>, rank: map<nat, nat>)
    requires Chained(s, spine, rank)
    ensures Tip(s) == spine[|spine| - 1] && Tip(s) in s.nodes
    ensures s.unchecked != [] ==>
              var l := s.unchecked[|s.unchecked| - 1];
              && l.parent == spine[|spine| - 2] && l.parent in s.nodes
              && l.via in s.nodes[l.parent].edges && s.nodes[l.parent].edges[l.via] == Tip(s)
  {}

  lemma {:induction false} FoldKeepsInv(s: State, spine: seq<nat>, rank: map<nat, nat>, alphabet: set<Unit>)
    requires Inv(s, spine, rank, alphabet) && s.unchecked != []
    requires Tip(s) in s.nodes && s.unchecked[|s.unchecked| - 1].parent in s.nodes && Productive(s.nodes, Tip(s))
    ensures Inv(FoldLast(s), spine[..|spine| - 1], FoldRank(s, rank), alphabet)
  {
    hide Key, WellFormed, Chained, SideEdgesRegistered, TableOf, AllProductive;
    var key := Key(s.nodes[Tip(s)].final, s.nodes[Tip(s)].edges);
    if key in s.minimized {
      assert rank.Keys <= s.nodes.Keys;
      MinimizedRegistered(s, rank, key);
      MergeLastKeepsInv(s, spine, rank, alphabet, s.minimized[key]);
    } else {
      RegisterLastKeepsInv(s, spine, rank, alphabet, key);
    }
  }

  /** A true round changes the language of no node. */
  lemma {:induction false} FoldKeepsLanguage(s: State, spine: seq<nat>, rank: map<nat, nat>, alphabet: set<Unit>,
                                             n: nat, w: Word)
    requires Inv(s, spine, rank, alphabet) && s.unchecked != [] && n in s.nodes
    requires Tip(s) in s.nodes && s.unchecked[|s.unchecked| - 1].parent in s.nodes && TrueFold(s)
    ensures Accepts(FoldLast(s).nodes, n, w) == Accepts(s.nodes, n, w)
  {
    hide Key, SideEdgesRegistered, TableOf, AllProductive;
    var key := Key(s.nodes[Tip(s)].final, s.nodes[Tip(s)].edges);
    ChainEnds(s, spine, rank);
    var l := s.unchecked[|s.unchecked| - 1];
    if key in s.minimized {
      assert rank.Keys <= s.nodes.Keys;
      MinimizedRegistered(s, rank, key);
      RedirectKeepsLanguage(s.nodes, l.parent, l.via, s.minimized[key], n, w);
    } else {
      AcceptsFrame(s.nodes, FoldLast(s).nodes, s.nodes.Keys, n, w);
    }
  }

  /** A true round keeps every registered node within reach. */
  lemma {:induction false} FoldKeepsReached(s: State, spine: seq<nat>, rank: map<nat, nat>, alphabet: set<Unit>)
    requires Inv(s, spine, rank, alphabet) && s.unchecked != [] && AllReached(s.nodes, s.root, rank.Keys)
    requires Tip(s) in s.nodes && s.unchecked[|s.unchecked| - 1].parent in s.nodes && TrueFold(s)
    ensures AllReached(FoldLast(s).nodes, s.root, FoldRank(s, rank).Keys)
  {
    hide Key, SideEdgesRegistered, TableOf, AllProductive, AllReached, Reached;
    var key := Key(s.nodes[Tip(s)].final, s.nodes[Tip(s)].edges);
    ChainEnds(s, spine, rank);
    if key in s.minimized {
      assert rank.Keys <= s.nodes.Keys;
      MinimizedRegistered(s, rank, key);
      assert spine[|spine| - 1] !in rank;
      MergeReached(s, rank, s.minimized[key]);
    } else {
      ChainWalk(s, spine, rank, |spine| - 1);
      GrowReached(s.nodes, FoldLast(s).nodes, s.root, rank.Keys + {Tip(s)}) by {
        AddReached(s.nodes, s.root, rank.Keys, Tip(s));
      }
      assert FoldRank(s, rank).Keys == rank.Keys + {Tip(s)};
    }
  }

  lemma AddReached(st: Store, root: nat, nodes: set<nat>, n: nat)
    requires AllReached(st, root, nodes) && Reached(st, root, n)
    ensures AllReached(st, root, nodes + {n})
  {}

  lemma {:induction false} GrowReached(st: Store, st': Store, root: nat, nodes: set<nat>)
    requires AllReached(st, root, nodes) && st.Keys <= st'.Keys && Extends(st, st')
    ensures AllReached(st', root, nodes)
  {
    forall n | n in nodes ensures Reached(st', root, n) {
      assert Reached(st, root, n);
      var u: Word :| Walks(st, root, u, n);
      WalkGrows(st, st', root, u, n);
    }
  }

  lemma {:induction false} MergeReached(s: State, rank: map<nat, nat>, m: nat)
    requires s.unchecked != [] && AllReached(s.nodes, s.root, rank.Keys)
    requires var l := s.unchecked[|s.unchecked| - 1];
             && l.parent in s.nodes && l.via in s.nodes[l.parent].edges && s.nodes[l.parent].edges[l.via] == Tip(s)
    requires Tip(s) in s.nodes && Tip(s) !in rank && m in s.nodes && s.nodes[m].edges == s.nodes[Tip(s)].edges
    ensures AllReached(MergeLast(s, m).nodes, s.root, rank.Keys)
  {
    var l := s.unchecked[|s.unchecked| - 1];
    forall n | n in rank.Keys ensures Reached(MergeLast(s, m).nodes, s.root, n) {
      assert Reached(s.nodes, s.root, n);
      var u: Word :| Walks(s.nodes, s.root, u, n);
      RedirectKeepsWalk(s.nodes, l.parent, l.via, m, s.root, u, n);
    }
  }

  /** Folding leaves every registered node as it is. */
  lemma {:induction false} FoldKeepsRegistered(s: State, spine: seq<nat>, rank: map<nat, nat>)
    requires Chained(s, spine, rank) && s.unchecked != [] && rank.Keys <= s.nodes.Keys
    requires Tip(s) in s.nodes && s.unchecked[|s.unchecked| - 1].parent in s.nodes
    ensures FoldLast(s).nodes.Keys == s.nodes.Keys
    ensures rank.Keys <= FoldRank(s, rank).Keys
    ensures forall n :: n in rank ==> FoldLast(s).nodes[n] == s.nodes[n]
  {
    hide Key;
    ChainEnds(s, spine, rank);
    assert spine[|spine| - 1] !in rank && spine[|spine| - 2] !in rank;
  }

  lemma {:induction false} FoldKeepsSpelling(s: State, spine: seq<nat>, rank: map<nat, nat>, path: Word)
    requires Chained(s, spine, rank) && Spells(s, spine, path) && s.unchecked != []
    requires Tip(s) in s.nodes && s.unchecked[|s.unchecked| - 1].parent in s.nodes
    ensures Spells(FoldLast(s), spine[..|spine| - 1], path)
  {
    hide Key;
    ChainEnds(s, spine, rank);
    var s', spine' := FoldLast(s), spine[..|spine| - 1];
    forall i, c | 0 <= i < |spine'| && c in s'.nodes[spine'[i]].edges ensures i < |path| && c <= path[i] {
      assert s.nodes[spine[i]].edges[c] == s.nodes[spine[i]].edges[c];
    }
  }

  /** Registered nodes accept the same words after a round, true or not. */
  lemma {:induction false} FoldKeepsRegisteredWords(s: State, spine: seq<nat>, rank: map<nat, nat>, alphabet: set<Unit>,
                                                    n: nat, w: Word)
    requires Inv(s, spine, rank, alphabet) && s.unchecked != [] && n in rank
    requires Tip(s) in s.nodes && s.unchecked[|s.unchecked| - 1].parent in s.nodes
    ensures Accepts(FoldLast(s).nodes, n, w) == Accepts(s.nodes, n, w)
  {
    hide Key, SideEdgesRegistered, TableOf, AllProductive, FoldLast;
    FoldKeepsRegistered(s, spine, rank);
    AcceptsFrame(s.nodes, FoldLast(s).nodes, rank.Keys, n, w);
  }

  /** Where the last edge of the chain leads after a round. */
  lemma {:induction false} FoldTarget(s: State, spine: seq<nat>, rank: map<nat, nat>, alphabet: set<Unit>)
    returns (m: nat, via: Unit)
    requires Inv(s, spine, rank, alphabet) && s.unchecked != []
    requires Tip(s) in s.nodes && s.unchecked[|s.unchecked| - 1].parent in s.nodes
    ensures var s' := FoldLast(s);
            && Tip(s') == s.unchecked[|s.unchecked| - 1].parent && Tip(s') in s'.nodes
            && via == s.unchecked[|s.unchecked| - 1].via && via in s'.nodes[Tip(s')].edges
            && s'.nodes[Tip(s')].edges[via] == m && m in s.nodes
            && (if Key(s.nodes[Tip(s)].final, s.nodes[Tip(s)].edges) in s.minimized
                then m in rank && m == s.minimized[Key(s.nodes[Tip(s)].final, s.nodes[Tip(s)].edges)]
                else m == Tip(s))
  {
    hide Key, SideEdgesRegistered, TableOf, AllProductive;
    ChainEnds(s, spine, rank);
    var key := Key(s.nodes[Tip(s)].final, s.nodes[Tip(s)].edges);
    via := s.unchecked[|s.unchecked| - 1].via;
    assert rank.Keys <= s.nodes.Keys;
    if key in s.minimized {
      MinimizedRegistered(s, rank, key);
      m := s.minimized[key];
    } else {
      m := Tip(s);
      assert spine[|spine| - 2] != spine[|spine| - 1];
    }
    var s' := FoldLast(s);
    if s'.unchecked != [] { assert s.unchecked[|s.unchecked| - 2].child == spine[|spine| - 2]; }
  }

  /** A word can still be read from the new end of the chain. */
  lemma {:induction false} FoldKeepsTipProductive(s: State, spine: seq<nat>, rank: map<nat, nat>, alphabet: set<Unit>)
    requires Inv(s, spine, rank, alphabet) && s.unchecked != []
    requires Tip(s) in s.nodes && s.unchecked[|s.unchecked| - 1].parent in s.nodes && Productive(s.nodes, Tip(s))
    ensures Productive(FoldLast(s).nodes, Tip(FoldLast(s)))
  {
    hide Key, WellFormed, Chained, SideEdgesRegistered, TableOf, FoldLast;
    var m, via := FoldTarget(s, spine, rank, alphabet);
    var st' := FoldLast(s).nodes;
    assert Productive(s.nodes, m);
    var w: Word :| Accepts(s.nodes, m, w);
    if m in rank {
      FoldKeepsRegisteredWords(s, spine, rank, alphabet, m, w);
    } else {
      assert TrueFold(s);
      FoldKeepsLanguage(s, spine, rank, alphabet, m, w);
    }
    var v := [via] + w;
    assert v[1..] == w && Accepts(st', Tip(FoldLast(s)), v);
  }

  // ---------------------------------------------------------------------------------------------
  // The whole construction as a function of the words
  // ---------------------------------------------------------------------------------------------

  predicate Foldable(s: State) {
    s.unchecked != [] && Tip(s) in s.nodes && s.unchecked[|s.unchecked| - 1].parent in s.nodes
  }

  /** Rounds of minimization until the chain has length `k`. */
  function FoldTo(s: State, k: nat): State
    decreases |s.unchecked|
  {
    if |s.unchecked| <= k || !Foldable(s) then s else FoldTo(FoldLast(s), k)
  }

  /** Fresh nodes for `word` from position `i` on. */
  function AppendAll(s: State, word: Word, i: nat): State
    decreases |word| - i
  {
    if i >= |word| || Tip(s) !in s.nodes then s else AppendAll(Append(s, word[i]), word, i + 1)
  }

  /** Length of the common prefix. */
  function Common(a: Word, b: Word): nat {
    if a != [] && b != [] && a[0] == b[0] then 1 + Common(a[1..], b[1..]) else 0
  }

  function MarkTipFinal(s: State): State { if Tip(s) in s.nodes then MarkFinal(s) else s }

  /** The builder after `word` is inserted behind `prev`. */
  function Inserted(s: State, prev: Word, word: Word): State {
    var k := Common(prev, word);
    MarkTipFinal(AppendAll(FoldTo(s, k), word, k))
  }

  /** The finished builder after the rest of a list. */
  function BuiltFrom(s: State, prev: Word, arr: seq<Word>): State
    decreases |arr|
  {
    if arr == [] then FoldTo(s, 0) else BuiltFrom(Inserted(s, prev, arr[0]), arr[0], arr[1..])
  }

  function NewState(firstId: nat): State { State(map[firstId := EMPTY_NODE], firstId, [], map[], firstId + 1) }

  /** The finished builder after a whole list. */
  function Built(arr: seq<Word>, firstId: nat): State { BuiltFrom(NewState(firstId), [], arr) }

  lemma FoldToStep(s: State, k: nat)
    ensures |s.unchecked| <= k ==> FoldTo(s, k) == s
    ensures |s.unchecked| > k && Foldable(s) ==> FoldTo(s, k) == FoldTo(FoldLast(s), k)
  {
    hide FoldLast;
  }

  lemma AppendAllStep(s: State, word: Word, i: nat)
    ensures i >= |word| ==> AppendAll(s, word, i) == s
    ensures i < |word| && Tip(s) in s.nodes ==> AppendAll(s, word, i) == AppendAll(Append(s, word[i]), word, i + 1)
  {
    hide Append;
  }

  lemma BuiltFromStep(s: State, prev: Word, arr: seq<Word>, i: nat)
    requires i < |arr|
    ensures BuiltFrom(s, prev, arr[i..]) == BuiltFrom(Inserted(s, prev, arr[i]), arr[i], arr[i + 1..])
  {
    hide Inserted;
    assert arr[i..][1..] == arr[i + 1..];
  }

  lemma BuiltFromEnd(s: State, prev: Word, arr: seq<Word>)
    requires arr == []
    ensures BuiltFrom(s, prev, arr) == FoldTo(s, 0)
  {}

  /** The automaton of a list accepts exactly its words. */
  ghost predicate Exact(arr: seq<Word>, firstId: nat) {
    forall w: Word :: Accepts(Built(arr, firstId).nodes, Built(arr, firstId).root, w) <==> w in arr
  }

  // ---------------------------------------------------------------------------------------------
  // Word order
  // ---------------------------------------------------------------------------------------------

  /** The order of strings: by the first differing code unit, a proper prefix first. */
  predicate Less(a: Word, b: Word) {
    && b != []
    && (a == [] || a[0] < b[0] || (a[0] == b[0] && Less(a[1..], b[1..])))
  }

  /** Where a word that is not smaller leaves the common prefix, it is larger. */
  lemma {:induction false} LeavesUpwards(prev: Word, word: Word, k: nat)
    requires !Less(word, prev)
    requires k <= |prev| && k <= |word| && prev[..k] == word[..k]
    requires k < |prev| && k < |word| ==> prev[k] != word[k]
    ensures k < |prev| ==> k < |word| && prev[k] < word[k]
    decreases k
  {
    if k > 0 && prev != [] && word != [] {
      assert prev[0] == prev[..k][0] == word[..k][0] == word[0];
      assert prev[1..][..k - 1] == prev[..k][1..] == word[..k][1..] == word[1..][..k - 1];
      LeavesUpwards(prev[1..], word[1..], k - 1);
      if k < |prev| {
        assert prev[1..][k - 1] == prev[k];
        assert word[1..][k - 1] == word[k];
      }
    } else if k < |prev| {
      assert word != [] && !(word[0] < prev[0]);
    }
  }

  ghost predicate Letters(word: Word, alphabet: set<Unit>) {
    forall i :: 0 <= i < |word| ==> word[i] in alphabet
  }

  /** A chain that spells the whole of `prev` can be continued along a larger word. */
  lemma {:induction false} SwitchPath(s: State, spine: seq<nat>, prev: Word, word: Word, k: nat)
    requires Spells(s, spine, prev) && |s.unchecked| == k
    requires k <= |prev| && k <= |word| && prev[..k] == word[..k]
    requires k < |prev| ==> k < |word| && prev[k] < word[k]
    ensures Spells(s, spine, word)
    ensures forall c :: c in s.nodes[spine[k]].edges ==> k < |word| && c < word[k]
  {
    assert forall i :: 0 <= i < k ==> prev[i] == prev[..k][i] && word[i] == word[..k][i];
    forall i, c | 0 <= i < |spine| && c in s.nodes[spine[i]].edges ensures i < |word| && c <= word[i] {
      assert s.nodes[spine[i]].edges[c] == s.nodes[spine[i]].edges[c];
    }
    forall c | c in s.nodes[spine[k]].edges ensures k < |word| && c < word[k] {
      assert s.nodes[spine[k]].edges[c] == s.nodes[spine[k]].edges[c];
    }
  }

  lemma {:induction false} AppendKeepsSpelling(s: State, spine: seq<nat>, rank: map<nat, nat>, word: Word)
    requires Chained(s, spine, rank) && Spells(s, spine, word) && |s.unchecked| < |word| && s.nextId !in s.nodes
    ensures Spells(Append(s, word[|s.unchecked|]), spine + [s.nextId], word)
    ensures Append(s, word[|s.unchecked|]).nodes[s.nextId].edges == map[]
  {
    ChainEnds(s, spine, rank);
    var k := |s.unchecked|;
    var s', spine' := Append(s, word[k]), spine + [s.nextId];
    forall i, c | 0 <= i < |spine'| && c in s'.nodes[spine'[i]].edges ensures i < |word| && c <= word[i] {
      if i < |spine| && c in s.nodes[spine[i]].edges {
        assert s.nodes[spine[i]].edges[c] == s.nodes[spine[i]].edges[c];
      }
    }
  }

  /** All registered nodes are within reach and the automaton accepts exactly `words`. */
  ghost predicate Correct(s: State, rank: map<nat, nat>, words: set<Word>) {
    && AllReached(s.nodes, s.root, rank.Keys)
    && (forall w: Word :: Accepts(s.nodes, s.root, w) <==> w in words)
  }

  /** What holds between any two rounds: the chain lies on `path`; with true rounds, all is correct. */
  ghost predicate Ready(s: State, spine: seq<nat>, rank: map<nat, nat>, alphabet: set<Unit>, path: Word,
                        words: set<Word>, allTrue: bool) {
    && Inv(s, spine, rank, alphabet)
    && Spells(s, spine, path)
    && (s.unchecked != [] ==> Productive(s.nodes, Tip(s)))
    && (allTrue ==> Correct(s, rank, words))
  }

  lemma {:induction false} TrueFoldKeepsCorrect(s: State, spine: seq<nat>, rank: map<nat, nat>, alphabet: set<Unit>,
                                                words: set<Word>)
    requires Inv(s, spine, rank, alphabet) && s.unchecked != [] && Correct(s, rank, words)
    requires Tip(s) in s.nodes && s.unchecked[|s.unchecked| - 1].parent in s.nodes && TrueFold(s)
    ensures Correct(FoldLast(s), FoldRank(s, rank), words)
  {
    hide Key, SideEdgesRegistered, TableOf, AllProductive, AllReached, FoldLast, FoldRank, TrueFold;
    ChainEnds(s, spine, rank);
    FoldRoot(s);
    FoldKeepsReached(s, spine, rank, alphabet);
    forall w: Word ensures Accepts(FoldLast(s).nodes, s.root, w) == Accepts(s.nodes, s.root, w) {
      assert s.root == spine[0];
      FoldKeepsLanguage(s, spine, rank, alphabet, s.root, w);
    }
  }

  lemma {:induction false} FoldKeepsReady(s: State, spine: seq<nat>, rank: map<nat, nat>, alphabet: set<Unit>,
                                          path: Word, words: set<Word>, allTrue: bool)
    requires Ready(s, spine, rank, alphabet, path, words, allTrue) && s.unchecked != []
    ensures Tip(s) in s.nodes && s.unchecked[|s.unchecked| - 1].parent in s.nodes
    ensures Ready(FoldLast(s), spine[..|spine| - 1], FoldRank(s, rank), alphabet, path, words, allTrue && TrueFold(s))
    ensures KeySafe(alphabet) ==> TrueFold(s)
    ensures s.nodes[Tip(s)].str.None? && |spine| == |s.unchecked| + 1
    ensures rank.Keys <= s.nodes.Keys && rank.Keys <= FoldRank(s, rank).Keys && FoldLast(s).nodes.Keys == s.nodes.Keys
    ensures forall n :: n in rank ==> FoldLast(s).nodes[n] == s.nodes[n]
  {
    hide Key, KeySafe, SideEdgesRegistered, TableOf, AllProductive, Spells, Productive, Correct;
    hide FoldLast, FoldRank, TrueFold;
    ChainEnds(s, spine, rank);
    FoldKeepsInv(s, spine, rank, alphabet);
    FoldKeepsSpelling(s, spine, rank, path);
    FoldKeepsTipProductive(s, spine, rank, alphabet);
    FoldKeepsRegistered(s, spine, rank);
    if allTrue && TrueFold(s) { TrueFoldKeepsCorrect(s, spine, rank, alphabet, words); }
    if KeySafe(alphabet) { SafeFoldIsTrue(s, spine, rank, alphabet); }
  }

  lemma FoldRoot(s: State)
    requires s.unchecked != [] && Tip(s) in s.nodes && s.unchecked[|s.unchecked| - 1].parent in s.nodes
    ensures FoldLast(s).root == s.root && FoldLast(s).unchecked == s.unchecked[..|s.unchecked| - 1]
  {
    hide Key;
  }

  /** While the rest of `word` is appended: the next label is still free, the language unchanged. */
  ghost predicate Extending(s: State, spine: seq<nat>, rank: map<nat, nat>, alphabet: set<Unit>, word: Word,
                            words: set<Word>, allTrue: bool) {
    && Inv(s, spine, rank, alphabet)
    && Spells(s, spine, word)
    && (allTrue ==> Correct(s, rank, words))
    && (forall c {:trigger c in s.nodes[spine[|spine| - 1]].edges} ::
          c in s.nodes[spine[|spine| - 1]].edges ==> |s.unchecked| < |word| && c < word[|s.unchecked|])
  }

  lemma {:induction false} StartExtending(s: State, spine: seq<nat>, rank: map<nat, nat>, alphabet: set<Unit>,
                                          prev: Word, word: Word, words: set<Word>, allTrue: bool)
    requires Ready(s, spine, rank, alphabet, prev, words, allTrue)
    requires var k := |s.unchecked|;
             && k <= |prev| && k <= |word| && prev[..k] == word[..k]
             && (k < |prev| ==> k < |word| && prev[k] < word[k])
    ensures Extending(s, spine, rank, alphabet, word, words, allTrue)
  {
    hide Key, SideEdgesRegistered, Registered, WellFormed, Correct;
    SwitchPath(s, spine, prev, word, |s.unchecked|);
  }

  lemma {:induction false} AppendKeepsExtending(s: State, spine: seq<nat>, rank: map<nat, nat>, alphabet: set<Unit>,
                                                word: Word, words: set<Word>, allTrue: bool)
    requires Extending(s, spine, rank, alphabet, word, words, allTrue) && |s.unchecked| < |word|
    requires word[|s.unchecked|] in alphabet
    ensures Tip(s) in s.nodes
    ensures Extending(Append(s, word[|s.unchecked|]), spine + [s.nextId], rank, alphabet, word, words, allTrue)
  {
    hide Key, SideEdgesRegistered, Registered, AllReached;
    var via := word[|s.unchecked|];
    ChainEnds(s, spine, rank);
    assert s.nextId !in s.nodes;
    AppendKeepsInv(s, spine, rank, alphabet, via);
    AppendKeepsSpelling(s, spine, rank, word);
    if allTrue { GrowReached(s.nodes, Append(s, via).nodes, s.root, rank.Keys); }
    forall w: Word ensures Accepts(Append(s, via).nodes, s.root, w) == Accepts(s.nodes, s.root, w) {
      ExtendKeepsLanguage(s.nodes, Tip(s), via, s.nextId, s.root, w);
    }
  }

  lemma {:induction false} MarkFinalAddsWord(s: State, spine: seq<nat>, rank: map<nat, nat>, alphabet: set<Unit>,
                                             word: Word, words: set<Word>, allTrue: bool)
    requires Extending(s, spine, rank, alphabet, word, words, allTrue) && |s.unchecked| == |word|
    ensures Tip(s) in s.nodes
    ensures Ready(MarkFinal(s), spine, rank, alphabet, word, words + {word}, allTrue)
  {
    hide Key, TableOf, AllProductive, AllReached;
    ChainEnds(s, spine, rank);
    var s' := MarkFinal(s);
    MarkFinalKeepsInv(s, spine, rank, alphabet);
    if allTrue { GrowReached(s.nodes, s'.nodes, s.root, rank.Keys); }
    assert Spells(s', spine, word) by {
      forall i, c | 0 <= i < |spine| && c in s'.nodes[spine[i]].edges ensures i < |word| && c <= word[i] {
        assert s.nodes[spine[i]].edges[c] == s.nodes[spine[i]].edges[c];
      }
    }
    assert Accepts(s'.nodes, Tip(s'), []);
    forall w: Word ensures Accepts(s'.nodes, s.root, w) <==> Accepts(s.nodes, s.root, w) || w == word {
      MarkFinalAddsChainWord(s, spine, rank, word, 0, w);
      assert word[0..] == word;
    }
  }

  lemma ExtendingKeepsRegistered(s: State, spine: seq<nat>, rank: map<nat, nat>, alphabet: set<Unit>, word: Word,
                                 words: set<Word>, allTrue: bool)
    requires Extending(s, spine, rank, alphabet, word, words, allTrue)
    ensures rank.Keys <= s.nodes.Keys && Tip(s) !in rank && s.nextId !in s.nodes && Tip(s) in s.nodes
  {
    hide Key, TableOf, AllProductive;
    ChainEnds(s, spine, rank);
  }

  /** Counts the units that two words have in common at their start. */
  method CommonPrefix(prev: Word, word: Word) returns (k: nat)
    ensures k == Common(prev, word)
    ensures k <= |prev| && k <= |word| && prev[..k] == word[..k]
    ensures k < |prev| && k < |word| ==> prev[k] != word[k]
  {
    k := 0;
    while k < |word| && k < |prev| && word[k] == prev[k]
      invariant k <= |word| && k <= |prev| && prev[..k] == word[..k]
      invariant Common(prev, word) == k + Common(prev[k..], word[k..])
    {
      assert prev[k..][1..] == prev[k + 1..] && word[k..][1..] == word[k + 1..];
      k := k + 1;
    }
  }

  class Builder {
    var nodes: Store
    var root: nat
    var uncheckedNodes: seq<Link>
    var minimizedNodes: map<Word, nat>
    var previousWord: Word
    var nextId: nat
    ghost var spine: seq<nat>
    ghost var rank: map<nat, nat>
    ghost const alphabet: set<Unit>
    ghost var words: set<Word>
    /** Every merge so far went to a node with the same contents. */
    ghost var allTrue: bool

    ghost function View(): State
      reads this
    {
      State(nodes, root, uncheckedNodes, minimizedNodes, nextId)
    }

    ghost predicate Building()
      reads this
    {
      Ready(View(), spine, rank, alphabet, previousWord, words, allTrue) && (KeySafe(alphabet) ==> allTrue)
    }

    /** Ready for the next word: the whole previous word is still on the chain. */
    ghost predicate Valid()
      reads this
    {
      Building() && |uncheckedNodes| == |previousWord|
    }

    constructor (firstId: nat, ghost alphabet: set<Unit>)
      ensures Valid() && View() == NewState(firstId) && this.alphabet == alphabet
      ensures words == {} && rank == map[] && previousWord == [] && allTrue
    {
      nodes := map[firstId := EMPTY_NODE];
      root := firstId;
      uncheckedNodes := [];
      minimizedNodes := map[];
      previousWord := [];
      nextId := firstId + 1;
      spine := [firstId];
      rank := map[];
      this.alphabet := alphabet;
      words := {};
      allTrue := true;
    }

    /** One round of the minimization loop. */
    method FoldEnd()
      requires uncheckedNodes != [] && Tip(View()) in nodes && nodes[Tip(View())].str.None?
      requires uncheckedNodes[|uncheckedNodes| - 1].parent in nodes
      modifies this`nodes, this`uncheckedNodes, this`minimizedNodes
      ensures View() == FoldLast(old(View()))
    {
      hide Key;
      var link := uncheckedNodes[|uncheckedNodes| - 1];
      var childKey := NodeKey(nodes[link.child]);
      if childKey in minimizedNodes {
        var parent := nodes[link.parent];
        nodes := nodes[link.parent := parent.(edges := parent.edges[link.via := minimizedNodes[childKey]])];
      } else {
        nodes := nodes[link.child := nodes[link.child].(str := Some(childKey))];
        minimizedNodes := minimizedNodes[childKey := link.child];
      }
      uncheckedNodes := uncheckedNodes[..|uncheckedNodes| - 1];
    }

    /** Folds the chain down to depth `downTo`. */
    method Minimize(downTo: nat)
      requires Building() && downTo <= |uncheckedNodes|
      modifies this`nodes, this`uncheckedNodes, this`minimizedNodes, this`spine, this`rank, this`allTrue
      ensures Building() && uncheckedNodes == old(uncheckedNodes[..downTo])
      ensures View() == FoldTo(old(View()), downTo)
      ensures old(rank.Keys) <= old(nodes.Keys) && nodes.Keys == old(nodes.Keys)
      ensures rank.Keys >= old(rank.Keys) && forall n :: n in old(rank) ==> nodes[n] == old(nodes[n])
    {
      hide Ready, Key, FoldLast, FoldRank, TrueFold, KeySafe, FoldTo;
      RegisteredExist(View(), spine, rank, alphabet, previousWord, words, allTrue);
      var i := |uncheckedNodes|;
      assert uncheckedNodes == uncheckedNodes[..i];
      while i > downTo
        invariant downTo <= i <= |old(uncheckedNodes)|
        invariant Building() && uncheckedNodes == old(uncheckedNodes[..i])
        invariant FoldTo(View(), downTo) == FoldTo(old(View()), downTo)
        invariant nodes.Keys == old(nodes.Keys)
        invariant rank.Keys >= old(rank.Keys) && forall n :: n in old(rank) ==> nodes[n] == old(nodes[n])
      {
        ghost var s := View();
        FoldKeepsReady(s, spine, rank, alphabet, previousWord, words, allTrue);
        FoldRoot(s);
        FoldToStep(s, downTo);
        FoldEnd();
        spine, rank, allTrue := spine[..|spine| - 1], FoldRank(s, rank), allTrue && TrueFold(s);
        i := i - 1;
      }
      FoldToStep(View(), downTo);
    }

    /** Adds a word; a word smaller than the previous one is rejected and changes nothing. */
    method Insert(word: Word) returns (ok: bool)
      requires Valid() && Letters(word, alphabet)
      modifies this
      ensures Valid()
      ensures ok <==> !Less(word, old(previousWord))
      ensures ok ==> words == old(words) + {word} && previousWord == word
      ensures ok ==> View() == Inserted(old(View()), old(previousWord), word)
      ensures !ok ==> View() == old(View()) && words == old(words) && previousWord == old(previousWord)
      ensures old(rank.Keys) <= old(nodes.Keys) * nodes.Keys * rank.Keys
      ensures forall n :: n in old(rank) ==> nodes[n] == old(nodes[n])
    {
      hide Ready, Extending, Key, Less, Common, FoldTo, AppendAll, MarkTipFinal;
      RegisteredExist(View(), spine, rank, alphabet, previousWord, words, allTrue);
      if Less(word, previousWord) {
        return false;
      }
      var commonPrefix := CommonPrefix(previousWord, word);
      LeavesUpwards(previousWord, word, commonPrefix);
      Minimize(commonPrefix);
      StartExtending(View(), spine, rank, alphabet, previousWord, word, words, allTrue);
      AppendRest(word, commonPrefix);
      MarkTip(word);
      ok := true;
    }

    method AppendRest(word: Word, commonPrefix: nat)
      requires Extending(View(), spine, rank, alphabet, word, words, allTrue) && Letters(word, alphabet)
      requires |uncheckedNodes| == commonPrefix <= |word|
      modifies this`nodes, this`uncheckedNodes, this`nextId, this`spine
      ensures Extending(View(), spine, rank, alphabet, word, words, allTrue) && |uncheckedNodes| == |word|
      ensures View() == AppendAll(old(View()), word, commonPrefix)
      ensures rank.Keys <= old(nodes.Keys) <= nodes.Keys && forall n :: n in rank ==> nodes[n] == old(nodes[n])
    {
      hide Extending, AppendAll;
      ExtendingKeepsRegistered(View(), spine, rank, alphabet, word, words, allTrue);
      var node := if uncheckedNodes == [] then root else uncheckedNodes[|uncheckedNodes| - 1].child;
      var i := commonPrefix;
      while i < |word|
        invariant commonPrefix <= i <= |word| && |uncheckedNodes| == i
        invariant node == Tip(View())
        invariant Extending(View(), spine, rank, alphabet, word, words, allTrue)
        invariant AppendAll(View(), word, i) == AppendAll(old(View()), word, commonPrefix)
        invariant rank.Keys <= old(nodes.Keys) <= nodes.Keys && forall n :: n in rank ==> nodes[n] == old(nodes[n])
      {
        ExtendingKeepsRegistered(View(), spine, rank, alphabet, word, words, allTrue);
        AppendKeepsExtending(View(), spine, rank, alphabet, word, words, allTrue);
        ghost var s := View();
        AppendAllStep(s, word, i);
        var nextNode := nextId;
        nodes := nodes[nextNode := EMPTY_NODE];
        nextId := nextId + 1;
        nodes := nodes[node := nodes[node].(edges := nodes[node].edges[word[i] := nextNode])];
        uncheckedNodes := uncheckedNodes + [Link(node, word[i], nextNode)];
        spine := spine + [nextNode];
        assert View() == Append(s, word[i]);
        node := nextNode;
        i := i + 1;
      }
      AppendAllStep(View(), word, i);
    }

    method MarkTip(word: Word)
      requires Extending(View(), spine, rank, alphabet, word, words, allTrue) && |uncheckedNodes| == |word|
      requires KeySafe(alphabet) ==> allTrue
      modifies this`nodes, this`previousWord, this`words
      ensures Valid() && previousWord == word && words == old(words) + {word}
      ensures View() == MarkTipFinal(old(View()))
      ensures rank.Keys <= old(nodes.Keys) <= nodes.Keys && forall n :: n in rank ==> nodes[n] == old(nodes[n])
    {
      hide Extending, Ready;
      ExtendingKeepsRegistered(View(), spine, rank, alphabet, word, words, allTrue);
      MarkFinalAddsWord(View(), spine, rank, alphabet, word, words, allTrue);
      var node := if uncheckedNodes == [] then root else uncheckedNodes[|uncheckedNodes| - 1].child;
      nodes := nodes[node := nodes[node].(final := true)];
      previousWord := word;
      words := words + {word};
    }

    /** Registers what is left of the chain. */
    method Finish()
      requires Valid()
      modifies this`nodes, this`uncheckedNodes, this`minimizedNodes, this`spine, this`rank, this`allTrue
      ensures Building() && uncheckedNodes == [] && View() == FoldTo(old(View()), 0)
    {
      Minimize(0);
    }
  }

  lemma RegisteredExist(s: State, spine: seq<nat>, rank: map<nat, nat>, alphabet: set<Unit>, path: Word,
                        words: set<Word>, allTrue: bool)
    requires Ready(s, spine, rank, alphabet, path, words, allTrue)
    ensures rank.Keys <= s.nodes.Keys
  {}

  // ---------------------------------------------------------------------------------------------
  // Minimality
  // ---------------------------------------------------------------------------------------------

  /** Registered nodes with the same language are the same node. */
  lemma {:induction false} RegisteredDistinct(s: State, rank: map<nat, nat>, a: nat, b: nat)
    requires Registered(s, rank) && a in rank && b in rank && SameLanguage(s.nodes, a, b)
    ensures a == b
    decreases rank[a] + rank[b]
  {
    hide Key, AllProductive;
    LabelsAgree(s, rank, a, b);
    LabelsAgree(s, rank, b, a);
    forall c | c in s.nodes[a].edges ensures s.nodes[a].edges[c] == s.nodes[b].edges[c] {
      var a', b' := s.nodes[a].edges[c], s.nodes[b].edges[c];
      forall w: Word ensures Accepts(s.nodes, a', w) == Accepts(s.nodes, b', w) {
        assert ([c] + w)[1..] == w;
        assert Accepts(s.nodes, a, [c] + w) == Accepts(s.nodes, b, [c] + w);
      }
      RegisteredDistinct(s, rank, a', b');
    }
    assert s.nodes[a].final == s.nodes[b].final by {
      assert Accepts(s.nodes, a, []) == Accepts(s.nodes, b, []);
    }
    assert s.nodes[a].edges == s.nodes[b].edges;
    assert s.nodes[a].str == s.nodes[b].str;
  }

  /** A label of one node is a label of every node with the same language. */
  lemma {:induction false} LabelsAgree(s: State, rank: map<nat, nat>, a: nat, b: nat)
    requires Registered(s, rank) && a in rank && b in s.nodes && SameLanguage(s.nodes, a, b)
    ensures s.nodes[a].edges.Keys <= s.nodes[b].edges.Keys
  {
    hide Key, TableOf;
    forall c | c in s.nodes[a].edges ensures c in s.nodes[b].edges {
      var a' := s.nodes[a].edges[c];
      assert a' in rank && Productive(s.nodes, a');
      var w: Word :| Accepts(s.nodes, a', w);
      assert ([c] + w)[1..] == w;
      assert Accepts(s.nodes, a, [c] + w) == Accepts(s.nodes, b, [c] + w);
    }
  }

  /** An accepted word is no longer than the rank of the node it is read from. */
  lemma {:induction false} RankBoundsWords(st: Store, nodes: set<nat>, rank: map<nat, nat>, n: nat, w: Word)
    requires Ranked(st, nodes, rank) && n in nodes && Accepts(st, n, w)
    ensures |w| <= rank[n]
    decreases |w|
  {
    if w != [] {
      RankBoundsWords(st, nodes, rank, st[n].edges[w[0]], w[1..]);
    }
  }

  lemma {:induction false} WalkAccepts(st: Store, a: nat, u: Word, b: nat, w: Word)
    requires Walks(st, a, u, b) && Accepts(st, b, w)
    ensures Accepts(st, a, u + w)
    decreases |u|
  {
    if u == [] {
      assert [] + w == w;
    } else {
      WalkAccepts(st, st[a].edges[u[0]], u[1..], b, w);
      assert (u + w)[1..] == u[1..] + w;
    }
  }

  /** If the root had the language of a node below it, that node would accept words of any length. */
  lemma {:induction false} UnboundedWords(st: Store, root: nat, u: Word, n: nat, k: nat)
    requires u != [] && Walks(st, root, u, n) && Productive(st, n) && SameLanguage(st, root, n)
    ensures exists w: Word :: Accepts(st, n, w) && |w| >= k
  {
    if k == 0 {
      var w: Word :| Accepts(st, n, w);
      assert |w| >= 0;
    } else {
      UnboundedWords(st, root, u, n, k - 1);
      var w: Word :| Accepts(st, n, w) && |w| >= k - 1;
      WalkAccepts(st, root, u, n, w);
      assert Accepts(st, n, u + w) && |u + w| >= k;
    }
  }

  lemma {:induction false} RootDistinct(s: State, rank: map<nat, nat>, n: nat)
    requires Registered(s, rank) && n in rank && s.root !in rank && Reached(s.nodes, s.root, n)
    ensures !SameLanguage(s.nodes, s.root, n)
  {
    hide Key, TableOf;
    if SameLanguage(s.nodes, s.root, n) {
      var u: Word :| Walks(s.nodes, s.root, u, n);
      assert Productive(s.nodes, n);
      UnboundedWords(s.nodes, s.root, u, n, rank[n] + 1);
      var w: Word :| Accepts(s.nodes, n, w) && |w| >= rank[n] + 1;
      RankBoundsWords(s.nodes, rank.Keys, rank, n, w);
    }
  }

  // ---------------------------------------------------------------------------------------------
  // Exactly the true rounds keep the language
  // ---------------------------------------------------------------------------------------------

  /** The labels along the first `i` edges of the chain. */
  ghost function Vias(s: State, i: nat): Word
    requires i <= |s.unchecked|
  {
    seq(i, k requires 0 <= k < i => s.unchecked[k].via)
  }

  lemma {:induction false} ChainAccepts(s: State, spine: seq<nat>, rank: map<nat, nat>, i: nat, v: Word)
    requires Chained(s, spine, rank) && i <= |s.unchecked|
    ensures Accepts(s.nodes, s.root, Vias(s, i) + v) == Accepts(s.nodes, spine[i], v)
    decreases i
  {
    if i == 0 {
      assert Vias(s, 0) + v == v;
    } else {
      var l := s.unchecked[i - 1];
      var w := [l.via] + v;
      assert Vias(s, i) + v == Vias(s, i - 1) + w;
      ChainAccepts(s, spine, rank, i - 1, w);
      assert w[1..] == v && s.nodes[spine[i - 1]].edges[l.via] == spine[i];
    }
  }

  /** Labels of the end of the chain, whose edges all lead to registered nodes. */
  lemma {:induction false} TipLabelsAgree(s: State, spine: seq<nat>, rank: map<nat, nat>, alphabet: set<Unit>, m: nat)
    requires Inv(s, spine, rank, alphabet) && m in rank && Tip(s) in s.nodes && SameLanguage(s.nodes, Tip(s), m)
    ensures s.nodes[Tip(s)].edges.Keys <= s.nodes[m].edges.Keys
    ensures forall c :: c in s.nodes[Tip(s)].edges ==> s.nodes[Tip(s)].edges[c] in rank
  {
    hide Key, TableOf, WellFormed;
    ChainEnds(s, spine, rank);
    var t := Tip(s);
    forall c | c in s.nodes[t].edges ensures c in s.nodes[m].edges && s.nodes[t].edges[c] in rank {
      var a := s.nodes[t].edges[c];
      assert s.nodes[spine[|spine| - 1]].edges[c] in rank;
      assert Productive(s.nodes, a);
      var w: Word :| Accepts(s.nodes, a, w);
      assert ([c] + w)[1..] == w;
      assert Accepts(s.nodes, t, [c] + w) == Accepts(s.nodes, m, [c] + w);
    }
  }

  /** The end of the chain and a registered node with the same language have the same contents. */
  lemma {:induction false} SameLanguageSameContents(s: State, spine: seq<nat>, rank: map<nat, nat>, alphabet: set<Unit>,
                                                    m: nat)
    requires Inv(s, spine, rank, alphabet) && m in rank && Tip(s) in s.nodes && SameLanguage(s.nodes, Tip(s), m)
    ensures s.nodes[m].final == s.nodes[Tip(s)].final && s.nodes[m].edges == s.nodes[Tip(s)].edges
  {
    hide Key, TableOf, WellFormed, AllProductive, SideEdgesRegistered, Chained;
    var t := Tip(s);
    TipLabelsAgree(s, spine, rank, alphabet, m);
    SameLanguageSymmetric(s.nodes, t, m);
    LabelsAgree(s, rank, m, t);
    assert Accepts(s.nodes, t, []) == Accepts(s.nodes, m, []);
    forall c | c in s.nodes[t].edges ensures s.nodes[t].edges[c] == s.nodes[m].edges[c] {
      var a, b := s.nodes[t].edges[c], s.nodes[m].edges[c];
      forall w: Word ensures Accepts(s.nodes, a, w) == Accepts(s.nodes, b, w) {
        assert ([c] + w)[1..] == w;
        assert Accepts(s.nodes, t, [c] + w) == Accepts(s.nodes, m, [c] + w);
      }
      RegisteredDistinct(s, rank, a, b);
    }
  }

  /** A round that merges into a node with other contents changes the language of the root. */
  lemma {:induction false} FalseFoldChangesLanguage(s: State, spine: seq<nat>, rank: map<nat, nat>, alphabet: set<Unit>)
    returns (w: Word)
    requires Inv(s, spine, rank, alphabet) && s.unchecked != []
    requires Tip(s) in s.nodes && s.unchecked[|s.unchecked| - 1].parent in s.nodes && !TrueFold(s)
    ensures Accepts(FoldLast(s).nodes, s.root, w) != Accepts(s.nodes, s.root, w)
  {
    hide Key, TableOf, WellFormed, AllProductive, SideEdgesRegistered, Accepts;
    ChainEnds(s, spine, rank);
    var m, via := FoldTarget(s, spine, rank, alphabet);
    var n := |s.unchecked|;
    var v: Word := [];
    if SameLanguage(s.nodes, Tip(s), m) {
      SameLanguageSameContents(s, spine, rank, alphabet, m);
    } else {
      v :| Accepts(s.nodes, Tip(s), v) != Accepts(s.nodes, m, v);
    }
    var s' := FoldLast(s);
    MergeChain(s, spine, rank, m);
    FoldKeepsRegisteredWords(s, spine, rank, alphabet, m, v);
    ChainAccepts(s, spine, rank, n, v);
    ChainAccepts(s', spine[..|spine| - 1], rank, n - 1, [via] + v);
    w := Vias(s, n) + v;
    assert w == Vias(s', n - 1) + ([via] + v);
    ReadEdge(s'.nodes, Tip(s'), via, v);
    assert spine[..|spine| - 1][n - 1] == Tip(s') && s'.root == s.root;
  }

  lemma ReadEdge(st: Store, n: nat, c: Unit, v: Word)
    requires n in st && c in st[n].edges
    ensures Accepts(st, n, [c] + v) == Accepts(st, st[n].edges[c], v)
  {
    assert ([c] + v)[1..] == v;
  }

  /** A round keeps the language of the root if and only if it merges into no node with other contents. */
  lemma {:induction false} FoldKeepsLanguageIff(s: State, spine: seq<nat>, rank: map<nat, nat>, alphabet: set<Unit>)
    requires Inv(s, spine, rank, alphabet) && s.unchecked != []
    requires Tip(s) in s.nodes && s.unchecked[|s.unchecked| - 1].parent in s.nodes
    ensures TrueFold(s) <==> forall w: Word :: Accepts(FoldLast(s).nodes, s.root, w) == Accepts(s.nodes, s.root, w)
  {
    hide Key, TableOf, WellFormed, AllProductive, SideEdgesRegistered, Accepts, FoldLast, TrueFold, Registered;
    assert s.root == spine[0] && s.root in s.nodes;
    if TrueFold(s) {
      forall w: Word ensures Accepts(FoldLast(s).nodes, s.root, w) == Accepts(s.nodes, s.root, w) {
        FoldKeepsLanguage(s, spine, rank, alphabet, s.root, w);
      }
    } else {
      var w := FalseFoldChangesLanguage(s, spine, rank, alphabet);
    }
  }

  /** A finished builder leaves an acyclic automaton, whatever it merged. */
  lemma {:induction false} FinishedIsAcyclic(s: State, spine: seq<nat>, rank: map<nat, nat>, alphabet: set<Unit>)
    requires Inv(s, spine, rank, alphabet) && s.unchecked == []
    ensures s.root == spine[0] && s.root in s.nodes && s.root !in rank
    ensures Ranked(s.nodes, rank[s.root := |rank|].Keys, rank[s.root := |rank|])
  {
    hide Key, TableOf, AllProductive;
    var st, r, rank' := s.nodes, s.root, rank[s.root := |rank|];
    assert r == spine[0];
    forall n, c | n in rank' && c in st[n].edges ensures st[n].edges[c] in rank' && rank'[st[n].edges[c]] < rank'[n] {
      assert n == r ==> st[spine[0]].edges[c] in rank;
    }
  }

  /** The result of a finished builder with true rounds only: exactly `words`, with the fewest nodes. */
  lemma {:induction false} FinishedIsMinimal(s: State, spine: seq<nat>, rank: map<nat, nat>, alphabet: set<Unit>,
                                             words: set<Word>)
    requires Inv(s, spine, rank, alphabet) && s.unchecked == [] && Correct(s, rank, words)
    ensures Minimal(s.nodes, s.root, rank[s.root := |rank|])
    ensures forall w: Word :: Accepts(s.nodes, s.root, w) <==> w in words
  {
    hide Key, TableOf, AllProductive, Reached, SameLanguage, SideEdgesRegistered, WellFormed;
    var st, r, rank' := s.nodes, s.root, rank[s.root := |rank|];
    FinishedIsAcyclic(s, spine, rank, alphabet);
    ChainWalk(s, spine, rank, 0);
    AddReached(st, r, rank.Keys, r);
    assert rank'.Keys == rank.Keys + {r};
    forall a, b | a in rank' && b in rank' && SameLanguage(st, a, b) ensures a == b {
      SameLanguageSymmetric(st, a, b);
      assert a in rank && b in rank ==> Registered(s, rank);
      if a in rank && b in rank {
        RegisteredDistinct(s, rank, a, b);
      } else if a in rank {
        RootDistinct(s, rank, a);
      } else if b in rank {
        RootDistinct(s, rank, b);
      }
    }
  }

  lemma SameLanguageSymmetric(st: Store, a: nat, b: nat)
    requires SameLanguage(st, a, b)
    ensures SameLanguage(st, b, a)
  {}

  ghost predicate Sorted(arr: seq<Word>) {
    forall i :: 0 < i < |arr| ==> !Less(arr[i], arr[i - 1])
  }

  ghost function LettersOf(arr: seq<Word>): set<Unit> {
    set i, j | 0 <= i < |arr| && 0 <= j < |arr[i]| :: arr[i][j]
  }

  /**
   Builds the automaton of a sorted list; an unsorted list is rejected. The automaton is always
   acyclic. It accepts exactly the words, with the fewest nodes, whenever all rounds were true, and
   they all are where `KeyInjectiveIff` shows the keys to be unambiguous.
   */
  method FromArray(arr: seq<Word>, firstId: nat)
    returns (ok: bool, nodes: Store, root: nat, nextId: nat, ghost rank: map<nat, nat>, ghost allTrue: bool)
    ensures ok <==> Sorted(arr)
    ensures KeySafe(LettersOf(arr)) ==> allTrue
    ensures ok ==> State(nodes, root, [], Built(arr, firstId).minimized, nextId) == Built(arr, firstId)
    ensures ok ==> root in rank && rank.Keys <= nodes.Keys && Ranked(nodes, rank.Keys, rank)
    ensures ok ==> Closed(nodes, nodes.Keys) && forall n :: n in nodes ==> n < nextId
    ensures ok && allTrue ==> Minimal(nodes, root, rank) && forall w: Word :: Accepts(nodes, root, w) <==> w in arr
  {
    hide Ready, Key, KeySafe, Less, Accepts, Minimal, Letters, LettersOf, BuiltFrom, Inserted, FoldTo;
    var builder := new Builder(firstId, LettersOf(arr));
    ok, nodes, root, nextId, rank, allTrue := true, map[], 0, 0, map[], true;
    var i := 0;
    assert arr[0..] == arr;
    while i < |arr|
      invariant 0 <= i <= |arr|
      invariant builder.Valid() && fresh(builder) && builder.alphabet == LettersOf(arr)
      invariant forall w: Word :: w in builder.words <==> w in arr[..i]
      invariant builder.previousWord == if i == 0 then [] else arr[i - 1]
      invariant Sorted(arr[..i])
      invariant BuiltFrom(builder.View(), builder.previousWord, arr[i..]) == Built(arr, firstId)
    {
      BuiltFromStep(builder.View(), builder.previousWord, arr, i);
      LettersOfWord(arr, i);
      var inserted := builder.Insert(arr[i]);
      if !inserted {
        NothingBelowEmpty(arr[i]);
        assert i > 0 && Less(arr[i], arr[i - 1]);
        ok := false;
        return;
      }
      assert arr[..i + 1] == arr[..i] + [arr[i]];
      i := i + 1;
    }
    assert arr[..i] == arr;
    BuiltFromEnd(builder.View(), builder.previousWord, arr[i..]);
    builder.Finish();
    nodes, root, nextId := builder.nodes, builder.root, builder.nextId;
    rank, allTrue := builder.rank[root := |builder.rank|], builder.allTrue;
    FinishedFacts(builder.View(), builder.spine, builder.rank, builder.alphabet, builder.previousWord, builder.words,
                  allTrue);
  }

  lemma FinishedFacts(s: State, spine: seq<nat>, rank: map<nat, nat>, alphabet: set<Unit>, path: Word, words: set<Word>,
                      allTrue: bool)
    requires Ready(s, spine, rank, alphabet, path, words, allTrue) && s.unchecked == []
    ensures var rank' := rank[s.root := |rank|];
            && rank'.Keys <= s.nodes.Keys && Ranked(s.nodes, rank'.Keys, rank')
            && (allTrue ==> Minimal(s.nodes, s.root, rank'))
            && (allTrue ==> forall w: Word :: Accepts(s.nodes, s.root, w) <==> w in words)
    ensures Closed(s.nodes, s.nodes.Keys) && forall n :: n in s.nodes ==> n < s.nextId
  {
    hide Key, Correct, Minimal, Accepts;
    FinishedIsAcyclic(s, spine, rank, alphabet);
    if allTrue { FinishedIsMinimal(s, spine, rank, alphabet, words); }
  }

  lemma LettersOfWord(arr: seq<Word>, i: nat)
    requires i < |arr|
    ensures Letters(arr[i], LettersOf(arr))
  {}

  lemma NothingBelowEmpty(w: Word)
    ensures !Less(w, [])
  {}
}
