/**
 The shared graph of masks the parser builds, its paths, and the tree it unfolds to.
 */
module MaskGraph {
  import opened MaskSyntax
  import opened Options

  /** A mask under construction: children are node numbers. */
  datatype Node = Node(any: Option<nat>, parts: map<Text, nat>)

  const EMPTY := Node(None, map[])

  /** All masks created so far; a mask's number is its creation time and 0 is the root. */
  type Graph = seq<Node>

  function Child(n: Node, s: Step): Option<nat> {
    match s
    case Any => n.any
    case Field(k) => if k in n.parts then Some(n.parts[k]) else None
  }

  function WithChild(n: Node, s: Step, c: nat): Node {
    match s
    case Any => n.(any := Some(c))
    case Field(k) => n.(parts := n.parts[k := c])
  }

  lemma ChildOfWithChild(n: Node, s: Step, c: nat, t: Step)
    ensures Child(WithChild(n, s, c), t) == if t == s then Some(c) else Child(n, t)
  {}

  /** Edges only go to masks created later, so the graph is acyclic. */
  ghost predicate Forward(g: Graph) {
    && g != []
    && forall a: nat, s :: a < |g| && Child(g[a], s).Some? ==> a < Child(g[a], s).value < |g|
  }

  /** The mask a path from the root leads to. */
  ghost function Walk(g: Graph, p: Path): (r: Option<nat>)
    requires Forward(g)
    ensures r.Some? ==> r.value < |g|
  {
    if p == [] then Some(0)
    else
      var w := Walk(g, p[..|p| - 1]);
      if w.None? then None else Child(g[w.value], p[|p| - 1])
  }

  lemma WalkStep(g: Graph, q: Path, s: Step)
    requires Forward(g)
    ensures Walk(g, q + [s]) == if Walk(g, q).None? then None else Child(g[Walk(g, q).value], s)
  {
    assert (q + [s])[..|q|] == q;
  }

  lemma {:induction false} PrefixWalks(g: Graph, p: Path, q: Path)
    requires Forward(g) && p <= q && Walk(g, q).Some?
    ensures Walk(g, p).Some?
    decreases |q|
  {
    if |p| < |q| {
      PrefixWalks(g, p, q[..|q| - 1]);
    } else {
      assert p == q;
    }
  }

  // ---------------------------------------------------------------------------------------------
  // Advancing the active masks by one key or wildcard
  // ---------------------------------------------------------------------------------------------

  predicate Lacks(g: Graph, active: set<nat>, s: Step, a: nat) {
    a in active && a < |g| && Child(g[a], s).None?
  }

  ghost predicate SomeLacks(g: Graph, active: set<nat>, s: Step) {
    exists a :: Lacks(g, active, s, a)
  }

  /** Every active mask without child `s` gets the same fresh child. */
  ghost function Advance(g: Graph, active: set<nat>, s: Step): Graph {
    if SomeLacks(g, active, s) then
      seq(|g|, i requires 0 <= i < |g| => if Lacks(g, active, s, i) then WithChild(g[i], s, |g|) else g[i]) + [EMPTY]
    else g
  }

  lemma AdvanceChild(g: Graph, active: set<nat>, s: Step, a: nat, t: Step)
    requires a < |g|
    ensures var g' := Advance(g, active, s);
            && |g'| == |g| + (if SomeLacks(g, active, s) then 1 else 0)
            && Child(g'[a], t) == (if t == s && Lacks(g, active, s, a) then Some(|g|) else Child(g[a], t))
  {
    ChildOfWithChild(g[a], s, |g|, t);
  }

  lemma AdvanceForward(g: Graph, active: set<nat>, s: Step)
    requires Forward(g)
    ensures Forward(Advance(g, active, s))
  {
    hide Advance;
    var g' := Advance(g, active, s);
    AdvanceChild(g, active, s, 0, s);
    forall a: nat, t | a < |g'| && Child(g'[a], t).Some? ensures a < Child(g'[a], t).value < |g'| {
      if a < |g| { AdvanceChild(g, active, s, a, t); } else { AdvanceFresh(g, active, s); }
    }
  }

  lemma AdvanceFresh(g: Graph, active: set<nat>, s: Step)
    ensures SomeLacks(g, active, s) ==> |Advance(g, active, s)| == |g| + 1 && Advance(g, active, s)[|g|] == EMPTY
  {}

  /** A path leads where it led before, or nowhere before and now into the fresh mask. */
  lemma {:induction false} AdvanceWalk(g: Graph, active: set<nat>, s: Step, p: Path)
    requires Forward(g) && Forward(Advance(g, active, s))
    ensures var w, w' := Walk(g, p), Walk(Advance(g, active, s), p);
            && (w.Some? ==> w' == w)
            && (w.None? && w'.Some? ==>
                  && w' == Some(|g|) && p != [] && p[|p| - 1] == s
                  && Walk(g, p[..|p| - 1]).Some? && Lacks(g, active, s, Walk(g, p[..|p| - 1]).value))
    decreases |p|
  {
    hide Advance, SomeLacks;
    if p != [] {
      var q, t := p[..|p| - 1], p[|p| - 1];
      AdvanceWalk(g, active, s, q);
      AdvanceFresh(g, active, s);
      if Walk(g, q).Some? {
        AdvanceChild(g, active, s, Walk(g, q).value, t);
      } else if Walk(Advance(g, active, s), q).Some? {
        AdvanceChild(g, active, s, 0, t);
      }
    }
  }

  /** The active masks after the step. */
  ghost function Entered(g: Graph, active: set<nat>, s: Step): set<nat>
    requires forall a :: a in active ==> a < |g| && Child(g[a], s).Some?
  {
    set a | a in active :: Child(g[a], s).value
  }
}
