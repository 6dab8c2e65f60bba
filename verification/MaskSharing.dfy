/**
 When the parser's shared masks cost exactness. A fresh mask handed to several branches at once
 makes them twins: a later path through one of them also extends the others.
 */
module MaskSharing {
  import opened MaskSyntax
  import opened MaskGrammar
  import opened MaskGraph
  import opened MaskMachine
  import opened MaskMeaning
  import opened Options

  /** The step a token adds in a given state, if any. */
  function StepOf(state: State, t: Tok): Option<Step> {
    if Settle(state, t) != KeyState then None
    else match t
      case Key(k) => Some(Field(k))
      case WildCard => Some(Any)
      case _ => None
  }

  /** At most one of the paths being extended has not been continued by `s` before. */
  ghost predicate OneNew(z: Reader, s: Step)
    requires z.levels != []
  {
    var cur := CurPaths(z.levels, |z.levels| - 1);
    forall p, q :: p in cur && q in cur && !Spoken(z, p + [s]) && !Spoken(z, q + [s]) ==> p == q
  }

  /** No key or wildcard of the token sequence is new to two paths at once. */
  ghost predicate NoSharing(z: Reader, toks: seq<Tok>)
    requires z.levels != []
    decreases |toks|
  {
    toks == [] || (
      && (StepOf(z.state, toks[0]).Some? ==> OneNew(z, StepOf(z.state, toks[0]).value))
      && var r := Read(z, toks[0]);
      && (r.Some? && r.value.levels != [] ==> NoSharing(r.value, toks[1..])))
  }

  ghost predicate SharingFree(x: Expr) {
    NoSharing(START, ExprToks(x))
  }

  /** Different paths lead to different masks. */
  ghost predicate Tree(g: Graph)
    requires Forward(g)
  {
    forall p, q :: Walk(g, p).Some? && Walk(g, p) == Walk(g, q) ==> p == q
  }

  ghost predicate AreTwins(g: Graph, z: Reader, p: Path, q: Path)
    requires Forward(g)
  {
    p != q && Spoken(z, p) && Spoken(z, q) && Walk(g, p) == Walk(g, q)
  }

  ghost predicate HasTwins(g: Graph, z: Reader)
    requires Forward(g)
  {
    exists p, q :: AreTwins(g, z, p, q)
  }

  lemma TreeIsExact(c: Config, z: Reader)
    requires Follows(c, z) && Tree(c.g)
    ensures AllSpoken(c.g, z)
  {
    hide LevelStands, Spoken, WfOpen, Walk, EdgesSpoken;
    forall p, q, s | Spoken(z, p) && Spoken(z, q + [s]) && Walk(c.g, p) == Walk(c.g, q) ensures Spoken(z, p + [s]) {
      SpokenWalks(c, z, p);
    }
    ExactIffTwinsAgree(c, z);
  }

  // ---------------------------------------------------------------------------------------------
  // One step
  // ---------------------------------------------------------------------------------------------

  lemma TreeGrows(c: Config, z: Reader, s: Step)
    requires Follows(c, z) && Tree(c.g) && OneNew(z, s)
    ensures Forward(AddStep(c, s).g) && Tree(AddStep(c, s).g)
  {
    hide Spoken, WfOpen, Walk, EdgesSpoken, Advance, Base;
    var active := TopLevel(c).active;
    var g' := AddStep(c, s).g;
    AdvanceForward(c.g, active, s);
    forall p, q | Walk(g', p).Some? && Walk(g', p) == Walk(g', q) ensures p == q {
      AdvanceWalk(c.g, active, s, p);
      AdvanceWalk(c.g, active, s, q);
      if Walk(c.g, p).None? && Walk(c.g, q).None? {
        var p0, q0 := p[..|p| - 1], q[..|q| - 1];
        LackingIsNew(c, z, s, p0);
        LackingIsNew(c, z, s, q0);
        assert p == p0 + [s] && q == q0 + [s];
      }
    }
  }

  /** In a tree, a path to an active mask without child `s` is a current path not yet continued. */
  lemma LackingIsNew(c: Config, z: Reader, s: Step, p: Path)
    requires Follows(c, z) && Tree(c.g)
    requires Walk(c.g, p).Some? && Lacks(c.g, TopLevel(c).active, s, Walk(c.g, p).value)
    ensures p in CurPaths(z.levels, |z.levels| - 1) && !Spoken(z, p + [s])
  {
    hide Spoken, WfOpen, Walk, EdgesSpoken, Base;
    var t := |z.levels| - 1;
    assert LevelStands(c.g, TopLevel(c), z.levels, t);
    var q :| q in CurPaths(z.levels, t) && Walk(c.g, q) == Walk(c.g, p);
    WalkStep(c.g, p, s);
    if Spoken(z, p + [s]) { SpokenWalks(c, z, p + [s]); }
  }

  lemma TwinsAppear(c: Config, z: Reader, s: Step, e: Elem)
    requires Follows(c, z) && Tree(c.g) && !OneNew(z, s) && ElemPaths(e) == {[s]}
    ensures Forward(AddStep(c, s).g) && HasTwins(AddStep(c, s).g, AddElem(z, e))
  {
    hide Spoken, WfOpen, Walk, EdgesSpoken, Advance, ElemPaths, AddElem, LevelStands, CurPaths, OneNew, Tree, AllSpoken;
    AdvanceForward(c.g, TopLevel(c).active, s);
    TreeIsExact(c, z);
    var p, q := TwoNew(z, s);
    NewIsAttached(c, z, s, p);
    NewIsAttached(c, z, s, q);
    CurSpoken(z, e, s, p);
    CurSpoken(z, e, s, q);
    SameTail(p, q, [s]);
    assert AreTwins(AddStep(c, s).g, AddElem(z, e), p + [s], q + [s]);
  }

  lemma TwoNew(z: Reader, s: Step) returns (p: Path, q: Path)
    requires z.levels != [] && !OneNew(z, s)
    ensures var cur := CurPaths(z.levels, |z.levels| - 1);
            p in cur && q in cur && !Spoken(z, p + [s]) && !Spoken(z, q + [s]) && p != q
  {
    hide Spoken, CurPaths;
    var cur := CurPaths(z.levels, |z.levels| - 1);
    p, q :| p in cur && q in cur && !Spoken(z, p + [s]) && !Spoken(z, q + [s]) && p != q;
  }

  lemma NewIsAttached(c: Config, z: Reader, s: Step, p: Path)
    requires Follows(c, z) && AllSpoken(c.g, z) && Forward(AddStep(c, s).g)
    requires p in CurPaths(z.levels, |z.levels| - 1) && !Spoken(z, p + [s])
    ensures Walk(AddStep(c, s).g, p + [s]) == Some(|c.g|)
  {
    hide Spoken, WfOpen, Walk, EdgesSpoken, Advance, Base;
    var active := TopLevel(c).active;
    assert LevelStands(c.g, TopLevel(c), z.levels, |z.levels| - 1);
    WalkStep(c.g, p, s);
    AdvanceWalk(c.g, active, s, p);
    AdvanceChild(c.g, active, s, Walk(c.g, p).value, s);
    WalkStep(AddStep(c, s).g, p, s);
  }

  lemma FeedKeepsWalks(c: Config, z: Reader, t: Tok, p: Path)
    requires Follows(c, z) && Feed(c, t).Some? && Walk(c.g, p).Some?
    ensures Forward(Feed(c, t).value.g) && Walk(Feed(c, t).value.g, p) == Walk(c.g, p)
  {
    hide LevelStands, WfOpen, Walk, EdgesSpoken, Advance;
    var active := TopLevel(c).active;
    match t {
      case Key(k) => AdvanceForward(c.g, active, Field(k)); AdvanceWalk(c.g, active, Field(k), p);
      case WildCard => AdvanceForward(c.g, active, Any); AdvanceWalk(c.g, active, Any, p);
      case _ =>
    }
  }

  lemma TwinsStay(c: Config, z: Reader, t: Tok)
    requires Follows(c, z) && HasTwins(c.g, z) && Feed(c, t).Some? && Read(z, t).Some?
    ensures Forward(Feed(c, t).value.g) && HasTwins(Feed(c, t).value.g, Read(z, t).value)
  {
    hide LevelStands, WfOpen, Walk, EdgesSpoken, Feed, Read, Spoken;
    var p, q :| AreTwins(c.g, z, p, q);
    SpokenWalks(c, z, p);
    SpokenWalks(c, z, q);
    FeedKeepsWalks(c, z, t, p);
    FeedKeepsWalks(c, z, t, q);
    FeedFollows(c, z, t);
    assert AreTwins(Feed(c, t).value.g, Read(z, t).value, p, q);
  }

  lemma TreeStep(c: Config, z: Reader, t: Tok)
    requires Follows(c, z) && Tree(c.g) && Feed(c, t).Some? && Read(z, t).Some?
    ensures Forward(Feed(c, t).value.g)
    ensures if StepOf(z.state, t).Some? ==> OneNew(z, StepOf(z.state, t).value) then Tree(Feed(c, t).value.g)
            else HasTwins(Feed(c, t).value.g, Read(z, t).value)
  {
    hide LevelStands, WfOpen, Walk, EdgesSpoken, Spoken, OneNew, AddStep, AddElem, HasTwins, Tree, ElemPaths;
    if StepOf(z.state, t).Some? {
      var s := StepOf(z.state, t).value;
      var e := if t.Key? then Named(t.key) else Wild;
      KeyPaths(if t.Key? then t.key else []);
      if OneNew(z, s) { TreeGrows(c, z, s); } else { TwinsAppear(c, z, s, e); }
    }
  }

  // ---------------------------------------------------------------------------------------------
  // Whole runs
  // ---------------------------------------------------------------------------------------------

  lemma {:induction false} SharingRun(c: Config, z: Reader, toks: seq<Tok>)
    requires Follows(c, z) && FeedAll(c, toks).Some? && ReadAll(z, toks).Some?
    ensures Forward(FeedAll(c, toks).value.g)
    ensures Tree(c.g) && NoSharing(z, toks) ==> Tree(FeedAll(c, toks).value.g)
    ensures Tree(c.g) && !NoSharing(z, toks) ==> HasTwins(FeedAll(c, toks).value.g, ReadAll(z, toks).value)
    ensures HasTwins(c.g, z) ==> HasTwins(FeedAll(c, toks).value.g, ReadAll(z, toks).value)
    decreases |toks|
  {
    hide LevelStands, WfOpen, Walk, EdgesSpoken, Spoken, OneNew, HasTwins, Tree, Feed, Read, StepOf;
    if toks != [] {
      var t := toks[0];
      FeedFollows(c, z, t);
      if Tree(c.g) { TreeStep(c, z, t); }
      if HasTwins(c.g, z) { TwinsStay(c, z, t); }
      SharingRun(Feed(c, t).value, Read(z, t).value, toks[1..]);
    }
  }

  lemma StartIsTree()
    ensures Forward(INIT.g) && Tree(INIT.g)
  {
    LoneRootIsTree(INIT.g);
  }

  lemma LoneRootWalks(g: Graph)
    requires g == [EMPTY]
    ensures Forward(g) && forall p: Path :: p != [] ==> Walk(g, p).None?
  {
    hide Walk;
    forall p: Path | Forward(g) && p != [] ensures Walk(g, p).None? {
      var q, s := p[..|p| - 1], p[|p| - 1];
      assert p == q + [s];
      WalkStep(g, q, s);
    }
  }

  lemma LoneRootIsTree(g: Graph)
    requires g == [EMPTY]
    ensures Forward(g) && Tree(g)
  {
    hide Walk;
    LoneRootWalks(g);
    assert forall p: Path | Walk(g, p).Some? :: p == [];
  }

  /** The graph of an expression is a tree exactly when the expression is free of sharing. */
  lemma TreeIffSharingFree(x: Expr, c: Config, z: Reader)
    requires WfExpr(x) && Follows(c, z)
    requires FeedAll(INIT, ExprToks(x)) == Some(c) && ReadAll(START, ExprToks(x)) == Some(z)
    ensures Tree(c.g) <==> SharingFree(x)
    ensures HasTwins(c.g, z) <==> !SharingFree(x)
  {
    hide LevelStands, WfOpen, Walk, EdgesSpoken, Spoken, NoSharing, ExprToks, WfExpr;
    InitFollows();
    StartIsTree();
    SharingRun(INIT, START, ExprToks(x));
    if Tree(c.g) && HasTwins(c.g, z) {
      var p, q :| AreTwins(c.g, z, p, q);
      SpokenWalks(c, z, p);
    }
  }

  /** Free of sharing, the parsed mask names exactly the prefix closure of the denotation. */
  lemma SharingFreeIsExact(x: Expr)
    requires WfExpr(x) && SharingFree(x)
    ensures Exact(x)
  {
    hide LevelStands, WfOpen, Walk, EdgesSpoken, Spoken, ExprToks, WfExpr, SharingFree, Tree, AllSpoken, Exact;
    var c, z := FinalState(x);
    TreeIffSharingFree(x, c, z);
    TreeIsExact(c, z);
    ExactIffAllSpoken(x, c, z);
  }
}
