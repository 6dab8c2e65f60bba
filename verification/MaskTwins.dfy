/**
 What a parsed mask names, said without masks. Only paths and the order of reading them count: a key that
 is new to several current paths makes them alike, and from then on a path names what each path alike to
 it names.
 */
module MaskTwins {
  import opened MaskSyntax
  import opened MaskGrammar
  import opened MaskGraph
  import opened MaskMachine
  import opened MaskMeaning
  import opened MaskSharing
  import opened Options

  /** The paths being extended when the next token is read. */
  ghost function Current(toks: seq<Tok>): set<Path> {
    var r := ReadAll(START, toks);
    if r.None? || r.value.levels == [] then {} else CurPaths(r.value.levels, |r.value.levels| - 1)
  }

  /** The step that the next token adds, if any. */
  function NextStep(toks: seq<Tok>, t: Tok): Option<Step> {
    var r := ReadAll(START, toks);
    if r.None? then None else StepOf(r.value.state, t)
  }

  /** After `toks`, both paths are named, and everything read behind one of them is named behind the other. */
  ghost predicate Alike(toks: seq<Tok>, p: Path, q: Path)
    decreases |toks|, 0
  {
    if toks == [] then p == [] == q
    else
      var front, s := toks[..|toks| - 1], NextStep(toks[..|toks| - 1], toks[|toks| - 1]);
      || Alike(front, p, q)
      || (s.Some? && Opened(front, s.value, p) && Opened(front, s.value, q))
  }

  /** Reading `s` after `toks` names `p`, which was not named before. */
  ghost predicate Opened(toks: seq<Tok>, s: Step, p: Path)
    decreases |toks|, 1
  {
    && p != [] && p[|p| - 1] == s && !Alike(toks, p, p)
    && exists r :: r in Current(toks) && Alike(toks, p[..|p| - 1], r)
  }

  /** Paths are alike exactly when they lead to one mask of the graph. */
  ghost predicate Describes(toks: seq<Tok>, g: Graph)
    requires Forward(g)
  {
    forall p, q :: Alike(toks, p, q) <==> Walk(g, p).Some? && Walk(g, p) == Walk(g, q)
  }

  lemma OpenedIsLacking(toks: seq<Tok>, c: Config, z: Reader, s: Step, p: Path)
    requires ReadAll(START, toks) == Some(z) && Follows(c, z) && Describes(toks, c.g)
    requires Forward(Advance(c.g, TopLevel(c).active, s))
    ensures var w' := Walk(Advance(c.g, TopLevel(c).active, s), p);
            Opened(toks, s, p) <==> Walk(c.g, p).None? && w'.Some?
    ensures Opened(toks, s, p) ==> Walk(Advance(c.g, TopLevel(c).active, s), p) == Some(|c.g|)
  {
    hide Spoken, WfOpen, Walk, EdgesSpoken, Advance, Base, Alike, ReadAll;
    var active := TopLevel(c).active;
    var g' := Advance(c.g, active, s);
    assert LevelStands(c.g, TopLevel(c), z.levels, |z.levels| - 1);
    AdvanceWalk(c.g, active, s, p);
    if p != [] {
      var p0 := p[..|p| - 1];
      assert p == p0 + [p[|p| - 1]];
      WalkStep(c.g, p0, p[|p| - 1]);
      WalkStep(g', p0, p[|p| - 1]);
      AdvanceWalk(c.g, active, s, p0);
      if Walk(c.g, p0).Some? { AdvanceChild(c.g, active, s, Walk(c.g, p0).value, p[|p| - 1]); }
      assert Current(toks) == CurPaths(z.levels, |z.levels| - 1);
      if Walk(c.g, p).None? && Walk(g', p).Some? {
        var r :| r in CurPaths(z.levels, |z.levels| - 1) && Walk(c.g, r) == Walk(c.g, p0);
        assert Alike(toks, p0, r);
      }
    }
  }

  lemma DescribesStep(toks: seq<Tok>, c: Config, z: Reader, t: Tok)
    requires ReadAll(START, toks) == Some(z) && Follows(c, z) && Describes(toks, c.g)
    requires Feed(c, t).Some? && Forward(Feed(c, t).value.g)
    ensures Describes(toks + [t], Feed(c, t).value.g)
  {
    hide Spoken, WfOpen, Walk, EdgesSpoken, Advance, Base, ReadAll, LevelStands, Opened;
    var all := toks + [t];
    assert all[..|all| - 1] == toks && all[|all| - 1] == t;
    var s := NextStep(toks, t);
    var g, g' := c.g, Feed(c, t).value.g;
    forall p, q ensures Alike(all, p, q) <==> Walk(g', p).Some? && Walk(g', p) == Walk(g', q) {
      if s.Some? {
        OpenedIsLacking(toks, c, z, s.value, p);
        OpenedIsLacking(toks, c, z, s.value, q);
        AdvanceWalk(g, TopLevel(c).active, s.value, p);
        AdvanceWalk(g, TopLevel(c).active, s.value, q);
      }
    }
  }

  lemma {:induction false} DescribesRun(toks: seq<Tok>, c: Config, z: Reader, rest: seq<Tok>)
    requires ReadAll(START, toks) == Some(z) && Follows(c, z) && Describes(toks, c.g) && FeedAll(c, rest).Some?
    ensures Forward(FeedAll(c, rest).value.g) && Describes(toks + rest, FeedAll(c, rest).value.g)
    decreases |rest|
  {
    hide Spoken, WfOpen, Walk, EdgesSpoken, LevelStands, Feed, Read, Describes;
    if rest == [] {
      assert toks + rest == toks;
    } else {
      var t := rest[0];
      FeedFollows(c, z, t);
      DescribesStep(toks, c, z, t);
      ReadOneMore(toks, z, t);
      assert toks + rest == (toks + [t]) + rest[1..];
      DescribesRun(toks + [t], Feed(c, t).value, Read(z, t).value, rest[1..]);
    }
  }

  lemma ReadOneMore(toks: seq<Tok>, z: Reader, t: Tok)
    requires ReadAll(START, toks) == Some(z) && z.levels != [] && Read(z, t).Some? && Read(z, t).value.levels != []
    ensures ReadAll(START, toks + [t]) == Read(z, t)
  {
    hide Read;
    ReadAllAppend(START, toks, [t]);
    assert [t][1..] == [];
    assert ReadAll(z, [t]) == ReadAll(Read(z, t).value, []);
  }

  lemma StartIsDescribed()
    ensures Forward(INIT.g) && Describes([], INIT.g)
  {
    StartIsTree();
    LoneRootWalks(INIT.g);
  }

  /** A path is named by the parsed mask exactly when reading the expression named it. */
  lemma NamedIffAlike(x: Expr, p: Path)
    requires WfExpr(x)
    ensures Names(ParsedMask(x), p) <==> Alike(ExprToks(x), p, p)
  {
    hide Spoken, WfOpen, Walk, EdgesSpoken, LevelStands, InClosure, ExprToks, ExprPaths, WfExpr, ParsedMask, Names,
         Alike;
    var c, z := FinalState(x);
    ExprIsDescribed(x, c);
    MaskNames(x, c.g, p);
  }

  lemma ExprIsDescribed(x: Expr, c: Config)
    requires FeedAll(INIT, ExprToks(x)) == Some(c)
    ensures Forward(c.g) && Describes(ExprToks(x), c.g)
  {
    hide Describes, Follows, ExprToks, FeedAll;
    InitFollows();
    StartIsDescribed();
    DescribesRun([], INIT, START, ExprToks(x));
    assert [] + ExprToks(x) == ExprToks(x);
  }

  /** Paths of the expression that reading it made alike are continued alike in it. */
  ghost predicate ContinuedAlike(x: Expr) {
    forall p, q, s :: InClosure(ExprPaths(x), p) && InClosure(ExprPaths(x), q + [s]) && Alike(ExprToks(x), p, q) ==>
      InClosure(ExprPaths(x), p + [s])
  }

  /**
   An expression is parsed to a mask of exactly its paths if and only if no two of its paths that were
   made alike differ in how they go on.
   */
  lemma ExactIffContinuedAlike(x: Expr)
    requires WfExpr(x)
    ensures Exact(x) <==> ContinuedAlike(x)
  {
    hide Spoken, WfOpen, Walk, EdgesSpoken, LevelStands, InClosure, ExprToks, ExprPaths, WfExpr, Alike, Exact, FeedAll,
         ReadAll, AllSpoken;
    var c, z := FinalState(x);
    ExprIsDescribed(x, c);
    ExactIffTwinsAgree(c, z);
    ExactIffAllSpoken(x, c, z);
    forall p | Spoken(z, p) ensures Walk(c.g, p).Some? { SpokenWalks(c, z, p); }
  }
}
