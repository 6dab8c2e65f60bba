/**
 What a parsed mask means: it names every path of the expression's denotation, and the sharing of
 masks between branches decides whether it names more.
 */
module MaskMeaning {
  import opened MaskSyntax
  import opened MaskGrammar
  import opened MaskGraph
  import opened MaskMachine
  import opened Options

  datatype Mask = Mask(any: Option<Mask>, parts: map<Text, Mask>)

  const EMPTY_MASK := Mask(None, map[])

  function Sub(m: Mask, s: Step): Option<Mask> {
    match s
    case Any => m.any
    case Field(k) => if k in m.parts then Some(m.parts[k]) else None
  }

  /** The mask has a branch along `p`. */
  predicate Names(m: Mask, p: Path)
    decreases |p|
  {
    p == [] || (Sub(m, p[0]).Some? && Names(Sub(m, p[0]).value, p[1..]))
  }

  /** A mask is determined by the paths it names. */
  lemma {:induction false} MaskExtensional(m: Mask, n: Mask)
    requires forall p :: Names(m, p) <==> Names(n, p)
    ensures m == n
    decreases m
  {
    forall s: Step
      ensures Sub(m, s).Some? <==> Sub(n, s).Some?
      ensures Sub(m, s).Some? ==> forall q :: Names(Sub(m, s).value, q) <==> Names(Sub(n, s).value, q)
    {
      assert [s][1..] == [];
      assert Names(m, [s]) <==> Sub(m, s).Some?;
      assert Names(n, [s]) <==> Sub(n, s).Some?;
      if Sub(m, s).Some? {
        forall q ensures Names(Sub(m, s).value, q) <==> Names(Sub(n, s).value, q) {
          assert ([s] + q)[1..] == q;
          assert Names(m, [s] + q) <==> Names(n, [s] + q);
        }
      }
    }
    assert Sub(m, Any) == m.any && Sub(n, Any) == n.any;
    if m.any.Some? { MaskExtensional(m.any.value, n.any.value); }
    forall k: Text
      ensures k in m.parts <==> k in n.parts
      ensures k in m.parts ==> m.parts[k] == n.parts[k]
    {
      assert Sub(m, Field(k)).Some? <==> Sub(n, Field(k)).Some?;
      if k in m.parts { MaskExtensional(m.parts[k], n.parts[k]); }
    }
  }

  // ---------------------------------------------------------------------------------------------
  // Copying the graph to a tree
  // ---------------------------------------------------------------------------------------------

  function Copy(g: Graph, n: nat): Mask
    requires Forward(g) && n < |g|
    decreases |g| - n
  {
    assert g[n].any.Some? ==> Child(g[n], Any).Some?;
    assert forall k :: k in g[n].parts ==> Child(g[n], Field(k)) == Some(g[n].parts[k]);
    Mask(if g[n].any.None? then None else Some(Copy(g, g[n].any.value)),
         map k | k in g[n].parts :: Copy(g, g[n].parts[k]))
  }

  lemma CopySub(g: Graph, n: nat, s: Step)
    requires Forward(g) && n < |g|
    ensures Child(g[n], s).None? ==> Sub(Copy(g, n), s).None?
    ensures Child(g[n], s).Some? ==> Sub(Copy(g, n), s) == Some(Copy(g, Child(g[n], s).value))
  {}

  /** The copy names exactly the paths that lead somewhere in the graph. */
  lemma {:induction false} CopyNames(g: Graph, n: nat, q: Path, r: Path)
    requires Forward(g) && Walk(g, q) == Some(n)
    ensures Names(Copy(g, n), r) <==> Walk(g, q + r).Some?
    decreases |r|
  {
    if r == [] {
      assert q + r == q;
    } else {
      var s := r[0];
      CopySub(g, n, s);
      WalkStep(g, q, s);
      assert q + r == (q + [s]) + r[1..];
      if Child(g[n], s).Some? {
        CopyNames(g, Child(g[n], s).value, q + [s], r[1..]);
      } else if Walk(g, q + r).Some? {
        PrefixWalks(g, q + [s], q + r);
      }
    }
  }

  // ---------------------------------------------------------------------------------------------
  // The machine follows the reader over whole runs
  // ---------------------------------------------------------------------------------------------

  lemma InitFollows()
    ensures Follows(INIT, START)
  {
    FreshFollows(INIT, START);
  }

  lemma FreshFollows(c: Config, z: Reader)
    requires c.g == [EMPTY] && |c.levels| == 1 && c.levels[0] == Level({0}, {}, {0})
    requires |z.levels| == 1 && z.levels[0] == Open([], []) && c.state == z.state == KeyState
    ensures Follows(c, z)
  {
    hide Stands, Base, Walk, Cat, DonePaths, CurPaths;
    assert Forward(c.g);
    FreshPaths(z.levels);
    RootStands(c.g);
    NoneStand(c.g);
    assert LevelStands(c.g, c.levels[0], z.levels, 0);
  }

  lemma RootStands(g: Graph)
    requires Forward(g)
    ensures Stands(g, {0}, {[]})
  {
    assert Walk(g, []) == Some(0);
  }

  lemma FreshPaths(levels: seq<Open>)
    requires |levels| == 1 && levels[0] == Open([], [])
    ensures Base(levels, 0) == {[]} && DonePaths(levels, 0) == {} && CurPaths(levels, 0) == {[]}
  {
    hide Cat;
    CatUnit(Base(levels, 0));
    CatNone(Base(levels, 0));
  }

  lemma KeyPaths(k: Text)
    ensures WfElem(Named(k)) && ElemPaths(Named(k)) == {[Field(k)]}
    ensures WfElem(Wild) && ElemPaths(Wild) == {[Any]}
  {}

  lemma FeedFollows(c: Config, z: Reader, t: Tok)
    requires Follows(c, z)
    ensures Feed(c, t).Some? <==> Read(z, t).Some?
    ensures Feed(c, t).Some? ==> Follows(Feed(c, t).value, Read(z, t).value) && Keeps(z, Read(z, t).value)
  {
    hide WfElem, ElemPaths, LevelStands, EdgesSpoken, Spoken, Advance, WfOpen;
    if Feed(c, t).Some? {
      match t {
        case Key(k) => KeyPaths(k); AddStepFollows(c, z, Field(k), Named(k)); AddElemKeeps(z, Named(k));
        case WildCard => KeyPaths([]); AddStepFollows(c, z, Any, Wild); AddElemKeeps(z, Wild);
        case LBrace => PushLevelFollows(c, z);
        case Comma => NewMaskFollows(c, z);
        case RBrace => PopLevelFollows(c, z);
        case Dot => DotFollows(c, z);
      }
    }
  }

  lemma DotFollows(c: Config, z: Reader)
    requires Follows(c, z) && z.state == Separator
    ensures Follows(c.(state := KeyState), z.(state := KeyState)) && Keeps(z, z.(state := KeyState))
  {
    hide Walk, Base;
    var y := z.(state := KeyState);
    forall p | Spoken(z, p) ensures Spoken(y, p) {
      var j: nat, q :| j < |z.levels| && q in DonePaths(z.levels, j) + CurPaths(z.levels, j) && p <= q;
      Speak(y, j, q, p);
    }
    EdgesKept(c.g, z, y);
  }

  lemma {:induction false} FeedAllFollows(c: Config, z: Reader, toks: seq<Tok>)
    requires Follows(c, z)
    ensures FeedAll(c, toks).Some? <==> ReadAll(z, toks).Some?
    ensures FeedAll(c, toks).Some? ==> Follows(FeedAll(c, toks).value, ReadAll(z, toks).value)
    decreases |toks|
  {
    hide Feed, Read, LevelStands, EdgesSpoken, WfOpen;
    if toks != [] {
      FeedFollows(c, z, toks[0]);
      if Feed(c, toks[0]).Some? { FeedAllFollows(Feed(c, toks[0]).value, Read(z, toks[0]).value, toks[1..]); }
    }
  }

  /** The graph of an accepted token sequence. */
  ghost function ParsedGraph(toks: seq<Tok>): Option<Graph> {
    var r := FeedAll(INIT, toks);
    if r.Some? && |r.value.levels| == 1 && r.value.state == Separator then Some(r.value.g) else None
  }

  /** The machine and the reader accept the same token sequences, and the machine's graph is acyclic. */
  lemma ParsedIffAccepted(toks: seq<Tok>)
    ensures ParsedGraph(toks).Some? <==> Accepted(toks).Some?
    ensures ParsedGraph(toks).Some? ==> Forward(ParsedGraph(toks).value)
  {
    hide LevelStands, EdgesSpoken, WfOpen;
    InitFollows();
    FeedAllFollows(INIT, START, toks);
  }

  /** At the end, what was read is the prefix closure of the denotation. */
  lemma SpokenAtEnd(z: Reader, x: Expr, p: Path)
    requires |z.levels| == 1 && x == Top(z).items + [Item(Top(z).cur)]
    ensures Spoken(z, p) <==> InClosure(ExprPaths(x), p)
  {
    hide Cat, ElemsPaths;
    var o := Top(z);
    assert x[..|x| - 1] == o.items;
    CatUnit(ExprPaths(o.items));
    CatUnit(ElemsPaths(o.cur));
    assert DonePaths(z.levels, 0) + CurPaths(z.levels, 0) == ExprPaths(x);
    if Spoken(z, p) {
      var j: nat, q :| j < |z.levels| && q in DonePaths(z.levels, j) + CurPaths(z.levels, j) && p <= q;
    }
    if InClosure(ExprPaths(x), p) {
      var q :| q in ExprPaths(x) && p <= q;
      Speak(z, 0, q, p);
    }
  }

  lemma FinalState(x: Expr) returns (c: Config, z: Reader)
    requires WfExpr(x)
    ensures FeedAll(INIT, ExprToks(x)) == Some(c) && ReadAll(START, ExprToks(x)) == Some(z) && Follows(c, z)
    ensures ParsedGraph(ExprToks(x)) == Some(c.g)
    ensures forall p :: Spoken(z, p) <==> InClosure(ExprPaths(x), p)
  {
    hide LevelStands, EdgesSpoken, WfOpen, Spoken, InClosure, ExprToks, ExprPaths, WfExpr;
    GrammarIsAccepted(x);
    InitFollows();
    FeedAllFollows(INIT, START, ExprToks(x));
    c, z := FeedAll(INIT, ExprToks(x)).value, ReadAll(START, ExprToks(x)).value;
    forall p ensures Spoken(z, p) <==> InClosure(ExprPaths(x), p) { SpokenAtEnd(z, x, p); }
  }

  /** The mask an accepted expression is parsed to. */
  ghost function ParsedMask(x: Expr): Mask
    requires WfExpr(x)
  {
    GrammarIsAccepted(x);
    ParsedIffAccepted(ExprToks(x));
    Copy(ParsedGraph(ExprToks(x)).value, 0)
  }

  lemma MaskNames(x: Expr, g: Graph, p: Path)
    requires WfExpr(x) && ParsedGraph(ExprToks(x)) == Some(g) && Forward(g)
    ensures Names(ParsedMask(x), p) <==> Walk(g, p).Some?
  {
    assert [] + p == p;
    CopyNames(g, 0, [], p);
  }

  /** Every path of the denotation, and every prefix of one, is named by the parsed mask. */
  lemma MaskContainsDenotation(x: Expr, p: Path)
    requires WfExpr(x) && InClosure(ExprPaths(x), p)
    ensures Names(ParsedMask(x), p)
  {
    hide LevelStands, EdgesSpoken, WfOpen, Spoken, InClosure, ExprToks, ExprPaths, WfExpr, ParsedMask;
    var c, z := FinalState(x);
    SpokenWalks(c, z, p);
    MaskNames(x, c.g, p);
  }

  // ---------------------------------------------------------------------------------------------
  // Exactness
  // ---------------------------------------------------------------------------------------------

  /** The parsed mask names the prefix closure of the denotation and nothing else. */
  ghost predicate Exact(x: Expr)
    requires WfExpr(x)
  {
    forall p :: Names(ParsedMask(x), p) <==> InClosure(ExprPaths(x), p)
  }

  /** Paths that lead to the same mask continue alike. */
  ghost predicate TwinsAgree(g: Graph, z: Reader)
    requires Forward(g)
  {
    forall p, q, s :: Spoken(z, p) && Spoken(z, q + [s]) && Walk(g, p) == Walk(g, q) ==> Spoken(z, p + [s])
  }

  ghost predicate AllSpoken(g: Graph, z: Reader)
    requires Forward(g)
  {
    forall p :: Walk(g, p).Some? ==> Spoken(z, p)
  }

  lemma SpokenPrefix(z: Reader, p: Path, q: Path)
    requires Spoken(z, q) && p <= q
    ensures Spoken(z, p)
  {
    var j: nat, r :| j < |z.levels| && r in DonePaths(z.levels, j) + CurPaths(z.levels, j) && q <= r;
    Speak(z, j, r, p);
  }

  lemma RootSpoken(c: Config, z: Reader)
    requires Follows(c, z)
    ensures Spoken(z, [])
  {
    hide Walk, EdgesSpoken;
    assert LevelStands(c.g, c.levels[0], z.levels, 0);
    StandsSome(z.levels, 0);
    var q :| q in CurPaths(z.levels, 0);
    Speak(z, 0, q, []);
  }

  lemma StandsSome(levels: seq<Open>, j: nat)
    requires j < |levels| && forall o :: o in levels ==> WfOpen(o)
    ensures Base(levels, j) != {} && CurPaths(levels, j) != {}
  {
    hide Cat, ElemsPaths;
    if j > 0 { StandsSome(levels, j - 1); }
    assert levels[j] in levels && WfOpen(levels[j]);
    ElemsPathsNonEmpty(levels[j].cur);
    var p :| p in Base(levels, j);
    var q :| q in ElemsPaths(levels[j].cur);
    CatMember(Base(levels, j), ElemsPaths(levels[j].cur), p, q);
  }

  lemma {:induction false} AgreeingTwinsSpeak(c: Config, z: Reader, p: Path)
    requires Follows(c, z) && TwinsAgree(c.g, z) && Walk(c.g, p).Some?
    ensures Spoken(z, p)
    decreases |p|
  {
    hide LevelStands, Spoken, WfReader;
    if p == [] {
      RootSpoken(c, z);
    } else {
      var q, s := p[..|p| - 1], p[|p| - 1];
      assert p == q + [s];
      AgreeingTwinsSpeak(c, z, q);
      assert EdgeSpoken(c.g, z, Walk(c.g, q).value, s);
    }
  }

  /**
   Nothing beyond what was read is named exactly when no two paths that were read lead to the same
   mask while only one of them was continued.
   */
  lemma ExactIffTwinsAgree(c: Config, z: Reader)
    requires Follows(c, z)
    ensures AllSpoken(c.g, z) <==> TwinsAgree(c.g, z)
  {
    hide LevelStands, Spoken, WfReader, Walk, EdgesSpoken;
    if TwinsAgree(c.g, z) {
      forall p | Walk(c.g, p).Some? ensures Spoken(z, p) { AgreeingTwinsSpeak(c, z, p); }
    }
    if AllSpoken(c.g, z) {
      forall p, q, s | Spoken(z, p) && Spoken(z, q + [s]) && Walk(c.g, p) == Walk(c.g, q) ensures Spoken(z, p + [s]) {
        SpokenWalks(c, z, q + [s]);
        WalkStep(c.g, q, s);
        WalkStep(c.g, p, s);
      }
    }
  }

  lemma ExactIffAllSpoken(x: Expr, c: Config, z: Reader)
    requires WfExpr(x) && Follows(c, z) && ParsedGraph(ExprToks(x)) == Some(c.g)
    requires forall p :: Spoken(z, p) <==> InClosure(ExprPaths(x), p)
    ensures Exact(x) <==> AllSpoken(c.g, z)
  {
    hide LevelStands, Spoken, WfReader, Walk, EdgesSpoken, ParsedMask, InClosure, ExprPaths, ExprToks, WfExpr, Names;
    forall p ensures Names(ParsedMask(x), p) <==> Walk(c.g, p).Some? { MaskNames(x, c.g, p); }
    forall p | Spoken(z, p) ensures Walk(c.g, p).Some? { SpokenWalks(c, z, p); }
  }
}
