/**
 The smallest case of sharing, `(a,b).c`. It is exact itself although its group is not last, and
 one further path, `a.c.d`, makes the parser name `b.c.d` too.
 */
module MaskExample {
  import opened MaskSyntax
  import opened MaskGrammar
  import opened MaskGraph
  import opened MaskMachine
  import opened MaskMeaning
  import opened MaskSharing
  import opened MaskFragment
  import opened Options

  function Pair(a: Text, b: Text): Elem { Group([Item([Named(a)]), Item([Named(b)])]) }

  /** `(a,b)` */
  function Alternatives(a: Text, b: Text): Expr { [Item([Pair(a, b)])] }

  /** `(a,b).c` */
  function Factored(a: Text, b: Text, c: Text): Expr { [Item([Pair(a, b), Named(c)])] }

  lemma PairFacts(a: Text, b: Text)
    ensures WfElem(Pair(a, b)) && GroupsLastElem(Pair(a, b))
    ensures ElemPaths(Pair(a, b)) == {[Field(a)], [Field(b)]}
  {
    var ia, ib := Item([Named(a)]), Item([Named(b)]);
    assert WfElem(Named(a)) && WfElem(Named(b)) && WfElems(ia.elems) && WfElems(ib.elems);
    assert WfItem(ia) && WfItem(ib) && WfItems([ia, ib]);
    assert GroupsLastElems(ia.elems) && GroupsLastElems(ib.elems);
    assert GroupsLast([ia, ib]);
    LonePath(Named(a), {[Field(a)]});
    LonePath(Named(b), {[Field(b)]});
    assert [ia, ib][..1] == [ia] && [ia][..0] == [];
    assert ExprPaths([ia]) == ElemsPaths(ia.elems);
    assert ExprPaths([ia, ib]) == ExprPaths([ia]) + ElemsPaths(ib.elems);
  }

  lemma AlternativesFacts(a: Text, b: Text)
    ensures WfExpr(Alternatives(a, b)) && GroupsLast(Alternatives(a, b))
    ensures ExprPaths(Alternatives(a, b)) == {[Field(a)], [Field(b)]}
  {
    hide ElemPaths;
    var x := Alternatives(a, b);
    PairFacts(a, b);
    LonePath(Pair(a, b), {[Field(a)], [Field(b)]});
    assert WfElems(x[0].elems) && WfItem(x[0]) && WfItems(x);
    assert GroupsLastElems(x[0].elems);
    assert x[..0] == [];
  }

  lemma FactoredFacts(a: Text, b: Text, c: Text)
    ensures WfExpr(Factored(a, b, c))
    ensures ExprPaths(Factored(a, b, c)) == {[Field(a), Field(c)], [Field(b), Field(c)]}
  {
    hide Cat, ElemPaths;
    var es := [Pair(a, b), Named(c)];
    var x := Factored(a, b, c);
    PairFacts(a, b);
    KeyPaths(c);
    assert WfElems(es) && WfItem(x[0]) && WfItems(x);
    assert es[..1] == [Pair(a, b)] && x[..0] == [];
    LonePath(Pair(a, b), {[Field(a)], [Field(b)]});
    FactorPaths(Field(a), Field(b), Field(c));
  }

  lemma FactoredToks(a: Text, b: Text, c: Text)
    ensures ExprToks(Factored(a, b, c)) == ExprToks(Alternatives(a, b)) + [Dot, Key(c)]
  {
    var es := [Pair(a, b), Named(c)];
    assert es[..1] == [Pair(a, b)];
    assert ElemsToks(es) == ElemsToks([Pair(a, b)]) + [Dot] + ElemToks(Named(c));
  }

  lemma FactorPaths(a: Step, b: Step, c: Step)
    ensures Cat({[a], [b]}, {[c]}) == {[a, c], [b, c]}
  {
    hide Cat;
    CatMember({[a], [b]}, {[c]}, [a], [c]);
    CatMember({[a], [b]}, {[c]}, [b], [c]);
    assert [a] + [c] == [a, c] && [b] + [c] == [b, c];
    forall x | x in Cat({[a], [b]}, {[c]}) ensures x in {[a, c], [b, c]} { var p, q := CatSplit({[a], [b]}, {[c]}, x); }
  }

  /** Reading `.c` after `(a,b)` leads both paths to one mask. */
  lemma FactoredTwins(a: Text, b: Text, c: Text) returns (d: Config, y: Reader)
    requires a != b
    ensures WfExpr(Factored(a, b, c))
    ensures FeedAll(INIT, ExprToks(Factored(a, b, c))) == Some(d)
    ensures ReadAll(START, ExprToks(Factored(a, b, c))) == Some(y)
    ensures Follows(d, y) && ParsedGraph(ExprToks(Factored(a, b, c))) == Some(d.g)
    ensures forall p :: Spoken(y, p) <==> InClosure(ExprPaths(Factored(a, b, c)), p)
    ensures AreTwins(d.g, y, [Field(a), Field(c)], [Field(b), Field(c)])
  {
    hide WfExpr, ExprPaths, ExprToks, GroupsLast, SharingFree, FeedAll, ReadAll, LevelStands, EdgesSpoken, WfOpen,
         Spoken, Walk, Tree, AllSpoken;
    AlternativesFacts(a, b);
    FactoredFacts(a, b, c);
    var x0 := Alternatives(a, b);
    var c0, z0 := FinalState(x0);
    GroupsLastIsExact(x0);
    TreeIffSharingFree(x0, c0, z0);
    d, y := FinalState(Factored(a, b, c));
    assert [Field(a)] + [Field(c)] == [Field(a), Field(c)] && [Field(b)] + [Field(c)] == [Field(b), Field(c)];
    NotYet(a, b, a, c);
    NotYet(a, b, b, c);
    BothAttached(c0, z0, d, a, b, c);
    assert InClosure(ExprPaths(Factored(a, b, c)), [Field(a), Field(c)]);
    assert InClosure(ExprPaths(Factored(a, b, c)), [Field(b), Field(c)]);
  }

  lemma NotYet(a: Text, b: Text, k: Text, c: Text)
    ensures !InClosure(ExprPaths(Alternatives(a, b)), [Field(k), Field(c)])
  {
    hide ExprPaths;
    AlternativesFacts(a, b);
  }

  lemma BothAttached(c0: Config, z0: Reader, d: Config, a: Text, b: Text, c: Text)
    requires FeedAll(INIT, ExprToks(Alternatives(a, b))) == Some(c0)
    requires ReadAll(START, ExprToks(Alternatives(a, b))) == Some(z0)
    requires FeedAll(INIT, ExprToks(Factored(a, b, c))) == Some(d)
    requires Follows(c0, z0) && Tree(c0.g) && Forward(d.g)
    requires !Spoken(z0, [Field(a), Field(c)]) && !Spoken(z0, [Field(b), Field(c)])
    ensures Walk(d.g, [Field(a), Field(c)]) == Some(|c0.g|) == Walk(d.g, [Field(b), Field(c)])
  {
    hide WfExpr, ExprPaths, ExprToks, LevelStands, EdgesSpoken, WfOpen, Walk, Tree, AllSpoken, Spoken, CurPaths,
         ReadAll, AddStep, Follows;
    AlternativesFacts(a, b);
    FactoredToks(a, b, c);
    var x0 := Alternatives(a, b);
    ReadExpr(START, x0);
    FollowsFacts(c0, z0);
    FeedAllAppend(INIT, ExprToks(x0), [Dot, Key(c)]);
    FollowsState(c0, z0);
    TwoTokens(c0, c);
    AlternativesCur(z0, a, b);
    DotFollows(c0, z0);
    var c1, z1 := c0.(state := KeyState), z0.(state := KeyState);
    SpokenByLevels(z0, z1, [Field(a), Field(c)]);
    SpokenByLevels(z0, z1, [Field(b), Field(c)]);
    TreeIsExact(c1, z1);
    assert [Field(a)] + [Field(c)] == [Field(a), Field(c)] && [Field(b)] + [Field(c)] == [Field(b), Field(c)];
    NewIsAttached(c1, z1, Field(c), [Field(a)]);
    NewIsAttached(c1, z1, Field(c), [Field(b)]);
  }

  lemma FollowsState(c: Config, z: Reader)
    requires Follows(c, z)
    ensures c.state == z.state
  {}

  lemma TwoTokens(c: Config, k: Text)
    requires c.levels != [] && c.state == Separator
    ensures FeedAll(c, [Dot, Key(k)]) == Some(AddStep(c.(state := KeyState), Field(k)))
  {
    hide AddStep, Advance;
    var c1 := c.(state := KeyState);
    assert [Dot, Key(k)][1..] == [Key(k)] && [Key(k)][1..] == [];
    assert Feed(c, Dot) == Some(c1);
    AddStepLevels(c1, Field(k));
    assert FeedAll(c1, [Key(k)]) == Some(AddStep(c1, Field(k)));
  }

  lemma AddStepLevels(c: Config, s: Step)
    requires c.levels != []
    ensures AddStep(c, s).levels != []
  {}

  lemma SpokenByLevels(z: Reader, y: Reader, p: Path)
    requires z.levels == y.levels
    ensures Spoken(z, p) <==> Spoken(y, p)
  {
    if Spoken(z, p) {
      var j: nat, q :| j < |z.levels| && q in DonePaths(z.levels, j) + CurPaths(z.levels, j) && p <= q;
      Speak(y, j, q, p);
    }
    if Spoken(y, p) {
      var j: nat, q :| j < |y.levels| && q in DonePaths(y.levels, j) + CurPaths(y.levels, j) && p <= q;
      Speak(z, j, q, p);
    }
  }

  lemma AlternativesCur(z: Reader, a: Text, b: Text)
    requires ReadAll(START, ExprToks(Alternatives(a, b))) == Some(z)
    ensures z.state == Separator && |z.levels| == 1 && CurPaths(z.levels, 0) == {[Field(a)], [Field(b)]}
  {
    hide ExprToks, Cat, ReadAll, WfExpr, ElemPaths;
    AlternativesFacts(a, b);
    ReadExpr(START, Alternatives(a, b));
    PairFacts(a, b);
    LonePath(Pair(a, b), {[Field(a)], [Field(b)]});
    CatUnit({[Field(a)], [Field(b)]});
  }

  // ---------------------------------------------------------------------------------------------
  // Exact on its own, inexact with one more path
  // ---------------------------------------------------------------------------------------------

  predicate FactoredPath(a: Text, b: Text, c: Text, p: Path) {
    p in {[], [Field(a)], [Field(b)], [Field(a), Field(c)], [Field(b), Field(c)]}
  }

  lemma FactoredClosure(a: Text, b: Text, c: Text, p: Path)
    ensures InClosure(ExprPaths(Factored(a, b, c)), p) <==> FactoredPath(a, b, c, p)
  {
    hide ExprPaths;
    FactoredFacts(a, b, c);
    TwoStepPrefix(Field(a), Field(c), p);
    TwoStepPrefix(Field(b), Field(c), p);
    if FactoredPath(a, b, c, p) {
      assert [Field(a), Field(c)] in ExprPaths(Factored(a, b, c));
      assert [Field(b), Field(c)] in ExprPaths(Factored(a, b, c));
    }
  }

  lemma TwoStepPrefix(a: Step, c: Step, q: Path)
    ensures q <= [a, c] <==> q in {[], [a], [a, c]}
  {
    if q <= [a, c] {
      if |q| == 1 {
        assert q == [a, c][..1] == [a];
      } else if |q| == 2 {
        assert q == [a, c][..2] == [a, c];
      }
    }
  }

  lemma LaterThanPrefix(g: Graph, q: Path, s: Step)
    requires Forward(g) && Walk(g, q + [s]).Some?
    ensures Walk(g, q).Some? && Walk(g, q).value < Walk(g, q + [s]).value
  {
    WalkStep(g, q, s);
  }

  /** `(a,b).c` shares a mask, has a group that is not last, and is still exact. */
  lemma FactoredIsExact(a: Text, b: Text, c: Text)
    requires a != b
    ensures WfExpr(Factored(a, b, c)) && !GroupsLast(Factored(a, b, c)) && !SharingFree(Factored(a, b, c))
    ensures Exact(Factored(a, b, c))
  {
    hide WfExpr, ExprPaths, ExprToks, SharingFree, FeedAll, ReadAll, LevelStands, EdgesSpoken, WfOpen, Spoken, Walk,
         AllSpoken, InClosure, Exact;
    var x := Factored(a, b, c);
    var d, y := FactoredTwins(a, b, c);
    TreeIffSharingFree(x, d, y);
    assert HasTwins(d.g, y);
    NotLast(a, b, c);
    forall p, q, s | Spoken(y, p) && Spoken(y, q + [s]) && Walk(d.g, p) == Walk(d.g, q) ensures Spoken(y, p + [s]) {
      FactoredTwinsAgree(d, y, a, b, c, p, q, s);
    }
    ExactIffTwinsAgree(d, y);
    ExactIffAllSpoken(x, d, y);
  }

  lemma NotLast(a: Text, b: Text, c: Text)
    ensures !GroupsLast(Factored(a, b, c))
  {
    var es := Factored(a, b, c)[0].elems;
    assert es[0].Group? && !GroupsLastElems(es);
  }

  lemma FactoredTwinsAgree(d: Config, y: Reader, a: Text, b: Text, c: Text, p: Path, q: Path, s: Step)
    requires Follows(d, y)
    requires forall p :: Spoken(y, p) <==> InClosure(ExprPaths(Factored(a, b, c)), p)
    requires Walk(d.g, [Field(a), Field(c)]) == Walk(d.g, [Field(b), Field(c)])
    requires Spoken(y, p) && Spoken(y, q + [s]) && Walk(d.g, p) == Walk(d.g, q)
    ensures Spoken(y, p + [s])
  {
    hide WfExpr, ExprPaths, LevelStands, EdgesSpoken, WfOpen, Spoken, Walk, InClosure;
    var pa, pb := [Field(a)], [Field(b)];
    assert pa + [Field(c)] == [Field(a), Field(c)] && pb + [Field(c)] == [Field(b), Field(c)];
    assert [] + [Field(a)] == pa && [] + [Field(b)] == pb;
    FactoredClosure(a, b, c, p);
    FactoredClosure(a, b, c, q + [s]);
    FactoredClosure(a, b, c, p + [s]);
    FactoredClosure(a, b, c, pa + [Field(c)]);
    FactoredClosure(a, b, c, pb + [Field(c)]);
    SpokenWalks(d, y, q + [s]);
    SpokenWalks(d, y, pa + [Field(c)]);
    SpokenWalks(d, y, pb + [Field(c)]);
    LaterThanPrefix(d.g, pa, Field(c));
    LaterThanPrefix(d.g, pb, Field(c));
    LaterThanPrefix(d.g, [], Field(a));
    LaterThanPrefix(d.g, [], Field(b));
    FactoredStep(a, b, c, q, s);
    FactoredClosure(a, b, c, pa);
    FactoredClosure(a, b, c, pb);
    assert q != [] ==> p in {pa, pb};
  }

  lemma FactoredStep(a: Text, b: Text, c: Text, q: Path, s: Step)
    requires FactoredPath(a, b, c, q + [s])
    ensures (q == [] && s in {Field(a), Field(b)}) || (q in {[Field(a)], [Field(b)]} && s == Field(c))
  {
    assert (q + [s])[..|q|] == q && (q + [s])[|q|] == s;
    if |q| == 1 { assert q == [q[0]]; }
  }

  /** `(a,b).c,a.c.d` is parsed to a mask that also names `b.c.d`. */
  lemma FactoredExtended(a: Text, b: Text, c: Text, d: Text)
    requires a != b
    ensures WfExpr(Factored(a, b, c))
    ensures var x, over := With(Factored(a, b, c), [Field(a), Field(c), Field(d)]), [Field(b), Field(c), Field(d)];
            Names(ParsedMask(x), over) && !InClosure(ExprPaths(x), over) && !Exact(x)
  {
    hide WfExpr, ExprPaths, ExprToks, FeedAll, ReadAll, LevelStands, EdgesSpoken, WfOpen, Spoken, Walk, With, InClosure,
         ParsedMask, Follows;
    var x := Factored(a, b, c);
    var k, y := FactoredTwins(a, b, c);
    var pa, pb := [Field(a), Field(c)], [Field(b), Field(c)];
    TwinGetsContinuation(x, k, y, pa, pb, Field(d));
    assert pa + [Field(d)] == [Field(a), Field(c), Field(d)] && pb + [Field(d)] == [Field(b), Field(c), Field(d)];
    WithNames(x, pa + [Field(d)]);
    FactoredClosure(a, b, c, pb + [Field(d)]);
    assert (pb + [Field(d)])[0] != (pa + [Field(d)])[0];
  }
}
