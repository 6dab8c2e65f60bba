/**
 Which expressions are free of sharing: those with groups only at the end of an item are, and
 freedom from sharing is exactly what keeps a mask exact whatever path is added to it.
 */
module MaskFragment {
  import opened MaskSyntax
  import opened MaskGrammar
  import opened MaskGraph
  import opened MaskMachine
  import opened MaskMeaning
  import opened MaskSharing
  import opened Options

  // ---------------------------------------------------------------------------------------------
  // Groups only as the last element of an item
  // ---------------------------------------------------------------------------------------------

  predicate GroupsLastElem(e: Elem)
    decreases e, 1
  {
    e.Group? ==> GroupsLast(e.items)
  }

  predicate GroupsLastElems(es: seq<Elem>)
    decreases es, 2
  {
    forall i :: 0 <= i < |es| ==> (es[i].Group? ==> i == |es| - 1) && GroupsLastElem(es[i])
  }

  predicate GroupsLast(x: Expr)
    decreases x, 3
  {
    forall i :: 0 <= i < |x| ==> GroupsLastElems(x[i].elems)
  }

  predicate NoGroups(es: seq<Elem>) {
    forall e :: e in es ==> !e.Group?
  }

  lemma {:induction false} NoGroupsOnePath(es: seq<Elem>) returns (r: Path)
    requires NoGroups(es)
    ensures ElemsPaths(es) == {r}
  {
    hide Cat;
    if es == [] {
      r := [];
    } else {
      var l := |es| - 1;
      assert es[l] in es;
      var q := NoGroupsOnePath(es[..l]);
      var s: Path := match es[l] case Named(k) => [Field(k)] case Wild => [Any] case _ => [];
      assert ElemPaths(es[l]) == {s};
      CatOne(q, s);
      r := q + s;
    }
  }

  lemma CatOne(p: Path, q: Path)
    ensures Cat({p}, {q}) == {p + q}
  {
    hide Cat;
    CatMember({p}, {q}, p, q);
    forall x | x in Cat({p}, {q}) ensures x == p + q { var p', q' := CatSplit({p}, {q}, x); }
  }

  lemma NoSharingAppend(z: Reader, a: seq<Tok>, b: seq<Tok>)
    requires z.levels != [] && ReadAll(z, a).Some? && ReadAll(z, a).value.levels != []
    ensures NoSharing(z, a + b) <==> NoSharing(z, a) && NoSharing(ReadAll(z, a).value, b)
    decreases |a|
  {
    hide OneNew, StepOf, Read;
    if a == [] {
      assert a + b == b;
    } else {
      assert (a + b)[1..] == a[1..] + b;
      NoSharingAppend(Read(z, a[0]).value, a[1..], b);
    }
  }

  /** A token that is no key and no wildcard shares nothing. */
  lemma PlainToken(z: Reader, t: Tok)
    requires z.levels != [] && !t.Key? && t != WildCard
    ensures NoSharing(z, [t])
  {
    hide OneNew;
    assert [t][1..] == [];
  }

  lemma OnePathToken(z: Reader, t: Tok, p: Path)
    requires z.levels != [] && CurPaths(z.levels, |z.levels| - 1) == {p}
    ensures NoSharing(z, [t])
  {
    hide CurPaths, Spoken;
    assert [t][1..] == [];
  }

  lemma {:induction false} NarrowElem(z: Reader, e: Elem, p: Path)
    requires ReadyForElem(z) && WfElem(e) && GroupsLastElem(e)
    requires CurPaths(z.levels, |z.levels| - 1) == {p}
    ensures NoSharing(z, ElemToks(e))
    decreases e, 1
  {
    hide CurPaths, NoSharing, Base, DonePaths, ExprToks;
    match e
    case Named(k) => OnePathToken(z, Key(k), p);
    case Wild => OnePathToken(z, WildCard, p);
    case Empty =>
      ReadOne(z, LBrace);
      PlainToken(z, LBrace);
      PlainToken(Read(z, LBrace).value, RBrace);
      NoSharingAppend(z, [LBrace], [RBrace]);
      assert [LBrace] + [RBrace] == [LBrace, RBrace];
    case Group(items) =>
      var z1 := Reader(z.levels + [Open([], [])], LevelStart);
      ReadOne(z, LBrace);
      PlainToken(z, LBrace);
      PushPaths(z);
      NarrowExpr(z1, items, p);
      ReadExpr(z1, items);
      PlainToken(ReadAll(z1, ExprToks(items)).value, RBrace);
      NoSharingAppend(z1, ExprToks(items), [RBrace]);
      NoSharingAppend(z, [LBrace], ExprToks(items) + [RBrace]);
      assert ElemToks(e) == [LBrace] + (ExprToks(items) + [RBrace]);
  }

  lemma {:induction false} NarrowElems(z: Reader, es: seq<Elem>, b: Path)
    requires ReadyForElem(z) && WfElems(es) && es != [] && GroupsLastElems(es)
    requires Top(z).cur == [] && Base(z.levels, |z.levels| - 1) == {b}
    ensures NoSharing(z, ElemsToks(es))
    decreases es, 2
  {
    hide NoSharing, Cat, ElemToks, WfElem, GroupsLastElem;
    var l, t := |es| - 1, |z.levels| - 1;
    assert es[l] in es;
    if l == 0 {
      CatUnit({b});
      NarrowElem(z, es[0], b);
    } else {
      var q := NoGroupsOnePath(es[..l]);
      NarrowElems(z, es[..l], b);
      ReadElems(z, es[..l]);
      var z1 := WithTop(z, Open(Top(z).items, Top(z).cur + es[..l]), Separator);
      var z2 := z1.(state := KeyState);
      assert [] + es[..l] == es[..l];
      CatOne(b, q);
      assert z1.levels[..t] == z.levels[..t];
      BaseFrame(z1.levels, z.levels, t);
      ReadOne(z1, Dot);
      PlainToken(z1, Dot);
      NarrowElem(z2, es[l], b + q);
      NoSharingAppend(z1, [Dot], ElemToks(es[l]));
      NoSharingAppend(z, ElemsToks(es[..l]), [Dot] + ElemToks(es[l]));
      assert ElemsToks(es) == ElemsToks(es[..l]) + ([Dot] + ElemToks(es[l]));
    }
  }

  lemma {:induction false} NarrowExpr(z: Reader, x: Expr, b: Path)
    requires ReadyForElem(z) && WfExpr(x) && GroupsLast(x)
    requires Top(z) == Open([], []) && Base(z.levels, |z.levels| - 1) == {b}
    ensures NoSharing(z, ExprToks(x))
    decreases x, 3
  {
    hide NoSharing, ElemsToks, Read, ReadAll, Cat, WfElems, GroupsLastElems;
    var l, t := |x| - 1, |z.levels| - 1;
    WfMember(x, x[l]);
    if l == 0 {
      NarrowElems(z, x[0].elems, b);
    } else {
      assert WfItems(x[..l]);
      NarrowExpr(z, x[..l], b);
      ReadExpr(z, x[..l]);
      var z1 := WithTop(z, Open(x[..l][..l - 1], x[..l][l - 1].elems), Separator);
      var z2 := WithTop(z1, Open(x[..l], []), KeyState);
      assert x[..l][..l - 1] + [Item(x[..l][l - 1].elems)] == x[..l];
      ReadComma(z1);
      ReadOne(z1, Comma);
      PlainToken(z1, Comma);
      assert z2.levels[..t] == z.levels[..t];
      BaseFrame(z2.levels, z.levels, t);
      NarrowElems(z2, x[l].elems, b);
      NoSharingAppend(z1, [Comma], ElemsToks(x[l].elems));
      NoSharingAppend(z, ExprToks(x[..l]), [Comma] + ElemsToks(x[l].elems));
      assert ExprToks(x) == ExprToks(x[..l]) + ([Comma] + ElemsToks(x[l].elems));
    }
  }

  /** With groups only at the end of items, the mask names exactly the denotation's closure. */
  lemma GroupsLastIsExact(x: Expr)
    requires WfExpr(x) && GroupsLast(x)
    ensures SharingFree(x) && Exact(x)
  {
    hide NoSharing, Exact, WfExpr, GroupsLast, ExprToks, Base, CurPaths, DonePaths;
    FreshPaths(START.levels);
    NarrowExpr(START, x, []);
    SharingFreeIsExact(x);
  }

  // ---------------------------------------------------------------------------------------------
  // Adding one more path
  // ---------------------------------------------------------------------------------------------

  function ElemOf(s: Step): Elem {
    match s
    case Field(k) => Named(k)
    case Any => Wild
  }

  /** A single dotted path as an item. */
  function PathItem(y: Path): Item {
    Item(seq(|y|, i requires 0 <= i < |y| => ElemOf(y[i])))
  }

  lemma {:induction false} PathItemPaths(y: Path)
    ensures ElemsPaths(PathItem(y).elems) == {y}
    ensures WfElems(PathItem(y).elems) && GroupsLastElems(PathItem(y).elems)
    decreases |y|
  {
    var es := PathItem(y).elems;
    if y != [] {
      var l := |y| - 1;
      PathItemPaths(y[..l]);
      assert es[..l] == PathItem(y[..l]).elems;
      assert ElemPaths(es[l]) == {[y[l]]};
      CatOne(y[..l], [y[l]]);
      assert y[..l] + [y[l]] == y;
    }
  }

  lemma WfAppendItem(x: Expr, it: Item)
    requires WfExpr(x) && it.elems != [] && WfElems(it.elems)
    ensures WfExpr(x + [it])
  {
    assert WfItem(it);
    assert forall i :: i in x + [it] ==> i in x || i == it;
    assert WfItems(x + [it]);
  }

  /** Expression `x` with the path `y` written behind it. */
  function With(x: Expr, y: Path): (r: Expr)
    requires WfExpr(x) && y != []
    ensures WfExpr(r)
  {
    PathItemPaths(y);
    WfAppendItem(x, PathItem(y));
    x + [PathItem(y)]
  }

  lemma WithToks(x: Expr, y: Path)
    requires WfExpr(x) && y != []
    ensures ExprToks(With(x, y)) == ExprToks(x) + ([Comma] + ElemsToks(PathItem(y).elems))
    ensures ExprPaths(With(x, y)) == ExprPaths(x) + {y}
  {
    assert With(x, y)[..|x|] == x;
    PathItemPaths(y);
  }

  /** Reading the further path starts from the root level. */
  lemma AfterComma(x: Expr, z: Reader, y: Path) returns (z2: Reader)
    requires WfExpr(x) && y != [] && ReadAll(START, ExprToks(x)) == Some(z)
    ensures z.levels != [] && ReadAll(z, [Comma]) == Some(z2)
    ensures NoSharing(z, [Comma]) && ReadyForElem(z2) && |z2.levels| == 1 && Top(z2).cur == []
  {
    hide ExprToks, ElemsToks, WfExpr, ReadAll;
    ReadExpr(START, x);
    ReadComma(z);
    ReadOne(z, Comma);
    PlainToken(z, Comma);
    z2 := Read(z, Comma).value;
  }

  lemma SharingFreeWith(x: Expr, y: Path)
    requires WfExpr(x) && y != []
    ensures SharingFree(With(x, y)) <==> SharingFree(x)
  {
    hide ExprToks, ElemsToks, WfExpr, ReadAll, NoSharing, CurPaths, With;
    WithToks(x, y);
    ReadExpr(START, x);
    var z := ReadAll(START, ExprToks(x)).value;
    var z2 := AfterComma(x, z, y);
    PathItemPaths(y);
    NarrowElems(z2, PathItem(y).elems, []);
    NoSharingAppend(z, [Comma], ElemsToks(PathItem(y).elems));
    NoSharingAppend(START, ExprToks(x), [Comma] + ElemsToks(PathItem(y).elems));
  }

  lemma {:induction false} KeyBound(paths: set<Path>, i: nat) returns (n: nat)
    ensures forall r: Path :: r in paths && i < |r| && r[i].Field? ==> |r[i].key| < n
    decreases |paths|
  {
    if paths == {} {
      n := 0;
    } else {
      var r: Path :| r in paths;
      var m := KeyBound(paths - {r}, i);
      n := if i < |r| && r[i].Field? && |r[i].key| >= m then |r[i].key| + 1 else m;
    }
  }

  lemma AtPrefix(q: Path, s: Step, r: Path)
    ensures q + [s] <= r ==> |q| < |r| && r[|q|] == s
  {
    if q + [s] <= r { assert r[|q|] == (q + [s])[|q|]; }
  }

  /** Some key never follows `q` in the denotation. */
  lemma FreshKey(x: Expr, q: Path) returns (k: Text)
    ensures !InClosure(ExprPaths(x), q + [Field(k)])
  {
    hide ExprPaths;
    var n := KeyBound(ExprPaths(x), |q|);
    k := seq(n, _ => 97);
    forall r | r in ExprPaths(x) ensures !(q + [Field(k)] <= r) {
      AtPrefix(q, Field(k), r);
    }
  }

  lemma {:induction false} RunKeepsWalks(c: Config, z: Reader, toks: seq<Tok>, p: Path)
    requires Follows(c, z) && FeedAll(c, toks).Some? && Walk(c.g, p).Some?
    ensures Forward(FeedAll(c, toks).value.g) && Walk(FeedAll(c, toks).value.g, p) == Walk(c.g, p)
    decreases |toks|
  {
    hide LevelStands, WfOpen, Walk, EdgesSpoken, Feed, Read;
    if toks != [] {
      FeedFollows(c, z, toks[0]);
      FeedKeepsWalks(c, z, toks[0], p);
      RunKeepsWalks(Feed(c, toks[0]).value, Read(z, toks[0]).value, toks[1..], p);
    }
  }

  lemma {:induction false} FeedAllAppend(c: Config, a: seq<Tok>, b: seq<Tok>)
    requires c.levels != []
    ensures var r := FeedAll(c, a);
            FeedAll(c, a + b) == if r.None? || r.value.levels == [] then None else FeedAll(r.value, b)
    decreases |a|
  {
    hide Feed;
    if a == [] {
      assert a + b == b;
    } else {
      var r := Feed(c, a[0]);
      assert (a + b)[1..] == a[1..] + b;
      if r.Some? && r.value.levels != [] { FeedAllAppend(r.value, a[1..], b); }
    }
  }

  /** A path through one twin, continued by a step the other never had, is named for both. */
  lemma TwinGetsContinuation(x: Expr, c: Config, z: Reader, p: Path, q: Path, s: Step)
    requires WfExpr(x) && FeedAll(INIT, ExprToks(x)) == Some(c) && ReadAll(START, ExprToks(x)) == Some(z)
    requires Follows(c, z) && AreTwins(c.g, z, p, q)
    ensures Names(ParsedMask(With(x, p + [s])), q + [s])
  {
    hide LevelStands, WfOpen, Walk, EdgesSpoken, Spoken, ExprToks, WfExpr, ParsedMask, FeedAll, ReadAll, With,
         InClosure, Follows;
    var y := p + [s];
    WithToks(x, y);
    var c', z' := FinalState(With(x, y));
    SpokenWalks(c, z, p);
    SpokenWalks(c, z, q);
    var rest := [Comma] + ElemsToks(PathItem(y).elems);
    FollowsFacts(c, z);
    FeedAllAppend(INIT, ExprToks(x), rest);
    RunKeepsWalks(c, z, rest, p);
    RunKeepsWalks(c, z, rest, q);
    WithNames(x, y);
    SpokenWalks(c', z', y);
    WalkStep(c'.g, p, s);
    WalkStep(c'.g, q, s);
    MaskNames(With(x, y), c'.g, q + [s]);
  }

  lemma FollowsFacts(c: Config, z: Reader)
    requires Follows(c, z)
    ensures c.levels != [] && z.levels != [] && Forward(c.g)
  {}

  lemma WithNames(x: Expr, y: Path)
    requires WfExpr(x) && y != []
    ensures InClosure(ExprPaths(With(x, y)), y)
    ensures forall p :: InClosure(ExprPaths(With(x, y)), p) <==> InClosure(ExprPaths(x), p) || p <= y
  {
    hide WfExpr, ExprPaths, With;
    WithToks(x, y);
    assert y in ExprPaths(With(x, y));
    forall p ensures InClosure(ExprPaths(With(x, y)), p) <==> InClosure(ExprPaths(x), p) || p <= y {
      if InClosure(ExprPaths(x), p) {
        var q :| q in ExprPaths(x) && p <= q;
        assert q in ExprPaths(With(x, y));
      }
    }
  }

  lemma StepPrefix(p: Path, q: Path, s: Step)
    requires q + [s] <= p + [s]
    ensures q == p || q + [s] <= p
  {
    if |q| == |p| {
      assert q == (q + [s])[..|q|] == (p + [s])[..|q|] == p;
    } else {
      assert q + [s] == (p + [s])[..|q| + 1] == p[..|q| + 1];
    }
  }

  /** Sharing can always be turned into a path too many by one further path. */
  lemma SharingBreaksExactness(x: Expr) returns (y: Path)
    requires WfExpr(x) && !SharingFree(x)
    ensures y != [] && !Exact(With(x, y))
  {
    hide LevelStands, WfOpen, Walk, EdgesSpoken, Spoken, ExprToks, WfExpr, ParsedMask, FeedAll, ReadAll, With,
         InClosure, ExprPaths;
    var c, z := FinalState(x);
    TreeIffSharingFree(x, c, z);
    var p, q :| AreTwins(c.g, z, p, q);
    var k := FreshKey(x, q);
    y := p + [Field(k)];
    TwinGetsContinuation(x, c, z, p, q, Field(k));
    WithNames(x, y);
    if q + [Field(k)] <= y {
      StepPrefix(p, q, Field(k));
      SpokenPrefix(z, q + [Field(k)], p);
    }
  }

  ghost predicate ExactWith(x: Expr, y: Path)
    requires WfExpr(x)
  {
    y != [] ==> Exact(With(x, y))
  }

  /** A mask stays exact under every further path exactly when its expression is free of sharing. */
  lemma RobustlyExactIffSharingFree(x: Expr)
    requires WfExpr(x)
    ensures SharingFree(x) <==> forall y :: ExactWith(x, y)
  {
    hide Exact, SharingFree, WfExpr, With;
    if SharingFree(x) {
      forall y ensures ExactWith(x, y) {
        if y != [] {
          SharingFreeWith(x, y);
          SharingFreeIsExact(With(x, y));
        }
      }
    } else {
      var y := SharingBreaksExactness(x);
      assert !ExactWith(x, y);
    }
  }
}
