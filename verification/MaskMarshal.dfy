/**
 Writing a mask as text, and reading the text back. A mask is written as one item per branch, in any
 order; a branch with one item below it continues the dotted path and one with more opens a group.
 */
module MaskMarshal {
  import opened MaskSyntax
  import opened MaskMeaning
  import opened MaskFragment

  // ---------------------------------------------------------------------------------------------
  // The expression a mask is written as
  // ---------------------------------------------------------------------------------------------

  /** `it` is how branch `s` with the mask `c` below it is written. */
  ghost predicate WritesBranch(s: Step, c: Mask, it: Item)
    decreases c, 2
  {
    if c == EMPTY_MASK then it.elems == [ElemOf(s)]
    else exists y: Expr ::
      && Writes(c, y)
      && it.elems == [ElemOf(s)] + (if |y| == 1 then y[0].elems else [Group(y)])
  }

  /** `x` writes mask `m`: its items are those of the branches, each branch once, in some order. */
  ghost predicate Writes(m: Mask, x: Expr)
    decreases m, 1
  {
    exists steps: seq<Step> :: WritesInOrder(m, x, steps)
  }

  ghost predicate WritesInOrder(m: Mask, x: Expr, steps: seq<Step>)
    decreases m, 0
  {
    && |steps| == |x|
    && (forall i, j :: 0 <= i < j < |steps| ==> steps[i] != steps[j])
    && (forall s :: Sub(m, s).Some? <==> s in steps)
    && (forall i :: 0 <= i < |x| ==> Sub(m, steps[i]).Some? && WritesBranch(steps[i], Sub(m, steps[i]).value, x[i]))
  }

  // ---------------------------------------------------------------------------------------------
  // What it denotes
  // ---------------------------------------------------------------------------------------------

  lemma {:induction false} PathsOfCons(e: Elem, es: seq<Elem>)
    ensures ElemsPaths([e] + es) == Cat(ElemPaths(e), ElemsPaths(es))
    decreases |es|
  {
    hide Cat;
    var all := [e] + es;
    if es == [] {
      assert all == [e] && all[..0] == [];
      CatUnit(ElemPaths(e));
    } else {
      var l := |es| - 1;
      PathsOfCons(e, es[..l]);
      assert all[..|all| - 1] == [e] + es[..l] && all[|all| - 1] == es[l];
      CatAssoc(ElemPaths(e), ElemsPaths(es[..l]), ElemPaths(es[l]));
    }
  }

  lemma {:induction false} ExprPathsAt(x: Expr, p: Path)
    ensures p in ExprPaths(x) <==> exists i :: 0 <= i < |x| && p in ElemsPaths(x[i].elems)
    decreases |x|
  {
    if x != [] {
      var l := |x| - 1;
      ExprPathsAt(x[..l], p);
      if p in ExprPaths(x[..l]) {
        var i :| 0 <= i < |x[..l]| && p in ElemsPaths(x[..l][i].elems);
        assert p in ElemsPaths(x[i].elems);
      }
      if exists i :: 0 <= i < l && p in ElemsPaths(x[i].elems) {
        var i :| 0 <= i < l && p in ElemsPaths(x[i].elems);
        assert x[..l][i] == x[i];
      }
    }
  }

  /** The paths of a branch are those below it, one step further down. */
  ghost predicate BranchPaths(s: Step, c: Mask, it: Item) {
    && it.elems != [] && WfElems(it.elems) && GroupsLastElems(it.elems)
    && (forall q :: q in ElemsPaths(it.elems) ==> q != [] && q[0] == s)
    && ElemsPaths(it.elems) != {}
    && forall r: Path :: Names(c, r) <==> InClosure(ElemsPaths(it.elems), [s] + r)
  }

  lemma PrefixBelow(s: Step, r: Path, q: Path)
    ensures [s] + r <= [s] + q <==> r <= q
  {
    assert ([s] + q)[1..] == q && ([s] + r)[1..] == r;
    if [s] + r <= [s] + q {
      assert [s] + r == ([s] + q)[..|r| + 1];
      assert r == q[..|r|];
    }
  }

  lemma EmptyBranch(s: Step, it: Item)
    requires it.elems == [ElemOf(s)]
    ensures BranchPaths(s, EMPTY_MASK, it)
  {
    hide Cat;
    assert ElemPaths(ElemOf(s)) == {[s]};
    LonePath(ElemOf(s), {[s]});
    assert WfElem(ElemOf(s)) && !ElemOf(s).Group? && GroupsLastElem(ElemOf(s));
    forall r: Path ensures Names(EMPTY_MASK, r) <==> InClosure({[s]}, [s] + r) {
      assert [s] + [] == [s];
      PrefixBelow(s, r, []);
      EmptyNames(r);
      assert [s] in {[s]};
    }
  }

  lemma EmptyNames(r: Path)
    ensures Names(EMPTY_MASK, r) <==> r <= []
  {}

  /** Names of a mask are the prefixes of the paths of what writes it. */
  ghost predicate Denotes(m: Mask, x: Expr) {
    && x != [] && WfExpr(x) && GroupsLast(x)
    && forall p :: Names(m, p) <==> InClosure(ExprPaths(x), p)
  }

  lemma DeeperBranch(s: Step, c: Mask, y: Expr, it: Item)
    requires Denotes(c, y) && it.elems == [ElemOf(s)] + (if |y| == 1 then y[0].elems else [Group(y)])
    ensures BranchPaths(s, c, it)
  {
    hide Cat, Names, InClosure, ElemsPaths, ExprPaths, WfExpr, GroupsLast, WfElems, GroupsLastElems;
    var rest := if |y| == 1 then y[0].elems else [Group(y)];
    RestPaths(y, rest);
    DeeperWf(s, rest);
    DeeperPaths(s, ExprPaths(y), ElemsPaths(it.elems));
    ElemsPathsNonEmpty(it.elems);
    forall r: Path ensures Names(c, r) <==> InClosure(ElemsPaths(it.elems), [s] + r) {
      assert Names(c, r) <==> InClosure(ExprPaths(y), r);
      BelowClosure(s, ExprPaths(y), ElemsPaths(it.elems), r);
    }
  }

  lemma DeeperWf(s: Step, rest: seq<Elem>)
    requires rest != [] && WfElems(rest) && GroupsLastElems(rest)
    ensures var es := [ElemOf(s)] + rest;
            es != [] && WfElems(es) && GroupsLastElems(es) && ElemsPaths(es) == Cat({[s]}, ElemsPaths(rest))
  {
    hide Cat, ElemsPaths;
    var es := [ElemOf(s)] + rest;
    assert ElemPaths(ElemOf(s)) == {[s]} && WfElem(ElemOf(s)) && GroupsLastElem(ElemOf(s)) && !ElemOf(s).Group?;
    PathsOfCons(ElemOf(s), rest);
    forall i | 0 <= i < |es| ensures (es[i].Group? ==> i == |es| - 1) && GroupsLastElem(es[i]) {
      if i > 0 { assert es[i] == rest[i - 1]; }
    }
  }

  lemma DeeperPaths(s: Step, paths: set<Path>, below: set<Path>)
    requires below == Cat({[s]}, paths)
    ensures forall q :: q in below ==> q != [] && q[0] == s && q[1..] in paths
    ensures forall b :: b in paths ==> [s] + b in below
  {
    hide Cat;
    forall q | q in below ensures q != [] && q[0] == s && q[1..] in paths {
      var a, b := CatSplit({[s]}, paths, q);
      assert q[1..] == b;
    }
    forall b | b in paths ensures [s] + b in below { CatMember({[s]}, paths, [s], b); }
  }

  lemma BelowClosure(s: Step, paths: set<Path>, below: set<Path>, r: Path)
    requires forall q :: q in below ==> q != [] && q[0] == s && q[1..] in paths
    requires forall b :: b in paths ==> [s] + b in below
    ensures InClosure(paths, r) <==> InClosure(below, [s] + r)
  {
    if InClosure(paths, r) {
      var b :| b in paths && r <= b;
      PrefixBelow(s, r, b);
      assert [s] + b in below;
    }
    if InClosure(below, [s] + r) {
      var q :| q in below && [s] + r <= q;
      assert q == [s] + q[1..];
      PrefixBelow(s, r, q[1..]);
    }
  }

  lemma RestPaths(y: Expr, rest: seq<Elem>)
    requires y != [] && WfExpr(y) && GroupsLast(y) && rest == (if |y| == 1 then y[0].elems else [Group(y)])
    ensures rest != [] && WfElems(rest) && GroupsLastElems(rest) && ElemsPaths(rest) == ExprPaths(y)
  {
    hide Cat;
    if |y| == 1 {
      WfMember(y, y[0]);
      assert y[..0] == [];
    } else {
      assert WfElem(Group(y)) && GroupsLastElem(Group(y));
      LonePath(Group(y), ExprPaths(y));
    }
  }

  lemma {:induction false} WrittenDenotes(m: Mask, x: Expr)
    requires Writes(m, x) && m != EMPTY_MASK
    ensures Denotes(m, x)
    decreases m
  {
    hide Denotes, BranchPaths, WritesBranch, Writes, WritesInOrder;
    var steps := StepsOf(m, x);
    forall i | 0 <= i < |x| ensures BranchPaths(steps[i], Sub(m, steps[i]).value, x[i]) {
      BranchDenotes(m, steps[i], Sub(m, steps[i]).value, x[i]);
    }
    NonEmptyHasBranch(m, steps);
    BranchesDenote(m, x, steps);
  }

  lemma StepsOf(m: Mask, x: Expr) returns (steps: seq<Step>)
    requires Writes(m, x)
    ensures |steps| == |x| && forall s :: Sub(m, s).Some? <==> s in steps
    ensures forall i :: 0 <= i < |x| ==>
              && Sub(m, steps[i]).Some? && Sub(m, steps[i]).value < m
              && WritesBranch(steps[i], Sub(m, steps[i]).value, x[i])
  {
    hide WritesBranch;
    steps :| WritesInOrder(m, x, steps);
  }

  lemma {:induction false} BranchDenotes(m: Mask, s: Step, c: Mask, it: Item)
    requires c < m && WritesBranch(s, c, it)
    ensures BranchPaths(s, c, it)
    decreases m, 0
  {
    hide BranchPaths, Denotes;
    if c == EMPTY_MASK {
      EmptyBranch(s, it);
    } else {
      var y: Expr :| Writes(c, y) && it.elems == [ElemOf(s)] + (if |y| == 1 then y[0].elems else [Group(y)]);
      WrittenDenotes(c, y);
      DeeperBranch(s, c, y, it);
    }
  }

  lemma NonEmptyHasBranch(m: Mask, steps: seq<Step>)
    requires (forall s :: Sub(m, s).Some? <==> s in steps) && m != EMPTY_MASK
    ensures steps != []
  {
    if m.any.Some? {
      assert Sub(m, Any).Some?;
    } else {
      assert m.parts != map[];
      var k :| k in m.parts;
      assert Sub(m, Field(k)).Some?;
    }
  }

  lemma BranchesDenote(m: Mask, x: Expr, steps: seq<Step>)
    requires |steps| == |x| && x != [] && (forall s :: Sub(m, s).Some? <==> s in steps)
    requires forall i :: 0 <= i < |x| ==> Sub(m, steps[i]).Some? && BranchPaths(steps[i], Sub(m, steps[i]).value, x[i])
    ensures Denotes(m, x)
  {
    hide ElemsPaths, ExprPaths;
    assert forall i :: 0 <= i < |x| ==> WfItem(x[i]);
    assert WfItems(x) && GroupsLast(x);
    forall p ensures Names(m, p) <==> InClosure(ExprPaths(x), p) {
      hide Names, InClosure, BranchPaths;
      if p == [] {
        RootNamed(m, x, steps);
      } else {
        PathNamed(m, x, steps, p);
      }
    }
  }

  lemma RootNamed(m: Mask, x: Expr, steps: seq<Step>)
    requires |steps| == |x| && x != [] && Sub(m, steps[0]).Some? && BranchPaths(steps[0], Sub(m, steps[0]).value, x[0])
    ensures Names(m, []) && InClosure(ExprPaths(x), [])
  {
    hide ElemsPaths, ExprPaths;
    var q :| q in ElemsPaths(x[0].elems);
    ExprPathsAt(x, q);
    assert q in ExprPaths(x) && [] <= q;
  }

  lemma PathNamed(m: Mask, x: Expr, steps: seq<Step>, p: Path)
    requires |steps| == |x| && (forall s :: Sub(m, s).Some? <==> s in steps) && p != []
    requires forall i :: 0 <= i < |x| ==> Sub(m, steps[i]).Some? && BranchPaths(steps[i], Sub(m, steps[i]).value, x[i])
    ensures Names(m, p) <==> InClosure(ExprPaths(x), p)
  {
    hide ElemsPaths, ExprPaths;
    var s, r := p[0], p[1..];
    assert p == [s] + r;
    if Names(m, p) {
      var i :| 0 <= i < |x| && steps[i] == s;
      assert InClosure(ElemsPaths(x[i].elems), [s] + r);
      var q :| q in ElemsPaths(x[i].elems) && p <= q;
      ExprPathsAt(x, q);
    }
    if InClosure(ExprPaths(x), p) {
      var q :| q in ExprPaths(x) && p <= q;
      ExprPathsAt(x, q);
      var i :| 0 <= i < |x| && q in ElemsPaths(x[i].elems);
      assert q[0] == steps[i] && q[0] == s;
      assert InClosure(ElemsPaths(x[i].elems), [s] + r);
    }
  }

  /** What is written for a mask is parsed to that mask. */
  lemma WrittenIsParsed(m: Mask, x: Expr)
    requires Writes(m, x) && m != EMPTY_MASK
    ensures WfExpr(x) && ParsedMask(x) == m
  {
    hide Names, InClosure, ExprPaths, WfExpr, GroupsLast, ParsedMask, Writes;
    WrittenDenotes(m, x);
    GroupsLastIsExact(x);
    forall p ensures Names(ParsedMask(x), p) <==> Names(m, p) {
      assert Names(ParsedMask(x), p) <==> InClosure(ExprPaths(x), p);
    }
    MaskExtensional(ParsedMask(x), m);
  }

  /** Only the empty mask is written as nothing. */
  lemma WrittenEmpty(m: Mask, x: Expr)
    requires Writes(m, x)
    ensures x == [] <==> m == EMPTY_MASK
  {
    hide Writes, WritesBranch;
    var steps := StepsOf(m, x);
    if m != EMPTY_MASK { NonEmptyHasBranch(m, steps); }
    if x != [] { assert Sub(m, steps[0]).Some?; }
  }
}
