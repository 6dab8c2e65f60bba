/**
 What a mask is written as: the texts of its branches in ascending order with commas in between. The text
 is determined by the mask, and it is the text of an expression that writes the mask.
 */
module MaskRender {
  import opened MaskSyntax
  import opened MaskMeaning
  import opened MaskFragment
  import opened MaskMarshal
  import opened MaskText

  // ---------------------------------------------------------------------------------------------
  // Order of texts
  // ---------------------------------------------------------------------------------------------

  /** By the first differing code point, a proper prefix first. */
  predicate TextLess(a: Text, b: Text) {
    b != [] && (a == [] || a[0] < b[0] || (a[0] == b[0] && TextLess(a[1..], b[1..])))
  }

  lemma {:induction false} TextLessTotal(a: Text, b: Text)
    ensures TextLess(a, b) || TextLess(b, a) || a == b
    decreases |a|
  {
    if a != [] && b != [] && a[0] == b[0] {
      TextLessTotal(a[1..], b[1..]);
      assert a == [a[0]] + a[1..] && b == [b[0]] + b[1..];
    }
  }

  lemma {:induction false} NotLessTransitive(a: Text, b: Text, c: Text)
    requires !TextLess(b, a) && !TextLess(c, b)
    ensures !TextLess(c, a)
    decreases |a|
  {
    if a != [] && b != [] && c != [] && a[0] == b[0] == c[0] { NotLessTransitive(a[1..], b[1..], c[1..]); }
  }

  ghost predicate Ascending(ts: seq<Text>) { forall i :: 0 < i < |ts| ==> !TextLess(ts[i], ts[i - 1]) }

  lemma {:induction false} FirstIsLeast(ts: seq<Text>, i: nat)
    requires Ascending(ts) && i < |ts|
    ensures !TextLess(ts[i], ts[0])
    decreases i
  {
    if i == 0 {
      NotLessItself(ts[0]);
    } else {
      FirstIsLeast(ts, i - 1);
      NotLessTransitive(ts[0], ts[i - 1], ts[i]);
    }
  }

  lemma {:induction false} NotLessItself(a: Text)
    ensures !TextLess(a, a)
  {
    if a != [] { NotLessItself(a[1..]); }
  }

  function Without<T>(s: seq<T>, j: nat): seq<T>
    requires j < |s|
  {
    s[..j] + s[j + 1..]
  }

  lemma WithoutOne<T>(s: seq<T>, j: nat)
    requires j < |s|
    ensures multiset(s) == multiset(Without(s, j)) + multiset{s[j]}
  {
    assert s == s[..j] + [s[j]] + s[j + 1..];
  }

  lemma SizesAgree<T>(a: seq<T>, b: seq<T>)
    requires multiset(a) == multiset(b)
    ensures |a| == |b| && (a != [] ==> exists j :: 0 <= j < |b| && b[j] == a[0])
  {
    assert |a| == |multiset(a)| && |b| == |multiset(b)|;
    if a != [] { assert a[0] in multiset(b); }
  }

  lemma RestAgrees<T>(a: seq<T>, i: nat, b: seq<T>, j: nat)
    requires multiset(a) == multiset(b) && i < |a| && j < |b| && a[i] == b[j]
    ensures multiset(Without(a, i)) == multiset(Without(b, j))
  {
    hide Without;
    WithoutOne(a, i);
    WithoutOne(b, j);
    assert multiset(Without(a, i)) == multiset(a) - multiset{a[i]};
    assert multiset(Without(b, j)) == multiset(b) - multiset{b[j]};
  }

  lemma LeastAgree(ts: seq<Text>, us: seq<Text>)
    requires Ascending(ts) && Ascending(us) && ts != [] && us != [] && multiset(ts) == multiset(us)
    ensures ts[0] == us[0]
  {
    hide Ascending, TextLess;
    SizesAgree(ts, us);
    SizesAgree(us, ts);
    var i :| 0 <= i < |us| && us[i] == ts[0];
    var j :| 0 <= j < |ts| && ts[j] == us[0];
    FirstIsLeast(us, i);
    FirstIsLeast(ts, j);
    TextLessTotal(ts[0], us[0]);
  }

  lemma AscendingRest(ts: seq<Text>)
    requires Ascending(ts) && ts != []
    ensures Ascending(ts[1..]) && Without(ts, 0) == ts[1..]
  {}

  /** Ascending lists of the same texts are the same. */
  lemma {:induction false} AscendingUnique(ts: seq<Text>, us: seq<Text>)
    requires Ascending(ts) && Ascending(us) && multiset(ts) == multiset(us)
    ensures ts == us
    decreases |ts|
  {
    hide TextLess, Ascending, Without;
    SizesAgree(ts, us);
    if ts != [] {
      LeastAgree(ts, us);
      RestAgrees(ts, 0, us, 0);
      AscendingRest(ts);
      AscendingRest(us);
      AscendingUnique(ts[1..], us[1..]);
      assert ts == [ts[0]] + ts[1..] && us == [us[0]] + us[1..];
    }
  }

  // ---------------------------------------------------------------------------------------------
  // The text of a mask
  // ---------------------------------------------------------------------------------------------

  function StepText(s: Step): Text {
    match s
    case Field(k) => KeyText(k)
    case Any => [42]
  }

  /** A branch with `count` branches below it, which are written `text`. */
  function BranchText(key: Text, count: nat, text: Text): Text {
    if text == [] then key else if count == 1 then key + [46] + text else key + [46, 40] + text + [41]
  }

  function Joined(ts: seq<Text>): Text {
    if ts == [] then [] else if |ts| == 1 then ts[0] else Joined(ts[..|ts| - 1]) + [44] + ts[|ts| - 1]
  }

  ghost predicate BranchRendered(s: Step, c: Mask, t: Text)
    decreases c, 2
  {
    exists n: nat, u :: Rendered(c, n, u) && t == BranchText(StepText(s), n, u)
  }

  /** A mask with `count` branches is written as `text`. */
  ghost predicate Rendered(m: Mask, count: nat, text: Text)
    decreases m, 1
  {
    exists steps: seq<Step>, texts: seq<Text> ::
      RenderedBy(m, steps, texts) && count == |texts| && text == Joined(texts)
  }

  ghost predicate RenderedBy(m: Mask, steps: seq<Step>, texts: seq<Text>)
    decreases m, 0
  {
    && |steps| == |texts| && Ascending(texts)
    && (forall i, j :: 0 <= i < j < |steps| ==> steps[i] != steps[j])
    && (forall s :: Sub(m, s).Some? <==> s in steps)
    && (forall i :: 0 <= i < |steps| ==>
          Sub(m, steps[i]).Some? && BranchRendered(steps[i], Sub(m, steps[i]).value, texts[i]))
  }

  // ---------------------------------------------------------------------------------------------
  // It is determined by the mask
  // ---------------------------------------------------------------------------------------------

  /** The texts are those of the steps. */
  ghost predicate TextsOf(text: map<Step, Text>, steps: seq<Step>, texts: seq<Text>) {
    |steps| == |texts| && forall i :: 0 <= i < |steps| ==> steps[i] in text && texts[i] == text[steps[i]]
  }

  lemma TextsWithout(text: map<Step, Text>, steps: seq<Step>, texts: seq<Text>, j: nat)
    requires TextsOf(text, steps, texts) && j < |steps|
    ensures TextsOf(text, Without(steps, j), Without(texts, j))
  {}

  lemma {:induction false} SameTexts(text: map<Step, Text>, a: seq<Step>, ta: seq<Text>, b: seq<Step>, tb: seq<Text>)
    requires TextsOf(text, a, ta) && TextsOf(text, b, tb) && multiset(a) == multiset(b)
    ensures multiset(ta) == multiset(tb)
    decreases |a|
  {
    SizesAgree(a, b);
    if a != [] {
      var j :| 0 <= j < |b| && b[j] == a[0];
      RestAgrees(a, 0, b, j);
      TextsWithout(text, a, ta, 0);
      TextsWithout(text, b, tb, j);
      SameTexts(text, Without(a, 0), Without(ta, 0), Without(b, j), Without(tb, j));
      hide Without;
      WithoutOne(ta, 0);
      WithoutOne(tb, j);
    } else {
      assert ta == [] && tb == [];
    }
  }

  lemma {:induction false} DistinctMultiset(a: seq<Step>, b: seq<Step>)
    requires forall i, j :: 0 <= i < j < |a| ==> a[i] != a[j]
    requires forall i, j :: 0 <= i < j < |b| ==> b[i] != b[j]
    requires forall s :: s in a <==> s in b
    ensures multiset(a) == multiset(b)
  {
    forall s ensures multiset(a)[s] == multiset(b)[s] {
      DistinctCount(a, s);
      DistinctCount(b, s);
    }
  }

  lemma {:induction false} DistinctCount(a: seq<Step>, s: Step)
    requires forall i, j :: 0 <= i < j < |a| ==> a[i] != a[j]
    ensures multiset(a)[s] == if s in a then 1 else 0
    decreases |a|
  {
    if a != [] {
      assert a == [a[0]] + a[1..];
      DistinctCount(a[1..], s);
    }
  }

  lemma {:induction false} RenderedUnique(m: Mask, n: nat, t: Text, n': nat, t': Text)
    requires Rendered(m, n, t) && Rendered(m, n', t')
    ensures n == n' && t == t'
    decreases m, 1
  {
    hide BranchRendered;
    var steps, texts :| RenderedBy(m, steps, texts) && n == |texts| && t == Joined(texts);
    var steps', texts' :| RenderedBy(m, steps', texts') && n' == |texts'| && t' == Joined(texts');
    DistinctMultiset(steps, steps');
    var byStep := TextMap(steps, texts);
    forall i | 0 <= i < |steps'| ensures steps'[i] in byStep && texts'[i] == byStep[steps'[i]] {
      assert steps'[i] in steps;
      var j :| 0 <= j < |steps| && steps[j] == steps'[i];
      BranchUnique(m, steps[j], texts[j], texts'[i]);
    }
    SameTexts(byStep, steps, texts, steps', texts');
    AscendingUnique(texts, texts');
  }

  lemma {:induction false} BranchUnique(m: Mask, s: Step, t: Text, t': Text)
    requires Sub(m, s).Some? && BranchRendered(s, Sub(m, s).value, t)
    requires BranchRendered(s, Sub(m, s).value, t')
    ensures t == t'
    decreases m, 0
  {
    var c := Sub(m, s).value;
    var n: nat, u :| Rendered(c, n, u) && t == BranchText(StepText(s), n, u);
    var n': nat, u' :| Rendered(c, n', u') && t' == BranchText(StepText(s), n', u');
    RenderedUnique(c, n, u, n', u');
  }

  ghost function TextMap(steps: seq<Step>, texts: seq<Text>): (r: map<Step, Text>)
    requires |steps| == |texts| && forall i, j :: 0 <= i < j < |steps| ==> steps[i] != steps[j]
    ensures TextsOf(r, steps, texts)
  {
    if steps == [] then map[]
    else
      var l := |steps| - 1;
      TextMap(steps[..l], texts[..l])[steps[l] := texts[l]]
  }

  // ---------------------------------------------------------------------------------------------
  // It is the text of an expression that writes the mask
  // ---------------------------------------------------------------------------------------------

  lemma {:induction false} TextOfBoth(a: seq<Tok>, b: seq<Tok>)
    ensures TextOf(a + b) == TextOf(a) + TextOf(b)
    decreases |a|
  {
    hide TokText;
    if a == [] {
      assert a + b == b;
    } else {
      assert (a + b)[1..] == a[1..] + b;
      TextOfBoth(a[1..], b);
    }
  }

  lemma TextOfOne(t: Tok)
    ensures TextOf([t]) == TokText(t)
  {
    hide TokText;
    assert [t][1..] == [];
  }

  lemma {:induction false} ToksOfCons(e: Elem, es: seq<Elem>)
    requires es != []
    ensures ElemsToks([e] + es) == ElemToks(e) + [Dot] + ElemsToks(es)
    decreases |es|
  {
    hide ElemToks;
    var all := [e] + es;
    var l := |es| - 1;
    assert all[..|all| - 1] == [e] + es[..l] && all[|all| - 1] == es[l];
    if l == 0 {
      assert [e] + es[..0] == [e];
    } else {
      ToksOfCons(e, es[..l]);
    }
  }

  function ElemsText(es: seq<Elem>): Text { TextOf(ElemsToks(es)) }

  function ExprText(x: Expr): Text { TextOf(ExprToks(x)) }

  lemma StepElemText(s: Step)
    ensures ElemsText([ElemOf(s)]) == TextOf(ElemToks(ElemOf(s))) == StepText(s)
  {
    TextOfOne(if s.Field? then Key(s.key) else WildCard);
  }

  lemma DottedText(s: Step, rest: seq<Elem>)
    requires rest != []
    ensures ElemsText([ElemOf(s)] + rest) == StepText(s) + [46] + ElemsText(rest)
  {
    hide ElemToks, ElemsToks, TextOf;
    ToksOfCons(ElemOf(s), rest);
    StepElemText(s);
    TextOfBoth(ElemToks(ElemOf(s)) + [Dot], ElemsToks(rest));
    TextOfBoth(ElemToks(ElemOf(s)), [Dot]);
    TextOfOne(Dot);
  }

  lemma GroupText(y: Expr)
    ensures ElemsText([Group(y)]) == [40] + ExprText(y) + [41]
  {
    hide ExprToks, TextOf;
    assert ElemsToks([Group(y)]) == [LBrace] + ExprToks(y) + [RBrace];
    TextOfBoth([LBrace] + ExprToks(y), [RBrace]);
    TextOfBoth([LBrace], ExprToks(y));
    TextOfOne(LBrace);
    TextOfOne(RBrace);
  }

  lemma TextNonEmpty(x: Expr)
    requires WfExpr(x)
    ensures ExprText(x) != []
  {
    hide WfExpr, ExprToks;
    TokensNonEmpty(x);
    var t := ExprToks(x)[0];
    assert TokText(t) != [];
  }

  /** The item of a branch below which `y` is written. */
  function BranchItem(s: Step, y: Expr): Item {
    Item([ElemOf(s)] + if y == [] then [] else if |y| == 1 then y[0].elems else [Group(y)])
  }

  lemma BareText(s: Step)
    ensures ElemsText(BranchItem(s, []).elems) == StepText(s) && ExprText([]) == []
  {
    hide StepText, ElemsText;
    StepElemText(s);
    assert [ElemOf(s)] + [] == [ElemOf(s)];
    assert ExprToks([]) == [];
    TextOfNothing();
  }

  lemma OneBelowText(s: Step, y: Expr)
    requires |y| == 1 && y[0].elems != []
    ensures ElemsText(BranchItem(s, y).elems) == StepText(s) + [46] + ExprText(y)
  {
    hide StepText, TextOf, ElemsToks;
    DottedText(s, y[0].elems);
    assert ExprToks(y) == ElemsToks(y[0].elems);
  }

  lemma MoreBelowText(s: Step, y: Expr)
    requires |y| > 1
    ensures ElemsText(BranchItem(s, y).elems) == StepText(s) + [46, 40] + ExprText(y) + [41]
  {
    hide StepText, ElemsText, ExprText;
    DottedText(s, [Group(y)]);
    GroupText(y);
    assert [46] + [40] == [46, 40];
  }

  lemma FirstItem(y: Expr)
    requires y != [] && WfExpr(y)
    ensures y[0].elems != []
  {
    assert y[0] in y && WfItem(y[0]);
  }

  lemma BranchItemText(s: Step, y: Expr)
    requires y != [] ==> WfExpr(y) && ExprText(y) != []
    ensures ElemsText(BranchItem(s, y).elems) == BranchText(StepText(s), |y|, ExprText(y))
  {
    hide StepText, ElemsText, ExprText, WfExpr;
    if y == [] {
      BareText(s);
    } else if |y| == 1 {
      FirstItem(y);
      OneBelowText(s, y);
    } else {
      MoreBelowText(s, y);
    }
  }

  lemma BranchItemWrites(s: Step, c: Mask, y: Expr)
    requires Writes(c, y)
    ensures WritesBranch(s, c, BranchItem(s, y))
    ensures ElemsText(BranchItem(s, y).elems) == BranchText(StepText(s), |y|, ExprText(y))
  {
    hide Writes, WfExpr, GroupsLast, ElemsText, ExprText, StepText, Names, InClosure, ExprPaths;
    WrittenEmpty(c, y);
    if y != [] {
      WrittenDenotes(c, y);
      TextNonEmpty(y);
    }
    BranchItemText(s, y);
  }

  lemma TextOfNothing()
    ensures TextOf([]) == []
  {}

  /** Items in a row are written as their texts with commas in between. */
  lemma {:induction false} ItemsJoined(x: Expr, texts: seq<Text>)
    requires |x| == |texts| && forall i :: 0 <= i < |x| ==> texts[i] == ElemsText(x[i].elems)
    ensures ExprText(x) == Joined(texts)
    decreases |x|
  {
    hide TextOf, ElemsToks;
    if |x| == 0 {
      TextOfNothing();
    } else if |x| > 1 {
      var l := |x| - 1;
      ItemsJoined(x[..l], texts[..l]);
      TextOfBoth(ExprToks(x[..l]) + [Comma], ElemsToks(x[l].elems));
      TextOfBoth(ExprToks(x[..l]), [Comma]);
      TextOfOne(Comma);
    }
  }

  /** What is written for a mask is the text of an expression that writes it, one item per branch. */
  lemma {:induction false} RenderedWrites(m: Mask, n: nat, t: Text) returns (x: Expr)
    requires Rendered(m, n, t)
    ensures Writes(m, x) && |x| == n && t == ExprText(x)
    decreases m, 1
  {
    hide BranchRendered, WritesBranch, ElemsText, ExprText;
    var steps, texts :| RenderedBy(m, steps, texts) && n == |texts| && t == Joined(texts);
    x := [];
    while |x| < |texts|
      invariant |x| <= |texts|
      invariant forall i :: 0 <= i < |x| ==> texts[i] == ElemsText(x[i].elems)
      invariant forall i :: 0 <= i < |x| ==> WritesBranch(steps[i], Sub(m, steps[i]).value, x[i])
    {
      var it := BranchWrites(m, steps[|x|], texts[|x|]);
      x := x + [it];
    }
    assert WritesInOrder(m, x, steps);
    ItemsJoined(x, texts);
  }

  lemma {:induction false} BranchWrites(m: Mask, s: Step, t: Text) returns (it: Item)
    requires Sub(m, s).Some? && BranchRendered(s, Sub(m, s).value, t)
    ensures WritesBranch(s, Sub(m, s).value, it) && t == ElemsText(it.elems)
    decreases m, 0
  {
    hide WritesBranch, Writes, ElemsText, ExprText, StepText;
    var c := Sub(m, s).value;
    var n: nat, u :| Rendered(c, n, u) && t == BranchText(StepText(s), n, u);
    var y := RenderedWrites(c, n, u);
    it := BranchItem(s, y);
    BranchItemWrites(s, c, y);
  }
}
