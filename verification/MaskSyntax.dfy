/**
 Field-mask expressions: their grammar, their tokens and the paths they denote.

   expression = item { "," item }        item = element { "." element }
   element    = key | "*" | "()" | "(" expression ")"
 */
module MaskSyntax {

  /** A code point of a source string or a key. */
  type Char = c: int | 0 <= c < 0x11_0000

  type Text = seq<Char>

  /** One step down a mask: a named field, or the wildcard branch. */
  datatype Step = Field(key: Text) | Any

  type Path = seq<Step>

  /** Tokens as the grammar sees them; quoted and plain keys are alike. */
  datatype Tok = Comma | Dot | LBrace | RBrace | WildCard | Key(key: Text)

  datatype Elem = Named(key: Text) | Wild | Empty | Group(items: seq<Item>)

  datatype Item = Item(elems: seq<Elem>)

  type Expr = seq<Item>

  // ---------------------------------------------------------------------------------------------
  // Well-formedness: no empty items, no empty groups other than "()"
  // ---------------------------------------------------------------------------------------------

  predicate WfElem(e: Elem)
    decreases e, 1
  {
    e.Group? ==> WfExpr(e.items)
  }

  predicate WfElems(es: seq<Elem>)
    decreases es, 2
  {
    forall e :: e in es ==> WfElem(e)
  }

  predicate WfItem(it: Item)
    decreases it, 1
  {
    it.elems != [] && WfElems(it.elems)
  }

  predicate WfItems(x: Expr)
    decreases x, 2
  {
    forall it :: it in x ==> WfItem(it)
  }

  predicate WfExpr(x: Expr)
    decreases x, 3
  {
    x != [] && WfItems(x)
  }

  // ---------------------------------------------------------------------------------------------
  // Tokens
  // ---------------------------------------------------------------------------------------------

  function ElemToks(e: Elem): seq<Tok>
    decreases e, 1
  {
    match e
    case Named(k) => [Key(k)]
    case Wild => [WildCard]
    case Empty => [LBrace, RBrace]
    case Group(items) => [LBrace] + ExprToks(items) + [RBrace]
  }

  /** Elements with dots in between. */
  function ElemsToks(es: seq<Elem>): seq<Tok>
    decreases es, 2
  {
    if es == [] then []
    else if |es| == 1 then ElemToks(es[0])
    else ElemsToks(es[..|es| - 1]) + [Dot] + ElemToks(es[|es| - 1])
  }

  /** Items with commas in between. */
  function ExprToks(x: Expr): seq<Tok>
    decreases x, 3
  {
    if x == [] then []
    else if |x| == 1 then ElemsToks(x[0].elems)
    else ExprToks(x[..|x| - 1]) + [Comma] + ElemsToks(x[|x| - 1].elems)
  }

  // ---------------------------------------------------------------------------------------------
  // Denotation: union over commas, concatenation over dots, "()" is the empty path
  // ---------------------------------------------------------------------------------------------

  /** All concatenations of a path of `a` with a path of `b`. */
  ghost function Cat(a: set<Path>, b: set<Path>): set<Path> {
    set p, q | p in a && q in b :: p + q
  }

  ghost function ElemPaths(e: Elem): set<Path>
    decreases e, 1
  {
    match e
    case Named(k) => {[Field(k)]}
    case Wild => {[Any]}
    case Empty => {[]}
    case Group(items) => ExprPaths(items)
  }

  ghost function ElemsPaths(es: seq<Elem>): set<Path>
    decreases es, 2
  {
    if es == [] then {[]} else Cat(ElemsPaths(es[..|es| - 1]), ElemPaths(es[|es| - 1]))
  }

  ghost function ExprPaths(x: Expr): set<Path>
    decreases x, 3
  {
    if x == [] then {} else ExprPaths(x[..|x| - 1]) + ElemsPaths(x[|x| - 1].elems)
  }

  /** A mask that names a path also names every prefix of it. */
  ghost predicate InClosure(paths: set<Path>, p: Path) {
    exists q :: q in paths && p <= q
  }

  // ---------------------------------------------------------------------------------------------
  // Algebra of path sets
  // ---------------------------------------------------------------------------------------------

  lemma CatMember(a: set<Path>, b: set<Path>, p: Path, q: Path)
    requires p in a && q in b
    ensures p + q in Cat(a, b)
  {}

  lemma CatSplit(a: set<Path>, b: set<Path>, x: Path) returns (p: Path, q: Path)
    requires x in Cat(a, b)
    ensures p in a && q in b && x == p + q
  {
    p, q :| p in a && q in b && x == p + q;
  }

  lemma CatNone(a: set<Path>)
    ensures Cat(a, {}) == {}
  {
    hide Cat;
    forall x | x in Cat(a, {}) ensures false { var p, q := CatSplit(a, {}, x); }
  }

  lemma CatUnit(a: set<Path>)
    ensures Cat(a, {[]}) == a && Cat({[]}, a) == a
  {
    hide Cat;
    forall x: Path ensures (x in Cat(a, {[]}) <==> x in a) && (x in Cat({[]}, a) <==> x in a) {
      assert x + [] == x && [] + x == x;
      if x in a {
        CatMember(a, {[]}, x, []);
        CatMember({[]}, a, [], x);
      }
      if x in Cat(a, {[]}) { var p, q := CatSplit(a, {[]}, x); assert p + [] == p; }
      if x in Cat({[]}, a) { var p, q := CatSplit({[]}, a, x); assert [] + q == q; }
    }
  }

  lemma CatAssoc(a: set<Path>, b: set<Path>, c: set<Path>)
    ensures Cat(Cat(a, b), c) == Cat(a, Cat(b, c))
  {
    hide Cat;
    forall x | x in Cat(Cat(a, b), c) ensures x in Cat(a, Cat(b, c)) {
      var pq, r := CatSplit(Cat(a, b), c, x);
      var p, q := CatSplit(a, b, pq);
      CatMember(b, c, q, r);
      CatMember(a, Cat(b, c), p, q + r);
      assert x == p + (q + r);
    }
    forall x | x in Cat(a, Cat(b, c)) ensures x in Cat(Cat(a, b), c) {
      var p, qr := CatSplit(a, Cat(b, c), x);
      var q, r := CatSplit(b, c, qr);
      CatMember(a, b, p, q);
      CatMember(Cat(a, b), c, p + q, r);
      assert x == (p + q) + r;
    }
  }

  lemma CatUnion(a: set<Path>, b: set<Path>, c: set<Path>)
    ensures Cat(a, b + c) == Cat(a, b) + Cat(a, c)
  {
    hide Cat;
    forall x: Path ensures x in Cat(a, b + c) <==> x in Cat(a, b) || x in Cat(a, c) {
      if x in Cat(a, b + c) {
        var p, q := CatSplit(a, b + c, x);
        if q in b { CatMember(a, b, p, q); } else { CatMember(a, c, p, q); }
      }
      if x in Cat(a, b) { var p, q := CatSplit(a, b, x); CatMember(a, b + c, p, q); }
      if x in Cat(a, c) { var p, q := CatSplit(a, c, x); CatMember(a, b + c, p, q); }
    }
  }

  lemma SameTail(r: Path, p: Path, q: Path)
    ensures r + q == p + q ==> r == p
    ensures q + r == q + p ==> r == p
  {
    if r + q == p + q {
      assert |r + q| == |r| + |q| && |p + q| == |p| + |q|;
      assert r == (r + q)[..|r|] && p == (p + q)[..|p|];
    }
    if q + r == q + p {
      assert r == (q + r)[|q|..] && p == (q + p)[|q|..];
    }
  }

  lemma LonePath(e: Elem, paths: set<Path>)
    requires ElemPaths(e) == paths
    ensures ElemsPaths([e]) == paths
  {
    hide Cat, ElemPaths;
    assert [e][..0] == [];
    CatUnit(paths);
  }

  lemma WfMember(x: Expr, it: Item)
    requires WfItems(x) && it in x
    ensures it.elems != [] && WfElems(it.elems)
  {}

  lemma {:induction false} PathsNonEmpty(e: Elem)
    requires WfElem(e)
    ensures ElemPaths(e) != {}
    decreases e, 1
  {
    match e
    case Group(items) =>
      var it := items[|items| - 1];
      WfMember(items, it);
      ElemsPathsNonEmpty(it.elems);
    case _ =>
  }

  lemma {:induction false} ElemsPathsNonEmpty(es: seq<Elem>)
    requires WfElems(es)
    ensures ElemsPaths(es) != {}
    decreases es, 2
  {
    if es != [] {
      var l := |es| - 1;
      assert es[l] in es;
      ElemsPathsNonEmpty(es[..l]);
      PathsNonEmpty(es[l]);
      var p :| p in ElemsPaths(es[..l]);
      var q :| q in ElemPaths(es[l]);
      CatMember(ElemsPaths(es[..l]), ElemPaths(es[l]), p, q);
    }
  }
}
