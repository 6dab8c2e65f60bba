/**
 The token machine of the mask parser, without the masks: which token sequences it accepts and
 which expression it has read so far. It accepts exactly the token sequences of the grammar.
 */
module MaskGrammar {
  import opened MaskSyntax
  import opened Options

  datatype State = KeyState | Separator | LevelStart

  /** An open level: the items finished by commas and the elements of the item being read. */
  datatype Open = Open(items: Expr, cur: seq<Elem>)

  /** The open levels, outermost first, and the machine state. */
  datatype Reader = Reader(levels: seq<Open>, state: State)

  const START := Reader([Open([], [])], KeyState)

  function Top(z: Reader): Open
    requires z.levels != []
  {
    z.levels[|z.levels| - 1]
  }

  function WithTop(z: Reader, o: Open, state: State): Reader
    requires z.levels != []
  {
    Reader(z.levels[..|z.levels| - 1] + [o], state)
  }

  function AddElem(z: Reader, e: Elem): Reader
    requires z.levels != []
  {
    WithTop(z, Open(Top(z).items, Top(z).cur + [e]), Separator)
  }

  /** The element a closed level amounts to. */
  function Closed(o: Open): Elem {
    if o.items == [] && o.cur == [] then Empty else Group(o.items + [Item(o.cur)])
  }

  /** The state in which a token is looked at: a fresh level first tells "()" from a real group. */
  function Settle(state: State, t: Tok): State {
    if state == LevelStart then (if t == RBrace then Separator else KeyState) else state
  }

  /** Reads one token; `None` is a parse error. */
  function Read(z: Reader, t: Tok): Option<Reader>
    requires z.levels != []
  {
    match Settle(z.state, t)
    case KeyState => (
      match t
      case Key(k) => Some(AddElem(z, Named(k)))
      case WildCard => Some(AddElem(z, Wild))
      case LBrace => Some(Reader(z.levels + [Open([], [])], LevelStart))
      case _ => None)
    case Separator => (
      match t
      case Dot => Some(z.(state := KeyState))
      case Comma => Some(WithTop(z, Open(Top(z).items + [Item(Top(z).cur)], []), KeyState))
      case RBrace =>
        if |z.levels| == 1 then None
        else Some(AddElem(Reader(z.levels[..|z.levels| - 1], Separator), Closed(Top(z))))
      case _ => None)
    case LevelStart => None
  }

  function ReadAll(z: Reader, toks: seq<Tok>): Option<Reader>
    requires z.levels != []
    decreases |toks|
  {
    if toks == [] then Some(z)
    else
      var r := Read(z, toks[0]);
      if r.None? || r.value.levels == [] then None else ReadAll(r.value, toks[1..])
  }

  /** The expression of an accepted token sequence. */
  function Accepted(toks: seq<Tok>): Option<Expr> {
    var r := ReadAll(START, toks);
    if r.Some? && |r.value.levels| == 1 && r.value.state == Separator
    then Some(Top(r.value).items + [Item(Top(r.value).cur)]) else None
  }

  lemma {:induction false} ReadAllAppend(z: Reader, a: seq<Tok>, b: seq<Tok>)
    requires z.levels != []
    ensures var r := ReadAll(z, a);
            ReadAll(z, a + b) == if r.None? || r.value.levels == [] then None else ReadAll(r.value, b)
    decreases |a|
  {
    if a == [] {
      assert a + b == b;
    } else {
      var r := Read(z, a[0]);
      assert (a + b)[1..] == a[1..] + b;
      if r.Some? && r.value.levels != [] { ReadAllAppend(r.value, a[1..], b); }
    }
  }

  // ---------------------------------------------------------------------------------------------
  // Everything of the grammar is accepted, and read as the expression it came from
  // ---------------------------------------------------------------------------------------------

  predicate ReadyForElem(z: Reader) {
    z.levels != [] && z.state != Separator
  }

  lemma {:induction false} ReadElem(z: Reader, e: Elem)
    requires ReadyForElem(z) && WfElem(e)
    ensures ReadAll(z, ElemToks(e)) == Some(AddElem(z, e))
    decreases e, 1
  {
    match e
    case Named(k) => ReadOne(z, Key(k));
    case Wild => ReadOne(z, WildCard);
    case Empty => ReadEmpty(z);
    case Group(items) =>
      assert WfExpr(items);
      var z1 := Reader(z.levels + [Open([], [])], LevelStart);
      ReadExpr(z1, items);
      ReadGroup(z, items);
  }

  lemma ReadEmpty(z: Reader)
    requires ReadyForElem(z)
    ensures ReadAll(z, [LBrace, RBrace]) == Some(AddElem(z, Empty))
  {
    hide ReadAll;
    var z1 := Reader(z.levels + [Open([], [])], LevelStart);
    ReadOne(z, LBrace);
    ReadOne(z1, RBrace);
    assert z1.levels[..|z.levels|] == z.levels;
    ReadAllAppend(z, [LBrace], [RBrace]);
    assert [LBrace] + [RBrace] == [LBrace, RBrace];
  }

  lemma OpenGroup(z: Reader)
    requires ReadyForElem(z)
    ensures Read(z, LBrace) == Some(Reader(z.levels + [Open([], [])], LevelStart))
  {}

  lemma CloseGroup(z: Reader, o: Open)
    requires z.levels != []
    ensures Read(Reader(z.levels + [o], Separator), RBrace) == Some(AddElem(z, Closed(o)))
  {
    assert (z.levels + [o])[..|z.levels|] == z.levels;
  }

  lemma TopReplaced(z: Reader, o: Open)
    ensures WithTop(Reader(z.levels + [Open([], [])], LevelStart), o, Separator) == Reader(z.levels + [o], Separator)
  {
    assert (z.levels + [Open([], [])])[..|z.levels|] == z.levels;
  }

  lemma GroupOf(items: Expr)
    requires WfExpr(items)
    ensures items != [] && Closed(Open(items[..|items| - 1], items[|items| - 1].elems)) == Group(items)
  {
    var l := |items| - 1;
    WfMember(items, items[l]);
    assert items[..l] + [Item(items[l].elems)] == items;
  }

  /** A group is read once its expression is. */
  lemma ReadGroup(z: Reader, items: Expr)
    requires ReadyForElem(z) && WfExpr(items)
    requires var z1, l := Reader(z.levels + [Open([], [])], LevelStart), |items| - 1;
             ReadAll(z1, ExprToks(items)) == Some(WithTop(z1, Open(items[..l], items[l].elems), Separator))
    ensures ReadAll(z, [LBrace] + ExprToks(items) + [RBrace]) == Some(AddElem(z, Group(items)))
  {
    hide ReadAll, ExprToks, Read, WfExpr, WithTop, Closed;
    GroupOf(items);
    var z1, o := Reader(z.levels + [Open([], [])], LevelStart), Open(items[..|items| - 1], items[|items| - 1].elems);
    var z2 := Reader(z.levels + [o], Separator);
    TopReplaced(z, o);
    OpenGroup(z);
    ReadOne(z, LBrace);
    CloseGroup(z, o);
    ReadOne(z2, RBrace);
    AddElemLevels(z, Group(items));
    ReadAllAppend(z1, ExprToks(items), [RBrace]);
    ReadAllAppend(z, [LBrace], ExprToks(items) + [RBrace]);
    assert [LBrace] + ExprToks(items) + [RBrace] == [LBrace] + (ExprToks(items) + [RBrace]);
  }

  lemma AddElemLevels(z: Reader, e: Elem)
    requires z.levels != []
    ensures AddElem(z, e).levels != []
  {}

  lemma ReadOne(z: Reader, t: Tok)
    requires z.levels != []
    ensures ReadAll(z, [t]) == (var r := Read(z, t); if r.None? || r.value.levels == [] then None else r)
  {
    assert [t][1..] == [];
  }

  lemma {:induction false} ReadElems(z: Reader, es: seq<Elem>)
    requires ReadyForElem(z) && WfElems(es) && es != []
    ensures ReadAll(z, ElemsToks(es)) == Some(WithTop(z, Open(Top(z).items, Top(z).cur + es), Separator))
    decreases es, 2
  {
    hide ReadAll, Read, ElemToks, WfElem;
    var l := |es| - 1;
    assert es[l] in es;
    if l == 0 {
      ReadElem(z, es[0]);
      assert es == [es[0]];
    } else {
      ReadElems(z, es[..l]);
      var z1 := WithTop(z, Open(Top(z).items, Top(z).cur + es[..l]), Separator);
      ReadElem(z1.(state := KeyState), es[l]);
      ReadDotted(z, es[..l], es[l]);
      assert ElemsToks(es) == ElemsToks(es[..l]) + ([Dot] + ElemToks(es[l]));
      assert es[..l] + [es[l]] == es;
    }
  }

  /** One more element behind a dot. */
  lemma ReadDotted(z: Reader, front: seq<Elem>, e: Elem)
    requires z.levels != []
    requires var z1 := WithTop(z, Open(Top(z).items, Top(z).cur + front), Separator);
             && ReadAll(z, ElemsToks(front)) == Some(z1)
             && ReadAll(z1.(state := KeyState), ElemToks(e)) == Some(AddElem(z1.(state := KeyState), e))
    ensures ReadAll(z, ElemsToks(front) + ([Dot] + ElemToks(e))) ==
            Some(WithTop(z, Open(Top(z).items, Top(z).cur + (front + [e])), Separator))
  {
    hide ReadAll, ElemsToks, ElemToks;
    var z1 := WithTop(z, Open(Top(z).items, Top(z).cur + front), Separator);
    ReadOne(z1, Dot);
    ReadAllAppend(z1, [Dot], ElemToks(e));
    ReadAllAppend(z, ElemsToks(front), [Dot] + ElemToks(e));
    assert Top(z).cur + front + [e] == Top(z).cur + (front + [e]);
  }

  lemma ReadComma(z: Reader)
    requires z.levels != [] && z.state == Separator
    ensures Read(z, Comma) == Some(WithTop(z, Open(Top(z).items + [Item(Top(z).cur)], []), KeyState))
  {}

  lemma {:induction false} ReadExpr(z: Reader, x: Expr)
    requires ReadyForElem(z) && WfExpr(x) && Top(z) == Open([], [])
    ensures ReadAll(z, ExprToks(x)) == Some(WithTop(z, Open(x[..|x| - 1], x[|x| - 1].elems), Separator))
    decreases x, 3
  {
    hide ReadAll, Read;
    var l := |x| - 1;
    WfMember(x, x[l]);
    if l == 0 {
      ReadElems(z, x[0].elems);
      assert x[..0] == [] && [] + x[0].elems == x[0].elems;
    } else {
      assert WfItems(x[..l]);
      ReadExpr(z, x[..l]);
      var z1 := WithTop(z, Open(x[..l][..l - 1], x[..l][l - 1].elems), Separator);
      var z2 := WithTop(z1, Open(x[..l], []), KeyState);
      assert x[..l][..l - 1] + [Item(x[..l][l - 1].elems)] == x[..l];
      ReadComma(z1);
      ReadOne(z1, Comma);
      ReadElems(z2, x[l].elems);
      ReadAllAppend(z1, [Comma], ElemsToks(x[l].elems));
      ReadAllAppend(z, ExprToks(x[..l]), [Comma] + ElemsToks(x[l].elems));
      assert ExprToks(x) == ExprToks(x[..l]) + ([Comma] + ElemsToks(x[l].elems));
      assert [] + x[l].elems == x[l].elems;
    }
  }

  /** The tokens of an expression are accepted as that expression: the grammar is unambiguous. */
  lemma {:induction false} GrammarIsAccepted(x: Expr)
    requires WfExpr(x)
    ensures Accepted(ExprToks(x)) == Some(x)
  {
    ReadExpr(START, x);
    assert x[..|x| - 1] + [Item(x[|x| - 1].elems)] == x;
  }

  // ---------------------------------------------------------------------------------------------
  // Only the grammar is accepted
  // ---------------------------------------------------------------------------------------------

  /** Tokens of a level that waits for its next element. */
  function WaitingToks(o: Open): seq<Tok> {
    if o.cur != [] then ExprToks(o.items + [Item(o.cur)]) + [Dot]
    else if o.items != [] then ExprToks(o.items) + [Comma]
    else []
  }

  function TopToks(o: Open, state: State): seq<Tok> {
    if state == Separator then ExprToks(o.items + [Item(o.cur)]) else WaitingToks(o)
  }

  function OuterToks(levels: seq<Open>): seq<Tok> {
    if levels == [] then []
    else OuterToks(levels[..|levels| - 1]) + WaitingToks(levels[|levels| - 1]) + [LBrace]
  }

  /** The tokens read so far, reconstructed from the reader. */
  function ReaderToks(z: Reader): seq<Tok>
    requires z.levels != []
  {
    OuterToks(z.levels[..|z.levels| - 1]) + TopToks(Top(z), z.state)
  }

  predicate WfOpen(o: Open) { WfItems(o.items) && WfElems(o.cur) }

  predicate WfReader(z: Reader) {
    && z.levels != []
    && (forall o :: o in z.levels ==> WfOpen(o))
    && (z.state == Separator ==> Top(z).cur != [])
    && (z.state == LevelStart ==> Top(z) == Open([], []) && |z.levels| > 1)
  }

  lemma WithTopFacts(z: Reader, o: Open, s: State)
    requires z.levels != []
    ensures var r := WithTop(z, o, s);
            && |r.levels| == |z.levels| && r.levels[..|z.levels| - 1] == z.levels[..|z.levels| - 1]
            && Top(r) == o && r.state == s
            && (forall q :: q in r.levels ==> q == o || q in z.levels)
  {}

  /** One more element after what a level was waiting with. */
  lemma {:induction false} ElemAppended(o: Open, e: Elem)
    ensures TopToks(Open(o.items, o.cur + [e]), Separator) == WaitingToks(o) + ElemToks(e)
  {
    var es := o.cur + [e];
    assert es[..|es| - 1] == o.cur && es[|es| - 1] == e;
    var x, y := o.items + [Item(es)], o.items + [Item(o.cur)];
    assert x[..|x| - 1] == o.items && y[..|y| - 1] == o.items;
    assert ExprToks(x) == (if o.items == [] then [] else ExprToks(o.items) + [Comma]) + ElemsToks(es);
    assert ExprToks(y) == (if o.items == [] then [] else ExprToks(o.items) + [Comma]) + ElemsToks(o.cur);
    if o.cur == [] {
      assert es == [e];
    } else {
      assert ElemsToks(es) == ElemsToks(o.cur) + [Dot] + ElemToks(e);
    }
  }

  lemma WfAppended(es: seq<Elem>, e: Elem)
    requires WfElems(es) && WfElem(e)
    ensures WfElems(es + [e])
  {}

  lemma {:induction false} AddElemToks(z: Reader, e: Elem)
    requires z.levels != [] && WfElem(e) && (forall o :: o in z.levels ==> WfOpen(o))
    ensures WfReader(AddElem(z, e))
    ensures ReaderToks(AddElem(z, e)) == OuterToks(z.levels[..|z.levels| - 1]) + WaitingToks(Top(z)) + ElemToks(e)
  {
    hide WfElem, ElemToks, ElemsToks, ExprToks;
    var o := Top(z);
    assert o in z.levels && WfOpen(o);
    ElemAppended(o, e);
    WfAppended(o.cur, e);
    WithTopFacts(z, Open(o.items, o.cur + [e]), Separator);
  }

  /** Each step reads exactly its token. */
  lemma {:induction false} ReadKeepsToks(z: Reader, t: Tok)
    requires WfReader(z) && Read(z, t).Some?
    ensures WfReader(Read(z, t).value)
    ensures ReaderToks(Read(z, t).value) == ReaderToks(z) + [t]
  {
    hide ElemsToks, ExprToks, OuterToks, WfElems, WfItems;
    var z' := Read(z, t).value;
    assert Top(z) in z.levels;
    match Settle(z.state, t) {
      case KeyState =>
        match t {
          case Key(k) => AddElemToks(z, Named(k));
          case WildCard => AddElemToks(z, Wild);
          case LBrace => OpenToks(z);
        }
      case Separator =>
        match t {
          case Dot => assert z'.levels == z.levels;
          case Comma => CommaToks(z);
          case RBrace => CloseToks(z);
        }
    }
  }

  lemma {:induction false} OpenToks(z: Reader)
    requires WfReader(z) && z.state != Separator
    ensures var z' := Reader(z.levels + [Open([], [])], LevelStart);
            WfReader(z') && ReaderToks(z') == ReaderToks(z) + [LBrace]
  {
    var z' := Reader(z.levels + [Open([], [])], LevelStart);
    assert z'.levels[..|z'.levels| - 1] == z.levels;
    assert OuterToks(z.levels) == OuterToks(z.levels[..|z.levels| - 1]) + WaitingToks(Top(z)) + [LBrace];
    assert WaitingToks(Open([], [])) == [];
  }

  lemma {:induction false} CommaToks(z: Reader)
    requires WfReader(z) && z.state == Separator
    ensures var z' := WithTop(z, Open(Top(z).items + [Item(Top(z).cur)], []), KeyState);
            WfReader(z') && ReaderToks(z') == ReaderToks(z) + [Comma]
  {
    hide ElemToks, ElemsToks, ExprToks;
    var o := Open(Top(z).items + [Item(Top(z).cur)], []);
    assert Top(z) in z.levels && WfItem(Item(Top(z).cur));
    assert WfOpen(o);
    WithTopFacts(z, o, KeyState);
  }

  lemma {:induction false} CloseToks(z: Reader)
    requires WfReader(z) && |z.levels| > 1 && Settle(z.state, RBrace) == Separator
    ensures var z' := AddElem(Reader(z.levels[..|z.levels| - 1], Separator), Closed(Top(z)));
            WfReader(z') && ReaderToks(z') == ReaderToks(z) + [RBrace]
  {
    hide ElemToks, ElemsToks, ExprToks, WaitingToks, WfElem, WfElems, WfItems;
    var l := |z.levels| - 1;
    var outer := Reader(z.levels[..l], Separator);
    var e := Closed(Top(z));
    assert Top(z) in z.levels && WfOpen(Top(z));
    ClosedElem(Top(z), z.state);
    assert forall o :: o in outer.levels ==> o in z.levels;
    AddElemToks(outer, e);
    assert OuterToks(z.levels[..l]) == OuterToks(z.levels[..l][..l - 1]) + WaitingToks(Top(outer)) + [LBrace];
  }

  lemma {:induction false} ClosedElem(o: Open, state: State)
    requires WfOpen(o) && (if state == Separator then o.cur != [] else o == Open([], []))
    ensures WfElem(Closed(o))
    ensures ElemToks(Closed(o)) == [LBrace] + TopToks(o, state) + [RBrace]
  {
    if o.cur != [] {
      assert WfItem(Item(o.cur));
      assert WfItems(o.items + [Item(o.cur)]);
    } else {
      assert TopToks(o, state) == [];
    }
  }

  lemma {:induction false} ReadAllKeepsToks(z: Reader, toks: seq<Tok>)
    requires WfReader(z) && ReadAll(z, toks).Some?
    ensures WfReader(ReadAll(z, toks).value)
    ensures ReaderToks(ReadAll(z, toks).value) == ReaderToks(z) + toks
    decreases |toks|
  {
    hide Read, ReaderToks;
    if toks != [] {
      ReadKeepsToks(z, toks[0]);
      ReadAllKeepsToks(Read(z, toks[0]).value, toks[1..]);
      assert [toks[0]] + toks[1..] == toks;
    }
  }

  /** Accepted tokens are the tokens of the expression they were read as. */
  lemma {:induction false} AcceptedIsGrammar(toks: seq<Tok>)
    requires Accepted(toks).Some?
    ensures WfExpr(Accepted(toks).value) && ExprToks(Accepted(toks).value) == toks
  {
    assert WfReader(START) && ReaderToks(START) == [];
    ReadAllKeepsToks(START, toks);
    var z := ReadAll(START, toks).value;
    assert Top(z) in z.levels;
    assert WfItem(Item(Top(z).cur));
    assert z.levels[..0] == [];
    assert ReaderToks(z) == TopToks(Top(z), Separator);
  }

  /**
   The machine accepts exactly the token sequences of the grammar, and the expression it reads is
   the only one with those tokens.
   */
  lemma {:induction false} AcceptsExactlyGrammar(toks: seq<Tok>, x: Expr)
    ensures Accepted(toks) == Some(x) <==> WfExpr(x) && ExprToks(x) == toks
  {
    hide Accepted, WfExpr, ExprToks;
    if WfExpr(x) && ExprToks(x) == toks { GrammarIsAccepted(x); }
    if Accepted(toks) == Some(x) { AcceptedIsGrammar(toks); }
  }
}
