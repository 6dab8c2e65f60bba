/**
 The text of a written mask and its way back through the lexer. The key pattern of the writer also
 matches a plain key followed by a newline, which the lexer then takes for whitespace; and a quoted key
 that holds a pair of surrogates is read back with the pair combined.
 */
module MaskText {
  import opened MaskSyntax
  import opened MaskGrammar
  import opened MaskGraph
  import opened MaskMachine
  import opened MaskMeaning
  import opened MaskFragment
  import opened MaskJson
  import opened MaskLexer
  import opened MaskParser
  import opened MaskMarshal
  import opened Options

  const NEWLINE: Char := 10

  predicate PlainKey(k: Text) { k != [] && forall c :: c in k ==> IsPlain(c) }

  /** A plain key with a newline behind it; it passes the writer's pattern for plain keys. */
  predicate NewlineKey(k: Text) { k != [] && k[|k| - 1] == NEWLINE && PlainKey(k[..|k| - 1]) }

  /** Keys the writer leaves unquoted. */
  predicate Unquoted(k: Text) { PlainKey(k) || NewlineKey(k) }

  function KeyText(k: Text): Text { if Unquoted(k) then k else JsonQuote(k) }

  function TokText(t: Tok): Text {
    match t
    case Comma => [44]
    case Dot => [46]
    case LBrace => [40]
    case RBrace => [41]
    case WildCard => [42]
    case Key(k) => KeyText(k)
  }

  function TextOf(toks: seq<Tok>): Text {
    if toks == [] then [] else TokText(toks[0]) + TextOf(toks[1..])
  }

  /** What the lexer makes of a token's text. */
  function Reread(t: Tok): Tok {
    if !t.Key? || PlainKey(t.key) then t
    else if NewlineKey(t.key) then Key(t.key[..|t.key| - 1])
    else Key(Norm(t.key))
  }

  function RereadAll(toks: seq<Tok>): (r: seq<Tok>)
    ensures |r| == |toks|
  {
    seq(|toks|, i requires 0 <= i < |toks| => Reread(toks[i]))
  }

  /** No two keys stand next to each other. */
  predicate Separated(toks: seq<Tok>) { forall i :: 0 <= i < |toks| - 1 ==> !(toks[i].Key? && toks[i + 1].Key?) }

  // ---------------------------------------------------------------------------------------------
  // Lexing the text
  // ---------------------------------------------------------------------------------------------

  lemma NotPlainAhead(toks: seq<Tok>)
    requires toks != [] ==> !toks[0].Key?
    ensures TextOf(toks) != [] ==> !IsPlain(TextOf(toks)[0])
  {}

  lemma SkipOne(src: Text, i: nat)
    requires i < |src| && IsSpace(src[i])
    ensures SkipSpaces(src, i) == SkipSpaces(src, i + 1)
  {}

  lemma LexPastSpace(src: Text, i: nat)
    requires i < |src| && IsSpace(src[i])
    ensures LexFrom(src, i, JsonUnquote) == LexFrom(src, i + 1, JsonUnquote)
  {
    hide TokenAt, LexFrom, SkipSpaces, GrammarTok;
    SkipOne(src, i);
    LexStep(src, i, JsonUnquote);
    LexStep(src, i + 1, JsonUnquote);
  }

  /** The stretch of text a token is lexed from: all of its text but a final newline. */
  function Lexed(t: Tok): Text {
    if t.Key? && NewlineKey(t.key) then t.key[..|t.key| - 1] else TokText(t)
  }

  function KindOf(t: Tok): Kind {
    match t
    case Comma => COMMA
    case Dot => DOT
    case LBrace => LBRACE
    case RBrace => RBRACE
    case WildCard => WILD_CARD
    case Key(k) => if Unquoted(k) then PLAIN_KEY else QUOTED_KEY
  }

  lemma LexemeOf(t: Tok, rest: Text)
    requires t.Key? && rest != [] ==> !IsPlain(rest[0])
    ensures Lexeme(KindOf(t), Lexed(t), if t.Key? && NewlineKey(t.key) then [NEWLINE] + rest else rest)
    ensures forall i :: GrammarTok(Token(KindOf(t), Lexed(t), i), JsonUnquote) == Some(Reread(t))
  {
    hide QuotedRest, Norm, JsonQuote, JsonUnquote;
    if t.Key? {
      KeyIsOneKind(t.key);
      if !Unquoted(t.key) { QuotedKeyText(t.key); }
    }
  }

  lemma KeyIsOneKind(k: Text)
    ensures !(PlainKey(k) && NewlineKey(k))
  {
    if k != [] { assert k[|k| - 1] in k; }
  }

  /** A quoted key is the text of a quoted token, which unquotes to the key with its pairs combined. */
  lemma QuotedKeyText(k: Text)
    ensures var t := JsonQuote(k); t != [] && t[0] == QUOTE && QuotedRest(t[1..]) && JsonUnquote(t) == Some(Norm(k))
  {
    hide QuotedRest, Norm, Body, JsonUnquote;
    BodyIsQuoted(k);
    UnquoteOfQuote(k);
    assert JsonQuote(k)[1..] == Body(k) + [QUOTE];
  }

  lemma Stretch(src: Text, i: nat, t: Tok, rest: Text)
    requires i <= |src| && src[i..] == TokText(t) + rest
    ensures var e, k, newline := i + |TokText(t)|, i + |Lexed(t)|, t.Key? && NewlineKey(t.key);
            && e <= |src| && src[e..] == rest && k <= |src| && src[i..k] == Lexed(t)
            && src[k..] == (if newline then [NEWLINE] + rest else rest)
            && (if newline then k + 1 == e && src[k] == NEWLINE else k == e)
  {
    var text, lexed := TokText(t), Lexed(t);
    var e, k := i + |text|, i + |lexed|;
    assert |src[i..]| == |text| + |rest|;
    assert lexed == text[..|lexed|];
    assert src[i..e] == src[i..][..|text|] && src[e..] == src[i..][|text|..];
    assert src[i..k] == src[i..][..|lexed|] && src[k..] == src[i..][|lexed|..];
    assert (text + rest)[..|lexed|] == lexed;
    if t.Key? && NewlineKey(t.key) { assert text == lexed + [NEWLINE]; }
  }

  /** One token of text is lexed to the token it reads back as. */
  lemma LexOne(src: Text, i: nat, t: Tok, rest: Text)
    requires i <= |src| && src[i..] == TokText(t) + rest
    requires t.Key? && rest != [] ==> !IsPlain(rest[0])
    ensures i + |TokText(t)| <= |src| && src[i + |TokText(t)|..] == rest
    ensures var r, d := LexFrom(src, i, JsonUnquote), LexFrom(src, i + |TokText(t)|, JsonUnquote);
            && (r.Ok? <==> d.Ok?)
            && (r.Ok? ==> |r.value| == |d.value| + 1 && r.value[1..] == d.value && r.value[0].kind != EOL
                          && GrammarTok(r.value[0], JsonUnquote) == Some(Reread(t)))
  {
    hide LexFrom, TokenAt, SkipSpaces, GrammarTok, Lexeme, Reread, KindOf, Lexed, TokText, NewlineKey, Unquoted,
         IsPlain;
    var lexed := Lexed(t);
    var k := i + |lexed|;
    Stretch(src, i, t, rest);
    LexemeOf(t, rest);
    var newline := t.Key? && NewlineKey(t.key);
    var tok := Token(KindOf(t), lexed, i);
    TokenAtIs(src, tok);
    SpacesEnd(src, i, i);
    LexStep(src, i, JsonUnquote);
    if newline { LexPastSpace(src, k); }
  }

  lemma {:induction false} LexText(src: Text, i: nat, toks: seq<Tok>)
    requires i <= |src| && src[i..] == TextOf(toks) && Separated(toks)
    ensures LexFrom(src, i, JsonUnquote).Ok? && |LexFrom(src, i, JsonUnquote).value| == |toks|
    ensures forall j :: 0 <= j < |toks| ==>
              GrammarTokOf(LexFrom(src, i, JsonUnquote).value[j]) == Some(Reread(toks[j]))
    decreases |toks|
  {
    hide LexFrom, TokText, GrammarTok;
    if toks == [] {
      NothingLeft(src, i);
    } else {
      var rest := toks[1..];
      assert forall j :: 0 <= j < |rest| ==> rest[j] == toks[j + 1];
      assert toks[0] in toks;
      if toks[0].Key? { NotPlainAhead(rest); }
      LexOne(src, i, toks[0], TextOf(rest));
      LexText(src, i + |TokText(toks[0])|, rest);
      var d, r := LexFrom(src, i + |TokText(toks[0])|, JsonUnquote).value, LexFrom(src, i, JsonUnquote).value;
      forall j | 0 <= j < |toks| ensures GrammarTokOf(r[j]) == Some(Reread(toks[j])) {
        if j > 0 { assert r[j] == d[j - 1]; }
      }
    }
  }

  lemma NothingLeft(src: Text, i: nat)
    requires i <= |src| && src[i..] == []
    ensures LexFrom(src, i, JsonUnquote) == Ok([])
  {
    assert i == |src|;
  }

  function GrammarTokOf(t: Token): Option<Tok> {
    if t.kind == EOL then None else GrammarTok(t, JsonUnquote)
  }

  // ---------------------------------------------------------------------------------------------
  // Tokens of expressions
  // ---------------------------------------------------------------------------------------------

  lemma SeparatedJoin(a: seq<Tok>, p: Tok, b: seq<Tok>)
    requires Separated(a) && Separated(b) && !p.Key?
    ensures Separated(a + [p] + b)
  {
    var s := a + [p] + b;
    forall i | 0 <= i < |s| - 1 ensures !(s[i].Key? && s[i + 1].Key?) {
      if i > |a| { assert s[i] == b[i - |a| - 1] && s[i + 1] == b[i - |a|]; }
    }
  }

  lemma {:induction false} ElemSeparated(e: Elem)
    ensures Separated(ElemToks(e))
    decreases e, 1
  {
    if e.Group? {
      ExprSeparated(e.items);
      SeparatedJoin([], LBrace, ExprToks(e.items));
      SeparatedJoin(ExprToks(e.items), RBrace, []);
      SeparatedJoin([], LBrace, ExprToks(e.items) + [RBrace] + []);
      assert [] + [LBrace] + (ExprToks(e.items) + [RBrace] + []) == ElemToks(e);
    }
  }

  lemma {:induction false} ElemsSeparated(es: seq<Elem>)
    ensures Separated(ElemsToks(es))
    decreases es, 2
  {
    hide Separated, ElemToks;
    var l := |es| - 1;
    if |es| == 0 {
      NoneSeparated();
    } else if |es| == 1 {
      ElemSeparated(es[0]);
    } else {
      ElemsSeparated(es[..l]);
      ElemSeparated(es[l]);
      SeparatedJoin(ElemsToks(es[..l]), Dot, ElemToks(es[l]));
    }
  }

  lemma NoneSeparated()
    ensures Separated([])
  {}

  lemma {:induction false} ExprSeparated(x: Expr)
    ensures Separated(ExprToks(x))
    decreases x, 3
  {
    hide Separated, ElemsToks;
    var l := |x| - 1;
    if |x| == 0 {
      NoneSeparated();
    } else if |x| == 1 {
      ElemsSeparated(x[0].elems);
    } else {
      ExprSeparated(x[..l]);
      ElemsSeparated(x[l].elems);
      SeparatedJoin(ExprToks(x[..l]), Comma, ElemsToks(x[l].elems));
    }
  }

  /** A key is a token of an expression exactly when it is a step of one of its paths. */
  lemma {:induction false} KeyInElem(e: Elem, k: Text)
    requires WfElem(e)
    ensures Key(k) in ElemToks(e) <==> exists p :: p in ElemPaths(e) && Field(k) in p
    decreases e, 1
  {
    match e
    case Named(h) => if h == k { assert [Field(k)] in ElemPaths(e) && Field(k) in [Field(k)]; }
    case Wild =>
    case Empty =>
    case Group(items) =>
      assert WfExpr(items);
      KeyInExpr(items, k);
  }

  lemma {:induction false} KeyInElems(es: seq<Elem>, k: Text)
    requires WfElems(es)
    ensures Key(k) in ElemsToks(es) <==> exists p :: p in ElemsPaths(es) && Field(k) in p
    decreases es, 2
  {
    hide Cat, ElemToks, ElemPaths, WfElem;
    var l := |es| - 1;
    if es != [] {
      assert es[l] in es;
      KeyInElem(es[l], k);
      KeyInElems(es[..l], k);
      ElemsPathsNonEmpty(es[..l]);
      PathsNonEmpty(es[l]);
      KeyInCat(ElemsPaths(es[..l]), ElemPaths(es[l]), k);
      TokensOfSnoc(es);
    }
  }

  lemma TokensOfSnoc(es: seq<Elem>)
    requires es != []
    ensures forall t :: t != Dot ==> (t in ElemsToks(es) <==>
              t in ElemsToks(es[..|es| - 1]) || t in ElemToks(es[|es| - 1]))
  {
    hide ElemToks;
    if |es| == 1 { assert es[..0] == []; }
  }

  lemma KeyInCat(a: set<Path>, b: set<Path>, k: Text)
    requires a != {} && b != {}
    ensures (exists p :: p in Cat(a, b) && Field(k) in p) <==>
              (exists p :: p in a && Field(k) in p) || (exists p :: p in b && Field(k) in p)
  {
    hide Cat;
    if exists p :: p in Cat(a, b) && Field(k) in p {
      var p :| p in Cat(a, b) && Field(k) in p;
      var q, r := CatSplit(a, b, p);
      assert Field(k) in q || Field(k) in r;
    }
    if exists p :: p in a && Field(k) in p {
      var p :| p in a && Field(k) in p;
      var q :| q in b;
      CatMember(a, b, p, q);
      assert Field(k) in p + q;
    }
    if exists p :: p in b && Field(k) in p {
      var p :| p in b && Field(k) in p;
      var q :| q in a;
      CatMember(a, b, q, p);
      assert Field(k) in q + p;
    }
  }

  lemma {:induction false} KeyInExpr(x: Expr, k: Text)
    requires WfItems(x)
    ensures Key(k) in ExprToks(x) <==> exists p :: p in ExprPaths(x) && Field(k) in p
    decreases x, 3
  {
    hide ElemsToks, ElemsPaths, WfElems;
    var l := |x| - 1;
    if x != [] {
      WfMember(x, x[l]);
      KeyInElems(x[l].elems, k);
      assert WfItems(x[..l]);
      KeyInExpr(x[..l], k);
      ItemsOfSnoc(x);
      assert forall p :: p in ExprPaths(x) <==> p in ExprPaths(x[..l]) || p in ElemsPaths(x[l].elems);
    }
  }

  lemma ItemsOfSnoc(x: Expr)
    requires x != []
    ensures forall t :: t != Comma ==> (t in ExprToks(x) <==>
              t in ExprToks(x[..|x| - 1]) || t in ElemsToks(x[|x| - 1].elems))
  {
    hide ElemsToks;
    if |x| == 1 { assert x[..0] == []; }
  }

  // ---------------------------------------------------------------------------------------------
  // The round trip
  // ---------------------------------------------------------------------------------------------

  /** The key is somewhere in the mask. */
  ghost predicate NamesKey(m: Mask, k: Text) { exists p :: Names(m, p) && Field(k) in p }

  lemma WrittenKeys(m: Mask, x: Expr, k: Text)
    requires Denotes(m, x)
    ensures NamesKey(m, k) <==> Key(k) in ExprToks(x)
  {
    hide ExprToks, ExprPaths, GroupsLast, Names;
    assert WfItems(x);
    KeyInExpr(x, k);
    if NamesKey(m, k) {
      var p :| Names(m, p) && Field(k) in p;
      var q :| q in ExprPaths(x) && p <= q;
      assert Field(k) in q;
    }
    if exists p :: p in ExprPaths(x) && Field(k) in p {
      var p :| p in ExprPaths(x) && Field(k) in p;
      assert InClosure(ExprPaths(x), p);
    }
  }

  /** A parsed mask has no keys but those of its tokens. */
  lemma ParsedKeys(y: Expr, k: Text)
    requires WfExpr(y) && NamesKey(ParsedMask(y), k)
    ensures Key(k) in ExprToks(y)
  {
    hide ExprToks, ExprPaths, Names, ParsedMask, LevelStands, WfOpen, Spoken, Walk;
    var p :| Names(ParsedMask(y), p) && Field(k) in p;
    var i :| 0 <= i < |p| && p[i] == Field(k);
    var c, z := FinalState(y);
    MaskNames(y, c.g, p);
    assert p[..i + 1] == p[..i] + [Field(k)];
    PrefixWalks(c.g, p[..i + 1], p);
    WalkStep(c.g, p[..i], Field(k));
    assert EdgeSpoken(c.g, z, Walk(c.g, p[..i]).value, Field(k));
    var q :| Walk(c.g, q) == Walk(c.g, p[..i]) && Spoken(z, q + [Field(k)]);
    assert InClosure(ExprPaths(y), q + [Field(k)]);
    var r :| r in ExprPaths(y) && q + [Field(k)] <= r;
    assert r[|q|] == (q + [Field(k)])[|q|];
    assert WfItems(y);
    KeyInExpr(y, k);
  }

  /** Keys that are read back as they are. */
  predicate Survives(k: Text) { !NewlineKey(k) && !HasPair(k) }

  lemma PlainHasNoPair(k: Text)
    requires PlainKey(k)
    ensures Survives(k)
  {
    KeyIsOneKind(k);
    forall i | 0 <= i < |k| - 1 ensures !(IsHigh(k[i]) && IsLow(k[i + 1])) { assert IsPlain(k[i]); }
  }

  /** A key with a combined pair in it is quoted. */
  lemma NormStaysQuoted(k: Text)
    requires !Unquoted(k)
    ensures !Unquoted(Norm(k))
  {
    hide Norm;
    if Norm(k) != k {
      NormChanged(k);
      var c :| c in Norm(k) && c >= 0x1_0000;
      assert !IsPlain(c);
      var i :| 0 <= i < |Norm(k)| && Norm(k)[i] == c;
      assert i < |Norm(k)| - 1 ==> c in Norm(k)[..|Norm(k)| - 1];
    }
  }

  /** What a token is read back as survives a second time. */
  lemma RereadSurvives(t: Tok)
    ensures Reread(t).Key? ==> Survives(Reread(t).key)
  {
    hide Norm, PlainKey, HasPair;
    if t.Key? {
      if PlainKey(t.key) {
        PlainHasNoPair(t.key);
      } else if NewlineKey(t.key) {
        PlainHasNoPair(t.key[..|t.key| - 1]);
      } else {
        NormHasNoPair(t.key);
        NormStaysQuoted(t.key);
      }
    }
  }

  /** A token is read back as it is exactly when its key survives. */
  lemma RereadIff(k: Text)
    ensures Reread(Key(k)) == Key(k) <==> Survives(k)
  {
    hide Norm, HasPair, PlainKey;
    RereadSurvives(Key(k));
    NormIff(k);
  }

  /** The text of tokens spells exactly the expressions that have them, reread, as their tokens. */
  lemma TextSpells(toks: seq<Tok>, y: Expr)
    requires toks != [] && Separated(toks)
    ensures !Spaces(TextOf(toks))
    ensures Spells(TextOf(toks), JsonUnquote, y) <==> WfExpr(y) && ExprToks(y) == RereadAll(toks)
  {
    hide LexFrom, Separated, TextOf, GrammarTok, WfExpr, ExprToks, Accepted, Spells, Reread, Tiles;
    var src := TextOf(toks);
    assert src[0..] == src;
    LexText(src, 0, toks);
    if Spaces(src) { BlankLexes(src); }
    var lexed := LexFrom(src, 0, JsonUnquote).value;
    LexedIffTiled(src, lexed, JsonUnquote);
    SpellsIffAccepted(src, JsonUnquote, lexed);
    forall j | 0 <= j < |toks| ensures GrammarToks(lexed, JsonUnquote)[j] == Reread(toks[j]) {
      assert lexed[j] in lexed;
    }
    assert GrammarToks(lexed, JsonUnquote) == RereadAll(toks);
    AcceptsExactlyGrammar(RereadAll(toks), y);
  }

  lemma BlankLexes(src: Text)
    requires Spaces(src)
    ensures LexFrom(src, 0, JsonUnquote) == Ok([])
  {
    assert src[0..|src|] == src;
    SpacesEnd(src, 0, |src|);
  }

  lemma NothingReread(toks: seq<Tok>)
    requires forall t :: t in toks && t.Key? ==> Survives(t.key)
    ensures RereadAll(toks) == toks
  {
    hide Survives;
    forall i | 0 <= i < |toks| ensures RereadAll(toks)[i] == toks[i] {
      assert toks[i] in toks;
      if toks[i].Key? { RereadIff(toks[i].key); }
    }
  }

  /** The text of `x` is parsed, and to the mask `m`. */
  ghost predicate ParsesTo(src: Text, m: Mask) {
    exists y :: Spells(src, JsonUnquote, y) && WfExpr(y) && ParsedMask(y) == m
  }

  /**
   A written mask is parsed back to itself if and only if none of its keys is a plain key with a
   newline behind it or holds a high surrogate with a low one behind it.
   */
  lemma RoundTripIff(m: Mask, x: Expr)
    requires Writes(m, x) && m != EMPTY_MASK
    ensures !Spaces(TextOf(ExprToks(x)))
    ensures ParsesTo(TextOf(ExprToks(x)), m) <==> forall k :: NamesKey(m, k) ==> Survives(k)
  {
    hide Separated, TextOf, WfExpr, ExprToks, Spells, Writes, ParsedMask, NamesKey, Names, GroupsLast,
         Survives, Reread;
    var toks := ExprToks(x);
    var src := TextOf(toks);
    WrittenDenotes(m, x);
    WrittenIsParsed(m, x);
    ExprSeparated(x);
    TokensNonEmpty(x);
    TextSpells(toks, x);
    if forall k :: NamesKey(m, k) ==> Survives(k) {
      forall t | t in toks && t.Key? ensures Survives(t.key) { WrittenKeys(m, x, t.key); }
      NothingReread(toks);
      assert Spells(src, JsonUnquote, x);
    }
    if ParsesTo(src, m) {
      var y :| Spells(src, JsonUnquote, y) && WfExpr(y) && ParsedMask(y) == m;
      TextSpells(toks, y);
      forall k | NamesKey(m, k) ensures Survives(k) {
        ParsedKeys(y, k);
        var i :| 0 <= i < |toks| && RereadAll(toks)[i] == Key(k);
        RereadSurvives(toks[i]);
      }
    }
  }

  lemma TokensNonEmpty(x: Expr)
    requires WfExpr(x)
    ensures ExprToks(x) != []
  {
    GrammarIsAccepted(x);
    NothingIsRejected();
  }

  lemma NothingIsRejected()
    ensures Accepted([]).None?
  {
    assert ReadAll(START, []) == Some(START);
  }

  /** The empty mask is written as blank text, which is parsed to the empty mask. */
  lemma EmptyRoundTrip(x: Expr)
    requires Writes(EMPTY_MASK, x)
    ensures Spaces(TextOf(ExprToks(x)))
  {
    WrittenEmpty(EMPTY_MASK, x);
  }
}
