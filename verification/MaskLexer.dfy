/**
 The mask lexer: a cursor over the source, and the tokens it yields. Its tokens tile the source:
 in order, each on its own stretch of text, with nothing but whitespace in between.
 */
module MaskLexer {
  import opened MaskSyntax
  import opened Options

  datatype Kind = COMMA | DOT | LBRACE | RBRACE | WILD_CARD | PLAIN_KEY | QUOTED_KEY | EOL

  /** A token as scanned: `value` is its text in the source and `pos` where that text starts. */
  datatype Token = Token(kind: Kind, value: Text, pos: nat)

  datatype LexError = UnexpectedSymbol(pos: nat) | Unterminated(pos: nat) | BadQuote(pos: nat)

  datatype Result<+T, +E> = Ok(value: T) | Err(error: E)

  const QUOTE: Char := 34
  const BACKSLASH: Char := 92

  predicate IsSpace(c: Char) { c in {32, 13, 10, 9} }

  predicate IsPlain(c: Char) { 97 <= c <= 122 || 65 <= c <= 90 || 48 <= c <= 57 || c == 95 }

  /** The one-character tokens. */
  function Punctuation(c: Char): Option<Kind> {
    if c == 44 then Some(COMMA) else if c == 46 then Some(DOT) else if c == 40 then Some(LBRACE)
    else if c == 41 then Some(RBRACE) else if c == 42 then Some(WILD_CARD) else None
  }

  // ---------------------------------------------------------------------------------------------
  // What a list of tokens must be, without saying how it is found
  // ---------------------------------------------------------------------------------------------

  predicate Spaces(t: Text) { forall c :: c in t ==> IsSpace(c) }

  /** The rest of a quoted key: characters and escaped pairs up to the closing quote. */
  predicate QuotedRest(t: Text)
    decreases |t|
  {
    if t == [] then false
    else if t[0] == QUOTE then |t| == 1
    else if t[0] == BACKSLASH then |t| >= 2 && QuotedRest(t[2..])
    else QuotedRest(t[1..])
  }

  /** `t` is the text of a token of the given kind, when `rest` is what follows it. */
  predicate Lexeme(kind: Kind, t: Text, rest: Text) {
    match kind
    case PLAIN_KEY => t != [] && (forall c :: c in t ==> IsPlain(c)) && (rest == [] || !IsPlain(rest[0]))
    case QUOTED_KEY => t != [] && t[0] == QUOTE && QuotedRest(t[1..])
    case EOL => false
    case _ => |t| == 1 && Punctuation(t[0]) == Some(kind)
  }

  /** From position `i` on, the tokens cover the source in order with only whitespace in between. */
  predicate Tiles(src: Text, i: nat, toks: seq<Token>)
    requires i <= |src|
    decreases |toks|
  {
    if toks == [] then Spaces(src[i..])
    else
      var t := toks[0];
      var e := t.pos + |t.value|;
      && i <= t.pos && e <= |src|
      && Spaces(src[i..t.pos])
      && src[t.pos..e] == t.value
      && Lexeme(t.kind, t.value, src[e..])
      && Tiles(src, e, toks[1..])
  }

  // ---------------------------------------------------------------------------------------------
  // Scanning
  // ---------------------------------------------------------------------------------------------

  function SkipSpaces(src: Text, i: nat): (j: nat)
    requires i <= |src|
    ensures i <= j <= |src| && Spaces(src[i..j]) && (j < |src| ==> !IsSpace(src[j]))
    decreases |src| - i
  {
    if i < |src| && IsSpace(src[i]) then
      var j := SkipSpaces(src, i + 1);
      assert src[i..j] == [src[i]] + src[i + 1..j];
      j
    else i
  }

  function PlainEnd(src: Text, i: nat): (j: nat)
    requires i <= |src|
    ensures i <= j <= |src| && (forall c :: c in src[i..j] ==> IsPlain(c)) && (j < |src| ==> !IsPlain(src[j]))
    decreases |src| - i
  {
    if i < |src| && IsPlain(src[i]) then
      var j := PlainEnd(src, i + 1);
      assert src[i..j] == [src[i]] + src[i + 1..j];
      j
    else i
  }

  /** Where the quoted key whose opening quote is behind `i` ends, if it does. */
  function QuotedEnd(src: Text, i: nat): (r: Option<nat>)
    requires i <= |src|
    ensures r.Some? ==> i < r.value <= |src| && QuotedRest(src[i..r.value])
    decreases |src| - i
  {
    if i == |src| then None
    else if src[i] == QUOTE then Some(i + 1)
    else if src[i] == BACKSLASH then
      if i + 2 > |src| then None
      else
        var r := QuotedEnd(src, i + 2);
        assert r.Some? ==> src[i..r.value][2..] == src[i + 2..r.value];
        r
    else
      var r := QuotedEnd(src, i + 1);
      assert r.Some? ==> src[i..r.value][1..] == src[i + 1..r.value];
      r
  }

  /** The token that starts at `i`, where neither a space nor the end of the source is. */
  function TokenAt(src: Text, i: nat): (r: Result<Token, LexError>)
    requires i < |src| && !IsSpace(src[i])
    ensures r.Ok? ==> var e := i + |r.value.value|;
              && e <= |src| && r.value.pos == i && src[i..e] == r.value.value
              && Lexeme(r.value.kind, r.value.value, src[e..])
  {
    var c := src[i];
    if Punctuation(c).Some? then Ok(Token(Punctuation(c).value, [c], i))
    else if c == QUOTE then
      var e := QuotedEnd(src, i + 1);
      if e.None? then Err(Unterminated(i))
      else
        assert src[i..e.value][1..] == src[i + 1..e.value];
        Ok(Token(QUOTED_KEY, src[i..e.value], i))
    else if IsPlain(c) then
      Ok(Token(PLAIN_KEY, src[i..PlainEnd(src, i)], i))
    else Err(UnexpectedSymbol(i))
  }

  /** The key of a token, as the grammar sees it; quoted text goes through `unquote`. */
  function GrammarTok(t: Token, unquote: Text -> Option<Text>): Option<Tok>
    requires t.kind != EOL
  {
    match t.kind
    case COMMA => Some(Comma)
    case DOT => Some(Dot)
    case LBRACE => Some(LBrace)
    case RBRACE => Some(RBrace)
    case WILD_CARD => Some(WildCard)
    case PLAIN_KEY => Some(Key(t.value))
    case QUOTED_KEY =>
      var k := unquote(t.value);
      if k.None? then None else Some(Key(k.value))
    case EOL => None
  }

  predicate NoEol(toks: seq<Token>) { forall t :: t in toks ==> t.kind != EOL }

  function LexFrom(src: Text, i: nat, unquote: Text -> Option<Text>): (r: Result<seq<Token>, LexError>)
    requires i <= |src|
    ensures r.Ok? ==> NoEol(r.value)
    decreases |src| - i
  {
    var k := SkipSpaces(src, i);
    if k == |src| then Ok([])
    else
      var t := TokenAt(src, k);
      if t.Err? then Err(t.error)
      else if GrammarTok(t.value, unquote).None? then Err(BadQuote(k))
      else
        var r := LexFrom(src, k + |t.value.value|, unquote);
        if r.Err? then r else Ok([t.value] + r.value)
  }

  // ---------------------------------------------------------------------------------------------
  // The scan finds exactly the tiling
  // ---------------------------------------------------------------------------------------------

  lemma TilesCons(src: Text, i: nat, t: Token, rest: seq<Token>)
    requires i <= t.pos && t.pos + |t.value| <= |src| && Spaces(src[i..t.pos])
    requires src[t.pos..t.pos + |t.value|] == t.value && Lexeme(t.kind, t.value, src[t.pos + |t.value|..])
    requires Tiles(src, t.pos + |t.value|, rest)
    ensures Tiles(src, i, [t] + rest)
  {
    hide Lexeme, Spaces;
    assert ([t] + rest)[1..] == rest;
  }

  lemma {:induction false} LexTiles(src: Text, i: nat, unquote: Text -> Option<Text>)
    requires i <= |src| && LexFrom(src, i, unquote).Ok?
    ensures Tiles(src, i, LexFrom(src, i, unquote).value)
    ensures forall t :: t in LexFrom(src, i, unquote).value ==> GrammarTok(t, unquote).Some?
    decreases |src| - i
  {
    hide TokenAt, SkipSpaces, Lexeme, GrammarTok, LexFrom, Spaces;
    LexStep(src, i, unquote);
    var k := SkipSpaces(src, i);
    if k < |src| {
      var t := TokenAt(src, k).value;
      LexTiles(src, k + |t.value|, unquote);
      TilesCons(src, i, t, LexFrom(src, k + |t.value|, unquote).value);
    } else {
      assert src[i..k] == src[i..];
    }
  }

  lemma {:induction false} SpacesEnd(src: Text, i: nat, j: nat)
    requires i <= j <= |src| && Spaces(src[i..j]) && (j < |src| ==> !IsSpace(src[j]))
    ensures SkipSpaces(src, i) == j
    decreases j - i
  {
    if i < j {
      assert src[i] == src[i..j][0] && src[i] in src[i..j];
      assert forall c :: c in src[i + 1..j] ==> c in src[i..j];
      SpacesEnd(src, i + 1, j);
    }
  }

  lemma {:induction false} PlainEndIs(src: Text, i: nat, j: nat)
    requires i <= j <= |src| && (forall c :: c in src[i..j] ==> IsPlain(c)) && (j < |src| ==> !IsPlain(src[j]))
    ensures PlainEnd(src, i) == j
    decreases j - i
  {
    if i < j {
      assert src[i] == src[i..j][0] && src[i] in src[i..j];
      assert forall c :: c in src[i + 1..j] ==> c in src[i..j];
      PlainEndIs(src, i + 1, j);
    }
  }

  lemma {:induction false} QuotedEndIs(src: Text, i: nat, j: nat)
    requires i <= j <= |src| && QuotedRest(src[i..j])
    ensures QuotedEnd(src, i) == Some(j)
    decreases j - i
  {
    assert src[i] == src[i..j][0];
    if src[i] == BACKSLASH {
      assert src[i..j][2..] == src[i + 2..j];
      QuotedEndIs(src, i + 2, j);
    } else if src[i] != QUOTE {
      assert src[i..j][1..] == src[i + 1..j];
      QuotedEndIs(src, i + 1, j);
    }
  }

  lemma TokenAtIs(src: Text, t: Token)
    requires t.pos + |t.value| <= |src| && src[t.pos..t.pos + |t.value|] == t.value
    requires Lexeme(t.kind, t.value, src[t.pos + |t.value|..])
    ensures t.pos < |src| && !IsSpace(src[t.pos]) && TokenAt(src, t.pos) == Ok(t)
  {
    var e := t.pos + |t.value|;
    assert t.value[0] == src[t.pos] && t.value[0] in t.value;
    if t.kind == PLAIN_KEY {
      PlainEndIs(src, t.pos, e);
    } else if t.kind == QUOTED_KEY {
      assert src[t.pos + 1..e] == t.value[1..];
      QuotedEndIs(src, t.pos + 1, e);
    } else {
      assert t.value == [src[t.pos]];
    }
  }

  lemma {:induction false} TilingIsLexed(src: Text, i: nat, toks: seq<Token>, unquote: Text -> Option<Text>)
    requires i <= |src| && Tiles(src, i, toks) && NoEol(toks)
    requires forall t :: t in toks ==> GrammarTok(t, unquote).Some?
    ensures LexFrom(src, i, unquote) == Ok(toks)
    decreases |toks|
  {
    hide Lexeme, TokenAt, SkipSpaces, LexFrom, GrammarTok;
    LexStep(src, i, unquote);
    if toks == [] {
      assert src[i..] == src[i..|src|];
      SpacesEnd(src, i, |src|);
    } else {
      var t := toks[0];
      TokenAtIs(src, t);
      SpacesEnd(src, i, t.pos);
      LexemeNonEmpty(t.kind, t.value, src[t.pos + |t.value|..]);
      TilingIsLexed(src, t.pos + |t.value|, toks[1..], unquote);
      assert toks == [t] + toks[1..];
    }
  }

  lemma LexemeNonEmpty(kind: Kind, t: Text, rest: Text)
    requires Lexeme(kind, t, rest)
    ensures t != [] && kind != EOL
  {}

  lemma {:induction false} TilesNoEol(src: Text, i: nat, toks: seq<Token>)
    requires i <= |src| && Tiles(src, i, toks)
    ensures NoEol(toks)
    decreases |toks|
  {
    if toks != [] {
      TilesNoEol(src, toks[0].pos + |toks[0].value|, toks[1..]);
      assert toks == [toks[0]] + toks[1..];
    }
  }

  /** Lexing succeeds with exactly the one tiling of the source, when all its quoted keys unquote. */
  lemma LexedIffTiled(src: Text, toks: seq<Token>, unquote: Text -> Option<Text>)
    ensures LexFrom(src, 0, unquote) == Ok(toks)
       <==> Tiles(src, 0, toks) && forall t :: t in toks ==> t.kind != EOL && GrammarTok(t, unquote).Some?
  {
    if LexFrom(src, 0, unquote) == Ok(toks) { LexTiles(src, 0, unquote); }
    if Tiles(src, 0, toks) && forall t :: t in toks ==> t.kind != EOL && GrammarTok(t, unquote).Some? {
      TilesNoEol(src, 0, toks);
      TilingIsLexed(src, 0, toks, unquote);
    }
  }

  /** One token's worth of lexing. */
  lemma LexStep(src: Text, i: nat, unquote: Text -> Option<Text>)
    requires i <= |src|
    ensures var k, r := SkipSpaces(src, i), LexFrom(src, i, unquote);
            if k == |src| then r == Ok([])
            else
              var t := TokenAt(src, k);
              if t.Err? then r == Err(t.error)
              else
                && t.value.kind != EOL && t.value.pos == k >= i && t.value.value != [] && k + |t.value.value| <= |src|
                && if GrammarTok(t.value, unquote).None? then r == Err(BadQuote(k))
                   else
                     var rest := LexFrom(src, k + |t.value.value|, unquote);
                     r == if rest.Err? then rest else Ok([t.value] + rest.value)
  {}

  // ---------------------------------------------------------------------------------------------
  // The lexer object
  // ---------------------------------------------------------------------------------------------

  class Lexer {
    const source: Text
    var pos: nat

    constructor (source: Text)
      ensures this.source == source && pos == 0
    {
      this.source := source;
      pos := 0;
    }

    predicate StartsWith(c: Char)
      reads this
    {
      pos < |source| && source[pos] == c
    }

    /** The next token from the cursor on, or EOL; the cursor moves behind it. */
    method NextToken() returns (r: Result<Token, LexError>)
      requires pos <= |source|
      modifies this`pos
      ensures var k := SkipSpaces(source, old(pos));
              if k == |source| then r == Ok(Token(EOL, [], k)) && pos == k
              else r == TokenAt(source, k) && (r.Ok? ==> pos == k + |r.value.value| <= |source|)
    {
      hide QuotedEnd, PlainEnd, Lexeme, Spaces;
      while pos < |source| && IsSpace(source[pos])
        invariant old(pos) <= pos <= |source|
        invariant SkipSpaces(source, pos) == SkipSpaces(source, old(pos))
      {
        pos := pos + 1;
      }
      if pos >= |source| { return Ok(Token(EOL, [], pos)); }
      var start := pos;
      if StartsWith(44) {
        pos := pos + 1;
        return Ok(Token(COMMA, [44], start));
      } else if StartsWith(46) {
        pos := pos + 1;
        return Ok(Token(DOT, [46], start));
      } else if StartsWith(40) {
        pos := pos + 1;
        return Ok(Token(LBRACE, [40], start));
      } else if StartsWith(41) {
        pos := pos + 1;
        return Ok(Token(RBRACE, [41], start));
      } else if StartsWith(42) {
        pos := pos + 1;
        return Ok(Token(WILD_CARD, [42], start));
      } else if StartsWith(QUOTE) {
        r := ScanQuotedKey();
      } else if IsPlain(source[pos]) {
        var t := ScanPlainKey();
        return Ok(t);
      } else {
        return Err(UnexpectedSymbol(pos));
      }
    }

    method ScanPlainKey() returns (t: Token)
      requires pos < |source| && IsPlain(source[pos])
      modifies this`pos
      ensures old(pos) < pos == PlainEnd(source, old(pos))
      ensures t == Token(PLAIN_KEY, source[old(pos)..pos], old(pos))
    {
      var start := pos;
      while pos < |source| && IsPlain(source[pos])
        invariant start <= pos <= |source|
        invariant PlainEnd(source, pos) == PlainEnd(source, start)
        decreases |source| - pos
      {
        pos := pos + 1;
      }
      t := Token(PLAIN_KEY, source[start..pos], start);
    }

    /** The cursor may run past the end of the source behind a final backslash. */
    method ScanQuotedKey() returns (r: Result<Token, LexError>)
      requires pos < |source| && source[pos] == QUOTE
      modifies this`pos
      ensures var e := QuotedEnd(source, old(pos) + 1);
              if e.None? then r == Err(Unterminated(old(pos)))
              else pos == e.value && r == Ok(Token(QUOTED_KEY, source[old(pos)..pos], old(pos)))
    {
      var start := pos;
      pos := pos + 1;
      while pos < |source| && !StartsWith(QUOTE)
        invariant start < pos <= |source| + 1
        invariant if pos <= |source| then QuotedEnd(source, pos) == QuotedEnd(source, start + 1)
                  else QuotedEnd(source, start + 1).None?
        decreases |source| + 1 - pos
      {
        if StartsWith(BACKSLASH) {
          pos := pos + 2;
        } else {
          pos := pos + 1;
        }
      }
      if StartsWith(QUOTE) {
        pos := pos + 1;
        return Ok(Token(QUOTED_KEY, source[start..pos], start));
      }
      return Err(Unterminated(start));
    }

    /** All tokens up to the end of the source, or the first error. */
    method All(unquote: Text -> Option<Text>) returns (r: Result<seq<Token>, LexError>)
      requires pos == 0
      modifies this`pos
      ensures r == LexFrom(source, 0, unquote)
    {
      hide LexFrom, TokenAt, SkipSpaces, Lexeme;
      var toks: seq<Token> := [];
      assert forall v: seq<Token> :: [] + v == v;
      while true
        invariant pos <= |source|
        invariant var rest := LexFrom(source, pos, unquote);
                  LexFrom(source, 0, unquote) == if rest.Err? then rest else Ok(toks + rest.value)
        decreases |source| - pos
      {
        LexStep(source, pos, unquote);
        var t := NextToken();
        if t.Err? { return Err(t.error); }
        if t.value.kind == EOL {
          assert toks + [] == toks;
          return Ok(toks);
        }
        if GrammarTok(t.value, unquote).None? { return Err(BadQuote(t.value.pos)); }
        ghost var rest := LexFrom(source, pos, unquote);
        assert rest.Ok? ==> toks + ([t.value] + rest.value) == (toks + [t.value]) + rest.value;
        toks := toks + [t.value];
      }
    }
  }
}
