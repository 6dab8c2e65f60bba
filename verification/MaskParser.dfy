/**
 The mask parser object: the level stack and the masks it extends in place, and the loop that
 drives it over the tokens of a source string.
 */
module MaskParser {
  import opened MaskSyntax
  import opened MaskGrammar
  import opened MaskGraph
  import opened MaskMachine
  import opened MaskMeaning
  import opened MaskLexer
  import MaskFragment
  import opened Options

  datatype ParseError =
    | Lexical(error: LexError)
    | UnexpectedToken(pos: nat)
    | UnmatchedRightBrace(pos: nat)
    | UnclosedLeftBrace(pos: nat)
    | UnexpectedEnd

  /** A nesting level; the lists may repeat masks. `pos` is where its parenthesis opened. */
  datatype Nest = Nest(starts: seq<nat>, ends: seq<nat>, active: seq<nat>, pos: nat)

  ghost function SetOf(s: seq<nat>): set<nat> { set n | n in s }

  ghost function LevelOf(n: Nest): Level { Level(SetOf(n.starts), SetOf(n.ends), SetOf(n.active)) }

  ghost function LevelsOf(ns: seq<Nest>): seq<Level> { seq(|ns|, i requires 0 <= i < |ns| => LevelOf(ns[i])) }

  ghost predicate Within(s: seq<nat>, g: Graph) { forall a :: a in s ==> a < |g| }

  lemma SetOfAppend(a: seq<nat>, b: seq<nat>)
    ensures SetOf(a + b) == SetOf(a) + SetOf(b)
  {}

  // ---------------------------------------------------------------------------------------------
  // The loop over the active masks builds `Advance` one mask at a time
  // ---------------------------------------------------------------------------------------------

  lemma AdvancePresent(g: Graph, done: set<nat>, a: nat, s: Step)
    requires a < |g| && a < |Advance(g, done, s)| && Child(Advance(g, done, s)[a], s).Some?
    ensures Advance(g, done + {a}, s) == Advance(g, done, s)
    ensures SomeLacks(g, done + {a}, s) <==> SomeLacks(g, done, s)
  {
    AdvanceChild(g, done, s, a, s);
    assert forall i: nat :: Lacks(g, done + {a}, s, i) <==> Lacks(g, done, s, i);
    assert SomeLacks(g, done + {a}, s) <==> SomeLacks(g, done, s) by {
      if SomeLacks(g, done + {a}, s) { var i: nat :| Lacks(g, done + {a}, s, i); assert Lacks(g, done, s, i); }
      if SomeLacks(g, done, s) { var i: nat :| Lacks(g, done, s, i); assert Lacks(g, done + {a}, s, i); }
    }
  }

  lemma AdvanceMissing(g: Graph, done: set<nat>, a: nat, s: Step)
    requires a < |g| && a < |Advance(g, done, s)| && Child(Advance(g, done, s)[a], s).None?
    ensures SomeLacks(g, done + {a}, s)
    ensures var h := Advance(g, done, s);
            var grown := if SomeLacks(g, done, s) then h else h + [EMPTY];
            Advance(g, done + {a}, s) == grown[a := WithChild(h[a], s, |g|)]
  {
    var h := Advance(g, done, s);
    AdvanceChild(g, done, s, a, s);
    assert Lacks(g, done + {a}, s, a);
    assert forall i: nat :: Lacks(g, done + {a}, s, i) <==> i == a || Lacks(g, done, s, i);
    if !SomeLacks(g, done, s) {
      assert forall i: nat :: !Lacks(g, done, s, i);
    }
    assert a !in done;
  }

  ghost predicate ChildrenOf(g: Graph, active: set<nat>, s: Step) {
    forall a :: a in active ==> a < |g| && Child(g[a], s).Some?
  }

  lemma AdvanceNone(g: Graph, s: Step)
    ensures Advance(g, {}, s) == g && !SomeLacks(g, {}, s)
    ensures ChildrenOf(g, {}, s) && Entered(g, {}, s) == {}
  {}

  lemma AdvanceSize(g: Graph, active: set<nat>, s: Step)
    ensures |g| <= |Advance(g, active, s)|
  {}

  lemma AdvanceSame(g: Graph, done: set<nat>, s: Step)
    requires !SomeLacks(g, done, s)
    ensures Advance(g, done, s) == g
  {}

  lemma EnteredPlus(g: Graph, done: set<nat>, a: nat, s: Step)
    requires ChildrenOf(g, done, s) && a < |g| && Child(g[a], s).Some?
    ensures ChildrenOf(g, done + {a}, s) && Entered(g, done + {a}, s) == Entered(g, done, s) + {Child(g[a], s).value}
  {}

  lemma EnteredMissing(g: Graph, done: set<nat>, a: nat, s: Step)
    requires a < |g| && a < |Advance(g, done, s)| && Child(Advance(g, done, s)[a], s).None?
    requires forall d :: d in done ==> d < |g|
    ensures ChildrenOf(Advance(g, done, s), done, s) && ChildrenOf(Advance(g, done + {a}, s), done + {a}, s)
    ensures Entered(Advance(g, done + {a}, s), done + {a}, s) == Entered(Advance(g, done, s), done, s) + {|g|}
    ensures SomeLacks(g, done, s) ==> |g| in Entered(Advance(g, done, s), done, s)
  {
    hide Advance;
    var h, h' := Advance(g, done, s), Advance(g, done + {a}, s);
    AdvanceChild(g, done, s, a, s);
    AdvanceChild(g, done + {a}, s, a, s);
    forall d | d in done
      ensures d < |h| && d < |h'| && d != a && Child(h[d], s).Some? && Child(h'[d], s) == Child(h[d], s)
    {
      AdvanceChild(g, done, s, d, s);
      AdvanceChild(g, done + {a}, s, d, s);
    }
    assert Entered(h', done, s) == Entered(h, done, s);
    assert Lacks(g, done + {a}, s, a);
    EnteredPlus(h', done, a, s);
    if SomeLacks(g, done, s) {
      var d :| Lacks(g, done, s, d);
      AdvanceChild(g, done, s, d, s);
      assert d in done;
    }
  }

  lemma EnteredBound(g: Graph, active: set<nat>, s: Step)
    requires Forward(g) && ChildrenOf(g, active, s)
    ensures forall n :: n in Entered(g, active, s) ==> n < |g|
  {}

  lemma AddStepEntered(c: Config, s: Step)
    requires c.levels != [] && ChildrenOf(Advance(c.g, TopLevel(c).active, s), TopLevel(c).active, s)
    ensures var l := TopLevel(c);
            var g := Advance(c.g, l.active, s);
            MaskMachine.AddStep(c, s) == SetTop(c.(g := g), l.(active := Entered(g, l.active, s)), Separator)
  {
    hide Advance;
    var l := TopLevel(c);
    var g := Advance(c.g, l.active, s);
    assert Entered(g, l.active, s) == set a | a in l.active && a < |g| && Child(g[a], s).Some? :: Child(g[a], s).value;
  }

  class Parser {
    var graph: Graph
    var levels: seq<Nest>
    var state: State

    ghost function View(): Config
      reads this
    {
      Config(graph, LevelsOf(levels), state)
    }

    ghost predicate Valid()
      reads this
    {
      && levels != [] && Forward(graph)
      && forall n :: n in levels ==> Within(n.starts, graph) && Within(n.ends, graph) && Within(n.active, graph)
    }

    constructor ()
      ensures Valid() && View() == INIT && |levels| == 1
    {
      graph := [EMPTY];
      levels := [Nest([0], [], [0], 0)];
      state := KeyState;
      new;
      assert SetOf([0]) == {0} && SetOf([]) == {};
      assert LevelsOf(levels) == [Level({0}, {}, {0})];
    }

    /** Enters the child `s` of every listed mask, creating one shared mask for those without. */
    method Enter(active: seq<nat>, s: Step) returns (entered: seq<nat>)
      requires Within(active, graph)
      modifies this`graph
      ensures graph == Advance(old(graph), SetOf(active), s)
      ensures ChildrenOf(graph, SetOf(active), s) && SetOf(entered) == Entered(graph, SetOf(active), s)
    {
      hide Advance, SomeLacks, WithChild, Child, Entered;
      ghost var g := graph;
      var mask: Option<nat> := None;
      entered := [];
      AdvanceNone(g, s);
      assert SetOf(active[..0]) == {};
      for i := 0 to |active|
        invariant graph == Advance(g, SetOf(active[..i]), s) && |g| <= |graph|
        invariant mask == if SomeLacks(g, SetOf(active[..i]), s) then Some(|g|) else None
        invariant ChildrenOf(graph, SetOf(active[..i]), s) && SetOf(entered) == Entered(graph, SetOf(active[..i]), s)
      {
        var a := active[i];
        ghost var done := SetOf(active[..i]);
        assert a in active && a < |g| && forall d :: d in done ==> d in active;
        assert SetOf(active[..i + 1]) == done + {a};
        AdvanceFresh(g, done, s);
        if Child(graph[a], s).Some? {
          AdvancePresent(g, done, a, s);
          EnteredPlus(graph, done, a, s);
          SetOfAppend(entered, [Child(graph[a], s).value]);
          entered := entered + [Child(graph[a], s).value];
        } else {
          AdvanceMissing(g, done, a, s);
          EnteredMissing(g, done, a, s);
          if mask.None? {
            AdvanceSame(g, done, s);
            mask := Some(|graph|);
            graph := graph + [EMPTY];
            SetOfAppend(entered, [mask.value]);
            entered := entered + [mask.value];
          }
          graph := graph[a := WithChild(graph[a], s, mask.value)];
        }
      }
      assert active[..|active|] == active;
    }

    method AddStep(s: Step)
      requires Valid()
      modifies this
      ensures Valid() && View() == MaskMachine.AddStep(old(View()), s)
      ensures |levels| == |old(levels)| && forall i :: 0 <= i < |levels| ==> levels[i].pos == old(levels)[i].pos
    {
      hide Advance, Forward, Child, Entered, ChildrenOf, MaskMachine.AddStep;
      var t := |levels| - 1;
      var top := levels[t];
      assert top in levels;
      AdvanceForward(graph, SetOf(top.active), s);
      AdvanceSize(graph, SetOf(top.active), s);
      var entered := Enter(top.active, s);
      EnteredBound(graph, SetOf(top.active), s);
      AddStepEntered(old(View()), s);
      assert forall n :: n in entered ==> n in SetOf(entered);
      levels := levels[..t] + [top.(active := entered)];
      state := Separator;
      assert LevelsOf(levels) == LevelsOf(old(levels))[..t] + [LevelOf(levels[t])];
    }

    /** After a comma: the active masks are finished and the level starts over. */
    method NewMask()
      requires Valid()
      modifies this
      ensures Valid() && View() == MaskMachine.NewMask(old(View()))
      ensures |levels| == |old(levels)| && forall i :: 0 <= i < |levels| ==> levels[i].pos == old(levels)[i].pos
    {
      var t := |levels| - 1;
      var top := levels[t];
      assert top in levels;
      SetOfAppend(top.ends, top.active);
      levels := levels[..t] + [top.(ends := top.ends + top.active, active := top.starts)];
      state := KeyState;
      assert LevelsOf(levels) == LevelsOf(old(levels))[..t] + [LevelOf(levels[t])];
    }

    method PushLevel(pos: nat)
      requires Valid()
      modifies this
      ensures Valid() && View() == MaskMachine.PushLevel(old(View()))
      ensures levels == old(levels) + [levels[|levels| - 1]] && levels[|levels| - 1].pos == pos
    {
      var top := levels[|levels| - 1];
      assert top in levels;
      levels := levels + [Nest(top.active, [], top.active, pos)];
      state := LevelStart;
      assert SetOf([]) == {};
      assert LevelsOf(levels) == LevelsOf(old(levels)) + [LevelOf(levels[|levels| - 1])];
    }

    /** Leaves a level; its finished and active masks become the active ones of the level around it. */
    method PopLevel() returns (ok: bool)
      requires Valid()
      modifies this
      ensures ok <==> |old(levels)| > 1
      ensures ok ==> Valid() && View() == MaskMachine.PopLevel(old(View()))
      ensures ok ==> |levels| == |old(levels)| - 1 && forall i :: 0 <= i < |levels| ==>
                levels[i].pos == old(levels)[i].pos
    {
      var t := |levels| - 1;
      if t == 0 { return false; }
      var top, outer := levels[t], levels[t - 1];
      assert top in levels && outer in levels;
      SetOfAppend(top.ends, top.active);
      levels := levels[..t - 1] + [outer.(active := top.ends + top.active)];
      state := Separator;
      assert LevelsOf(levels) == LevelsOf(old(levels))[..t][..t - 1] + [LevelOf(levels[t - 1])];
      return true;
    }
  }

  // ---------------------------------------------------------------------------------------------
  // Parsing
  // ---------------------------------------------------------------------------------------------

  /** The machine reads the first `i` tokens and rejects the next one. */
  ghost predicate RejectsAt(toks: seq<Tok>, i: nat, unmatched: bool) {
    && i < |toks|
    && var z := ReadAll(START, toks[..i]);
    && z.Some? && z.value.levels != []
    && Read(z.value, toks[i]).None?
    && (unmatched <==> toks[i] == RBrace && z.value.state == Separator && |z.value.levels| == 1)
  }

  /** How many levels are open after `i` tokens. */
  ghost function Depth(toks: seq<Tok>, i: nat): nat
    requires i <= |toks|
  {
    var z := ReadAll(START, toks[..i]);
    if z.None? then 0 else |z.value.levels|
  }

  /** Token `i` opens level `d`, which stays open up to token `n`. */
  ghost predicate OpensAt(toks: seq<Tok>, i: nat, d: nat, n: nat)
    requires n <= |toks|
  {
    i < n && toks[i] == LBrace && Depth(toks, i) == d && forall j: nat :: i < j <= n ==> Depth(toks, j) > d
  }

  /** Which error is reported for tokens that are not accepted, and where. */
  ghost predicate Explains(e: ParseError, toks: seq<Tok>, poss: seq<nat>)
    requires |poss| == |toks|
  {
    match e
    case UnexpectedToken(p) => exists i: nat :: RejectsAt(toks, i, false) && p == poss[i]
    case UnmatchedRightBrace(p) => exists i: nat :: RejectsAt(toks, i, true) && p == poss[i]
    case UnclosedLeftBrace(p) =>
      && Depth(toks, |toks|) > 1
      && exists i: nat :: OpensAt(toks, i, Depth(toks, |toks|) - 1, |toks|) && p == poss[i]
    case UnexpectedEnd =>
      && ReadAll(START, toks).Some? && |ReadAll(START, toks).value.levels| == 1
      && ReadAll(START, toks).value.state != Separator
    case Lexical(_) => false
  }

  /** One pass of the loop body for a token, in the state the token is looked at. */
  method Step(parser: Parser, t: Tok, pos: nat) returns (r: Option<ParseError>)
    requires parser.Valid() && parser.state == Settle(parser.state, t)
    modifies parser
    ensures r.None? <==> Feed(old(parser.View()), t).Some?
    ensures r.None? ==> parser.Valid() && Feed(old(parser.View()), t) == Some(parser.View())
    ensures r.Some? ==>
              r.value == if t == RBrace && old(parser.state) == Separator then UnmatchedRightBrace(pos)
                         else UnexpectedToken(pos)
    ensures r.Some? && r.value.UnmatchedRightBrace? ==> |old(parser.levels)| == 1
    ensures r.None? ==> |parser.levels| >= 1 && forall i :: 0 <= i < |parser.levels| && i < |old(parser.levels)| ==>
              parser.levels[i].pos == old(parser.levels)[i].pos
    ensures r.None? && |parser.levels| > |old(parser.levels)| ==>
              && t == LBrace && |parser.levels| == |old(parser.levels)| + 1
              && parser.levels[|parser.levels| - 1].pos == pos
  {
    hide Advance, Forward, MaskMachine.AddStep, MaskMachine.NewMask, MaskMachine.PushLevel, MaskMachine.PopLevel;
    match parser.state {
      case KeyState =>
        match t {
          case Key(k) => parser.AddStep(Field(k));
          case WildCard => parser.AddStep(Any);
          case LBrace => parser.PushLevel(pos);
          case _ => return Some(UnexpectedToken(pos));
        }
      case Separator =>
        match t {
          case Dot => parser.state := KeyState;
          case Comma => parser.NewMask();
          case RBrace =>
            var ok := parser.PopLevel();
            if !ok { return Some(UnmatchedRightBrace(pos)); }
          case _ => return Some(UnexpectedToken(pos));
        }
      case LevelStart => assert false;
    }
    return None;
  }

  lemma SettledFeed(c: Config, t: Tok)
    requires c.levels != []
    ensures Feed(c.(state := Settle(c.state, t)), t) == Feed(c, t)
  {
    hide Advance;
  }

  lemma ReadNext(toks: seq<Tok>, n: nat)
    requires n < |toks| && ReadAll(START, toks[..n]).Some? && ReadAll(START, toks[..n]).value.levels != []
    ensures var r := Read(ReadAll(START, toks[..n]).value, toks[n]);
            ReadAll(START, toks[..n + 1]) == if r.None? || r.value.levels == [] then None else r
  {
    hide Read;
    assert toks[..n + 1] == toks[..n] + [toks[n]];
    ReadAllAppend(START, toks[..n], [toks[n]]);
    ReadOne(ReadAll(START, toks[..n]).value, toks[n]);
  }

  lemma FeedNext(toks: seq<Tok>, n: nat)
    requires n < |toks| && FeedAll(INIT, toks[..n]).Some? && FeedAll(INIT, toks[..n]).value.levels != []
    ensures var r := Feed(FeedAll(INIT, toks[..n]).value, toks[n]);
            FeedAll(INIT, toks[..n + 1]) == if r.None? || r.value.levels == [] then None else r
  {
    hide Feed;
    assert toks[..n + 1] == toks[..n] + [toks[n]];
    MaskFragment.FeedAllAppend(INIT, toks[..n], [toks[n]]);
    assert [toks[n]][1..] == [];
  }

  lemma {:induction false} StopsForever(toks: seq<Tok>, n: nat)
    requires n <= |toks| && ReadAll(START, toks[..n]).None?
    ensures Accepted(toks).None?
  {
    ReadAllAppend(START, toks[..n], toks[n..]);
    assert toks[..n] + toks[n..] == toks;
  }

  /** The run so far: the tokens read, and where the open parentheses are. */
  ghost predicate Progress(toks: seq<Tok>, poss: seq<nat>, n: nat, c: Config, z: Reader, levels: seq<Nest>,
                           braces: seq<nat>)
    requires |poss| == |toks|
  {
    && n <= |toks| && ReadAll(START, toks[..n]) == Some(z) && FeedAll(INIT, toks[..n]) == Some(c) && Follows(c, z)
    && |levels| == |z.levels| == |braces| + 1
    && forall d: nat :: d < |braces| ==> OpensAt(toks, braces[d], d + 1, n) && levels[d + 1].pos == poss[braces[d]]
  }

  lemma ProgressStart(toks: seq<Tok>, poss: seq<nat>, levels: seq<Nest>)
    requires |poss| == |toks| && |levels| == 1
    ensures Progress(toks, poss, 0, INIT, START, levels, [])
  {
    hide Follows;
    assert toks[..0] == [];
    InitFollows();
  }

  lemma ProgressNext(toks: seq<Tok>, poss: seq<nat>, n: nat, c: Config, z: Reader, levels: seq<Nest>,
                     levels': seq<Nest>, braces: seq<nat>)
    returns (z': Reader, braces': seq<nat>)
    requires |poss| == |toks| && Progress(toks, poss, n, c, z, levels, braces)
    requires n < |toks| && Feed(c, toks[n]).Some? && |levels'| == |Feed(c, toks[n]).value.levels|
    requires forall i :: 0 <= i < |levels'| && i < |levels| ==> levels'[i].pos == levels[i].pos
    requires |levels'| > |levels| ==>
              toks[n] == LBrace && |levels'| == |levels| + 1 && levels'[|levels'| - 1].pos == poss[n]
    ensures Progress(toks, poss, n + 1, Feed(c, toks[n]).value, z', levels', braces')
  {
    hide Read, Feed, LevelStands, EdgesSpoken, WfOpen, ReadAll, FeedAll;
    FeedFollows(c, z, toks[n]);
    ReadNext(toks, n);
    FeedNext(toks, n);
    z' := Read(z, toks[n]).value;
    braces' := if |levels'| > |levels| then braces + [n] else braces[..|levels'| - 1];
    forall d: nat | d < |braces'|
      ensures OpensAt(toks, braces'[d], d + 1, n + 1) && levels'[d + 1].pos == poss[braces'[d]]
    {
      if d < |braces| { assert braces'[d] == braces[d] && OpensAt(toks, braces[d], d + 1, n); }
    }
  }

  lemma ProgressFacts(toks: seq<Tok>, poss: seq<nat>, n: nat, c: Config, z: Reader, levels: seq<Nest>, braces: seq<nat>)
    requires |poss| == |toks| && Progress(toks, poss, n, c, z, levels, braces)
    ensures z.levels != [] && |c.levels| == |z.levels| == |levels| && c.state == z.state && Forward(c.g) && c.g != []
    ensures z.state == LevelStart ==> |levels| > 1
    ensures Depth(toks, n) == |levels|
  {
    hide LevelStands, EdgesSpoken, WfOpen;
  }

  lemma Rejected(toks: seq<Tok>, poss: seq<nat>, n: nat, c: Config, z: Reader, levels: seq<Nest>, braces: seq<nat>,
                 e: ParseError)
    requires |poss| == |toks| && Progress(toks, poss, n, c, z, levels, braces)
    requires n < |toks| && c.levels != [] && Feed(c, toks[n]).None?
    requires e == if toks[n] == RBrace && Settle(c.state, toks[n]) == Separator then UnmatchedRightBrace(poss[n])
                  else UnexpectedToken(poss[n])
    requires e.UnmatchedRightBrace? ==> |levels| == 1
    ensures Accepted(toks).None? && Explains(e, toks, poss)
  {
    hide LevelStands, EdgesSpoken, WfOpen, ReadAll, FeedAll, Read, Feed, Follows, Accepted;
    ProgressFacts(toks, poss, n, c, z, levels, braces);
    FeedFollows(c, z, toks[n]);
    ReadNext(toks, n);
    StopsForever(toks, n + 1);
    assert RejectsAt(toks, n, e.UnmatchedRightBrace?);
  }

  /**
   Runs the machine over all tokens. It succeeds exactly on the token sequences of the grammar,
   with the mask of the expression they spell, and otherwise tells what went wrong where.
   */
  method Run(toks: seq<Tok>, poss: seq<nat>) returns (r: Result<Mask, ParseError>)
    requires |poss| == |toks|
    ensures r.Ok? <==> Accepted(toks).Some?
    ensures r.Ok? ==> WfExpr(Accepted(toks).value) && r.value == ParsedMask(Accepted(toks).value)
    ensures r.Err? ==> !r.error.Lexical? && Explains(r.error, toks, poss)
  {
    hide Feed, Read, Follows, Forward, ReadAll, FeedAll, WfExpr, OpensAt, Advance;
    var parser := new Parser();
    var pos := 0;
    ghost var c, z, braces: seq<nat> := INIT, START, [];
    ProgressStart(toks, poss, parser.levels);
    while pos < |toks|
      invariant pos <= |toks| && fresh(parser) && parser.Valid()
      invariant Progress(toks, poss, pos, c, z, parser.levels, braces)
      invariant c.levels != [] && parser.View() == c.(state := parser.state)
      invariant parser.state == c.state || (pos < |toks| && parser.state == Settle(c.state, toks[pos]))
      decreases |toks| - pos, if parser.state == LevelStart then 1 else 0
    {
      var t := toks[pos];
      if parser.state == LevelStart {
        parser.state := if t == RBrace then Separator else KeyState;
      } else {
        SettledFeed(c, t);
        ghost var before := parser.levels;
        ProgressFacts(toks, poss, pos, c, z, parser.levels, braces);
        var e := Step(parser, t, poss[pos]);
        if e.Some? {
          Rejected(toks, poss, pos, c, z, before, braces, e.value);
          return Err(e.value);
        }
        z, braces := ProgressNext(toks, poss, pos, c, z, before, parser.levels, braces);
        c := parser.View();
        pos := pos + 1;
      }
    }
    assert toks[..|toks|] == toks;
    ProgressFacts(toks, poss, pos, c, z, parser.levels, braces);
    if |parser.levels| > 1 {
      assert OpensAt(toks, braces[|braces| - 1], |braces|, |toks|);
      return Err(UnclosedLeftBrace(parser.levels[|parser.levels| - 1].pos));
    }
    if parser.state != Separator {
      return Err(UnexpectedEnd);
    }
    AcceptedIsGrammar(toks);
    return Ok(Copy(parser.graph, 0));
  }

  /** The tokens of a lexed source as the grammar sees them. */
  function GrammarToks(toks: seq<Token>, unquote: Text -> Option<Text>): (r: seq<Tok>)
    requires forall t :: t in toks ==> t.kind != EOL && GrammarTok(t, unquote).Some?
    ensures |r| == |toks|
  {
    seq(|toks|, i requires 0 <= i < |toks| => GrammarTok(toks[i], unquote).value)
  }

  /** The source is blank, or its tokens spell an expression of the grammar. */
  ghost predicate Spells(src: Text, unquote: Text -> Option<Text>, x: Expr) {
    exists toks: seq<Token> ::
      && Tiles(src, 0, toks)
      && (forall t :: t in toks ==> t.kind != EOL && GrammarTok(t, unquote).Some?)
      && WfExpr(x) && ExprToks(x) == GrammarToks(toks, unquote)
  }

  /**
   Parses a source string. A blank source is the empty mask; any other source is accepted exactly
   when its tokens spell an expression, and then yields that expression's mask.
   */
  method Parse(src: Text, unquote: Text -> Option<Text>) returns (r: Result<Mask, ParseError>)
    ensures Spaces(src) ==> r == Ok(EMPTY_MASK)
    ensures !Spaces(src) ==> (r.Ok? <==> exists x :: Spells(src, unquote, x))
    ensures !Spaces(src) && r.Ok? ==> exists x :: Spells(src, unquote, x) && WfExpr(x) && r.value == ParsedMask(x)
    ensures r.Err? ==> match r.error
      case Lexical(e) => LexFrom(src, 0, unquote) == Err(e)
      case e =>
        && LexFrom(src, 0, unquote).Ok?
        && var toks := LexFrom(src, 0, unquote).value;
        && (forall t :: t in toks ==> t.kind != EOL && GrammarTok(t, unquote).Some?)
        && Explains(e, GrammarToks(toks, unquote), seq(|toks|, i requires 0 <= i < |toks| => toks[i].pos))
  {
    hide WfExpr, ExprToks, Tiles, LexFrom, GrammarTok, Explains, Accepted, ParsedMask;
    var i := 0;
    while i < |src| && IsSpace(src[i])
      invariant i <= |src| && Spaces(src[..i])
    {
      i := i + 1;
    }
    if i == |src| {
      assert src[..i] == src;
      return Ok(EMPTY_MASK);
    }
    assert src[i] in src;
    var lexer := new Lexer(src);
    var lexed := lexer.All(unquote);
    if lexed.Err? {
      forall x ensures !Spells(src, unquote, x) { NotLexed(src, unquote, x); }
      return Err(Lexical(lexed.error));
    }
    var toks := lexed.value;
    LexedIffTiled(src, toks, unquote);
    var gtoks := GrammarToks(toks, unquote);
    r := Run(gtoks, seq(|toks|, j requires 0 <= j < |toks| => toks[j].pos));
    SpellsIffAccepted(src, unquote, toks);
  }

  lemma NotLexed(src: Text, unquote: Text -> Option<Text>, x: Expr)
    requires LexFrom(src, 0, unquote).Err?
    ensures !Spells(src, unquote, x)
  {
    hide WfExpr, ExprToks, Tiles, LexFrom, GrammarTok;
    if Spells(src, unquote, x) {
      var toks: seq<Token> :|
        && Tiles(src, 0, toks)
        && (forall t :: t in toks ==> t.kind != EOL && GrammarTok(t, unquote).Some?)
        && WfExpr(x) && ExprToks(x) == GrammarToks(toks, unquote);
      LexedIffTiled(src, toks, unquote);
    }
  }

  lemma SpellsIffAccepted(src: Text, unquote: Text -> Option<Text>, toks: seq<Token>)
    requires LexFrom(src, 0, unquote) == Ok(toks)
    requires Tiles(src, 0, toks) && forall t :: t in toks ==> t.kind != EOL && GrammarTok(t, unquote).Some?
    ensures forall x :: Spells(src, unquote, x) <==> Accepted(GrammarToks(toks, unquote)) == Some(x)
  {
    hide WfExpr, ExprToks, Tiles, LexFrom, GrammarTok, Accepted, GrammarToks;
    forall x ensures Spells(src, unquote, x) <==> Accepted(GrammarToks(toks, unquote)) == Some(x) {
      AcceptsExactlyGrammar(GrammarToks(toks, unquote), x);
      if Spells(src, unquote, x) {
        var toks': seq<Token> :|
          && Tiles(src, 0, toks')
          && (forall t :: t in toks' ==> t.kind != EOL && GrammarTok(t, unquote).Some?)
          && WfExpr(x) && ExprToks(x) == GrammarToks(toks', unquote);
        LexedIffTiled(src, toks', unquote);
      }
    }
  }
}
