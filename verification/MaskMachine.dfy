/**
 The mask parser's machine: one step per token, on the level stack and the shared graph. The ghost
 reader of `MaskGrammar` follows every step, which ties the masks on the stack to the paths read.
 */
module MaskMachine {
  import opened MaskSyntax
  import opened MaskGrammar
  import opened MaskGraph
  import opened Options

  /** Masks a level started from, those completed by its commas, and those being extended. */
  datatype Level = Level(starts: set<nat>, ends: set<nat>, active: set<nat>)

  datatype Config = Config(g: Graph, levels: seq<Level>, state: State)

  const INIT := Config([EMPTY], [Level({0}, {}, {0})], KeyState)

  function TopLevel(c: Config): Level
    requires c.levels != []
  {
    c.levels[|c.levels| - 1]
  }

  function SetTop(c: Config, l: Level, state: State): Config
    requires c.levels != []
  {
    c.(levels := c.levels[..|c.levels| - 1] + [l], state := state)
  }

  /** Every active mask steps to its child, created where missing. */
  ghost function AddStep(c: Config, s: Step): Config
    requires c.levels != []
  {
    var l := TopLevel(c);
    var g := Advance(c.g, l.active, s);
    var entered := set a | a in l.active && a < |g| && Child(g[a], s).Some? :: Child(g[a], s).value;
    SetTop(c.(g := g), l.(active := entered), Separator)
  }

  function NewMask(c: Config): Config
    requires c.levels != []
  {
    var l := TopLevel(c);
    SetTop(c, Level(l.starts, l.ends + l.active, l.starts), KeyState)
  }

  function PushLevel(c: Config): Config
    requires c.levels != []
  {
    var a := TopLevel(c).active;
    c.(levels := c.levels + [Level(a, {}, a)], state := LevelStart)
  }

  function PopLevel(c: Config): Config
    requires |c.levels| > 1
  {
    var l := TopLevel(c);
    var d := c.(levels := c.levels[..|c.levels| - 1]);
    SetTop(d, TopLevel(d).(active := l.ends + l.active), Separator)
  }

  ghost function Feed(c: Config, t: Tok): Option<Config>
    requires c.levels != []
  {
    match Settle(c.state, t)
    case KeyState => (
      match t
      case Key(k) => Some(AddStep(c, Field(k)))
      case WildCard => Some(AddStep(c, Any))
      case LBrace => Some(PushLevel(c))
      case _ => None)
    case Separator => (
      match t
      case Dot => Some(c.(state := KeyState))
      case Comma => Some(NewMask(c))
      case RBrace => if |c.levels| == 1 then None else Some(PopLevel(c))
      case _ => None)
    case LevelStart => None
  }

  ghost function FeedAll(c: Config, toks: seq<Tok>): Option<Config>
    requires c.levels != []
    decreases |toks|
  {
    if toks == [] then Some(c)
    else
      var r := Feed(c, toks[0]);
      if r.None? || r.value.levels == [] then None else FeedAll(r.value, toks[1..])
  }

  // ---------------------------------------------------------------------------------------------
  // What the masks on the stack stand for
  // ---------------------------------------------------------------------------------------------

  /** The masks are exactly those the paths lead to. */
  ghost predicate Stands(g: Graph, masks: set<nat>, paths: set<Path>)
    requires Forward(g)
  {
    && (forall p :: p in paths ==> Walk(g, p).Some? && Walk(g, p).value in masks)
    && (forall n :: n in masks ==> exists p :: p in paths && Walk(g, p) == Some(n))
  }

  /** Paths that lead to the start of level `j`. */
  ghost function Base(levels: seq<Open>, j: nat): set<Path>
    requires j <= |levels|
  {
    if j == 0 then {[]} else Cat(Base(levels, j - 1), ElemsPaths(levels[j - 1].cur))
  }

  ghost function CurPaths(levels: seq<Open>, j: nat): set<Path>
    requires j < |levels|
  {
    Cat(Base(levels, j), ElemsPaths(levels[j].cur))
  }

  ghost function DonePaths(levels: seq<Open>, j: nat): set<Path>
    requires j < |levels|
  {
    Cat(Base(levels, j), ExprPaths(levels[j].items))
  }

  ghost predicate LevelStands(g: Graph, l: Level, levels: seq<Open>, j: nat)
    requires Forward(g) && j < |levels|
  {
    && Stands(g, l.starts, Base(levels, j))
    && Stands(g, l.ends, DonePaths(levels, j))
    && Stands(g, l.active, CurPaths(levels, j))
  }

  /** `p` is, or starts, a path that has been read on some open level. */
  ghost predicate Spoken(z: Reader, p: Path) {
    exists j: nat, q :: j < |z.levels| && q in DonePaths(z.levels, j) + CurPaths(z.levels, j) && p <= q
  }

  /** Every edge was asked for on some path. */
  ghost predicate EdgesSpoken(g: Graph, z: Reader)
    requires Forward(g)
  {
    forall a: nat, s :: a < |g| && Child(g[a], s).Some? ==> EdgeSpoken(g, z, a, s)
  }

  ghost predicate EdgeSpoken(g: Graph, z: Reader, a: nat, s: Step)
    requires Forward(g)
  {
    exists q :: Walk(g, q) == Some(a) && Spoken(z, q + [s])
  }

  ghost predicate Follows(c: Config, z: Reader) {
    && WfReader(z) && |c.levels| == |z.levels| && c.state == z.state && Forward(c.g)
    && (forall j: nat :: j < |c.levels| ==> LevelStands(c.g, c.levels[j], z.levels, j))
    && EdgesSpoken(c.g, z)
  }

  // ---------------------------------------------------------------------------------------------
  // Base paths depend only on the outer levels
  // ---------------------------------------------------------------------------------------------

  lemma {:induction false} BaseFrame(xs: seq<Open>, ys: seq<Open>, j: nat)
    requires j <= |xs| && j <= |ys| && xs[..j] == ys[..j]
    ensures Base(xs, j) == Base(ys, j)
  {
    if j > 0 {
      assert xs[..j - 1] == xs[..j][..j - 1] && ys[..j - 1] == ys[..j][..j - 1];
      assert xs[j - 1] == xs[..j][j - 1] && ys[j - 1] == ys[..j][j - 1];
      BaseFrame(xs, ys, j - 1);
    }
  }

  lemma LevelFrame(g: Graph, l: Level, xs: seq<Open>, ys: seq<Open>, j: nat)
    requires Forward(g) && j < |xs| && j < |ys| && xs[..j + 1] == ys[..j + 1]
    requires LevelStands(g, l, xs, j)
    ensures LevelStands(g, l, ys, j)
  {
    hide Stands, Base;
    assert xs[..j] == xs[..j + 1][..j] && ys[..j] == ys[..j + 1][..j];
    assert xs[j] == xs[..j + 1][j] && ys[j] == ys[..j + 1][j];
    BaseFrame(xs, ys, j);
  }

  lemma StandsUnion(g: Graph, m: set<nat>, n: set<nat>, ps: set<Path>, qs: set<Path>)
    requires Forward(g) && Stands(g, m, ps) && Stands(g, n, qs)
    ensures Stands(g, m + n, ps + qs)
  {}

  lemma NoneStand(g: Graph)
    requires Forward(g)
    ensures Stands(g, {}, {})
  {}

  /** Masks keep standing for the same paths while the graph grows. */
  lemma StandsGrows(g: Graph, masks: set<nat>, paths: set<Path>, active: set<nat>, s: Step)
    requires Forward(g) && Forward(Advance(g, active, s)) && Stands(g, masks, paths)
    ensures Stands(Advance(g, active, s), masks, paths)
  {
    hide Advance, Walk;
    forall p | p in paths ensures Walk(Advance(g, active, s), p) == Walk(g, p) { AdvanceWalk(g, active, s, p); }
  }

  lemma LevelGrows(g: Graph, l: Level, levels: seq<Open>, j: nat, active: set<nat>, s: Step)
    requires Forward(g) && Forward(Advance(g, active, s)) && j < |levels| && LevelStands(g, l, levels, j)
    ensures LevelStands(Advance(g, active, s), l, levels, j)
  {
    hide Stands, Advance, Base;
    StandsGrows(g, l.starts, Base(levels, j), active, s);
    StandsGrows(g, l.ends, DonePaths(levels, j), active, s);
    StandsGrows(g, l.active, CurPaths(levels, j), active, s);
  }

  /** What was read leads somewhere. */
  lemma SpokenWalks(c: Config, z: Reader, p: Path)
    requires Follows(c, z) && Spoken(z, p)
    ensures Walk(c.g, p).Some?
  {
    hide Walk, Base, EdgesSpoken, WfReader;
    var j: nat, q :| j < |z.levels| && q in DonePaths(z.levels, j) + CurPaths(z.levels, j) && p <= q;
    assert LevelStands(c.g, c.levels[j], z.levels, j);
    PrefixWalks(c.g, p, q);
  }

  // ---------------------------------------------------------------------------------------------
  // What has been read stays read
  // ---------------------------------------------------------------------------------------------

  /** Everything spoken at `z` is still spoken at `y`. */
  ghost predicate Keeps(z: Reader, y: Reader) {
    forall p :: Spoken(z, p) ==> Spoken(y, p)
  }

  lemma Speak(z: Reader, j: nat, q: Path, p: Path)
    requires j < |z.levels| && q in DonePaths(z.levels, j) + CurPaths(z.levels, j) && p <= q
    ensures Spoken(z, p)
  {}

  lemma PathFrame(xs: seq<Open>, ys: seq<Open>, j: nat)
    requires j < |xs| && j < |ys| && xs[..j + 1] == ys[..j + 1]
    ensures DonePaths(xs, j) == DonePaths(ys, j) && CurPaths(xs, j) == CurPaths(ys, j)
  {
    assert xs[..j] == xs[..j + 1][..j] && ys[..j] == ys[..j + 1][..j];
    assert xs[j] == xs[..j + 1][j] && ys[j] == ys[..j + 1][j];
    BaseFrame(xs, ys, j);
  }

  /** Adding an element keeps the finished items and extends every path of the current one. */
  lemma AddElemPaths(z: Reader, e: Elem)
    requires z.levels != []
    ensures var t, y := |z.levels| - 1, AddElem(z, e).levels;
            && Base(y, t) == Base(z.levels, t)
            && DonePaths(y, t) == DonePaths(z.levels, t)
            && CurPaths(y, t) == Cat(CurPaths(z.levels, t), ElemPaths(e))
  {
    hide Cat;
    var t, y := |z.levels| - 1, AddElem(z, e).levels;
    assert y[..t] == z.levels[..t];
    BaseFrame(y, z.levels, t);
    var es := Top(z).cur + [e];
    assert es[..|es| - 1] == Top(z).cur;
    CatAssoc(Base(z.levels, t), ElemsPaths(Top(z).cur), ElemPaths(e));
  }

  lemma AddElemKeeps(z: Reader, e: Elem)
    requires z.levels != [] && WfElem(e)
    ensures Keeps(z, AddElem(z, e))
  {
    hide Cat, Base, WfElem, ElemPaths;
    var t, y := |z.levels| - 1, AddElem(z, e);
    AddElemPaths(z, e);
    PathsNonEmpty(e);
    forall p | Spoken(z, p) ensures Spoken(y, p) {
      var j: nat, q :| j < |z.levels| && q in DonePaths(z.levels, j) + CurPaths(z.levels, j) && p <= q;
      if j < t {
        assert y.levels[..j + 1] == z.levels[..j + 1];
        PathFrame(y.levels, z.levels, j);
        Speak(y, j, q, p);
      } else if q in DonePaths(z.levels, t) {
        Speak(y, t, q, p);
      } else {
        var r :| r in ElemPaths(e);
        CatMember(CurPaths(z.levels, t), ElemPaths(e), q, r);
        Speak(y, t, q + r, p);
      }
    }
  }

  // ---------------------------------------------------------------------------------------------
  // Every step follows the reader
  // ---------------------------------------------------------------------------------------------

  lemma StandsStep(g: Graph, active: set<nat>, paths: set<Path>, s: Step)
    requires Forward(g) && Forward(Advance(g, active, s)) && Stands(g, active, paths)
    ensures forall a :: a in active ==> a < |Advance(g, active, s)| && Child(Advance(g, active, s)[a], s).Some?
    ensures Stands(Advance(g, active, s), Entered(Advance(g, active, s), active, s), Cat(paths, {[s]}))
  {
    hide Advance, Walk, Cat, SomeLacks;
    var g' := Advance(g, active, s);
    forall a | a in active ensures a < |g| && a < |g'| && Child(g'[a], s).Some? { AdvanceChild(g, active, s, a, s); }
    var entered := Entered(g', active, s);
    forall p | p in Cat(paths, {[s]}) ensures Walk(g', p).Some? && Walk(g', p).value in entered {
      var q, r := CatSplit(paths, {[s]}, p);
      AdvanceWalk(g, active, s, q);
      WalkStep(g', q, s);
    }
    forall n | n in entered ensures exists p :: p in Cat(paths, {[s]}) && Walk(g', p) == Some(n) {
      var a :| a in active && Child(g'[a], s).value == n;
      var q :| q in paths && Walk(g, q) == Some(a);
      AdvanceWalk(g, active, s, q);
      WalkStep(g', q, s);
      CatMember(paths, {[s]}, q, [s]);
    }
  }

  lemma EdgesKept(g: Graph, z: Reader, y: Reader)
    requires Forward(g) && EdgesSpoken(g, z) && Keeps(z, y)
    ensures EdgesSpoken(g, y)
  {
    hide Walk, Spoken;
    forall a: nat, s | a < |g| && Child(g[a], s).Some? ensures EdgeSpoken(g, y, a, s) {
      assert EdgeSpoken(g, z, a, s);
    }
  }

  /** Old edges stay asked for, and the new ones are asked for on the current paths. */
  lemma EdgesAdded(g: Graph, z: Reader, y: Reader, active: set<nat>, paths: set<Path>, s: Step)
    requires Forward(g) && Forward(Advance(g, active, s)) && EdgesSpoken(g, z) && Keeps(z, y)
    requires Stands(g, active, paths) && forall q :: q in paths ==> Spoken(y, q + [s])
    ensures EdgesSpoken(Advance(g, active, s), y)
  {
    hide Advance, Walk, Spoken, SomeLacks;
    var g' := Advance(g, active, s);
    forall a: nat, t | a < |g'| && Child(g'[a], t).Some? ensures EdgeSpoken(g', y, a, t) {
      if a < |g| {
        AdvanceChild(g, active, s, a, t);
        if t == s && Lacks(g, active, s, a) {
          var q :| q in paths && Walk(g, q) == Some(a);
          AdvanceWalk(g, active, s, q);
        } else {
          assert EdgeSpoken(g, z, a, t);
          var q :| Walk(g, q) == Some(a) && Spoken(z, q + [t]);
          AdvanceWalk(g, active, s, q);
        }
      } else {
        AdvanceFresh(g, active, s);
        AdvanceChild(g, active, s, 0, s);
      }
    }
  }

  lemma CurSpoken(z: Reader, e: Elem, s: Step, q: Path)
    requires z.levels != [] && ElemPaths(e) == {[s]} && q in CurPaths(z.levels, |z.levels| - 1)
    ensures Spoken(AddElem(z, e), q + [s])
  {
    hide Base, Cat, ElemPaths;
    var t := |z.levels| - 1;
    AddElemPaths(z, e);
    CatMember(CurPaths(z.levels, t), {[s]}, q, [s]);
    Speak(AddElem(z, e), t, q + [s], q + [s]);
  }

  /** The levels around the one that advances keep standing for their paths. */
  lemma OuterLevelsStand(c: Config, z: Reader, s: Step, e: Elem, j: nat)
    requires Follows(c, z) && j < |z.levels| - 1 && Forward(AddStep(c, s).g)
    ensures LevelStands(AddStep(c, s).g, AddStep(c, s).levels[j], AddElem(z, e).levels, j)
  {
    hide Stands, Advance, Base, Spoken, EdgesSpoken, Cat, Walk, WfOpen;
    var active, g', y := TopLevel(c).active, AddStep(c, s).g, AddElem(z, e);
    assert LevelStands(c.g, c.levels[j], z.levels, j);
    LevelGrows(c.g, c.levels[j], z.levels, j, active, s);
    assert y.levels[..j + 1] == z.levels[..j + 1];
    LevelFrame(g', c.levels[j], z.levels, y.levels, j);
  }

  lemma TopLevelStands(c: Config, z: Reader, s: Step, e: Elem)
    requires Follows(c, z) && ElemPaths(e) == {[s]}
    ensures Forward(AddStep(c, s).g)
    ensures LevelStands(AddStep(c, s).g, AddStep(c, s).levels[|z.levels| - 1], AddElem(z, e).levels, |z.levels| - 1)
  {
    hide Stands, Advance, Base, Spoken, EdgesSpoken, Cat, ElemPaths, Walk, WfOpen;
    var t, l := |z.levels| - 1, TopLevel(c);
    assert LevelStands(c.g, l, z.levels, t);
    AdvanceForward(c.g, l.active, s);
    StandsStep(c.g, l.active, CurPaths(z.levels, t), s);
    assert AddStep(c, s).levels[t].active == Entered(AddStep(c, s).g, l.active, s);
    AddElemPaths(z, e);
    LevelGrows(c.g, l, z.levels, t, l.active, s);
  }

  lemma StepEdges(c: Config, z: Reader, s: Step, e: Elem)
    requires Follows(c, z) && WfElem(e) && ElemPaths(e) == {[s]} && Forward(AddStep(c, s).g)
    ensures EdgesSpoken(AddStep(c, s).g, AddElem(z, e))
  {
    hide Stands, Advance, Base, Spoken, EdgesSpoken, Cat, ElemPaths, WfElem, Walk, WfOpen;
    var t, y, l := |z.levels| - 1, AddElem(z, e), TopLevel(c);
    assert LevelStands(c.g, l, z.levels, t);
    AddElemKeeps(z, e);
    forall q | q in CurPaths(z.levels, t) ensures Spoken(y, q + [s]) { CurSpoken(z, e, s, q); }
    EdgesAdded(c.g, z, y, l.active, CurPaths(z.levels, t), s);
  }

  lemma AddStepFollows(c: Config, z: Reader, s: Step, e: Elem)
    requires Follows(c, z) && WfElem(e) && ElemPaths(e) == {[s]}
    ensures Follows(AddStep(c, s), AddElem(z, e))
  {
    hide LevelStands, Advance, EdgesSpoken, ElemPaths, WfElem, ReaderToks, WfOpen;
    TopLevelStands(c, z, s, e);
    StepEdges(c, z, s, e);
    AddElemToks(z, e);
    forall j: nat | j < |z.levels| - 1
      ensures LevelStands(AddStep(c, s).g, AddStep(c, s).levels[j], AddElem(z, e).levels, j)
    {
      OuterLevelsStand(c, z, s, e, j);
    }
  }

  lemma CommaKeeps(z: Reader)
    requires z.levels != []
    ensures Keeps(z, WithTop(z, Open(Top(z).items + [Item(Top(z).cur)], []), KeyState))
  {
    hide Base, Cat;
    var o := Open(Top(z).items + [Item(Top(z).cur)], []);
    var t, y := |z.levels| - 1, WithTop(z, o, KeyState);
    CommaPaths(z);
    forall p | Spoken(z, p) ensures Spoken(y, p) {
      var j: nat, q :| j < |z.levels| && q in DonePaths(z.levels, j) + CurPaths(z.levels, j) && p <= q;
      if j < t {
        assert y.levels[..j + 1] == z.levels[..j + 1];
        PathFrame(y.levels, z.levels, j);
      }
      Speak(y, j, q, p);
    }
  }

  lemma NewMaskFollows(c: Config, z: Reader)
    requires Follows(c, z) && z.state == Separator
    ensures Follows(NewMask(c), WithTop(z, Open(Top(z).items + [Item(Top(z).cur)], []), KeyState))
    ensures Keeps(z, WithTop(z, Open(Top(z).items + [Item(Top(z).cur)], []), KeyState))
  {
    hide Stands, Base, Cat, ReaderToks, EdgesSpoken, WfOpen, Spoken;
    var o := Open(Top(z).items + [Item(Top(z).cur)], []);
    var t, y := |z.levels| - 1, WithTop(z, o, KeyState);
    WithTopFacts(z, o, KeyState);
    CommaPaths(z);
    CommaToks(z);
    CommaKeeps(z);
    EdgesKept(c.g, z, y);
    assert LevelStands(c.g, TopLevel(c), z.levels, t);
    StandsUnion(c.g, TopLevel(c).ends, TopLevel(c).active, DonePaths(z.levels, t), CurPaths(z.levels, t));
    forall j: nat | j < t ensures LevelStands(c.g, NewMask(c).levels[j], y.levels, j) {
      assert y.levels[..j + 1] == z.levels[..j + 1];
      LevelFrame(c.g, c.levels[j], z.levels, y.levels, j);
    }
  }

  lemma CommaPaths(z: Reader)
    requires z.levels != []
    ensures var t, y := |z.levels| - 1, WithTop(z, Open(Top(z).items + [Item(Top(z).cur)], []), KeyState).levels;
            && Base(y, t) == Base(z.levels, t)
            && DonePaths(y, t) == DonePaths(z.levels, t) + CurPaths(z.levels, t)
            && CurPaths(y, t) == Base(z.levels, t)
  {
    hide Cat;
    var o := Open(Top(z).items + [Item(Top(z).cur)], []);
    var t, y := |z.levels| - 1, WithTop(z, o, KeyState).levels;
    assert y[..t] == z.levels[..t];
    BaseFrame(y, z.levels, t);
    assert o.items[..|o.items| - 1] == Top(z).items;
    CatUnion(Base(z.levels, t), ExprPaths(Top(z).items), ElemsPaths(Top(z).cur));
    CatUnit(Base(z.levels, t));
  }

  lemma PushLevelFollows(c: Config, z: Reader)
    requires Follows(c, z) && z.state != Separator
    ensures Follows(PushLevel(c), Reader(z.levels + [Open([], [])], LevelStart))
    ensures Keeps(z, Reader(z.levels + [Open([], [])], LevelStart))
  {
    hide Stands, Base, Cat, ReaderToks, EdgesSpoken, WfOpen;
    var t, y := |z.levels|, Reader(z.levels + [Open([], [])], LevelStart);
    PushPaths(z);
    OpenToks(z);
    forall p | Spoken(z, p) ensures Spoken(y, p) {
      var j: nat, q :| j < |z.levels| && q in DonePaths(z.levels, j) + CurPaths(z.levels, j) && p <= q;
      assert y.levels[..j + 1] == z.levels[..j + 1];
      PathFrame(y.levels, z.levels, j);
      Speak(y, j, q, p);
    }
    EdgesKept(c.g, z, y);
    assert LevelStands(c.g, TopLevel(c), z.levels, t - 1);
    NoneStand(c.g);
    forall j: nat | j < t ensures LevelStands(c.g, PushLevel(c).levels[j], y.levels, j) {
      assert y.levels[..j + 1] == z.levels[..j + 1];
      LevelFrame(c.g, c.levels[j], z.levels, y.levels, j);
    }
  }

  lemma PushPaths(z: Reader)
    requires z.levels != []
    ensures var t, y := |z.levels|, z.levels + [Open([], [])];
            Base(y, t) == CurPaths(z.levels, t - 1) && DonePaths(y, t) == {} && CurPaths(y, t) == Base(y, t)
  {
    var t, y := |z.levels|, z.levels + [Open([], [])];
    assert y[..t - 1] == z.levels[..t - 1];
    BaseFrame(y, z.levels, t - 1);
    CatUnit(Base(y, t));
  }

  lemma PopLevelFollows(c: Config, z: Reader)
    requires Follows(c, z) && |z.levels| > 1 && Settle(z.state, RBrace) == Separator
    ensures var y := AddElem(Reader(z.levels[..|z.levels| - 1], Separator), Closed(Top(z)));
            Follows(PopLevel(c), y) && Keeps(z, y)
  {
    hide Stands, Base, Cat, ReaderToks, EdgesSpoken, WfOpen, WfElem, ElemPaths;
    var t := |z.levels| - 1;
    var outer := Reader(z.levels[..t], Separator);
    var e := Closed(Top(z));
    var y := AddElem(outer, e);
    CloseToks(z);
    PopPaths(z);
    ClosedWf(z);
    PopKeeps(z);
    EdgesKept(c.g, z, y);
    assert LevelStands(c.g, c.levels[t], z.levels, t);
    assert LevelStands(c.g, c.levels[t - 1], z.levels, t - 1);
    StandsUnion(c.g, c.levels[t].ends, c.levels[t].active, DonePaths(z.levels, t), CurPaths(z.levels, t));
    forall j: nat | j < t - 1 ensures LevelStands(c.g, PopLevel(c).levels[j], y.levels, j) {
      assert y.levels[..j + 1] == z.levels[..j + 1];
      LevelFrame(c.g, c.levels[j], z.levels, y.levels, j);
    }
  }

  lemma ClosedWf(z: Reader)
    requires WfReader(z) && Settle(z.state, RBrace) == Separator
    ensures WfElem(Closed(Top(z)))
  {
    assert Top(z) in z.levels;
    ClosedElem(Top(z), z.state);
  }

  lemma PopPaths(z: Reader)
    requires |z.levels| > 1 && (Top(z).cur == [] ==> Top(z).items == [])
    ensures var t, y := |z.levels| - 1, AddElem(Reader(z.levels[..|z.levels| - 1], Separator), Closed(Top(z))).levels;
            && Base(y, t - 1) == Base(z.levels, t - 1)
            && DonePaths(y, t - 1) == DonePaths(z.levels, t - 1)
            && CurPaths(y, t - 1) == DonePaths(z.levels, t) + CurPaths(z.levels, t)
  {
    hide Cat;
    var t := |z.levels| - 1;
    var outer := Reader(z.levels[..t], Separator);
    var o := Top(z);
    AddElemPaths(outer, Closed(o));
    assert outer.levels[..t] == z.levels[..t];
    PathFrame(outer.levels, z.levels, t - 1);
    assert outer.levels[..t - 1] == z.levels[..t - 1];
    BaseFrame(outer.levels, z.levels, t - 1);
    var items := o.items + [Item(o.cur)];
    assert items[..|items| - 1] == o.items;
    assert ExprPaths(items) == ExprPaths(o.items) + ElemsPaths(o.cur);
    CatUnion(Base(z.levels, t), ExprPaths(o.items), ElemsPaths(o.cur));
    if o.cur == [] {
      assert ExprPaths(o.items) == {};
      assert ExprPaths(o.items) + ElemsPaths(o.cur) == {[]};
    }
  }

  lemma PopKeeps(z: Reader)
    requires WfReader(z) && |z.levels| > 1 && Settle(z.state, RBrace) == Separator
    ensures Keeps(z, AddElem(Reader(z.levels[..|z.levels| - 1], Separator), Closed(Top(z))))
  {
    hide Base, Cat, WfElem, ElemPaths;
    var t := |z.levels| - 1;
    var outer := Reader(z.levels[..t], Separator);
    var y := AddElem(outer, Closed(Top(z)));
    ClosedWf(z);
    PopPaths(z);
    AddElemKeeps(outer, Closed(Top(z)));
    forall p | Spoken(z, p) ensures Spoken(y, p) {
      var j: nat, q :| j < |z.levels| && q in DonePaths(z.levels, j) + CurPaths(z.levels, j) && p <= q;
      if j < t {
        assert outer.levels[..j + 1] == z.levels[..j + 1];
        PathFrame(outer.levels, z.levels, j);
        Speak(outer, j, q, p);
      } else {
        Speak(y, t - 1, q, p);
      }
    }
  }
}
