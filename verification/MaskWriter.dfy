/**
 The writer of masks. Masks are objects that refer to each other, shared and possibly in a circle, and the
 writer walks them with a stack of its own, a table of what is written already and the set of masks it is
 inside of.
 */
module MaskWriter {
  import opened MaskSyntax
  import opened MaskGraph
  import opened MaskMeaning
  import opened MaskMarshal
  import opened MaskText
  import opened MaskRender
  import opened Options

  /** The mask objects by identity. */
  type Heap = map<nat, Node>

  ghost predicate NoDangling(h: Heap) {
    forall n, s :: n in h && Child(h[n], s).Some? ==> Child(h[n], s).value in h
  }

  /** The object `n` is the mask `m`. */
  ghost predicate Unfolds(h: Heap, n: nat, m: Mask)
    decreases m
  {
    && n in h
    && (m.any.Some? <==> h[n].any.Some?) && (m.any.Some? ==> Unfolds(h, h[n].any.value, m.any.value))
    && m.parts.Keys == h[n].parts.Keys && (forall k :: k in m.parts ==> Unfolds(h, h[n].parts[k], m.parts[k]))
  }

  lemma {:induction false} UnfoldsUnique(h: Heap, n: nat, m: Mask, m': Mask)
    requires Unfolds(h, n, m) && Unfolds(h, n, m')
    ensures m == m'
    decreases m
  {
    if m.any.Some? { UnfoldsUnique(h, h[n].any.value, m.any.value, m'.any.value); }
    forall k | k in m.parts ensures m.parts[k] == m'.parts[k] {
      UnfoldsUnique(h, h[n].parts[k], m.parts[k], m'.parts[k]);
    }
  }

  predicate IsChild(h: Heap, n: nat, c: nat) {
    n in h && (h[n].any == Some(c) || c in h[n].parts.Values)
  }

  lemma ChildBelow(h: Heap, n: nat, c: nat, m: Mask) returns (d: Mask)
    requires Unfolds(h, n, m) && IsChild(h, n, c)
    ensures d < m && Unfolds(h, c, d)
  {
    if h[n].any == Some(c) {
      d := m.any.value;
    } else {
      var k :| k in h[n].parts && h[n].parts[k] == c;
      d := m.parts[k];
    }
  }

  // ---------------------------------------------------------------------------------------------
  // Circles
  // ---------------------------------------------------------------------------------------------

  /** Each mask of the path is a child of the one before it. */
  ghost predicate Leads(h: Heap, path: seq<nat>) {
    path != [] && forall i :: 0 < i < |path| ==> IsChild(h, path[i - 1], path[i])
  }

  /** From `root`, the path leads to its `i`-th mask and from there back to it. */
  ghost predicate CircleAlong(h: Heap, root: nat, path: seq<nat>, i: nat) {
    Leads(h, path) && path[0] == root && i < |path| - 1 && path[i] == path[|path| - 1]
  }

  /** A mask that can be reached from `root` can reach itself. */
  ghost predicate HasCircle(h: Heap, root: nat) { exists path, i :: CircleAlong(h, root, path, i) }

  /** Along a path, a mask that unfolds leads to smaller and smaller ones. */
  lemma {:induction false} Descend(h: Heap, path: seq<nat>, i: nat, j: nat, m: Mask) returns (d: Mask)
    requires Leads(h, path) && i <= j < |path| && Unfolds(h, path[i], m)
    ensures Unfolds(h, path[j], d) && (if i == j then d == m else d < m)
    decreases j - i
  {
    if i == j {
      d := m;
    } else {
      assert IsChild(h, path[i + 1 - 1], path[i + 1]);
      var e := ChildBelow(h, path[i], path[i + 1], m);
      d := Descend(h, path, i + 1, j, e);
    }
  }

  lemma CircleHasNoTree(h: Heap, root: nat, path: seq<nat>, i: nat, m: Mask)
    requires CircleAlong(h, root, path, i)
    ensures !Unfolds(h, root, m)
  {
    if Unfolds(h, root, m) {
      var d := Descend(h, path, 0, i, m);
      var e := Descend(h, path, i, |path| - 1, d);
      UnfoldsUnique(h, path[i], e, d);
    }
  }

  // ---------------------------------------------------------------------------------------------
  // The stack
  // ---------------------------------------------------------------------------------------------

  /** A mask that the writer is inside of, and those of its children that wait above it. */
  datatype Frame = Frame(mask: nat, todo: seq<nat>)

  type Pending = seq<(nat, bool)>

  function Waiting(todo: seq<nat>): Pending { seq(|todo|, i requires 0 <= i < |todo| => (todo[i], false)) }

  function Flat(start: seq<nat>, frames: seq<Frame>): Pending {
    if frames == [] then Waiting(start)
    else
      var f := frames[|frames| - 1];
      Flat(start, frames[..|frames| - 1]) + [(f.mask, true)] + Waiting(f.todo)
  }

  /** Each mask on the stack is a child of the one below it, and so are the masks that wait. */
  ghost predicate Nested(h: Heap, frames: seq<Frame>) {
    && (forall i :: 0 < i < |frames| ==> IsChild(h, frames[i - 1].mask, frames[i].mask))
    && (forall i, c :: 0 <= i < |frames| && c in frames[i].todo ==> IsChild(h, frames[i].mask, c))
    && (forall i, j :: 0 <= i < j < |frames| ==> frames[i].mask != frames[j].mask)
  }

  /** No child of a mask on the stack is forgotten. */
  ghost predicate Complete(h: Heap, frames: seq<Frame>, written: set<nat>) {
    forall i, c {:trigger IsChild(h, frames[i].mask, c)} :: 0 <= i < |frames| && IsChild(h, frames[i].mask, c) ==>
      c in written || c in frames[i].todo || (i + 1 < |frames| && c == frames[i + 1].mask)
  }

  lemma FlatPush(start: seq<nat>, frames: seq<Frame>, f: Frame)
    ensures Flat(start, frames + [f]) == Flat(start, frames) + [(f.mask, true)] + Waiting(f.todo)
  {
    assert (frames + [f])[..|frames|] == frames;
  }

  lemma WaitingPush(todo: seq<nat>, c: nat)
    ensures Waiting(todo + [c]) == Waiting(todo) + [(c, false)]
  {}

  // ---------------------------------------------------------------------------------------------
  // The walk
  // ---------------------------------------------------------------------------------------------

  ghost predicate Walking(h: Heap, root: nat, start: seq<nat>, frames: seq<Frame>, written: set<nat>,
                          visiting: set<nat>) {
    && Nested(h, frames) && Complete(h, frames, written)
    && (forall i :: 0 <= i < |frames| ==> frames[i].mask in h && frames[i].mask in visiting)
    && (forall v :: v in visiting ==> exists i :: 0 <= i < |frames| && frames[i].mask == v)
    && visiting !! written && visiting <= h.Keys && written <= h.Keys
    && (if frames != [] then start == [] && frames[0].mask == root
        else if start == [] then root in written
        else start == [root] && written == {})
  }

  /** The first mask is entered. */
  lemma EnterRoot(h: Heap, root: nat, todo: seq<nat>)
    requires root in h && ToDo(h, root, todo, {}) && Walking(h, root, [root], [], {}, {})
    ensures Walking(h, root, [], [Frame(root, todo)], {}, {root})
  {
    hide IsChild;
    var frames := [Frame(root, todo)];
    assert frames[0].mask == root && frames[0].todo == todo;
    forall i, c | 0 <= i < |frames| && IsChild(h, frames[i].mask, c) ensures c in frames[i].todo {}
  }

  /** The children of `n` that are not written are waiting, and only children of it. */
  ghost predicate ToDo(h: Heap, n: nat, todo: seq<nat>, written: set<nat>) {
    && (forall c :: c in todo ==> IsChild(h, n, c))
    && (forall c :: IsChild(h, n, c) ==> c in written || c in todo)
  }

  ghost function Popped(frames: seq<Frame>): seq<Frame>
    requires frames != []
  {
    frames[..|frames| - 1]
  }

  function Top(frames: seq<Frame>): Frame
    requires frames != []
  {
    frames[|frames| - 1]
  }

  /** The last waiting mask has been taken off. */
  ghost function Taken(frames: seq<Frame>): seq<Frame>
    requires frames != [] && Top(frames).todo != []
  {
    var f := Top(frames);
    Popped(frames) + [Frame(f.mask, f.todo[..|f.todo| - 1])]
  }

  function LastTodo(frames: seq<Frame>): nat
    requires frames != [] && Top(frames).todo != []
  {
    Top(frames).todo[|Top(frames).todo| - 1]
  }

  lemma TakenNested(h: Heap, frames: seq<Frame>)
    requires frames != [] && Top(frames).todo != [] && Nested(h, frames)
    ensures Nested(h, Taken(frames)) && IsChild(h, Top(frames).mask, LastTodo(frames))
  {
    hide IsChild;
    var gs := Taken(frames);
    assert forall i :: 0 <= i < |gs| ==> gs[i].mask == frames[i].mask;
    assert forall i, c :: 0 <= i < |gs| && c in gs[i].todo ==> c in frames[i].todo;
  }

  lemma TakenComplete(h: Heap, frames: seq<Frame>, written: set<nat>)
    requires frames != [] && Top(frames).todo != [] && Complete(h, frames, written)
    ensures Complete(h, Taken(frames), written + {LastTodo(frames)})
  {
    hide IsChild;
    var l, f, gs, last := |frames| - 1, Top(frames), Taken(frames), LastTodo(frames);
    assert f.todo == f.todo[..|f.todo| - 1] + [last];
    forall i, c | 0 <= i < |gs| && IsChild(h, gs[i].mask, c)
      ensures c in written + {last} || c in gs[i].todo || (i + 1 < |gs| && c == gs[i + 1].mask)
    {
      assert gs[i].mask == frames[i].mask;
      assert i < l ==> gs[i] == frames[i];
    }
  }

  lemma SkipWritten(h: Heap, root: nat, frames: seq<Frame>, written: set<nat>, visiting: set<nat>)
    requires frames != [] && Top(frames).todo != [] && LastTodo(frames) in written
    requires Walking(h, root, [], frames, written, visiting)
    ensures Walking(h, root, [], Taken(frames), written, visiting)
  {
    hide Nested, Complete;
    TakenNested(h, frames);
    TakenComplete(h, frames, written);
    assert written + {LastTodo(frames)} == written;
    var gs := Taken(frames);
    assert forall i :: 0 <= i < |frames| ==> gs[i].mask == frames[i].mask;
  }

  lemma EnterNested(h: Heap, frames: seq<Frame>, f: Frame)
    requires frames != [] && Nested(h, frames) && IsChild(h, Top(frames).mask, f.mask)
    requires (forall c :: c in f.todo ==> IsChild(h, f.mask, c))
    requires forall i :: 0 <= i < |frames| ==> frames[i].mask != f.mask
    ensures Nested(h, frames + [f])
  {
    hide IsChild;
    assert forall i :: 0 <= i < |frames| ==> (frames + [f])[i] == frames[i];
  }

  lemma EnterComplete(h: Heap, frames: seq<Frame>, f: Frame, written: set<nat>)
    requires frames != [] && Complete(h, frames, written + {f.mask}) && ToDo(h, f.mask, f.todo, written)
    requires forall i, c :: 0 <= i < |frames| - 1 && c == f.mask && IsChild(h, frames[i].mask, c) ==>
               c in written || c in frames[i].todo || c == frames[i + 1].mask
    ensures Complete(h, frames + [f], written)
  {
    hide IsChild;
    var gs := frames + [f];
    forall i, c | 0 <= i < |gs| && IsChild(h, gs[i].mask, c)
      ensures c in written || c in gs[i].todo || (i + 1 < |gs| && c == gs[i + 1].mask)
    {
      assert i < |frames| ==> gs[i] == frames[i];
      assert i + 1 < |frames| ==> gs[i + 1] == frames[i + 1];
    }
  }

  lemma EnterFrames(h: Heap, frames: seq<Frame>, written: set<nat>, todo: seq<nat>)
    requires frames != [] && Top(frames).todo != [] && Nested(h, frames) && Complete(h, frames, written)
    requires ToDo(h, LastTodo(frames), todo, written)
    requires forall i :: 0 <= i < |frames| ==> frames[i].mask != LastTodo(frames)
    ensures var gs := Taken(frames) + [Frame(LastTodo(frames), todo)]; Nested(h, gs) && Complete(h, gs, written)
  {
    hide IsChild, Nested;
    var f, gs := Frame(LastTodo(frames), todo), Taken(frames);
    TakenNested(h, frames);
    TakenComplete(h, frames, written);
    assert forall i :: 0 <= i < |gs| ==> gs[i].mask == frames[i].mask;
    assert forall i :: 0 <= i < |gs| - 1 ==> gs[i] == frames[i];
    EnterNested(h, gs, f);
    EnterComplete(h, gs, f, written);
  }

  lemma EnterChild(h: Heap, root: nat, frames: seq<Frame>, written: set<nat>, visiting: set<nat>, todo: seq<nat>)
    requires frames != [] && Top(frames).todo != [] && LastTodo(frames) !in written + visiting
    requires Walking(h, root, [], frames, written, visiting) && LastTodo(frames) in h
    requires ToDo(h, LastTodo(frames), todo, written)
    ensures Walking(h, root, [], Taken(frames) + [Frame(LastTodo(frames), todo)], written,
                    visiting + {LastTodo(frames)})
  {
    hide Nested, Complete, ToDo;
    EnterFrames(h, frames, written, todo);
    var c, hs := LastTodo(frames), Taken(frames);
    var gs := hs + [Frame(c, todo)];
    assert forall i :: 0 <= i < |frames| ==> gs[i].mask == frames[i].mask;
    assert gs[|frames|].mask == c;
  }

  /** A mask whose children are all written is left. */
  lemma LeaveMask(h: Heap, root: nat, frames: seq<Frame>, written: set<nat>, visiting: set<nat>)
    requires frames != [] && Top(frames).todo == [] && Walking(h, root, [], frames, written, visiting)
    ensures var v := Top(frames).mask;
            && v in visiting && v in h && v !in written && (forall c :: IsChild(h, v, c) ==> c in written)
            && Walking(h, root, [], Popped(frames), written + {v}, visiting - {v})
  {
    hide IsChild;
    var v, gs := Top(frames).mask, Popped(frames);
    assert forall i :: 0 <= i < |gs| ==> gs[i] == frames[i];
    assert frames[|frames| - 1].mask == v;
    LeaveComplete(h, frames, written);
    hide Complete;
    forall u | u in visiting - {v} ensures exists i :: 0 <= i < |gs| && gs[i].mask == u {
      var i :| 0 <= i < |frames| && frames[i].mask == u;
      assert gs[i].mask == u;
    }
  }

  lemma LeaveComplete(h: Heap, frames: seq<Frame>, written: set<nat>)
    requires frames != [] && Top(frames).todo == [] && Complete(h, frames, written)
    ensures forall c :: IsChild(h, Top(frames).mask, c) ==> c in written
    ensures Complete(h, Popped(frames), written + {Top(frames).mask})
  {
    hide IsChild;
    var l, gs := |frames| - 1, Popped(frames);
    forall c | IsChild(h, Top(frames).mask, c) ensures c in written { assert IsChild(h, frames[l].mask, c); }
    forall i, c | 0 <= i < |gs| && IsChild(h, gs[i].mask, c)
      ensures c in written + {Top(frames).mask} || c in gs[i].todo || (i + 1 < |gs| && c == gs[i + 1].mask)
    {
      assert gs[i] == frames[i];
    }
  }

  // ---------------------------------------------------------------------------------------------
  // What is in the table
  // ---------------------------------------------------------------------------------------------

  type Table = map<nat, (nat, Text)>

  /** Each mask in the table has a tree, and its entry is how that tree is written. */
  ghost predicate Written(h: Heap, results: Table, trees: map<nat, Mask>) {
    && results.Keys == trees.Keys
    && forall n :: n in results ==>
         Unfolds(h, n, trees[n]) && Rendered(trees[n], results[n].0, results[n].1)
  }

  ghost function TreeOf(h: Heap, n: nat, trees: map<nat, Mask>): Mask
    requires n in h && forall c :: IsChild(h, n, c) ==> c in trees
  {
    assert h[n].any.Some? ==> IsChild(h, n, h[n].any.value);
    assert forall k :: k in h[n].parts ==> IsChild(h, n, h[n].parts[k]);
    Mask(if h[n].any.None? then None else Some(trees[h[n].any.value]),
         map k | k in h[n].parts :: trees[h[n].parts[k]])
  }

  lemma TreeOfUnfolds(h: Heap, n: nat, trees: map<nat, Mask>)
    requires n in h && (forall c :: IsChild(h, n, c) ==> c in trees)
    requires forall c :: c in trees ==> Unfolds(h, c, trees[c])
    ensures Unfolds(h, n, TreeOf(h, n, trees))
    ensures forall s :: Child(h[n], s).Some? ==>
              && Child(h[n], s).value in trees
              && Sub(TreeOf(h, n, trees), s) == Some(trees[Child(h[n], s).value])
    ensures forall s :: Child(h[n], s).None? ==> Sub(TreeOf(h, n, trees), s).None?
  {
    forall s | Child(h[n], s).Some? ensures IsChild(h, n, Child(h[n], s).value) {}
  }

  /** The texts of the branches of `n`, from the table. */
  ghost predicate BranchesOf(h: Heap, n: nat, results: Table, steps: seq<Step>, ret: seq<Text>)
    requires n in h
  {
    && |steps| == |ret|
    && (forall i, j :: 0 <= i < j < |steps| ==> steps[i] != steps[j])
    && (forall s :: Child(h[n], s).Some? <==> s in steps)
    && (forall i :: 0 <= i < |steps| ==>
          && Child(h[n], steps[i]).Some? && Child(h[n], steps[i]).value in results
          && var (count, text) := results[Child(h[n], steps[i]).value];
          ret[i] == BranchText(StepText(steps[i]), count, text))
  }

  /** `r` lists the elements of `a` in the order `perm`. */
  ghost predicate Permuted<T(!new)>(a: seq<T>, r: seq<T>, perm: seq<nat>) {
    && |r| == |a| == |perm|
    && (forall i :: 0 <= i < |perm| ==> perm[i] < |a| && r[i] == a[perm[i]])
    && (forall i, j :: 0 <= i < j < |perm| ==> perm[i] != perm[j])
    && (forall k: nat :: k < |a| ==> k in perm)
  }

  lemma PermutedBranches(h: Heap, n: nat, results: Table, steps: seq<Step>, ret: seq<Text>,
                         sorted: seq<Text>, perm: seq<nat>) returns (inOrder: seq<Step>)
    requires n in h && BranchesOf(h, n, results, steps, ret) && Permuted(ret, sorted, perm)
    ensures BranchesOf(h, n, results, inOrder, sorted)
  {
    hide Child, StepText, BranchText;
    inOrder := Reordered(steps, perm);
    forall i, j | 0 <= i < j < |inOrder| ensures inOrder[i] != inOrder[j] {
      assert perm[i] != perm[j];
      assert inOrder[i] == steps[perm[i]] && inOrder[j] == steps[perm[j]];
    }
    ReorderedMembers(steps, perm);
    forall i | 0 <= i < |inOrder|
      ensures Child(h[n], inOrder[i]).Some? && Child(h[n], inOrder[i]).value in results
      ensures var (count, text) := results[Child(h[n], inOrder[i]).value];
              sorted[i] == BranchText(StepText(inOrder[i]), count, text)
    {
      assert inOrder[i] == steps[perm[i]] && sorted[i] == ret[perm[i]];
    }
  }

  ghost function Reordered(steps: seq<Step>, perm: seq<nat>): seq<Step>
    requires |perm| == |steps| && forall i :: 0 <= i < |perm| ==> perm[i] < |steps|
  {
    seq(|steps|, i requires 0 <= i < |steps| => steps[perm[i]])
  }

  lemma ReorderedMembers(steps: seq<Step>, perm: seq<nat>)
    requires |perm| == |steps| && (forall i :: 0 <= i < |perm| ==> perm[i] < |steps|)
    requires forall k: nat :: k < |steps| ==> k in perm
    ensures forall s :: s in Reordered(steps, perm) <==> s in steps
  {
    forall s | s in steps ensures s in Reordered(steps, perm) {
      var k: nat :| k < |steps| && steps[k] == s;
      assert k in perm;
      var i :| 0 <= i < |perm| && perm[i] == k;
      assert Reordered(steps, perm)[i] == s;
    }
  }

  /** The sorted texts of its branches are how a mask is written. */
  lemma WrittenNow(h: Heap, n: nat, results: Table, trees: map<nat, Mask>, steps: seq<Step>,
                   texts: seq<Text>)
    requires n in h && Written(h, results, trees) && (forall c :: IsChild(h, n, c) ==> c in results)
    requires BranchesOf(h, n, results, steps, texts) && Ascending(texts)
    ensures Unfolds(h, n, TreeOf(h, n, trees)) && Rendered(TreeOf(h, n, trees), |texts|, Joined(texts))
  {
    hide Rendered, Unfolds, IsChild, TreeOf, Joined, Ascending, StepText;
    var m := TreeOf(h, n, trees);
    TreeOfUnfolds(h, n, trees);
    forall i | 0 <= i < |steps| ensures Sub(m, steps[i]).Some?
      ensures BranchRendered(steps[i], Sub(m, steps[i]).value, texts[i])
    {
      var c := Child(h[n], steps[i]).value;
      assert Rendered(trees[c], results[c].0, results[c].1);
    }
    assert RenderedBy(m, steps, texts);
    RenderedIntro(m, steps, texts);
  }

  lemma RenderedIntro(m: Mask, steps: seq<Step>, texts: seq<Text>)
    requires RenderedBy(m, steps, texts)
    ensures Rendered(m, |texts|, Joined(texts))
  {}

  // ---------------------------------------------------------------------------------------------
  // The writer
  // ---------------------------------------------------------------------------------------------

  /** The keys of a mask, in whatever order they are stored. */
  method KeysOf(parts: map<Text, nat>) returns (ks: seq<Text>)
    ensures forall k :: k in ks <==> k in parts
    ensures forall i, j :: 0 <= i < j < |ks| ==> ks[i] != ks[j]
  {
    ks := [];
    var rest := parts.Keys;
    while rest != {}
      invariant rest <= parts.Keys
      invariant forall k :: k in ks <==> k in parts && k !in rest
      invariant forall i, j :: 0 <= i < j < |ks| ==> ks[i] != ks[j]
    {
      var k :| k in rest;
      ks := ks + [k];
      rest := rest - {k};
    }
  }

  /** The children that still have to be written. */
  method Unwritten(h: Heap, n: nat, results: Table) returns (todo: seq<nat>)
    requires n in h
    ensures ToDo(h, n, todo, results.Keys)
  {
    todo := if h[n].any.Some? && h[n].any.value !in results then [h[n].any.value] else [];
    var ks := KeysOf(h[n].parts);
    var i := 0;
    while i < |ks|
      invariant 0 <= i <= |ks|
      invariant forall c :: c in todo ==> IsChild(h, n, c)
      invariant h[n].any.Some? ==> h[n].any.value in results || h[n].any.value in todo
      invariant forall j :: 0 <= j < i ==> h[n].parts[ks[j]] in results || h[n].parts[ks[j]] in todo
    {
      assert ks[i] in h[n].parts;
      var c := h[n].parts[ks[i]];
      assert IsChild(h, n, c);
      if c !in results { todo := todo + [c]; }
      i := i + 1;
    }
    forall c | IsChild(h, n, c) ensures c in results || c in todo {
      if h[n].any != Some(c) {
        var k :| k in h[n].parts && h[n].parts[k] == c;
        assert k in ks;
        var j :| 0 <= j < |ks| && ks[j] == k;
        assert h[n].parts[ks[j]] == c;
      }
    }
  }

  /** The texts of all branches, the wildcard first. */
  method Branches(h: Heap, n: nat, results: Table) returns (ret: seq<Text>, ghost steps: seq<Step>)
    requires n in h && forall c :: IsChild(h, n, c) ==> c in results
    ensures BranchesOf(h, n, results, steps, ret)
  {
    hide BranchText, KeyText;
    ret, steps := [], [];
    if h[n].any.Some? {
      assert IsChild(h, n, h[n].any.value);
      var (count, text) := results[h[n].any.value];
      ret, steps := [BranchText([42], count, text)], [Any];
    }
    var ks := KeysOf(h[n].parts);
    ghost var first := |steps|;
    var i := 0;
    while i < |ks|
      invariant 0 <= i <= |ks| && |ret| == |steps| == first + i
      invariant first == (if h[n].any.Some? then 1 else 0) && (first == 1 ==> steps[0] == Any)
      invariant forall j :: 0 <= j < i ==> steps[first + j] == Field(ks[j])
      invariant forall j :: 0 <= j < |steps| ==> BranchOf(h, n, results, steps[j], ret[j])
    {
      assert ks[i] in h[n].parts;
      assert IsChild(h, n, h[n].parts[ks[i]]);
      var (count, text) := results[h[n].parts[ks[i]]];
      ret := ret + [BranchText(KeyText(ks[i]), count, text)];
      steps := steps + [Field(ks[i])];
      i := i + 1;
    }
    AllBranches(h, n, ks, first, steps);
  }

  /** `t` is the text of branch `s`, from the table. */
  ghost predicate BranchOf(h: Heap, n: nat, results: Table, s: Step, t: Text)
    requires n in h
  {
    && Child(h[n], s).Some? && Child(h[n], s).value in results
    && var (count, text) := results[Child(h[n], s).value];
    t == BranchText(StepText(s), count, text)
  }

  lemma AllBranches(h: Heap, n: nat, ks: seq<Text>, first: nat, steps: seq<Step>)
    requires n in h && (forall k :: k in ks <==> k in h[n].parts) && |steps| == first + |ks|
    requires first == (if h[n].any.Some? then 1 else 0) && (first == 1 ==> steps[0] == Any)
    requires forall i, j :: 0 <= i < j < |ks| ==> ks[i] != ks[j]
    requires forall j :: 0 <= j < |ks| ==> steps[first + j] == Field(ks[j])
    ensures forall i, j :: 0 <= i < j < |steps| ==> steps[i] != steps[j]
    ensures forall s :: Child(h[n], s).Some? <==> s in steps
  {
    forall i | 0 <= i < |steps| ensures if i < first then steps[i] == Any else steps[i] == Field(ks[i - first]) {
      if i >= first { assert steps[first + (i - first)] == Field(ks[i - first]); }
    }
    forall s | Child(h[n], s).Some? ensures s in steps {
      if s.Field? {
        assert s.key in ks;
        var j :| 0 <= j < |ks| && ks[j] == s.key;
        assert steps[first + j] == s;
      } else {
        assert steps[0] == s;
      }
    }
  }

  /** The position at which `t` goes into an ascending list. */
  method Position(ts: seq<Text>, t: Text) returns (j: nat)
    requires Ascending(ts)
    ensures j <= |ts| && (j > 0 ==> !TextLess(t, ts[j - 1])) && (j < |ts| ==> !TextLess(ts[j], t))
  {
    j := |ts|;
    while j > 0 && TextLess(t, ts[j - 1])
      invariant j <= |ts| && (j < |ts| ==> TextLess(t, ts[j]))
    {
      j := j - 1;
    }
    if j < |ts| { LessAsymmetric(t, ts[j]); }
  }

  lemma {:induction false} LessAsymmetric(a: Text, b: Text)
    requires TextLess(a, b)
    ensures !TextLess(b, a)
  {
    if a != [] && a[0] == b[0] { LessAsymmetric(a[1..], b[1..]); }
  }

  function Inserted<T>(s: seq<T>, j: nat, x: T): seq<T>
    requires j <= |s|
  {
    s[..j] + [x] + s[j..]
  }

  lemma InsertedAscends(ts: seq<Text>, j: nat, t: Text)
    requires Ascending(ts) && j <= |ts| && (j > 0 ==> !TextLess(t, ts[j - 1])) && (j < |ts| ==> !TextLess(ts[j], t))
    ensures Ascending(Inserted(ts, j, t))
  {
    hide TextLess;
    var us := Inserted(ts, j, t);
    assert us[j] == t && (forall i :: 0 <= i < j ==> us[i] == ts[i]) && forall i :: j < i < |us| ==> us[i] == ts[i - 1];
  }

  lemma InsertedAt<T>(s: seq<T>, j: nat, x: T, k: nat)
    requires j <= |s| && k <= |s|
    ensures |Inserted(s, j, x)| == |s| + 1
    ensures Inserted(s, j, x)[k] == if k < j then s[k] else if k == j then x else s[k - 1]
  {}

  lemma InsertedMembers<T>(s: seq<T>, j: nat, x: T, y: T)
    requires j <= |s|
    ensures y in Inserted(s, j, x) <==> y == x || y in s
  {
    assert s == s[..j] + s[j..];
  }

  lemma InsertedPermutes(a: seq<Text>, i: nat, r: seq<Text>, perm: seq<nat>, j: nat)
    requires i < |a| && Permuted(a[..i], r, perm) && j <= |r|
    ensures Permuted(a[..i + 1], Inserted(r, j, a[i]), Inserted(perm, j, i))
  {
    hide Inserted;
    var r', perm' := Inserted(r, j, a[i]), Inserted(perm, j, i);
    InsertedAt(perm, j, i, j);
    InsertedAt(r, j, a[i], j);
    forall k | 0 <= k < |perm'| ensures perm'[k] < i + 1 && r'[k] == a[..i + 1][perm'[k]] {
      InsertedAt(perm, j, i, k);
      InsertedAt(r, j, a[i], k);
    }
    forall k: nat | k < i + 1 ensures k in perm' { InsertedMembers(perm, j, i, k); }
    forall k, l | 0 <= k < l < |perm'| ensures perm'[k] != perm'[l] {
      InsertedAt(perm, j, i, k);
      InsertedAt(perm, j, i, l);
    }
  }

  /** Sorts texts; the result is a permutation of them. */
  method SortTexts(a: seq<Text>) returns (r: seq<Text>, ghost perm: seq<nat>)
    ensures Ascending(r) && Permuted(a, r, perm)
  {
    hide TextLess;
    r, perm := [], [];
    var i := 0;
    while i < |a|
      invariant 0 <= i <= |a| && Ascending(r) && Permuted(a[..i], r, perm)
    {
      hide Permuted, Ascending;
      SizeOfPermuted(a[..i], r, perm);
      var j := Position(r, a[i]);
      InsertedAscends(r, j, a[i]);
      InsertedPermutes(a, i, r, perm, j);
      r, perm := Inserted(r, j, a[i]), Inserted(perm, j, i);
      i := i + 1;
    }
    assert a[..i] == a;
  }

  lemma SizeOfPermuted(a: seq<Text>, r: seq<Text>, perm: seq<nat>)
    requires Permuted(a, r, perm)
    ensures |r| == |perm| == |a|
  {}

  method JoinTexts(ts: seq<Text>) returns (t: Text)
    ensures t == Joined(ts)
  {
    t := [];
    var i := 0;
    while i < |ts|
      invariant 0 <= i <= |ts| && t == Joined(ts[..i])
    {
      assert ts[..i + 1][..i] == ts[..i];
      t := if i == 0 then ts[i] else t + [44] + ts[i];
      i := i + 1;
    }
    assert ts[..i] == ts;
  }

  /** The entry of a mask whose children are in the table. */
  method Entry(h: Heap, n: nat, results: Table, ghost trees: map<nat, Mask>)
    returns (entry: (nat, Text), ghost tree: Mask)
    requires n in h && Written(h, results, trees) && forall c :: IsChild(h, n, c) ==> c in results
    ensures Unfolds(h, n, tree) && Rendered(tree, entry.0, entry.1)
  {
    hide Unfolds, Rendered, IsChild, BranchesOf, Permuted, Ascending;
    ghost var steps;
    var ret;
    ret, steps := Branches(h, n, results);
    var sorted;
    ghost var perm;
    sorted, perm := SortTexts(ret);
    ghost var inOrder := PermutedBranches(h, n, results, steps, ret, sorted, perm);
    WrittenNow(h, n, results, trees, inOrder, sorted);
    tree := TreeOf(h, n, trees);
    var text := JoinTexts(sorted);
    entry := (|sorted|, text);
  }

  lemma StackTop(start: seq<nat>, frames: seq<Frame>)
    ensures frames == [] && start == [] ==> Flat(start, frames) == []
    ensures frames == [] && |start| == 1 ==> Flat(start, frames) == [(start[0], false)]
    ensures frames != [] && Top(frames).todo == [] ==>
              Flat(start, frames) == Flat(start, Popped(frames)) + [(Top(frames).mask, true)]
    ensures frames != [] && Top(frames).todo != [] ==>
              Flat(start, frames) == Flat(start, Taken(frames)) + [(LastTodo(frames), false)]
  {
    if frames != [] && Top(frames).todo != [] {
      var f := Top(frames);
      var front := f.todo[..|f.todo| - 1];
      assert f.todo == front + [LastTodo(frames)];
      WaitingPush(front, LastTodo(frames));
      FlatPush(start, Popped(frames), Frame(f.mask, front));
    }
  }

  /** What is on top of the stack, and what is left when it is taken off. */
  lemma TakeTop(pending: Pending, start: seq<nat>, frames: seq<Frame>)
    requires pending == Flat(start, frames) && pending != [] && |start| <= 1
    ensures var (mask, expanded), rest := pending[|pending| - 1], pending[..|pending| - 1];
            if expanded then
              frames != [] && Top(frames).todo == [] && mask == Top(frames).mask && rest == Flat(start, Popped(frames))
            else if frames == [] then start == [mask] && rest == []
            else Top(frames).todo != [] && mask == LastTodo(frames) && rest == Flat(start, Taken(frames))
  {
    hide Flat;
    StackTop(start, frames);
  }

  /** The frames after `mask` is entered with its children `todo`. */
  ghost function Entered(frames: seq<Frame>, mask: nat, todo: seq<nat>): seq<Frame>
    requires frames != [] ==> Top(frames).todo != []
  {
    (if frames == [] then [] else Taken(frames)) + [Frame(mask, todo)]
  }

  lemma PushEntered(rest: Pending, start: seq<nat>, frames: seq<Frame>, mask: nat, todo: seq<nat>)
    requires frames != [] ==> Top(frames).todo != [] && start == [] && rest == Flat(start, Taken(frames))
    requires frames == [] ==> rest == []
    ensures rest + [(mask, true)] + Waiting(todo) == Flat([], Entered(frames, mask, todo))
  {
    hide Flat, Waiting;
    StackTop([], []);
    FlatPush([], if frames == [] then [] else Taken(frames), Frame(mask, todo));
  }

  lemma EnterMask(h: Heap, root: nat, start: seq<nat>, frames: seq<Frame>, written: set<nat>, visiting: set<nat>,
                  mask: nat, todo: seq<nat>)
    requires Walking(h, root, start, frames, written, visiting) && mask in h && mask !in written + visiting
    requires if frames == [] then start == [mask] else Top(frames).todo != [] && mask == LastTodo(frames)
    requires ToDo(h, mask, todo, written)
    ensures Walking(h, root, [], Entered(frames, mask, todo), written, visiting + {mask})
  {
    hide Nested, Complete, ToDo, IsChild;
    if frames == [] {
      assert visiting == {};
      EnterRoot(h, root, todo);
      assert Entered(frames, mask, todo) == [Frame(root, todo)] && visiting + {mask} == {root};
    } else {
      EnterChild(h, root, frames, written, visiting, todo);
    }
  }

  /**
   Writes a mask, or refuses a circular one. It is refused if and only if a mask that can be reached from
   it can reach itself; otherwise it has a tree, and the result is the number of its branches and the text
   of that tree.
   */
  method Marshal(h: Heap, root: nat) returns (r: Option<(nat, Text)>)
    requires NoDangling(h) && root in h
    ensures r.None? <==> HasCircle(h, root)
    ensures r.Some? <==> exists m :: Unfolds(h, root, m)
    ensures forall m :: r.Some? && Unfolds(h, root, m) ==> Rendered(m, r.value.0, r.value.1)
  {
    hide Unfolds, Rendered, IsChild, Walking, Flat, Nested, Complete, ToDo, NoDangling, Written, Waiting, Entered,
         Popped, Taken, HasCircle;
    CircleOrTree(h, root);
    var results: Table, visiting: set<nat>, pending := map[], {}, [(root, false)];
    ghost var trees: map<nat, Mask>, start, frames: seq<Frame> := map[], [root], [];
    Begun(h, root);
    while pending != []
      invariant Written(h, results, trees) && Walking(h, root, start, frames, results.Keys, visiting)
      invariant pending == Flat(start, frames)
      decreases |h.Keys - results.Keys - visiting|, |pending|
    {
      WalkFacts(h, root, start, frames, results.Keys, visiting);
      TakeTop(pending, start, frames);
      var (mask, expanded) := pending[|pending| - 1];
      pending := pending[..|pending| - 1];
      if expanded {
        LeaveMask(h, root, frames, results.Keys, visiting);
        var entry;
        ghost var tree;
        entry, tree := Entry(h, mask, results, trees);
        WrittenMore(h, results, trees, mask, entry, tree);
        LessToDo(h, results.Keys, visiting, mask);
        results, visiting := results[mask := entry], visiting - {mask};
        trees, frames := trees[mask := tree], Popped(frames);
        continue;
      }
      if mask in results {
        SkipWritten(h, root, frames, results.Keys, visiting);
        frames := Taken(frames);
        continue;
      }
      if mask in visiting {
        Circle(h, root, frames, results.Keys, visiting);
        return None;
      }
      var todo := Unwritten(h, mask, results);
      LessToDo(h, results.Keys, visiting, mask);
      EnterMask(h, root, start, frames, results.Keys, visiting, mask, todo);
      PushEntered(pending, start, frames, mask, todo);
      frames, start := Entered(frames, mask, todo), [];
      visiting := visiting + {mask};
      pending := pending + [(mask, true)] + Waiting(todo);
    }
    EmptyStack(start, frames);
    WalkFacts(h, root, start, frames, results.Keys, visiting);
    WrittenHas(h, results, trees, root);
    return Some(results[root]);
  }

  lemma EmptyStack(start: seq<nat>, frames: seq<Frame>)
    requires Flat(start, frames) == []
    ensures start == [] && frames == []
  {}

  lemma Begun(h: Heap, root: nat)
    requires root in h
    ensures Written(h, map[], map[]) && Walking(h, root, [root], [], {}, {})
    ensures Flat([root], []) == [(root, false)]
  {}

  lemma WalkFacts(h: Heap, root: nat, start: seq<nat>, frames: seq<Frame>, written: set<nat>, visiting: set<nat>)
    requires Walking(h, root, start, frames, written, visiting) && NoDangling(h) && root in h
    ensures frames == [] ==> visiting == {}
    ensures frames == [] && start == [] ==> root in written
    ensures frames == [] && start != [] ==> start == [root] && written == {}
    ensures frames != [] ==> start == []
    ensures frames != [] && Top(frames).todo != [] ==> LastTodo(frames) in h
    ensures visiting <= h.Keys && written <= h.Keys && visiting !! written
  {
    if frames != [] && Top(frames).todo != [] {
      var n, c := Top(frames).mask, LastTodo(frames);
      assert frames[|frames| - 1].todo[|Top(frames).todo| - 1] == c;
      assert IsChild(h, n, c);
      ChildInHeap(h, n, c);
    }
  }

  lemma ChildInHeap(h: Heap, n: nat, c: nat)
    requires NoDangling(h) && IsChild(h, n, c)
    ensures c in h
  {
    if h[n].any == Some(c) {
      assert Child(h[n], Any) == Some(c);
    } else {
      var k :| k in h[n].parts && h[n].parts[k] == c;
      assert Child(h[n], Field(k)) == Some(c);
    }
  }

  /** Entering a mask leaves fewer masks to enter; leaving one changes nothing about that. */
  lemma LessToDo(h: Heap, written: set<nat>, visiting: set<nat>, n: nat)
    requires n in h && n !in written
    ensures n !in visiting ==> |h.Keys - written - (visiting + {n})| < |h.Keys - written - visiting|
    ensures n in visiting ==> h.Keys - (written + {n}) - (visiting - {n}) == h.Keys - written - visiting
  {
    var s := h.Keys - written - visiting;
    if n !in visiting {
      assert h.Keys - written - (visiting + {n}) == s - {n};
      assert n in s;
    }
  }

  /** A waiting mask that is on the stack already closes a circle. */
  lemma Circle(h: Heap, root: nat, frames: seq<Frame>, written: set<nat>, visiting: set<nat>)
    requires frames != [] && Top(frames).todo != [] && LastTodo(frames) in visiting
    requires Walking(h, root, [], frames, written, visiting)
    ensures HasCircle(h, root)
  {
    hide IsChild, Complete;
    var i: nat :| i < |frames| && frames[i].mask == LastTodo(frames);
    var masks := seq(|frames|, j requires 0 <= j < |frames| => frames[j].mask);
    var path := masks + [LastTodo(frames)];
    TakenNested(h, frames);
    assert CircleAlong(h, root, path, i);
  }

  /** A mask with a circle has no tree. */
  lemma CircleOrTree(h: Heap, root: nat)
    ensures HasCircle(h, root) ==> !exists m :: Unfolds(h, root, m)
  {
    hide Unfolds, CircleAlong;
    if HasCircle(h, root) {
      var path, i: nat :| CircleAlong(h, root, path, i);
      forall m ensures !Unfolds(h, root, m) { CircleHasNoTree(h, root, path, i, m); }
    }
  }

  lemma WrittenMore(h: Heap, results: Table, trees: map<nat, Mask>, n: nat, entry: (nat, Text),
                    tree: Mask)
    requires Written(h, results, trees) && Unfolds(h, n, tree) && Rendered(tree, entry.0, entry.1)
    ensures Written(h, results[n := entry], trees[n := tree])
    ensures results[n := entry].Keys == results.Keys + {n}
  {
    hide Unfolds, Rendered;
  }

  lemma WrittenHas(h: Heap, results: Table, trees: map<nat, Mask>, n: nat)
    requires Written(h, results, trees) && n in results
    ensures exists m :: Unfolds(h, n, m)
    ensures forall m :: Unfolds(h, n, m) ==> Rendered(m, results[n].0, results[n].1)
  {
    hide Unfolds, Rendered;
    assert Unfolds(h, n, trees[n]);
    forall m | Unfolds(h, n, m) ensures m == trees[n] { UnfoldsUnique(h, n, m, trees[n]); }
  }

  // ---------------------------------------------------------------------------------------------
  // Writing and reading back
  // ---------------------------------------------------------------------------------------------

  /**
   The written text of a mask that is not empty is parsed back to the mask if and only if no key of it
   is a plain key with a newline behind it or holds a pair of surrogates; the empty mask is written as
   nothing.
   */
  lemma MarshalledRoundTrip(m: Mask, n: nat, t: Text)
    requires Rendered(m, n, t)
    ensures m == EMPTY_MASK <==> t == []
    ensures m != EMPTY_MASK ==> (ParsesTo(t, m) <==> forall k :: NamesKey(m, k) ==> Survives(k))
  {
    hide Rendered, Writes, ParsesTo, NamesKey, Survives, ExprToks, WfExpr, TextOf;
    var x := RenderedWrites(m, n, t);
    WrittenEmpty(m, x);
    if x == [] {
      EmptyText(x);
    } else {
      WrittenDenotes(m, x);
      TextNonEmpty(x);
      RoundTripIff(m, x);
    }
  }

  lemma EmptyText(x: Expr)
    requires x == []
    ensures ExprText(x) == []
  {}
}
