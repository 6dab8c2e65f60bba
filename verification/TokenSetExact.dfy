/**
 For which word lists the builder is exact. Over an alphabet in which a digit can only be the least
 label it always is, and over every other alphabet some sorted list makes it merge two different nodes
 and lose words, wherever the identifiers start.
 */
module TokenSetExact {
  import opened TokenSet
  import opened TokenSetKey
  import opened TokenSetBuilder
  import opened TokenSetCollision

  // ---------------------------------------------------------------------------------------------
  // Unambiguous keys
  // ---------------------------------------------------------------------------------------------

  lemma {:induction false} FoldedReady(s: State, spine: seq<nat>, rank: map<nat, nat>, alphabet: set<Unit>, path: Word,
                                       words: set<Word>, k: nat)
    returns (spine': seq<nat>, rank': map<nat, nat>)
    requires Ready(s, spine, rank, alphabet, path, words, true) && KeySafe(alphabet) && k <= |s.unchecked|
    ensures Ready(FoldTo(s, k), spine', rank', alphabet, path, words, true) && |FoldTo(s, k).unchecked| == k
    decreases |s.unchecked|
  {
    hide Ready, KeySafe, FoldTo, FoldLast, FoldRank, TrueFold;
    FoldToStep(s, k);
    spine', rank' := spine, rank;
    if |s.unchecked| > k {
      FoldKeepsReady(s, spine, rank, alphabet, path, words, true);
      FoldRoot(s);
      spine', rank' :=
        FoldedReady(FoldLast(s), spine[..|spine| - 1], FoldRank(s, rank), alphabet, path, words, k);
    }
  }

  lemma {:induction false} AppendedExtending(s: State, spine: seq<nat>, rank: map<nat, nat>, alphabet: set<Unit>,
                                             word: Word, words: set<Word>)
    returns (spine': seq<nat>)
    requires Extending(s, spine, rank, alphabet, word, words, true) && Letters(word, alphabet)
    requires |s.unchecked| <= |word|
    ensures var t := AppendAll(s, word, |s.unchecked|);
            Extending(t, spine', rank, alphabet, word, words, true) && |t.unchecked| == |word|
    decreases |word| - |s.unchecked|
  {
    hide Extending, AppendAll;
    var i := |s.unchecked|;
    AppendAllStep(s, word, i);
    spine' := spine;
    if i < |word| {
      AppendKeepsExtending(s, spine, rank, alphabet, word, words, true);
      spine' := AppendedExtending(Append(s, word[i]), spine + [s.nextId], rank, alphabet, word, words);
    }
  }

  lemma {:induction false} CommonFacts(prev: Word, word: Word)
    ensures var k := Common(prev, word);
            && k <= |prev| && k <= |word| && prev[..k] == word[..k]
            && (k < |prev| && k < |word| ==> prev[k] != word[k])
  {
    if prev != [] && word != [] && prev[0] == word[0] {
      CommonFacts(prev[1..], word[1..]);
      var k := Common(prev, word);
      assert prev[..k] == [prev[0]] + prev[1..][..k - 1] && word[..k] == [word[0]] + word[1..][..k - 1];
    }
  }

  lemma {:induction false} InsertedReady(s: State, spine: seq<nat>, rank: map<nat, nat>, alphabet: set<Unit>,
                                         prev: Word, word: Word, words: set<Word>)
    returns (spine': seq<nat>, rank': map<nat, nat>)
    requires Ready(s, spine, rank, alphabet, prev, words, true) && KeySafe(alphabet)
    requires |s.unchecked| == |prev| && !Less(word, prev) && Letters(word, alphabet)
    ensures var t := Inserted(s, prev, word);
            Ready(t, spine', rank', alphabet, word, words + {word}, true) && |t.unchecked| == |word|
  {
    hide Ready, Extending, KeySafe, Less, FoldTo, AppendAll, Common;
    var k := Common(prev, word);
    CommonFacts(prev, word);
    LeavesUpwards(prev, word, k);
    spine', rank' := FoldedReady(s, spine, rank, alphabet, prev, words, k);
    StartExtending(FoldTo(s, k), spine', rank', alphabet, prev, word, words, true);
    spine' := AppendedExtending(FoldTo(s, k), spine', rank', alphabet, word, words);
    MarkFinalAddsWord(AppendAll(FoldTo(s, k), word, k), spine', rank', alphabet, word, words, true);
  }

  lemma {:induction false} BuiltFromExact(s: State, spine: seq<nat>, rank: map<nat, nat>, alphabet: set<Unit>,
                                          prev: Word, words: set<Word>, arr: seq<Word>)
    requires Ready(s, spine, rank, alphabet, prev, words, true) && KeySafe(alphabet) && |s.unchecked| == |prev|
    requires Sorted([prev] + arr) && (forall w :: w in arr ==> Letters(w, alphabet))
    ensures var t := BuiltFrom(s, prev, arr); forall w: Word :: Accepts(t.nodes, t.root, w) <==> w in words || w in arr
    decreases |arr|
  {
    hide Ready, KeySafe, Less, Letters, Accepts, Inserted, FoldTo;
    if arr == [] {
      var spine', rank' := FoldedReady(s, spine, rank, alphabet, prev, words, 0);
      FinishedFacts(FoldTo(s, 0), spine', rank', alphabet, prev, words, true);
    } else {
      var line := [prev] + arr;
      assert line[1] == arr[0] && line[0] == prev;
      var spine', rank' := InsertedReady(s, spine, rank, alphabet, prev, arr[0], words);
      var rest := [arr[0]] + arr[1..];
      assert forall i :: 0 <= i < |rest| ==> rest[i] == line[i + 1];
      BuiltFromExact(Inserted(s, prev, arr[0]), spine', rank', alphabet, arr[0], words + {arr[0]}, arr[1..]);
    }
  }

  lemma NewIsReady(firstId: nat, alphabet: set<Unit>)
    ensures Ready(NewState(firstId), [firstId], map[], alphabet, [], {}, true)
  {
    var s := NewState(firstId);
    assert s.nodes[firstId] == EMPTY_NODE;
    forall w: Word ensures !Accepts(s.nodes, firstId, w) {}
  }

  /** A sorted list over unambiguous labels is built exactly. */
  lemma SafeListIsExact(arr: seq<Word>, firstId: nat, alphabet: set<Unit>)
    requires KeySafe(alphabet) && Sorted(arr) && LettersOf(arr) <= alphabet
    ensures Exact(arr, firstId)
  {
    hide Ready, KeySafe, BuiltFrom, Accepts, Less;
    NewIsReady(firstId, alphabet);
    assert Sorted([[]] + arr) by {
      var line := [[]] + arr;
      forall i | 0 < i < |line| ensures !Less(line[i], line[i - 1]) {
        NothingBelowEmpty(line[i]);
        assert i > 1 ==> line[i] == arr[i - 1] && line[i - 1] == arr[i - 2];
      }
    }
    forall w | w in arr ensures Letters(w, alphabet) {
      var i :| 0 <= i < |arr| && arr[i] == w;
      LettersOfWord(arr, i);
    }
    BuiltFromExact(NewState(firstId), [firstId], map[], alphabet, [], {}, arr);
  }

  // ---------------------------------------------------------------------------------------------
  // Exactly the unambiguous alphabets
  // ---------------------------------------------------------------------------------------------

  /** Every sorted list over `alphabet` is built exactly. */
  ghost predicate AlwaysExact(alphabet: set<Unit>, firstId: nat) {
    forall arr: seq<Word> :: Sorted(arr) && LettersOf(arr) <= alphabet ==> Exact(arr, firstId)
  }

  /** Wherever identifiers start, the builder is exact on an alphabet if and only if keys are unambiguous on it. */
  lemma AlwaysExactIffKeySafe(alphabet: set<Unit>, firstId: nat)
    ensures AlwaysExact(alphabet, firstId) <==> KeySafe(alphabet)
  {
    hide Sorted, LettersOf, Exact, Collision, Built;
    if KeySafe(alphabet) {
      forall arr: seq<Word> | Sorted(arr) && LettersOf(arr) <= alphabet ensures Exact(arr, firstId) {
        SafeListIsExact(arr, firstId, alphabet);
      }
    } else {
      var c, d :| c in alphabet && d in alphabet && IsDigit(d) && c < d;
      CollisionIsInexact(c, d, firstId);
      assert LettersOf(Collision(c, d, firstId)) <= alphabet;
    }
  }

  /** A digit `d` behind a smaller label `c`: a sorted list over these two that is not built exactly. */
  lemma CollisionIsInexact(c: Unit, d: Unit, firstId: nat)
    requires c < d && IsDigit(d)
    ensures Sorted(Collision(c, d, firstId)) && LettersOf(Collision(c, d, firstId)) <= {c, d}
    ensures !Exact(Collision(c, d, firstId), firstId)
  {
    hide Sorted, LettersOf, Built, Accepts;
    CollisionLosesWord(c, d, firstId);
    assert Collision(c, d, firstId)[2] in Collision(c, d, firstId);
  }
}
