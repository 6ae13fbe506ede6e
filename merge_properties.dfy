/**
 * Further properties of the automatic merge: knowledge-base spans carry the
 * dictionary's labels, the first (longest) key gets every one of its
 * left-to-right occurrences, knowledge-base spans survive the later passes,
 * the temporal pass commits exactly the matches that touch nothing already
 * claimed, and what the token cursor does after a knowledge-base word it
 * cannot find.
 */
module MergeProperties {
  import opened Wrappers
  import opened PyStr
  import opened Labels
  import opened Heuristics
  import opened KeyOrder
  import opened Spans
  import opened Merge

  // ---------------------------------------------------------------------
  // Knowledge-base spans and the dictionary
  // ---------------------------------------------------------------------

  /** The key set grows by the last entry's key. */
  lemma KeysSnoc(entries: seq<Entry>)
    requires entries != []
    ensures Keys(entries) == Keys(entries[..|entries| - 1]) + {entries[|entries| - 1].0}
  {
    var init := entries[..|entries| - 1];
    forall k | k in Keys(entries) ensures k in Keys(init) + {entries[|entries| - 1].0} {
      var i :| 0 <= i < |entries| && entries[i].0 == k;
      if i < |init| { assert init[i] == entries[i]; }
    }
    forall k | k in Keys(init) ensures k in Keys(entries) {
      var i :| 0 <= i < |init| && init[i].0 == k;
      assert entries[i] == init[i];
    }
  }

  /** Dropping the last entry keeps the keys distinct. */
  lemma DistinctKeysInit(entries: seq<Entry>)
    requires DistinctKeys(entries) && entries != []
    ensures DistinctKeys(entries[..|entries| - 1])
  {
    var init := entries[..|entries| - 1];
    forall i, j | 0 <= i < j < |init| ensures init[i].0 != init[j].0 {
      assert init[i] == entries[i] && init[j] == entries[j];
    }
  }

  /** Each entry's key is in the key set. */
  lemma KeyIn(entries: seq<Entry>, j: nat)
    requires j < |entries|
    ensures entries[j].0 in Keys(entries)
  {
  }

  /** With distinct keys, no earlier entry has the last entry's key. */
  lemma LastKeyFresh(entries: seq<Entry>, j: nat)
    requires DistinctKeys(entries)
    requires j < |entries| - 1
    ensures entries[j].0 != entries[|entries| - 1].0
  {
  }

  /** The dictionary's keys are the entries' keys. */
  lemma {:induction false} ToDictKeys(entries: seq<Entry>)
    ensures ToDict(entries).Keys == Keys(entries)
    decreases |entries|
  {
    if entries != [] {
      ToDictKeys(entries[..|entries| - 1]);
      KeysSnoc(entries);
    }
  }

  /** With distinct keys, the dictionary maps each key to its own label. */
  lemma {:induction false} ToDictOfDistinct(entries: seq<Entry>)
    requires DistinctKeys(entries)
    ensures ToDict(entries).Keys == Keys(entries)
    ensures forall j :: 0 <= j < |entries| ==> ToDict(entries)[entries[j].0] == entries[j].1
    decreases |entries|
  {
    ToDictKeys(entries);
    if entries != [] {
      var init := entries[..|entries| - 1];
      DistinctKeysInit(entries);
      ToDictOfDistinct(init);
      forall j | 0 <= j < |init| ensures ToDict(entries)[entries[j].0] == entries[j].1 {
        LastKeyFresh(entries, j);
        assert entries[j] == init[j];
        KeyIn(init, j);
      }
    }
  }

  /** Every span of the knowledge-base pass is an occurrence of a dictionary
      key with that key's label, and it is a named entity exactly when the
      label is one of 人名, 地名, 组织, 时间. */
  lemma KbSpansUseDictionary(content: string, kb: seq<Entry>)
    requires NonEmptyKeys(kb)
    requires DistinctKeys(kb)
    ensures forall i :: 0 <= i < |AfterKb(content, kb).anns| ==>
              var a := AfterKb(content, kb).anns[i];
              && a.text in ToDict(kb) && a.labelText == ToDict(kb)[a.text]
              && Anchored(content, a)
              && (a.tagType == NAMED_ENTITY <==> a.labelText in ENTITY_LABELS)
  {
    AutoAnnotateConsistent(content, kb, [], w => None, []);
    ToDictOfDistinct(kb);
    var sorted := SortByLength(kb);
    forall i | 0 <= i < |AfterKb(content, kb).anns|
      ensures AfterKb(content, kb).anns[i].text in ToDict(kb)
      ensures AfterKb(content, kb).anns[i].labelText == ToDict(kb)[AfterKb(content, kb).anns[i].text]
    {
      var a := AfterKb(content, kb).anns[i];
      var j :| 0 <= j < |sorted| && FromKey(a, sorted[j].0, sorted[j].1);
      assert sorted[j] in multiset(kb);
      var j' :| 0 <= j' < |kb| && kb[j'] == sorted[j];
    }
  }

  // ---------------------------------------------------------------------
  // Longest-match precedence
  // ---------------------------------------------------------------------

  /** Nothing claimed: every candidate is free. */
  lemma {:induction false} FreeOfNothing(cands: seq<Annotation>)
    ensures FreeOf({}, cands) == cands
  {
    if cands != [] {
      FreeOfNothing(cands[1..]);
    }
  }

  /** The first key of the sorted order is a longest key. */
  lemma SortedFirstIsLongest(kb: seq<Entry>)
    requires kb != []
    ensures |SortByLength(kb)| == |kb|
    ensures forall j :: 0 <= j < |kb| ==> |kb[j].0| <= |SortByLength(kb)[0].0|
  {
    var sorted := SortByLength(kb);
    forall j | 0 <= j < |kb| ensures |kb[j].0| <= |sorted[0].0| {
      assert kb[j] in multiset(sorted);
      var i :| 0 <= i < |sorted| && sorted[i] == kb[j];
    }
  }

  /** Run over the entries in order from nothing claimed, the key scan of the
      first entry commits every occurrence it stops at, ahead of all other spans. */
  lemma FirstKeyOpensThePass(content: string, entries: seq<Entry>)
    requires NonEmptyKeys(entries)
    requires entries != []
    ensures var first := KeyCandidates(content, entries[0].0, entries[0].1, 0);
            var after := CommitAll(Empty, KbCandidates(content, entries));
            |first| <= |after.anns| && after.anns[..|first|] == first
  {
    var first := KeyCandidates(content, entries[0].0, entries[0].1, 0);
    assert NonEmptyKeys(entries[1..]) by {
      forall i | 0 <= i < |entries[1..]| ensures entries[1..][i].0 != [] { assert entries[1..][i] == entries[i + 1]; }
    }
    var rest := KbCandidates(content, entries[1..]);
    assert KbCandidates(content, entries) == first + rest;
    CommitAllAppend(Empty, first, rest);
    KeyCandidatesInOrder(content, entries[0].0, entries[0].1, 0);
    CommitAllInTextOrder(Empty, first);
    FreeOfNothing(first);
    CommitAllAppends(CommitAll(Empty, first), rest);
  }

  /** Longest-match precedence: the first key in the sorted order is a
      longest key, every occurrence its scan stops at is committed, in
      order, ahead of all other spans, and every occurrence of that key in
      the text begins inside one of them. */
  lemma LongestKeyClaimsAllItsOccurrences(content: string, kb: seq<Entry>)
    requires NonEmptyKeys(kb)
    requires kb != []
    ensures var sorted := SortByLength(kb);
            var first := KeyCandidates(content, sorted[0].0, sorted[0].1, 0);
            && (forall j :: 0 <= j < |kb| ==> |kb[j].0| <= |sorted[0].0|)
            && |first| <= |AfterKb(content, kb).anns|
            && AfterKb(content, kb).anns[..|first|] == first
    ensures var sorted := SortByLength(kb);
            forall j :: OccursAt(content, sorted[0].0, j) ==>
              exists i :: 0 <= i < |AfterKb(content, kb).anns| &&
                          FromKey(AfterKb(content, kb).anns[i], sorted[0].0, sorted[0].1) &&
                          AfterKb(content, kb).anns[i].start <= j < AfterKb(content, kb).anns[i].end
  {
    var sorted := SortByLength(kb);
    SortedFirstIsLongest(kb);
    SortedKeysNonEmpty(kb);
    FirstKeyOpensThePass(content, sorted);
    var key, labelText := sorted[0].0, sorted[0].1;
    var first := KeyCandidates(content, key, labelText, 0);
    var after := AfterKb(content, kb);
    forall j | OccursAt(content, key, j)
      ensures exists i :: 0 <= i < |after.anns| && FromKey(after.anns[i], key, labelText) &&
                          after.anns[i].start <= j < after.anns[i].end
    {
      var i := KeyCandidatesCover(content, key, labelText, 0, j);
      KeyCandidateAt(content, key, labelText, 0, i);
      assert after.anns[i] == after.anns[..|first|][i];
    }
  }

  // ---------------------------------------------------------------------
  // Priority of the passes
  // ---------------------------------------------------------------------

  /** The passes run in priority order and only ever add: the knowledge-base
      spans open the final list unchanged, followed by the heuristic spans,
      and every later span avoids every position an earlier one covers. */
  lemma EarlierPassesWin(content: string, kb: seq<Entry>, tokens: seq<Token>, score: Scorer, matches: seq<Match>)
    requires NonEmptyKeys(kb)
    requires InBounds(content, matches)
    ensures var kbAnns := AfterKb(content, kb).anns;
            var heurAnns := AfterHeuristics(content, kb, tokens, score).anns;
            var all := AutoAnnotateSpec(content, kb, tokens, score, matches).anns;
            && |kbAnns| <= |heurAnns| <= |all|
            && all[..|kbAnns|] == kbAnns
            && all[..|heurAnns|] == heurAnns
            && forall i, j :: 0 <= i < |kbAnns| <= j < |all| ==> Positions(all[i]) !! Positions(all[j])
  {
    AutoAnnotateConsistent(content, kb, tokens, score, matches);
    var s1, s2, s3 := AfterKb(content, kb), AfterHeuristics(content, kb, tokens, score),
                      AutoAnnotateSpec(content, kb, tokens, score, matches);
    ExtendsTransitive(s1, s2, s3);
  }

  // ---------------------------------------------------------------------
  // The temporal pass
  // ---------------------------------------------------------------------

  /** Well-formed pattern matches give time candidates in text order. */
  lemma TimeCandidatesInOrder(content: string, matches: seq<Match>)
    requires WellFormedMatches(content, matches)
    ensures InTextOrder(TimeCandidates(content, matches))
  {
    TimeCandidatesFacts(content, matches);
  }

  /** The temporal pass commits exactly the matches that touch no position
      claimed by the two earlier passes, in match order, each as the matched
      text labelled 时间. */
  lemma TemporalCommitsExactlyTheFreeMatches(content: string, kb: seq<Entry>, tokens: seq<Token>, score: Scorer,
                                             matches: seq<Match>)
    requires NonEmptyKeys(kb)
    requires WellFormedMatches(content, matches)
    ensures AutoAnnotateSpec(content, kb, tokens, score, matches).anns ==
            AfterHeuristics(content, kb, tokens, score).anns +
            FreeOf(AfterHeuristics(content, kb, tokens, score).claimed, TimeCandidates(content, matches))
    ensures |TimeCandidates(content, matches)| == |matches|
    ensures forall i :: 0 <= i < |matches| ==>
              TimeCandidates(content, matches)[i] ==
              Annotation(NAMED_ENTITY, matches[i].0, matches[i].1, content[matches[i].0..matches[i].1], TIME)
  {
    TimeCandidatesInOrder(content, matches);
    CommitAllInTextOrder(AfterHeuristics(content, kb, tokens, score), TimeCandidates(content, matches));
    TimeCandidatesFacts(content, matches);
  }

  // ---------------------------------------------------------------------
  // The token cursor
  // ---------------------------------------------------------------------

  /** After a knowledge-base word that `find` cannot locate, the cursor
      becomes -1, and a search from -1 starts at the last character: the
      next token is found only if it has at most one character, and then
      only at the very end of the document. */
  lemma CursorAfterMissedKbWord(content: string, kbKeys: set<string>, word: string, cursor: int, next: string)
    requires word in kbKeys
    requires Find(content, word, cursor) == -1
    ensures NextCursor(content, kbKeys, word, cursor) == -1
    ensures Find(content, next, -1) != -1 ==>
              |next| <= 1 && Find(content, next, -1) == ClampStart(|content|, -1)
  {
    FindFirst(content, next, -1);
    if |next| == 0 {
      assert OccursAt(content, next, ClampStart(|content|, -1)) by {
        MatchesFromChars(content, next, ClampStart(|content|, -1), 0);
      }
    }
  }

  /** Except after a missed knowledge-base word, the cursor value grows by at
      least the word's length; from a cursor of 0 or more this means the
      search never goes back.  From the -1 a missed knowledge-base word
      leaves, a word that is not found either sets the cursor to its length
      minus one, so the next search restarts near the start of the text. */
  lemma CursorNeverMovesBackOtherwise(content: string, kbKeys: set<string>, word: string, cursor: int)
    requires word !in kbKeys || Find(content, word, cursor) != -1
    ensures NextCursor(content, kbKeys, word, cursor) >= cursor + |word|
    ensures cursor == -1 && Find(content, word, cursor) == -1 ==> NextCursor(content, kbKeys, word, cursor) == |word| - 1
  {
  }

  /** The restart in action: after the missed knowledge-base word "zz" and
      the missed word "qq", the search for "bc" starts again at position 1,
      and the person span [1, 3) crosses the first two tokens "ab" and "cd". */
  lemma ExampleCursorRestart()
    ensures HeuristicCandidates("abcd", {"zz"}, [("ab", "x"), ("cd", "x"), ("zz", "x"), ("qq", "x"), ("bc", "nr")],
                                w => None, 0) ==
            [Annotation(NAMED_ENTITY, 1, 3, "bc", PERSON)]
  {
    var content, kbKeys, score: Scorer := "abcd", {"zz"}, w => None;
    assert Find(content, "ab", 0) == 0;
    assert Find(content, "cd", 2) == 2;
    assert Find(content, "zz", 4) == -1;
    assert Find(content, "qq", -1) == -1;
    assert Find(content, "bc", 1) == 1;
    var tokens: seq<Token> := [("ab", "x"), ("cd", "x"), ("zz", "x"), ("qq", "x"), ("bc", "nr")];
    assert HeuristicCandidates(content, kbKeys, tokens[4..], score, 1) == [Annotation(NAMED_ENTITY, 1, 3, "bc", PERSON)];
    assert HeuristicCandidates(content, kbKeys, tokens[3..], score, -1) == [Annotation(NAMED_ENTITY, 1, 3, "bc", PERSON)];
    assert HeuristicCandidates(content, kbKeys, tokens[2..], score, 4) == [Annotation(NAMED_ENTITY, 1, 3, "bc", PERSON)];
    assert HeuristicCandidates(content, kbKeys, tokens[1..], score, 2) == [Annotation(NAMED_ENTITY, 1, 3, "bc", PERSON)];
  }

  // ---------------------------------------------------------------------
  // Worked example
  // ---------------------------------------------------------------------

  /** The stable sort puts the four-character key before the two-character one. */
  lemma ExampleKeyOrder()
    ensures SortByLength([("北京", PLACE), ("北京大学", ORGANIZATION)]) == [("北京大学", ORGANIZATION), ("北京", PLACE)]
  {
  }

  /** Each key is found once in 北京大学, at the start. */
  lemma ExampleKeyScans()
    ensures KeyCandidates("北京大学", "北京大学", ORGANIZATION, 0) == [Annotation(NAMED_ENTITY, 0, 4, "北京大学", ORGANIZATION)]
    ensures KeyCandidates("北京大学", "北京", PLACE, 0) == [Annotation(NAMED_ENTITY, 0, 2, "北京", PLACE)]
  {
    var content := "北京大学";
    assert Find(content, "北京大学", 0) == 0;
    assert Find(content, "北京大学", 4) == -1;
    KeyCandidatesStep(content, "北京大学", ORGANIZATION, 0, 0);
    KeyCandidatesStep(content, "北京大学", ORGANIZATION, 4, -1);
    assert Find(content, "北京", 0) == 0;
    assert Find(content, "北京", 2) == -1;
    KeyCandidatesStep(content, "北京", PLACE, 0, 0);
    KeyCandidatesStep(content, "北京", PLACE, 2, -1);
  }

  /** The candidates of the knowledge-base pass over 北京大学, in key order. */
  lemma ExampleKbCandidates()
    ensures KbCandidates("北京大学", [("北京大学", ORGANIZATION), ("北京", PLACE)]) ==
            [Annotation(NAMED_ENTITY, 0, 4, "北京大学", ORGANIZATION), Annotation(NAMED_ENTITY, 0, 2, "北京", PLACE)]
  {
    var content := "北京大学";
    var sorted := [("北京大学", ORGANIZATION), ("北京", PLACE)];
    ExampleKeyScans();
    assert sorted[1..][1..] == [];
    assert KbCandidates(content, sorted[1..]) == [Annotation(NAMED_ENTITY, 0, 2, "北京", PLACE)] + KbCandidates(content, []);
    assert KbCandidates(content, sorted) ==
           [Annotation(NAMED_ENTITY, 0, 4, "北京大学", ORGANIZATION)] + KbCandidates(content, sorted[1..]);
  }

  /** A candidate inside a committed one is rejected. */
  lemma ExampleCommits(big: Annotation, small: Annotation)
    requires big.start <= small.start < small.end <= big.end
    ensures CommitAll(Empty, [big, small]).anns == [big]
  {
    var st1 := TryCommit(Empty, big);
    assert st1.anns == [big] && small.start in st1.claimed;
    assert TryCommit(st1, small) == st1;
    CommitAllCons(Empty, big, [small]);
    CommitAllCons(st1, small, []);
  }

  /** The knowledge-base pass over 北京大学 commits the organisation and
      rejects the place, whose positions it already claimed. */
  lemma ExampleKbPass()
    ensures AfterKb("北京大学", [("北京", PLACE), ("北京大学", ORGANIZATION)]).anns ==
            [Annotation(NAMED_ENTITY, 0, 4, "北京大学", ORGANIZATION)]
  {
    ExampleKeyOrder();
    ExampleKbCandidates();
    ExampleCommits(Annotation(NAMED_ENTITY, 0, 4, "北京大学", ORGANIZATION), Annotation(NAMED_ENTITY, 0, 2, "北京", PLACE));
  }

  /** Knowledge entries 北京 (地名) and 北京大学 (组织) over the text 北京大学,
      with no tokens and no date matches: the longer key is tried first and
      claims all four characters, so the only span is the organisation and
      no separate 北京 span is emitted. */
  lemma LongestMatchExample()
    ensures AutoAnnotateSpec("北京大学", [("北京", PLACE), ("北京大学", ORGANIZATION)], [], w => None, []).anns ==
            [Annotation(NAMED_ENTITY, 0, 4, "北京大学", ORGANIZATION)]
  {
    ExampleKbPass();
  }

  /** The knowledge base of the worked example: a place and the longer
      organisation name that contains it. */
  const PekingEntries: seq<Entry> := [("北京", PLACE), ("北京大学", ORGANIZATION)]

  /** 北京大学 cannot overlap itself: two occurrences that start within four
      characters of each other are the same occurrence. */
  lemma PekingUniversityDoesNotOverlapItself(content: string, s: int, j: int)
    requires OccursAt(content, "北京大学", s) && OccursAt(content, "北京大学", j)
    requires s <= j < s + 4
    ensures s == j
  {
    OccursAtSlice(content, "北京大学", s);
    OccursAtSlice(content, "北京大学", j);
  }

  /** In a pairwise disjoint list, no other span meets the span at `i`. */
  lemma DisjointFromTheOthers(anns: seq<Annotation>, i: nat)
    requires PairwiseDisjoint(anns) && i < |anns|
    ensures forall k :: 0 <= k < |anns| && k != i ==> Positions(anns[k]) !! Positions(anns[i])
  {
    forall k | 0 <= k < |anns| && k != i ensures Positions(anns[k]) !! Positions(anns[i]) {
      if k > i {
        assert Positions(anns[i]) !! Positions(anns[k]);
      }
    }
  }

  /** The longest key's claim survives the whole run: every occurrence of
      a longest key begins inside a span of that key which is in the final
      list, and no other span of the final list meets it. */
  lemma LongestKeySpanIsFinal(content: string, kb: seq<Entry>, tokens: seq<Token>, score: Scorer,
                              matches: seq<Match>, j: int) returns (i: nat)
    requires NonEmptyKeys(kb) && kb != []
    requires InBounds(content, matches)
    requires OccursAt(content, SortByLength(kb)[0].0, j)
    ensures var all := AutoAnnotateSpec(content, kb, tokens, score, matches).anns;
            && i < |all|
            && FromKey(all[i], SortByLength(kb)[0].0, SortByLength(kb)[0].1)
            && all[i].start <= j < all[i].end
            && Anchored(content, all[i])
            && forall k :: 0 <= k < |all| && k != i ==> Positions(all[k]) !! Positions(all[i])
  {
    var kbSt := AfterKb(content, kb);
    var heurSt := AfterHeuristics(content, kb, tokens, score);
    var final := AutoAnnotateSpec(content, kb, tokens, score, matches);
    var key, labelText := SortByLength(kb)[0].0, SortByLength(kb)[0].1;
    assert exists i :: 0 <= i < |kbSt.anns| && FromKey(kbSt.anns[i], key, labelText) &&
                       kbSt.anns[i].start <= j < kbSt.anns[i].end by {
      LongestKeyClaimsAllItsOccurrences(content, kb);
    }
    i :| 0 <= i < |kbSt.anns| && FromKey(kbSt.anns[i], key, labelText) && kbSt.anns[i].start <= j < kbSt.anns[i].end;
    assert Consistent(content, final) && Extends(kbSt, heurSt) && Extends(heurSt, final) by {
      AutoAnnotateConsistent(content, kb, tokens, score, matches);
    }
    ExtendsTransitive(kbSt, heurSt, final);
    assert final.anns[i] == kbSt.anns[i];
    DisjointFromTheOthers(final.anns, i);
  }

  /** The 北京大学 occurrence at `j` ends up as one final span over exactly
      that occurrence, for any knowledge base that tries 北京大学 (labelled
      组织) first. */
  lemma PekingUniversityFirst(content: string, kb: seq<Entry>, tokens: seq<Token>, score: Scorer,
                              matches: seq<Match>, j: int) returns (i: nat)
    requires NonEmptyKeys(kb) && kb != []
    requires SortByLength(kb)[0] == ("北京大学", ORGANIZATION)
    requires InBounds(content, matches)
    requires OccursAt(content, "北京大学", j)
    ensures var all := AutoAnnotateSpec(content, kb, tokens, score, matches).anns;
            && i < |all|
            && all[i] == Annotation(NAMED_ENTITY, j, j + 4, "北京大学", ORGANIZATION)
            && forall k :: 0 <= k < |all| && k != i ==> Positions(all[k]) !! Range(j, j + 4)
  {
    i := LongestKeySpanIsFinal(content, kb, tokens, score, matches, j);
    var a := AutoAnnotateSpec(content, kb, tokens, score, matches).anns[i];
    assert |a.text| == 4;
    OccursAtSlice(content, "北京大学", a.start);
    PekingUniversityDoesNotOverlapItself(content, a.start, j);
    assert TagTypeFor(ORGANIZATION) == NAMED_ENTITY;
  }

  /** Longest match in any document: wherever 北京大学 occurs, whatever the
      tokenizer, scorer and pattern matches, the final list holds one span
      over exactly that occurrence labelled 组织, and no other span of the
      list touches it (in particular no 北京 place span). */
  lemma LongestMatchAnywhere(content: string, tokens: seq<Token>, score: Scorer, matches: seq<Match>, j: int)
    returns (i: nat)
    requires InBounds(content, matches)
    requires OccursAt(content, "北京大学", j)
    ensures var all := AutoAnnotateSpec(content, PekingEntries, tokens, score, matches).anns;
            && i < |all|
            && all[i] == Annotation(NAMED_ENTITY, j, j + 4, "北京大学", ORGANIZATION)
            && forall k :: 0 <= k < |all| && k != i ==> Positions(all[k]) !! Range(j, j + 4)
  {
    assert NonEmptyKeys(PekingEntries);
    assert SortByLength(PekingEntries)[0] == ("北京大学", ORGANIZATION) by { ExampleKeyOrder(); }
    i := PekingUniversityFirst(content, PekingEntries, tokens, score, matches, j);
  }
}
