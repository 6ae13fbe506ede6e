/**
 * The automatic annotation merge.  Three candidate sources run in a fixed
 * order over one document: exact knowledge-base matches (longest key
 * first), the per-token heuristics over the tokenizer's output, and the
 * date/time pattern matches.  A candidate is committed only if none of its
 * positions is already claimed.
 *
 * None of the three sources looks at the claimed positions when it proposes
 * a span: the key scan restarts at the end of the previous occurrence
 * whether or not that occurrence was committed, and the token cursor moves
 * the same way either way.  So each pass is specified by the list of
 * candidates it proposes, and the run is `CommitAll` over the three lists
 * in priority order.  The imperative methods below follow the loops of the
 * annotator and are proved to compute exactly that.
 */
module Merge {
  import opened Wrappers
  import opened PyStr
  import opened Labels
  import opened Heuristics
  import opened KeyOrder
  import opened Spans

  /** One tokenizer result: (word, part-of-speech flag). */
  type Token = (string, string)

  /** A pattern match: the [start, end) of the matched text. */
  type Match = (int, int)

  /** No knowledge-base key is empty; an empty key would make the key scan loop forever. */
  ghost predicate NonEmptyKeys(entries: seq<Entry>)
  {
    forall i :: 0 <= i < |entries| ==> entries[i].0 != []
  }

  /** The entries come from a dictionary: each key once. */
  ghost predicate DistinctKeys(entries: seq<Entry>)
  {
    forall i, j :: 0 <= i < j < |entries| ==> entries[i].0 != entries[j].0
  }

  /** The key set of the knowledge-base dictionary. */
  function Keys(entries: seq<Entry>): set<string>
  {
    set i | 0 <= i < |entries| :: entries[i].0
  }

  /** The dictionary `{text: label}` built from the entries in order. */
  function ToDict(entries: seq<Entry>): map<string, string>
  {
    if entries == [] then map[]
    else ToDict(entries[..|entries| - 1])[entries[|entries| - 1].0 := entries[|entries| - 1].1]
  }

  /** Every match lies inside the document. */
  ghost predicate InBounds(content: string, matches: seq<Match>)
  {
    forall i :: 0 <= i < |matches| ==> 0 <= matches[i].0 <= matches[i].1 <= |content|
  }

  /** What the pattern engine's left-to-right scan yields: matches inside the
      document, in increasing order, never overlapping. */
  ghost predicate WellFormedMatches(content: string, matches: seq<Match>)
  {
    && InBounds(content, matches)
    && forall i, j :: 0 <= i < j < |matches| ==> matches[i].1 <= matches[j].0
  }

  // ---------------------------------------------------------------------
  // Pass 1: the knowledge base
  // ---------------------------------------------------------------------

  /** The candidate for an occurrence of knowledge-base key `key` at `at`. */
  function KbCandidate(key: string, labelText: string, at: int): Annotation
  {
    Annotation(TagTypeFor(labelText), at, at + |key|, key, labelText)
  }

  /** The occurrences the `while True` loop of one key stops at, left to
      right, each search starting at the end of the previous occurrence. */
  function KeyCandidates(content: string, key: string, labelText: string, start: nat): seq<Annotation>
    requires key != []
    decreases |content| - start
  {
    var found := Find(content, key, start);
    if found == -1 then []
    else [KbCandidate(key, labelText, found)] + KeyCandidates(content, key, labelText, found + |key|)
  }

  /** One round of the key scan: the occurrence found, then the scan from its end. */
  lemma KeyCandidatesStep(content: string, key: string, labelText: string, start: nat, found: int)
    requires key != []
    requires found == Find(content, key, start)
    ensures found == -1 ==> KeyCandidates(content, key, labelText, start) == []
    ensures found != -1 ==> found + |key| <= |content|
    ensures found != -1 ==>
              KeyCandidates(content, key, labelText, start) ==
              [KbCandidate(key, labelText, found)] + KeyCandidates(content, key, labelText, found + |key|)
  {
  }

  /** The candidates of the knowledge-base pass over the entries in the order given. */
  function KbCandidates(content: string, entries: seq<Entry>): seq<Annotation>
    requires NonEmptyKeys(entries)
  {
    if entries == [] then []
    else KeyCandidates(content, entries[0].0, entries[0].1, 0) + KbCandidates(content, entries[1..])
  }

  // ---------------------------------------------------------------------
  // Pass 2: the tokenizer heuristics
  // ---------------------------------------------------------------------

  /** Where `current_index` goes after a token.  A knowledge-base word moves
      it past the word's occurrence, or to -1 when the word is not found; any
      other word moves it past its occurrence, or by its length when it is
      not found. */
  function NextCursor(content: string, kbKeys: set<string>, word: string, cursor: int): int
  {
    var found := Find(content, word, cursor);
    if found != -1 then found + |word|
    else if word in kbKeys then -1
    else cursor + |word|
  }

  /** The span a token proposes: none for a knowledge-base word; otherwise
      the word's occurrence from the cursor on, with the label the rules
      give it, when it has a label and was found. */
  function TokenCandidate(content: string, kbKeys: set<string>, token: Token, score: Scorer, cursor: int): Option<Annotation>
  {
    var (word, flag) := token;
    if word in kbKeys then None
    else
      var cand := Classify(word, flag, score);
      var start := Find(content, word, cursor);
      if cand.Some? && start != -1
      then Some(Annotation(cand.value.tagType, start, start + |word|, word, cand.value.labelText))
      else None
  }

  /** The candidates of the heuristic pass over the token stream, from cursor `cursor`. */
  function HeuristicCandidates(content: string, kbKeys: set<string>, tokens: seq<Token>, score: Scorer,
                               cursor: int): seq<Annotation>
  {
    if tokens == [] then []
    else
      var rest := HeuristicCandidates(content, kbKeys, tokens[1..], score, NextCursor(content, kbKeys, tokens[0].0, cursor));
      match TokenCandidate(content, kbKeys, tokens[0], score, cursor)
      case Some(a) => [a] + rest
      case None => rest
  }

  // ---------------------------------------------------------------------
  // Pass 3: the date/time patterns
  // ---------------------------------------------------------------------

  /** The candidate for a pattern match: the matched text, labelled as a time. */
  function TimeSpan(content: string, m: Match): Annotation
    requires 0 <= m.0 <= m.1 <= |content|
  {
    Annotation(NAMED_ENTITY, m.0, m.1, content[m.0..m.1], TIME)
  }

  lemma InBoundsTail(content: string, matches: seq<Match>)
    requires InBounds(content, matches) && matches != []
    ensures InBounds(content, matches[1..])
  {
    forall i | 0 <= i < |matches[1..]| ensures 0 <= matches[1..][i].0 <= matches[1..][i].1 <= |content| {
      assert matches[1..][i] == matches[i + 1];
    }
  }

  /** The candidates of the temporal pass, one per match, in match order. */
  function TimeCandidates(content: string, matches: seq<Match>): seq<Annotation>
    requires InBounds(content, matches)
  {
    if matches == [] then []
    else
      InBoundsTail(content, matches);
      [TimeSpan(content, matches[0])] + TimeCandidates(content, matches[1..])
  }

  // ---------------------------------------------------------------------
  // The whole run
  // ---------------------------------------------------------------------

  lemma SortedKeysNonEmpty(entries: seq<Entry>)
    requires NonEmptyKeys(entries)
    ensures NonEmptyKeys(SortByLength(entries))
  {
    var sorted := SortByLength(entries);
    forall i | 0 <= i < |sorted| ensures sorted[i].0 != [] {
      assert sorted[i] in multiset(entries);
    }
  }

  /** The state after the knowledge-base pass, from nothing claimed. */
  function AfterKb(content: string, kb: seq<Entry>): MergeState
    requires NonEmptyKeys(kb)
  {
    SortedKeysNonEmpty(kb);
    CommitAll(Empty, KbCandidates(content, SortByLength(kb)))
  }

  /** The state after the heuristic pass. */
  function AfterHeuristics(content: string, kb: seq<Entry>, tokens: seq<Token>, score: Scorer): MergeState
    requires NonEmptyKeys(kb)
  {
    CommitAll(AfterKb(content, kb), HeuristicCandidates(content, Keys(kb), tokens, score, 0))
  }

  /** The annotations of one automatic run over `content`, given the
      knowledge-base snapshot (its entries in table order), the tokenizer
      output, the scorer and the pattern matches. */
  function AutoAnnotateSpec(content: string, kb: seq<Entry>, tokens: seq<Token>, score: Scorer,
                            matches: seq<Match>): MergeState
    requires NonEmptyKeys(kb)
    requires InBounds(content, matches)
  {
    CommitAll(AfterHeuristics(content, kb, tokens, score), TimeCandidates(content, matches))
  }

  // ---------------------------------------------------------------------
  // The annotator's loops
  // ---------------------------------------------------------------------

  /** One round of the key loop, as a step of the fold. */
  lemma CommitKeyStep(st: MergeState, content: string, key: string, labelText: string, start: nat, found: int)
    requires key != []
    requires found == Find(content, key, start)
    ensures found == -1 ==> CommitAll(st, KeyCandidates(content, key, labelText, start)) == st
    ensures found != -1 ==> start <= found && found + |key| <= |content|
    ensures found != -1 ==>
              CommitAll(st, KeyCandidates(content, key, labelText, start)) ==
              CommitAll(TryCommit(st, KbCandidate(key, labelText, found)), KeyCandidates(content, key, labelText, found + |key|))
  {
    KeyCandidatesStep(content, key, labelText, start, found);
    if found != -1 {
      CommitAllCons(st, KbCandidate(key, labelText, found), KeyCandidates(content, key, labelText, found + |key|));
    }
  }

  /** The `while True` loop for one knowledge-base key: `find` from the end
      of the previous occurrence, commit the occurrence if it is free, stop
      when `find` answers -1. */
  method CommitKey(content: string, key: string, labelText: string, anns0: seq<Annotation>, claimed0: set<int>)
    returns (anns: seq<Annotation>, claimed: set<int>)
    requires key != []
    ensures MergeState(anns, claimed) == CommitAll(MergeState(anns0, claimed0), KeyCandidates(content, key, labelText, 0))
  {
    anns, claimed := anns0, claimed0;
    ghost var target := CommitAll(MergeState(anns0, claimed0), KeyCandidates(content, key, labelText, 0));
    var start := 0;
    while true
      invariant 0 <= start <= |content|
      invariant CommitAll(MergeState(anns, claimed), KeyCandidates(content, key, labelText, start)) == target
      decreases |content| - start
    {
      var found := Find(content, key, start);
      CommitKeyStep(MergeState(anns, claimed), content, key, labelText, start, found);
      if found == -1 {
        break;
      }
      ghost var st' := TryCommit(MergeState(anns, claimed), KbCandidate(key, labelText, found));
      var end := found + |key|;
      if !Overlaps(claimed, found, end) {
        anns := anns + [Annotation(TagTypeFor(labelText), found, end, key, labelText)];
        claimed := claimed + Range(found, end);
      }
      assert MergeState(anns, claimed) == st';
      start := end;
    }
  }

  /** Pass 1 as the annotator runs it: the key loop for each entry, longest key first. */
  method CommitKnowledgeBase(content: string, sorted: seq<Entry>, anns0: seq<Annotation>, claimed0: set<int>)
    returns (anns: seq<Annotation>, claimed: set<int>)
    requires NonEmptyKeys(sorted)
    ensures MergeState(anns, claimed) == CommitAll(MergeState(anns0, claimed0), KbCandidates(content, sorted))
  {
    anns, claimed := anns0, claimed0;
    ghost var target := CommitAll(MergeState(anns0, claimed0), KbCandidates(content, sorted));
    for i := 0 to |sorted|
      invariant CommitAll(MergeState(anns, claimed), KbCandidates(content, sorted[i..])) == target
    {
      var (key, labelText) := sorted[i];
      assert sorted[i..][1..] == sorted[i + 1..];
      CommitAllAppend(MergeState(anns, claimed), KeyCandidates(content, key, labelText, 0), KbCandidates(content, sorted[i + 1..]));
      anns, claimed := CommitKey(content, key, labelText, anns, claimed);
    }
  }

  /** Commit the candidate a token proposes, if it proposes one. */
  function CommitOption(st: MergeState, cand: Option<Annotation>): MergeState
  {
    match cand
    case None => st
    case Some(a) => TryCommit(st, a)
  }

  /** One token of the heuristic pass, as a step of the fold: its candidate,
      if any, then the rest of the stream from the moved cursor. */
  lemma CommitTokenStep(st: MergeState, content: string, kbKeys: set<string>, tokens: seq<Token>, score: Scorer, cursor: int)
    requires tokens != []
    ensures CommitAll(st, HeuristicCandidates(content, kbKeys, tokens, score, cursor)) ==
            CommitAll(CommitOption(st, TokenCandidate(content, kbKeys, tokens[0], score, cursor)),
                      HeuristicCandidates(content, kbKeys, tokens[1..], score, NextCursor(content, kbKeys, tokens[0].0, cursor)))
  {
    var rest := HeuristicCandidates(content, kbKeys, tokens[1..], score, NextCursor(content, kbKeys, tokens[0].0, cursor));
    var tc := TokenCandidate(content, kbKeys, tokens[0], score, cursor);
    if tc.Some? {
      assert HeuristicCandidates(content, kbKeys, tokens, score, cursor) == [tc.value] + rest;
      CommitAllCons(st, tc.value, rest);
    }
  }

  /** Pass 2 as the annotator runs it: one loop over the tokens with a
      forward `current_index` cursor. */
  method CommitHeuristics(content: string, kbKeys: set<string>, tokens: seq<Token>, score: Scorer,
                          anns0: seq<Annotation>, claimed0: set<int>)
    returns (anns: seq<Annotation>, claimed: set<int>)
    ensures MergeState(anns, claimed) ==
            CommitAll(MergeState(anns0, claimed0), HeuristicCandidates(content, kbKeys, tokens, score, 0))
  {
    anns, claimed := anns0, claimed0;
    ghost var target := CommitAll(MergeState(anns0, claimed0), HeuristicCandidates(content, kbKeys, tokens, score, 0));
    var currentIndex := 0;
    for k := 0 to |tokens|
      invariant CommitAll(MergeState(anns, claimed), HeuristicCandidates(content, kbKeys, tokens[k..], score, currentIndex)) == target
    {
      assert tokens[k..][0] == tokens[k] && tokens[k..][1..] == tokens[k + 1..];
      CommitTokenStep(MergeState(anns, claimed), content, kbKeys, tokens[k..], score, currentIndex);
      ghost var tc := TokenCandidate(content, kbKeys, tokens[k], score, currentIndex);
      ghost var next := NextCursor(content, kbKeys, tokens[k].0, currentIndex);
      ghost var st' := CommitOption(MergeState(anns, claimed), tc);
      var (word, flag) := tokens[k];
      if word in kbKeys {
        currentIndex := Find(content, word, currentIndex);
        if currentIndex != -1 {
          currentIndex := currentIndex + |word|;
        }
        assert currentIndex == next && MergeState(anns, claimed) == st';
        continue;
      }
      var cand := Classify(word, flag, score);
      var start := Find(content, word, currentIndex);
      if cand.Some? && start != -1 {
        var end := start + |word|;
        var a := Annotation(cand.value.tagType, start, end, word, cand.value.labelText);
        assert tc == Some(a);
        if !Overlaps(claimed, start, end) {
          anns := anns + [a];
          claimed := claimed + Range(start, end);
        }
      } else {
        assert tc == None;
      }
      assert MergeState(anns, claimed) == st';
      if start != -1 {
        currentIndex := start + |word|;
      } else {
        currentIndex := currentIndex + |word|;
      }
      assert currentIndex == next;
    }
  }

  /** Pass 3 as the annotator runs it: one loop over the pattern matches. */
  method CommitTemporal(content: string, matches: seq<Match>, anns0: seq<Annotation>, claimed0: set<int>)
    returns (anns: seq<Annotation>, claimed: set<int>)
    requires InBounds(content, matches)
    ensures MergeState(anns, claimed) == CommitAll(MergeState(anns0, claimed0), TimeCandidates(content, matches))
  {
    anns, claimed := anns0, claimed0;
    ghost var target := CommitAll(MergeState(anns0, claimed0), TimeCandidates(content, matches));
    for k := 0 to |matches|
      invariant InBounds(content, matches[k..])
      invariant CommitAll(MergeState(anns, claimed), TimeCandidates(content, matches[k..])) == target
    {
      assert matches[k..][1..] == matches[k + 1..];
      InBoundsTail(content, matches[k..]);
      var (start, end) := matches[k];
      var dateText := content[start..end];
      CommitAllCons(MergeState(anns, claimed), TimeSpan(content, matches[k]), TimeCandidates(content, matches[k + 1..]));
      if !Overlaps(claimed, start, end) {
        anns := anns + [Annotation(NAMED_ENTITY, start, end, dateText, TIME)];
        claimed := claimed + Range(start, end);
      }
    }
  }

  /** The automatic merge: one claimed set shared by the three passes, in
      priority order.  The result is the whole specified run, its spans are
      anchored in the text and no two of them share a position. */
  method AutoAnnotate(content: string, kb: seq<Entry>, tokens: seq<Token>, score: Scorer,
                      matches: seq<Match>) returns (anns: seq<Annotation>)
    requires NonEmptyKeys(kb)
    requires WellFormedMatches(content, matches)
    ensures anns == AutoAnnotateSpec(content, kb, tokens, score, matches).anns
    ensures PairwiseDisjoint(anns)
    ensures forall i :: 0 <= i < |anns| ==> Anchored(content, anns[i])
  {
    var claimed: set<int> := {};
    anns := [];
    var sorted := SortByLength(kb);
    SortedKeysNonEmpty(kb);
    anns, claimed := CommitKnowledgeBase(content, sorted, anns, claimed);
    var kbKeys := Keys(kb);
    anns, claimed := CommitHeuristics(content, kbKeys, tokens, score, anns, claimed);
    anns, claimed := CommitTemporal(content, matches, anns, claimed);
    AutoAnnotateConsistent(content, kb, tokens, score, matches);
  }

  // ---------------------------------------------------------------------
  // What each source proposes
  // ---------------------------------------------------------------------

  /** A span for knowledge-base key `key` with label `labelText`. */
  ghost predicate FromKey(a: Annotation, key: string, labelText: string)
  {
    a.text == key && a.labelText == labelText && a.tagType == TagTypeFor(labelText)
  }

  /** A span the knowledge-base pass can have produced from `entries`. */
  ghost predicate KbOrigin(a: Annotation, entries: seq<Entry>)
  {
    exists j :: 0 <= j < |entries| && FromKey(a, entries[j].0, entries[j].1)
  }

  /** A span the heuristic pass can have produced: the word of some token
      that is not a knowledge-base word, with the candidate the rules give it. */
  ghost predicate HeuristicOrigin(a: Annotation, kbKeys: set<string>, tokens: seq<Token>, score: Scorer)
  {
    && a.text !in kbKeys
    && exists t :: 0 <= t < |tokens| && tokens[t].0 == a.text &&
                   Classify(tokens[t].0, tokens[t].1, score) == Some(Candidate(a.tagType, a.labelText))
  }

  /** A span the temporal pass can have produced: one of the matches, labelled as a time. */
  ghost predicate TimeOrigin(a: Annotation, matches: seq<Match>)
  {
    && a.tagType == NAMED_ENTITY && a.labelText == TIME
    && exists j :: 0 <= j < |matches| && matches[j] == (a.start, a.end)
  }

  /** Every occurrence the key scan proposes is the key itself at or after
      `start`, labelled with the key's label. */
  lemma {:induction false} KeyCandidateAt(content: string, key: string, labelText: string, start: nat, i: nat)
    requires key != []
    requires i < |KeyCandidates(content, key, labelText, start)|
    ensures start <= KeyCandidates(content, key, labelText, start)[i].start
    ensures Anchored(content, KeyCandidates(content, key, labelText, start)[i])
    ensures FromKey(KeyCandidates(content, key, labelText, start)[i], key, labelText)
    decreases |content| - start
  {
    var found := Find(content, key, start);
    KeyCandidatesStep(content, key, labelText, start, found);
    if i == 0 {
      FindFirst(content, key, start);
      OccursAtSlice(content, key, found);
    } else {
      KeyCandidateAt(content, key, labelText, found + |key|, i - 1);
    }
  }

  /** Each occurrence the key scan proposes lies wholly after the one before it. */
  lemma {:induction false} KeyCandidatesInOrder(content: string, key: string, labelText: string, start: nat)
    requires key != []
    ensures InTextOrder(KeyCandidates(content, key, labelText, start))
    decreases |content| - start
  {
    var found := Find(content, key, start);
    KeyCandidatesStep(content, key, labelText, start, found);
    if found != -1 {
      var rest := KeyCandidates(content, key, labelText, found + |key|);
      KeyCandidatesInOrder(content, key, labelText, found + |key|);
      forall k | 0 <= k < |rest| ensures found + |key| <= rest[k].start {
        KeyCandidateAt(content, key, labelText, found + |key|, k);
      }
      InTextOrderCons(KbCandidate(key, labelText, found), rest);
    }
  }

  /** The key scan is the greedy leftmost one: every occurrence of the key at
      or after `start` begins inside an occurrence the scan stopped at. */
  lemma {:induction false} KeyCandidatesCover(content: string, key: string, labelText: string, start: nat, j: int)
    returns (i: nat)
    requires key != []
    requires start <= j && OccursAt(content, key, j)
    ensures i < |KeyCandidates(content, key, labelText, start)|
    ensures KeyCandidates(content, key, labelText, start)[i].start <= j < KeyCandidates(content, key, labelText, start)[i].end
    decreases |content| - start
  {
    FindFirst(content, key, start);
    var found := Find(content, key, start);
    var rest := KeyCandidates(content, key, labelText, found + |key|);
    var r := [KbCandidate(key, labelText, found)] + rest;
    assert r == KeyCandidates(content, key, labelText, start);
    if j >= found + |key| {
      var k := KeyCandidatesCover(content, key, labelText, found + |key|, j);
      i := k + 1;
      assert r[i] == rest[k];
    } else {
      i := 0;
    }
  }

  /** Every knowledge-base candidate is anchored and comes from one of the entries. */
  lemma {:induction false} KbCandidateAt(content: string, entries: seq<Entry>, i: nat) returns (j: nat)
    requires NonEmptyKeys(entries)
    requires i < |KbCandidates(content, entries)|
    ensures Anchored(content, KbCandidates(content, entries)[i])
    ensures j < |entries| && FromKey(KbCandidates(content, entries)[i], entries[j].0, entries[j].1)
  {
    var first := KeyCandidates(content, entries[0].0, entries[0].1, 0);
    var rest := KbCandidates(content, entries[1..]);
    assert KbCandidates(content, entries) == first + rest;
    if i < |first| {
      KeyCandidateAt(content, entries[0].0, entries[0].1, 0, i);
      j := 0;
    } else {
      assert NonEmptyKeys(entries[1..]) by {
        forall k | 0 <= k < |entries[1..]| ensures entries[1..][k].0 != [] { assert entries[1..][k] == entries[k + 1]; }
      }
      var k := KbCandidateAt(content, entries[1..], i - |first|);
      assert entries[1..][k] == entries[k + 1];
      j := k + 1;
    }
  }

  lemma KbCandidatesFacts(content: string, entries: seq<Entry>)
    requires NonEmptyKeys(entries)
    ensures forall i :: 0 <= i < |KbCandidates(content, entries)| ==>
              Anchored(content, KbCandidates(content, entries)[i]) && KbOrigin(KbCandidates(content, entries)[i], entries)
  {
    forall i | 0 <= i < |KbCandidates(content, entries)|
      ensures Anchored(content, KbCandidates(content, entries)[i]) && KbOrigin(KbCandidates(content, entries)[i], entries)
    {
      var j := KbCandidateAt(content, entries, i);
    }
  }

  /** A token's span, when it has one, is the first occurrence of its word
      at or after the cursor, the word is no knowledge-base key, and the
      span carries the label the rules give the token. */
  lemma TokenCandidateFacts(content: string, kbKeys: set<string>, token: Token, score: Scorer, cursor: int)
    requires TokenCandidate(content, kbKeys, token, score, cursor).Some?
    ensures var a := TokenCandidate(content, kbKeys, token, score, cursor).value;
            && Anchored(content, a) && a.text == token.0 && token.0 !in kbKeys
            && Classify(token.0, token.1, score) == Some(Candidate(a.tagType, a.labelText))
            && ClampStart(|content|, cursor) <= a.start
            && forall j :: ClampStart(|content|, cursor) <= j < a.start ==> !OccursAt(content, token.0, j)
  {
    FindFirst(content, token.0, cursor);
    var start := Find(content, token.0, cursor);
    OccursAtSlice(content, token.0, start);
  }

  lemma {:induction false} HeuristicCandidatesFacts(content: string, kbKeys: set<string>, tokens: seq<Token>,
                                                    score: Scorer, cursor: int)
    ensures forall i :: 0 <= i < |HeuristicCandidates(content, kbKeys, tokens, score, cursor)| ==>
              var a := HeuristicCandidates(content, kbKeys, tokens, score, cursor)[i];
              Anchored(content, a) && HeuristicOrigin(a, kbKeys, tokens, score)
  {
    if tokens != [] {
      var cursor' := NextCursor(content, kbKeys, tokens[0].0, cursor);
      var rest := HeuristicCandidates(content, kbKeys, tokens[1..], score, cursor');
      HeuristicCandidatesFacts(content, kbKeys, tokens[1..], score, cursor');
      var r := HeuristicCandidates(content, kbKeys, tokens, score, cursor);
      var tc := TokenCandidate(content, kbKeys, tokens[0], score, cursor);
      if tc.Some? {
        TokenCandidateFacts(content, kbKeys, tokens[0], score, cursor);
        assert r == [tc.value] + rest;
      } else {
        assert r == rest;
      }
      forall i | 0 <= i < |r| ensures Anchored(content, r[i]) && HeuristicOrigin(r[i], kbKeys, tokens, score) {
        if tc.Some? && i == 0 {
          assert r[i] == tc.value;
        } else {
          var k := if tc.Some? then i - 1 else i;
          assert r[i] == rest[k];
          var t :| 0 <= t < |tokens[1..]| && tokens[1..][t].0 == r[i].text &&
                   Classify(tokens[1..][t].0, tokens[1..][t].1, score) == Some(Candidate(r[i].tagType, r[i].labelText));
          assert tokens[1..][t] == tokens[t + 1];
        }
      }
    }
  }

  lemma {:induction false} TimeCandidatesFacts(content: string, matches: seq<Match>)
    requires InBounds(content, matches)
    ensures |TimeCandidates(content, matches)| == |matches|
    ensures forall i :: 0 <= i < |matches| ==>
              var a := TimeCandidates(content, matches)[i];
              Anchored(content, a) && a.tagType == NAMED_ENTITY && a.labelText == TIME && (a.start, a.end) == matches[i]
  {
    if matches != [] {
      InBoundsTail(content, matches);
      TimeCandidatesFacts(content, matches[1..]);
      var r := TimeCandidates(content, matches);
      forall i | 0 <= i < |matches|
        ensures Anchored(content, r[i]) && r[i].tagType == NAMED_ENTITY && r[i].labelText == TIME && (r[i].start, r[i].end) == matches[i]
      {
        if i > 0 { assert r[i] == TimeCandidates(content, matches[1..])[i - 1] && matches[i] == matches[1..][i - 1]; }
      }
    }
  }

  // ---------------------------------------------------------------------
  // The run as a whole
  // ---------------------------------------------------------------------

  /** The whole run: the final spans are anchored in the text, pairwise
      disjoint, and the claimed set is exactly their union; the passes only
      ever add, so the result lists the knowledge-base spans, then the
      heuristic spans, then the time spans, each from its own source. */
  lemma AutoAnnotateConsistent(content: string, kb: seq<Entry>, tokens: seq<Token>, score: Scorer, matches: seq<Match>)
    requires NonEmptyKeys(kb)
    requires InBounds(content, matches)
    ensures Consistent(content, AutoAnnotateSpec(content, kb, tokens, score, matches))
    ensures Extends(AfterKb(content, kb), AfterHeuristics(content, kb, tokens, score))
    ensures Extends(AfterHeuristics(content, kb, tokens, score), AutoAnnotateSpec(content, kb, tokens, score, matches))
    ensures forall i :: 0 <= i < |AfterKb(content, kb).anns| ==>
              KbOrigin(AfterKb(content, kb).anns[i], SortByLength(kb))
    ensures forall i :: |AfterKb(content, kb).anns| <= i < |AfterHeuristics(content, kb, tokens, score).anns| ==>
              HeuristicOrigin(AfterHeuristics(content, kb, tokens, score).anns[i], Keys(kb), tokens, score)
    ensures forall i :: |AfterHeuristics(content, kb, tokens, score).anns| <= i < |AutoAnnotateSpec(content, kb, tokens, score, matches).anns| ==>
              TimeOrigin(AutoAnnotateSpec(content, kb, tokens, score, matches).anns[i], matches)
  {
    SortedKeysNonEmpty(kb);
    var kbC := KbCandidates(content, SortByLength(kb));
    var heurC := HeuristicCandidates(content, Keys(kb), tokens, score, 0);
    var timeC := TimeCandidates(content, matches);
    var s1, s2, s3 := AfterKb(content, kb), AfterHeuristics(content, kb, tokens, score),
                      AutoAnnotateSpec(content, kb, tokens, score, matches);
    KbCandidatesFacts(content, SortByLength(kb));
    HeuristicCandidatesFacts(content, Keys(kb), tokens, score, 0);
    TimeCandidatesFacts(content, matches);
    EmptyConsistent(content);
    CommitAllConsistent(content, Empty, kbC);
    CommitAllConsistent(content, s1, heurC);
    CommitAllConsistent(content, s2, timeC);
    CommitAllAppends(Empty, kbC);
    CommitAllAppends(s1, heurC);
    CommitAllAppends(s2, timeC);
    forall i | 0 <= i < |s1.anns| ensures KbOrigin(s1.anns[i], SortByLength(kb)) {
      var c :| c in kbC && c == s1.anns[i];
    }
    forall i | |s1.anns| <= i < |s2.anns| ensures HeuristicOrigin(s2.anns[i], Keys(kb), tokens, score) {
      var c :| c in heurC && c == s2.anns[i];
    }
    forall i | |s2.anns| <= i < |s3.anns| ensures TimeOrigin(s3.anns[i], matches) {
      var k :| 0 <= k < |timeC| && timeC[k] == s3.anns[i];
    }
  }
}
