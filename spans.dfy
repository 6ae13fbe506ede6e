/**
 * Annotations as half-open character ranges over a document, and the
 * "claimed positions" bookkeeping that keeps the automatic annotations of a
 * document from overlapping.
 */
module Spans {

  /** One annotation row: a tag type, the range [start, end), the text it
      covers and a label. */
  datatype Annotation = Annotation(tagType: string, start: int, end: int, text: string, labelText: string)

  /** The integers in [start, end): Python's `range(start, end)` as a set. */
  function Range(start: int, end: int): (r: set<int>)
    ensures forall p :: p in r <==> start <= p < end
    decreases end - start
  {
    if start >= end then {} else {start} + Range(start + 1, end)
  }

  /** Python's `any(pos in claimed for pos in range(start, end))`. */
  predicate Overlaps(claimed: set<int>, start: int, end: int)
  {
    exists pos | start <= pos < end :: pos in claimed
  }

  /** The character positions an annotation covers. */
  function Positions(a: Annotation): set<int>
  {
    Range(a.start, a.end)
  }

  /** No character position is covered by two annotations. */
  ghost predicate PairwiseDisjoint(anns: seq<Annotation>)
  {
    forall i, j :: 0 <= i < j < |anns| ==> Positions(anns[i]) !! Positions(anns[j])
  }

  /** The union of the positions the annotations cover. */
  function Covered(anns: seq<Annotation>): set<int>
  {
    if anns == [] then {} else Covered(anns[..|anns| - 1]) + Positions(anns[|anns| - 1])
  }

  /** A position is covered exactly when some annotation's range holds it. */
  lemma {:induction false} CoveredMembers(anns: seq<Annotation>, p: int)
    ensures p in Covered(anns) <==> exists i :: 0 <= i < |anns| && anns[i].start <= p < anns[i].end
  {
    if anns != [] {
      var init := anns[..|anns| - 1];
      CoveredMembers(init, p);
      if p in Covered(init) {
        var i :| 0 <= i < |init| && init[i].start <= p < init[i].end;
        assert anns[i] == init[i];
      }
      if i :| 0 <= i < |anns| - 1 && anns[i].start <= p < anns[i].end {
        assert anns[i] == init[i];
      }
    }
  }

  /** The annotation lies inside `content` and its text is exactly the slice it covers. */
  predicate Anchored(content: string, a: Annotation)
  {
    0 <= a.start <= a.end <= |content| && a.text == content[a.start..a.end]
  }

  /** The state the automatic annotator builds: the annotations committed so
      far and the set of positions they claim. */
  datatype MergeState = MergeState(anns: seq<Annotation>, claimed: set<int>)

  const Empty: MergeState := MergeState([], {})

  /** The merge invariant: committed annotations are anchored in the text and
      pairwise disjoint, and the claimed set is exactly what they cover. */
  ghost predicate Consistent(content: string, st: MergeState)
  {
    && PairwiseDisjoint(st.anns)
    && st.claimed == Covered(st.anns)
    && forall i :: 0 <= i < |st.anns| ==> Anchored(content, st.anns[i])
  }

  /** `st'` extends `st`: nothing committed is ever removed or reordered. */
  ghost predicate Extends(st: MergeState, st': MergeState)
  {
    |st.anns| <= |st'.anns| && st'.anns[..|st.anns|] == st.anns && st.claimed <= st'.claimed
  }

  lemma ExtendsTransitive(st: MergeState, st': MergeState, st'': MergeState)
    requires Extends(st, st') && Extends(st', st'')
    ensures Extends(st, st'')
    ensures forall i :: 0 <= i < |st'.anns| ==> st''.anns[i] == st'.anns[i]
  {
    assert st''.anns[..|st.anns|] == st''.anns[..|st'.anns|][..|st.anns|];
    forall i | 0 <= i < |st'.anns| ensures st''.anns[i] == st'.anns[i] {
      assert st''.anns[..|st'.anns|][i] == st''.anns[i];
    }
  }

  /** Commit `a` unless one of its positions is already claimed; a rejected
      candidate is dropped silently. */
  function TryCommit(st: MergeState, a: Annotation): MergeState
  {
    if Overlaps(st.claimed, a.start, a.end) then st
    else MergeState(st.anns + [a], st.claimed + Range(a.start, a.end))
  }

  /** A commit only ever appends `a`, or changes nothing. */
  lemma TryCommitAppends(st: MergeState, a: Annotation)
    ensures Extends(st, TryCommit(st, a))
    ensures |TryCommit(st, a).anns| <= |st.anns| + 1
    ensures |TryCommit(st, a).anns| == |st.anns| + 1 ==> TryCommit(st, a).anns[|st.anns|] == a
  {
    assert st.anns[..|st.anns|] == st.anns;
    assert (st.anns + [a])[..|st.anns|] == st.anns;
  }

  lemma EmptyConsistent(content: string)
    ensures Consistent(content, Empty)
  {
  }

  /** A commit keeps the merge invariant. */
  lemma TryCommitConsistent(content: string, st: MergeState, a: Annotation)
    requires Consistent(content, st)
    requires Anchored(content, a)
    ensures Consistent(content, TryCommit(st, a))
  {
    if !Overlaps(st.claimed, a.start, a.end) {
      var anns := st.anns + [a];
      forall i, j | 0 <= i < j < |anns| ensures Positions(anns[i]) !! Positions(anns[j]) {
        if j == |st.anns| {
          forall p | p in Positions(anns[i]) ensures p !in Positions(a) {
            CoveredMembers(st.anns, p);
          }
        } else {
          assert anns[i] == st.anns[i] && anns[j] == st.anns[j];
        }
      }
      assert Covered(anns) == Covered(st.anns) + Positions(a) by {
        assert anns[..|anns| - 1] == st.anns;
      }
      assert forall i :: 0 <= i < |anns| ==> Anchored(content, anns[i]) by {
        forall i | 0 <= i < |anns| ensures Anchored(content, anns[i]) {
          if i < |st.anns| { assert anns[i] == st.anns[i]; }
        }
      }
      assert TryCommit(st, a) == MergeState(anns, st.claimed + Positions(a));
    } else {
      assert TryCommit(st, a) == st;
    }
  }

  /** Offer the candidates one after another, each against the positions
      claimed by the commits before it. */
  function CommitAll(st: MergeState, cands: seq<Annotation>): MergeState
    decreases |cands|
  {
    if cands == [] then st else CommitAll(TryCommit(st, cands[0]), cands[1..])
  }

  /** Offering two lists in turn is offering their concatenation. */
  lemma {:induction false} CommitAllAppend(st: MergeState, a: seq<Annotation>, b: seq<Annotation>)
    ensures CommitAll(st, a + b) == CommitAll(CommitAll(st, a), b)
    decreases |a|
  {
    if a != [] {
      assert (a + b)[1..] == a[1..] + b;
      CommitAllAppend(TryCommit(st, a[0]), a[1..], b);
    } else {
      assert a + b == b;
    }
  }

  /** After every commit of anchored candidates the merge invariant holds. */
  lemma {:induction false} CommitAllConsistent(content: string, st: MergeState, cands: seq<Annotation>)
    requires Consistent(content, st)
    requires forall i :: 0 <= i < |cands| ==> Anchored(content, cands[i])
    ensures Consistent(content, CommitAll(st, cands))
    decreases |cands|
  {
    if cands != [] {
      TryCommitConsistent(content, st, cands[0]);
      CommitAllConsistent(content, TryCommit(st, cands[0]), cands[1..]);
    }
  }

  /** One step of the fold. */
  lemma CommitAllCons(st: MergeState, a: Annotation, rest: seq<Annotation>)
    ensures CommitAll(st, [a] + rest) == CommitAll(TryCommit(st, a), rest)
  {
    assert ([a] + rest)[1..] == rest;
  }

  /** The fold never removes or reorders a commit, and everything it adds
      is one of the candidates. */
  lemma {:induction false} CommitAllAppends(st: MergeState, cands: seq<Annotation>)
    ensures Extends(st, CommitAll(st, cands))
    ensures forall i :: |st.anns| <= i < |CommitAll(st, cands).anns| ==> CommitAll(st, cands).anns[i] in cands
    decreases |cands|
  {
    var r := CommitAll(st, cands);
    if cands == [] {
      assert st.anns[..|st.anns|] == st.anns;
    } else {
      var st' := TryCommit(st, cands[0]);
      TryCommitAppends(st, cands[0]);
      CommitAllAppends(st', cands[1..]);
      ExtendsTransitive(st, st', r);
      forall i | |st.anns| <= i < |r.anns| ensures r.anns[i] in cands {
        if i < |st'.anns| {
          assert r.anns[i] == st'.anns[i] == cands[0];
        } else {
          assert r.anns[i] in cands[1..];
        }
      }
    }
  }

  /** The candidates of `cands` that touch no position of `claimed`, in order. */
  function FreeOf(claimed: set<int>, cands: seq<Annotation>): seq<Annotation>
  {
    if cands == [] then []
    else (if Overlaps(claimed, cands[0].start, cands[0].end) then [] else [cands[0]]) + FreeOf(claimed, cands[1..])
  }

  /** Candidates that follow one another along the text without overlapping:
      each is a proper span, and each ends before the next one starts. */
  ghost predicate InTextOrder(cands: seq<Annotation>)
  {
    && (forall i :: 0 <= i < |cands| ==> cands[i].start <= cands[i].end)
    && (forall i, j :: 0 <= i < j < |cands| ==> cands[i].end <= cands[j].start)
  }

  /** A span that ends before every span of an ordered list can go in front of it. */
  lemma InTextOrderCons(a: Annotation, rest: seq<Annotation>)
    requires InTextOrder(rest)
    requires a.start <= a.end
    requires forall k :: 0 <= k < |rest| ==> a.end <= rest[k].start
    ensures InTextOrder([a] + rest)
  {
    var r := [a] + rest;
    forall i | 0 <= i < |r| ensures r[i].start <= r[i].end {
      if i > 0 {
        assert r[i] == rest[i - 1];
      }
    }
    forall i, j | 0 <= i < j < |r| ensures r[i].end <= r[j].start {
      assert r[j] == rest[j - 1];
      if i > 0 {
        assert r[i] == rest[i - 1];
      }
    }
  }

  lemma InTextOrderTail(cands: seq<Annotation>)
    requires InTextOrder(cands) && cands != []
    ensures InTextOrder(cands[1..])
  {
    forall i | 0 <= i < |cands[1..]| ensures cands[1..][i].start <= cands[1..][i].end {
      assert cands[1..][i] == cands[i + 1];
    }
    forall i, j | 0 <= i < j < |cands[1..]| ensures cands[1..][i].end <= cands[1..][j].start {
      assert cands[1..][i] == cands[i + 1] && cands[1..][j] == cands[j + 1];
    }
  }

  /** A span starting at or after `low` meets the claimed set where it meets
      `base`, when everything claimed outside `base` lies below `low`. */
  lemma OverlapsAboveLow(claimed: set<int>, base: set<int>, low: int, a: Annotation)
    requires base <= claimed
    requires forall p :: p in claimed && p !in base ==> p < low
    requires low <= a.start
    ensures Overlaps(claimed, a.start, a.end) == Overlaps(base, a.start, a.end)
  {
    if Overlaps(claimed, a.start, a.end) {
      var pos :| a.start <= pos < a.end && pos in claimed;
      assert pos in base;
    }
  }

  /** The spans after the first one start at or after `low'`, when `low'` is
      either a bound for all of them or the end of the first. */
  lemma TailStartsAfter(cands: seq<Annotation>, low: int, low': int)
    requires InTextOrder(cands) && cands != []
    requires forall i :: 0 <= i < |cands| ==> low <= cands[i].start
    requires low' == low || low' == cands[0].end
    ensures forall i :: 0 <= i < |cands[1..]| ==> low' <= cands[1..][i].start
  {
    forall i | 0 <= i < |cands[1..]| ensures low' <= cands[1..][i].start {
      assert cands[1..][i] == cands[i + 1];
      assert cands[0].end <= cands[i + 1].start;
    }
  }

  lemma {:induction false} CommitAllInTextOrderFrom(st: MergeState, cands: seq<Annotation>, base: set<int>, low: int)
    requires InTextOrder(cands)
    requires base <= st.claimed
    requires forall p :: p in st.claimed && p !in base ==> p < low
    requires forall i :: 0 <= i < |cands| ==> low <= cands[i].start
    ensures CommitAll(st, cands).anns == st.anns + FreeOf(base, cands)
    decreases |cands|
  {
    if cands == [] {
      assert st.anns + [] == st.anns;
    } else {
      var a := cands[0];
      OverlapsAboveLow(st.claimed, base, low, a);
      var st' := TryCommit(st, a);
      var low' := if Overlaps(st.claimed, a.start, a.end) || a.end < low then low else a.end;
      TailStartsAfter(cands, low, low');
      InTextOrderTail(cands);
      CommitAllInTextOrderFrom(st', cands[1..], base, low');
      if Overlaps(base, a.start, a.end) {
        assert FreeOf(base, cands) == FreeOf(base, cands[1..]);
      } else {
        assert FreeOf(base, cands) == [a] + FreeOf(base, cands[1..]);
        assert st'.anns == st.anns + [a];
        assert (st.anns + [a]) + FreeOf(base, cands[1..]) == st.anns + ([a] + FreeOf(base, cands[1..]));
      }
    }
  }

  /** Candidates that follow one another along the text are committed
      exactly when they touch no position claimed before the first of them:
      they never shut each other out. */
  lemma CommitAllInTextOrder(st: MergeState, cands: seq<Annotation>)
    requires InTextOrder(cands)
    ensures CommitAll(st, cands).anns == st.anns + FreeOf(st.claimed, cands)
  {
    if cands != [] {
      CommitAllInTextOrderFrom(st, cands, st.claimed, cands[0].start);
    } else {
      assert st.anns + [] == st.anns;
    }
  }
}
