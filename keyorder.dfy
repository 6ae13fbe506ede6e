/**
 * The order in which the knowledge-base matcher tries its keys: Python's
 * `sorted(items, key=lambda x: len(x[0]), reverse=True)`, a stable sort by
 * key length, longest first, where keys of equal length keep the order the
 * knowledge base lists them in.
 */
module KeyOrder {

  /** A knowledge-base entry as the matcher sees it: (text, label). */
  type Entry = (string, string)

  /** Keys never get longer towards the end. */
  ghost predicate LongestFirst(s: seq<Entry>)
  {
    forall i, j :: 0 <= i < j < |s| ==> |s[i].0| >= |s[j].0|
  }

  /** The entries whose key has length `n`, in the order of `s`. */
  function WithLength(s: seq<Entry>, n: nat): seq<Entry>
  {
    if s == [] then []
    else WithLength(s[..|s| - 1], n) + (if |s[|s| - 1].0| == n then [s[|s| - 1]] else [])
  }

  /** Appending an entry no longer than any already present keeps the order. */
  lemma AppendShortest(s: seq<Entry>, e: Entry)
    requires LongestFirst(s)
    requires forall d | d in s :: |d.0| >= |e.0|
    ensures LongestFirst(s + [e])
  {
    forall i, j | 0 <= i < j < |s + [e]| ensures |(s + [e])[i].0| >= |(s + [e])[j].0| {
      if j == |s| {
        assert (s + [e])[i] in s;
      }
    }
  }

  /** The base case of Insert: `x` is no longer than the last entry, so it goes last. */
  lemma InsertAtEnd(sorted: seq<Entry>, x: Entry)
    requires LongestFirst(sorted)
    requires sorted == [] || |sorted[|sorted| - 1].0| >= |x.0|
    ensures LongestFirst(sorted + [x])
    ensures forall n: nat :: WithLength(sorted + [x], n) == WithLength(sorted, n) + (if |x.0| == n then [x] else [])
  {
    forall d | d in sorted ensures |d.0| >= |x.0| {
      var i :| 0 <= i < |sorted| && sorted[i] == d;
      assert |sorted[i].0| >= |sorted[|sorted| - 1].0|;
    }
    AppendShortest(sorted, x);
    forall n: nat ensures WithLength(sorted + [x], n) == WithLength(sorted, n) + (if |x.0| == n then [x] else []) {
      assert (sorted + [x])[..|sorted|] == sorted;
    }
  }

  /** Puts `x` after every entry whose key is at least as long, so that it
      follows the entries of its own length that came before it. */
  function Insert(sorted: seq<Entry>, x: Entry): (r: seq<Entry>)
    requires LongestFirst(sorted)
    ensures LongestFirst(r)
    ensures multiset(r) == multiset(sorted) + multiset{x}
    ensures forall n: nat :: WithLength(r, n) == WithLength(sorted, n) + (if |x.0| == n then [x] else [])
    decreases |sorted|, 1
  {
    if sorted == [] || |sorted[|sorted| - 1].0| >= |x.0| then
      InsertAtEnd(sorted, x);
      sorted + [x]
    else
      var init, last := sorted[..|sorted| - 1], sorted[|sorted| - 1];
      assert sorted == init + [last];
      InsertRest(init, last, x);
      Insert(init, x) + [last]
  }

  /** Dropping the last entry keeps the order, and that entry is the shortest. */
  lemma DropLast(init: seq<Entry>, last: Entry)
    requires LongestFirst(init + [last])
    ensures LongestFirst(init)
    ensures forall d | d in init :: |d.0| >= |last.0|
  {
    var s := init + [last];
    forall i, j | 0 <= i < j < |init| ensures |init[i].0| >= |init[j].0| {
      assert init[i] == s[i] && init[j] == s[j];
    }
    forall d | d in init ensures |d.0| >= |last.0| {
      var i :| 0 <= i < |init| && init[i] == d;
      assert s[i] == d && s[|init|] == last;
    }
  }

  /** The recursive case of Insert: the last entry is shorter than `x`, so it stays last. */
  lemma InsertRest(init: seq<Entry>, last: Entry, x: Entry)
    requires LongestFirst(init + [last])
    requires |last.0| < |x.0|
    ensures LongestFirst(init)
    ensures LongestFirst(Insert(init, x) + [last])
    ensures forall n: nat :: WithLength(Insert(init, x) + [last], n) ==
                             WithLength(init + [last], n) + (if |x.0| == n then [x] else [])
    decreases |init| + 1, 0
  {
    DropLast(init, last);
    var ins := Insert(init, x);
    forall d | d in ins ensures |d.0| >= |last.0| {
      assert d in multiset(init) + multiset{x};
    }
    AppendShortest(ins, last);
    forall n: nat ensures WithLength(ins + [last], n) == WithLength(init + [last], n) + (if |x.0| == n then [x] else []) {
      WithLengthMoveLast(init, ins, last, x, n);
    }
  }

  /** WithLength of a sequence with one more entry at the end. */
  lemma WithLengthSnoc(s: seq<Entry>, e: Entry, n: nat)
    ensures WithLength(s + [e], n) == WithLength(s, n) + (if |e.0| == n then [e] else [])
  {
    assert (s + [e])[..|s|] == s;
  }

  /** One length at a time: `x` and the shorter last entry never share a length. */
  lemma WithLengthMoveLast(init: seq<Entry>, ins: seq<Entry>, last: Entry, x: Entry, n: nat)
    requires WithLength(ins, n) == WithLength(init, n) + (if |x.0| == n then [x] else [])
    requires |last.0| < |x.0|
    ensures WithLength(ins + [last], n) == WithLength(init + [last], n) + (if |x.0| == n then [x] else [])
  {
    WithLengthSnoc(ins, last, n);
    WithLengthSnoc(init, last, n);
    if |x.0| == n {
      assert WithLength(ins + [last], n) == WithLength(init, n) + [x];
    } else if |last.0| == n {
      assert WithLength(ins + [last], n) == WithLength(init, n) + [last];
    } else {
      assert WithLength(ins + [last], n) == WithLength(init, n) + [];
    }
  }

  /** Two sequences with the same multiset have the same length and elements. */
  lemma SameElements(r: seq<Entry>, s: seq<Entry>)
    requires multiset(r) == multiset(s)
    ensures |r| == |s| && forall i :: 0 <= i < |r| ==> r[i] in s
  {
    assert |r| == |multiset(r)| == |multiset(s)| == |s|;
    forall i | 0 <= i < |r| ensures r[i] in s {
      assert r[i] in multiset(s);
    }
  }

  /** The stable longest-first sort. */
  function SortByLength(s: seq<Entry>): (r: seq<Entry>)
    ensures LongestFirst(r)
    ensures multiset(r) == multiset(s)
    ensures forall n: nat :: WithLength(r, n) == WithLength(s, n)
    ensures |r| == |s| && forall i :: 0 <= i < |r| ==> r[i] in s
  {
    if s == [] then []
    else
      var r := Insert(SortByLength(s[..|s| - 1]), s[|s| - 1]);
      assert s == s[..|s| - 1] + [s[|s| - 1]];
      SameElements(r, s);
      r
  }
}
