/**
 * The few Python `str` operations the annotation code relies on, written to
 * behave as CPython's do: `find` with a start position (negative starts count
 * from the end), `strip` with Python's notion of white space, and `endswith`.
 */
module PyStr {

  /** `sub` occurs in `s` at index `i`. */
  predicate OccursAt(s: string, sub: string, i: int)
  {
    0 <= i && i + |sub| <= |s| && MatchesFrom(s, sub, i, 0)
  }

  predicate MatchesFrom(s: string, sub: string, i: nat, k: nat)
    requires i + |sub| <= |s|
    decreases |sub| - k
  {
    k >= |sub| || (s[i + k] == sub[k] && MatchesFrom(s, sub, i, k + 1))
  }

  lemma {:induction false} MatchesFromChars(s: string, sub: string, i: nat, k: nat)
    requires i + |sub| <= |s|
    ensures MatchesFrom(s, sub, i, k) <==> forall m :: k <= m < |sub| ==> s[i + m] == sub[m]
    decreases |sub| - k
  {
    if k < |sub| {
      MatchesFromChars(s, sub, i, k + 1);
    }
  }

  lemma OccursAtSlice(s: string, sub: string, i: int)
    requires 0 <= i && i + |sub| <= |s|
    ensures OccursAt(s, sub, i) <==> s[i..i + |sub|] == sub
  {
    MatchesFromChars(s, sub, i, 0);
    if forall m :: 0 <= m < |sub| ==> s[i + m] == sub[m] {
      assert s[i..i + |sub|] == sub;
    }
  }

  /** How CPython turns the `start` argument of `find` into an index:
      a negative start counts from the end and is clamped at 0. */
  function ClampStart(len: nat, start: int): nat
  {
    if start >= 0 then start
    else if len + start < 0 then 0
    else len + start
  }

  /** The first occurrence of `sub` in `s` at an index `>= i`, or -1
      (that it is an occurrence, and the first one, is FindFromFirst). */
  function FindFrom(s: string, sub: string, i: nat): (r: int)
    ensures r == -1 || (i <= r && r + |sub| <= |s|)
    decreases |s| - i
  {
    if i + |sub| > |s| then -1
    else if OccursAt(s, sub, i) then i
    else FindFrom(s, sub, i + 1)
  }

  /** FindFrom stops at the first occurrence, and answers -1 only when there is none. */
  lemma {:induction false} FindFromFirst(s: string, sub: string, i: nat)
    ensures FindFrom(s, sub, i) != -1 ==> OccursAt(s, sub, FindFrom(s, sub, i))
    ensures FindFrom(s, sub, i) == -1 ==> forall j :: i <= j ==> !OccursAt(s, sub, j)
    ensures forall j :: i <= j < FindFrom(s, sub, i) ==> !OccursAt(s, sub, j)
    decreases |s| - i
  {
    if i + |sub| <= |s| && !OccursAt(s, sub, i) {
      FindFromFirst(s, sub, i + 1);
    }
  }

  /** `s.find(sub, start)`. A start beyond the end of `s` finds nothing,
      not even the empty string, as in CPython. */
  function Find(s: string, sub: string, start: int): (r: int)
    ensures r == -1 || (ClampStart(|s|, start) <= r && r + |sub| <= |s|)
  {
    FindFrom(s, sub, ClampStart(|s|, start))
  }

  /** `find` answers an occurrence, the first one at or after the clamped
      start, and -1 exactly when there is none. */
  lemma FindFirst(s: string, sub: string, start: int)
    ensures Find(s, sub, start) != -1 ==> OccursAt(s, sub, Find(s, sub, start))
    ensures Find(s, sub, start) == -1 <==> forall j :: ClampStart(|s|, start) <= j ==> !OccursAt(s, sub, j)
    ensures forall j :: ClampStart(|s|, start) <= j < Find(s, sub, start) ==> !OccursAt(s, sub, j)
  {
    FindFromFirst(s, sub, ClampStart(|s|, start));
  }

  /** The characters for which Python's `str.isspace()` holds. */
  predicate IsSpace(c: char)
  {
    c in {'\U{9}', '\U{A}', '\U{B}', '\U{C}', '\U{D}', '\U{1C}', '\U{1D}', '\U{1E}',
          '\U{1F}', '\U{20}', '\U{85}', '\U{A0}', '\U{1680}', '\U{2000}', '\U{2001}', '\U{2002}',
          '\U{2003}', '\U{2004}', '\U{2005}', '\U{2006}', '\U{2007}', '\U{2008}', '\U{2009}', '\U{200A}',
          '\U{2028}', '\U{2029}', '\U{202F}', '\U{205F}', '\U{3000}'}
  }

  /** `s.lstrip()`: drops the leading white space and nothing else. */
  function TrimStart(s: string): (r: string)
    ensures |r| <= |s| && r == s[|s| - |r|..]
    ensures forall i :: 0 <= i < |s| - |r| ==> IsSpace(s[i])
    ensures r == [] || !IsSpace(r[0])
  {
    if s != [] && IsSpace(s[0]) then TrimStart(s[1..]) else s
  }

  /** `s.rstrip()`: drops the trailing white space and nothing else. */
  function TrimEnd(s: string): (r: string)
    ensures |r| <= |s| && r == s[..|r|]
    ensures forall i :: |r| <= i < |s| ==> IsSpace(s[i])
    ensures r == [] || !IsSpace(r[|r| - 1])
  {
    if s != [] && IsSpace(s[|s| - 1]) then TrimEnd(s[..|s| - 1]) else s
  }

  /** `s.strip()`. */
  function Strip(s: string): string
  {
    TrimEnd(TrimStart(s))
  }

  /** A string that starts and ends with a non-space character is its own strip. */
  lemma StripOfStripped(s: string)
    requires s == [] || (!IsSpace(s[0]) && !IsSpace(s[|s| - 1]))
    ensures Strip(s) == s
  {
  }

  /** Stripping is idempotent; an empty strip means the string was blank. */
  lemma StripIdempotent(s: string)
    ensures Strip(Strip(s)) == Strip(s)
    ensures Strip(s) == [] <==> forall i :: 0 <= i < |s| ==> IsSpace(s[i])
  {
    var t := TrimStart(s);
    var r := TrimEnd(t);
    if r != [] {
      assert r[0] == t[0];
      StripOfStripped(r);
    }
    if Strip(s) == [] {
      forall i | 0 <= i < |s| ensures IsSpace(s[i]) {
        if i >= |s| - |t| {
          assert s[i] == t[i - (|s| - |t|)];
        }
      }
    }
  }

  /** `s.endswith(suffix)`. */
  predicate EndsWith(s: string, suffix: string)
  {
    |suffix| <= |s| && s[|s| - |suffix|..] == suffix
  }
}
