/**
 * String searches that stand in for the regular expressions of the headline
 * resolver. Each search is written for the concrete shape of one pattern:
 * a literal that must occur at a position, the leftmost position at which a
 * whole pattern matches, the greedy choice of a repetition that is tried from
 * the longest down, and the lazy `(.*?)` that stops at a line terminator.
 */
module Scan {
  import opened Wrappers

  /** `pat` occurs in `s` starting at index `i`. */
  predicate OccursAt(s: string, pat: string, i: nat)
  {
    i <= |s| && pat <= s[i..]
  }

  /** ASCII upper-casing, the case folding of a JavaScript `/i` pattern made of ASCII literals. */
  function Upper(c: char): char
  {
    if 'a' <= c <= 'z' then (c as int - 32) as char else c
  }

  /** `pat` occurs in `s` at index `i` when letters are compared without regard to case. */
  predicate OccursAtIgnoringCase(s: string, pat: string, i: nat)
  {
    i + |pat| <= |s| && forall k :: 0 <= k < |pat| ==> Upper(s[i + k]) == Upper(pat[k])
  }

  /** The characters that `.` in a JavaScript pattern does not match. */
  predicate IsLineTerminator(c: char)
  {
    c == '\n' || c == '\r' || c == '\U{2028}' || c == '\U{2029}'
  }

  /** The first index at or after `from` where `pat` occurs, as `indexOf` finds it. */
  function Find(s: string, pat: string, from: nat): (r: Option<nat>)
    decreases |s| - from
    ensures r.Some? ==> from <= r.value <= |s| && OccursAt(s, pat, r.value)
    ensures r.Some? ==> forall k :: from <= k < r.value ==> !OccursAt(s, pat, k)
    ensures r.None? ==> forall k :: from <= k ==> !OccursAt(s, pat, k)
  {
    if from > |s| then None
    else if OccursAt(s, pat, from) then Some(from)
    else Find(s, pat, from + 1)
  }

  /** The first index at or after `from` holding the character `c`. */
  function IndexOf(s: string, c: char, from: nat): (r: Option<nat>)
    decreases |s| - from
    ensures r.Some? ==> from <= r.value < |s| && s[r.value] == c
    ensures r.Some? ==> forall k :: from <= k < r.value ==> s[k] != c
    ensures r.None? ==> forall k :: from <= k < |s| ==> s[k] != c
  {
    if from >= |s| then None
    else if s[from] == c then Some(from)
    else IndexOf(s, c, from + 1)
  }

  /**
   * The leftmost position in `from..to` at which `at` succeeds: the order in
   * which a regular expression engine tries the start positions of a match.
   */
  function First<T>(from: nat, to: nat, at: nat -> Option<T>): (r: Option<Hit<T>>)
    decreases to - from
    ensures r.Some? ==> from <= r.value.pos <= to && at(r.value.pos) == Some(r.value.value)
    ensures r.Some? ==> forall k :: from <= k < r.value.pos ==> at(k).None?
    ensures r.None? ==> forall k :: from <= k <= to ==> at(k).None?
  {
    if from > to then None
    else match at(from)
      case Some(v) => Some(Hit(from, v))
      case None => First(from + 1, to, at)
  }

  /**
   * The rightmost position in `lo..hi` at which `at` succeeds: the order in
   * which a greedy repetition gives back characters while it backtracks.
   */
  function Last<T>(lo: nat, hi: nat, at: nat -> Option<T>): (r: Option<Hit<T>>)
    decreases hi
    ensures r.Some? ==> lo <= r.value.pos <= hi && at(r.value.pos) == Some(r.value.value)
    ensures r.Some? ==> forall k :: r.value.pos < k <= hi ==> at(k).None?
    ensures r.None? ==> forall k :: lo <= k <= hi ==> at(k).None?
  {
    if hi < lo then None
    else match at(hi)
      case Some(v) => Some(Hit(hi, v))
      case None => if hi == lo then None else Last(lo, hi - 1, at)
  }

  /** The delimiter `delim` at `q`, compared ignoring case when `fold` is set. */
  predicate DelimiterAt(s: string, delim: string, fold: bool, q: nat)
  {
    if fold then OccursAtIgnoringCase(s, delim, q) else OccursAt(s, delim, q)
  }

  /** Between `from` and `to` there is neither a delimiter nor a line terminator. */
  predicate PlainRun(s: string, from: nat, to: nat, delim: string, fold: bool)
    requires to <= |s|
  {
    (forall k :: from <= k < to ==> !DelimiterAt(s, delim, fold, k)) &&
    (forall k :: from <= k < to ==> !IsLineTerminator(s[k]))
  }

  /**
   * The lazy `(.*?)` followed by the delimiter `delim`: the first position
   * `q` at or after `from` where the delimiter occurs, provided no line
   * terminator lies between `from` and `q`.
   */
  function LazyUntil(s: string, from: nat, delim: string, fold: bool): (r: Option<nat>)
    decreases |s| - from
    ensures r.Some? ==> from <= r.value <= |s| && DelimiterAt(s, delim, fold, r.value)
    ensures r.Some? ==> PlainRun(s, from, r.value, delim, fold)
    ensures r.None? ==> forall q :: from <= q <= |s| && DelimiterAt(s, delim, fold, q) ==>
                          exists k :: from <= k < q && IsLineTerminator(s[k])
  {
    if from <= |s| && DelimiterAt(s, delim, fold, from) then Some(from)
    else if from >= |s| || IsLineTerminator(s[from]) then None
    else
      var r := LazyUntil(s, from + 1, delim, fold);
      assert r.Some? ==> PlainRun(s, from, r.value, delim, fold) by {
        if r.Some? {
          assert PlainRun(s, from + 1, r.value, delim, fold);
        }
      }
      r
  }

  /** A longer pattern occurring at `i` means each of its prefixes occurs there. */
  lemma OccursPrefix(s: string, pat: string, rest: string, i: nat)
    requires OccursAt(s, pat + rest, i)
    ensures OccursAt(s, pat, i)
  {
    assert (pat + rest)[..|pat|] == pat;
    assert s[i..][..|pat|] == pat;
  }

  /** A longer pattern occurring at `i` means its tail occurs where its head ends. */
  lemma OccursSuffix(s: string, pat: string, rest: string, i: nat)
    requires OccursAt(s, pat + rest, i)
    ensures OccursAt(s, rest, i + |pat|)
  {
    assert (pat + rest)[|pat|..] == rest;
    assert s[i..][|pat|..] == s[i + |pat|..];
  }

  /** Where `pat` occurs at `i`, each of its characters is in place. */
  lemma OccursAtChar(s: string, pat: string, i: nat, k: nat)
    requires OccursAt(s, pat, i) && k < |pat|
    ensures i + k < |s| && s[i + k] == pat[k]
  {
    assert s[i..][k] == pat[k];
  }

  /** An exact occurrence is also one when case is ignored. */
  lemma OccursIgnoringCase(s: string, pat: string, i: nat)
    requires OccursAt(s, pat, i)
    ensures OccursAtIgnoringCase(s, pat, i)
  {
    forall k | 0 <= k < |pat| ensures Upper(s[i + k]) == Upper(pat[k]) {
      OccursAtChar(s, pat, i, k);
    }
  }

  /**
   * Inside an exact occurrence of `u` at `i`, a pattern that fits in `u`
   * occurs ignoring case at `i + k` exactly when it does so in `u` at `k`.
   */
  lemma IgnoringCaseInside(s: string, u: string, i: nat, pat: string, k: nat)
    requires OccursAt(s, u, i) && k + |pat| <= |u|
    ensures OccursAtIgnoringCase(s, pat, i + k) <==> OccursAtIgnoringCase(u, pat, k)
  {
    forall j | 0 <= j < |pat|
      ensures Upper(s[i + k + j]) == Upper(pat[j]) <==> Upper(u[k + j]) == Upper(pat[j])
    {
      OccursAtChar(s, u, i, k + j);
    }
  }

  /** Inside a contiguous piece of `s`, an occurrence is an occurrence in `s` shifted by the start of the piece. */
  lemma OccursInSlice(s: string, a: nat, b: nat, pat: string, k: nat)
    requires a <= b <= |s| && k + |pat| <= b - a
    ensures OccursAt(s[a..b], pat, k) <==> OccursAt(s, pat, a + k)
  {
    assert s[a..b][k..][..|pat|] == s[a + k..][..|pat|];
  }

  /** `Find` returns precisely the first occurrence at or after `from`. */
  lemma FindIs(s: string, pat: string, from: nat, q: nat)
    requires from <= q && OccursAt(s, pat, q)
    requires forall k :: from <= k < q ==> !OccursAt(s, pat, k)
    ensures Find(s, pat, from) == Some(q)
  {
  }

  /** `IndexOf` returns precisely the first occurrence of the character at or after `from`. */
  lemma IndexOfIs(s: string, c: char, from: nat, q: nat)
    requires from <= q < |s| && s[q] == c
    requires forall k :: from <= k < q ==> s[k] != c
    ensures IndexOf(s, c, from) == Some(q)
  {
  }

  /** `LazyUntil` returns precisely the first delimiter when no line terminator comes before it. */
  lemma LazyUntilIs(s: string, from: nat, delim: string, fold: bool, q: nat)
    requires from <= q <= |s| && DelimiterAt(s, delim, fold, q)
    requires PlainRun(s, from, q, delim, fold)
    ensures LazyUntil(s, from, delim, fold) == Some(q)
  {
  }

  /** `First` returns precisely the leftmost success. */
  lemma FirstIs<T>(from: nat, to: nat, at: nat -> Option<T>, q: nat)
    requires from <= q <= to && at(q).Some?
    requires forall k :: from <= k < q ==> at(k).None?
    ensures First(from, to, at) == Some(Hit(q, at(q).value))
  {
  }

  /** `Last` returns precisely the rightmost success. */
  lemma LastIs<T>(lo: nat, hi: nat, at: nat -> Option<T>, q: nat)
    requires lo <= q <= hi && at(q).Some?
    requires forall k :: q < k <= hi ==> at(k).None?
    ensures Last(lo, hi, at) == Some(Hit(q, at(q).value))
  {
  }
}
