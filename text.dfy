/**
 * The two string clean-ups the scrape strategy applies to an anchor's inner
 * text: removing every `<…>` tag (`replace(/<[^>]+>/g, "")`) and JavaScript's
 * `String.prototype.trim`.
 */
module Text {
  import opened Wrappers
  import Scan

  /**
   * The characters `trim` removes: ECMAScript's WhiteSpace (tab, vertical tab,
   * form feed, the space separators of Unicode category Zs, the byte order
   * mark) and its LineTerminators.
   */
  predicate IsWhiteSpace(c: char)
  {
    c == '\t' || c == '\U{000B}' || c == '\U{000C}' || c == ' ' || c == '\U{00A0}' ||
    c == '\U{1680}' || ('\U{2000}' <= c <= '\U{200A}') || c == '\U{202F}' ||
    c == '\U{205F}' || c == '\U{3000}' || c == '\U{FEFF}' ||
    Scan.IsLineTerminator(c)
  }

  /** The number of white-space characters at the start of `s`. */
  function LeadingSpace(s: string): (n: nat)
    ensures n <= |s|
    ensures forall k :: 0 <= k < n ==> IsWhiteSpace(s[k])
    ensures n < |s| ==> !IsWhiteSpace(s[n])
  {
    if |s| > 0 && IsWhiteSpace(s[0]) then 1 + LeadingSpace(s[1..]) else 0
  }

  /** The number of white-space characters at the end of `s`. */
  function TrailingSpace(s: string): (n: nat)
    ensures n <= |s|
    ensures forall k :: |s| - n <= k < |s| ==> IsWhiteSpace(s[k])
    ensures n < |s| ==> !IsWhiteSpace(s[|s| - n - 1])
  {
    if |s| > 0 && IsWhiteSpace(s[|s| - 1]) then 1 + TrailingSpace(s[..|s| - 1]) else 0
  }

  /**
   * `s.trim()`: the contiguous piece of `s` left after removing white space
   * at both ends; it neither starts nor ends with white space, and it is
   * empty exactly when `s` is all white space.
   */
  function Trim(s: string): (r: string)
    ensures LeadingSpace(s) + |r| <= |s| && r == s[LeadingSpace(s)..LeadingSpace(s) + |r|]
    ensures forall k :: 0 <= k < LeadingSpace(s) ==> IsWhiteSpace(s[k])
    ensures forall k :: LeadingSpace(s) + |r| <= k < |s| ==> IsWhiteSpace(s[k])
    ensures r != [] ==> !IsWhiteSpace(r[0]) && !IsWhiteSpace(r[|r| - 1])
    ensures r == [] <==> forall k :: 0 <= k < |s| ==> IsWhiteSpace(s[k])
  {
    var n := LeadingSpace(s);
    var t := s[n..];
    var m := TrailingSpace(t);
    assert m < |t| ==> !IsWhiteSpace(t[0]) by {
      if m < |t| && n < |s| { assert t[0] == s[n]; }
    }
    t[..|t| - m]
  }

  /** The pattern `<[^>]+>` matches at index `i`: a `<`, at least one character other than `>`, then a `>`. */
  predicate TagAt(s: string, i: nat)
  {
    i + 1 < |s| && s[i] == '<' && s[i + 1] != '>' && '>' in s[i + 2..]
  }

  /** No tag of the pattern `<[^>]+>` starts anywhere in `s`. */
  predicate NoTags(s: string)
  {
    forall i :: 0 <= i < |s| ==> !TagAt(s, i)
  }

  /**
   * `s.replace(/<[^>]+>/g, "")`: scanning left to right, a tag that starts at
   * the current position is removed up to its first `>` and the scan resumes
   * after it; any other character is kept.
   */
  function StripTags(s: string): (r: string)
    decreases |s|
  {
    if |s| == 0 then []
    else if TagAt(s, 0) then
      var close := Scan.IndexOf(s, '>', 2);
      assert close.Some? by {
        var k :| 0 <= k < |s[2..]| && s[2..][k] == '>';
        assert s[2 + k] == '>';
      }
      StripTags(s[close.value + 1..])
    else [s[0]] + StripTags(s[1..])
  }

  /** A string without `>` holds no tag, so stripping leaves it as it is. */
  lemma {:induction false} StripTagsWithoutClose(s: string)
    requires '>' !in s
    ensures StripTags(s) == s
    decreases |s|
  {
    if |s| > 0 {
      assert !TagAt(s, 0) by {
        if |s| > 1 { assert forall c :: c in s[2..] ==> c in s; }
      }
      assert forall c :: c in s[1..] ==> c in s;
      StripTagsWithoutClose(s[1..]);
      assert s == [s[0]] + s[1..];
    }
  }

  /** Stripping a string that holds no tag leaves it as it is. */
  lemma {:induction false} StripTagsOfTagFree(s: string)
    requires NoTags(s)
    ensures StripTags(s) == s
    decreases |s|
  {
    if |s| > 0 {
      assert !TagAt(s, 0);
      forall i | 0 <= i < |s[1..]| ensures !TagAt(s[1..], i) {
        assert !TagAt(s, i + 1);
        if i + 1 < |s[1..]| { assert s[1..][i + 2..] == s[i + 3..]; }
      }
      StripTagsOfTagFree(s[1..]);
      assert s == [s[0]] + s[1..];
    }
  }

  /** A leading tag `<t>` is removed up to its own `>`, and stripping goes on after it. */
  lemma StripTagsDropsTag(t: string, r: string)
    requires t != [] && '>' !in t
    ensures StripTags("<" + t + ">" + r) == StripTags(r)
  {
    var s := "<" + t + ">" + r;
    assert s[1] == t[0] && s[|t| + 1] == '>';
    forall k | 2 <= k < |t| + 1 ensures s[k] != '>' {
      assert s[k] == t[k - 1];
    }
    assert '>' in s[2..] by { assert s[2..][|t| - 1] == '>'; }
    Scan.IndexOfIs(s, '>', 2, |t| + 1);
    assert s[|t| + 2..] == r;
  }

  /** A character other than `<` at the front survives stripping. */
  lemma StripTagsKeepsHead(s: string)
    requires |s| > 0 && s[0] != '<'
    ensures StripTags(s) == [s[0]] + StripTags(s[1..])
  {
  }

  /** Every `<…>` tag is gone from the stripped string: no tag starts anywhere in it. */
  lemma {:induction false} StripTagsLeavesNoTags(s: string)
    ensures NoTags(StripTags(s))
    decreases |s|
  {
    if |s| == 0 {
    } else if TagAt(s, 0) {
      var close := Scan.IndexOf(s, '>', 2);
      assert close.Some? by {
        var k :| 0 <= k < |s[2..]| && s[2..][k] == '>';
        assert s[2 + k] == '>';
      }
      StripTagsLeavesNoTags(s[close.value + 1..]);
    } else {
      StripTagsLeavesNoTags(s[1..]);
      forall i | 0 <= i < |StripTags(s)| ensures !TagAt(StripTags(s), i) {
        if i == 0 {
          KeptHeadStartsNoTag(s);
        } else {
          NoTagAfterHead(s[0], StripTags(s[1..]), i);
        }
      }
    }
  }

  /** A kept first character does not start a tag of the stripped string. */
  lemma KeptHeadStartsNoTag(s: string)
    requires |s| > 0 && !TagAt(s, 0)
    ensures !TagAt([s[0]] + StripTags(s[1..]), 0)
  {
    var r := [s[0]] + StripTags(s[1..]);
    if s[0] == '<' && |r| > 1 {
      if s[1] == '>' {
        StripTagsKeepsHead(s[1..]);
        assert r[1] == '>';
      } else {
        assert '>' !in s[2..];
        assert '>' !in s[1..] by {
          assert s[1..] == [s[1]] + s[2..];
        }
        StripTagsWithoutClose(s[1..]);
        assert r == s;
      }
    }
  }

  /** Putting one character in front of a tag-free string starts no tag after it. */
  lemma NoTagAfterHead(c: char, t: string, i: nat)
    requires NoTags(t) && 1 <= i <= |t|
    ensures !TagAt([c] + t, i)
  {
    var r := [c] + t;
    assert !TagAt(t, i - 1);
    if i + 1 < |r| { assert r[i + 2..] == t[i + 1..]; }
  }

  /** Stripping twice is stripping once. */
  lemma StripTagsIdempotent(s: string)
    ensures StripTags(StripTags(s)) == StripTags(s)
  {
    StripTagsLeavesNoTags(s);
    StripTagsOfTagFree(StripTags(s));
  }

  /** A tag inside a contiguous piece of `s` is a tag of `s`. */
  lemma TagInSlice(s: string, a: nat, b: nat, i: nat)
    requires a <= b <= |s| && i < b - a
    ensures TagAt(s[a..b], i) ==> TagAt(s, a + i)
  {
    var t := s[a..b];
    if TagAt(t, i) {
      var k :| 0 <= k < |t[i + 2..]| && t[i + 2..][k] == '>';
      assert s[a + i + 2..][k] == '>';
    }
  }

  /** A contiguous piece of a tag-free string is tag-free. */
  lemma NoTagsSlice(s: string, a: nat, b: nat)
    requires a <= b <= |s| && NoTags(s)
    ensures NoTags(s[a..b])
  {
    forall i | 0 <= i < b - a ensures !TagAt(s[a..b], i) {
      TagInSlice(s, a, b, i);
    }
  }
}
