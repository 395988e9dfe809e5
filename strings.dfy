/**
 * The Python `str` operations the package relies on, written out over
 * `seq<char>`: character classes (ASCII only), `lower`, `strip`,
 * `startswith`/`endswith`, `in`, `replace`, `split(c)[0]`, `split(c)[-1]`
 * and `split(c)` itself.
 */
module Strings {

  // ---------------------------------------------------------------------------
  // Character classes

  predicate IsDigit(c: char) { '0' <= c <= '9' }

  predicate IsAsciiLetter(c: char) { 'a' <= c <= 'z' || 'A' <= c <= 'Z' }

  /** `str.isalnum()` on one character, restricted to ASCII. */
  predicate IsAlnum(c: char) { IsDigit(c) || IsAsciiLetter(c) }

  /** The characters `str.strip()` removes, restricted to ASCII: space, \t \n \v \f \r and \x1c-\x1f. */
  predicate IsSpace(c: char) { c == ' ' || '\t' <= c <= '\r' || '\U{1c}' <= c <= '\U{1f}' }

  /** `s.isdigit()` for a non-empty `s`; every character is an ASCII digit. */
  predicate AllDigits(s: string) { forall i :: 0 <= i < |s| ==> IsDigit(s[i]) }

  /** Every character of `s` satisfies `p`. */
  predicate AllChars(s: string, p: char -> bool) { forall i :: 0 <= i < |s| ==> p(s[i]) }

  function LowerChar(c: char): char {
    if 'A' <= c <= 'Z' then (c as int + 32) as char else c
  }

  /** `s.lower()`, restricted to ASCII letters. */
  function Lower(s: string): string {
    seq(|s|, i requires 0 <= i < |s| => LowerChar(s[i]))
  }

  // ---------------------------------------------------------------------------
  // Prefixes, suffixes and substrings

  predicate StartsWith(s: string, prefix: string) {
    |prefix| <= |s| && s[..|prefix|] == prefix
  }

  predicate EndsWith(s: string, suffix: string) {
    |suffix| <= |s| && s[|s| - |suffix|..] == suffix
  }

  /** `t` occurs in `s` starting at index `i`. */
  predicate OccursAt(s: string, t: string, i: int) {
    0 <= i <= |s| - |t| && s[i..i + |t|] == t
  }

  /** Python's `t in s` for strings. */
  predicate Contains(s: string, t: string) {
    exists i | 0 <= i <= |s| - |t| :: OccursAt(s, t, i)
  }

  /** A string none of whose characters is `t[0]` cannot contain `t`. */
  lemma NotContainsWithoutHead(s: string, t: string)
    requires |t| > 0 && t[0] !in s
    ensures !Contains(s, t)
  {
    forall i | 0 <= i <= |s| - |t| ensures !OccursAt(s, t, i) {
      assert s[i..i + |t|][0] == s[i];
    }
  }

  // ---------------------------------------------------------------------------
  // strip()

  /** `s.lstrip()`: the suffix of `s` left after dropping the leading whitespace. */
  function TrimLeft(s: string): (r: string)
    ensures |r| <= |s| && r == s[|s| - |r|..]
    ensures forall i :: 0 <= i < |s| - |r| ==> IsSpace(s[i])
    ensures r == [] || !IsSpace(r[0])
  {
    if |s| > 0 && IsSpace(s[0]) then
      var r := TrimLeft(s[1..]);
      assert forall i :: 1 <= i < |s| - |r| ==> s[i] == s[1..][i - 1];
      r
    else s
  }

  /** `s.rstrip()`: the prefix of `s` left after dropping the trailing whitespace. */
  function TrimRight(s: string): (r: string)
    ensures |r| <= |s| && r == s[..|r|]
    ensures forall i :: |r| <= i < |s| ==> IsSpace(s[i])
    ensures r == [] || !IsSpace(r[|r| - 1])
  {
    if |s| > 0 && IsSpace(s[|s| - 1]) then
      var r := TrimRight(s[..|s| - 1]);
      assert forall i :: |r| <= i < |s| - 1 ==> s[i] == s[..|s| - 1][i];
      r
    else s
  }

  /** `r` is the part of `s` starting at `i`, and everything of `s` outside it is whitespace. */
  predicate TrimmedAt(s: string, r: string, i: int) {
    && 0 <= i <= |s| - |r| && r == s[i..i + |r|]
    && (forall k :: 0 <= k < i ==> IsSpace(s[k]))
    && (forall k :: i + |r| <= k < |s| ==> IsSpace(s[k]))
  }

  /** A suffix of `s` after leading whitespace, cut before trailing whitespace, is `s` trimmed at the suffix's start. */
  lemma TrimmedFrom(s: string, t: string, r: string)
    requires |t| <= |s| && t == s[|s| - |t|..] && (forall k :: 0 <= k < |s| - |t| ==> IsSpace(s[k]))
    requires |r| <= |t| && r == t[..|r|] && (forall k :: |r| <= k < |t| ==> IsSpace(t[k]))
    ensures TrimmedAt(s, r, |s| - |t|)
  {
    var i := |s| - |t|;
    assert forall k :: i + |r| <= k < |s| ==> s[k] == t[k - i];
  }

  /**
   * `s.strip()`: `s` with leading and trailing whitespace removed. The result
   * is a contiguous part of `s`, everything cut off is whitespace, and the
   * result neither starts nor ends with whitespace.
   */
  function Strip(s: string): (r: string)
    ensures exists i :: TrimmedAt(s, r, i)
    ensures r == [] || (!IsSpace(r[0]) && !IsSpace(r[|r| - 1]))
  {
    var t := TrimLeft(s);
    var r := TrimRight(t);
    TrimmedFrom(s, t, r);
    assert r != [] ==> r[0] == t[0];
    r
  }

  /** A string without whitespace at either end is its own `strip()`. */
  lemma StripNoSpace(s: string)
    requires s == [] || (!IsSpace(s[0]) && !IsSpace(s[|s| - 1]))
    ensures Strip(s) == s
  {
  }

  /** What `strip()` keeps satisfies whatever every character of the original did. */
  lemma StripAllChars(s: string, p: char -> bool)
    requires AllChars(s, p)
    ensures AllChars(Strip(s), p)
  {
    var r := Strip(s);
    var i :| TrimmedAt(s, r, i);
    forall k | 0 <= k < |r| ensures p(r[k]) {
      assert r[k] == s[i + k];
    }
  }

  // ---------------------------------------------------------------------------
  // replace()

  /**
   * `s.replace(pat, rep)`: every occurrence of `pat`, scanning left to right
   * without overlaps, is replaced by `rep`.
   */
  function ReplaceAll(s: string, pat: string, rep: string): string
    requires |pat| > 0
    decreases |s|
  {
    if |s| < |pat| then s
    else if s[..|pat|] == pat then rep + ReplaceAll(s[|pat|..], pat, rep)
    else [s[0]] + ReplaceAll(s[1..], pat, rep)
  }

  /** Replacing a pattern that does not occur changes nothing. */
  lemma {:induction false} ReplaceAllAbsent(s: string, pat: string, rep: string)
    requires |pat| > 0 && !Contains(s, pat)
    ensures ReplaceAll(s, pat, rep) == s
    decreases |s|
  {
    if |s| >= |pat| {
      assert !OccursAt(s, pat, 0);
      forall i | 0 <= i <= |s[1..]| - |pat| ensures !OccursAt(s[1..], pat, i) {
        assert s[1..][i..i + |pat|] == s[i + 1..i + 1 + |pat|];
        assert !OccursAt(s, pat, i + 1);
      }
      ReplaceAllAbsent(s[1..], pat, rep);
    }
  }

  /** Replacing a single character distributes over concatenation. */
  lemma {:induction false} ReplaceCharAppend(a: string, b: string, c: char, rep: string)
    ensures ReplaceAll(a + b, [c], rep) == ReplaceAll(a, [c], rep) + ReplaceAll(b, [c], rep)
    decreases |a|
  {
    if a != [] {
      assert (a + b)[1..] == a[1..] + b;
      assert (a + b)[..1] == [a[0]] && a[..1] == [a[0]];
      ReplaceCharAppend(a[1..], b, c, rep);
    } else {
      assert a + b == b;
    }
  }

  /** Removing `c` from `x + [c] + y`, where `x` has no `c`, keeps `x` and goes on in `y`. */
  lemma {:induction false} RemoveCharAfter(x: string, y: string, c: char)
    requires c !in x
    ensures ReplaceAll(x + [c] + y, [c], "") == x + ReplaceAll(y, [c], "")
    decreases |x|
  {
    var s := x + [c] + y;
    if x == [] {
      assert s == [c] + y && s[..1] == [c] && s[1..] == y;
    } else {
      assert s[..1] == [x[0]] && s[1..] == x[1..] + [c] + y;
      RemoveCharAfter(x[1..], y, c);
    }
  }

  /** Removing every `c` (`s.replace(c, '')`) leaves no `c` and keeps the rest. */
  lemma {:induction false} RemoveCharChars(s: string, c: char, p: char -> bool)
    requires forall i :: 0 <= i < |s| ==> s[i] == c || p(s[i])
    ensures c !in ReplaceAll(s, [c], "")
    ensures AllChars(ReplaceAll(s, [c], ""), p)
    decreases |s|
  {
    if s != [] {
      assert s[..1] == [s[0]];
      RemoveCharChars(s[1..], c, p);
    }
  }

  /**
   * Replacing one character by another keeps the length; every character of
   * the result is `d` or a character of `s` other than `c`.
   */
  lemma {:induction false} ReplaceCharChars(s: string, c: char, d: char, p: char -> bool)
    requires c != d
    requires forall i :: 0 <= i < |s| ==> s[i] == c || p(s[i])
    requires p(d)
    ensures |ReplaceAll(s, [c], [d])| == |s|
    ensures c !in ReplaceAll(s, [c], [d])
    ensures AllChars(ReplaceAll(s, [c], [d]), p)
    decreases |s|
  {
    if s != [] {
      assert s[..1] == [s[0]];
      ReplaceCharChars(s[1..], c, d, p);
    }
  }

  /** The characters of `s` that satisfy `keep`, in order (`"".join(c for c in s if keep(c))`). */
  function FilterChars(s: string, keep: char -> bool): (r: string)
    ensures |r| <= |s|
    ensures AllChars(r, keep)
    ensures AllChars(s, keep) ==> r == s
  {
    if s == [] then [] else (if keep(s[0]) then [s[0]] else []) + FilterChars(s[1..], keep)
  }

  /** Filtering distributes over concatenation. */
  lemma {:induction false} FilterCharsAppend(a: string, b: string, p: char -> bool)
    ensures FilterChars(a + b, p) == FilterChars(a, p) + FilterChars(b, p)
    decreases |a|
  {
    if a == [] {
      assert a + b == b;
    } else {
      var head := if p(a[0]) then [a[0]] else [];
      assert (a + b)[0] == a[0] && (a + b)[1..] == a[1..] + b;
      assert FilterChars(a + b, p) == head + FilterChars(a[1..] + b, p);
      FilterCharsAppend(a[1..], b, p);
      assert FilterChars(a, p) == head + FilterChars(a[1..], p);
    }
  }

  /** Removing every `c` from the characters kept by `p` keeps exactly the characters kept by `q`, when `q` is `p` without `c`. */
  lemma {:induction false} RemoveCharFiltered(s: string, c: char, p: char -> bool, q: char -> bool)
    requires forall x :: q(x) == (p(x) && x != c)
    ensures ReplaceAll(FilterChars(s, p), [c], "") == FilterChars(s, q)
    decreases |s|
  {
    if s != [] {
      var head := if p(s[0]) then [s[0]] else [];
      ReplaceCharAppend(head, FilterChars(s[1..], p), c, "");
      RemoveCharFiltered(s[1..], c, p, q);
      if p(s[0]) && s[0] != c {
        assert head[..1] == head;
        assert ReplaceAll(head, [c], "") == [s[0]] + ReplaceAll(head[1..], [c], "");
      }
    }
  }

  // ---------------------------------------------------------------------------
  // split()

  /** `s.split(c)[0]`: the part of `s` before the first `c`, or all of `s`. */
  function FirstSegment(s: string, c: char): (r: string)
    ensures c !in r
    ensures StartsWith(s, r)
    ensures |r| == |s| || s[|r|] == c
  {
    if s == [] then []
    else if s[0] == c then []
    else [s[0]] + FirstSegment(s[1..], c)
  }

  /** `s.split(c)[-1]`: the part of `s` after the last `c`, or all of `s`. */
  function LastSegment(s: string, c: char): (r: string)
    ensures c !in r
    ensures EndsWith(s, r)
    ensures |r| == |s| || s[|s| - |r| - 1] == c
  {
    if s == [] then []
    else if s[|s| - 1] == c then []
    else
      var r := LastSegment(s[..|s| - 1], c);
      assert s[..|s| - 1][|s| - 1 - |r|..] == s[|s| - 1 - |r|..|s| - 1];
      r + [s[|s| - 1]]
  }

  /** The strings of `parts` joined with `c` in between (`c.join(parts)`). */
  function JoinWith(parts: seq<string>, c: char): string {
    if parts == [] then []
    else if |parts| == 1 then parts[0]
    else parts[0] + [c] + JoinWith(parts[1..], c)
  }

  /** The index of the first `c` in `s`. */
  function IndexOf(s: string, c: char): (k: nat)
    requires c in s
    ensures k < |s| && s[k] == c && c !in s[..k]
  {
    if s[0] == c then 0
    else
      assert c in s[1..] by {
        var j :| 0 <= j < |s| && s[j] == c;
        assert s[1..][j - 1] == c;
      }
      var k := IndexOf(s[1..], c);
      assert s[..k + 1] == [s[0]] + s[1..][..k];
      k + 1
  }

  /** `s.split(c)`: never empty, and no piece holds `c`. */
  function Split(s: string, c: char): (parts: seq<string>)
    ensures |parts| > 0
    ensures forall i :: 0 <= i < |parts| ==> c !in parts[i]
    decreases |s|
  {
    if c !in s then [s]
    else
      var k := IndexOf(s, c);
      [s[..k]] + Split(s[k + 1..], c)
  }

  /** Joining the pieces of `s.split(c)` with `c` gives `s` back. */
  lemma {:induction false} SplitJoin(s: string, c: char)
    ensures JoinWith(Split(s, c), c) == s
    decreases |s|
  {
    if c in s {
      var k := IndexOf(s, c);
      SplitJoin(s[k + 1..], c);
      assert s == s[..k] + [c] + s[k + 1..];
    }
  }
}
