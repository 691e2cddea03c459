/**
 * The parts of JavaScript's string library that the generator relies on:
 * `String.prototype.trim` and a first-occurrence search (`indexOf`).
 * Strings are sequences of characters; every character involved here lies in
 * the Basic Multilingual Plane, where a UTF-16 code unit and a character agree.
 */
module JsText {
  import opened Wrappers

  /** The characters `trim` removes: the WhiteSpace and LineTerminator
      productions of ECMAScript (tab, vertical tab, form feed, space,
      no-break space, the other space separators, the byte order mark,
      line feed, carriage return, line and paragraph separators). */
  predicate IsWhitespace(c: char)
  {
    || c == '\t' || c == '\n' || c == '\U{000B}' || c == '\U{000C}' || c == '\r'
    || c == ' ' || c == '\U{00A0}' || c == '\U{1680}'
    || ('\U{2000}' <= c <= '\U{200A}')
    || c == '\U{2028}' || c == '\U{2029}' || c == '\U{202F}' || c == '\U{205F}'
    || c == '\U{3000}' || c == '\U{FEFF}'
  }

  ghost predicate AllWhitespace(s: string)
  {
    forall i :: 0 <= i < |s| ==> IsWhitespace(s[i])
  }

  /** Every character of `s` from index `lo` up to `hi` is whitespace. */
  ghost predicate WhitespaceBetween(s: string, lo: nat, hi: nat)
  {
    lo <= hi <= |s| && forall i :: lo <= i < hi ==> IsWhitespace(s[i])
  }

  /** Neither starts nor ends with whitespace. */
  ghost predicate IsTrimmed(s: string)
  {
    s == [] || (!IsWhitespace(s[0]) && !IsWhitespace(s[|s| - 1]))
  }

  /** `r` is the slice of `s` that starts at `a`, and only whitespace lies
      around it in `s`. */
  ghost predicate IsCoreOf(s: string, r: string, a: nat)
  {
    && a + |r| <= |s| && r == s[a..a + |r|]
    && WhitespaceBetween(s, 0, a) && WhitespaceBetween(s, a + |r|, |s|)
  }

  /** The index of the first character at or after `i` that is not
      whitespace, or `|s|` when there is none. */
  function SkipWhitespace(s: string, i: nat): (j: nat)
    requires i <= |s|
    decreases |s| - i
    ensures i <= j <= |s| && WhitespaceBetween(s, i, j)
    ensures j < |s| ==> !IsWhitespace(s[j])
  {
    if i < |s| && IsWhitespace(s[i]) then SkipWhitespace(s, i + 1) else i
  }

  /** Going back from `j` no further than `lo`, the index just after the
      last character that is not whitespace, or `lo` when there is none. */
  function SkipWhitespaceBack(s: string, lo: nat, j: nat): (b: nat)
    requires lo <= j <= |s|
    decreases j
    ensures lo <= b <= j && WhitespaceBetween(s, b, j)
    ensures lo < b ==> !IsWhitespace(s[b - 1])
  {
    if lo < j && IsWhitespace(s[j - 1]) then SkipWhitespaceBack(s, lo, j - 1) else j
  }

  /** `String.prototype.trim`: the text without its surrounding whitespace. */
  function Trim(s: string): (r: string)
    ensures IsTrimmed(r)
    ensures IsCoreOf(s, r, SkipWhitespace(s, 0))
    ensures r == [] <==> AllWhitespace(s)
  {
    var a := SkipWhitespace(s, 0);
    var b := SkipWhitespaceBack(s, a, |s|);
    assert b > a ==> s[a..b][0] == s[a] && s[a..b][b - a - 1] == s[b - 1];
    s[a..b]
  }

  /** Two non-empty trimmed cores of the same text are the same slice. */
  lemma CoreUnique(s: string, r: string, a: nat, r0: string, a0: nat)
    requires r != [] && IsTrimmed(r) && IsCoreOf(s, r, a)
    requires IsTrimmed(r0) && IsCoreOf(s, r0, a0)
    ensures r0 == r
  {
    assert s[a] == r[0] && !IsWhitespace(s[a]);
    assert a0 <= a < a0 + |r0|;
    assert s[a0] == r0[0];
    var b, b0 := a + |r|, a0 + |r0|;
    assert s[b - 1] == r[|r| - 1];
    assert s[b0 - 1] == r0[|r0| - 1];
    assert a == a0 && b == b0;
  }

  /** The trimmed text is the only trimmed slice of `s` surrounded by
      whitespace alone: `trim` is determined by this description. */
  lemma TrimUnique(s: string, r: string, a: nat)
    requires IsTrimmed(r) && IsCoreOf(s, r, a)
    ensures r == Trim(s)
  {
    if r == [] {
      assert AllWhitespace(s);
    } else {
      CoreUnique(s, r, a, Trim(s), SkipWhitespace(s, 0));
    }
  }

  /** Trimming twice changes nothing. */
  lemma TrimIdempotent(s: string)
    ensures Trim(Trim(s)) == Trim(s)
  {
    var r := Trim(s);
    assert r[0..|r|] == r;
    assert IsCoreOf(r, r, 0);
    TrimUnique(r, r, 0);
  }

  /** `pat` occurs in `s` starting at index `k`. */
  predicate OccursAt(s: string, pat: string, k: nat)
  {
    k + |pat| <= |s| && s[k..k + |pat|] == pat
  }

  ghost predicate Contains(s: string, pat: string)
  {
    exists k: nat :: OccursAt(s, pat, k)
  }

  /** `s.indexOf(pat, from)`, with `None` for -1: the first occurrence of
      `pat` that starts at or after `from`. */
  function IndexOf(s: string, pat: string, from: nat): (r: Option<nat>)
    decreases |s| - from
    ensures r.Some? ==> from <= r.value && OccursAt(s, pat, r.value)
    ensures forall k: nat :: from <= k && OccursAt(s, pat, k) ==> r.Some? && r.value <= k
  {
    if from + |pat| > |s| then None
    else if s[from..from + |pat|] == pat then Some(from)
    else IndexOf(s, pat, from + 1)
  }

  /** An occurrence in a slice is an occurrence in the whole string. */
  lemma OccursInSlice(s: string, a: nat, b: nat, pat: string, k: nat)
    requires a <= b <= |s| && OccursAt(s[a..b], pat, k)
    ensures OccursAt(s, pat, a + k)
  {
    forall i | 0 <= i < |pat| ensures s[a + k + i] == pat[i] {
      assert s[a..b][k..k + |pat|][i] == pat[i];
    }
    assert s[a + k..a + k + |pat|] == pat;
  }

  /** A slice of a string free of a pattern is free of it too. */
  lemma SliceKeepsAbsence(s: string, a: nat, b: nat, pat: string)
    requires a <= b <= |s| && !Contains(s, pat)
    ensures !Contains(s[a..b], pat)
  {
    forall k: nat | OccursAt(s[a..b], pat, k) ensures false {
      OccursInSlice(s, a, b, pat, k);
    }
  }

  /** Appending text after a found occurrence does not move the first
      occurrence. */
  lemma IndexOfAppend(s: string, t: string, pat: string, from: nat)
    requires IndexOf(s, pat, from).Some?
    ensures IndexOf(s + t, pat, from) == IndexOf(s, pat, from)
  {
    var k := IndexOf(s, pat, from).value;
    assert (s + t)[k..k + |pat|] == s[k..k + |pat|];
    assert OccursAt(s + t, pat, k);
    var k' := IndexOf(s + t, pat, from).value;
    assert (s + t)[k'..k' + |pat|] == s[k'..k' + |pat|];
    assert OccursAt(s, pat, k');
  }

  /** A string without a backtick contains no pattern that starts with one. */
  lemma NoBacktickNoOccurrence(s: string, pat: string, k: nat)
    requires '`' !in s && pat != [] && pat[0] == '`'
    ensures !OccursAt(s, pat, k)
  {
  }
}
