/**
 * The few Ruby and ActiveSupport string operations the core relies on:
 * `strip`, `blank?`/`present?`, `start_with?`, `include?`, `join` and
 * splitting at the first occurrence of a character.
 */
module Text {

  /** Characters `String#strip` removes at either end: ASCII whitespace and NUL. */
  predicate IsStripSpace(c: char) {
    c == ' ' || c == '\t' || c == '\n' || c == '\U{0B}' || c == '\U{0C}' || c == '\r' || c == '\0'
  }

  /** C's `isspace` in the "C" locale, which `split(" ")` uses to find fields. */
  predicate IsAsciiSpace(c: char) {
    c == ' ' || c == '\t' || c == '\n' || c == '\U{0B}' || c == '\U{0C}' || c == '\r'
  }

  /** The POSIX class [[:space:]] on Unicode text (the White_Space property): what `blank?` skips. */
  predicate IsBlankChar(c: char) {
    || IsAsciiSpace(c)
    || c == '\U{85}' || c == '\U{A0}' || c == '\U{1680}'
    || ('\U{2000}' <= c <= '\U{200A}')
    || c == '\U{2028}' || c == '\U{2029}' || c == '\U{202F}' || c == '\U{205F}' || c == '\U{3000}'
  }

  /** ActiveSupport's `String#blank?`: empty or made only of [[:space:]]. */
  predicate Blank(s: string) {
    forall i :: 0 <= i < |s| ==> IsBlankChar(s[i])
  }

  /** ActiveSupport's `present?`, the negation of `blank?`. */
  predicate Present(s: string) {
    !Blank(s)
  }

  /** The first position at or after `k` that holds no strip-able character, or the end of `s`. */
  function LeadingSpaces(s: string, k: nat): (n: nat)
    requires k <= |s|
    ensures k <= n <= |s|
    ensures forall j :: k <= j < n ==> IsStripSpace(s[j])
    ensures n < |s| ==> !IsStripSpace(s[n])
    decreases |s| - k
  {
    if k < |s| && IsStripSpace(s[k]) then LeadingSpaces(s, k + 1) else k
  }

  /** The end of `s[..hi]` once strip-able characters are dropped from the back, never going below `lo`. */
  function TrailingEnd(s: string, lo: nat, hi: nat): (n: nat)
    requires lo <= hi <= |s|
    ensures lo <= n <= hi
    ensures forall j :: n <= j < hi ==> IsStripSpace(s[j])
    ensures lo < n ==> !IsStripSpace(s[n - 1])
    decreases hi
  {
    if hi > lo && IsStripSpace(s[hi - 1]) then TrailingEnd(s, lo, hi - 1) else hi
  }

  /** The slice `s[lo..hi]` that `strip` keeps. */
  function StripBounds(s: string): (b: (nat, nat))
    ensures b.0 <= b.1 <= |s|
    ensures forall k :: 0 <= k < b.0 ==> IsStripSpace(s[k])
    ensures forall k :: b.1 <= k < |s| ==> IsStripSpace(s[k])
    ensures b.0 < b.1 ==> !IsStripSpace(s[b.0]) && !IsStripSpace(s[b.1 - 1])
  {
    var lo := LeadingSpaces(s, 0);
    (lo, TrailingEnd(s, lo, |s|))
  }

  /** Ruby's `String#strip`: a slice of `s` that neither starts nor ends with a strip-able character. */
  function Strip(s: string): (r: string)
    ensures |r| <= |s|
    ensures r != "" ==> !IsStripSpace(r[0]) && !IsStripSpace(r[|r| - 1])
  {
    s[StripBounds(s).0..StripBounds(s).1]
  }

  /**
   * `strip` is the one slice of `s` with only strip-able characters outside
   * it and, when not empty, none at its two ends.
   */
  lemma StripIsTheTrimmedSlice(s: string, lo: nat, hi: nat)
    requires lo <= hi <= |s|
    requires forall j :: 0 <= j < lo ==> IsStripSpace(s[j])
    requires forall j :: hi <= j < |s| ==> IsStripSpace(s[j])
    requires lo < hi ==> !IsStripSpace(s[lo]) && !IsStripSpace(s[hi - 1])
    ensures Strip(s) == s[lo..hi]
  {
  }

  /** A string made only of strip-able characters strips to the empty string, which is blank. */
  lemma StripAllSpace(s: string)
    requires forall k :: 0 <= k < |s| ==> IsStripSpace(s[k])
    ensures Strip(s) == "" && Blank(Strip(s))
  {
  }

  /** Regrouping a concatenation, stated once so that long proofs need not rediscover it. */
  lemma AppendAssoc<T>(x: seq<T>, y: seq<T>, z: seq<T>)
    ensures (x + y) + z == x + (y + z)
  {
  }

  /** Ruby's `start_with?`. */
  predicate StartsWith(s: string, prefix: string) {
    |prefix| <= |s| && s[..|prefix|] == prefix
  }

  /** `sub` occurs in `s` at position `i`. */
  predicate OccursAt(s: string, sub: string, i: nat) {
    i + |sub| <= |s| && s[i..i + |sub|] == sub
  }

  /** Ruby's `include?` on strings. */
  predicate Contains(s: string, sub: string) {
    exists i: nat | i <= |s| :: OccursAt(s, sub, i)
  }

  lemma ContainsWitness(s: string, sub: string, i: nat)
    requires OccursAt(s, sub, i)
    ensures Contains(s, sub)
  {
  }

  /** Ruby's `Array#join(sep)` on strings. */
  function Join(parts: seq<string>, sep: string): string {
    if parts == [] then ""
    else if |parts| == 1 then parts[0]
    else parts[0] + sep + Join(parts[1..], sep)
  }

  /** Position of the first `c` at or after `k`, or `|s|` when there is none. */
  function IndexFrom(s: string, c: char, k: nat): (i: nat)
    requires k <= |s|
    ensures k <= i <= |s|
    ensures forall j :: k <= j < i ==> s[j] != c
    ensures i < |s| ==> s[i] == c
    decreases |s| - k
  {
    if k == |s| || s[k] == c then k else IndexFrom(s, c, k + 1)
  }

  /** Position of the first `c` in `s`. */
  function IndexOf(s: string, c: char): (i: nat)
    requires c in s
    ensures i < |s| && s[i] == c && c !in s[..i]
  {
    IndexFrom(s, c, 0)
  }

  /**
   * `s.split(c, 2)` when `s` contains `c`: the text before the first `c`
   * and the text after it (possibly empty).
   */
  function SplitAtFirst(s: string, c: char): (r: (string, string))
    requires c in s
    ensures s == r.0 + [c] + r.1
    ensures c !in r.0
    ensures |r.1| < |s|
  {
    var i := IndexOf(s, c);
    assert s == s[..i] + [c] + s[i + 1..];
    (s[..i], s[i + 1..])
  }

  /** The split is at the first `c`: a text built as `a`, `c`, `b` with no `c` in `a` splits back into `a` and `b`. */
  lemma SplitAtFirstOf(a: string, c: char, b: string)
    requires c !in a
    ensures SplitAtFirst(a + [c] + b, c) == (a, b)
  {
    var s := a + [c] + b;
    assert s[..|a|] == a && s[|a|] == c;
  }
}
