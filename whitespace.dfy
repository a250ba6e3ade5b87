/**
 * Python's `str.strip()` with no argument: drop the longest whitespace prefix
 * and the longest whitespace suffix. Whitespace is the set `str.isspace`
 * accepts.
 */
module Whitespace {

  /** The characters Python's `str.isspace` accepts. */
  predicate IsSpace(c: char) {
    var n := c as int;
    (0x09 <= n <= 0x0D) || (0x1C <= n <= 0x20) || n == 0x85 || n == 0xA0 || n == 0x1680
    || (0x2000 <= n <= 0x200A) || n == 0x2028 || n == 0x2029 || n == 0x202F || n == 0x205F
    || n == 0x3000
  }

  predicate AllSpace(s: string) {
    forall i :: 0 <= i < |s| ==> IsSpace(s[i])
  }

  /** Neither the first nor the last character is whitespace. */
  predicate Trimmed(s: string) {
    s == [] || (!IsSpace(s[0]) && !IsSpace(s[|s| - 1]))
  }

  /** Length of the leading whitespace run. */
  function LeadingSpace(s: string): (n: nat)
    ensures n <= |s| && AllSpace(s[..n])
    ensures n < |s| ==> !IsSpace(s[n])
  {
    if s == [] || !IsSpace(s[0]) then 0
    else
      var n := 1 + LeadingSpace(s[1..]);
      assert s[..n] == [s[0]] + s[1..][..n - 1];
      n
  }

  /** Where the trailing whitespace run begins. */
  function TrailingStart(s: string): (n: nat)
    ensures n <= |s| && forall k :: n <= k < |s| ==> IsSpace(s[k])
    ensures n > 0 ==> !IsSpace(s[n - 1])
  {
    if s == [] || !IsSpace(s[|s| - 1]) then |s|
    else
      TrailingStart(s[..|s| - 1])
  }

  /**
   * Where the stripped text ends inside `s`; it starts at `LeadingSpace(s)`.
   * When `s` is all whitespace both runs cover it and the end is clamped to
   * the start, so the stripped text is empty.
   */
  function StripEnd(s: string): (j: nat)
    ensures LeadingSpace(s) <= j <= |s|
  {
    var i, j := LeadingSpace(s), TrailingStart(s);
    if j < i then i else j
  }

  /** `s.strip()`. */
  function Strip(s: string): string
  {
    s[LeadingSpace(s)..StripEnd(s)]
  }

  /**
   * What strip leaves: a trimmed middle, with only whitespace cut off on
   * either side of it.
   */
  lemma StripParts(s: string)
    ensures Trimmed(Strip(s))
    ensures s == s[..LeadingSpace(s)] + Strip(s) + s[StripEnd(s)..]
    ensures AllSpace(s[..LeadingSpace(s)]) && AllSpace(s[StripEnd(s)..])
  {
    var i, j := LeadingSpace(s), StripEnd(s);
    SuffixAllSpace(s, j);
    ThreeParts(s, i, j);
    StripTrimmed(s);
  }

  lemma SuffixAllSpace(s: string, j: nat)
    requires j <= |s| && forall k :: j <= k < |s| ==> IsSpace(s[k])
    ensures AllSpace(s[j..])
  {
    forall k | 0 <= k < |s| - j ensures IsSpace(s[j..][k]) { assert s[j..][k] == s[j + k]; }
  }

  lemma ThreeParts(s: string, i: nat, j: nat)
    requires i <= j <= |s|
    ensures s == s[..i] + s[i..j] + s[j..]
  {
  }

  lemma StripTrimmed(s: string)
    ensures Trimmed(Strip(s))
  {
    var i, j := LeadingSpace(s), StripEnd(s);
    assert i < j ==> s[i] == s[i..j][0];
  }

  /** The leading whitespace run ends at the first non-whitespace character. */
  lemma LeadingSpaceAt(s: string, p: nat)
    requires p <= |s| && forall k :: 0 <= k < p ==> IsSpace(s[k])
    requires p < |s| ==> !IsSpace(s[p])
    ensures LeadingSpace(s) == p
  {
    var i := LeadingSpace(s);
    assert forall k :: 0 <= k < i ==> IsSpace(s[k]) by {
      forall k | 0 <= k < i ensures IsSpace(s[k]) { assert s[k] == s[..i][k]; }
    }
    SameBoundary(s, i, p);
  }

  /**
   * Two whitespace runs from the start of `s` that both end at a
   * non-whitespace character (or at the end) are the same run.
   */
  lemma SameBoundary(s: string, i: nat, p: nat)
    requires i <= |s| && p <= |s|
    requires forall k :: 0 <= k < i ==> IsSpace(s[k])
    requires i < |s| ==> !IsSpace(s[i])
    requires forall k :: 0 <= k < p ==> IsSpace(s[k])
    requires p < |s| ==> !IsSpace(s[p])
    ensures i == p
  {
  }

  /** The same, for whitespace runs that reach the end of `s`. */
  lemma SameBoundaryEnd(s: string, t: nat, q: nat)
    requires t <= |s| && q <= |s|
    requires forall k :: t <= k < |s| ==> IsSpace(s[k])
    requires t > 0 ==> !IsSpace(s[t - 1])
    requires forall k :: q <= k < |s| ==> IsSpace(s[k])
    requires q > 0 ==> !IsSpace(s[q - 1])
    ensures t == q
  {
  }

  /** The trailing whitespace run starts after the last non-whitespace character. */
  lemma TrailingStartAt(s: string, q: nat)
    requires q <= |s| && forall k :: q <= k < |s| ==> IsSpace(s[k])
    requires q > 0 ==> !IsSpace(s[q - 1])
    ensures TrailingStart(s) == q
  {
    SameBoundaryEnd(s, TrailingStart(s), q);
  }

  /**
   * Strip is characterised by its three parts: whenever `s` is whitespace,
   * then a trimmed middle, then whitespace, that middle is `Strip(s)`.
   */
  lemma StripUnique(s: string, a: string, m: string, b: string)
    requires s == a + m + b && AllSpace(a) && AllSpace(b) && Trimmed(m)
    ensures Strip(s) == m
  {
    var e := |a| + |m|;
    SpaceEnds(s, a, m, b);
    if m == [] {
      LeadingSpaceAt(s, |s|);
    } else {
      MiddleEnds(s, a, m, b);
      LeadingSpaceAt(s, |a|);
      TrailingStartAt(s, e);
    }
    assert s[|a|..e] == m;
  }

  /** The whitespace around the middle, seen as positions of `s`. */
  lemma SpaceEnds(s: string, a: string, m: string, b: string)
    requires s == a + m + b && AllSpace(a) && AllSpace(b)
    ensures forall k :: 0 <= k < |a| ==> IsSpace(s[k])
    ensures forall k :: |a| + |m| <= k < |s| ==> IsSpace(s[k])
  {
    forall k | 0 <= k < |a| ensures IsSpace(s[k]) { assert s[k] == a[k]; }
    forall k | |a| + |m| <= k < |s| ensures IsSpace(s[k]) { assert s[k] == b[k - |a| - |m|]; }
  }

  /** The first and last characters of the middle, seen as positions of `s`. */
  lemma MiddleEnds(s: string, a: string, m: string, b: string)
    requires s == a + m + b && m != []
    ensures s[|a|] == m[0] && s[|a| + |m| - 1] == m[|m| - 1]
  {
  }

  /** Stripping twice is stripping once. */
  lemma StripIdempotent(s: string)
    ensures Strip(Strip(s)) == Strip(s)
  {
    StripTrimmed(s);
    StripUnique(Strip(s), [], Strip(s), []);
  }
}
