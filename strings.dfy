/** Python's `str.strip()` with no argument: remove leading and trailing
    whitespace, where whitespace is what `str.isspace()` accepts. */
module Strings {

  /** The characters CPython's `str.isspace()` accepts: the ASCII controls
      TAB..CR and FS..US, SPACE, NEL, NO-BREAK SPACE and the Unicode space
      separators and line/paragraph separators. */
  predicate IsSpace(c: char) {
    var n := c as int;
    || 0x09 <= n <= 0x0D
    || 0x1C <= n <= 0x20
    || n == 0x85
    || n == 0xA0
    || n == 0x1680
    || 0x2000 <= n <= 0x200A
    || n == 0x2028
    || n == 0x2029
    || n == 0x202F
    || n == 0x205F
    || n == 0x3000
  }

  /** Sample characters on both sides of the `str.isspace()` boundary:
      ASCII and Unicode spaces count, the zero-width space and the soft
      hyphen do not. */
  lemma IsSpaceSamples()
    ensures IsSpace(' ') && IsSpace('\t') && IsSpace('\n') && IsSpace('\r')
    ensures IsSpace('\U{00A0}') && IsSpace('\U{2003}') && IsSpace('\U{3000}')
    ensures !IsSpace('a') && !IsSpace('_') && !IsSpace('\U{200B}') && !IsSpace('\U{00AD}')
  {
  }

  predicate AllSpace(s: string) {
    forall i :: 0 <= i < |s| ==> IsSpace(s[i])
  }

  /** Neither the first nor the last character is whitespace. */
  predicate Trimmed(s: string) {
    s == [] || (!IsSpace(s[0]) && !IsSpace(s[|s| - 1]))
  }

  /** How many whitespace characters `s` starts with: what `s.lstrip()`
      removes. */
  function LeadingSpace(s: string): (n: nat)
    ensures n <= |s| && AllSpace(s[..n])
    ensures n == |s| || !IsSpace(s[n])
  {
    if s != [] && IsSpace(s[0]) then
      var m := LeadingSpace(s[1..]);
      assert s[..m + 1] == [s[0]] + s[1..][..m];
      m + 1
    else
      0
  }

  /** How many whitespace characters `s` ends with: what `s.rstrip()`
      removes. */
  function TrailingSpace(s: string): (n: nat)
    ensures n <= |s| && AllSpace(s[|s| - n..])
    ensures n == |s| || !IsSpace(s[|s| - n - 1])
  {
    if s != [] && IsSpace(s[|s| - 1]) then
      var m := TrailingSpace(s[..|s| - 1]);
      assert s[|s| - m - 1..] == s[..|s| - 1][|s| - 1 - m..] + [s[|s| - 1]];
      m + 1
    else
      0
  }

  /** `s.strip()`: `s` without its leading and its trailing whitespace; a
      string of whitespace only strips to the empty string. */
  function Strip(s: string): (r: string)
    ensures |r| <= |s| && Trimmed(r)
  {
    var i := LeadingSpace(s);
    var j := |s| - TrailingSpace(s);
    if i < j then s[i..j] else []
  }

  /** Strip removes nothing but whitespace: the result is the stretch of `s`
      after its leading whitespace, and everything around it is whitespace. */
  lemma StripRemovesOnlySpace(s: string)
    ensures var i := LeadingSpace(s); var k := i + |Strip(s)|;
      && k <= |s| && Strip(s) == s[i..k]
      && AllSpace(s[..i]) && AllSpace(s[k..])
  {
    // When `s` is all whitespace the leading count is `|s|` and Strip keeps
    // the empty stretch at the end; otherwise the two counts do not meet.
  }

  /** Whitespace in front of a part that does not start with whitespace is
      exactly the leading whitespace. */
  lemma {:induction false} LeadingSpacePadded(lead: string, rest: string)
    requires AllSpace(lead)
    requires rest == [] || !IsSpace(rest[0])
    ensures LeadingSpace(lead + rest) == |lead|
  {
    if lead == [] {
      assert lead + rest == rest;
    } else {
      assert (lead + rest)[0] == lead[0];
      assert (lead + rest)[1..] == lead[1..] + rest;
      LeadingSpacePadded(lead[1..], rest);
    }
  }

  /** Whitespace behind a part that does not end with whitespace is exactly
      the trailing whitespace. */
  lemma {:induction false} TrailingSpacePadded(rest: string, trail: string)
    requires AllSpace(trail)
    requires rest == [] || !IsSpace(rest[|rest| - 1])
    ensures TrailingSpace(rest + trail) == |trail|
  {
    if trail == [] {
      assert rest + trail == rest;
    } else {
      var s := rest + trail;
      assert s[|s| - 1] == trail[|trail| - 1];
      assert s[..|s| - 1] == rest + trail[..|trail| - 1];
      TrailingSpacePadded(rest, trail[..|trail| - 1]);
    }
  }

  /** Strip undoes any whitespace padding of a trimmed string: a header
      written " Image_URL " strips to "Image_URL". */
  lemma StripPadded(lead: string, core: string, trail: string)
    requires AllSpace(lead) && AllSpace(trail) && Trimmed(core)
    ensures Strip(lead + core + trail) == core
  {
    var s := lead + core + trail;
    if core == [] {
      assert s == lead + trail + [];
      LeadingSpacePadded(lead + trail, []);
    } else {
      assert s == lead + (core + trail);
      LeadingSpacePadded(lead, core + trail);
      TrailingSpacePadded(lead + core, trail);
      assert s[|lead|..|lead| + |core|] == core;
    }
  }

  /** A string that is already trimmed is left as it is. */
  lemma StripTrimmed(s: string)
    requires Trimmed(s)
    ensures Strip(s) == s
  {
    StripPadded([], s, []);
    assert [] + s + [] == s;
  }

  /** Stripping twice is stripping once. */
  lemma StripIdempotent(s: string)
    ensures Strip(Strip(s)) == Strip(s)
  {
    StripTrimmed(Strip(s));
  }
}
