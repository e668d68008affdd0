/**
  Character-level text operations of Python's `str` used by the modelled code:
  `strip()` over the characters `str.isspace()` accepts, lower-casing, the
  width folding part of NFKC normalisation, and rendering a non-negative
  integer in decimal.
 */
module Text {

  /**
    The characters Python's `str.isspace()` accepts, so the ones `str.strip()`
    removes when called without arguments.
   */
  predicate IsSpace(c: char)
  {
    || ('\t' <= c <= '\r')
    || ('\U{1C}' <= c <= '\U{1F}')
    || c == ' '
    || c == '\U{85}'
    || c == '\U{A0}'
    || c == '\U{1680}'
    || ('\U{2000}' <= c <= '\U{200A}')
    || c == '\U{2028}'
    || c == '\U{2029}'
    || c == '\U{202F}'
    || c == '\U{205F}'
    || c == '\U{3000}'
  }

  predicate AllSpace(s: string)
  {
    forall i :: 0 <= i < |s| ==> IsSpace(s[i])
  }

  /** The first position at or after `i` that does not hold whitespace, or `|s|`. */
  function SkipSpaces(s: string, i: nat): (b: nat)
    requires i <= |s|
    ensures i <= b <= |s|
    ensures forall k :: i <= k < b ==> IsSpace(s[k])
    ensures b < |s| ==> !IsSpace(s[b])
    decreases |s| - i
  {
    if i < |s| && IsSpace(s[i]) then SkipSpaces(s, i + 1) else i
  }

  /** The position just after the last non-whitespace character before `j`, or 0. */
  function SkipSpacesBack(s: string, j: nat): (e: nat)
    requires j <= |s|
    ensures e <= j
    ensures forall k :: e <= k < j ==> IsSpace(s[k])
    ensures e > 0 ==> !IsSpace(s[e - 1])
  {
    if j > 0 && IsSpace(s[j - 1]) then SkipSpacesBack(s, j - 1) else j
  }

  /** `n` is where the leading whitespace of `s` ends. */
  predicate IsLeadEnd(s: string, n: nat)
  {
    n <= |s| && (forall k :: 0 <= k < n ==> IsSpace(s[k])) && (n < |s| ==> !IsSpace(s[n]))
  }

  /** `n` is where the trailing whitespace of `s` starts. */
  predicate IsTrailStart(s: string, n: nat)
  {
    n <= |s| && (forall k :: n <= k < |s| ==> IsSpace(s[k])) && (n > 0 ==> !IsSpace(s[n - 1]))
  }

  lemma LeadEndUnique(s: string, m: nat, n: nat)
    requires IsLeadEnd(s, m) && IsLeadEnd(s, n)
    ensures m == n
  {
  }

  lemma TrailStartUnique(s: string, m: nat, n: nat)
    requires IsTrailStart(s, m) && IsTrailStart(s, n)
    ensures m == n
  {
  }

  /** `s.strip()`: the slice of `s` between its leading and trailing whitespace. */
  function Strip(s: string): (r: string)
    ensures |r| <= |s|
    ensures r == [] <==> AllSpace(s)
    ensures r == [] || (!IsSpace(r[0]) && !IsSpace(r[|r| - 1]))
  {
    var b := SkipSpaces(s, 0);
    var e := SkipSpacesBack(s, |s|);
    if b == |s| then []
    else
      s[b..e]
  }

  /** What `Strip` returns is `s` with its leading and trailing whitespace cut off. */
  lemma StripIsSlice(s: string)
    ensures exists b: nat, e: nat :: (IsLeadEnd(s, b) && IsTrailStart(s, e) &&
      (if b == |s| then Strip(s) == [] else b < e && Strip(s) == s[b..e]))
  {
    var b := SkipSpaces(s, 0);
    var e := SkipSpacesBack(s, |s|);
    assert IsLeadEnd(s, b) && IsTrailStart(s, e);
  }

  /** A string that neither starts nor ends with whitespace is its own `strip()`. */
  lemma StripOfTrimmed(s: string)
    requires s != [] && !IsSpace(s[0]) && !IsSpace(s[|s| - 1])
    ensures Strip(s) == s
  {
    assert SkipSpaces(s, 0) == 0;
    assert SkipSpacesBack(s, |s|) == |s|;
    assert s[0..|s|] == s;
  }

  /** Given where its leading and trailing whitespace end, `strip()` of a non-blank string is the slice between. */
  lemma StripOfBounds(u: string, b: nat, e: nat)
    requires IsLeadEnd(u, b) && IsTrailStart(u, e) && b < |u|
    ensures b < e && Strip(u) == u[b..e]
  {
    LeadEndUnique(u, SkipSpaces(u, 0), b);
    TrailStartUnique(u, SkipSpacesBack(u, |u|), e);
  }

  /** Whitespace around a string never changes what `strip()` returns. */
  lemma StripIgnoresPadding(lead: string, s: string, trail: string)
    requires AllSpace(lead) && AllSpace(trail)
    ensures Strip(lead + s + trail) == Strip(s)
  {
    if AllSpace(s) {
      PaddedAllSpace(lead, s, trail);
    } else {
      var b, e := SkipSpaces(s, 0), SkipSpacesBack(s, |s|);
      StripOfBounds(s, b, e);
      StripPadded(lead, s, trail, b, e);
    }
  }

  lemma StripPadded(lead: string, s: string, trail: string, b: nat, e: nat)
    requires AllSpace(lead) && AllSpace(trail) && IsLeadEnd(s, b) && IsTrailStart(s, e) && b < e
    ensures Strip(lead + s + trail) == s[b..e]
  {
    PaddedLeadEnd(lead, s, trail, b);
    PaddedTrailStart(lead, s, trail, e);
    var u := lead + s + trail;
    StripOfBounds(u, |lead| + b, |lead| + e);
    assert u[|lead| + b..|lead| + e] == s[b..e];
  }

  lemma PaddedAllSpace(lead: string, s: string, trail: string)
    requires AllSpace(lead) && AllSpace(s) && AllSpace(trail)
    ensures AllSpace(lead + s + trail)
  {
  }

  lemma PaddedLeadEnd(lead: string, s: string, trail: string, b: nat)
    requires AllSpace(lead) && IsLeadEnd(s, b) && b < |s|
    ensures IsLeadEnd(lead + s + trail, |lead| + b)
  {
    var u := lead + s + trail;
    assert u[|lead| + b] == s[b];
    forall k | 0 <= k < |lead| + b ensures IsSpace(u[k]) {
      if k < |lead| { assert u[k] == lead[k]; } else { assert u[k] == s[k - |lead|]; }
    }
  }

  lemma PaddedTrailStart(lead: string, s: string, trail: string, e: nat)
    requires AllSpace(trail) && IsTrailStart(s, e) && 0 < e
    ensures IsTrailStart(lead + s + trail, |lead| + e)
  {
    var u := lead + s + trail;
    assert u[|lead| + e - 1] == s[e - 1];
    forall k | |lead| + e <= k < |u| ensures IsSpace(u[k]) {
      if k < |lead| + |s| { assert u[k] == s[k - |lead|]; } else { assert u[k] == trail[k - |lead| - |s|]; }
    }
  }

  /** The capitals `lower()` changes here: ASCII `A`-`Z` and the full-width Latin capitals U+FF21-U+FF3A. */
  predicate IsCapital(c: char)
  {
    'A' <= c <= 'Z' || '\U{FF21}' <= c <= '\U{FF3A}'
  }

  /** Lower-casing of one character: a capital becomes its small letter, 32 code points on. */
  function LowerChar(c: char): char
  {
    if IsCapital(c) then (c as int + 32) as char else c
  }

  /**
    `s.lower()` on the capitals above: no capital is left, every other
    character stays where and what it was, and each capital becomes its
    small letter.
   */
  function LowerCase(s: string): (r: string)
    ensures |r| == |s|
    ensures forall i :: 0 <= i < |r| ==> !IsCapital(r[i])
    ensures forall i :: 0 <= i < |s| && !IsCapital(s[i]) ==> r[i] == s[i]
    ensures forall i :: 0 <= i < |s| && IsCapital(s[i]) ==> r[i] as int == s[i] as int + 32
  {
    seq(|s|, i requires 0 <= i < |s| => LowerChar(s[i]))
  }

  /** A string without capitals is its own lower-case form. */
  lemma LowerCaseOfLower(s: string)
    requires forall i :: 0 <= i < |s| ==> !IsCapital(s[i])
    ensures LowerCase(s) == s
  {
  }

  /** Lower-casing twice is lower-casing once. */
  lemma LowerCaseIdempotent(s: string)
    ensures LowerCase(LowerCase(s)) == LowerCase(s)
  {
    LowerCaseOfLower(LowerCase(s));
  }

  /**
    The characters the width folding of NFKC changes here: the full-width
    forms U+FF01-U+FF5E and the ideographic space U+3000.
   */
  predicate IsWide(c: char)
  {
    '\U{FF01}' <= c <= '\U{FF5E}' || c == '\U{3000}'
  }

  /**
    The width folding that NFKC performs on the characters a hand-typed email
    address is made of: the full-width forms U+FF01-U+FF5E become their ASCII
    counterparts U+0021-U+007E and the ideographic space U+3000 becomes U+0020.
   */
  function WidthFoldChar(c: char): char
  {
    if '\U{FF01}' <= c <= '\U{FF5E}' then (c as int - 0xFEE0) as char
    else if c == '\U{3000}' then ' '
    else c
  }

  /**
    No full-width form and no ideographic space is left; every other
    character stays where and what it was; a full-width form becomes the
    ASCII character it stands for and the ideographic space a blank.
   */
  function WidthFold(s: string): (r: string)
    ensures |r| == |s|
    ensures forall i :: 0 <= i < |r| ==> !IsWide(r[i])
    ensures forall i :: 0 <= i < |s| && !IsWide(s[i]) ==> r[i] == s[i]
    ensures forall i :: 0 <= i < |s| && '\U{FF01}' <= s[i] <= '\U{FF5E}' ==> r[i] as int == s[i] as int - 0xFEE0
    ensures forall i :: 0 <= i < |s| && s[i] == '\U{3000}' ==> r[i] == ' '
  {
    seq(|s|, i requires 0 <= i < |s| => WidthFoldChar(s[i]))
  }

  /** A string without wide characters is its own width-folded form. */
  lemma WidthFoldOfNarrow(s: string)
    requires forall i :: 0 <= i < |s| ==> !IsWide(s[i])
    ensures WidthFold(s) == s
  {
  }

  /** Width folding twice is width folding once. */
  lemma WidthFoldIdempotent(s: string)
    ensures WidthFold(WidthFold(s)) == WidthFold(s)
  {
    WidthFoldOfNarrow(WidthFold(s));
  }

  predicate IsDigit(c: char)
  {
    '0' <= c <= '9'
  }

  /** The number a string of decimal digits denotes. */
  function DecimalValue(s: string): int
  {
    if s == [] then 0 else DecimalValue(s[..|s| - 1]) * 10 + (s[|s| - 1] as int - '0' as int)
  }

  /** `str(n)` for a non-negative integer: its digits without leading zeros. */
  function DecimalString(n: nat): (r: string)
    ensures |r| >= 1 && forall i :: 0 <= i < |r| ==> IsDigit(r[i])
    ensures DecimalValue(r) == n
    ensures r[0] == '0' ==> |r| == 1
    decreases n
  {
    var last := [('0' as int + n % 10) as char];
    if n < 10 then last
    else
      var r := DecimalString(n / 10) + last;
      assert r[..|r| - 1] == DecimalString(n / 10);
      r
  }
}
