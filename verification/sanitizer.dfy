/** SchemalessMetricSanitizer: turns user-controlled strings into MINT metric
    identifiers, dimension identifiers and dimension values. */
module Sanitizer {
  import opened JavaString

  // ---------------------------------------------------------------------------
  // Character classes
  // ---------------------------------------------------------------------------

  predicate IsAsciiLetter(c: char)
  {
    'A' <= c <= 'Z' || 'a' <= c <= 'z'
  }

  /** The identifier alphabet [A-Za-z0-9._-]. */
  predicate IsIdentifierChar(c: char)
  {
    IsAsciiLetter(c) || IsAsciiDigit(c) || c == '.' || c == '_' || c == '-'
  }

  /** The characters a section may not start with: [0-9_-]. */
  predicate IsBadSectionStart(c: char)
  {
    IsAsciiDigit(c) || c == '_' || c == '-'
  }

  /** The section separator of an identifier. */
  predicate IsDot(c: char)
  {
    c == '.'
  }

  predicate InAlphabet(s: string)
  {
    forall i :: 0 <= i < |s| ==> IsIdentifierChar(s[i])
  }

  /** A well-formed MINT identifier: only alphabet characters, and neither the
      string nor any section after a dot starts with a digit, '_' or '-'. */
  predicate IsCleanIdentifier(s: string)
  {
    && InAlphabet(s)
    && (|s| > 0 ==> !IsBadSectionStart(s[0]))
    && SectionsStartWell(s)
  }

  // ---------------------------------------------------------------------------
  // The three regular-expression passes of sanitizeIdentifierForMint
  // ---------------------------------------------------------------------------

  /** replaceAll("[^A-Za-z0-9._-]", "_"): every character outside the
      alphabet becomes '_', all others stay. */
  function ReplaceInvalid(s: string): (r: string)
    ensures |r| == |s|
    ensures forall i :: 0 <= i < |s| ==> r[i] == (if IsIdentifierChar(s[i]) then s[i] else '_')
    ensures InAlphabet(r)
  {
    if |s| == 0 then "" else [if IsIdentifierChar(s[0]) then s[0] else '_'] + ReplaceInvalid(s[1..])
  }

  /** The length of the run of bad section starts at the front of s. */
  function BadRunLength(s: string): (n: nat)
    ensures n <= |s|
    ensures forall i :: 0 <= i < n ==> IsBadSectionStart(s[i])
    ensures n < |s| ==> !IsBadSectionStart(s[n])
  {
    if |s| > 0 && IsBadSectionStart(s[0]) then 1 + BadRunLength(s[1..]) else 0
  }

  /** replaceAll("^[0-9_-]+", ""): removes the longest prefix made of bad
      section starts; what is left does not start with one. */
  function StripBadStart(s: string): (r: string)
    ensures |r| <= |s|
    ensures |r| > 0 ==> !IsBadSectionStart(r[0])
    ensures r == s[|s| - |r|..]
    ensures forall i :: 0 <= i < |s| - |r| ==> IsBadSectionStart(s[i])
  {
    s[BadRunLength(s)..]
  }

  /** replaceAll("\\.[0-9_-]+", "."): scanning left to right, a dot followed
      by bad section starts loses the whole run behind it. */
  function CollapseSections(s: string): (r: string)
    ensures |r| <= |s|
    ensures |s| > 0 ==> |r| > 0 && r[0] == s[0]
    decreases |s|
  {
    if |s| == 0 then ""
    else if s[0] == '.' then "." + CollapseSections(StripBadStart(s[1..]))
    else [s[0]] + CollapseSections(s[1..])
  }

  /** No dot followed by a bad section start. */
  predicate SectionsStartWell(s: string)
  {
    forall i :: 0 <= i < |s| - 1 && s[i] == '.' ==> !IsBadSectionStart(s[i + 1])
  }

  /** What is left after stripping is part of the input, so it stays in the alphabet. */
  lemma StripBadStartInAlphabet(s: string)
    requires InAlphabet(s)
    ensures InAlphabet(StripBadStart(s))
  {
    var n := BadRunLength(s);
    forall i | 0 <= i < |s| - n
      ensures IsIdentifierChar(s[n..][i])
    {
      assert s[n..][i] == s[n + i];
    }
  }

  /** The section pass keeps the alphabet and leaves no dot followed by a bad
      section start. */
  lemma {:induction false} CollapseSectionsWellFormed(s: string)
    ensures InAlphabet(s) ==> InAlphabet(CollapseSections(s))
    ensures SectionsStartWell(CollapseSections(s))
    decreases |s|
  {
    if |s| == 0 {
    } else if s[0] == '.' {
      var rest := StripBadStart(s[1..]);
      if InAlphabet(s) {
        assert InAlphabet(s[1..]);
        StripBadStartInAlphabet(s[1..]);
      }
      CollapseSectionsWellFormed(rest);
      var tail := CollapseSections(rest);
      var r := "." + tail;
      forall i | 0 <= i < |r| - 1 && r[i] == '.'
        ensures !IsBadSectionStart(r[i + 1])
      {
        if i > 0 {
          assert r[i] == tail[i - 1] && r[i + 1] == tail[i];
        }
      }
      if InAlphabet(s) {
        forall i | 0 <= i < |r| ensures IsIdentifierChar(r[i]) {
          if i > 0 { assert r[i] == tail[i - 1]; }
        }
      }
    } else {
      if InAlphabet(s) {
        assert InAlphabet(s[1..]);
      }
      CollapseSectionsWellFormed(s[1..]);
      var tail := CollapseSections(s[1..]);
      var r := [s[0]] + tail;
      forall i | 0 <= i < |r| - 1 && r[i] == '.'
        ensures !IsBadSectionStart(r[i + 1])
      {
        if i > 0 {
          assert r[i] == tail[i - 1] && r[i + 1] == tail[i];
        }
      }
      if InAlphabet(s) {
        forall i | 0 <= i < |r| ensures IsIdentifierChar(r[i]) {
          if i > 0 { assert r[i] == tail[i - 1]; }
        }
      }
    }
  }

  // ---------------------------------------------------------------------------
  // The public sanitizers
  // ---------------------------------------------------------------------------

  /** sanitizeMetricIdentifier (sanitizeIdentifierForMint behind the null
      check): the three passes in order. The result is a clean identifier,
      never longer than the input, and empty input stays empty. */
  function SanitizeMetricIdentifier(identifier: string): (r: string)
    ensures IsCleanIdentifier(r)
    ensures |r| <= |identifier|
    ensures identifier == "" ==> r == ""
  {
    var stripped := StripBadStart(ReplaceInvalid(identifier));
    StripBadStartInAlphabet(ReplaceInvalid(identifier));
    CollapseSectionsWellFormed(stripped);
    CollapseSections(stripped)
  }

  /** sanitizeDimensionIdentifier: the metric identifier, lower-cased. The
      result is still clean, has no upper-case letter, and is character for
      character the lower-casing of the metric identifier. */
  function SanitizeDimensionIdentifier(identifier: string): (r: string)
    ensures IsCleanIdentifier(r)
    ensures NoUpperCase(r)
    ensures var m := SanitizeMetricIdentifier(identifier);
            |r| == |m| && forall i :: 0 <= i < |r| ==> r[i] == LowerAscii(m[i])
  {
    var m := SanitizeMetricIdentifier(identifier);
    LowerKeepsClean(m);
    ToLowerAscii(m)
  }

  predicate NoUpperCase(s: string)
  {
    forall i :: 0 <= i < |s| ==> !('A' <= s[i] <= 'Z')
  }

  /** Lower-casing changes nothing in a string without upper-case letters. */
  lemma LowerOfLowerIsSame(s: string)
    requires NoUpperCase(s)
    ensures ToLowerAscii(s) == s
  {
    var l := ToLowerAscii(s);
    assert forall i :: 0 <= i < |s| ==> l[i] == s[i];
  }

  /** Lower-casing maps letters to letters and leaves every other character
      alone, so a clean identifier stays clean. */
  lemma LowerKeepsClean(s: string)
    requires IsCleanIdentifier(s)
    ensures IsCleanIdentifier(ToLowerAscii(s))
  {
    var r := ToLowerAscii(s);
    forall i | 0 <= i < |r|
      ensures IsIdentifierChar(r[i]) && (IsBadSectionStart(r[i]) <==> IsBadSectionStart(s[i])) && (r[i] == '.' <==> s[i] == '.')
    {
      assert r[i] == LowerAscii(s[i]);
    }
  }

  /** A value already starting and ending with a double quote; a lone quote
      character counts. */
  predicate IsQuoted(v: string)
  {
    |v| >= 1 && v[0] == '"' && v[|v| - 1] == '"'
  }

  /** A value holding one of the characters that would break the line syntax. */
  predicate NeedsQuotes(v: string)
  {
    ' ' in v || ',' in v || '=' in v
  }

  /** sanitizeDimensionValue: quoted values are kept, values with a space,
      comma or '=' are wrapped in double quotes without escaping anything
      inside, all others are kept. The result is therefore either quoted or
      free of those characters. */
  function SanitizeDimensionValue(value: string): (r: string)
    ensures r == value || r == "\"" + value + "\""
    ensures r != value <==> !IsQuoted(value) && NeedsQuotes(value)
    ensures IsQuoted(r) || !NeedsQuotes(r)
  {
    if IsQuoted(value) then value
    else if NeedsQuotes(value) then "\"" + value + "\""
    else value
  }

  // ---------------------------------------------------------------------------
  // Properties
  // ---------------------------------------------------------------------------

  /** A string with no dot followed by a bad section start is left alone by
      the section pass. */
  lemma {:induction false} CollapseSectionsKeepsClean(s: string)
    requires forall i :: 0 <= i < |s| - 1 && s[i] == '.' ==> !IsBadSectionStart(s[i + 1])
    ensures CollapseSections(s) == s
    decreases |s|
  {
    if |s| > 0 {
      if s[0] == '.' {
        assert StripBadStart(s[1..]) == s[1..];
      }
      CollapseSectionsKeepsClean(s[1..]);
      assert s == [s[0]] + s[1..];
    }
  }

  /** A clean identifier is its own sanitisation. */
  lemma CleanIdentifierIsFixed(s: string)
    requires IsCleanIdentifier(s)
    ensures SanitizeMetricIdentifier(s) == s
  {
    assert ReplaceInvalid(s) == s;
    assert StripBadStart(s) == s;
    CollapseSectionsKeepsClean(s);
  }

  /** Sanitising twice is sanitising once. */
  lemma SanitizeMetricIdentifierIdempotent(s: string)
    ensures SanitizeMetricIdentifier(SanitizeMetricIdentifier(s)) == SanitizeMetricIdentifier(s)
  {
    CleanIdentifierIsFixed(SanitizeMetricIdentifier(s));
  }

  /** The identifiers the sanitiser leaves unchanged are exactly the clean ones. */
  lemma SanitizeMetricIdentifierFixedIff(s: string)
    ensures SanitizeMetricIdentifier(s) == s <==> IsCleanIdentifier(s)
  {
    if IsCleanIdentifier(s) {
      CleanIdentifierIsFixed(s);
    }
  }

  /** The dimension-identifier sanitiser is idempotent as well. */
  lemma SanitizeDimensionIdentifierIdempotent(s: string)
    ensures SanitizeDimensionIdentifier(SanitizeDimensionIdentifier(s)) == SanitizeDimensionIdentifier(s)
  {
    var r := SanitizeDimensionIdentifier(s);
    CleanIdentifierIsFixed(r);
    LowerOfLowerIsSame(r);
  }

  /** Sanitising a dimension value twice is sanitising it once. */
  lemma SanitizeDimensionValueIdempotent(v: string)
    ensures SanitizeDimensionValue(SanitizeDimensionValue(v)) == SanitizeDimensionValue(v)
  {
  }

  // ---------------------------------------------------------------------------
  // Section view: the identifier promise stated per dot-separated section
  // ---------------------------------------------------------------------------

  /** Each section with its leading bad characters removed. */
  function StripEach(sections: seq<string>): (r: seq<string>)
    ensures |r| == |sections|
    ensures forall i :: 0 <= i < |r| ==> r[i] == StripBadStart(sections[i])
  {
    if |sections| == 0 then [] else [StripBadStart(sections[0])] + StripEach(sections[1..])
  }

  /** Cut t at every dot, strip the bad start of every section, and put the
      dots back: the reading of the three passes that the doc comment describes. */
  function SanitizeSections(t: string): string
  {
    var sections := SplitAll(t, IsDot);
    Interleave(StripEach(sections), Delims(t, IsDot))
  }

  lemma {:induction false} CollapseSectionsDotFreePrefix(a: string, b: string)
    requires '.' !in a
    ensures CollapseSections(a + b) == a + CollapseSections(b)
  {
    if |a| > 0 {
      assert (a + b)[0] == a[0];
      assert (a + b)[1..] == a[1..] + b;
      CollapseSectionsDotFreePrefix(a[1..], b);
      assert a == [a[0]] + a[1..];
    } else {
      assert a + b == b;
    }
  }

  /** A dot ends the run of bad starts, so text behind it never extends it. */
  lemma {:induction false} BadRunLengthBeforeDot(a: string, b: string)
    requires |b| > 0 && b[0] == '.'
    ensures BadRunLength(a + b) == BadRunLength(a)
  {
    if |a| > 0 {
      assert (a + b)[0] == a[0];
      assert (a + b)[1..] == a[1..] + b;
      BadRunLengthBeforeDot(a[1..], b);
    } else {
      assert a + b == b;
    }
  }

  lemma StripBadStartBeforeDot(a: string, b: string)
    requires |b| > 0 && b[0] == '.'
    ensures StripBadStart(a + b) == StripBadStart(a) + b
  {
    BadRunLengthBeforeDot(a, b);
    var n := BadRunLength(a);
    assert (a + b)[n..] == a[n..] + b;
  }

  /** The first dot of t, or |t| when there is none. */
  function FirstDot(t: string): (i: nat)
    ensures i <= |t|
    ensures forall j :: 0 <= j < i ==> t[j] != '.'
    ensures i < |t| ==> t[i] == '.'
  {
    if |t| == 0 then 0 else if t[0] == '.' then 0 else 1 + FirstDot(t[1..])
  }

  lemma StripKeepsDotFree(a: string)
    requires '.' !in a
    ensures '.' !in StripBadStart(a)
  {
    var n := BadRunLength(a);
    forall j | 0 <= j < |a| - n ensures a[n..][j] != '.' {
      assert a[n..][j] == a[n + j];
    }
  }

  /** Without a dot there is one section, and both readings only strip its start. */
  lemma SectionwiseWithoutDot(t: string)
    requires '.' !in t
    ensures SanitizeSections(t) == StripBadStart(t)
    ensures CollapseSections(StripBadStart(t)) == StripBadStart(t)
  {
    assert forall j :: 0 <= j < |t| ==> !IsDot(t[j]);
    SplitAllNoDelims(t, IsDot);
    var st := StripBadStart(t);
    StripKeepsDotFree(t);
    CollapseSectionsDotFreePrefix(st, "");
    assert st + "" == st;
  }

  /** The section view of a string with a first dot: the first section, then
      the dot, then the rest. */
  lemma SectionsAtFirstDot(a: string, rest: string)
    requires '.' !in a
    ensures SanitizeSections(a + ['.'] + rest) == StripBadStart(a) + "." + SanitizeSections(rest)
  {
    assert forall j :: 0 <= j < |a| ==> !IsDot(a[j]);
    SplitAllFirstPiece(a, '.', rest, IsDot);
    var sections := SplitAll(rest, IsDot);
    var delims := Delims(rest, IsDot);
    var stripped := StripEach([a] + sections);
    assert stripped == [StripBadStart(a)] + StripEach(sections);
    assert stripped[1..] == StripEach(sections);
    assert (['.'] + delims)[1..] == delims;
  }

  /** The regex passes on a string with a first dot: the first section
      stripped, then the dot, then the passes on the rest. */
  lemma PassesAtFirstDot(a: string, rest: string)
    requires '.' !in a
    ensures CollapseSections(StripBadStart(a + ['.'] + rest))
         == StripBadStart(a) + "." + CollapseSections(StripBadStart(rest))
  {
    var dotted := ['.'] + rest;
    assert a + ['.'] + rest == a + dotted;
    StripBadStartBeforeDot(a, dotted);
    StripKeepsDotFree(a);
    CollapseSectionsDotFreePrefix(StripBadStart(a), dotted);
    assert dotted[1..] == rest;
  }

  /** The last two passes strip the leading bad characters of every section
      and nothing else. */
  lemma {:induction false} StripThenCollapseIsSectionwise(t: string)
    ensures CollapseSections(StripBadStart(t)) == SanitizeSections(t)
    decreases |t|
  {
    var i := FirstDot(t);
    if i == |t| {
      assert '.' !in t;
      SectionwiseWithoutDot(t);
    } else {
      var a := t[..i];
      var rest := t[i + 1..];
      assert t == a + ['.'] + rest;
      assert '.' !in a;
      PassesAtFirstDot(a, rest);
      SectionsAtFirstDot(a, rest);
      StripThenCollapseIsSectionwise(rest);
    }
  }

  /** sanitizeMetricIdentifier, section by section: after the alphabet pass,
      the identifier is cut at its dots and each section loses its leading
      run of digits, '_' and '-'. */
  lemma SanitizeMetricIdentifierBySections(s: string)
    ensures SanitizeMetricIdentifier(s) == SanitizeSections(ReplaceInvalid(s))
  {
    StripThenCollapseIsSectionwise(ReplaceInvalid(s));
  }
}
