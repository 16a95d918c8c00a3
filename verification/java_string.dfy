/** The Java library string behaviour the plugin relies on, stated over Dafny
    strings. A Dafny `char` is a Unicode scalar value, so one Dafny character
    stands for one Java code point (one or two UTF-16 code units). */
module JavaString {
  import opened Wrappers

  // ---------------------------------------------------------------------------
  // Length as String.length() reports it
  // ---------------------------------------------------------------------------

  /** The UTF-16 code units a character occupies in a Java String. */
  function Utf16Units(c: char): nat
  {
    if c as int > 0xFFFF then 2 else 1
  }

  /** String.length(): the number of UTF-16 code units, which is what the
      message-size limit is compared against. */
  function Utf16Length(s: string): (n: nat)
    ensures |s| <= n <= 2 * |s|
  {
    if |s| == 0 then 0 else Utf16Units(s[0]) + Utf16Length(s[1..])
  }

  /** Lengths add up under concatenation. */
  lemma {:induction false} Utf16LengthAppend(a: string, b: string)
    ensures Utf16Length(a + b) == Utf16Length(a) + Utf16Length(b)
  {
    if |a| == 0 {
      assert a + b == b;
    } else {
      assert (a + b)[1..] == a[1..] + b;
      Utf16LengthAppend(a[1..], b);
    }
  }

  // ---------------------------------------------------------------------------
  // Concatenation and joining
  // ---------------------------------------------------------------------------

  /** All strings of xs, one after the other. */
  function Concat(xs: seq<string>): string
  {
    if |xs| == 0 then "" else xs[0] + Concat(xs[1..])
  }

  lemma {:induction false} ConcatAppend(xs: seq<string>, ys: seq<string>)
    ensures Concat(xs + ys) == Concat(xs) + Concat(ys)
  {
    if |xs| == 0 {
      assert xs + ys == ys;
    } else {
      assert (xs + ys)[1..] == xs[1..] + ys;
      ConcatAppend(xs[1..], ys);
    }
  }

  /** String.join / Collectors.joining: the elements with sep between
      neighbours and no separator at either end. */
  function Join(xs: seq<string>, sep: string): string
  {
    if |xs| == 0 then ""
    else if |xs| == 1 then xs[0]
    else Join(xs[..|xs| - 1], sep) + sep + xs[|xs| - 1]
  }

  /** What a StringBuilder holds after appending every element followed by
      sep: a separator after each element, including the last. */
  function Terminated(xs: seq<string>, sep: string): string
  {
    if |xs| == 0 then "" else Terminated(xs[..|xs| - 1], sep) + xs[|xs| - 1] + sep
  }

  /** Dropping the separator after the last element of a terminated list
      gives the joined list. */
  lemma {:induction false} TerminatedIsJoinThenSep(xs: seq<string>, sep: string)
    requires |xs| > 0
    ensures Terminated(xs, sep) == Join(xs, sep) + sep
  {
    if |xs| > 1 {
      TerminatedIsJoinThenSep(xs[..|xs| - 1], sep);
    }
  }

  /** A joined list ends with its last element, so it is never shorter. */
  lemma JoinEndsWithLast(xs: seq<string>, sep: string)
    requires |xs| > 0
    ensures |Join(xs, sep)| >= |xs[|xs| - 1]|
  {
  }

  // ---------------------------------------------------------------------------
  // Splitting on a character class (String.split with a "[...]" regex)
  // ---------------------------------------------------------------------------

  /** The delimiter characters of s, in order. */
  function Delims(s: string, isDelim: char -> bool): (d: string)
    ensures |d| <= |s|
    ensures forall i :: 0 <= i < |d| ==> isDelim(d[i])
  {
    if |s| == 0 then ""
    else if isDelim(s[0]) then [s[0]] + Delims(s[1..], isDelim)
    else Delims(s[1..], isDelim)
  }

  /** Every piece between delimiters, empty pieces included: one more piece
      than there are delimiters, and no piece contains a delimiter. */
  function SplitAll(s: string, isDelim: char -> bool): (parts: seq<string>)
    ensures |parts| == |Delims(s, isDelim)| + 1
    ensures forall i, j :: 0 <= i < |parts| && 0 <= j < |parts[i]| ==> !isDelim(parts[i][j])
  {
    if |s| == 0 then [""]
    else if isDelim(s[0]) then [""] + SplitAll(s[1..], isDelim)
    else
      var rest := SplitAll(s[1..], isDelim);
      [[s[0]] + rest[0]] + rest[1..]
  }

  /** The pieces put back together with the delimiters between them. */
  function Interleave(parts: seq<string>, delims: string): string
    requires |parts| == |delims| + 1
  {
    if |delims| == 0 then parts[0]
    else parts[0] + [delims[0]] + Interleave(parts[1..], delims[1..])
  }

  /** Splitting loses nothing: the pieces and the delimiters rebuild the input. */
  lemma {:induction false} SplitAllRoundTrip(s: string, isDelim: char -> bool)
    ensures Interleave(SplitAll(s, isDelim), Delims(s, isDelim)) == s
  {
    if |s| == 0 {
    } else if isDelim(s[0]) {
      SplitAllRoundTrip(s[1..], isDelim);
      assert ([""] + SplitAll(s[1..], isDelim))[1..] == SplitAll(s[1..], isDelim);
      assert s == [s[0]] + s[1..];
    } else {
      var rest := SplitAll(s[1..], isDelim);
      var d := Delims(s[1..], isDelim);
      SplitAllRoundTrip(s[1..], isDelim);
      var parts := [[s[0]] + rest[0]] + rest[1..];
      assert parts[1..] == rest[1..];
      if |d| == 0 {
        assert s == [s[0]] + rest[0];
      } else {
        assert Interleave(rest, d) == rest[0] + [d[0]] + Interleave(rest[1..], d[1..]);
        assert s == [s[0]] + s[1..];
      }
    }
  }

  /** SplitAll of a string without delimiters is the string itself. */
  lemma {:induction false} SplitAllNoDelims(s: string, isDelim: char -> bool)
    requires forall i :: 0 <= i < |s| ==> !isDelim(s[i])
    ensures SplitAll(s, isDelim) == [s]
    ensures Delims(s, isDelim) == ""
  {
    if |s| > 0 {
      SplitAllNoDelims(s[1..], isDelim);
      assert s == [s[0]] + s[1..];
    }
  }

  /** A delimiter-free prefix becomes the first piece. */
  lemma {:induction false} SplitAllFirstPiece(a: string, c: char, rest: string, isDelim: char -> bool)
    requires forall i :: 0 <= i < |a| ==> !isDelim(a[i])
    requires isDelim(c)
    ensures SplitAll(a + [c] + rest, isDelim) == [a] + SplitAll(rest, isDelim)
    ensures Delims(a + [c] + rest, isDelim) == [c] + Delims(rest, isDelim)
  {
    var s := a + [c] + rest;
    if |a| == 0 {
      assert s == [c] + rest;
      assert s[1..] == rest;
    } else {
      assert s[0] == a[0];
      assert s[1..] == a[1..] + [c] + rest;
      SplitAllFirstPiece(a[1..], c, rest, isDelim);
      var tail := SplitAll(rest, isDelim);
      assert SplitAll(s[1..], isDelim) == [a[1..]] + tail;
      assert ([a[1..]] + tail)[1..] == tail;
      assert [a[0]] + a[1..] == a;
    }
  }

  /** String.split(regex) with limit 0 for a regex that matches one character
      of a class: with no match the whole input is the only piece (even when
      it is empty); otherwise the pieces, with trailing empty pieces removed. */
  function JavaSplit(s: string, isDelim: char -> bool): (parts: seq<string>)
    ensures |Delims(s, isDelim)| == 0 ==> parts == [s]
    ensures |parts| <= |SplitAll(s, isDelim)| && parts == SplitAll(s, isDelim)[..|parts|]
    ensures forall i :: |parts| <= i < |SplitAll(s, isDelim)| ==> SplitAll(s, isDelim)[i] == ""
    ensures |Delims(s, isDelim)| > 0 && |parts| > 0 ==> parts[|parts| - 1] != ""
    ensures forall i, j :: 0 <= i < |parts| && 0 <= j < |parts[i]| ==> !isDelim(parts[i][j])
  {
    if |Delims(s, isDelim)| == 0 then
      assert SplitAll(s, isDelim) == [s] by {
        assert |SplitAll(s, isDelim)| == 1;
        SplitAllRoundTrip(s, isDelim);
      }
      [s]
    else DropTrailingEmpty(SplitAll(s, isDelim))
  }

  /** The longest prefix of xs that does not end with an empty string. */
  function DropTrailingEmpty(xs: seq<string>): (r: seq<string>)
    ensures |r| <= |xs| && r == xs[..|r|]
    ensures forall i :: |r| <= i < |xs| ==> xs[i] == ""
    ensures |r| > 0 ==> r[|r| - 1] != ""
  {
    if |xs| == 0 then []
    else if xs[|xs| - 1] == "" then DropTrailingEmpty(xs[..|xs| - 1])
    else xs
  }

  /** n empty strings. */
  function Empties(n: nat): (xs: seq<string>)
    ensures |xs| == n && forall i :: 0 <= i < n ==> xs[i] == ""
  {
    seq(n, _ => "")
  }

  predicate AllDelims(s: string, isDelim: char -> bool)
  {
    forall i :: 0 <= i < |s| ==> isDelim(s[i])
  }

  /** A string of delimiters only splits into one more empty piece than it
      has characters. */
  lemma {:induction false} SplitAllOfDelims(t: string, isDelim: char -> bool)
    requires AllDelims(t, isDelim)
    ensures SplitAll(t, isDelim) == Empties(|t| + 1)
    ensures Delims(t, isDelim) == t
    decreases |t|
  {
    if |t| > 0 {
      SplitAllOfDelims(t[1..], isDelim);
      assert [""] + Empties(|t|) == Empties(|t| + 1);
      assert t == [t[0]] + t[1..];
    }
  }

  /** A delimiter-free text followed by delimiters only: the text, then
      empty pieces. */
  lemma SplitAllTrailingDelims(v: string, tail: string, isDelim: char -> bool)
    requires forall i :: 0 <= i < |v| ==> !isDelim(v[i])
    requires AllDelims(tail, isDelim)
    ensures SplitAll(v + tail, isDelim) == [v] + Empties(|tail|)
    ensures Delims(v + tail, isDelim) == tail
  {
    if |tail| == 0 {
      assert v + tail == v;
      SplitAllNoDelims(v, isDelim);
    } else {
      assert v + tail == v + [tail[0]] + tail[1..];
      SplitAllFirstPiece(v, tail[0], tail[1..], isDelim);
      SplitAllOfDelims(tail[1..], isDelim);
      assert [tail[0]] + tail[1..] == tail;
    }
  }

  /** Trailing empty pieces after a non-empty last piece are all dropped. */
  lemma {:induction false} DropTrailingEmptyOfPadded(xs: seq<string>, n: nat)
    requires |xs| > 0 && xs[|xs| - 1] != ""
    ensures DropTrailingEmpty(xs + Empties(n)) == xs
    decreases n
  {
    if n == 0 {
      assert xs + Empties(0) == xs;
    } else {
      var ys := xs + Empties(n);
      assert ys[..|ys| - 1] == xs + Empties(n - 1);
      DropTrailingEmptyOfPadded(xs, n - 1);
    }
  }

  /** Interleaving empty pieces leaves just the delimiters. */
  lemma {:induction false} InterleaveEmpties(parts: seq<string>, delims: string)
    requires |parts| == |delims| + 1
    requires forall i :: 0 <= i < |parts| ==> parts[i] == ""
    ensures Interleave(parts, delims) == delims
    decreases |delims|
  {
    if |delims| > 0 {
      InterleaveEmpties(parts[1..], delims[1..]);
      assert delims == [delims[0]] + delims[1..];
    }
  }

  // ---------------------------------------------------------------------------
  // Whitespace tests
  // ---------------------------------------------------------------------------

  /** Character.isWhitespace: the Unicode space, line and paragraph
      separators except the no-break spaces, and the ASCII controls
      U+0009..U+000D and U+001C..U+001F. */
  predicate IsJavaWhitespace(c: char)
  {
    var n := c as int;
    || (0x09 <= n <= 0x0D)
    || (0x1C <= n <= 0x20)
    || n == 0x1680
    || (0x2000 <= n <= 0x2006)
    || (0x2008 <= n <= 0x200A)
    || n == 0x2028 || n == 0x2029 || n == 0x205F || n == 0x3000
  }

  /** StringUtils.isBlank for a non-null string: empty or only whitespace. */
  predicate IsBlank(s: string)
  {
    forall i :: 0 <= i < |s| ==> IsJavaWhitespace(s[i])
  }

  /** s.trim().isEmpty(): trim() strips every character up to U+0020 from
      both ends, so the result is empty exactly when no other character occurs. */
  predicate IsTrimmedEmpty(s: string)
  {
    forall i :: 0 <= i < |s| ==> s[i] <= ' '
  }

  // ---------------------------------------------------------------------------
  // ASCII case
  // ---------------------------------------------------------------------------

  function LowerAscii(c: char): char
  {
    if 'A' <= c <= 'Z' then (c as int + 32) as char else c
  }

  function ToLowerAscii(s: string): (r: string)
    ensures |r| == |s|
    ensures forall i :: 0 <= i < |s| ==> r[i] == LowerAscii(s[i])
  {
    if |s| == 0 then "" else [LowerAscii(s[0])] + ToLowerAscii(s[1..])
  }

  /** Boolean.parseBoolean: "true" compared ignoring case. No character
      outside ASCII changes case to a letter of "true", so ASCII folding is exact. */
  predicate ParseBoolean(s: string)
  {
    ToLowerAscii(s) == "true"
  }

  // ---------------------------------------------------------------------------
  // Decimal text of a long
  // ---------------------------------------------------------------------------

  /** Java's 64-bit signed long. */
  type Long = n: int | -0x8000_0000_0000_0000 <= n < 0x8000_0000_0000_0000

  predicate IsAsciiDigit(c: char)
  {
    '0' <= c <= '9'
  }

  predicate AllDigits(s: string)
  {
    forall i :: 0 <= i < |s| ==> IsAsciiDigit(s[i])
  }

  function DigitChar(d: int): (c: char)
    requires 0 <= d < 10
    ensures IsAsciiDigit(c) && c as int - '0' as int == d
  {
    ('0' as int + d) as char
  }

  /** Decimal digits of n, most significant first, without leading zeros. */
  function NatText(n: nat): (s: string)
    ensures |s| >= 1 && AllDigits(s)
    decreases n
  {
    if n < 10 then [DigitChar(n)] else NatText(n / 10) + [DigitChar(n % 10)]
  }

  /** The number a string of decimal digits denotes. */
  function DigitsValue(s: string): nat
    requires AllDigits(s)
  {
    if |s| == 0 then 0
    else DigitsValue(s[..|s| - 1]) * 10 + (s[|s| - 1] as int - '0' as int)
  }

  lemma {:induction false} NatTextRoundTrip(n: nat)
    ensures DigitsValue(NatText(n)) == n
    decreases n
  {
    if n >= 10 {
      var s := NatText(n);
      assert s[..|s| - 1] == NatText(n / 10);
      NatTextRoundTrip(n / 10);
    }
  }

  /** Long.toString / string concatenation of a long. */
  function LongText(n: Long): (s: string)
    ensures |s| >= 1 && ' ' !in s
  {
    var m: int := n;
    if m < 0 then "-" + NatText(-m) else NatText(m)
  }

  /** Reads back an optionally negative decimal number. */
  function ParseLong(s: string): Option<int>
  {
    if |s| >= 2 && s[0] == '-' && AllDigits(s[1..]) then
      var magnitude: int := DigitsValue(s[1..]);
      Some(-magnitude)
    else if |s| >= 1 && AllDigits(s) then Some(DigitsValue(s))
    else None
  }

  /** The decimal text of a long reads back as the same long. */
  lemma LongTextRoundTrip(n: Long)
    ensures ParseLong(LongText(n)) == Some(n)
  {
    var m: int := n;
    var s := LongText(n);
    if m < 0 {
      var t := NatText(-m);
      assert s == "-" + t;
      assert |s| >= 2 && s[0] == '-' && s[1..] == t;
      NatTextRoundTrip(-m);
      var v: int := DigitsValue(t);
      assert ParseLong(s) == Some(-v);
    } else {
      assert s == NatText(m);
      assert IsAsciiDigit(s[0]);
      NatTextRoundTrip(m);
      assert ParseLong(s) == Some(DigitsValue(s));
    }
  }
}
