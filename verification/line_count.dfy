/** MintMetricSender.getLineCount: the number of lines java.util.Scanner
    finds in a message, used to report how many metrics a request carried. */
module LineCount {
  import opened Wrappers
  import opened JavaString

  /** The characters Scanner treats as line terminators; "\r\n" counts as one. */
  predicate IsLineTerminator(c: char)
  {
    c == '\n' || c == '\r' || c == '\U{0085}' || c == '\U{2028}' || c == '\U{2029}'
  }

  predicate NoTerminator(s: string)
  {
    forall i :: 0 <= i < |s| ==> !IsLineTerminator(s[i])
  }

  /** How far one nextLine() call advances: past the text of the first line
      and its terminator, or to the end when no terminator follows. */
  function LineEnd(s: string): (n: nat)
    ensures |s| > 0 ==> 0 < n <= |s|
    ensures |s| == 0 ==> n == 0
  {
    if |s| == 0 then 0
    else if s[0] == '\r' && |s| >= 2 && s[1] == '\n' then 2
    else if IsLineTerminator(s[0]) then 1
    else 1 + LineEnd(s[1..])
  }

  /** The hasNextLine()/nextLine() loop: a line remains while any input
      remains, and each iteration consumes one line. */
  function ScannerLineCount(s: string): nat
    decreases |s|
  {
    if |s| == 0 then 0 else 1 + ScannerLineCount(s[LineEnd(s)..])
  }

  /** getLineCount(message): 0 for a null message. */
  function GetLineCount(message: Option<string>): (n: nat)
    ensures message == None ==> n == 0
    ensures message == Some("") ==> n == 0
  {
    match message
    case None => 0
    case Some(s) => ScannerLineCount(s)
  }

  // ---------------------------------------------------------------------------
  // An independent count: terminators, plus an unterminated last line
  // ---------------------------------------------------------------------------

  /** The number of line terminators in s, a "\r\n" pair counting once. */
  function CountTerminators(s: string): nat
    decreases |s|
  {
    if |s| == 0 then 0
    else if s[0] == '\r' && |s| >= 2 && s[1] == '\n' then 1 + CountTerminators(s[2..])
    else (if IsLineTerminator(s[0]) then 1 else 0) + CountTerminators(s[1..])
  }

  /** Terminated lines, plus one for text after the last terminator. */
  function ReferenceLineCount(s: string): nat
  {
    CountTerminators(s) + (if |s| > 0 && !IsLineTerminator(s[|s| - 1]) then 1 else 0)
  }

  /** One nextLine() removes exactly one line of the reference count. */
  lemma {:induction false} LineEndRemovesOneLine(s: string)
    requires |s| > 0
    ensures ReferenceLineCount(s) == 1 + ReferenceLineCount(s[LineEnd(s)..])
    decreases |s|
  {
    if s[0] == '\r' && |s| >= 2 && s[1] == '\n' {
      if |s| > 2 {
        assert s[2..][|s[2..]| - 1] == s[|s| - 1];
      }
    } else if IsLineTerminator(s[0]) {
      if |s| > 1 {
        assert s[1..][|s[1..]| - 1] == s[|s| - 1];
      }
    } else {
      var t := s[1..];
      if |t| > 0 {
        LineEndRemovesOneLine(t);
        assert t[|t| - 1] == s[|s| - 1];
        assert s[LineEnd(s)..] == t[LineEnd(t)..];
      }
    }
  }

  /** The Scanner loop counts exactly the terminated lines plus an
      unterminated tail. */
  lemma {:induction false} ScannerCountsLines(s: string)
    ensures ScannerLineCount(s) == ReferenceLineCount(s)
    decreases |s|
  {
    if |s| > 0 {
      LineEndRemovesOneLine(s);
      ScannerCountsLines(s[LineEnd(s)..]);
    }
  }

  // ---------------------------------------------------------------------------
  // Counting the lines of a request body
  // ---------------------------------------------------------------------------

  /** The platform line separators a message can end with. */
  predicate IsLineSeparator(sep: string)
  {
    sep == "\n" || sep == "\r\n"
  }

  /** A message as the sender builds it: a body free of line terminators
      followed by the line separator. */
  predicate IsSingleLine(m: string, sep: string)
  {
    IsLineSeparator(sep) && |m| >= |sep| && m[|m| - |sep|..] == sep && NoTerminator(m[..|m| - |sep|])
  }

  lemma {:induction false} LineEndOfSingleLine(body: string, sep: string, rest: string)
    requires IsLineSeparator(sep) && NoTerminator(body)
    ensures LineEnd(body + sep + rest) == |body| + |sep|
    decreases |body|
  {
    var s := body + sep + rest;
    if |body| == 0 {
      assert s == sep + rest;
    } else {
      assert s[1..] == body[1..] + sep + rest;
      assert !IsLineTerminator(s[0]);
      LineEndOfSingleLine(body[1..], sep, rest);
    }
  }

  /** A body made of whole lines has as many Scanner lines as messages, so
      the count logged after a request is the number of metric lines in it. */
  lemma {:induction false} LineCountOfBatch(msgs: seq<string>, sep: string)
    requires forall i :: 0 <= i < |msgs| ==> IsSingleLine(msgs[i], sep)
    ensures GetLineCount(Some(Concat(msgs))) == |msgs|
    decreases |msgs|
  {
    if |msgs| > 0 {
      var m := msgs[0];
      assert IsSingleLine(m, sep);
      var body := m[..|m| - |sep|];
      assert m == body + sep;
      LineEndOfSingleLine(body, sep, Concat(msgs[1..]));
      assert Concat(msgs) == body + sep + Concat(msgs[1..]);
      assert Concat(msgs)[|body| + |sep|..] == Concat(msgs[1..]);
      LineCountOfBatch(msgs[1..], sep);
    }
  }

  /** A non-empty text without terminators is one line. */
  lemma OneLine(a: string)
    requires |a| > 0 && NoTerminator(a)
    ensures ScannerLineCount(a) == 1
  {
    LineEndOfText(a, "", "");
    assert a + "" + "" == a;
  }

  /** Two texts separated by one terminator are two lines. */
  lemma TwoLines(a: string, sep: string, b: string)
    requires NoTerminator(a) && NoTerminator(b) && |b| > 0
    requires sep == "\n" || sep == "\r" || sep == "\r\n"
    ensures ScannerLineCount(a + sep + b) == 2
  {
    LineEndOfText(a, sep, b);
    assert (a + sep + b)[|a| + |sep|..] == b;
    OneLine(b);
  }

  /** The documented cases without a separator: a null or empty message
      has no lines, a single word is one line. */
  lemma LineCountWithoutSeparator()
    ensures GetLineCount(None) == 0 && GetLineCount(Some("")) == 0
    ensures GetLineCount(Some("line1")) == 1
  {
    assert NoTerminator("line1");
    OneLine("line1");
  }

  /** "\n" separates two lines. */
  lemma LineCountNewline()
    ensures GetLineCount(Some("line1\nline2")) == 2
  {
    var a, b := "line1", "line2";
    assert NoTerminator(a) && NoTerminator(b);
    TwoLines(a, "\n", b);
    assert a + "\n" + b == "line1\nline2";
  }

  /** A lone "\r" separates two lines. */
  lemma LineCountCarriageReturn()
    ensures GetLineCount(Some("line1\rline2")) == 2
  {
    var a, b := "line1", "line2";
    assert NoTerminator(a) && NoTerminator(b);
    TwoLines(a, "\r", b);
    assert a + "\r" + b == "line1\rline2";
  }

  /** "\r\n" is one terminator, not two. */
  lemma LineCountCrLf()
    ensures GetLineCount(Some("line1\r\nline2")) == 2
  {
    var a, b := "line1", "line2";
    assert NoTerminator(a) && NoTerminator(b);
    TwoLines(a, "\r\n", b);
    assert a + "\r\n" + b == "line1\r\nline2";
  }

  /** nextLine() on a terminator-free text, then a terminator or the end. */
  lemma {:induction false} LineEndOfText(body: string, sep: string, rest: string)
    requires NoTerminator(body)
    requires sep == "" || sep == "\n" || sep == "\r" || sep == "\r\n"
    requires sep == "" ==> rest == ""
    requires sep == "\r" ==> |rest| == 0 || rest[0] != '\n'
    ensures LineEnd(body + sep + rest) == |body| + |sep|
    decreases |body|
  {
    var s := body + sep + rest;
    if |body| == 0 {
      assert s == sep + rest;
    } else {
      assert s[1..] == body[1..] + sep + rest;
      assert !IsLineTerminator(s[0]);
      LineEndOfText(body[1..], sep, rest);
    }
  }
}
