/** MintMetricSender.splitMessages: cuts the rendered lines of one flush into
    request bodies under a line-count and a size limit. */
module Partition {
  import opened JavaString
  import opened Mint

  /** Limits for a single message. */
  const MAX_LINES_PER_MESSAGE: nat := 1000
  const MAX_MESSAGE_SIZE_BYTES: nat := 1048576

  /** The text each line contributes to a batch: printMessage(false) read at
      clock(i) for the i-th line, followed by the platform line separator. */
  function RenderLines(lines: seq<MetricsLine>, show: Double -> string, clock: nat -> Long, separator: string): (msgs: seq<string>)
    ensures |msgs| == |lines|
    ensures forall i :: 0 <= i < |lines| ==> msgs[i] == PrintMessage(lines[i], show, clock(i)) + separator
  {
    seq(|lines|, i requires 0 <= i < |lines| => PrintMessage(lines[i], show, clock(i)) + separator)
  }

  /** The loop of splitMessages over the remaining messages, with the message
      being built (`current`) and its line count. A message joins the current
      batch only while the count after adding stays below
      MAX_LINES_PER_MESSAGE and the size after adding stays below
      MAX_MESSAGE_SIZE_BYTES, sizes being String.length(); otherwise the
      current batch is emitted, even when empty, and a new one starts with
      the message. After the loop a non-empty current batch is emitted. */
  function SplitFrom(msgs: seq<string>, current: string, lines: nat): seq<string>
    decreases |msgs|
  {
    if |msgs| == 0 then
      if Utf16Length(current) > 0 then [current] else []
    else if lines + 1 < MAX_LINES_PER_MESSAGE && Utf16Length(current) + Utf16Length(msgs[0]) < MAX_MESSAGE_SIZE_BYTES then
      SplitFrom(msgs[1..], current + msgs[0], lines + 1)
    else
      [current] + SplitFrom(msgs[1..], msgs[0], 1)
  }

  /** splitMessages over the rendered messages. Nothing is lost, duplicated
      or reordered: the batches concatenate to the messages concatenated. */
  function SplitTexts(msgs: seq<string>): (batches: seq<string>)
    ensures |msgs| == 0 ==> batches == []
    ensures Concat(batches) == Concat(msgs)
  {
    SplitFromKeepsText(msgs, "", 0);
    SplitFrom(msgs, "", 0)
  }

  lemma {:induction false} SplitFromKeepsText(msgs: seq<string>, current: string, lines: nat)
    ensures Concat(SplitFrom(msgs, current, lines)) == current + Concat(msgs)
    decreases |msgs|
  {
    if |msgs| == 0 {
      if Utf16Length(current) > 0 {
        assert Concat([current]) == current + Concat([]);
      } else {
        assert current == "";
      }
    } else if lines + 1 < MAX_LINES_PER_MESSAGE && Utf16Length(current) + Utf16Length(msgs[0]) < MAX_MESSAGE_SIZE_BYTES {
      SplitFromKeepsText(msgs[1..], current + msgs[0], lines + 1);
      assert Concat(msgs) == msgs[0] + Concat(msgs[1..]);
    } else {
      var rest := SplitFrom(msgs[1..], msgs[0], 1);
      SplitFromKeepsText(msgs[1..], msgs[0], 1);
      assert ([current] + rest)[1..] == rest;
      assert Concat(msgs) == msgs[0] + Concat(msgs[1..]);
    }
  }

  /** splitMessages(lines) for the lines taken from the buffer. */
  function SplitMessages(lines: seq<MetricsLine>, show: Double -> string, clock: nat -> Long, separator: string): (batches: seq<string>)
    ensures |lines| == 0 ==> batches == []
    ensures Concat(batches) == Concat(RenderLines(lines, show, clock, separator))
  {
    SplitTexts(RenderLines(lines, show, clock, separator))
  }

  // ---------------------------------------------------------------------------
  // The same loop over groups of messages: which messages share a batch
  // ---------------------------------------------------------------------------

  predicate AllNonEmpty(msgs: seq<string>)
  {
    forall i :: 0 <= i < |msgs| ==> |msgs[i]| > 0
  }

  function Flatten(groups: seq<seq<string>>): seq<string>
  {
    if |groups| == 0 then [] else groups[0] + Flatten(groups[1..])
  }

  function ConcatEach(groups: seq<seq<string>>): (texts: seq<string>)
    ensures |texts| == |groups|
    ensures forall i :: 0 <= i < |groups| ==> texts[i] == Concat(groups[i])
  {
    if |groups| == 0 then [] else [Concat(groups[0])] + ConcatEach(groups[1..])
  }

  /** Size of a group of messages as the loop measures it. */
  function GroupSize(g: seq<string>): nat
  {
    Utf16Length(Concat(g))
  }

  /** Whether a message may join a batch, by the test of the loop. */
  predicate Fits(g: seq<string>, m: string)
  {
    |g| + 1 < MAX_LINES_PER_MESSAGE && GroupSize(g) + Utf16Length(m) < MAX_MESSAGE_SIZE_BYTES
  }

  /** The batch loop tracking which messages each batch holds, starting from
      a current group g that respects the limits. The resulting groups hold
      exactly g followed by the messages; each has fewer than
      MAX_LINES_PER_MESSAGE messages; each with two or more messages is below
      MAX_MESSAGE_SIZE_BYTES; only the first group can be empty; and every
      group but the last was closed because the next message did not fit. */
  function GroupFrom(msgs: seq<string>, g: seq<string>): (groups: seq<seq<string>>)
    requires AllNonEmpty(msgs) && AllNonEmpty(g)
    requires |g| < MAX_LINES_PER_MESSAGE
    requires |g| >= 2 ==> GroupSize(g) < MAX_MESSAGE_SIZE_BYTES
    ensures Flatten(groups) == g + msgs
    ensures |g| + |msgs| > 0 ==> |groups| > 0
    ensures |g| > 0 ==> |groups[0]| >= |g| && groups[0][..|g|] == g
    ensures forall i :: 0 <= i < |groups| ==> |groups[i]| < MAX_LINES_PER_MESSAGE
    ensures forall i :: 0 <= i < |groups| && |groups[i]| >= 2 ==> GroupSize(groups[i]) < MAX_MESSAGE_SIZE_BYTES
    ensures forall i :: 0 < i < |groups| ==> |groups[i]| > 0
    ensures forall i :: 0 <= i < |groups| - 1 ==> !Fits(groups[i], groups[i + 1][0])
    decreases |msgs|
  {
    if |msgs| == 0 then
      if GroupSize(g) > 0 then [g] else
        assert g == [];
        []
    else if Fits(g, msgs[0]) then
      assert |g + [msgs[0]]| >= 2 ==> GroupSize(g + [msgs[0]]) < MAX_MESSAGE_SIZE_BYTES by {
        ConcatAppend(g, [msgs[0]]);
        assert Concat([msgs[0]]) == msgs[0];
        Utf16LengthAppend(Concat(g), msgs[0]);
      }
      assert g + msgs == (g + [msgs[0]]) + msgs[1..];
      var groups := GroupFrom(msgs[1..], g + [msgs[0]]);
      assert |g| > 0 ==> groups[0][..|g|] == g by {
        if |g| > 0 {
          assert groups[0][..|g| + 1] == g + [msgs[0]];
          assert groups[0][..|g|] == groups[0][..|g| + 1][..|g|];
        }
      }
      groups
    else
      var rest := GroupFrom(msgs[1..], [msgs[0]]);
      var groups := [g] + rest;
      assert groups[1..] == rest;
      assert msgs == [msgs[0]] + msgs[1..];
      assert groups[1][0] == msgs[0] by {
        assert rest[0][..1] == [msgs[0]];
      }
      groups
  }

  /** The groups splitMessages forms from the messages of one flush. */
  function Batches(msgs: seq<string>): (groups: seq<seq<string>>)
    requires AllNonEmpty(msgs)
    ensures Flatten(groups) == msgs
    ensures forall i :: 0 <= i < |groups| ==> |groups[i]| < MAX_LINES_PER_MESSAGE
    ensures forall i :: 0 <= i < |groups| && |groups[i]| >= 2 ==> GroupSize(groups[i]) < MAX_MESSAGE_SIZE_BYTES
    ensures forall i :: 0 < i < |groups| ==> |groups[i]| > 0
    ensures forall i :: 0 <= i < |groups| - 1 ==> !Fits(groups[i], groups[i + 1][0])
  {
    GroupFrom(msgs, [])
  }

  /** Following groups and following text agree: the batch texts are the
      concatenated groups. */
  lemma {:induction false} SplitFromIsConcatOfGroups(msgs: seq<string>, g: seq<string>)
    requires AllNonEmpty(msgs) && AllNonEmpty(g)
    requires |g| < MAX_LINES_PER_MESSAGE
    requires |g| >= 2 ==> GroupSize(g) < MAX_MESSAGE_SIZE_BYTES
    ensures SplitFrom(msgs, Concat(g), |g|) == ConcatEach(GroupFrom(msgs, g))
    decreases |msgs|
  {
    if |msgs| == 0 {
    } else if Fits(g, msgs[0]) {
      var g' := g + [msgs[0]];
      ConcatAppend(g, [msgs[0]]);
      assert Concat([msgs[0]]) == msgs[0];
      assert Concat(g') == Concat(g) + msgs[0];
      assert |g'| >= 2 ==> GroupSize(g') < MAX_MESSAGE_SIZE_BYTES by {
        Utf16LengthAppend(Concat(g), msgs[0]);
      }
      assert SplitFrom(msgs, Concat(g), |g|) == SplitFrom(msgs[1..], Concat(g'), |g'|);
      assert GroupFrom(msgs, g) == GroupFrom(msgs[1..], g');
      SplitFromIsConcatOfGroups(msgs[1..], g');
    } else {
      assert Concat([msgs[0]]) == msgs[0];
      assert SplitFrom(msgs, Concat(g), |g|) == [Concat(g)] + SplitFrom(msgs[1..], Concat([msgs[0]]), |[msgs[0]]|);
      SplitFromIsConcatOfGroups(msgs[1..], [msgs[0]]);
      var rest := GroupFrom(msgs[1..], [msgs[0]]);
      assert GroupFrom(msgs, g) == [g] + rest;
      assert ([g] + rest)[1..] == rest;
      assert ConcatEach([g] + rest) == [Concat(g)] + ConcatEach(rest);
    }
  }

  /** The batch bodies of splitMessages are the concatenated groups of Batches. */
  lemma SplitTextsIsConcatOfBatches(msgs: seq<string>)
    requires AllNonEmpty(msgs)
    ensures SplitTexts(msgs) == ConcatEach(Batches(msgs))
  {
    SplitFromIsConcatOfGroups(msgs, []);
  }

  // ---------------------------------------------------------------------------
  // Boundary behaviour
  // ---------------------------------------------------------------------------

  /** A first message at or over the size limit makes the first batch empty;
      the oversized message then forms a batch of its own. */
  lemma OversizedFirstMessage(msgs: seq<string>)
    requires AllNonEmpty(msgs) && |msgs| > 0
    requires Utf16Length(msgs[0]) >= MAX_MESSAGE_SIZE_BYTES
    ensures |Batches(msgs)| >= 2
    ensures Batches(msgs)[0] == [] && Batches(msgs)[1][0] == msgs[0]
    ensures SplitTexts(msgs)[0] == ""
  {
    assert !Fits([], msgs[0]);
    var rest := GroupFrom(msgs[1..], [msgs[0]]);
    assert rest[0][..1] == [msgs[0]];
    SplitTextsIsConcatOfBatches(msgs);
  }

  /** The only empty batch is a first batch left empty by an oversized first
      message. */
  lemma EmptyBatchOnlyFirst(msgs: seq<string>)
    requires AllNonEmpty(msgs) && |msgs| > 0
    ensures Batches(msgs)[0] == [] <==> Utf16Length(msgs[0]) >= MAX_MESSAGE_SIZE_BYTES
  {
    if Utf16Length(msgs[0]) < MAX_MESSAGE_SIZE_BYTES {
      assert Fits([], msgs[0]);
      var groups := GroupFrom(msgs[1..], [msgs[0]]);
      assert groups[0][..1] == [msgs[0]];
    } else {
      OversizedFirstMessage(msgs);
    }
  }

  /** With every message small enough that all of them fit in the size limit
      together, only the line limit cuts: starting from a current group of k
      messages and n more to come, the k + n messages make
      1 + (k + n - 1) / 999 groups, the first of which holds min(k + n, 999). */
  lemma {:induction false} CountWhenSmall(msgs: seq<string>, g: seq<string>)
    requires AllNonEmpty(msgs) && AllNonEmpty(g)
    requires 1 <= |g| < MAX_LINES_PER_MESSAGE
    requires GroupSize(g) + Utf16Length(Concat(msgs)) < MAX_MESSAGE_SIZE_BYTES
    ensures |GroupFrom(msgs, g)| == 1 + (|g| + |msgs| - 1) / (MAX_LINES_PER_MESSAGE - 1)
    ensures |GroupFrom(msgs, g)[0]| == if |g| + |msgs| < MAX_LINES_PER_MESSAGE then |g| + |msgs| else MAX_LINES_PER_MESSAGE - 1
    decreases |msgs|
  {
    if |msgs| > 0 {
      assert Concat(msgs) == msgs[0] + Concat(msgs[1..]);
      Utf16LengthAppend(msgs[0], Concat(msgs[1..]));
      ConcatAppend(g, [msgs[0]]);
      assert Concat([msgs[0]]) == msgs[0];
      Utf16LengthAppend(Concat(g), msgs[0]);
      if Fits(g, msgs[0]) {
        CountWhenSmall(msgs[1..], g + [msgs[0]]);
      } else {
        assert |g| == MAX_LINES_PER_MESSAGE - 1;
        CountWhenSmall(msgs[1..], [msgs[0]]);
      }
    }
  }

  /** When the first message fits an empty batch it opens the first group. */
  lemma BatchesStart(msgs: seq<string>)
    requires AllNonEmpty(msgs) && |msgs| > 0
    requires Utf16Length(msgs[0]) < MAX_MESSAGE_SIZE_BYTES
    ensures Batches(msgs) == GroupFrom(msgs[1..], [msgs[0]])
  {
    assert Fits([], msgs[0]);
    assert [] + [msgs[0]] == [msgs[0]];
  }

  /** Small lines alone: n of them make 1 + (n - 1) / 999 batches, the first
      holding min(n, 999) lines. */
  lemma BatchCountWhenSmall(msgs: seq<string>)
    requires AllNonEmpty(msgs) && |msgs| > 0
    requires Utf16Length(Concat(msgs)) < MAX_MESSAGE_SIZE_BYTES
    ensures |Batches(msgs)| == 1 + (|msgs| - 1) / (MAX_LINES_PER_MESSAGE - 1)
    ensures |Batches(msgs)[0]| == if |msgs| < MAX_LINES_PER_MESSAGE then |msgs| else MAX_LINES_PER_MESSAGE - 1
  {
    assert Concat(msgs) == msgs[0] + Concat(msgs[1..]);
    Utf16LengthAppend(msgs[0], Concat(msgs[1..]));
    BatchesStart(msgs);
    assert Concat([msgs[0]]) == msgs[0];
    CountWhenSmall(msgs[1..], [msgs[0]]);
  }

  /** One batch text per batch group. */
  lemma SplitTextsCount(msgs: seq<string>)
    requires AllNonEmpty(msgs)
    ensures |SplitTexts(msgs)| == |Batches(msgs)|
  {
    SplitTextsIsConcatOfBatches(msgs);
  }

  lemma FlattenTwo(groups: seq<seq<string>>)
    requires |groups| == 2
    ensures Flatten(groups) == groups[0] + groups[1]
  {
    var tail := groups[1..];
    assert tail[1..] == [] && tail[0] == groups[1];
    assert Flatten(tail) == groups[1] + Flatten([]);
  }

  lemma FlattenOne(groups: seq<seq<string>>)
    requires |groups| == 1
    ensures Flatten(groups) == groups[0]
  {
    assert groups[1..] == [];
  }

  /** MAX_LINES_PER_MESSAGE + 1 = 1001 small lines give exactly two batches:
      999 lines, then 2. */
  lemma OneThousandAndOneSmallLines(msgs: seq<string>)
    requires AllNonEmpty(msgs) && |msgs| == MAX_LINES_PER_MESSAGE + 1
    requires Utf16Length(Concat(msgs)) < MAX_MESSAGE_SIZE_BYTES
    ensures |SplitTexts(msgs)| == 2 && |Batches(msgs)| == 2
    ensures |Batches(msgs)[0]| == 999 && |Batches(msgs)[1]| == 2
  {
    BatchCountWhenSmall(msgs);
    SplitTextsCount(msgs);
    FlattenTwo(Batches(msgs));
  }

  /** Up to 999 non-empty lines fit into one batch exactly when their total
      size is below the limit. */
  lemma SingleBatchIff(msgs: seq<string>)
    requires AllNonEmpty(msgs) && 0 < |msgs| < MAX_LINES_PER_MESSAGE
    ensures |SplitTexts(msgs)| == 1 <==> Utf16Length(Concat(msgs)) < MAX_MESSAGE_SIZE_BYTES
  {
    SplitTextsCount(msgs);
    var groups := Batches(msgs);
    assert Concat(msgs) == msgs[0] + Concat(msgs[1..]);
    if Utf16Length(Concat(msgs)) < MAX_MESSAGE_SIZE_BYTES {
      BatchCountWhenSmall(msgs);
    } else if |msgs| == 1 {
      assert msgs[0] + Concat([]) == msgs[0];
      EmptyBatchOnlyFirst(msgs);
      assert groups[0] == [];
    } else if |groups| == 1 {
      FlattenOne(groups);
    }
  }
}
