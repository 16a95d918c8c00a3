/** The dimension strings of MintBackendListener.setupTest: the
    `testDimensions` and `transactionDimensions` parameters parsed into
    key/value maps. */
module DimensionConfig {
  import opened Wrappers
  import opened JavaString

  /** The placeholder shipped as the default `transactionDimensions` value. */
  const DEFAULT_TRANSACTION_DIMENSION: string := "dt.entity.service=SERVICE-XXXXXXXXXXXXX"

  /** The outer split regex "[, ]". */
  predicate IsPieceDelim(c: char)
  {
    c == ',' || c == ' '
  }

  /** The inner split regex "[= ]". */
  predicate IsPairDelim(c: char)
  {
    c == '=' || c == ' '
  }

  predicate FreeOf(s: string, isDelim: char -> bool)
  {
    forall i :: 0 <= i < |s| ==> !isDelim(s[i])
  }

  datatype Entry = Entry(key: string, value: string)

  /** One piece split on "[= ]"; it becomes an entry only when that gives
      exactly two parts. The value is never empty, because split drops
      trailing empty parts. */
  function EntryOf(piece: string): (e: Option<Entry>)
    ensures e.Some? ==> |e.value.value| > 0
    ensures e.Some? ==> FreeOf(e.value.key, IsPairDelim) && FreeOf(e.value.value, IsPairDelim)
  {
    var parts := JavaSplit(piece, IsPairDelim);
    if |parts| == 2 then
      assert |Delims(piece, IsPairDelim)| > 0;
      Some(Entry(parts[0], parts[1]))
    else None
  }

  /** Every text of the form key, one delimiter, a non-empty value, then only
      delimiters, is the entry (key, value): so "k=v" and "k=v=" both give k -> v. */
  lemma EntryOfComplete(k: string, c: char, v: string, tail: string)
    requires FreeOf(k, IsPairDelim) && FreeOf(v, IsPairDelim) && |v| > 0
    requires IsPairDelim(c) && AllDelims(tail, IsPairDelim)
    ensures EntryOf(k + [c] + v + tail) == Some(Entry(k, v))
  {
    var piece := k + [c] + v + tail;
    assert piece == k + [c] + (v + tail);
    SplitAllFirstPiece(k, c, v + tail, IsPairDelim);
    SplitAllTrailingDelims(v, tail, IsPairDelim);
    assert SplitAll(piece, IsPairDelim) == [k, v] + Empties(|tail|);
    DropTrailingEmptyOfPadded([k, v], |tail|);
  }

  /** Conversely, an entry comes only from a piece of that form. */
  lemma EntryOfSound(piece: string)
    requires EntryOf(piece).Some?
    ensures var e := EntryOf(piece).value;
            var n := |e.key|;
            n + 1 + |e.value| <= |piece| && IsPairDelim(piece[n]) &&
            piece == e.key + [piece[n]] + e.value + piece[n + 1 + |e.value|..] &&
            AllDelims(piece[n + 1 + |e.value|..], IsPairDelim)
  {
    var e := EntryOf(piece).value;
    var parts := SplitAll(piece, IsPairDelim);
    var d := Delims(piece, IsPairDelim);
    SplitAllRoundTrip(piece, IsPairDelim);
    assert |d| > 0;
    assert parts[0] == e.key && parts[1] == e.value;
    assert piece == e.key + [d[0]] + Interleave(parts[1..], d[1..]);
    var rest := Interleave(parts[1..], d[1..]);
    if |d| == 1 {
      assert rest == e.value;
      assert piece == e.key + [d[0]] + e.value + "";
    } else {
      InterleaveEmpties(parts[2..], d[2..]);
      assert parts[1..][1..] == parts[2..];
      assert rest == e.value + [d[1]] + d[2..];
      assert d[1..] == [d[1]] + d[2..];
      assert piece == e.key + [d[0]] + e.value + d[1..];
    }
    assert piece[|e.key|] == d[0];
    assert piece[|e.key| + 1 + |e.value|..] == d[1..];
  }

  /** The pieces that reach the inner split: all of them for the test
      dimensions; for the transaction dimensions, all but those equal to the
      placeholder default. */
  function KeptPieces(pieces: seq<string>, dropDefault: bool): (kept: seq<string>)
    ensures |kept| <= |pieces|
    ensures forall i :: 0 <= i < |kept| ==> kept[i] in pieces
    ensures dropDefault ==> DEFAULT_TRANSACTION_DIMENSION !in kept
    ensures dropDefault ==> multiset(kept) == multiset(pieces)[DEFAULT_TRANSACTION_DIMENSION := 0]
    ensures !dropDefault ==> kept == pieces
  {
    if |pieces| == 0 then []
    else
      assert pieces == [pieces[0]] + pieces[1..];
      assert multiset(pieces) == multiset{pieces[0]} + multiset(pieces[1..]);
      if dropDefault && pieces[0] == DEFAULT_TRANSACTION_DIMENSION then KeptPieces(pieces[1..], dropDefault)
      else [pieces[0]] + KeptPieces(pieces[1..], dropDefault)
  }

  /** The entries of the kept pieces that split into exactly two parts, in order. */
  function EntriesOf(pieces: seq<string>): (es: seq<Entry>)
    ensures |es| <= |pieces|
    ensures forall i :: 0 <= i < |es| ==> |es[i].value| > 0
    ensures forall e :: e in es <==> exists i :: 0 <= i < |pieces| && EntryOf(pieces[i]) == Some(e)
  {
    if |pieces| == 0 then []
    else match EntryOf(pieces[0])
      case Some(e) => [e] + EntriesOf(pieces[1..])
      case None => EntriesOf(pieces[1..])
  }

  /** The placeholder filter works piece by piece, so it keeps the order of
      the pieces it lets through. */
  lemma {:induction false} KeptPiecesAppend(a: seq<string>, b: seq<string>, dropDefault: bool)
    ensures KeptPieces(a + b, dropDefault) == KeptPieces(a, dropDefault) + KeptPieces(b, dropDefault)
    decreases |a|
  {
    if |a| > 0 {
      assert (a + b)[1..] == a[1..] + b;
      KeptPiecesAppend(a[1..], b, dropDefault);
    } else {
      assert a + b == b;
    }
  }

  /** Entries are read piece by piece, so they come in the order of the pieces. */
  lemma {:induction false} EntriesOfAppend(a: seq<string>, b: seq<string>)
    ensures EntriesOf(a + b) == EntriesOf(a) + EntriesOf(b)
    decreases |a|
  {
    if |a| > 0 {
      assert (a + b)[1..] == a[1..] + b;
      assert (a + b)[0] == a[0];
      EntriesOfAppend(a[1..], b);
    } else {
      assert a + b == b;
    }
  }

  function DimensionEntries(text: string, dropDefault: bool): seq<Entry>
  {
    EntriesOf(KeptPieces(JavaSplit(text, IsPieceDelim), dropDefault))
  }

  // ---------------------------------------------------------------------------
  // Collectors.toMap without a merge function
  // ---------------------------------------------------------------------------

  function KeysOf(es: seq<Entry>): set<string>
  {
    set i | 0 <= i < |es| :: es[i].key
  }

  predicate DistinctKeys(es: seq<Entry>)
  {
    forall i, j :: 0 <= i < j < |es| ==> es[i].key != es[j].key
  }

  /** Collecting entries into a map that already holds acc: the first key
      met twice ends the collection with a failure naming it. */
  function CollectToMap(es: seq<Entry>, acc: map<string, string>): Result<map<string, string>, string>
    decreases |es|
  {
    if |es| == 0 then Success(acc)
    else if es[0].key in acc then Failure(es[0].key)
    else CollectToMap(es[1..], acc[es[0].key := es[0].value])
  }

  lemma KeysOfCons(es: seq<Entry>)
    requires |es| > 0
    ensures KeysOf(es) == {es[0].key} + KeysOf(es[1..])
  {
    var rest := es[1..];
    forall k | k in KeysOf(es) ensures k in {es[0].key} + KeysOf(rest) {
      var i :| 0 <= i < |es| && es[i].key == k;
      if i > 0 { assert rest[i - 1] == es[i]; }
    }
    forall k | k in KeysOf(rest) ensures k in KeysOf(es) {
      var i :| 0 <= i < |rest| && rest[i].key == k;
      assert es[i + 1] == rest[i];
    }
  }

  /** No key repeats among es, nor against acc. */
  predicate Collectable(es: seq<Entry>, acc: map<string, string>)
  {
    DistinctKeys(es) && forall i :: 0 <= i < |es| ==> es[i].key !in acc
  }

  lemma CollectableCons(es: seq<Entry>, acc: map<string, string>)
    requires |es| > 0 && es[0].key !in acc
    ensures Collectable(es, acc) <==> Collectable(es[1..], acc[es[0].key := es[0].value])
  {
    var rest := es[1..];
    var acc' := acc[es[0].key := es[0].value];
    if Collectable(es, acc) {
      forall i, j | 0 <= i < j < |rest| ensures rest[i].key != rest[j].key {
        assert rest[i] == es[i + 1] && rest[j] == es[j + 1];
      }
      forall i | 0 <= i < |rest| ensures rest[i].key !in acc' {
        assert rest[i] == es[i + 1];
      }
    }
    if Collectable(rest, acc') {
      forall i, j | 0 <= i < j < |es| ensures es[i].key != es[j].key {
        assert es[j] == rest[j - 1];
        if i > 0 { assert es[i] == rest[i - 1]; }
      }
      forall i | 0 <= i < |es| ensures es[i].key !in acc {
        if i > 0 { assert es[i] == rest[i - 1]; }
      }
    }
  }

  /** Collection succeeds exactly when no key repeats, within the entries or
      against acc. */
  lemma {:induction false} CollectToMapSucceedsIff(es: seq<Entry>, acc: map<string, string>)
    ensures CollectToMap(es, acc).Success? <==> Collectable(es, acc)
    decreases |es|
  {
    if |es| > 0 {
      if es[0].key !in acc {
        CollectToMapSucceedsIff(es[1..], acc[es[0].key := es[0].value]);
        CollectableCons(es, acc);
      }
    }
  }

  /** A successful collection holds acc and every entry, and nothing else. */
  lemma {:induction false} CollectToMapContents(es: seq<Entry>, acc: map<string, string>)
    requires CollectToMap(es, acc).Success?
    ensures var m := CollectToMap(es, acc).value;
            m.Keys == acc.Keys + KeysOf(es) &&
            (forall i :: 0 <= i < |es| ==> m[es[i].key] == es[i].value) &&
            (forall k :: k in acc ==> m[k] == acc[k])
    decreases |es|
  {
    if |es| > 0 {
      var rest := es[1..];
      var acc' := acc[es[0].key := es[0].value];
      CollectToMapContents(rest, acc');
      KeysOfCons(es);
      var m := CollectToMap(rest, acc').value;
      CollectToMapSucceedsIff(es, acc);
      forall i | 0 <= i < |es| ensures m[es[i].key] == es[i].value {
        if i > 0 { assert es[i] == rest[i - 1]; }
      }
    }
  }

  /** A failed collection names a key that is met a second time. */
  lemma {:induction false} CollectToMapFailure(es: seq<Entry>, acc: map<string, string>)
    requires CollectToMap(es, acc).Failure?
    ensures var k := CollectToMap(es, acc).error;
            exists j :: 0 <= j < |es| && es[j].key == k && (k in acc || exists i :: 0 <= i < j && es[i].key == k)
    decreases |es|
  {
    var rest := es[1..];
    if es[0].key !in acc {
      var acc' := acc[es[0].key := es[0].value];
      CollectToMapFailure(rest, acc');
      var k := CollectToMap(rest, acc').error;
      var j :| 0 <= j < |rest| && rest[j].key == k && (k in acc' || exists i :: 0 <= i < j && rest[i].key == k);
      assert es[j + 1] == rest[j];
      if k !in acc {
        if k == es[0].key {
          assert 0 < j + 1;
        } else {
          var i :| 0 <= i < j && rest[i].key == k;
          assert es[i + 1] == rest[i];
        }
      }
    }
  }

  /** setupTest's parsing of one dimension string; a repeated key makes it fail. */
  function ParseDimensions(text: string, dropDefault: bool): (r: Result<map<string, string>, string>)
  {
    CollectToMap(DimensionEntries(text, dropDefault), map[])
  }

  /** Collecting entries with non-empty values into an empty map: success
      exactly on distinct keys, then a map of exactly those entries with
      non-empty values; a failure names a repeated key. */
  lemma CollectEntries(es: seq<Entry>)
    requires forall i :: 0 <= i < |es| ==> |es[i].value| > 0
    ensures CollectToMap(es, map[]).Success? <==> DistinctKeys(es)
    ensures CollectToMap(es, map[]).Success? ==>
            var m := CollectToMap(es, map[]).value;
            m.Keys == KeysOf(es) &&
            (forall i :: 0 <= i < |es| ==> m[es[i].key] == es[i].value) &&
            (forall k :: k in m ==> |m[k]| > 0)
    ensures CollectToMap(es, map[]).Failure? ==>
            exists i, j :: 0 <= i < j < |es| && es[i].key == es[j].key == CollectToMap(es, map[]).error
  {
    CollectToMapSucceedsIff(es, map[]);
    var r := CollectToMap(es, map[]);
    if r.Failure? {
      CollectToMapFailure(es, map[]);
    }
    if r.Success? {
      CollectToMapContents(es, map[]);
      forall k | k in r.value ensures |r.value[k]| > 0 {
        assert k in KeysOf(es);
        var i :| 0 <= i < |es| && es[i].key == k;
      }
    }
  }

  /** The parse succeeds exactly when the entries have distinct keys; the map
      then has exactly the entries' keys, each bound to its entry's value, and
      every value is non-empty. */
  lemma ParseDimensionsSpec(text: string, dropDefault: bool)
    ensures var es := DimensionEntries(text, dropDefault);
            ParseDimensions(text, dropDefault).Success? <==> DistinctKeys(es)
    ensures var es := DimensionEntries(text, dropDefault);
            ParseDimensions(text, dropDefault).Success? ==>
            var m := ParseDimensions(text, dropDefault).value;
            m.Keys == KeysOf(es) &&
            (forall i :: 0 <= i < |es| ==> m[es[i].key] == es[i].value) &&
            (forall k :: k in m ==> |m[k]| > 0)
    ensures var es := DimensionEntries(text, dropDefault);
            ParseDimensions(text, dropDefault).Failure? ==>
            exists i, j :: 0 <= i < j < |es| && es[i].key == es[j].key == ParseDimensions(text, dropDefault).error
  {
    CollectEntries(DimensionEntries(text, dropDefault));
  }

  // ---------------------------------------------------------------------------
  // The default placeholder
  // ---------------------------------------------------------------------------

  lemma DefaultIsOnePiece()
    ensures JavaSplit(DEFAULT_TRANSACTION_DIMENSION, IsPieceDelim) == [DEFAULT_TRANSACTION_DIMENSION]
  {
    assert FreeOf(DEFAULT_TRANSACTION_DIMENSION, IsPieceDelim);
    SplitAllNoDelims(DEFAULT_TRANSACTION_DIMENSION, IsPieceDelim);
  }

  /** The placeholder transaction dimension gives no transaction dimension at all. */
  lemma DefaultTransactionDimensionDropped()
    ensures ParseDimensions(DEFAULT_TRANSACTION_DIMENSION, true) == Success(map[])
  {
    DefaultIsOnePiece();
  }

  lemma EntriesOfSingle(piece: string, e: Entry)
    requires EntryOf(piece) == Some(e)
    ensures EntriesOf([piece]) == [e]
  {
    assert EntriesOf([piece]) == [e] + EntriesOf([]);
  }

  lemma DefaultParts()
    ensures FreeOf("dt.entity.service", IsPairDelim) && FreeOf("SERVICE-XXXXXXXXXXXXX", IsPairDelim)
    ensures "dt.entity.service" + ['='] + "SERVICE-XXXXXXXXXXXXX" + "" == DEFAULT_TRANSACTION_DIMENSION
  {
  }

  lemma DefaultIsPair()
    ensures EntryOf(DEFAULT_TRANSACTION_DIMENSION) == Some(Entry("dt.entity.service", "SERVICE-XXXXXXXXXXXXX"))
  {
    DefaultParts();
    EntryOfComplete("dt.entity.service", '=', "SERVICE-XXXXXXXXXXXXX", "");
  }

  /** The placeholder read as a test dimension: one entry. */
  lemma DefaultEntryAsTestDimension()
    ensures DimensionEntries(DEFAULT_TRANSACTION_DIMENSION, false) == [Entry("dt.entity.service", "SERVICE-XXXXXXXXXXXXX")]
  {
    DefaultIsOnePiece();
    DefaultIsPair();
    EntriesOfSingle(DEFAULT_TRANSACTION_DIMENSION, Entry("dt.entity.service", "SERVICE-XXXXXXXXXXXXX"));
  }

  /** Only the transaction string drops it: as a test dimension the same text
      is an ordinary entry. */
  lemma DefaultIsAnOrdinaryTestDimension()
    ensures ParseDimensions(DEFAULT_TRANSACTION_DIMENSION, false)
         == Success(map["dt.entity.service" := "SERVICE-XXXXXXXXXXXXX"])
  {
    DefaultEntryAsTestDimension();
    var e := Entry("dt.entity.service", "SERVICE-XXXXXXXXXXXXX");
    assert CollectToMap([e], map[]) == CollectToMap([], map[e.key := e.value]);
  }
}
