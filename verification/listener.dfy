/** MintBackendListener: its configuration in setupTest, the dimensions it
    attaches to every line, the metric lines it queues per flush, and the
    `enabled` gate on sending. */
module Listener {
  import opened Wrappers
  import opened JavaString
  import opened Sanitizer
  import opened Mint
  import opened Partition
  import opened Sender
  import opened DimensionConfig

  // ---------------------------------------------------------------------------
  // Configured dimensions
  // ---------------------------------------------------------------------------

  /** `order` lists every key of the map exactly once: the iteration order of
      the HashMap, which Java leaves unspecified. */
  predicate Enumerates(order: seq<string>, dims: map<string, string>)
  {
    (forall i, j :: 0 <= i < j < |order| ==> order[i] != order[j]) &&
    (forall i :: 0 <= i < |order| ==> order[i] in dims) &&
    (forall k :: k in dims ==> k in order)
  }

  /** An entry the listener attaches: neither key nor value is empty after trim(). */
  predicate Attachable(key: string, value: string)
  {
    !IsTrimmedEmpty(key) && !IsTrimmedEmpty(value)
  }

  /** The MintDimension made from a configured entry. */
  function SanitizedDimension(key: string, value: string): Dimension
  {
    NewDimension(SanitizeDimensionIdentifier(key), SanitizeDimensionValue(value))
  }

  /** A dimension is well-formed: a clean lower-case identifier as key and a
      value that is quoted or needs no quotes. */
  predicate WellFormedDimension(d: Dimension)
  {
    IsCleanIdentifier(d.key) && NoUpperCase(d.key) && (IsQuoted(d.value) || !NeedsQuotes(d.value))
  }

  /** The keys, in iteration order, whose entries are attached. */
  function AttachableKeys(dims: map<string, string>, order: seq<string>): (keys: seq<string>)
    requires forall i :: 0 <= i < |order| ==> order[i] in dims
    ensures |keys| <= |order|
    ensures forall i :: 0 <= i < |keys| ==> keys[i] in order && keys[i] in dims && Attachable(keys[i], dims[keys[i]])
    ensures forall k :: k in order && k in dims && Attachable(k, dims[k]) ==> k in keys
  {
    if |order| == 0 then []
    else
      var k := order[0];
      var rest := AttachableKeys(dims, order[1..]);
      assert forall x :: x in order ==> x == k || x in order[1..];
      if Attachable(k, dims[k]) then [k] + rest else rest
  }

  /** addTestDimensions / the loop of addTransactionDimensions: for every
      entry in iteration order, the sanitised dimension, skipping entries
      whose key or value is empty after trim(). Every dimension attached is
      well-formed. */
  function ConfiguredDimensions(dims: map<string, string>, order: seq<string>): (ds: seq<Dimension>)
    requires forall i :: 0 <= i < |order| ==> order[i] in dims
    ensures |ds| <= |order|
    ensures forall i :: 0 <= i < |ds| ==> WellFormedDimension(ds[i])
  {
    if |order| == 0 then []
    else
      var k := order[0];
      SanitizedDimensionWellFormed(k, dims[k]);
      (if Attachable(k, dims[k]) then [SanitizedDimension(k, dims[k])] else []) + ConfiguredDimensions(dims, order[1..])
  }

  /** Dimension i is the sanitised entry of the i-th attachable key. */
  lemma {:induction false} ConfiguredDimensionsByKeys(dims: map<string, string>, order: seq<string>)
    requires forall i :: 0 <= i < |order| ==> order[i] in dims
    ensures var ds := ConfiguredDimensions(dims, order);
            var keys := AttachableKeys(dims, order);
            |ds| == |keys| && forall i :: 0 <= i < |ds| ==> ds[i] == SanitizedDimension(keys[i], dims[keys[i]])
    decreases |order|
  {
    if |order| > 0 {
      var k := order[0];
      ConfiguredDimensionsByKeys(dims, order[1..]);
      var restDs := ConfiguredDimensions(dims, order[1..]);
      var restKeys := AttachableKeys(dims, order[1..]);
      var ds := ConfiguredDimensions(dims, order);
      var keys := AttachableKeys(dims, order);
      if Attachable(k, dims[k]) {
        assert ds == [SanitizedDimension(k, dims[k])] + restDs;
        assert keys == [k] + restKeys;
        forall i | 0 <= i < |ds|
          ensures ds[i] == SanitizedDimension(keys[i], dims[keys[i]])
        {
          if i > 0 {
            assert ds[i] == restDs[i - 1] && keys[i] == restKeys[i - 1];
          }
        }
      } else {
        assert ds == restDs;
        assert keys == restKeys;
      }
    }
  }

  /** With the map's full iteration order, exactly the entries whose key and
      value are not empty after trim() are attached, in sanitised form. */
  lemma AttachableEntryIsAttached(dims: map<string, string>, order: seq<string>, key: string)
    requires Enumerates(order, dims) && key in dims
    ensures Attachable(key, dims[key]) <==> key in AttachableKeys(dims, order)
    ensures Attachable(key, dims[key]) ==> SanitizedDimension(key, dims[key]) in ConfiguredDimensions(dims, order)
  {
    var keys := AttachableKeys(dims, order);
    if Attachable(key, dims[key]) {
      assert key in keys;
      var i :| 0 <= i < |keys| && keys[i] == key;
      ConfiguredDimensionsByKeys(dims, order);
      assert ConfiguredDimensions(dims, order)[i] == SanitizedDimension(key, dims[key]);
    }
  }

  /** A sanitised configured dimension is well-formed whatever the entry. */
  lemma SanitizedDimensionWellFormed(key: string, value: string)
    ensures WellFormedDimension(SanitizedDimension(key, value))
  {
  }

  /** addTransactionDimensions: the transaction label as the first dimension,
      then the configured transaction dimensions. */
  function TransactionDimensions(sampleLabel: string, dims: map<string, string>, order: seq<string>): (ds: seq<Dimension>)
    requires forall i :: 0 <= i < |order| ==> order[i] in dims
    ensures |ds| >= 1 && ds[0] == Dimension("transaction", SanitizeDimensionValue(sampleLabel))
    ensures ds[1..] == ConfiguredDimensions(dims, order)
  {
    [NewDimension("transaction", SanitizeDimensionValue(sampleLabel))] + ConfiguredDimensions(dims, order)
  }

  // ---------------------------------------------------------------------------
  // Metric lines
  // ---------------------------------------------------------------------------

  /** The per-transaction metric keys, in the order the lines are queued. */
  const TRANSACTION_KEYS: seq<string> := [
    "jmeter.usermetrics.transaction.count",
    "jmeter.usermetrics.transaction.success",
    "jmeter.usermetrics.transaction.error",
    "jmeter.usermetrics.transaction.hits",
    "jmeter.usermetrics.transaction.mintime",
    "jmeter.usermetrics.transaction.maxtime",
    "jmeter.usermetrics.transaction.meantime",
    "jmeter.usermetrics.transaction.sentbytes",
    "jmeter.usermetrics.transaction.receivedbytes"
  ]

  /** The per-test metric keys, in the order the lines are queued. */
  const TEST_KEYS: seq<string> := [
    "jmeter.usermetrics.minactivethreads",
    "jmeter.usermetrics.maxactivethreads",
    "jmeter.usermetrics.meanactivethreads",
    "jmeter.usermetrics.startedthreads",
    "jmeter.usermetrics.finishedthreads"
  ]

  /** The figures a SamplerMetric reports for one transaction, already
      converted to double. */
  datatype TransactionFigures = TransactionFigures(
    total: Double, successes: Double, failures: Double, hits: Double,
    minTime: Double, maxTime: Double, mean: Double, sentBytes: Double, receivedBytes: Double)

  /** The figures the UserMetric reports for the test. */
  datatype ThreadFigures = ThreadFigures(
    minActive: Double, maxActive: Double, meanActive: Double, started: Double, finished: Double)

  /** The figures in the order of TRANSACTION_KEYS. */
  function TransactionValues(f: TransactionFigures): (vs: seq<Double>)
    ensures |vs| == |TRANSACTION_KEYS|
  {
    [f.total, f.successes, f.failures, f.hits, f.minTime, f.maxTime, f.mean, f.sentBytes, f.receivedBytes]
  }

  /** The figures in the order of TEST_KEYS. */
  function ThreadValues(f: ThreadFigures): (vs: seq<Double>)
    ensures |vs| == |TEST_KEYS|
  {
    [f.minActive, f.maxActive, f.meanActive, f.started, f.finished]
  }

  /** Adds dimensions one by one, as the forEach loops do. */
  function AddDimensions(l: MetricsLine, ds: seq<Dimension>): (r: MetricsLine)
    ensures r.key == l.key && r.gauges == l.gauges && r.dimensions == l.dimensions + ds
    decreases |ds|
  {
    if |ds| == 0 then l
    else
      var r := AddDimensions(l, ds[..|ds| - 1]);
      assert ds == ds[..|ds| - 1] + [ds[|ds| - 1]];
      AddDimension(r, ds[|ds| - 1])
  }

  /** addMetricLineForTest / addMetricLineForTransaction: a new line with the
      given dimensions and one untagged gauge. */
  function MetricLine(key: string, ds: seq<Dimension>, value: Double): (l: MetricsLine)
    ensures l == MetricsLine(key, ds, [NewGauge(value)])
  {
    AddGauge(AddDimensions(NewLine(key), ds), NewGauge(value))
  }

  /** One line per key, each with the same dimensions. */
  function LinesFor(keys: seq<string>, ds: seq<Dimension>, values: seq<Double>): (ls: seq<MetricsLine>)
    requires |values| == |keys|
    ensures |ls| == |keys|
    ensures forall i :: 0 <= i < |keys| ==> ls[i] == MetricsLine(keys[i], ds, [NewGauge(values[i])])
  {
    seq(|keys|, i requires 0 <= i < |keys| => MetricLine(keys[i], ds, values[i]))
  }

  /** addMetricsForTransaction: the nine transaction lines of one label. */
  function TransactionLines(sampleLabel: string, f: TransactionFigures, dims: map<string, string>, order: seq<string>): (ls: seq<MetricsLine>)
    requires forall i :: 0 <= i < |order| ==> order[i] in dims
    ensures |ls| == 9
  {
    LinesFor(TRANSACTION_KEYS, TransactionDimensions(sampleLabel, dims, order), TransactionValues(f))
  }

  /** The five test lines of every flush. */
  function TestLines(f: ThreadFigures, dims: map<string, string>, order: seq<string>): (ls: seq<MetricsLine>)
    requires forall i :: 0 <= i < |order| ==> order[i] in dims
    ensures |ls| == 5
  {
    LinesFor(TEST_KEYS, ConfiguredDimensions(dims, order), ThreadValues(f))
  }

  /** The five test lines carry the thread keys in order, only the configured
      test dimensions, and one untagged gauge holding the matching figure. */
  lemma TestLinesShape(f: ThreadFigures, dims: map<string, string>, order: seq<string>)
    requires forall i :: 0 <= i < |order| ==> order[i] in dims
    ensures var ls := TestLines(f, dims, order);
            var ds := ConfiguredDimensions(dims, order);
            ls[0] == MetricsLine("jmeter.usermetrics.minactivethreads", ds, [NewGauge(f.minActive)]) &&
            ls[1] == MetricsLine("jmeter.usermetrics.maxactivethreads", ds, [NewGauge(f.maxActive)]) &&
            ls[2] == MetricsLine("jmeter.usermetrics.meanactivethreads", ds, [NewGauge(f.meanActive)]) &&
            ls[3] == MetricsLine("jmeter.usermetrics.startedthreads", ds, [NewGauge(f.started)]) &&
            ls[4] == MetricsLine("jmeter.usermetrics.finishedthreads", ds, [NewGauge(f.finished)])
  {
  }

  /** One entry of the per-sampler metrics map: its label and figures. */
  datatype SamplerEntry = SamplerEntry(sampleLabel: string, figures: TransactionFigures)

  /** Whether sendMetrics queues lines for an entry: never for the "all"
      entry; otherwise when the sampler pattern finds a match in the label. */
  predicate Reported(e: SamplerEntry, selected: string -> bool)
  {
    e.sampleLabel != "all" && selected(e.sampleLabel)
  }

  /** The entries sendMetrics reports, in iteration order: an entry is
      reported exactly when it is not the "all" entry and the sampler
      pattern finds a match in its label. */
  function ReportedEntries(entries: seq<SamplerEntry>, selected: string -> bool): (rs: seq<SamplerEntry>)
    ensures |rs| <= |entries|
    ensures forall i :: 0 <= i < |rs| ==> rs[i].sampleLabel != "all" && selected(rs[i].sampleLabel)
    ensures forall e :: e in rs <==> e in entries && Reported(e, selected)
  {
    if |entries| == 0 then []
    else
      assert entries == [entries[0]] + entries[1..];
      (if Reported(entries[0], selected) then [entries[0]] else []) + ReportedEntries(entries[1..], selected)
  }

  /** The filter works entry by entry, so it keeps the iteration order. */
  lemma {:induction false} ReportedEntriesAppend(a: seq<SamplerEntry>, b: seq<SamplerEntry>, selected: string -> bool)
    ensures ReportedEntries(a + b, selected) == ReportedEntries(a, selected) + ReportedEntries(b, selected)
  {
    if |a| > 0 {
      assert (a + b)[0] == a[0];
      assert (a + b)[1..] == a[1..] + b;
      ReportedEntriesAppend(a[1..], b, selected);
    } else {
      assert a + b == b;
    }
  }

  /** The loop of sendMetrics over the per-sampler entries. */
  function SamplerLines(entries: seq<SamplerEntry>, selected: string -> bool, dims: map<string, string>, order: seq<string>): seq<MetricsLine>
    requires forall i :: 0 <= i < |order| ==> order[i] in dims
  {
    if |entries| == 0 then []
    else
      var e := entries[0];
      (if Reported(e, selected) then TransactionLines(e.sampleLabel, e.figures, dims, order) else [])
      + SamplerLines(entries[1..], selected, dims, order)
  }

  /** Line k of the nine lines of an entry: the k-th transaction key, the
      entry's label dimensions and one untagged gauge holding the entry's
      k-th figure. */
  predicate IsTransactionLine(l: MetricsLine, e: SamplerEntry, k: nat, dims: map<string, string>, order: seq<string>)
    requires forall i :: 0 <= i < |order| ==> order[i] in dims
  {
    k < 9 && l.key == TRANSACTION_KEYS[k] && l.dimensions == TransactionDimensions(e.sampleLabel, dims, order) &&
    l.gauges == [NewGauge(TransactionValues(e.figures)[k])]
  }

  /** The nine lines of one label: line k has key k, the label's
      dimensions, and one untagged gauge holding the k-th figure. */
  lemma TransactionLinesShape(sampleLabel: string, f: TransactionFigures, dims: map<string, string>, order: seq<string>)
    requires forall i :: 0 <= i < |order| ==> order[i] in dims
    ensures var ls := TransactionLines(sampleLabel, f, dims, order);
            forall k :: 0 <= k < 9 ==> IsTransactionLine(ls[k], SamplerEntry(sampleLabel, f), k, dims, order)
    ensures var ls := TransactionLines(sampleLabel, f, dims, order);
            forall k :: 0 <= k < 9 ==> ls[k].gauges == [NewGauge(TransactionValues(f)[k])]
  {
  }

  /** Nine lines whose gauge k holds the k-th transaction figure carry the
      figures named one by one. */
  lemma FiguresInKeyOrder(ls: seq<MetricsLine>, f: TransactionFigures)
    requires |ls| == 9 && forall k :: 0 <= k < 9 ==> ls[k].gauges == [NewGauge(TransactionValues(f)[k])]
    ensures ls[0].gauges == [NewGauge(f.total)] && ls[1].gauges == [NewGauge(f.successes)] &&
            ls[2].gauges == [NewGauge(f.failures)] && ls[3].gauges == [NewGauge(f.hits)] &&
            ls[4].gauges == [NewGauge(f.minTime)] && ls[5].gauges == [NewGauge(f.maxTime)] &&
            ls[6].gauges == [NewGauge(f.mean)] && ls[7].gauges == [NewGauge(f.sentBytes)] &&
            ls[8].gauges == [NewGauge(f.receivedBytes)]
  {
  }

  /** The figure each transaction line reports, in the order of
      TRANSACTION_KEYS: count the total, success the successes, error the
      failures, then hits, min, max and mean time, sent and received bytes. */
  lemma TransactionLineFigures(sampleLabel: string, f: TransactionFigures, dims: map<string, string>, order: seq<string>)
    requires forall i :: 0 <= i < |order| ==> order[i] in dims
    ensures var ls := TransactionLines(sampleLabel, f, dims, order);
            ls[0].gauges == [NewGauge(f.total)] && ls[1].gauges == [NewGauge(f.successes)] &&
            ls[2].gauges == [NewGauge(f.failures)] && ls[3].gauges == [NewGauge(f.hits)] &&
            ls[4].gauges == [NewGauge(f.minTime)] && ls[5].gauges == [NewGauge(f.maxTime)] &&
            ls[6].gauges == [NewGauge(f.mean)] && ls[7].gauges == [NewGauge(f.sentBytes)] &&
            ls[8].gauges == [NewGauge(f.receivedBytes)]
  {
    TransactionLinesShape(sampleLabel, f, dims, order);
    FiguresInKeyOrder(TransactionLines(sampleLabel, f, dims, order), f);
  }

  /** Line n of the lines after a nine-line block belongs to the next block. */
  lemma BlockIndex(n: int)
    requires n >= 9
    ensures (n - 9) / 9 == n / 9 - 1 && (n - 9) % 9 == n % 9 && n / 9 >= 1
  {
  }

  /** Line n < 9 of the joined lines is line n of the first block. */
  lemma HeadLine(head: seq<MetricsLine>, rest: seq<MetricsLine>, e: SamplerEntry, restEntries: seq<SamplerEntry>,
                 dims: map<string, string>, order: seq<string>, n: nat)
    requires forall i :: 0 <= i < |order| ==> order[i] in dims
    requires |head| == 9 && n < 9
    requires IsTransactionLine(head[n], e, n, dims, order)
    ensures IsTransactionLine((head + rest)[n], ([e] + restEntries)[n / 9], n % 9, dims, order)
  {
    assert n / 9 == 0 && n % 9 == n;
    assert (head + rest)[n] == head[n];
  }

  /** Line n >= 9 of the joined lines is line n - 9 of the later blocks. */
  lemma TailLine(head: seq<MetricsLine>, rest: seq<MetricsLine>, e: SamplerEntry, restEntries: seq<SamplerEntry>,
                 dims: map<string, string>, order: seq<string>, n: nat)
    requires forall i :: 0 <= i < |order| ==> order[i] in dims
    requires |head| == 9 && 9 <= n < 9 + |rest| && |rest| == 9 * |restEntries|
    requires IsTransactionLine(rest[n - 9], restEntries[(n - 9) / 9], (n - 9) % 9, dims, order)
    ensures IsTransactionLine((head + rest)[n], ([e] + restEntries)[n / 9], n % 9, dims, order)
  {
    BlockIndex(n);
    assert (head + rest)[n] == rest[n - 9];
    assert ([e] + restEntries)[n / 9] == restEntries[(n - 9) / 9];
  }

  /** A block of nine lines for one entry, followed by blocks for more entries. */
  lemma AppendBlock(head: seq<MetricsLine>, rest: seq<MetricsLine>, e: SamplerEntry, restEntries: seq<SamplerEntry>,
                    dims: map<string, string>, order: seq<string>)
    requires forall i :: 0 <= i < |order| ==> order[i] in dims
    requires |head| == 9 && forall k :: 0 <= k < 9 ==> IsTransactionLine(head[k], e, k, dims, order)
    requires |rest| == 9 * |restEntries|
    requires forall n :: 0 <= n < |rest| ==> IsTransactionLine(rest[n], restEntries[n / 9], n % 9, dims, order)
    ensures var ls := head + rest;
            var rs := [e] + restEntries;
            |ls| == 9 * |rs| &&
            forall n :: 0 <= n < |ls| ==> IsTransactionLine(ls[n], rs[n / 9], n % 9, dims, order)
  {
    var ls := head + rest;
    var rs := [e] + restEntries;
    forall n | 0 <= n < |ls|
      ensures IsTransactionLine(ls[n], rs[n / 9], n % 9, dims, order)
    {
      if n < 9 {
        HeadLine(head, rest, e, restEntries, dims, order, n);
      } else {
        TailLine(head, rest, e, restEntries, dims, order, n);
      }
    }
  }

  /** Nine lines per reported entry, in iteration order and in the fixed key
      order: line n belongs to reported entry n / 9 and has key n % 9, the
      entry's label as its first dimension and the entry's matching figure
      in one untagged gauge. */
  lemma {:induction false} SamplerLinesSpec(entries: seq<SamplerEntry>, selected: string -> bool, dims: map<string, string>, order: seq<string>)
    requires forall i :: 0 <= i < |order| ==> order[i] in dims
    ensures var ls := SamplerLines(entries, selected, dims, order);
            var rs := ReportedEntries(entries, selected);
            |ls| == 9 * |rs| &&
            forall n :: 0 <= n < |ls| ==> IsTransactionLine(ls[n], rs[n / 9], n % 9, dims, order)
    decreases |entries|
  {
    if |entries| > 0 {
      var e := entries[0];
      SamplerLinesSpec(entries[1..], selected, dims, order);
      var head := TransactionLines(e.sampleLabel, e.figures, dims, order);
      var rest := SamplerLines(entries[1..], selected, dims, order);
      var restEntries := ReportedEntries(entries[1..], selected);
      if Reported(e, selected) {
        assert SamplerLines(entries, selected, dims, order) == head + rest;
        assert ReportedEntries(entries, selected) == [e] + restEntries;
        TransactionLinesShape(e.sampleLabel, e.figures, dims, order);
        assert SamplerEntry(e.sampleLabel, e.figures) == e;
        AppendBlock(head, rest, e, restEntries, dims, order);
      } else {
        assert SamplerLines(entries, selected, dims, order) == rest;
        assert ReportedEntries(entries, selected) == restEntries;
      }
    }
  }

  /** The lines sendMetrics queues: nine lines for every reported entry, in
      iteration order, with the transaction dimensions; then the five test
      lines with the test dimensions. */
  function FlushLines(entries: seq<SamplerEntry>, selected: string -> bool, threads: ThreadFigures, c: Config): (ls: seq<MetricsLine>)
    requires c.Valid()
    ensures var rs := ReportedEntries(entries, selected);
            |ls| == 9 * |rs| + 5 &&
            forall n :: 0 <= n < 9 * |rs| ==> IsTransactionLine(ls[n], rs[n / 9], n % 9, c.transactionDimensions, c.transactionOrder)
    ensures ls[9 * |ReportedEntries(entries, selected)|..] == TestLines(threads, c.testDimensions, c.testOrder)
  {
    SamplerLinesSpec(entries, selected, c.transactionDimensions, c.transactionOrder);
    SamplerLines(entries, selected, c.transactionDimensions, c.transactionOrder) + TestLines(threads, c.testDimensions, c.testOrder)
  }

  /** Queues lines on the sender one by one. */
  function AddAll(s: Sender, ls: seq<MetricsLine>): (r: Sender)
    ensures r.url == s.url && r.token == s.token && r.pending == s.pending + ls
    decreases |ls|
  {
    if |ls| == 0 then s
    else
      assert ls == ls[..|ls| - 1] + [ls[|ls| - 1]];
      AddMetric(AddAll(s, ls[..|ls| - 1]), ls[|ls| - 1])
  }

  // ---------------------------------------------------------------------------
  // The listener and its enabled gate
  // ---------------------------------------------------------------------------

  /** The parsed configuration with the iteration order of both maps. */
  datatype Config = Config(
    testDimensions: map<string, string>, testOrder: seq<string>,
    transactionDimensions: map<string, string>, transactionOrder: seq<string>)
  {
    predicate Valid()
    {
      Enumerates(testOrder, testDimensions) && Enumerates(transactionOrder, transactionDimensions)
    }
  }

  /** The listener after setupTest. */
  datatype Listener = Listener(enabled: bool, config: Config, sender: Sender)

  /** Why setupTest throws: a repeated key in one of the dimension strings,
      test dimensions being parsed first. */
  datatype SetupError = DuplicateTestDimension(key: string) | DuplicateTransactionDimension(key: string)

  /** The listener parameters as JMeter hands them over, defaults applied. */
  datatype Parameters = Parameters(
    ingestUrl: string, apiToken: Option<string>,
    testDimensions: string, transactionDimensions: string, enabled: string)

  /** setupTest. `senderReady` is whether MintMetricSender.setup succeeds
      and `probe` how its connection check ends; both matter only when the
      `enabled` parameter says "true". `testOrder` and `transactionOrder`
      give the iteration order of the parsed maps. */
  function SetupTest(p: Parameters, senderReady: bool, probe: ProbeOutcome, isSuccess: int -> bool,
                     testOrder: seq<string>, transactionOrder: seq<string>): Result<Listener, SetupError>
  {
    match ParseDimensions(p.testDimensions, false)
    case Failure(k) => Failure(DuplicateTestDimension(k))
    case Success(testDims) =>
      match ParseDimensions(p.transactionDimensions, true)
      case Failure(k) => Failure(DuplicateTransactionDimension(k))
      case Success(txDims) =>
        var configured := ParseBoolean(p.enabled);
        var connected := configured && senderReady && CheckConnection(probe, isSuccess) == Pass;
        Success(Listener(connected, Config(testDims, testOrder, txDims, transactionOrder), NewSender(p.ingestUrl, p.apiToken)))
  }

  /** setupTest fails exactly on a repeated key; when it succeeds the
      listener is enabled exactly when the parameter reads "true" (ignoring
      case), the sender could be set up and the connection check passed; the
      sender starts with nothing pending. */
  lemma SetupTestSpec(p: Parameters, senderReady: bool, probe: ProbeOutcome, isSuccess: int -> bool,
                      testOrder: seq<string>, transactionOrder: seq<string>)
    ensures var r := SetupTest(p, senderReady, probe, isSuccess, testOrder, transactionOrder);
            r.Success? <==>
              DistinctKeys(DimensionEntries(p.testDimensions, false)) &&
              DistinctKeys(DimensionEntries(p.transactionDimensions, true))
    ensures var r := SetupTest(p, senderReady, probe, isSuccess, testOrder, transactionOrder);
            r.Success? ==>
              (r.value.enabled <==> ParseBoolean(p.enabled) && senderReady && CheckConnection(probe, isSuccess) == Pass) &&
              r.value.sender.pending == [] &&
              r.value.config.testDimensions == ParseDimensions(p.testDimensions, false).value &&
              r.value.config.transactionDimensions == ParseDimensions(p.transactionDimensions, true).value
    ensures var r := SetupTest(p, senderReady, probe, isSuccess, testOrder, transactionOrder);
            r.Success? && Enumerates(testOrder, r.value.config.testDimensions) &&
            Enumerates(transactionOrder, r.value.config.transactionDimensions) ==>
              r.value.config.Valid()
  {
    ParseDimensionsSpec(p.testDimensions, false);
    ParseDimensionsSpec(p.transactionDimensions, true);
  }

  /** With the shipped default the transaction dimensions come out empty. */
  lemma DefaultTransactionDimensionsAreEmpty(p: Parameters, senderReady: bool, probe: ProbeOutcome, isSuccess: int -> bool,
                                             testOrder: seq<string>, transactionOrder: seq<string>)
    requires p.transactionDimensions == DEFAULT_TRANSACTION_DIMENSION
    ensures var r := SetupTest(p, senderReady, probe, isSuccess, testOrder, transactionOrder);
            r.Success? ==> r.value.config.transactionDimensions == map[]
  {
    DefaultTransactionDimensionDropped();
    assert ParseDimensions(p.transactionDimensions, true) == Success(map[]);
  }

  /** What one send of the listener produced: the listener after it and the
      requests issued. */
  datatype Tick = Tick(listener: Listener, requests: seq<Request>)

  /** sendMetrics: queue the transaction and test lines, then flush. */
  function SendMetrics(l: Listener, entries: seq<SamplerEntry>, selected: string -> bool, threads: ThreadFigures,
                       show: Double -> string, clock: nat -> Long, separator: string): Tick
    requires l.config.Valid()
  {
    var queued := AddAll(l.sender, FlushLines(entries, selected, threads, l.config));
    var f := WriteAndSendMetrics(queued, show, clock, separator);
    Tick(l.(sender := f.sender), f.requests)
  }

  /** run(): sends only when enabled. */
  function Run(l: Listener, entries: seq<SamplerEntry>, selected: string -> bool, threads: ThreadFigures,
               show: Double -> string, clock: nat -> Long, separator: string): Tick
    requires l.config.Valid()
  {
    if l.enabled then SendMetrics(l, entries, selected, threads, show, clock, separator) else Tick(l, [])
  }

  /** teardownTest(): the last send happens only when enabled. */
  function TeardownTest(l: Listener, entries: seq<SamplerEntry>, selected: string -> bool, threads: ThreadFigures,
                        show: Double -> string, clock: nat -> Long, separator: string): Tick
    requires l.config.Valid()
  {
    if l.enabled then SendMetrics(l, entries, selected, threads, show, clock, separator) else Tick(l, [])
  }

  /** A disabled listener sends nothing and changes nothing, in run() and
      in teardownTest(); an enabled one always sends, since every send
      carries at least the five test lines, and leaves nothing pending. */
  lemma EnabledGate(l: Listener, entries: seq<SamplerEntry>, selected: string -> bool, threads: ThreadFigures,
                    show: Double -> string, clock: nat -> Long, separator: string)
    requires l.config.Valid()
    ensures !l.enabled ==> Run(l, entries, selected, threads, show, clock, separator) == Tick(l, [])
    ensures !l.enabled ==> TeardownTest(l, entries, selected, threads, show, clock, separator) == Tick(l, [])
    ensures l.enabled ==> |Run(l, entries, selected, threads, show, clock, separator).requests| > 0
    ensures l.enabled ==> Run(l, entries, selected, threads, show, clock, separator).listener.sender.pending == []
    ensures l.enabled ==> |TeardownTest(l, entries, selected, threads, show, clock, separator).requests| > 0
    ensures l.enabled ==> TeardownTest(l, entries, selected, threads, show, clock, separator).listener.sender.pending == []
  {
    if l.enabled {
      var queued := AddAll(l.sender, FlushLines(entries, selected, threads, l.config));
      var msgs := RenderLines(queued.pending, show, clock, separator);
      assert |msgs| > 0;
      SplitFromKeepsText(msgs, "", 0);
      RenderedLinesNonEmpty(queued.pending, show, clock, separator);
      assert |msgs[0]| > 0;
      assert Concat(msgs) == msgs[0] + Concat(msgs[1..]);
    }
  }

  /** One send queues, after whatever was pending, the lines of every
      reported entry and then the test lines, and sends all of them:
      the bodies, concatenated, are exactly those lines rendered in order. */
  lemma SendMetricsSendsQueuedLines(l: Listener, entries: seq<SamplerEntry>, selected: string -> bool, threads: ThreadFigures,
                                    show: Double -> string, clock: nat -> Long, separator: string)
    requires l.config.Valid()
    ensures var t := SendMetrics(l, entries, selected, threads, show, clock, separator);
            var ls := l.sender.pending + FlushLines(entries, selected, threads, l.config);
            Concat(Bodies(t.requests)) == Concat(RenderLines(ls, show, clock, separator)) &&
            t.listener.sender.pending == [] && t.listener.enabled == l.enabled && t.listener.config == l.config
  {
    var queued := AddAll(l.sender, FlushLines(entries, selected, threads, l.config));
    FlushSendsEveryLine(queued, show, clock, separator);
  }
}
