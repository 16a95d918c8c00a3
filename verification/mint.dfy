/** The MINT metric-line records: MintDimension, MintGauge and MintMetricsLine,
    and the data-line text printMessage() renders. */
module Mint {
  import opened Wrappers
  import opened JavaString

  /** A Java double, held as its IEEE-754 bit pattern. Its text form
      (String.valueOf(double)) is supplied by the caller as `show`. */
  type Double = bv64

  // ---------------------------------------------------------------------------
  // MintDimension
  // ---------------------------------------------------------------------------

  /** A dimension key and value, stored exactly as given. */
  datatype Dimension = Dimension(key: string, value: string)

  /** The constructor: no sanitising or quoting happens here; the getters
      return the arguments unchanged. */
  function NewDimension(key: string, value: string): (d: Dimension)
    ensures d.key == key
    ensures d.value == value
  {
    Dimension(key, value)
  }

  // ---------------------------------------------------------------------------
  // MintGauge
  // ---------------------------------------------------------------------------

  /** A number, optionally tagged with a field name (null in Java when untagged). */
  datatype Gauge = Gauge(field: Option<string>, number: Double)

  /** The one-argument constructor leaves the field absent. */
  function NewGauge(number: Double): (g: Gauge)
    ensures g.field == None
    ensures g.number == number
  {
    Gauge(None, number)
  }

  /** The two-argument constructor; any string, the empty one included, tags the gauge. */
  function NewTaggedGauge(field: string, number: Double): (g: Gauge)
    ensures g.field == Some(field)
    ensures g.number == number
  {
    Gauge(Some(field), number)
  }

  /** MintGauge.toString(). */
  function GaugeText(g: Gauge, show: Double -> string): string
  {
    match g.field
    case None => show(g.number)
    case Some(f) => f + "=" + show(g.number)
  }

  /** Rendering an untagged gauge gives just the number's text, and tagging
      puts the field and '=' in front of exactly that text. */
  lemma GaugeTextTagging(field: string, number: Double, show: Double -> string)
    ensures GaugeText(NewGauge(number), show) == show(number)
    ensures GaugeText(NewTaggedGauge(field, number), show) == field + "=" + GaugeText(NewGauge(number), show)
  {
  }

  /** Only an absent field counts as untagged: an empty field still renders
      the '=' and so differs from the untagged gauge. */
  lemma EmptyFieldIsStillTagged(number: Double, show: Double -> string)
    ensures GaugeText(NewTaggedGauge("", number), show) == "=" + show(number)
    ensures GaugeText(NewTaggedGauge("", number), show) != GaugeText(NewGauge(number), show)
  {
    assert |GaugeText(NewTaggedGauge("", number), show)| == |show(number)| + 1;
  }

  // ---------------------------------------------------------------------------
  // MintMetricsLine
  // ---------------------------------------------------------------------------

  /** A metric key with its dimensions and gauges in insertion order. */
  datatype MetricsLine = MetricsLine(key: string, dimensions: seq<Dimension>, gauges: seq<Gauge>)

  /** The one-argument constructor: no dimensions, no gauges. */
  function NewLine(key: string): (l: MetricsLine)
    ensures l.key == key
    ensures l.dimensions == [] && l.gauges == []
  {
    MetricsLine(key, [], [])
  }

  /** addDimension: appends at the end; earlier dimensions, the gauges and
      the key are untouched. */
  function AddDimension(l: MetricsLine, d: Dimension): (r: MetricsLine)
    ensures r.key == l.key && r.gauges == l.gauges
    ensures |r.dimensions| == |l.dimensions| + 1
    ensures r.dimensions[..|l.dimensions|] == l.dimensions
    ensures r.dimensions[|l.dimensions|] == d
  {
    l.(dimensions := l.dimensions + [d])
  }

  /** addGauge: appends at the end; earlier gauges, the dimensions and the
      key are untouched. */
  function AddGauge(l: MetricsLine, g: Gauge): (r: MetricsLine)
    ensures r.key == l.key && r.dimensions == l.dimensions
    ensures |r.gauges| == |l.gauges| + 1
    ensures r.gauges[..|l.gauges|] == l.gauges
    ensures r.gauges[|l.gauges|] == g
  {
    l.(gauges := l.gauges + [g])
  }

  /** The `key=value` text of every dimension, verbatim. */
  function DimensionTexts(ds: seq<Dimension>): (ts: seq<string>)
    ensures |ts| == |ds|
  {
    seq(|ds|, i requires 0 <= i < |ds| => ds[i].key + "=" + ds[i].value)
  }

  /** The text of every gauge. */
  function GaugeTexts(gs: seq<Gauge>, show: Double -> string): (ts: seq<string>)
    ensures |ts| == |gs|
  {
    seq(|gs|, i requires 0 <= i < |gs| => GaugeText(gs[i], show))
  }

  /** StringBuilder.setLength(length() - 1) when the builder is not empty. */
  function DropLastChar(b: string): string
  {
    if |b| > 0 then b[..|b| - 1] else b
  }

  /** printMessage() (printMessage(false) in the sender) as written: both
      builders get a ',' after every element and lose the last character
      afterwards; the dimension block and its comma appear only when the
      trimmed dimension text is not empty; `now` is the clock reading. */
  function PrintMessage(l: MetricsLine, show: Double -> string, now: Long): string
  {
    var dimensionString := DropLastChar(Terminated(DimensionTexts(l.dimensions), ","));
    var gaugeString := DropLastChar(Terminated(GaugeTexts(l.gauges, show), ","));
    var head := if |dimensionString| > 0 then l.key + "," + dimensionString else l.key;
    head + " gauge," + gaugeString + " " + LongText(now)
  }

  /** The trimmed builder holds the comma-joined elements. */
  lemma DropLastOfTerminated(xs: seq<string>)
    ensures DropLastChar(Terminated(xs, ",")) == Join(xs, ",")
  {
    if |xs| > 0 {
      TerminatedIsJoinThenSep(xs, ",");
      assert (Join(xs, ",") + ",")[..|Join(xs, ",")|] == Join(xs, ",");
    }
  }

  /** The part of a data line before ` gauge,`: the key alone without
      dimensions, otherwise the key, a comma and the comma-joined `key=value`
      pairs in insertion order. */
  function LineHead(key: string, ds: seq<Dimension>): string
  {
    if |ds| == 0 then key else key + "," + Join(DimensionTexts(ds), ",")
  }

  /** The data-line layout `key[,k=v,...] gauge,g1[,g2...] ts`, with
      dimension keys and values and gauge texts emitted verbatim. */
  lemma PrintMessageLayout(l: MetricsLine, show: Double -> string, now: Long)
    ensures PrintMessage(l, show, now)
         == LineHead(l.key, l.dimensions) + " gauge," + Join(GaugeTexts(l.gauges, show), ",") + " " + LongText(now)
  {
    var dts := DimensionTexts(l.dimensions);
    DropLastOfTerminated(dts);
    DropLastOfTerminated(GaugeTexts(l.gauges, show));
    if |dts| > 0 {
      JoinEndsWithLast(dts, ",");
      assert |dts[|dts| - 1]| >= 1;
    }
  }

  /** Without dimensions the comma before the dimension block is omitted;
      with them, the pairs follow the key after one comma. */
  lemma PrintMessageDimensionCases(l: MetricsLine, show: Double -> string, now: Long)
    ensures |l.dimensions| == 0 ==>
      PrintMessage(l, show, now) == l.key + " gauge," + Join(GaugeTexts(l.gauges, show), ",") + " " + LongText(now)
    ensures |l.dimensions| > 0 ==>
      PrintMessage(l, show, now)
      == l.key + "," + Join(DimensionTexts(l.dimensions), ",") + " gauge," + Join(GaugeTexts(l.gauges, show), ",") + " " + LongText(now)
  {
    PrintMessageLayout(l, show, now);
  }

  /** With zero gauges the gauge block is just the literal `gauge,`. */
  lemma PrintMessageWithoutGauges(l: MetricsLine, show: Double -> string, now: Long)
    requires |l.gauges| == 0
    ensures PrintMessage(l, show, now) == LineHead(l.key, l.dimensions) + " gauge," + "" + " " + LongText(now)
  {
    PrintMessageLayout(l, show, now);
  }

  /** The text after the last space of s (all of s when it has none). */
  function LastField(s: string): (f: string)
    ensures |f| <= |s| && f == s[|s| - |f|..]
    ensures ' ' !in f
  {
    if |s| == 0 || s[|s| - 1] == ' ' then "" else LastField(s[..|s| - 1]) + [s[|s| - 1]]
  }

  lemma {:induction false} LastFieldAfterSpace(p: string, t: string)
    requires ' ' !in t
    ensures LastField(p + " " + t) == t
    decreases |t|
  {
    var s := p + " " + t;
    if |t| == 0 {
      assert s[|s| - 1] == ' ';
    } else {
      assert s[..|s| - 1] == p + " " + t[..|t| - 1];
      LastFieldAfterSpace(p, t[..|t| - 1]);
      assert t == t[..|t| - 1] + [t[|t| - 1]];
    }
  }

  /** The timestamp is the last space-separated field and reads back as the
      clock value. */
  lemma TimestampIsLastField(l: MetricsLine, show: Double -> string, now: Long)
    ensures LastField(PrintMessage(l, show, now)) == LongText(now)
    ensures ParseLong(LastField(PrintMessage(l, show, now))) == Some(now as int)
  {
    PrintMessageLayout(l, show, now);
    var prefix := LineHead(l.key, l.dimensions) + " gauge," + Join(GaugeTexts(l.gauges, show), ",");
    assert PrintMessage(l, show, now) == prefix + " " + LongText(now);
    LastFieldAfterSpace(prefix, LongText(now));
    LongTextRoundTrip(now);
  }

  /** Two renderings of one line differ only in the timestamp field: the
      timestamp is the only time-dependent part. */
  lemma OnlyTimestampDependsOnTime(l: MetricsLine, show: Double -> string, a: Long, b: Long)
    ensures var ra := PrintMessage(l, show, a);
            var rb := PrintMessage(l, show, b);
            ra[..|ra| - |LongText(a)|] == rb[..|rb| - |LongText(b)|]
  {
    PrintMessageLayout(l, show, a);
    PrintMessageLayout(l, show, b);
    var prefix := LineHead(l.key, l.dimensions) + " gauge," + Join(GaugeTexts(l.gauges, show), ",") + " ";
    assert PrintMessage(l, show, a) == prefix + LongText(a);
    assert PrintMessage(l, show, b) == prefix + LongText(b);
    assert (prefix + LongText(a))[..|prefix|] == prefix;
    assert (prefix + LongText(b))[..|prefix|] == prefix;
  }
}
