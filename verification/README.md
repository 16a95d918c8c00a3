# The MINT metric core of the JMeter Dynatrace backend listener, in Dafny

This project models the part of the JMeter Dynatrace plugin that turns
JMeter's aggregated figures into MINT (Dynatrace metric ingest) data lines and
cuts them into requests:

- `SchemalessMetricSanitizer`: metric identifiers, dimension identifiers and
  dimension values (module `Sanitizer`);
- `MintDimension`, `MintGauge` and `MintMetricsLine`: the records and the
  data-line renderer `printMessage()` (module `Mint`);
- `MintMetricSender`:
  - the pending-line buffer, `addMetric` and `writeAndSendMetrics()` (module `Sender`);
  - the `splitMessages` partitioner (module `Partition`);
  - `getLineCount` with `java.util.Scanner` line semantics (module `LineCount`);
  - the Authorization-header rule and the status classification of
    `checkConnection` (module `Sender`);
- `MintBackendListener`:
  - parsing of the `testDimensions` / `transactionDimensions` strings and the
    dropped placeholder (module `DimensionConfig`);
  - the dimensions attached to every line, the nine transaction lines per
    selected label and the five test lines per send, and the `enabled` gate in
    `setupTest`, `run()` and `teardownTest()` (module `Listener`).

Two support modules hold the Java library behaviour the core relies on:

- `Wrappers` holds `Option`, `Result` and `Outcome`.
- `JavaString` holds:
  - `String.length()` in UTF-16 units;
  - `String.split` with Java's trailing-empty rule;
  - `trim().isEmpty()` and `StringUtils.isBlank`;
  - ASCII lower-casing and `Boolean.parseBoolean`;
  - `Long.toString` with its parser.

Everything is pure: states are immutable datatypes and every step is a
function from the old state to the new one. Behaviour outside the core is
passed in as parameters:

| parameter | stands for |
|---|---|
| `show: Double -> string` | `String.valueOf(double)`; a double is its 64-bit pattern |
| `clock: nat -> Long` | `System.currentTimeMillis()`; line `i` of one flush reads `clock(i)`. Over a run of several flushes (`Sender.Run`) the clock is `nat -> nat -> Long`: flush `k` reads `clock(k)` |
| `separator` | `System.getProperty("line.separator")` |
| `isSuccess` | JMeter's `MetricUtils.isSuccessCode`; `Sender.IsSuccessCode` is the 2xx/3xx instance |
| `selected` | `Pattern.find` of the sampler regex on a label |
| `order`, `testOrder`, `transactionOrder` | the unspecified `HashMap` iteration order |
| `senderReady` | whether `MintMetricSender.setup` returns normally |
| `probe` | how waiting for the connection-check response ends |

Three details of `splitMessages` that the constant names alone do not convey:

- `MAX_LINES_PER_MESSAGE` is 1000, but a batch holds at most 999 lines,
  because the test is `metricLines + 1 < 1000`. So 1001 small lines make
  batches of 999 and 2 (`Partition.OneThousandAndOneSmallLines`).
- The size limit is measured in `String.length()` units (UTF-16 code units),
  not in bytes.
- A first line already at or over the size limit makes `splitMessages` emit an
  empty `""` batch before it (`Partition.OversizedFirstMessage`). This is the
  only empty batch possible (`Partition.EmptyBatchOnlyFirst`).

## Model

| member | source | states |
|---|---|---|
| Sanitizer.ReplaceInvalid | src/main/java/com/dynatrace/mint/SchemalessMetricSanitizer.java:29 | same length; each character outside `[A-Za-z0-9._-]` becomes `_`, the others stay |
| Sanitizer.StripBadStart | src/main/java/com/dynatrace/mint/SchemalessMetricSanitizer.java:31 | exactly the leading run of digits, `_` and `-` is removed: the result is a suffix of the input, every character cut off is a digit, `_` or `-`, and the result does not start with one |
| Sanitizer.CollapseSectionsWellFormed | src/main/java/com/dynatrace/mint/SchemalessMetricSanitizer.java:33 | after the section pass no dot is followed by a digit, `_` or `-`, and the alphabet is kept |
| Sanitizer.SanitizeMetricIdentifier | src/main/java/com/dynatrace/mint/SchemalessMetricSanitizer.java:28-42 | the result is a clean identifier: alphabet only, no bad start, every section after a dot starts well; it is never longer than the input; empty stays empty |
| Sanitizer.SanitizeDimensionIdentifier | src/main/java/com/dynatrace/mint/SchemalessMetricSanitizer.java:44-48 | a clean identifier without upper-case letters, character by character the ASCII lower-casing of the metric identifier |
| Sanitizer.LowerKeepsClean | src/main/java/com/dynatrace/mint/SchemalessMetricSanitizer.java:47 | lower-casing a clean identifier keeps it clean |
| Sanitizer.SanitizeDimensionValue | src/main/java/com/dynatrace/mint/SchemalessMetricSanitizer.java:53-64 | the result is the value or the value in quotes; it is changed exactly when the value is not already quoted and holds a space, `,` or `=`; the result is quoted or needs no quotes |
| Sanitizer.CleanIdentifierIsFixed | src/main/java/com/dynatrace/mint/SchemalessMetricSanitizer.java:28-36 | a clean identifier passes through unchanged |
| Sanitizer.SanitizeMetricIdentifierFixedIff | src/main/java/com/dynatrace/mint/SchemalessMetricSanitizer.java:28-36 | the fixed points of the sanitiser are exactly the clean identifiers |
| Sanitizer.SanitizeMetricIdentifierIdempotent | src/main/java/com/dynatrace/mint/SchemalessMetricSanitizer.java:38-42 | sanitising twice equals sanitising once |
| Sanitizer.SanitizeDimensionIdentifierIdempotent | src/main/java/com/dynatrace/mint/SchemalessMetricSanitizer.java:44-48 | the dimension-identifier sanitiser is idempotent |
| Sanitizer.SanitizeDimensionValueIdempotent | src/main/java/com/dynatrace/mint/SchemalessMetricSanitizer.java:53-64 | quoting a dimension value twice equals quoting it once |
| Sanitizer.StripThenCollapseIsSectionwise | src/main/java/com/dynatrace/mint/SchemalessMetricSanitizer.java:30-33 | the two regex passes equal cutting at every dot and stripping the bad start of every section |
| Sanitizer.SanitizeMetricIdentifierBySections | src/main/java/com/dynatrace/mint/SchemalessMetricSanitizer.java:18-36 | the sanitiser equals the section-wise reading its doc comment describes |
| Mint.NewDimension | src/main/java/com/dynatrace/mint/MintDimension.java:25-36 | the getters return the constructor arguments exactly, with no sanitising or quoting |
| Mint.NewGauge | src/main/java/com/dynatrace/mint/MintGauge.java:23-25 | the one-argument constructor leaves the field absent and keeps the number |
| Mint.NewTaggedGauge | src/main/java/com/dynatrace/mint/MintGauge.java:27-30 | the two-argument constructor stores the field, even an empty one, and the number |
| Mint.GaugeTextTagging | src/main/java/com/dynatrace/mint/MintGauge.java:40-49 | an untagged gauge renders as the number text; a tagged one as field, `=`, then the untagged text |
| Mint.EmptyFieldIsStillTagged | src/main/java/com/dynatrace/mint/MintGauge.java:43-46 | an empty field still renders a leading `=`, so it differs from an untagged gauge |
| Mint.NewLine | src/main/java/com/dynatrace/mint/MintMetricsLine.java:27-29 | a new line has the key and no dimensions or gauges |
| Mint.AddDimension | src/main/java/com/dynatrace/mint/MintMetricsLine.java:31-33 | the dimension is appended at the end; earlier dimensions, the gauges and the key are unchanged |
| Mint.AddGauge | src/main/java/com/dynatrace/mint/MintMetricsLine.java:35-37 | the gauge is appended at the end; earlier gauges, the dimensions and the key are unchanged |
| Mint.DropLastOfTerminated | src/main/java/com/dynatrace/mint/MintMetricsLine.java:55-60 | a comma after every element, minus the last character, is the comma-joined list |
| Mint.PrintMessageLayout | src/main/java/com/dynatrace/mint/MintMetricsLine.java:39-68 | the line reads `key[,k=v,...] gauge,g1[,g2...] ts`, dimension and gauge texts verbatim and in insertion order |
| Mint.PrintMessageDimensionCases | src/main/java/com/dynatrace/mint/MintMetricsLine.java:62-67 | without dimensions the comma before the dimension block is left out; with dimensions it is `key,` then the joined `k=v` list |
| Mint.PrintMessageWithoutGauges | src/main/java/com/dynatrace/mint/MintMetricsLine.java:50-67 | with no gauges the gauge block is the bare `gauge,` |
| Mint.TimestampIsLastField | src/main/java/com/dynatrace/mint/MintMetricsLine.java:62-67 | the timestamp is the last space-separated field and parses back to the clock reading |
| Mint.OnlyTimestampDependsOnTime | src/main/java/com/dynatrace/mint/MintMetricsLine.java:62-67 | two renderings of one line agree on everything before the timestamp |
| Partition.RenderLines | src/main/java/com/dynatrace/jmeter/plugins/MintMetricSender.java:224 | one text per line, in order: the line rendered at its clock reading, then the separator |
| Partition.SplitFromKeepsText | src/main/java/com/dynatrace/jmeter/plugins/MintMetricSender.java:222-242 | the loop's batches, concatenated, are the batch under construction followed by the remaining texts |
| Partition.SplitTexts | src/main/java/com/dynatrace/jmeter/plugins/MintMetricSender.java:216-243 | no texts give no batch; the batches, concatenated in order, equal the texts concatenated in order |
| Partition.SplitMessages | src/main/java/com/dynatrace/jmeter/plugins/MintMetricSender.java:216-243 | `splitMessages([])` is empty; the batches concatenate to every rendered line plus separator, in input order |
| Partition.GroupFrom | src/main/java/com/dynatrace/jmeter/plugins/MintMetricSender.java:222-238 | the groups flatten to the input; each has under 1000 lines; each group of two or more lines is under the size limit; only the first group may be empty; no message could have joined the group before it |
| Partition.Batches | src/main/java/com/dynatrace/jmeter/plugins/MintMetricSender.java:216-243 | the batch grouping of one flush keeps every message in order, within the line and size limits |
| Partition.SplitFromIsConcatOfGroups | src/main/java/com/dynatrace/jmeter/plugins/MintMetricSender.java:222-242 | the text loop and the grouping agree: each batch text is its group concatenated |
| Partition.SplitTextsIsConcatOfBatches | src/main/java/com/dynatrace/jmeter/plugins/MintMetricSender.java:216-243 | the batches of `splitMessages` are the groups of `Batches`, concatenated |
| Partition.SplitTextsCount | src/main/java/com/dynatrace/jmeter/plugins/MintMetricSender.java:216-243 | there is one batch text per group |
| Partition.OversizedFirstMessage | src/main/java/com/dynatrace/jmeter/plugins/MintMetricSender.java:225-233 | a first line at or over the size limit gives an empty first batch and opens the second |
| Partition.EmptyBatchOnlyFirst | src/main/java/com/dynatrace/jmeter/plugins/MintMetricSender.java:225-236 | the first batch is empty exactly when the first line alone reaches the size limit |
| Partition.CountWhenSmall | src/main/java/com/dynatrace/jmeter/plugins/MintMetricSender.java:225-235 | without size pressure the loop closes a batch every 999 lines |
| Partition.BatchCountWhenSmall | src/main/java/com/dynatrace/jmeter/plugins/MintMetricSender.java:225-242 | n small lines give 1 + (n - 1) / 999 batches, the first holding min(n, 999) lines |
| Partition.OneThousandAndOneSmallLines | src/test/java/com/dynatrace/jmeter/plugins/MintMetricSenderTest.java:52-61 | 1001 small lines give exactly two batches, of 999 and 2 lines |
| Partition.SingleBatchIff | src/main/java/com/dynatrace/jmeter/plugins/MintMetricSender.java:225-242 | up to 999 lines form one batch exactly when their total length is under the size limit |
| LineCount.GetLineCount | src/main/java/com/dynatrace/jmeter/plugins/MintMetricSender.java:246-256 | a null or empty message has no lines |
| LineCount.LineEndRemovesOneLine | src/main/java/com/dynatrace/jmeter/plugins/MintMetricSender.java:250-252 | each `nextLine()` consumes exactly one line of the reference count |
| LineCount.ScannerCountsLines | src/main/java/com/dynatrace/jmeter/plugins/MintMetricSender.java:249-253 | the Scanner loop counts the terminators, `\r\n` once, plus one for text after the last terminator |
| LineCount.LineCountOfBatch | src/main/java/com/dynatrace/jmeter/plugins/MintMetricSender.java:185 | a batch body of whole lines has as many lines as it has messages |
| LineCount.LineCountWithoutSeparator | src/test/java/com/dynatrace/jmeter/plugins/MintMetricSenderTest.java:25-27 | null and `""` count 0 lines; `line1` counts 1 |
| LineCount.LineCountNewline | src/test/java/com/dynatrace/jmeter/plugins/MintMetricSenderTest.java:29 | `line1\nline2` counts 2 lines |
| LineCount.LineCountCarriageReturn | src/test/java/com/dynatrace/jmeter/plugins/MintMetricSenderTest.java:30 | `line1\rline2` counts 2 lines |
| LineCount.LineCountCrLf | src/test/java/com/dynatrace/jmeter/plugins/MintMetricSenderTest.java:31 | `line1\r\nline2` counts 2 lines |
| Sender.AuthorizationHeader | src/main/java/com/dynatrace/jmeter/plugins/MintMetricSender.java:98-100 | a header is present exactly for a present, non-blank token, and it is named `Authorization` |
| Sender.AuthorizationHeaderCarriesToken | src/main/java/com/dynatrace/jmeter/plugins/MintMetricSender.java:55-56 | the header value is `Api-token ` followed by the token, so the token can be read back |
| Sender.NewSender | src/main/java/com/dynatrace/jmeter/plugins/MintMetricSender.java:70-78 | a set-up sender keeps url and token and has nothing pending |
| Sender.AddMetric | src/main/java/com/dynatrace/jmeter/plugins/MintMetricSender.java:106-109 | the line is appended to the end of the buffer; nothing else changes |
| Sender.WriteAndSendMetrics | src/main/java/com/dynatrace/jmeter/plugins/MintMetricSender.java:111-125 | an empty buffer sends nothing; otherwise the buffer is emptied and there is one request per batch, in batch order |
| Sender.FlushSendsEveryLine | src/main/java/com/dynatrace/jmeter/plugins/MintMetricSender.java:116-125 | the request bodies, concatenated, are the whole buffer rendered in order |
| Sender.FlushRequestsAreBatches | src/main/java/com/dynatrace/jmeter/plugins/MintMetricSender.java:119-125 | request i carries exactly the lines of batch i |
| Sender.RunKeepsEveryLine | src/main/java/com/dynatrace/jmeter/plugins/MintMetricSender.java:106-125 | over any sequence of adds and sends, every line added is taken by exactly one send, in order, or is still pending; no send takes an empty buffer |
| Sender.ProbeRequest | src/main/java/com/dynatrace/jmeter/plugins/MintMetricSender.java:130-134 | the probe is the request template with an empty body |
| Sender.CheckConnectionClassification | src/main/java/com/dynatrace/jmeter/plugins/MintMetricSender.java:150-174 | success codes and 400 pass; 401 is an invalid token; 404 and 405 an invalid url; other codes another error; timeout, failure or interruption a general error |
| Sender.CheckConnectionWithJMeterCodes | src/main/java/com/dynatrace/jmeter/plugins/MintMetricSender.java:152-169 | with 2xx/3xx as success codes the check passes exactly for statuses 200 to 400 |
| Sender.FailureMessageTellsClass | src/main/java/com/dynatrace/jmeter/plugins/MintMetricSender.java:150-174 | two failed checks log the same message exactly when both got no response, both got 401, both got 404 or 405, or both got some other non-success status |
| DimensionConfig.EntryOf | src/main/java/com/dynatrace/jmeter/plugins/MintBackendListener.java:88-89 | a piece becomes an entry only with a non-empty value and parts free of `=` and space |
| DimensionConfig.EntryOfComplete | src/main/java/com/dynatrace/jmeter/plugins/MintBackendListener.java:88-89 | key, one delimiter, a non-empty value and only trailing delimiters give that entry, so `k=v=` gives `k` to `v` |
| DimensionConfig.EntryOfSound | src/main/java/com/dynatrace/jmeter/plugins/MintBackendListener.java:88-89 | every entry comes from a piece of that form |
| DimensionConfig.KeptPieces | src/main/java/com/dynatrace/jmeter/plugins/MintBackendListener.java:94-96 | the transaction string keeps every piece other than the placeholder as often as it occurs and drops every placeholder; the test string keeps every piece |
| DimensionConfig.KeptPiecesAppend | src/main/java/com/dynatrace/jmeter/plugins/MintBackendListener.java:94-96 | the filter works piece by piece, so it keeps the order of the pieces it keeps |
| DimensionConfig.EntriesOf | src/main/java/com/dynatrace/jmeter/plugins/MintBackendListener.java:87-89 | an entry is parsed exactly when some piece splits into that key and value |
| DimensionConfig.EntriesOfAppend | src/main/java/com/dynatrace/jmeter/plugins/MintBackendListener.java:87-89 | entries are parsed piece by piece, in the order of the pieces |
| DimensionConfig.CollectToMapSucceedsIff | src/main/java/com/dynatrace/jmeter/plugins/MintBackendListener.java:90-93 | collecting succeeds exactly when no key repeats |
| DimensionConfig.CollectToMapContents | src/main/java/com/dynatrace/jmeter/plugins/MintBackendListener.java:90-93 | a collected map holds every entry and nothing else |
| DimensionConfig.CollectToMapFailure | src/main/java/com/dynatrace/jmeter/plugins/MintBackendListener.java:90-93 | a failed collection names a key met a second time |
| DimensionConfig.ParseDimensionsSpec | src/main/java/com/dynatrace/jmeter/plugins/MintBackendListener.java:85-102 | parsing fails exactly on a repeated key, naming it; otherwise the map holds exactly the entries, all with non-empty values |
| DimensionConfig.DefaultIsPair | src/main/java/com/dynatrace/jmeter/plugins/MintBackendListener.java:65 | the placeholder splits into `dt.entity.service` and `SERVICE-XXXXXXXXXXXXX` |
| DimensionConfig.DefaultTransactionDimensionDropped | src/main/java/com/dynatrace/jmeter/plugins/MintBackendListener.java:94-102 | the placeholder as the transaction string gives the empty map |
| DimensionConfig.DefaultIsAnOrdinaryTestDimension | src/main/java/com/dynatrace/jmeter/plugins/MintBackendListener.java:87-93 | the same text as the test string gives its one entry |
| Listener.AttachableKeys | src/main/java/com/dynatrace/jmeter/plugins/MintBackendListener.java:264-265 | the kept keys are exactly the listed keys whose key and value are not empty after trim() |
| Listener.ConfiguredDimensions | src/main/java/com/dynatrace/jmeter/plugins/MintBackendListener.java:272-278 | every attached dimension is well-formed: a clean lower-case key and a value quoted or needing no quotes |
| Listener.ConfiguredDimensionsByKeys | src/main/java/com/dynatrace/jmeter/plugins/MintBackendListener.java:264-269 | dimension i is the sanitised entry of the i-th kept key, in iteration order |
| Listener.AttachableEntryIsAttached | src/main/java/com/dynatrace/jmeter/plugins/MintBackendListener.java:273-277 | over the whole map, an entry is attached, sanitised, exactly when its key and value are not empty after trim() |
| Listener.TransactionDimensions | src/main/java/com/dynatrace/jmeter/plugins/MintBackendListener.java:262-270 | the first dimension is `transaction` with the label passed through the value sanitiser, followed by the configured dimensions |
| Listener.MetricLine | src/main/java/com/dynatrace/jmeter/plugins/MintBackendListener.java:255-260 | a line holds the key, the given dimensions and one untagged gauge |
| Listener.LinesFor | src/main/java/com/dynatrace/jmeter/plugins/MintBackendListener.java:243-253 | line i has key i, the shared dimensions and the i-th value |
| Listener.TestLinesShape | src/main/java/com/dynatrace/jmeter/plugins/MintBackendListener.java:226-241 | the five test lines are min, max and mean active threads, started and finished threads, in that order; each has the configured test dimensions alone (no `transaction` dimension is added) and one untagged gauge holding that figure |
| Listener.ReportedEntries | src/main/java/com/dynatrace/jmeter/plugins/MintBackendListener.java:210-221 | an entry is reported exactly when its label is not `all` and the sampler pattern finds a match in it |
| Listener.ReportedEntriesAppend | src/main/java/com/dynatrace/jmeter/plugins/MintBackendListener.java:203-222 | the filter works entry by entry, so reported entries keep the iteration order |
| Listener.TransactionLinesShape | src/main/java/com/dynatrace/jmeter/plugins/MintBackendListener.java:243-260 | a selected label yields nine lines with the fixed keys in order, the label's dimensions and one untagged gauge each, line k holding the k-th figure |
| Listener.TransactionLineFigures | src/main/java/com/dynatrace/jmeter/plugins/MintBackendListener.java:244-252 | the nine lines report, in order, the total, successes, failures, hits, min time, max time, mean time, sent bytes and received bytes |
| Listener.SamplerLinesSpec | src/main/java/com/dynatrace/jmeter/plugins/MintBackendListener.java:201-224 | the sampler loop queues nine lines per reported entry, in iteration order and key order; line n has key n mod 9, the entry's label dimension and the entry's matching figure |
| Listener.FlushLines | src/main/java/com/dynatrace/jmeter/plugins/MintBackendListener.java:200-231 | a send queues first the nine lines of every reported entry, with the transaction dimensions, and then the five test lines, with the test dimensions |
| Listener.AddAll | src/main/java/com/dynatrace/jmeter/plugins/MintBackendListener.java:240 | queuing lines one by one appends them to the buffer in order |
| Listener.SetupTestSpec | src/main/java/com/dynatrace/jmeter/plugins/MintBackendListener.java:85-122 | setup fails exactly on a repeated key; otherwise the listener is enabled exactly when the parameter reads `true` (any case) and setup and the connection check both succeed, and nothing is pending; the maps are the parsed ones, so the configuration is valid whenever the two iteration orders enumerate them |
| Listener.DefaultTransactionDimensionsAreEmpty | src/main/java/com/dynatrace/jmeter/plugins/MintBackendListener.java:94-102 | with the default transaction string the transaction dimensions are empty |
| Listener.EnabledGate | src/main/java/com/dynatrace/jmeter/plugins/MintBackendListener.java:186-198 | disabled, `run()` and `teardownTest()` send nothing and change nothing; enabled, they always send and leave nothing pending |
| Listener.SendMetricsSendsQueuedLines | src/main/java/com/dynatrace/jmeter/plugins/MintBackendListener.java:200-233 | one send delivers the pending lines, then the transaction lines and the test lines, all rendered in order |

## Left out

- The HTTP client is not modelled. This covers `setup`'s client construction,
  the asynchronous `execute` and its callbacks, `getBody` and `destroy`. A send
  is the `Request` value it would post. Whether setup succeeds, and how the
  probe ends, are parameters.
- URL parsing (`new URL`, `toURI`) is not modelled. The URL is kept as text.
- Concurrency is not modelled: `synchronized`, `CopyOnWriteArrayList` and the
  scheduler thread. The buffer is sequential.
- The shared request object whose entity each send overwrites is not modelled.
  Each send is its own request value.
- Null arguments are not modelled, so `requireNonNull` has no counterpart.
  The one null the core handles on purpose is modelled: `getLineCount(null)`,
  as `None`.
- Metadata lines are not modelled: `printMessage(true)`, the four-argument
  `MintMetricsLine` constructor and `setupMetrics`. The `MintMetricsLine`
  source shown has only the data-line renderer, which stands for
  `printMessage(false)`.
- `MintMetricsLine.toString()` has no separate member: it returns
  `printMessage()`, which is `Mint.PrintMessage`.
- `MintDimension.toString()` is left out. It is an Apache `ToStringBuilder`
  debug text used only in logging.
- `String.valueOf(double)` is not modelled. It is the parameter `show`, so
  floating-point formatting is not modelled.
- The clock, the line separator, `MetricUtils.isSuccessCode`, the sampler
  regex and the map iteration order are parameters, as listed above.
- `Pattern.compile` rejecting a malformed `samplersRegex` is not modelled.
- `toLowerCase()` is modelled as ASCII lower-casing. Locale-specific mappings,
  such as the Turkish dotted capital I, are not modelled.
- Characters are Unicode scalar values, so unpaired surrogates cannot be
  expressed. `String.length()` counts two units for a supplementary character.
- Partition.SplitFrom: the `int` sum `metricSize + message.length()` is
  unbounded here. Java wraps the sum once it passes 2^31 - 1, and the append
  that follows then throws OutOfMemoryError, since `metricSize` is the
  builder's length. The model, whose sum is unbounded, closes the batch
  instead.
- Partition.SplitFrom: `metricsIterator.remove()` empties the list that
  `splitMessages` is given. The model does not show this. Nothing in the core
  can observe it, because `writeAndSendMetrics` passes a fresh copy of the
  buffer.
- JMeter's aggregation is not modelled: `SamplerMetric`, `UserMetric`,
  `handleSampleResults` and `resetForTimeInterval`. A send takes the figures
  as given (`TransactionFigures`, `ThreadFigures`). The `int` thread counts
  are taken as doubles, the way the `MintGauge(double)` constructor widens
  them.
- Logging is not modelled, nor the log text of `getLineCount`'s result. The
  count itself is modelled (`LineCount.LineCountOfBatch`).
- `getDefaultParameters` is not modelled: it only publishes the defaults.
  The one default the logic depends on is the transaction placeholder,
  `DimensionConfig.DEFAULT_TRANSACTION_DIMENSION`.
