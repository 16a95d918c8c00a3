/** MintMetricSender without its HTTP client: the pending-line buffer and its
    flush, the Authorization header of the request template, and the
    classification of the connection check's outcome. */
module Sender {
  import opened Wrappers
  import opened JavaString
  import opened Mint
  import opened Partition

  // ---------------------------------------------------------------------------
  // The request template
  // ---------------------------------------------------------------------------

  const AUTHORIZATION_HEADER_NAME: string := "Authorization"
  const AUTHORIZATION_HEADER_VALUE: string := "Api-token "

  datatype Header = Header(name: string, value: string)

  /** The POST a batch (or the empty connection probe) is sent with. */
  datatype Request = Request(url: string, authorization: Option<Header>, body: string)

  /** createRequest's header rule: an Authorization header only for a token
      that is present and not blank. */
  function AuthorizationHeader(token: Option<string>): (h: Option<Header>)
    ensures h.Some? <==> token.Some? && !IsBlank(token.value)
    ensures h.Some? ==> h.value.name == AUTHORIZATION_HEADER_NAME
  {
    match token
    case Some(t) => if IsBlank(t) then None else Some(Header(AUTHORIZATION_HEADER_NAME, AUTHORIZATION_HEADER_VALUE + t))
    case None => None
  }

  /** The token is recoverable from the header: it is the header value after
      the fixed "Api-token " prefix, verbatim. */
  lemma AuthorizationHeaderCarriesToken(token: string)
    requires !IsBlank(token)
    ensures AuthorizationHeader(Some(token)).Some?
    ensures var v := AuthorizationHeader(Some(token)).value.value;
            |v| == |AUTHORIZATION_HEADER_VALUE| + |token| &&
            v[..|AUTHORIZATION_HEADER_VALUE|] == AUTHORIZATION_HEADER_VALUE &&
            v[|AUTHORIZATION_HEADER_VALUE|..] == token
  {
  }

  // ---------------------------------------------------------------------------
  // The pending buffer
  // ---------------------------------------------------------------------------

  /** The sender's state: endpoint, token and the lines waiting to be sent. */
  datatype Sender = Sender(url: string, token: Option<string>, pending: seq<MetricsLine>)

  /** A sender right after setup: nothing pending. */
  function NewSender(url: string, token: Option<string>): (s: Sender)
    ensures s.url == url && s.token == token && s.pending == []
  {
    Sender(url, token, [])
  }

  /** addMetric: appends the line to the end of the buffer. */
  function AddMetric(s: Sender, line: MetricsLine): (r: Sender)
    ensures r.url == s.url && r.token == s.token
    ensures |r.pending| == |s.pending| + 1
    ensures r.pending[..|s.pending|] == s.pending && r.pending[|s.pending|] == line
  {
    s.(pending := s.pending + [line])
  }

  /** The sender after a flush and the requests it issued, in order. */
  datatype Flush = Flush(sender: Sender, requests: seq<Request>)

  /** The request carrying one batch body. */
  function BatchRequest(s: Sender, body: string): Request
  {
    Request(s.url, AuthorizationHeader(s.token), body)
  }

  /** writeAndSendMetrics(): nothing happens on an empty buffer; otherwise the
      whole buffer is taken, the buffer is left empty, the taken lines are
      split into batches and one request per batch is issued in batch
      order, each to the sender's URL with its header. Line i of the buffer
      is rendered at clock(i); `separator` is the platform line separator. */
  function WriteAndSendMetrics(s: Sender, show: Double -> string, clock: nat -> Long, separator: string): (f: Flush)
    ensures |s.pending| == 0 ==> f.sender == s && f.requests == []
    ensures f.sender.url == s.url && f.sender.token == s.token && f.sender.pending == []
    ensures var batches := SplitMessages(s.pending, show, clock, separator);
            |f.requests| == |batches| &&
            forall i :: 0 <= i < |batches| ==> f.requests[i] == BatchRequest(s, batches[i])
  {
    if |s.pending| == 0 then Flush(s, [])
    else
      var batches := SplitMessages(s.pending, show, clock, separator);
      Flush(s.(pending := []), seq(|batches|, i requires 0 <= i < |batches| => BatchRequest(s, batches[i])))
  }

  function Bodies(requests: seq<Request>): (bodies: seq<string>)
    ensures |bodies| == |requests|
    ensures forall i :: 0 <= i < |requests| ==> bodies[i] == requests[i].body
  {
    seq(|requests|, i requires 0 <= i < |requests| => requests[i].body)
  }

  /** The bodies sent by one flush, concatenated, are the rendered buffer:
      no line is lost, duplicated or reordered. */
  lemma FlushSendsEveryLine(s: Sender, show: Double -> string, clock: nat -> Long, separator: string)
    ensures Concat(Bodies(WriteAndSendMetrics(s, show, clock, separator).requests))
         == Concat(RenderLines(s.pending, show, clock, separator))
  {
    var f := WriteAndSendMetrics(s, show, clock, separator);
    assert Bodies(f.requests) == SplitMessages(s.pending, show, clock, separator);
  }

  /** A rendered line is never empty: it holds at least " gauge,". */
  lemma RenderedLinesNonEmpty(lines: seq<MetricsLine>, show: Double -> string, clock: nat -> Long, separator: string)
    ensures AllNonEmpty(RenderLines(lines, show, clock, separator))
  {
    var msgs := RenderLines(lines, show, clock, separator);
    forall i | 0 <= i < |msgs|
      ensures |msgs[i]| > 0
    {
      PrintMessageLayout(lines[i], show, clock(i));
    }
  }

  /** Request i of a flush carries exactly the lines of batch i, so every
      request respects the batch limits Batches guarantees. */
  lemma FlushRequestsAreBatches(s: Sender, show: Double -> string, clock: nat -> Long, separator: string)
    ensures var msgs := RenderLines(s.pending, show, clock, separator);
            AllNonEmpty(msgs) &&
            var f := WriteAndSendMetrics(s, show, clock, separator);
            |f.requests| == |Batches(msgs)| &&
            forall i :: 0 <= i < |f.requests| ==> f.requests[i].body == Concat(Batches(msgs)[i])
  {
    var msgs := RenderLines(s.pending, show, clock, separator);
    RenderedLinesNonEmpty(s.pending, show, clock, separator);
    SplitTextsIsConcatOfBatches(msgs);
  }

  // ---------------------------------------------------------------------------
  // A run of adds and flushes
  // ---------------------------------------------------------------------------

  /** What happens to the sender: a line is added, or the buffer is flushed. */
  datatype Event = Add(line: MetricsLine) | Send

  /** The lines added by a run, in order. */
  function AddedLines(events: seq<Event>): (lines: seq<MetricsLine>)
    ensures |lines| <= |events|
  {
    if |events| == 0 then []
    else (if events[0].Add? then [events[0].line] else []) + AddedLines(events[1..])
  }

  function FlattenLines(xs: seq<seq<MetricsLine>>): seq<MetricsLine>
  {
    if |xs| == 0 then [] else xs[0] + FlattenLines(xs[1..])
  }

  /** The buffer contents each non-empty flush of a run took, in order, and
      the sender at the end of the run. */
  datatype Trace = Trace(taken: seq<seq<MetricsLine>>, last: Sender)

  /** The clocks of the flushes after the first: flush k of the rest of a run
      reads what flush k + 1 of the whole run reads. */
  function LaterFlushes(clock: nat -> nat -> Long): nat -> nat -> Long
  {
    (k: nat) => clock(k + 1)
  }

  /** A run of events; `clock(k)` is the clock the k-th flush of the run
      reads, so every flush has its own readings. */
  function Run(s: Sender, events: seq<Event>, show: Double -> string, clock: nat -> nat -> Long, separator: string): Trace
    decreases |events|
  {
    if |events| == 0 then Trace([], s)
    else match events[0]
      case Add(line) => Run(AddMetric(s, line), events[1..], show, clock, separator)
      case Send =>
        var rest := Run(WriteAndSendMetrics(s, show, clock(0), separator).sender, events[1..], show, LaterFlushes(clock), separator);
        if |s.pending| == 0 then rest else Trace([s.pending] + rest.taken, rest.last)
  }

  /** Over any run, every line is either taken by exactly one flush, in the
      order added, or still pending at the end: the lines taken, followed by
      those still pending, are the initial buffer followed by the lines
      added. Every flush takes at least one line. */
  lemma {:induction false} RunKeepsEveryLine(s: Sender, events: seq<Event>, show: Double -> string, clock: nat -> nat -> Long, separator: string)
    ensures var t := Run(s, events, show, clock, separator);
            FlattenLines(t.taken) + t.last.pending == s.pending + AddedLines(events)
    ensures var t := Run(s, events, show, clock, separator);
            forall i :: 0 <= i < |t.taken| ==> |t.taken[i]| > 0
    decreases |events|
  {
    if |events| > 0 {
      match events[0]
      case Add(line) =>
        RunKeepsEveryLine(AddMetric(s, line), events[1..], show, clock, separator);
        assert s.pending + AddedLines(events) == (s.pending + [line]) + AddedLines(events[1..]);
      case Send =>
        var f := WriteAndSendMetrics(s, show, clock(0), separator);
        RunKeepsEveryLine(f.sender, events[1..], show, LaterFlushes(clock), separator);
        var rest := Run(f.sender, events[1..], show, LaterFlushes(clock), separator);
        assert AddedLines(events) == AddedLines(events[1..]);
        if |s.pending| > 0 {
          var taken := [s.pending] + rest.taken;
          assert taken[1..] == rest.taken;
          assert FlattenLines(taken) == s.pending + FlattenLines(rest.taken);
        }
    }
  }

  // ---------------------------------------------------------------------------
  // The connection check
  // ---------------------------------------------------------------------------

  /** How waiting for the empty probe request ended. */
  datatype ProbeOutcome = Responded(status: int) | TimedOut | ExecutionFailed | Interrupted

  /** The MintConnectionException checkConnection throws. */
  datatype ConnectionError = InvalidToken | InvalidUrl | OtherError | GeneralError

  /** The text every classified failure message starts with. */
  const CHECK_ERROR_PREFIX := "Error executing connection check for MINT server: "

  /** The message of each MintConnectionException checkConnection throws. */
  function ErrorMessage(e: ConnectionError): string
  {
    match e
    case InvalidToken => CHECK_ERROR_PREFIX + "Invalid token"
    case InvalidUrl => CHECK_ERROR_PREFIX + "Invalid url"
    case OtherError => CHECK_ERROR_PREFIX + "Other error"
    case GeneralError => "General Error executing connection check for MINT server"
  }

  /** The probe checkConnection sends: the request template with an empty body. */
  function ProbeRequest(s: Sender): (r: Request)
    ensures r.body == "" && r.url == s.url && r.authorization == AuthorizationHeader(s.token)
  {
    Request(s.url, AuthorizationHeader(s.token), "")
  }

  /** checkConnection's classification. `isSuccess` is JMeter's
      MetricUtils.isSuccessCode. */
  function CheckConnection(outcome: ProbeOutcome, isSuccess: int -> bool): Outcome<ConnectionError>
  {
    match outcome
    case Responded(code) =>
      if isSuccess(code) then Pass
      else if code == 400 then Pass
      else if code == 401 then Fail(InvalidToken)
      else if code == 404 || code == 405 then Fail(InvalidUrl)
      else Fail(OtherError)
    case _ => Fail(GeneralError)
  }

  /** The check passes exactly on a response whose status is a success code
      or 400; a failure to obtain a response is always the general error,
      and a non-success response is classified by its status alone. */
  lemma CheckConnectionClassification(outcome: ProbeOutcome, isSuccess: int -> bool)
    ensures CheckConnection(outcome, isSuccess) == Pass
        <==> outcome.Responded? && (isSuccess(outcome.status) || outcome.status == 400)
    ensures !outcome.Responded? ==> CheckConnection(outcome, isSuccess) == Fail(GeneralError)
    ensures outcome.Responded? && !isSuccess(outcome.status) ==>
      (CheckConnection(outcome, isSuccess) == Fail(InvalidToken) <==> outcome.status == 401) &&
      (CheckConnection(outcome, isSuccess) == Fail(InvalidUrl) <==> outcome.status in {404, 405}) &&
      (CheckConnection(outcome, isSuccess) == Fail(OtherError) <==> outcome.status !in {400, 401, 404, 405})
  {
  }

  /** JMeter's success codes: 2xx and 3xx (sections 15.3 and 15.4 of RFC 9110). */
  predicate IsSuccessCode(code: int)
  {
    200 <= code <= 399
  }

  /** With JMeter's success codes, a response passes exactly when its status
      lies in 200..400. */
  lemma CheckConnectionWithJMeterCodes(code: int)
    ensures CheckConnection(Responded(code), IsSuccessCode) == Pass <==> 200 <= code <= 400
    ensures code == 401 ==> CheckConnection(Responded(code), IsSuccessCode) == Fail(InvalidToken)
    ensures (code == 404 || code == 405) ==> CheckConnection(Responded(code), IsSuccessCode) == Fail(InvalidUrl)
  {
  }

  /** The class of a failed check: no response, 401, 404 or 405, or any
      other status. */
  function FailureClass(outcome: ProbeOutcome): (c: nat)
    ensures c < 4
    ensures c == 0 <==> !outcome.Responded?
  {
    if !outcome.Responded? then 0
    else if outcome.status == 401 then 1
    else if outcome.status == 404 || outcome.status == 405 then 2
    else 3
  }

  /** Different errors never share a message. */
  lemma ErrorMessageInjective(a: ConnectionError, b: ConnectionError)
    ensures ErrorMessage(a) == ErrorMessage(b) ==> a == b
  {
    if a != b {
      var ma, mb := ErrorMessage(a), ErrorMessage(b);
      if a != GeneralError && b != GeneralError {
        // Equal messages would have equal suffixes after the shared prefix.
        assert ma[|CHECK_ERROR_PREFIX|..] != mb[|CHECK_ERROR_PREFIX|..];
      } else {
        assert |ma| != |mb|;
      }
    }
  }

  /** Two failed checks log the same message exactly when their outcomes fall
      in the same class, so the logged message tells whether the probe got no
      answer, was refused for its token, hit a wrong url, or met another status. */
  lemma FailureMessageTellsClass(a: ProbeOutcome, b: ProbeOutcome, isSuccess: int -> bool)
    requires CheckConnection(a, isSuccess).Fail? && CheckConnection(b, isSuccess).Fail?
    ensures ErrorMessage(CheckConnection(a, isSuccess).error) == ErrorMessage(CheckConnection(b, isSuccess).error)
        <==> FailureClass(a) == FailureClass(b)
  {
    var ea, eb := CheckConnection(a, isSuccess).error, CheckConnection(b, isSuccess).error;
    assert FailureClass(a) == FailureClass(b) <==> ea == eb;
    ErrorMessageInjective(ea, eb);
  }
}
