/**
 The spans of an exec-history trace and the messages of the Debug Adapter Protocol they are
 shown as (cmd/exec-history-dap/main.go, cmd/exec-history-dap/serve.go). Message bodies are
 reduced to the fields that vary; the JSON they are written in is left to the framing.
 */
module DapProtocol {
  import opened Json
  import opened Sequences

  type Fields = map<string, Value>

  datatype Span = Span(
    schemaVersion: string, envelopeID: string, sdk: string, lang: string, spanKind: string,
    startedAt: string, durationMs: real, outcome: string, attempt: int, spanID: string,
    workerID: string, parentSpanID: string, attrs: Fields)

  /** The span as the map whose entries a client sees as variables. */
  function SpanAsMap(span: Span): Fields {
    var m := map[
      "schema_version" := Str(span.schemaVersion),
      "envelope_id" := Str(span.envelopeID),
      "sdk" := Str(span.sdk),
      "lang" := Str(span.lang),
      "span_kind" := Str(span.spanKind),
      "started_at" := Str(span.startedAt),
      "duration_ms" := Num(span.durationMs),
      "outcome" := Str(span.outcome),
      "attempt" := Num(span.attempt as real),
      "span_id" := Str(span.spanID)
    ];
    var worked := if span.workerID != "" then m["worker_id" := Str(span.workerID)] else m;
    var nested := if span.parentSpanID != "" then worked["parent_span_id" := Str(span.parentSpanID)] else worked;
    if span.attrs != map[] then nested["attrs" := Obj(span.attrs)] else nested
  }

  function TextAt(m: Fields, key: string): string {
    if Lookup(m, key).Str? then Lookup(m, key).s else ""
  }

  function NumberAt(m: Fields, key: string): real {
    if Lookup(m, key).Num? then Lookup(m, key).n else 0.0
  }

  /** Reading a span back from its variables. */
  function SpanFromMap(m: Fields): Span {
    Span(TextAt(m, "schema_version"), TextAt(m, "envelope_id"), TextAt(m, "sdk"), TextAt(m, "lang"),
      TextAt(m, "span_kind"), TextAt(m, "started_at"), NumberAt(m, "duration_ms"), TextAt(m, "outcome"),
      NumberAt(m, "attempt").Floor, TextAt(m, "span_id"), TextAt(m, "worker_id"), TextAt(m, "parent_span_id"),
      if Lookup(m, "attrs").Obj? then Lookup(m, "attrs").fields else map[])
  }

  lemma SpanMapOrigin(span: Span)
    ensures var m := SpanAsMap(span);
            TextAt(m, "schema_version") == span.schemaVersion && TextAt(m, "envelope_id") == span.envelopeID &&
            TextAt(m, "sdk") == span.sdk && TextAt(m, "lang") == span.lang
  {
  }

  lemma SpanMapCourse(span: Span)
    ensures var m := SpanAsMap(span);
            TextAt(m, "span_kind") == span.spanKind && TextAt(m, "started_at") == span.startedAt &&
            NumberAt(m, "duration_ms") == span.durationMs && TextAt(m, "outcome") == span.outcome
  {
  }

  lemma SpanMapPlace(span: Span)
    ensures var m := SpanAsMap(span);
            NumberAt(m, "attempt").Floor == span.attempt && TextAt(m, "span_id") == span.spanID &&
            TextAt(m, "worker_id") == span.workerID && TextAt(m, "parent_span_id") == span.parentSpanID
  {
  }

  lemma SpanMapAttrs(span: Span)
    ensures var m := SpanAsMap(span);
            (if Lookup(m, "attrs").Obj? then Lookup(m, "attrs").fields else map[]) == span.attrs
  {
  }

  /** The variables of a span lose nothing of it. */
  lemma SpanMapLosesNothing(span: Span)
    ensures SpanFromMap(SpanAsMap(span)) == span
  {
    SpanMapOrigin(span);
    SpanMapCourse(span);
    SpanMapPlace(span);
    SpanMapAttrs(span);
  }

  datatype StopReason = Exception | Step

  const FAILED_OUTCOMES := ["retryable", "discarded", "cancelled"]

  /** spanStopReason. */
  function ReasonFor(outcome: string): StopReason {
    if outcome in FAILED_OUTCOMES then Exception else Step
  }

  /** What a stopped event says about a span. */
  datatype Stop = Stop(reason: StopReason, description: string, threadID: int)

  function StopAt(span: Span, threadID: int): Stop {
    Stop(ReasonFor(span.outcome), span.spanKind + " (" + span.outcome + ")", threadID)
  }

  datatype Thread = Thread(id: int, name: string)

  datatype Frame = Frame(name: string, sourceName: string, sourcePath: string)

  datatype Variable = Variable(name: string, value: string, ref: int)

  datatype Body =
    | NoBody
    | Capabilities
    | ThreadList(threads: seq<Thread>)
    | Frames(frames: seq<Frame>)
    | ScopeRefs(refs: seq<int>)
    | Variables(variables: seq<Variable>)
    | Continuing

  datatype Content =
    | Response(requestSeq: int, success: bool, body: Body)
    | Initialized
    | Process
    | ThreadStarted(threadID: int)
    | Stopped(stop: Stop)
    | Terminated
    // only the batch emitter sends these
    | Output(line: string)
    | StoppedWithSpan(stop: Stop, span: Span, variablesRef: int)
    | Continued(threadID: int)

  datatype Message = Message(seqNo: int, content: Content)

  /** Messages written one after the other, when last is the number of the one before. */
  function Numbered(last: int, contents: seq<Content>): (ms: seq<Message>)
    ensures |ms| == |contents|
  {
    seq(|contents|, i requires 0 <= i < |contents| => Message(last + 1 + i, contents[i]))
  }

  lemma NumberedOne(last: int, c: Content)
    ensures Numbered(last, [c]) == [Message(last + 1, c)]
  {
  }

  lemma NumberedConcat(last: int, a: seq<Content>, b: seq<Content>)
    ensures Numbered(last, a + b) == Numbered(last, a) + Numbered(last + |a|, b)
  {
  }

  // -----------------------------------------------------------------------------------
  // The events that tell where the replay is

  predicate Tells(c: Content) { c.ThreadStarted? || c.Stopped? || c.StoppedWithSpan? }

  /** The emitter's richer stopped event, reduced to what the server sends. */
  function Plain(c: Content): Content {
    if c.StoppedWithSpan? then Stopped(c.stop) else c
  }

  function Telling(): Content -> seq<Content> {
    (c: Content) => if Tells(c) then [Plain(c)] else []
  }

  /** The thread-started and stopped events among some messages, in order. */
  function Narrative(cs: seq<Content>): seq<Content> { FlatMap(Telling(), cs) }
}
