/**
 What a client sees, in terms of the spans of the trace and of its requests: which stops are on
 the same thread and how threads are called, what each request is answered, the entries of a
 map, and the batch emitter's events span by span.
 */
module DapMeaning {
  import opened Decimal
  import opened Json
  import opened Text
  import opened DapProtocol
  import opened DapThreads
  import opened DapVariables
  import opened DapServer
  import opened DapSessions
  import opened DapEmitter

  // -----------------------------------------------------------------------------------
  // Stops and threads, by the fields of the spans

  predicate SameThread(mode: ThreadBy, a: Span, b: Span) {
    match mode case ByEnvelope => a.envelopeID == b.envelopeID case BySdk => a.sdk == b.sdk
  }

  predicate StopTells(stop: Stop, span: Span) {
    stop.description == span.spanKind + (" (" + (span.outcome + ")")) &&
    (stop.reason == Exception
     <==> span.outcome == "retryable" || span.outcome == "discarded" || span.outcome == "cancelled")
  }

  /** One stop for each span, in order, and on the same thread exactly where the spans share the field. */
  ghost predicate StopsTell(mode: ThreadBy, spans: seq<Span>, stops: seq<Stop>) {
    |stops| == |spans| &&
    (forall i :: 0 <= i < |spans| ==> StopTells(stops[i], spans[i])) &&
    (forall i, j :: 0 <= i < |spans| && 0 <= j < |spans| ==>
       (stops[i].threadID == stops[j].threadID <==> SameThread(mode, spans[i], spans[j])))
  }

  lemma {:induction false} StopForEachAt(spans: seq<Span>, ids: seq<int>, i: nat)
    requires |spans| == |ids| && i < |spans|
    ensures StopForEach(spans, ids)[i] == StopAt(spans[i], ids[i])
    decreases |spans|
  {
    if i < |spans| - 1 {
      StopForEachAt(spans[..|spans| - 1], ids[..|ids| - 1], i);
    }
  }

  lemma DescriptionOf(span: Span, id: int)
    ensures StopTells(StopAt(span, id), span) && StopAt(span, id).threadID == id
  {
    Assoc(span.spanKind + " (", span.outcome, ")");
    Assoc(span.spanKind, " (", span.outcome + ")");
  }

  lemma KeysTellThreads(mode: ThreadBy, spans: seq<Span>, i: nat, j: nat)
    requires i < |spans| && j < |spans|
    ensures var names := Cast(mode, spans);
            Rank(names, ThreadKey(mode, spans[i])) == Rank(names, ThreadKey(mode, spans[j]))
            <==> SameThread(mode, spans[i], spans[j])
  {
    RankStays(mode, spans, i);
    RankStays(mode, spans, j);
  }

  lemma StoryStops(mode: ThreadBy, spans: seq<Span>)
    ensures StopsTell(mode, spans, Stops(Story(mode, spans)))
    ensures forall i :: 0 <= i < |spans| ==>
      Stops(Story(mode, spans))[i].threadID == Rank(Cast(mode, spans), ThreadKey(mode, spans[i]))
  {
    var ids := Ranks(mode, Cast(mode, spans), spans);
    var stops := StopForEach(spans, ids);
    StoryStopsAtEverySpan(mode, spans);
    forall i | 0 <= i < |spans|
      ensures StopTells(stops[i], spans[i]) && stops[i].threadID == ids[i]
    {
      StopForEachAt(spans, ids, i);
      DescriptionOf(spans[i], ids[i]);
    }
    forall i, j | 0 <= i < |spans| && 0 <= j < |spans|
      ensures ids[i] == ids[j] <==> SameThread(mode, spans[i], spans[j])
    {
      KeysTellThreads(mode, spans, i, j);
    }
  }

  /** The spans a client has visited with its requests, and what it was told of them. */
  function VisitedFromStart(requests: seq<Request>): seq<Span> { Visited([], -1, requests) }

  lemma SessionIsStory(cfg: Config, requests: seq<Request>)
    ensures Valid(INITIAL) && Valid(Serve(cfg, INITIAL, requests).state)
    ensures var h := Serve(cfg, INITIAL, requests);
            Narrative(h.contents) == Story(cfg.threadBy, VisitedFromStart(requests)) &&
            Numbers(h.state.threads, Cast(cfg.threadBy, VisitedFromStart(requests)))
  {
    InitialIsValid(cfg.threadBy);
    SessionKeepsValid(cfg, INITIAL, requests);
    SessionTellsVisited(cfg, INITIAL, requests, []);
    Unit(VisitedFromStart(requests));
    Unit(Narrative(Serve(cfg, INITIAL, requests).contents));
  }

  /** In any session two stops are on the same thread exactly where their spans share envelope or SDK. */
  lemma SessionStops(cfg: Config, requests: seq<Request>)
    ensures Valid(INITIAL)
    ensures var stops := Stops(Narrative(Serve(cfg, INITIAL, requests).contents));
            StopsTell(cfg.threadBy, VisitedFromStart(requests), stops)
  {
    SessionIsStory(cfg, requests);
    StoryStops(cfg.threadBy, VisitedFromStart(requests));
  }

  predicate NamedAfter(mode: ThreadBy, name: string, span: Span) {
    match mode case ByEnvelope => name == span.envelopeID case BySdk => name == span.sdk
  }

  lemma RosterIsCast(t: Table, names: seq<string>)
    requires Numbers(t, names) && Filled(t)
    ensures CalledInTurn(Roster(t), names)
  {
    forall k | 0 <= k < |names| ensures Roster(t)[k] == Thread(k + 1, names[k]) {
      assert HasName(t, k + 1);
      var key := NameOf(t, k + 1);
      assert names[k] in t.ids && t.ids[names[k]] == k + 1;
      assert key == names[k];
    }
  }

  /** The threads listed: numbered from 1, one for each stop's thread, called after its span, and no others. */
  ghost predicate ThreadsTell(mode: ThreadBy, spans: seq<Span>, stops: seq<Stop>, threads: seq<Thread>)
    requires |stops| == |spans|
  {
    (forall k :: 0 <= k < |threads| ==> threads[k].id == k + 1) &&
    (forall i :: 0 <= i < |spans| ==>
       1 <= stops[i].threadID <= |threads| && NamedAfter(mode, threads[stops[i].threadID - 1].name, spans[i])) &&
    (forall t :: t in threads ==> exists i :: 0 <= i < |spans| && stops[i].threadID == t.id)
  }

  /** The threads of a cast, numbered from 1. */
  predicate CalledInTurn(threads: seq<Thread>, names: seq<string>) {
    |threads| == |names| && forall k :: 0 <= k < |names| ==> threads[k] == Thread(k + 1, names[k])
  }

  lemma NameOfStop(mode: ThreadBy, spans: seq<Span>, threads: seq<Thread>, i: nat)
    requires i < |spans| && CalledInTurn(threads, Cast(mode, spans))
    ensures var id := RankOf(mode, spans, i);
            1 <= id <= |threads| && NamedAfter(mode, threads[id - 1].name, spans[i])
  {
    RankStays(mode, spans, i);
  }

  /** The number of the thread of a span. */
  function RankOf(mode: ThreadBy, spans: seq<Span>, i: nat): int
    requires i < |spans|
  {
    Rank(Cast(mode, spans), ThreadKey(mode, spans[i]))
  }

  lemma StopOfThread(mode: ThreadBy, spans: seq<Span>, k: nat) returns (i: nat)
    requires k < |Cast(mode, spans)|
    ensures i < |spans| && RankOf(mode, spans, i) == k + 1
  {
    var names := Cast(mode, spans);
    assert names[k] in names;
    CastIsWhoActs(mode, spans, names[k]);
    i :| 0 <= i < |spans| && ThreadKey(mode, spans[i]) == names[k];
    CastIsDistinct(mode, spans, k, Rank(names, names[k]) - 1);
  }

  lemma StopOfListed(mode: ThreadBy, spans: seq<Span>, threads: seq<Thread>, t: Thread) returns (i: nat)
    requires CalledInTurn(threads, Cast(mode, spans)) && t in threads
    ensures i < |spans| && RankOf(mode, spans, i) == t.id
  {
    var k: nat :| k < |threads| && threads[k] == t;
    i := StopOfThread(mode, spans, k);
  }

  lemma CastTells(mode: ThreadBy, spans: seq<Span>, stops: seq<Stop>, threads: seq<Thread>)
    requires CalledInTurn(threads, Cast(mode, spans)) && |stops| == |spans|
    requires forall i :: 0 <= i < |spans| ==> stops[i].threadID == RankOf(mode, spans, i)
    ensures ThreadsTell(mode, spans, stops, threads)
  {
    forall i | 0 <= i < |spans|
      ensures 1 <= stops[i].threadID <= |threads| && NamedAfter(mode, threads[stops[i].threadID - 1].name, spans[i])
    {
      NameOfStop(mode, spans, threads, i);
    }
    forall t | t in threads
      ensures exists i :: 0 <= i < |spans| && stops[i].threadID == t.id
    {
      var i := StopOfListed(mode, spans, threads, t);
      assert stops[i].threadID == t.id;
    }
  }

  lemma {:induction false} CastIsDistinct(mode: ThreadBy, spans: seq<Span>, i: nat, j: nat)
    requires i < |Cast(mode, spans)| && j < |Cast(mode, spans)| && Cast(mode, spans)[i] == Cast(mode, spans)[j]
    ensures i == j
    decreases |spans|
  {
    if spans != [] {
      var before := Cast(mode, spans[..|spans| - 1]);
      if i < |before| && j < |before| {
        CastIsDistinct(mode, spans[..|spans| - 1], i, j);
      } else {
        assert forall k :: 0 <= k < |before| ==> before[k] in before;
      }
    }
  }

  lemma StoryThreads(mode: ThreadBy, spans: seq<Span>, t: Table)
    requires Numbers(t, Cast(mode, spans)) && Filled(t)
    ensures |Stops(Story(mode, spans))| == |spans|
    ensures ThreadsTell(mode, spans, Stops(Story(mode, spans)), Roster(t))
  {
    RosterIsCast(t, Cast(mode, spans));
    StoryStops(mode, spans);
    CastTells(mode, spans, Stops(Story(mode, spans)), Roster(t));
  }

  lemma ThreadsAnswer(cfg: Config, s: State, requestSeq: int)
    requires Valid(s)
    ensures Handle(cfg, s, Request(requestSeq, Threads)).contents
      == [Response(requestSeq, true, ThreadList(Roster(s.threads)))]
  {
  }

  /** At any time, the threads request lists the threads of the stops so far under the names of their spans. */
  lemma SessionThreads(cfg: Config, requests: seq<Request>, requestSeq: int)
    ensures Valid(INITIAL) && Valid(Serve(cfg, INITIAL, requests).state)
    ensures var h := Serve(cfg, INITIAL, requests);
            var threads := Roster(h.state.threads);
            var spans, stops := VisitedFromStart(requests), Stops(Narrative(h.contents));
            Handle(cfg, h.state, Request(requestSeq, Threads)).contents
              == [Response(requestSeq, true, ThreadList(threads))] &&
            |stops| == |spans| && ThreadsTell(cfg.threadBy, spans, stops, threads)
  {
    SessionIsStory(cfg, requests);
    var h := Serve(cfg, INITIAL, requests);
    StoryThreads(cfg.threadBy, VisitedFromStart(requests), h.state.threads);
    ThreadsAnswer(cfg, h.state, requestSeq);
  }

  // -----------------------------------------------------------------------------------
  // What each request is answered

  predicate Succeeds(s: State, c: Command) {
    match c
    case Launch(_, ok) => ok
    case VariablesOf(ref) => ref in s.refs
    case Unsupported => false
    case _ => true
  }

  /** The kind of body a response has. */
  predicate BodyFits(s: State, c: Command, body: Body) {
    match c
    case Initialize => body == Capabilities
    case Threads => body.ThreadList?
    case StackTrace => body.Frames?
    case Scopes => body.ScopeRefs?
    case VariablesOf(ref) => if ref in s.refs then body.Variables? else body == NoBody
    case Continue => body == Continuing
    case Next => body == Continuing
    case _ => body == NoBody
  }

  /** The events behind it. */
  ghost predicate EventsFit(s: State, c: Command, events: seq<Content>) {
    match c
    case Initialize => events == [Initialized]
    case Launch(_, ok) => events == if ok then [Process] else []
    case Disconnect => events == if s.terminated then [] else [Terminated]
    case Terminate => events == if s.terminated then [] else [Terminated]
    case ConfigurationDone => ArrivalFits(s, events)
    case Continue => ArrivalFits(s, events)
    case Next => ArrivalFits(s, events)
    case _ => events == []
  }

  /** At the next span it stops, with a thread event before that if need be; past the last one it terminates. */
  ghost predicate ArrivalFits(s: State, events: seq<Content>) {
    if !(0 <= s.cursor + 1 < |s.spans|) then events == [Terminated]
    else exists stop ::
      StopTells(stop, s.spans[s.cursor + 1]) &&
      (events == [Stopped(stop)] || events == [ThreadStarted(stop.threadID), Stopped(stop)])
  }

  lemma AdvanceFits(cfg: Config, s: State)
    requires Valid(s)
    ensures ArrivalFits(s, Advance(cfg, s).1)
  {
    if s.cursor + 1 < |s.spans| {
      var span := s.spans[s.cursor + 1];
      var id := IdFor(s.threads, ThreadKey(cfg.threadBy, span));
      DescriptionOf(span, id);
      Unit([Stopped(StopAt(span, id))]);
      assert [ThreadStarted(id)] + [Stopped(StopAt(span, id))] == [ThreadStarted(id), Stopped(StopAt(span, id))];
    }
  }

  /** The response to a request, whether it succeeds and what kind of body it has, and the events behind it. */
  lemma RequestAnswered(cfg: Config, s: State, r: Request)
    requires Valid(s) && r.Request?
    ensures var cs := Handle(cfg, s, r).contents;
            cs != [] && cs[0].Response? && cs[0].requestSeq == r.seqNo &&
            (cs[0].success <==> Succeeds(s, r.command)) && BodyFits(s, r.command, cs[0].body) &&
            EventsFit(s, r.command, cs[1..])
  {
    if Advances(r.command) {
      AdvanceFits(cfg, s);
      Uncons(Response(r.seqNo, true, Acknowledgement(r.command)), Advance(cfg, s).1);
    } else if Ends(r.command) {
      Uncons(Response(r.seqNo, true, NoBody), if s.terminated then [] else [Terminated]);
    }
  }

  /** The span a stopped session shows: an advance decides it, nothing else changes it. */
  lemma CurrentMeaning(cfg: Config, s: State, r: Request)
    requires Valid(s)
    ensures Current(Handle(cfg, s, r).state)
      == if Moves(r) then (if s.cursor + 1 < |s.spans| then Some(s.spans[s.cursor + 1]) else None) else Current(s)
  {
    HandleKeepsValid(cfg, s, r);
    if r.Request? && !Advances(r.command) && !Ends(r.command) {
      AnswerKeepsStopped(cfg, s, r.seqNo, r.command);
      AnswerMovesNothing(cfg, s, r.seqNo, r.command);
    }
  }

  lemma AnswerKeepsStopped(cfg: Config, s: State, requestSeq: int, c: Command)
    requires Valid(s)
    ensures Answer(cfg, s, requestSeq, c).state.stopped == s.stopped
  {
  }

  /** Its stack: one frame with kind and outcome, SDK and trace; none while the session is not stopped. */
  lemma StackMeaning(cfg: Config, s: State, requestSeq: int)
    requires Valid(s)
    ensures Handle(cfg, s, Request(requestSeq, StackTrace)).contents == match Current(s)
      case None => [Response(requestSeq, true, Frames([]))]
      case Some(span) =>
        [Response(requestSeq, true, Frames(
          [Frame(span.spanKind + (" (" + (span.outcome + ")")), span.sdk, cfg.tracePath)]))]
  {
    if Current(s).Some? {
      var span := Current(s).value;
      Assoc(span.spanKind + " (", span.outcome, ")");
      Assoc(span.spanKind, " (", span.outcome + ")");
    }
  }

  // -----------------------------------------------------------------------------------
  // The entries of a map

  /** The order of strings: at the first difference the smaller character, or the end of the string. */
  ghost predicate Precedes(a: string, b: string) {
    exists n: nat :: DiffersAt(a, b, n)
  }

  predicate DiffersAt(a: string, b: string, n: nat) {
    n <= |a| && n < |b| && a[..n] == b[..n] && (n == |a| || a[n] < b[n])
  }

  lemma {:induction false} BeforeMeaning(a: string, b: string)
    ensures Before(a, b) <==> Precedes(a, b)
    decreases |a|
  {
    if a == "" {
      assert b != "" ==> DiffersAt(a, b, 0);
    } else if b != "" {
      if a[0] == b[0] {
        BeforeMeaning(a[1..], b[1..]);
        TailDiffers(a, b);
      } else {
        assert a[0] < b[0] ==> DiffersAt(a, b, 0);
        assert forall n: nat :: 0 < n <= |a| && n <= |b| ==> a[..n][0] == a[0] && b[..n][0] == b[0];
      }
    }
  }

  lemma TailDiffers(a: string, b: string)
    requires a != "" && b != "" && a[0] == b[0]
    ensures Precedes(a, b) <==> Precedes(a[1..], b[1..])
  {
    if n: nat :| DiffersAt(a, b, n) {
      assert n > 0;
      assert a[1..][..n - 1] == a[..n][1..] && b[1..][..n - 1] == b[..n][1..];
      assert DiffersAt(a[1..], b[1..], n - 1);
    }
    if n: nat :| DiffersAt(a[1..], b[1..], n) {
      assert a[..n + 1] == [a[0]] + a[1..][..n] && b[..n + 1] == [b[0]] + b[1..][..n];
      assert DiffersAt(a, b, n + 1);
    }
  }

  /** What an entry shows of a value: text, or a reference, from 1000 on, to a nested map. */
  predicate EntryTells(marshal: Value -> string, v: Value, shown: Variable, refs: Refs) {
    match v
    case Null => shown.value == "null" && shown.ref == 0
    case Str(s) => shown.value == s && shown.ref == 0
    case Obj(fields) => shown.value == "{...}" && shown.ref >= 1000 && shown.ref in refs && refs[shown.ref] == fields
    case _ => shown.value == marshal(v) && shown.ref == 0
  }

  ghost predicate EntriesTell(marshal: Value -> string, fields: Fields, variables: seq<Variable>, refs: Refs) {
    (forall i, j :: 0 <= i < j < |variables| ==> Precedes(variables[i].name, variables[j].name)) &&
    (forall key :: key in fields <==> exists i :: 0 <= i < |variables| && variables[i].name == key) &&
    (forall i :: 0 <= i < |variables| ==>
       variables[i].name in fields && EntryTells(marshal, fields[variables[i].name], variables[i], refs))
  }

  lemma ShownTells(marshal: Value -> string, v: Value, shown: Variable, refs: Refs, next: int, key: string)
    requires Shows(marshal, v, shown, refs, key) && Taken(refs, next)
    ensures shown.name == key && EntryTells(marshal, v, shown, refs)
  {
  }

  /** Expanding a reference lists the entries of its map, each key once and in order. */
  lemma ExpansionTells(cfg: Config, s: State, requestSeq: int, ref: int)
    requires Valid(s) && ref in s.refs
    ensures var h := Handle(cfg, s, Request(requestSeq, VariablesOf(ref)));
            exists variables ::
              h.contents == [Response(requestSeq, true, Variables(variables))] &&
              EntriesTell(cfg.marshal, s.refs[ref], variables, h.state.refs)
  {
    var fields := s.refs[ref];
    var keys := Sorted(fields.Keys);
    var l := ListAll(cfg.marshal, fields, s.refs, s.nextVar);
    ListShows(cfg.marshal, fields, keys, s.refs, s.nextVar);
    ListGrows(cfg.marshal, fields, keys, s.refs, s.nextVar);
    ListTells(cfg.marshal, fields, keys, l, s.nextVar);
    assert Handle(cfg, s, Request(requestSeq, VariablesOf(ref))).contents
      == [Response(requestSeq, true, Variables(l.variables))];
  }

  lemma ListTells(marshal: Value -> string, fields: Fields, keys: seq<string>, l: Listing, next: int)
    requires keys == Sorted(fields.Keys) && ShowsAll(marshal, fields, keys, l, next) && Taken(l.refs, l.next)
    ensures EntriesTell(marshal, fields, l.variables, l.refs)
  {
    forall i | 0 <= i < |keys|
      ensures l.variables[i].name == keys[i] && keys[i] in fields
      ensures EntryTells(marshal, fields[keys[i]], l.variables[i], l.refs)
    {
      assert keys[i] in keys;
      assert Shows(marshal, Lookup(fields, keys[i]), l.variables[i], l.refs, keys[i]);
      ShownTells(marshal, fields[keys[i]], l.variables[i], l.refs, l.next, keys[i]);
    }
    forall i, j | 0 <= i < j < |keys| ensures Precedes(keys[i], keys[j]) {
      BeforeMeaning(keys[i], keys[j]);
    }
    forall key
      ensures key in fields <==> exists i :: 0 <= i < |l.variables| && l.variables[i].name == key
    {
      assert key in fields <==> key in keys;
    }
  }

  /** The entries of a span; worker, parent and attributes only if it has them. */
  lemma SpanEntries(span: Span)
    ensures var m := SpanAsMap(span);
            m.Keys == {"schema_version", "envelope_id", "sdk", "lang", "span_kind", "started_at", "duration_ms",
                       "outcome", "attempt", "span_id"}
              + (if span.workerID == "" then {} else {"worker_id"})
              + (if span.parentSpanID == "" then {} else {"parent_span_id"})
              + (if span.attrs == map[] then {} else {"attrs"})
  {
  }

  // -----------------------------------------------------------------------------------
  // The events of the batch emitter, span by span

  predicate SeenBefore(mode: ThreadBy, spans: seq<Span>, i: nat)
    requires i < |spans|
  {
    exists j :: 0 <= j < i && SameThread(mode, spans[j], spans[i])
  }

  lemma SeenMeansCast(mode: ThreadBy, spans: seq<Span>, i: nat)
    requires i < |spans|
    ensures ThreadKey(mode, spans[i]) in Cast(mode, spans[..i]) <==> SeenBefore(mode, spans, i)
  {
    CastIsWhoActs(mode, spans[..i], ThreadKey(mode, spans[i]));
    forall j | 0 <= j < i
      ensures ThreadKey(mode, spans[..i][j]) == ThreadKey(mode, spans[i]) <==> SameThread(mode, spans[j], spans[i])
    {
    }
  }

  lemma EventsAre(style: Style, p: Progress, span: Span, id: int, known: bool)
    requires id == IdFor(p.threads, ThreadKey(style.threadBy, span))
    requires known <==> ThreadKey(style.threadBy, span) in p.threads.ids
    ensures EventsFor(style, p, span) == (if known then [] else [ThreadStarted(id)])
      + [Output(style.lineFor(span)), StoppedWithSpan(StopAt(span, id), span, p.nextVar), Continued(id)]
  {
  }

  /**
   What the emitter sends for the i-th span: the start of its thread unless an earlier span
   shares it, the console line, the stop with the span and the reference 1000 + i, and that the
   thread continues. The thread is that of the story, and the reference denotes the span.
   */
  lemma EmitterBurst(style: Style, spans: seq<Span>, i: nat)
    requires i < |spans|
    ensures |Stops(Story(style.threadBy, spans))| == |spans|
    ensures var stop := Stops(Story(style.threadBy, spans))[i];
            var id := stop.threadID;
            EventsForAll(style, spans[..i + 1]) == EventsForAll(style, spans[..i])
              + ((if SeenBefore(style.threadBy, spans, i) then [] else [ThreadStarted(id)])
                 + [Output(style.lineFor(spans[i])), StoppedWithSpan(stop, spans[i], 1000 + i), Continued(id)])
    ensures 1000 + i in AfterAll(style, spans).refs && AfterAll(style, spans).refs[1000 + i] == SpanAsMap(spans[i])
  {
    var mode, before := style.threadBy, spans[..i];
    var p := AfterAll(style, before);
    var id := Rank(Cast(mode, spans), ThreadKey(mode, spans[i]));
    EventsNext(style, spans, i);
    EventsTellStory(style, before);
    ReferencesDenoteSpans(style, before);
    ReferencesDenoteSpans(style, spans);
    NumbersRank(p.threads, Cast(mode, before), ThreadKey(mode, spans[i]));
    RankStays(mode, spans, i);
    SeenMeansCast(mode, spans, i);
    EventsAre(style, p, spans[i], id, SeenBefore(mode, spans, i));
    StoryStop(mode, spans, i);
  }

  lemma StoryStop(mode: ThreadBy, spans: seq<Span>, i: nat)
    requires i < |spans|
    ensures |Stops(Story(mode, spans))| == |spans|
    ensures Stops(Story(mode, spans))[i] == StopAt(spans[i], Rank(Cast(mode, spans), ThreadKey(mode, spans[i])))
  {
    StoryStopsAtEverySpan(mode, spans);
    StopForEachAt(spans, Ranks(mode, Cast(mode, spans), spans), i);
  }

  /** Around that: initialized and process first; last the summary and terminated, unless the trace was invalid. */
  lemma EmissionFrame(style: Style, spans: seq<Span>, ok: bool)
    ensures var cs, all := Emission(style, spans, ok), EventsForAll(style, spans);
            |cs| == 2 + |all| + (if ok then 2 else 0) &&
            cs[0] == Initialized && cs[1] == Process && cs[2..2 + |all|] == all &&
            (ok ==> cs[|cs| - 2] == Output(style.summary) && cs[|cs| - 1] == Terminated)
    ensures forall c :: c in EventsForAll(style, spans) ==> !c.Terminated? && !c.Initialized? && !c.Process?
  {
    EventsAreOfSpans(style, spans);
  }

  lemma {:induction false} EventsAreOfSpans(style: Style, spans: seq<Span>)
    ensures forall c :: c in EventsForAll(style, spans) ==> !c.Terminated? && !c.Initialized? && !c.Process?
    decreases |spans|
  {
    if spans != [] {
      EventsAreOfSpans(style, spans[..|spans| - 1]);
    }
  }
}
