/**
 Whole sessions with the server: which spans the replay visits and what the client is told of
 them, for any requests; how many terminated events it gets; and what is answered.
 */
module DapSessions {
  import opened Decimal
  import opened Sequences
  import opened Text
  import opened DapProtocol
  import opened DapThreads
  import opened DapServer

  // -----------------------------------------------------------------------------------
  // Where the replay goes, without the server: a position in a list of spans

  predicate Moves(r: Request) { r.Request? && Advances(r.command) }

  predicate Stopping(r: Request) { r.Request? && Ends(r.command) }

  function SpansAfter(spans: seq<Span>, r: Request): seq<Span> {
    if r.Request? && r.command.Launch? then spans + r.command.loaded else spans
  }

  function CursorAfter(cursor: int, r: Request): int { if Moves(r) then cursor + 1 else cursor }

  function Reached(at: Option<Span>): seq<Span> {
    match at case None => [] case Some(span) => [span]
  }

  /** The span visited by one request, if any. */
  function VisitedBy(spans: seq<Span>, cursor: int, r: Request): seq<Span> {
    if Moves(r) then Reached(SpanAt(spans, cursor + 1)) else []
  }

  /** The spans visited by some requests, from a position on. */
  function Visited(spans: seq<Span>, cursor: int, requests: seq<Request>): seq<Span>
    decreases |requests|
  {
    if requests == [] || Stopping(requests[0]) then []
    else
      VisitedBy(spans, cursor, requests[0])
      + Visited(SpansAfter(spans, requests[0]), CursorAfter(cursor, requests[0]), requests[1..])
  }

  // -----------------------------------------------------------------------------------
  // The narrative of a session

  lemma NarrativeOfArrival(t: Table, mode: ThreadBy, span: Span)
    ensures Narrative(Arrival(t, mode, span)) == Arrival(t, mode, span)
  {
    var id := IdFor(t, ThreadKey(mode, span));
    FlatMapOne(Telling(), Stopped(StopAt(span, id)));
    FlatMapOne(Telling(), ThreadStarted(id));
    FlatMapConcat(Telling(), [ThreadStarted(id)], [Stopped(StopAt(span, id))]);
    Unit([Stopped(StopAt(span, id))]);
  }

  /** Messages that neither tell of the replay nor end it. */
  predicate Formal(c: Content) { c.Response? || c.Initialized? || c.Process? }

  lemma AnswerIsFormal(cfg: Config, s: State, requestSeq: int, c: Command)
    requires Valid(s)
    ensures forall m :: m in Answer(cfg, s, requestSeq, c).contents ==> Formal(m)
  {
  }

  lemma AnswerMovesNothing(cfg: Config, s: State, requestSeq: int, c: Command)
    requires Valid(s)
    ensures var h := Answer(cfg, s, requestSeq, c);
            !h.done && h.state.threads == s.threads &&
            h.state.cursor == s.cursor && h.state.terminated == s.terminated &&
            h.state.spans == if c.Launch? then s.spans + c.loaded else s.spans
  {
  }

  /** Past the last span, an advance tells nothing. */
  lemma AdvanceEnds(cfg: Config, s: State, requestSeq: int, body: Body)
    requires SpanAt(s.spans, s.cursor + 1).None?
    ensures var h := OnAdvance(cfg, s, requestSeq, body);
            Narrative(h.contents) == [] && h.state.threads == s.threads
  {
    NarrativeAfterAnswer(Response(requestSeq, true, body), [Terminated]);
    FlatMapOne(Telling(), Terminated);
  }

  lemma NarrativeAfterAnswer(answer: Content, cs: seq<Content>)
    requires !Tells(answer)
    ensures Narrative([answer] + cs) == Narrative(cs)
  {
    FlatMapOne(Telling(), answer);
    FlatMapConcat(Telling(), [answer], cs);
    Unit(Narrative(cs));
  }

  /** Else it tells of the arrival at the next span. */
  lemma AdvanceReaches(cfg: Config, s: State, requestSeq: int, body: Body, span: Span)
    requires SpanAt(s.spans, s.cursor + 1) == Some(span)
    ensures var h := OnAdvance(cfg, s, requestSeq, body);
            Narrative(h.contents) == Arrival(s.threads, cfg.threadBy, span) &&
            h.state.threads == Admit(s.threads, ThreadKey(cfg.threadBy, span))
  {
    NarrativeAfterAnswer(Response(requestSeq, true, body), Arrival(s.threads, cfg.threadBy, span));
    NarrativeOfArrival(s.threads, cfg.threadBy, span);
  }

  lemma AdvanceEndsScene(cfg: Config, s: State, r: Request, seen: seq<Span>)
    requires Numbers(s.threads, Cast(cfg.threadBy, seen)) && Moves(r) && SpanAt(s.spans, s.cursor + 1).None?
    ensures var h := OnAdvance(cfg, s, r.seqNo, Acknowledgement(r.command));
            Told(cfg.threadBy, h.state.threads, seen, VisitedBy(s.spans, s.cursor, r), Narrative(h.contents))
  {
    AdvanceEnds(cfg, s, r.seqNo, Acknowledgement(r.command));
    ToldNothing(cfg.threadBy, s.threads, seen);
  }

  lemma AdvanceReachesScene(cfg: Config, s: State, r: Request, span: Span, seen: seq<Span>)
    requires Numbers(s.threads, Cast(cfg.threadBy, seen)) && Moves(r) && SpanAt(s.spans, s.cursor + 1) == Some(span)
    ensures var h := OnAdvance(cfg, s, r.seqNo, Acknowledgement(r.command));
            Told(cfg.threadBy, h.state.threads, seen, VisitedBy(s.spans, s.cursor, r), Narrative(h.contents))
  {
    AdvanceReaches(cfg, s, r.seqNo, Acknowledgement(r.command), span);
    ArrivalIsScene(s.threads, cfg.threadBy, seen, span);
    assert VisitedBy(s.spans, s.cursor, r) == [span];
  }

  lemma EndIsSilent(s: State, requestSeq: int)
    ensures Narrative(OnEnd(s, requestSeq).contents) == []
  {
    FlatMapNone(Telling(), OnEnd(s, requestSeq).contents);
  }

  /** One request tells of the spans it visits. */
  lemma HandleTells(cfg: Config, s: State, r: Request, seen: seq<Span>)
    requires Valid(s) && Numbers(s.threads, Cast(cfg.threadBy, seen))
    ensures var h := Handle(cfg, s, r);
            Told(cfg.threadBy, h.state.threads, seen, VisitedBy(s.spans, s.cursor, r), Narrative(h.contents))
  {
    if r.Request? && Advances(r.command) {
      match SpanAt(s.spans, s.cursor + 1) {
        case None => AdvanceEndsScene(cfg, s, r, seen);
        case Some(span) => AdvanceReachesScene(cfg, s, r, span, seen);
      }
    } else {
      QuietTells(cfg, s, r);
      ToldNothing(cfg.threadBy, s.threads, seen);
    }
  }

  lemma QuietTells(cfg: Config, s: State, r: Request)
    requires Valid(s) && (r.Request? ==> !Advances(r.command))
    ensures Narrative(Handle(cfg, s, r).contents) == [] && Handle(cfg, s, r).state.threads == s.threads
  {
    if r.Request? {
      if Ends(r.command) {
        EndIsSilent(s, r.seqNo);
      } else {
        AnswerIsFormal(cfg, s, r.seqNo, r.command);
        AnswerMovesNothing(cfg, s, r.seqNo, r.command);
        FlatMapNone(Telling(), Answer(cfg, s, r.seqNo, r.command).contents);
      }
    }
  }

  /** How one request moves the replay. */
  lemma HandleMoves(cfg: Config, s: State, r: Request)
    requires Valid(s)
    ensures var h := Handle(cfg, s, r);
            h.done == Stopping(r) && h.state.cursor == CursorAfter(s.cursor, r) &&
            h.state.spans == SpansAfter(s.spans, r)
  {
    if r.Request? && !Advances(r.command) && !Ends(r.command) {
      AnswerMovesNothing(cfg, s, r.seqNo, r.command);
    }
  }

  /**
   The thread-started and stopped events of a session, whatever the requests, tell the story
   of the spans visited: each stop in turn, with thread ids by first occurrence.
   */
  lemma {:induction false} SessionTellsVisited(cfg: Config, s: State, requests: seq<Request>, seen: seq<Span>)
    requires Valid(s) && Numbers(s.threads, Cast(cfg.threadBy, seen))
    ensures var all := seen + Visited(s.spans, s.cursor, requests);
            Story(cfg.threadBy, all) == Story(cfg.threadBy, seen) + Narrative(Serve(cfg, s, requests).contents) &&
            Numbers(Serve(cfg, s, requests).state.threads, Cast(cfg.threadBy, all))
    decreases |requests|
  {
    Unit(seen);
    Unit(Story(cfg.threadBy, seen));
    if requests != [] {
      var r, rest := requests[0], requests[1..];
      var h := Handle(cfg, s, r);
      HandleTells(cfg, s, r, seen);
      HandleMoves(cfg, s, r);
      if !h.done {
        HandleKeepsValid(cfg, s, r);
        SessionTellsVisited(cfg, h.state, rest, seen + VisitedBy(s.spans, s.cursor, r));
        var later := Serve(cfg, h.state, rest).contents;
        FlatMapConcat(Telling(), h.contents, later);
        Assoc(seen, VisitedBy(s.spans, s.cursor, r), Visited(h.state.spans, h.state.cursor, rest));
        Assoc(Story(cfg.threadBy, seen), Narrative(h.contents), Narrative(later));
      }
    }
  }

  lemma InitialIsValid(mode: ThreadBy)
    ensures Valid(INITIAL) && Numbers(INITIAL.threads, Cast(mode, []))
  {
  }

  /**
   Threads of a session are started once each, numbered 1, 2, 3, ... in that order, each
   before the first stop on it.
   */
  lemma SessionStartsThreads(cfg: Config, requests: seq<Request>)
    ensures Valid(INITIAL) && Valid(Serve(cfg, INITIAL, requests).state)
    ensures var h := Serve(cfg, INITIAL, requests);
            ThreadsStarted(Narrative(h.contents)) == UpTo(h.state.threads.next - 1) &&
            StartedBeforeStop(Narrative(h.contents))
  {
    InitialIsValid(cfg.threadBy);
    SessionKeepsValid(cfg, INITIAL, requests);
    SessionTellsVisited(cfg, INITIAL, requests, []);
    var all := [] + Visited([], -1, requests);
    StoryStartsThreads(cfg.threadBy, all);
    Unit(Narrative(Serve(cfg, INITIAL, requests).contents));
  }

  // -----------------------------------------------------------------------------------
  // Every reachable state

  /** A session keeps the state valid and forgets no reference, no thread and no span. */
  lemma {:induction false} SessionKeepsValid(cfg: Config, s: State, requests: seq<Request>)
    requires Valid(s)
    ensures Valid(Serve(cfg, s, requests).state) && Remembers(s, Serve(cfg, s, requests).state)
    decreases |requests|
  {
    if requests == [] {
      QuietKeepsValid(s, s);
    } else {
      var h := Handle(cfg, s, requests[0]);
      HandleKeepsValid(cfg, s, requests[0]);
      if !h.done {
        SessionKeepsValid(cfg, h.state, requests[1..]);
        RemembersAll(s, h.state, Serve(cfg, h.state, requests[1..]).state);
      }
    }
  }

  lemma RemembersAll(s: State, t: State, u: State)
    requires Remembers(s, t) && Remembers(t, u)
    ensures Remembers(s, u)
  {
    assert forall r :: r in s.refs ==> r in t.refs && t.refs[r] == s.refs[r];
  }

  /** The request numbers a session answers: those of its requests, up to the one that ends it. */
  function Asked(requests: seq<Request>): seq<int> {
    if requests == [] then []
    else if requests[0].NotARequest? then Asked(requests[1..])
    else if Ends(requests[0].command) then [requests[0].seqNo]
    else [requests[0].seqNo] + Asked(requests[1..])
  }

  /** The request numbers of the responses among some messages. */
  function Answers(cs: seq<Content>): seq<int> { FlatMap(Answering(), cs) }

  function Answering(): Content -> seq<int> {
    (c: Content) => if c.Response? then [c.requestSeq] else []
  }

  lemma OnceAnswered(cs: seq<Content>, requestSeq: int)
    requires AnswersOnce(cs, requestSeq)
    ensures Answers(cs) == [requestSeq]
  {
    FlatMapNone(Answering(), cs[1..]);
  }

  /** The responses of a session are to its requests, each once, in order. */
  lemma {:induction false} EachRequestAnsweredOnce(cfg: Config, s: State, requests: seq<Request>)
    requires Valid(s)
    ensures Answers(Serve(cfg, s, requests).contents) == Asked(requests)
    decreases |requests|
  {
    if requests != [] {
      var r := requests[0];
      var h := Handle(cfg, s, r);
      OneResponseFirst(cfg, s, r);
      HandleMoves(cfg, s, r);
      if r.Request? {
        OnceAnswered(h.contents, r.seqNo);
      }
      if !h.done {
        HandleKeepsValid(cfg, s, r);
        EachRequestAnsweredOnce(cfg, h.state, requests[1..]);
        FlatMapConcat(Answering(), h.contents, Serve(cfg, h.state, requests[1..]).contents);
      }
    }
  }

  // -----------------------------------------------------------------------------------
  // Counting terminated events

  function Terminations(cs: seq<Content>): nat { |FlatMap(Terminating(), cs)| }

  function Terminating(): Content -> seq<Content> {
    (c: Content) => if c.Terminated? then [c] else []
  }

  /** Neither a launch nor an end: the requests while a trace is being stepped through. */
  predicate Steady(requests: seq<Request>) {
    forall r :: r in requests && r.Request? ==> !r.command.Launch? && !Ends(r.command)
  }

  function AdvanceCount(requests: seq<Request>): nat {
    if requests == [] then 0
    else (if Moves(requests[0]) then 1 else 0) + AdvanceCount(requests[1..])
  }

  /** How far a position is past the last span. */
  function Overrun(cursor: int, spans: seq<Span>): nat {
    if cursor < |spans| then 0 else cursor + 1 - |spans|
  }

  lemma AdvanceTerminates(cfg: Config, s: State, requestSeq: int, body: Body)
    ensures var h := OnAdvance(cfg, s, requestSeq, body);
            Terminations(h.contents) == (if SpanAt(s.spans, s.cursor + 1).None? then 1 else 0) &&
            h.state.terminated == (s.terminated || SpanAt(s.spans, s.cursor + 1).None?)
  {
    FlatMapOne(Terminating(), Response(requestSeq, true, body));
    FlatMapConcat(Terminating(), [Response(requestSeq, true, body)], Advance(cfg, s).1);
    match SpanAt(s.spans, s.cursor + 1) {
      case None => FlatMapOne(Terminating(), Terminated);
      case Some(span) => FlatMapNone(Terminating(), Advance(cfg, s).1);
    }
  }

  /** One request of a steady session: it terminates exactly when it moves past the last span. */
  lemma SteadyStep(cfg: Config, s: State, r: Request)
    requires Valid(s) && (r.Request? ==> !r.command.Launch? && !Ends(r.command))
    ensures var h := Handle(cfg, s, r);
            !h.done && h.state.spans == s.spans && h.state.cursor == CursorAfter(s.cursor, r) &&
            Terminations(h.contents) == Overrun(h.state.cursor, s.spans) - Overrun(s.cursor, s.spans) &&
            h.state.terminated == (s.terminated || Terminations(h.contents) > 0)
  {
    HandleMoves(cfg, s, r);
    if Moves(r) {
      AdvanceTerminates(cfg, s, r.seqNo, Acknowledgement(r.command));
    } else {
      QuietDoesNotTerminate(cfg, s, r);
    }
  }

  lemma QuietDoesNotTerminate(cfg: Config, s: State, r: Request)
    requires Valid(s) && (r.Request? ==> !Advances(r.command) && !Ends(r.command))
    ensures Terminations(Handle(cfg, s, r).contents) == 0
    ensures Handle(cfg, s, r).state.terminated == s.terminated
  {
    if r.Request? {
      AnswerIsFormal(cfg, s, r.seqNo, r.command);
      AnswerMovesNothing(cfg, s, r.seqNo, r.command);
      FlatMapNone(Terminating(), Answer(cfg, s, r.seqNo, r.command).contents);
    }
  }

  /** A steady session: where it gets to, and how often it says terminated. */
  lemma {:induction false} SteadySession(cfg: Config, s: State, requests: seq<Request>)
    requires Valid(s) && Steady(requests)
    ensures var h := Serve(cfg, s, requests);
            !h.done && h.state.spans == s.spans &&
            h.state.cursor == s.cursor + AdvanceCount(requests) &&
            Terminations(h.contents) == Overrun(h.state.cursor, s.spans) - Overrun(s.cursor, s.spans) &&
            h.state.terminated == (s.terminated || Terminations(h.contents) > 0)
    decreases |requests|
  {
    if requests != [] {
      var r, rest := requests[0], requests[1..];
      assert r in requests && forall q :: q in rest ==> q in requests;
      SteadyStep(cfg, s, r);
      HandleKeepsValid(cfg, s, r);
      var h := Handle(cfg, s, r);
      SteadySession(cfg, h.state, rest);
      FlatMapConcat(Terminating(), h.contents, Serve(cfg, h.state, rest).contents);
    }
  }

  /** A steady session visits the spans from its position on, one per advance, as far as there are any. */
  lemma {:induction false} SteadyVisits(spans: seq<Span>, cursor: int, requests: seq<Request>)
    requires Steady(requests) && cursor >= -1
    ensures Visited(spans, cursor, requests) == Ahead(spans, cursor, AdvanceCount(requests))
    decreases |requests|
  {
    if requests != [] {
      var r, rest := requests[0], requests[1..];
      assert r in requests && forall q :: q in rest ==> q in requests;
      SteadyVisits(spans, CursorAfter(cursor, r), rest);
      if Moves(r) {
        AheadNext(spans, cursor, AdvanceCount(rest));
      } else {
        Unit(Visited(spans, cursor, rest));
      }
    }
  }

  function AtMost(a: int, b: int): int { if a <= b then a else b }

  lemma SliceHead(spans: seq<Span>, i: nat, j: nat)
    requires i < j <= |spans|
    ensures spans[i..j] == [spans[i]] + spans[i + 1..j]
  {
  }

  /** The next k spans after a position, or as many as there are. */
  function Ahead(spans: seq<Span>, cursor: int, k: nat): seq<Span>
    requires cursor >= -1
  {
    if cursor + 1 <= |spans| then spans[cursor + 1..AtMost(cursor + 1 + k, |spans|)] else []
  }

  lemma AheadNext(spans: seq<Span>, cursor: int, k: nat)
    requires cursor >= -1
    ensures Ahead(spans, cursor, k + 1)
      == Reached(SpanAt(spans, cursor + 1)) + Ahead(spans, cursor + 1, k)
  {
    if cursor + 1 < |spans| {
      SliceHead(spans, cursor + 1, AtMost(cursor + 2 + k, |spans|));
    }
  }

  // -----------------------------------------------------------------------------------
  // The session of a client that launches once

  lemma {:induction false} ServeConcat(cfg: Config, s: State, a: seq<Request>, b: seq<Request>)
    requires Valid(s) && !Serve(cfg, s, a).done
    ensures Valid(Serve(cfg, s, a).state)
    ensures var first := Serve(cfg, s, a);
            var second := Serve(cfg, first.state, b);
            Serve(cfg, s, a + b) == second.(contents := first.contents + second.contents)
    decreases |a|
  {
    SessionKeepsValid(cfg, s, a);
    var first := Serve(cfg, s, a);
    var second := Serve(cfg, first.state, b);
    if a == [] {
      Unit(b);
      Unit(second.contents);
    } else {
      TailOfConcat(a, b);
      var h := Handle(cfg, s, a[0]);
      HandleKeepsValid(cfg, s, a[0]);
      ServeConcat(cfg, h.state, a[1..], b);
      Assoc(h.contents, Serve(cfg, h.state, a[1..]).contents, second.contents);
    }
  }

  /** What a client does that launches once, before any advance, and ends the session at last. */
  datatype Script = Script(before: seq<Request>, launchSeq: int, spans: seq<Span>, during: seq<Request>, end: Request)

  predicate WellFormed(script: Script) {
    Steady(script.before) && AdvanceCount(script.before) == 0 && Steady(script.during) &&
    script.end.Request? && Ends(script.end.command)
  }

  function RequestsOf(script: Script): seq<Request> {
    script.before + ([Request(script.launchSeq, Launch(script.spans, true))] + (script.during + [script.end]))
  }

  /** The state once the trace is loaded. */
  lemma AfterLaunch(cfg: Config, script: Script) returns (s: State, told: seq<Content>)
    requires WellFormed(script)
    ensures Valid(INITIAL) && Valid(s)
    ensures s.spans == script.spans && s.cursor == -1 && !s.terminated
    ensures Terminations(told) == 0
    ensures var rest := Serve(cfg, s, script.during + [script.end]);
            Serve(cfg, INITIAL, RequestsOf(script)) == rest.(contents := told + rest.contents)
  {
    InitialIsValid(cfg.threadBy);
    var launch := Request(script.launchSeq, Launch(script.spans, true));
    var rest := script.during + [script.end];
    SteadySession(cfg, INITIAL, script.before);
    ServeConcat(cfg, INITIAL, script.before, [launch] + rest);
    var first := Serve(cfg, INITIAL, script.before);
    HandleMoves(cfg, first.state, launch);
    HandleKeepsValid(cfg, first.state, launch);
    QuietDoesNotTerminate(cfg, first.state, launch);
    var h := Handle(cfg, first.state, launch);
    Uncons(launch, rest);
    Unit(script.spans);
    s, told := h.state, first.contents + h.contents;
    FlatMapConcat(Terminating(), first.contents, h.contents);
    Assoc(first.contents, h.contents, Serve(cfg, s, rest).contents);
  }

  /**
   With n spans and k advances the client gets one terminated event, or k - n if that is more:
   exactly one if and only if k <= n + 1.
   */
  lemma ScriptTerminates(cfg: Config, script: Script)
    requires WellFormed(script)
    ensures Valid(INITIAL)
    ensures var n, k := |script.spans|, AdvanceCount(script.during);
            Terminations(Serve(cfg, INITIAL, RequestsOf(script)).contents) == if k <= n then 1 else k - n
  {
    var s, told := AfterLaunch(cfg, script);
    SteadySession(cfg, s, script.during);
    ServeConcat(cfg, s, script.during, [script.end]);
    var middle := Serve(cfg, s, script.during);
    var last := OnEnd(middle.state, script.end.seqNo);
    assert Serve(cfg, middle.state, [script.end]) == last;
    EndTerminates(middle.state, script.end.seqNo);
    FlatMapConcat(Terminating(), middle.contents, last.contents);
    FlatMapConcat(Terminating(), told, middle.contents + last.contents);
  }

  lemma EndTerminates(s: State, requestSeq: int)
    ensures Terminations(OnEnd(s, requestSeq).contents) == if s.terminated then 0 else 1
  {
    FlatMapOne(Terminating(), Terminated);
    FlatMapOne(Terminating(), Response(requestSeq, true, NoBody));
    FlatMapConcat(Terminating(), [Response(requestSeq, true, NoBody)], if s.terminated then [] else [Terminated]);
  }

  /** With n spans and k advances the client is told exactly of the first min(k, n) spans. */
  lemma ScriptTellsPrefix(cfg: Config, script: Script)
    requires WellFormed(script)
    ensures Valid(INITIAL)
    ensures var n, k := |script.spans|, AdvanceCount(script.during);
            Narrative(Serve(cfg, INITIAL, RequestsOf(script)).contents)
            == Story(cfg.threadBy, script.spans[..if k <= n then k else n])
  {
    InitialIsValid(cfg.threadBy);
    SessionTellsVisited(cfg, INITIAL, RequestsOf(script), []);
    ScriptVisits(script);
    Unit(Visited([], -1, RequestsOf(script)));
    Unit(Narrative(Serve(cfg, INITIAL, RequestsOf(script)).contents));
  }

  lemma ScriptVisits(script: Script)
    requires WellFormed(script)
    ensures var n, k := |script.spans|, AdvanceCount(script.during);
            Visited([], -1, RequestsOf(script)) == script.spans[..if k <= n then k else n]
  {
    var rest := script.during + [script.end];
    var launch := Request(script.launchSeq, Launch(script.spans, true));
    VisitedAfter([], -1, script.before, [launch] + rest);
    VisitedOnLaunch(launch, rest);
    VisitedUntilEnd(script.spans, -1, script.during, script.end);
    SteadyVisits(script.spans, -1, script.during);
    AheadFromStart(script.spans, AdvanceCount(script.during));
  }

  lemma VisitedOnLaunch(launch: Request, rest: seq<Request>)
    requires launch.Request? && launch.command.Launch?
    ensures Visited([], -1, [launch] + rest) == Visited(launch.command.loaded, -1, rest)
  {
    Uncons(launch, rest);
    Unit(launch.command.loaded);
    Unit(Visited(launch.command.loaded, -1, rest));
  }

  lemma AheadFromStart(spans: seq<Span>, k: nat)
    ensures Ahead(spans, -1, k) == spans[..if k <= |spans| then k else |spans|]
  {
  }

  lemma {:induction false} VisitedAfter(spans: seq<Span>, cursor: int, a: seq<Request>, b: seq<Request>)
    requires Steady(a) && AdvanceCount(a) == 0
    ensures Visited(spans, cursor, a + b) == Visited(spans, cursor, b)
    decreases |a|
  {
    if a == [] {
      Unit(b);
    } else {
      TailOfConcat(a, b);
      assert a[0] in a && forall q :: q in a[1..] ==> q in a;
      VisitedAfter(spans, cursor, a[1..], b);
      Unit(Visited(spans, cursor, a[1..] + b));
    }
  }

  lemma {:induction false} VisitedUntilEnd(spans: seq<Span>, cursor: int, a: seq<Request>, end: Request)
    requires Steady(a) && end.Request? && Ends(end.command)
    ensures Visited(spans, cursor, a + [end]) == Visited(spans, cursor, a)
    decreases |a|
  {
    if a != [] {
      TailOfConcat(a, [end]);
      assert a[0] in a && forall q :: q in a[1..] ==> q in a;
      VisitedUntilEnd(spans, CursorAfter(cursor, a[0]), a[1..], end);
    }
  }

  // -----------------------------------------------------------------------------------
  // The stops of a story, one by one

  function Stops(cs: seq<Content>): seq<Stop> { FlatMap(StopOf(), cs) }

  function StopOf(): Content -> seq<Stop> {
    (c: Content) => if c.Stopped? then [c.stop] else []
  }

  lemma StopsOfEntrance(names: seq<string>, key: string, span: Span)
    ensures Stops(Entrance(names, key, span)) == [StopAt(span, Rank(names, key))]
  {
    var id := Rank(names, key);
    FlatMapOne(StopOf(), Stopped(StopAt(span, id)));
    FlatMapOne(StopOf(), ThreadStarted(id));
    FlatMapConcat(StopOf(), [ThreadStarted(id)], [Stopped(StopAt(span, id))]);
    Unit([Stopped(StopAt(span, id))]);
  }

  /** The cast only ever grows at its end, so ranks do not change. */
  lemma {:induction false} RankStays(mode: ThreadBy, spans: seq<Span>, i: nat)
    requires i < |spans|
    ensures var key := ThreadKey(mode, spans[i]);
            key in Cast(mode, spans) && Rank(Cast(mode, spans[..i]), key) == Rank(Cast(mode, spans), key)
    decreases |spans|
  {
    var before, last := spans[..|spans| - 1], ThreadKey(mode, spans[|spans| - 1]);
    var names := Cast(mode, before);
    if i < |before| {
      RankStays(mode, before, i);
      assert before[..i] == spans[..i];
      RankAppend(names, last, ThreadKey(mode, spans[i]));
    } else {
      assert spans[..i] == before;
      RankOfLast(names, last);
    }
  }

  lemma {:induction false} RankAppend(names: seq<string>, more: string, key: string)
    requires key in names
    ensures Rank(names + [more], key) == Rank(names, key)
    decreases |names|
  {
    if names[0] != key {
      Recons(names);
      TailOfConcat(names, [more]);
      RankAppend(names[1..], more, key);
    }
  }

  lemma RankOfLast(names: seq<string>, key: string)
    ensures key !in names ==> Rank(names + [key], key) == Rank(names, key)
  {
    if key !in names {
      var r := Rank(names + [key], key);
      assert (names + [key])[|names|] == key;
      assert (names + [key])[r - 1] == key;
      assert forall i :: 0 <= i < |names| ==> (names + [key])[i] == names[i];
    }
  }

  /** The rank of the key of each span. */
  function Ranks(mode: ThreadBy, names: seq<string>, spans: seq<Span>): (ranks: seq<int>)
    ensures |ranks| == |spans|
  {
    seq(|spans|, i requires 0 <= i < |spans| => Rank(names, ThreadKey(mode, spans[i])))
  }

  lemma RanksAgree(mode: ThreadBy, a: seq<string>, b: seq<string>, spans: seq<Span>)
    requires forall i :: 0 <= i < |spans| ==> Rank(a, ThreadKey(mode, spans[i])) == Rank(b, ThreadKey(mode, spans[i]))
    ensures Ranks(mode, a, spans) == Ranks(mode, b, spans)
  {
  }

  lemma RanksSnoc(mode: ThreadBy, names: seq<string>, spans: seq<Span>)
    requires spans != []
    ensures Ranks(mode, names, spans)
      == Ranks(mode, names, spans[..|spans| - 1]) + [Rank(names, ThreadKey(mode, spans[|spans| - 1]))]
  {
  }

  lemma RanksNext(mode: ThreadBy, spans: seq<Span>)
    requires spans != []
    ensures var before := spans[..|spans| - 1];
            Ranks(mode, Cast(mode, spans), spans)
            == Ranks(mode, Cast(mode, before), before) + [Rank(Cast(mode, before), ThreadKey(mode, spans[|spans| - 1]))]
  {
    var before := spans[..|spans| - 1];
    forall i | 0 <= i < |spans|
      ensures Rank(Cast(mode, spans), ThreadKey(mode, spans[i])) == Rank(Cast(mode, before), ThreadKey(mode, spans[i]))
    {
      RankIsFinal(mode, spans, i);
    }
    RanksAgree(mode, Cast(mode, spans), Cast(mode, before), spans);
    RanksSnoc(mode, Cast(mode, before), spans);
  }

  /** One stop for each span, on the given threads. */
  function StopForEach(spans: seq<Span>, ids: seq<int>): (stops: seq<Stop>)
    requires |spans| == |ids|
    ensures |stops| == |spans|
  {
    if spans == [] then []
    else StopForEach(spans[..|spans| - 1], ids[..|ids| - 1]) + [StopAt(spans[|spans| - 1], ids[|ids| - 1])]
  }

  /** A story stops once at every span, in order, on the thread numbered by the rank of the span's key. */
  lemma {:induction false} StoryStopsAtEverySpan(mode: ThreadBy, spans: seq<Span>)
    ensures Stops(Story(mode, spans)) == StopForEach(spans, Ranks(mode, Cast(mode, spans), spans))
    decreases |spans|
  {
    if spans != [] {
      var before, last := spans[..|spans| - 1], spans[|spans| - 1];
      StoryStopsAtEverySpan(mode, before);
      FlatMapConcat(StopOf(), Story(mode, before), Scene(mode, spans));
      StopsOfEntrance(Cast(mode, before), ThreadKey(mode, last), last);
      RanksNext(mode, spans);
      var ranks, earlier := Ranks(mode, Cast(mode, spans), spans), Ranks(mode, Cast(mode, before), before);
      assert ranks[..|ranks| - 1] == earlier;
    }
  }

  lemma RankIsFinal(mode: ThreadBy, spans: seq<Span>, i: nat)
    requires i < |spans|
    ensures var before, key := spans[..|spans| - 1], ThreadKey(mode, spans[i]);
            Rank(Cast(mode, before), key) == Rank(Cast(mode, spans), key)
  {
    var before := spans[..|spans| - 1];
    RankStays(mode, spans, i);
    if i < |before| {
      RankStays(mode, before, i);
      assert before[..i] == spans[..i];
    }
  }
}
