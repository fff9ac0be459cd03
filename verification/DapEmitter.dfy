/**
 The batch emitter (cmd/exec-history-dap/main.go): the whole trace as events, without a client.
 It tells the same story as the interactive server.
 */
module DapEmitter {
  import opened Sequences
  import opened Text
  import opened DapProtocol
  import opened DapThreads
  import opened DapVariables
  import opened DapServer
  import opened DapSessions

  /** The console lines are formatting and come in as parameters. */
  datatype Style = Style(threadBy: ThreadBy, lineFor: Span -> string, summary: string)

  datatype Progress = Progress(threads: Table, refs: Refs, nextVar: int)

  const START := Progress(NO_THREADS, map[], FIRST_REF)

  /** onSpan: the state after a span, and the events sent for it. */
  function After(style: Style, p: Progress, span: Span): Progress {
    Progress(Admit(p.threads, ThreadKey(style.threadBy, span)), p.refs[p.nextVar := SpanAsMap(span)], p.nextVar + 1)
  }

  function EventsFor(style: Style, p: Progress, span: Span): seq<Content> {
    var key := ThreadKey(style.threadBy, span);
    var id := IdFor(p.threads, key);
    (if key in p.threads.ids then [] else [ThreadStarted(id)])
    + [Output(style.lineFor(span)), StoppedWithSpan(StopAt(span, id), span, p.nextVar), Continued(id)]
  }

  function AfterAll(style: Style, spans: seq<Span>): Progress {
    if spans == [] then START
    else After(style, AfterAll(style, spans[..|spans| - 1]), spans[|spans| - 1])
  }

  function EventsForAll(style: Style, spans: seq<Span>): seq<Content> {
    if spans == [] then []
    else
      var before := spans[..|spans| - 1];
      EventsForAll(style, before) + EventsFor(style, AfterAll(style, before), spans[|spans| - 1])
  }

  /** emitCmd: ok is false when reading the trace stops at an invalid line. */
  function Emission(style: Style, spans: seq<Span>, ok: bool): seq<Content> {
    ([Initialized, Process] + EventsForAll(style, spans)) + (if ok then [Output(style.summary), Terminated] else [])
  }

  // -----------------------------------------------------------------------------------
  // Agreement with the server

  lemma EventsForTellArrival(style: Style, p: Progress, span: Span)
    ensures Narrative(EventsFor(style, p, span)) == Arrival(p.threads, style.threadBy, span)
  {
    var key := ThreadKey(style.threadBy, span);
    var id := IdFor(p.threads, key);
    var output, stop := Output(style.lineFor(span)), StoppedWithSpan(StopAt(span, id), span, p.nextVar);
    var go := Continued(id);
    FlatMapOne(Telling(), ThreadStarted(id));
    FlatMapOne(Telling(), output);
    FlatMapOne(Telling(), stop);
    FlatMapOne(Telling(), go);
    assert [output, stop, go] == [output] + ([stop] + [go]);
    FlatMapConcat(Telling(), [stop], [go]);
    FlatMapConcat(Telling(), [output], [stop] + [go]);
    FlatMapConcat(Telling(), [ThreadStarted(id)], [output, stop, go]);
    Unit([output, stop, go]);
    Unit([Stopped(StopAt(span, id))]);
  }

  /** The thread-started and stopped events of the emitter are the story of the trace. */
  lemma {:induction false} EventsTellStory(style: Style, spans: seq<Span>)
    ensures Narrative(EventsForAll(style, spans)) == Story(style.threadBy, spans)
    ensures Numbers(AfterAll(style, spans).threads, Cast(style.threadBy, spans))
    decreases |spans|
  {
    if spans != [] {
      var before, last := spans[..|spans| - 1], spans[|spans| - 1];
      var p := AfterAll(style, before);
      EventsTellStory(style, before);
      EventsForTellArrival(style, p, last);
      FlatMapConcat(Telling(), EventsForAll(style, before), EventsFor(style, p, last));
      ArrivalIsScene(p.threads, style.threadBy, before, last);
      Unsnoc(spans);
    }
  }

  lemma EmissionTellsStory(style: Style, spans: seq<Span>, ok: bool)
    ensures Narrative(Emission(style, spans, ok)) == Story(style.threadBy, spans)
  {
    var head, body := [Initialized, Process], EventsForAll(style, spans);
    var tail := if ok then [Output(style.summary), Terminated] else [];
    EventsTellStory(style, spans);
    FlatMapNone(Telling(), head);
    FlatMapNone(Telling(), tail);
    FlatMapConcat(Telling(), head, body);
    FlatMapConcat(Telling(), head + body, tail);
    Unit(Story(style.threadBy, spans));
  }

  /**
   For every trace and thread mode: the emitter and the server, once it was advanced at least
   as often as there are spans, send the same thread-started and stopped events.
   */
  lemma EmitterAgreesWithServer(style: Style, cfg: Config, script: Script, ok: bool)
    requires WellFormed(script) && cfg.threadBy == style.threadBy
    requires AdvanceCount(script.during) >= |script.spans|
    ensures Valid(INITIAL)
    ensures Narrative(Emission(style, script.spans, ok)) == Narrative(Serve(cfg, INITIAL, RequestsOf(script)).contents)
  {
    EmissionTellsStory(style, script.spans, ok);
    ScriptTellsPrefix(cfg, script);
    assert script.spans[..|script.spans|] == script.spans;
  }

  /** The reference sent with the i-th stop denotes the i-th span. */
  lemma {:induction false} ReferencesDenoteSpans(style: Style, spans: seq<Span>)
    ensures var p := AfterAll(style, spans);
            p.nextVar == FIRST_REF + |spans| && Taken(p.refs, p.nextVar) &&
            forall i :: 0 <= i < |spans| ==> p.refs[FIRST_REF + i] == SpanAsMap(spans[i])
    decreases |spans|
  {
    if spans != [] {
      var before, last := spans[..|spans| - 1], spans[|spans| - 1];
      ReferencesDenoteSpans(style, before);
      TakeNext(AfterAll(style, before).refs, AfterAll(style, before).nextVar, SpanAsMap(last));
    }
  }

  // -----------------------------------------------------------------------------------
  // The emitter itself

  class Emitter {
    const style: Style
    var threadIDs: map<string, int>
    var nextTID: int
    var varRefs: Refs
    var nextVar: int
    var seqNo: int
    var out: seq<Message>

    ghost function Now(): Progress
      reads this
    {
      Progress(Table(threadIDs, nextTID), varRefs, nextVar)
    }

    constructor (style: Style)
      ensures Now() == START && seqNo == 0 && out == [] && this.style == style
    {
      this.style := style;
      threadIDs, nextTID := map[], 1;
      varRefs, nextVar := map[], FIRST_REF;
      seqNo, out := 0, [];
    }

    /** Some contents were written, numbered from the last number on. */
    ghost predicate Wrote(contents: seq<Content>, last: int, before: seq<Message>)
      reads this
    {
      seqNo == last + |contents| && out == before + Numbered(last, contents)
    }

    /** writeEvent. */
    method WriteEvent(content: Content)
      modifies this`seqNo, this`out
      ensures Now() == old(Now()) && Wrote([content], old(seqNo), old(out))
    {
      NumberedOne(seqNo, content);
      seqNo := seqNo + 1;
      out := out + [Message(seqNo, content)];
    }

    method ThreadIDFor(key: string) returns (id: int, isNew: bool)
      modifies this`threadIDs, this`nextTID
      ensures var t := Table(old(threadIDs), old(nextTID));
              id == IdFor(t, key) && isNew == (key !in t.ids) && Table(threadIDs, nextTID) == Admit(t, key)
    {
      if key in threadIDs {
        return threadIDs[key], false;
      }
      id := nextTID;
      nextTID := nextTID + 1;
      threadIDs := threadIDs[key := id];
      isNew := true;
    }

    method AllocVar(v: Fields) returns (id: int)
      modifies this`varRefs, this`nextVar
      ensures id == old(nextVar) && nextVar == id + 1 && varRefs == old(varRefs)[id := v]
    {
      id := nextVar;
      nextVar := nextVar + 1;
      varRefs := varRefs[id := v];
    }

    /** onSpan. */
    method OnSpan(span: Span)
      modifies this
      ensures Now() == After(style, old(Now()), span)
      ensures Wrote(EventsFor(style, old(Now()), span), old(seqNo), old(out))
    {
      var tid, isNew := ThreadIDFor(ThreadKey(style.threadBy, span));
      WriteIntroduction(tid, isNew, style.lineFor(span));
      var scopeRef := AllocVar(SpanAsMap(span));
      ghost var introduction := (if isNew then [ThreadStarted(tid)] else []) + [Output(style.lineFor(span))];
      var stop := StoppedWithSpan(StopAt(span, tid), span, scopeRef);
      DidMore(old(out), old(seqNo), introduction, [stop, Continued(tid)]);
      Assoc(if isNew then [ThreadStarted(tid)] else [], [Output(style.lineFor(span))], [stop, Continued(tid)]);
      WritePair(stop, Continued(tid));
    }

    /** The thread event of a new thread, and the console line. */
    method WriteIntroduction(tid: int, isNew: bool, line: string)
      modifies this`seqNo, this`out
      ensures Now() == old(Now())
      ensures Wrote((if isNew then [ThreadStarted(tid)] else []) + [Output(line)], old(seqNo), old(out))
    {
      if isNew {
        DidMore(out, seqNo, [ThreadStarted(tid)], [Output(line)]);
        WriteEvent(ThreadStarted(tid));
      }
      WriteEvent(Output(line));
    }

    method WritePair(first: Content, second: Content)
      modifies this`seqNo, this`out
      ensures Now() == old(Now()) && Wrote([first, second], old(seqNo), old(out))
    {
      DidMore(out, seqNo, [first], [second]);
      WriteEvent(first);
      WriteEvent(second);
    }

    /** What lib.Replay does with onSpan. */
    method EmitSpans(spans: seq<Span>)
      requires Now() == START
      modifies this
      ensures Now() == AfterAll(style, spans)
      ensures Wrote(EventsForAll(style, spans), old(seqNo), old(out))
    {
      ghost var now, told: seq<Content> := Now(), [];
      for i := 0 to |spans|
        invariant now == AfterAll(style, spans[..i]) && told == EventsForAll(style, spans[..i])
        invariant Now() == now && Wrote(told, old(seqNo), old(out))
      {
        EventsNext(style, spans, i);
        ghost var more := EventsFor(style, now, spans[i]);
        DidMore(old(out), old(seqNo), told, more);
        OnSpan(spans[i]);
        now, told := Now(), told + more;
      }
      assert spans[..|spans|] == spans;
    }

    /** emitCmd: initialize, every span, and terminate unless reading the trace failed. */
    method Emit(spans: seq<Span>, ok: bool)
      requires Now() == START && seqNo == 0 && out == []
      modifies this
      ensures Now() == AfterAll(style, spans)
      ensures out == Numbered(0, Emission(style, spans, ok))
    {
      ghost var head, body := [Initialized, Process], EventsForAll(style, spans);
      ghost var tail := if ok then [Output(style.summary), Terminated] else [];
      DidMore([], 0, head, body);
      DidMore([], 0, head + body, tail);
      WritePair(Initialized, Process);
      EmitSpans(spans);
      if ok {
        WritePair(Output(style.summary), Terminated);
      } else {
        Unit(head + body);
      }
      Unit(Numbered(0, Emission(style, spans, ok)));
    }
  }

  lemma EventsNext(style: Style, spans: seq<Span>, i: nat)
    requires i < |spans|
    ensures var before := AfterAll(style, spans[..i]);
            AfterAll(style, spans[..i + 1]) == After(style, before, spans[i]) &&
            EventsForAll(style, spans[..i + 1]) == EventsForAll(style, spans[..i]) + EventsFor(style, before, spans[i])
  {
    assert spans[..i + 1][..i] == spans[..i];
  }
}
