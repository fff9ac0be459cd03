/**
 The interactive server (cmd/exec-history-dap/serve.go): its state, what each request does to
 it, and the class whose methods do it in place. Writing to the client is assumed to succeed,
 as the source assumes for all but its error returns.
 */
module DapServer {
  import opened Decimal
  import opened Json
  import opened Text
  import opened DapProtocol
  import opened DapThreads
  import opened DapVariables

  datatype Config = Config(threadBy: ThreadBy, tracePath: string, marshal: Value -> string)

  datatype State = State(
    spans: seq<Span>, cursor: int, threads: Table, refs: Refs, nextVar: int, stopped: bool, terminated: bool)

  const INITIAL := State([], -1, NO_THREADS, map[], FIRST_REF, false, false)

  /**
   What a client asks. Launch carries what reading the trace file yields: the spans it appends
   and whether it succeeds; a failed launch leaves the spans read so far.
   */
  datatype Command =
    | Initialize
    | Launch(loaded: seq<Span>, ok: bool)
    | ConfigurationDone
    | Threads
    | StackTrace
    | Scopes
    | VariablesOf(ref: int)
    | Continue
    | Next
    | Disconnect
    | Terminate
    | Unsupported

  datatype Request = Request(seqNo: int, command: Command) | NotARequest

  predicate Advances(c: Command) { c.ConfigurationDone? || c.Continue? || c.Next? }

  predicate Ends(c: Command) { c.Disconnect? || c.Terminate? }

  datatype Handled = Handled(state: State, contents: seq<Content>, done: bool)

  /** Ids and references are allocated without gaps; a stopped server has a current span. */
  ghost predicate Valid(s: State) {
    Filled(s.threads) && Taken(s.refs, s.nextVar) && -1 <= s.cursor && (s.stopped ==> 0 <= s.cursor < |s.spans|)
  }

  function SpanAt(spans: seq<Span>, i: int): Option<Span> {
    if 0 <= i < |spans| then Some(spans[i]) else None
  }

  /** currentSpan. */
  function Current(s: State): Option<Span> {
    if s.stopped then SpanAt(s.spans, s.cursor) else None
  }

  function FramesAt(cfg: Config, s: State): seq<Frame> {
    match Current(s)
    case None => []
    case Some(span) => [Frame(span.spanKind + " (" + span.outcome + ")", span.sdk, cfg.tracePath)]
  }

  /** advanceAndStop: on to the next span, or past the last one. */
  function Advance(cfg: Config, s: State): (State, seq<Content>) {
    match SpanAt(s.spans, s.cursor + 1)
    case None => (s.(cursor := s.cursor + 1, stopped := false, terminated := true), [Terminated])
    case Some(span) =>
      (s.(cursor := s.cursor + 1, stopped := true, threads := Admit(s.threads, ThreadKey(cfg.threadBy, span))),
       Arrival(s.threads, cfg.threadBy, span))
  }

  function OnLaunch(s: State, requestSeq: int, loaded: seq<Span>, ok: bool): Handled {
    Handled(s.(spans := s.spans + loaded),
      if ok then [Response(requestSeq, true, NoBody), Process] else [Response(requestSeq, false, NoBody)], false)
  }

  function Acknowledgement(c: Command): Body { if c.ConfigurationDone? then NoBody else Continuing }

  function OnAdvance(cfg: Config, s: State, requestSeq: int, body: Body): Handled {
    var (next, contents) := Advance(cfg, s);
    Handled(next, [Response(requestSeq, true, body)] + contents, false)
  }

  function OnScopes(s: State, requestSeq: int): Handled {
    match Current(s)
    case None => Handled(s, [Response(requestSeq, true, ScopeRefs([]))], false)
    case Some(span) =>
      Handled(s.(refs := s.refs[s.nextVar := SpanAsMap(span)], nextVar := s.nextVar + 1),
        [Response(requestSeq, true, ScopeRefs([s.nextVar]))], false)
  }

  function OnVariables(cfg: Config, s: State, requestSeq: int, ref: int): Handled {
    if ref !in s.refs then Handled(s, [Response(requestSeq, false, NoBody)], false)
    else
      var l := ListAll(cfg.marshal, s.refs[ref], s.refs, s.nextVar);
      Handled(s.(refs := l.refs, nextVar := l.next), [Response(requestSeq, true, Variables(l.variables))], false)
  }

  function OnEnd(s: State, requestSeq: int): Handled {
    var events := if s.terminated then [] else [Terminated];
    Handled(s.(terminated := true), [Response(requestSeq, true, NoBody)] + events, true)
  }

  /** The requests that neither move the replay nor end the session. */
  ghost function Answer(cfg: Config, s: State, requestSeq: int, c: Command): Handled
    requires Valid(s)
  {
    match c
    case Initialize => Handled(s, [Response(requestSeq, true, Capabilities), Initialized], false)
    case Launch(loaded, ok) => OnLaunch(s, requestSeq, loaded, ok)
    case Threads => Handled(s, [Response(requestSeq, true, ThreadList(Roster(s.threads)))], false)
    case StackTrace => Handled(s, [Response(requestSeq, true, Frames(FramesAt(cfg, s)))], false)
    case Scopes => OnScopes(s, requestSeq)
    case VariablesOf(ref) => OnVariables(cfg, s, requestSeq, ref)
    case _ => Handled(s, [Response(requestSeq, false, NoBody)], false)
  }

  /** What the server does with one request. */
  ghost function Handle(cfg: Config, s: State, r: Request): Handled
    requires Valid(s)
  {
    if r.NotARequest? then Handled(s, [], false)
    else if Advances(r.command) then OnAdvance(cfg, s, r.seqNo, Acknowledgement(r.command))
    else if Ends(r.command) then OnEnd(s, r.seqNo)
    else Answer(cfg, s, r.seqNo, r.command)
  }

  /** varsFromMap on a whole map. */
  function ListAll(marshal: Value -> string, fields: Fields, refs: Refs, next: int): Listing {
    List(marshal, fields, Sorted(fields.Keys), refs, next)
  }

  /** The entries so far and those to come make the whole listing. */
  ghost predicate Completes(variables: seq<Variable>, rest: Listing, all: Listing) {
    variables + rest.variables == all.variables && rest.refs == all.refs && rest.next == all.next
  }

  lemma CompletesNext(variables: seq<Variable>, entry: Variable, rest: Listing, after: Listing, all: Listing)
    requires Completes(variables, rest, all)
    requires rest.variables == [entry] + after.variables && rest.refs == after.refs && rest.next == after.next
    ensures Completes(variables + [entry], after, all)
  {
    Assoc(variables, [entry], after.variables);
  }

  // -----------------------------------------------------------------------------------
  // Every request keeps the state valid and answers once, first

  /** Nothing a client may still refer to is forgotten: references, thread ids, spans. */
  ghost predicate Remembers(s: State, t: State) {
    Keeps(s.refs, t.refs) && s.nextVar <= t.nextVar && s.spans <= t.spans &&
    (forall key :: key in s.threads.ids ==> key in t.threads.ids && t.threads.ids[key] == s.threads.ids[key])
  }

  lemma AdvanceKeepsValid(cfg: Config, s: State)
    requires Valid(s)
    ensures Valid(Advance(cfg, s).0) && Remembers(s, Advance(cfg, s).0)
    ensures forall c :: c in Advance(cfg, s).1 ==> !c.Response?
  {
    if s.cursor + 1 < |s.spans| {
      AdmitKeepsFilled(s.threads, ThreadKey(cfg.threadBy, s.spans[s.cursor + 1]));
    }
  }

  lemma VariablesKeepValid(cfg: Config, s: State, requestSeq: int, ref: int)
    requires Valid(s)
    ensures Valid(OnVariables(cfg, s, requestSeq, ref).state) &&
      Remembers(s, OnVariables(cfg, s, requestSeq, ref).state)
  {
    if ref in s.refs {
      ListGrows(cfg.marshal, s.refs[ref], Sorted(s.refs[ref].Keys), s.refs, s.nextVar);
    }
  }

  lemma ScopesKeepValid(s: State, requestSeq: int)
    requires Valid(s)
    ensures Valid(OnScopes(s, requestSeq).state) && Remembers(s, OnScopes(s, requestSeq).state)
  {
    if Current(s).Some? {
      TakeNext(s.refs, s.nextVar, SpanAsMap(Current(s).value));
    }
  }

  lemma QuietKeepsValid(s: State, t: State)
    requires Valid(s) && t.threads == s.threads && t.refs == s.refs && t.nextVar == s.nextVar
    requires t.cursor == s.cursor && t.stopped == s.stopped && s.spans <= t.spans
    ensures Valid(t) && Remembers(s, t)
  {
  }

  lemma AnswerKeepsValid(cfg: Config, s: State, requestSeq: int, c: Command)
    requires Valid(s)
    ensures Valid(Answer(cfg, s, requestSeq, c).state) && Remembers(s, Answer(cfg, s, requestSeq, c).state)
  {
    match c {
      case Scopes => ScopesKeepValid(s, requestSeq);
      case VariablesOf(ref) => VariablesKeepValid(cfg, s, requestSeq, ref);
      case Launch(loaded, ok) => QuietKeepsValid(s, OnLaunch(s, requestSeq, loaded, ok).state);
      case _ => QuietKeepsValid(s, s);
    }
  }

  /** Every request keeps the state valid and forgets nothing. */
  lemma HandleKeepsValid(cfg: Config, s: State, r: Request)
    requires Valid(s)
    ensures Valid(Handle(cfg, s, r).state) && Remembers(s, Handle(cfg, s, r).state)
  {
    if r.NotARequest? {
      QuietKeepsValid(s, s);
    } else if Advances(r.command) {
      AdvanceKeepsValid(cfg, s);
    } else if Ends(r.command) {
      QuietKeepsValid(s, s.(terminated := true));
    } else {
      AnswerKeepsValid(cfg, s, r.seqNo, r.command);
    }
  }

  /** A single response to the request, before anything else. */
  predicate AnswersOnce(cs: seq<Content>, requestSeq: int) {
    cs != [] && cs[0].Response? && cs[0].requestSeq == requestSeq && forall i :: 1 <= i < |cs| ==> !cs[i].Response?
  }

  /** A request gets exactly one response, before anything else; other messages get none. */
  lemma OneResponseFirst(cfg: Config, s: State, r: Request)
    requires Valid(s)
    ensures var cs := Handle(cfg, s, r).contents;
            if r.NotARequest? then cs == [] else AnswersOnce(cs, r.seqNo)
  {
    if r.Request? {
      if Advances(r.command) {
        AdvanceKeepsValid(cfg, s);
        var cs := Advance(cfg, s).1;
        assert forall i :: 0 <= i < |cs| ==> cs[i] in cs;
      } else if !Ends(r.command) {
        AnswerAnswersOnce(cfg, s, r.seqNo, r.command);
      }
    }
  }

  lemma AnswerAnswersOnce(cfg: Config, s: State, requestSeq: int, c: Command)
    requires Valid(s)
    ensures AnswersOnce(Answer(cfg, s, requestSeq, c).contents, requestSeq)
  {
  }

  // -----------------------------------------------------------------------------------
  // A session: requests one after the other, until one ends it

  ghost function Serve(cfg: Config, s: State, requests: seq<Request>): Handled
    requires Valid(s)
    decreases |requests|
  {
    if requests == [] then Handled(s, [], false)
    else
      var h := Handle(cfg, s, requests[0]);
      HandleKeepsValid(cfg, s, requests[0]);
      if h.done then h
      else
        var rest := Serve(cfg, h.state, requests[1..]);
        rest.(contents := h.contents + rest.contents)
  }

  // -----------------------------------------------------------------------------------
  // The server itself

  class Server {
    const config: Config
    var spans: seq<Span>
    var cursor: int
    var threadIDs: map<string, int>
    var nextTID: int
    var varRefs: Refs
    var nextVar: int
    var stopped: bool
    var terminated: bool
    var seqNo: int
    var out: seq<Message>

    ghost function Now(): State
      reads this
    {
      State(spans, cursor, Table(threadIDs, nextTID), varRefs, nextVar, stopped, terminated)
    }

    constructor (config: Config)
      ensures Now() == INITIAL && seqNo == 0 && out == [] && this.config == config
    {
      this.config := config;
      spans, cursor := [], -1;
      threadIDs, nextTID := map[], 1;
      varRefs, nextVar := map[], FIRST_REF;
      stopped, terminated := false, false;
      seqNo, out := 0, [];
    }

    /** What the fields and the output are after some handling. */
    ghost predicate Did(h: Handled, last: int, before: seq<Message>)
      reads this
    {
      Now() == h.state && seqNo == last + |h.contents| && out == before + Numbered(last, h.contents)
    }

    /** event and respond: both number a message and write it. */
    method Send(content: Content)
      modifies this`seqNo, this`out
      ensures Now() == old(Now())
      ensures seqNo == old(seqNo) + 1
      ensures out == old(out) + Numbered(old(seqNo), [content])
    {
      NumberedOne(seqNo, content);
      seqNo := seqNo + 1;
      out := out + [Message(seqNo, content)];
    }

    method ThreadIDFor(key: string) returns (id: int, isNew: bool)
      modifies this`threadIDs, this`nextTID
      ensures var t := Table(old(threadIDs), old(nextTID));
              id == IdFor(t, key) && isNew == (key !in t.ids) && Table(threadIDs, nextTID) == Admit(t, key)
    {
      if key in threadIDs {
        return threadIDs[key], false;
      }
      id := nextTID;
      nextTID := nextTID + 1;
      threadIDs := threadIDs[key := id];
      isNew := true;
    }

    method AllocVar(v: Fields) returns (id: int)
      modifies this`varRefs, this`nextVar
      ensures id == old(nextVar) && nextVar == id + 1 && varRefs == old(varRefs)[id := v]
    {
      id := nextVar;
      nextVar := nextVar + 1;
      varRefs := varRefs[id := v];
    }

    method AdvanceAndStop()
      modifies this
      ensures Did(Handled(Advance(config, old(Now())).0, Advance(config, old(Now())).1, false), old(seqNo), old(out))
    {
      cursor := cursor + 1;
      if !(0 <= cursor < |spans|) {
        stopped := false;
        terminated := true;
        Send(Terminated);
        return;
      }
      var span := spans[cursor];
      var tid, isNew := ThreadIDFor(ThreadKey(config.threadBy, span));
      stopped := true;
      Announce(tid, isNew, StopAt(span, tid));
    }

    /** The thread event of a new thread, and the stopped event. */
    method Announce(tid: int, isNew: bool, stop: Stop)
      modifies this`seqNo, this`out
      ensures Did(Handled(old(Now()), (if isNew then [ThreadStarted(tid)] else []) + [Stopped(stop)], false),
                  old(seqNo), old(out))
    {
      if isNew {
        NumberedConcat(seqNo, [ThreadStarted(tid)], [Stopped(stop)]);
        Send(ThreadStarted(tid));
      }
      Send(Stopped(stop));
    }

    /** The names behind the thread ids, collected in any order. */
    method CollectThreads() returns (ids: seq<int>, nameByID: map<int, string>)
      requires Filled(Table(threadIDs, nextTID))
      ensures Distinct(ids) && forall x :: x in ids <==> x in nameByID
      ensures forall x :: x in nameByID ==> nameByID[x] in threadIDs && threadIDs[nameByID[x]] == x
      ensures forall k :: k in threadIDs ==> threadIDs[k] in nameByID
    {
      ids, nameByID := [], map[];
      var todo := threadIDs.Keys;
      while todo != {}
        invariant todo <= threadIDs.Keys
        invariant Distinct(ids) && forall x :: x in ids <==> x in nameByID
        invariant forall x :: x in nameByID ==> nameByID[x] in threadIDs && threadIDs[nameByID[x]] == x
        invariant forall k :: k in threadIDs ==> (k in todo <==> threadIDs[k] !in nameByID)
        decreases todo
      {
        var k :| k in todo;
        ids := ids + [threadIDs[k]];
        nameByID := nameByID[threadIDs[k] := k];
        todo := todo - {k};
      }
    }

    /** The threads request: the threads by id. */
    method ListThreads() returns (threads: seq<Thread>)
      requires Filled(Table(threadIDs, nextTID))
      ensures threads == Roster(Table(threadIDs, nextTID))
    {
      ghost var t := Table(threadIDs, nextTID);
      var ids, nameByID := CollectThreads();
      ids := SortInts(ids);
      forall x
        ensures x in ids <==> 1 <= x <= nextTID - 1
      {
        if 1 <= x < nextTID {
          assert HasName(t, x);
        }
      }
      RisingFills(ids, nextTID - 1);
      threads := NameThreads(ids, nameByID);
    }

    method NameThreads(ids: seq<int>, nameByID: map<int, string>) returns (threads: seq<Thread>)
      requires Filled(Table(threadIDs, nextTID))
      requires ids == UpTo(nextTID - 1) && forall id :: 1 <= id < nextTID ==>
        id in nameByID && nameByID[id] in threadIDs && threadIDs[nameByID[id]] == id
      ensures threads == Roster(Table(threadIDs, nextTID))
    {
      ghost var t := Table(threadIDs, nextTID);
      threads := [];
      for i := 0 to |ids|
        invariant |threads| == i && forall j :: 0 <= j < i ==> threads[j] == Thread(j + 1, nameByID[j + 1])
      {
        threads := threads + [Thread(ids[i], nameByID[ids[i]])];
      }
      forall j | 0 <= j < |threads|
        ensures threads[j] == Roster(t)[j]
      {
        assert HasName(t, j + 1);
      }
    }

    /** varsFromMap. */
    method VarsFromMap(m: Fields) returns (variables: seq<Variable>)
      modifies this`varRefs, this`nextVar
      ensures Listing(variables, varRefs, nextVar) == ListAll(config.marshal, m, old(varRefs), old(nextVar))
    {
      variables := MakeEntries(m, Sorted(m.Keys));
    }

    /** Its loop: the counter and the references are updated as the entries are made. */
    method MakeEntries(m: Fields, keys: seq<string>) returns (variables: seq<Variable>)
      modifies this`varRefs, this`nextVar
      ensures Listing(variables, varRefs, nextVar) == List(config.marshal, m, keys, old(varRefs), old(nextVar))
    {
      ghost var all := List(config.marshal, m, keys, varRefs, nextVar);
      assert keys[0..] == keys;
      variables := [];
      for i := 0 to |keys|
        invariant Completes(variables, List(config.marshal, m, keys[i..], varRefs, nextVar), all)
      {
        ListNext(config.marshal, m, keys, i, varRefs, nextVar);
        ghost var rest := List(config.marshal, m, keys[i..], varRefs, nextVar);
        var v := Lookup(m, keys[i]);
        var entry := Variable(keys[i], ValueRepr(config.marshal, v), 0);
        if v.Obj? {
          var ref := nextVar;
          nextVar := nextVar + 1;
          varRefs := varRefs[ref := v.fields];
          entry := entry.(ref := ref, value := ELLIPSIS);
        }
        CompletesNext(variables, entry, rest, List(config.marshal, m, keys[i + 1..], varRefs, nextVar), all);
        variables := variables + [entry];
      }
    }

    method HandleLaunch(requestSeq: int, loaded: seq<Span>, ok: bool)
      modifies this
      ensures Did(OnLaunch(old(Now()), requestSeq, loaded, ok), old(seqNo), old(out))
    {
      spans := spans + loaded;
      if !ok {
        Send(Response(requestSeq, false, NoBody));
      } else {
        NumberedConcat(seqNo, [Response(requestSeq, true, NoBody)], [Process]);
        Send(Response(requestSeq, true, NoBody));
        Send(Process);
      }
    }

    /** configurationDone, continue and next. */
    method HandleAdvance(requestSeq: int, body: Body)
      modifies this
      ensures Did(OnAdvance(config, old(Now()), requestSeq, body), old(seqNo), old(out))
    {
      NumberedConcat(seqNo, [Response(requestSeq, true, body)], Advance(config, Now()).1);
      Send(Response(requestSeq, true, body));
      AdvanceAndStop();
    }

    method HandleScopes(requestSeq: int)
      requires stopped ==> 0 <= cursor < |spans|
      modifies this
      ensures Did(OnScopes(old(Now()), requestSeq), old(seqNo), old(out))
    {
      if !stopped {
        Send(Response(requestSeq, true, ScopeRefs([])));
      } else {
        var ref := AllocVar(SpanAsMap(spans[cursor]));
        Send(Response(requestSeq, true, ScopeRefs([ref])));
      }
    }

    method HandleVariables(requestSeq: int, ref: int)
      modifies this
      ensures Did(OnVariables(config, old(Now()), requestSeq, ref), old(seqNo), old(out))
    {
      if ref !in varRefs {
        Send(Response(requestSeq, false, NoBody));
      } else {
        var variables := VarsFromMap(varRefs[ref]);
        Send(Response(requestSeq, true, Variables(variables)));
      }
    }

    /** disconnect and terminate. */
    method HandleEnd(requestSeq: int)
      modifies this
      ensures Did(OnEnd(old(Now()), requestSeq), old(seqNo), old(out))
    {
      Send(Response(requestSeq, true, NoBody));
      if !terminated {
        NumberedConcat(old(seqNo), [Response(requestSeq, true, NoBody)], [Terminated]);
        Send(Terminated);
        terminated := true;
      }
    }

    /** handle: one request; done means that the server stops reading. */
    method HandleRequest(r: Request) returns (done: bool)
      requires Valid(Now())
      modifies this
      ensures Did(Handle(config, old(Now()), r), old(seqNo), old(out))
      ensures done == Handle(config, old(Now()), r).done
    {
      if r.NotARequest? {
        return false;
      }
      match r.command {
        case ConfigurationDone => HandleAdvance(r.seqNo, NoBody);
        case Continue => HandleAdvance(r.seqNo, Continuing);
        case Next => HandleAdvance(r.seqNo, Continuing);
        case Disconnect => HandleEnd(r.seqNo);
        case Terminate => HandleEnd(r.seqNo);
        case _ => HandleAnswer(r.seqNo, r.command);
      }
      done := Ends(r.command);
    }

    method HandleAnswer(requestSeq: int, c: Command)
      requires Valid(Now())
      modifies this
      ensures Did(Answer(config, old(Now()), requestSeq, c), old(seqNo), old(out))
    {
      match c {
        case Initialize =>
          NumberedConcat(seqNo, [Response(requestSeq, true, Capabilities)], [Initialized]);
          Send(Response(requestSeq, true, Capabilities));
          Send(Initialized);
        case Launch(loaded, ok) => HandleLaunch(requestSeq, loaded, ok);
        case Threads =>
          var threads := ListThreads();
          Send(Response(requestSeq, true, ThreadList(threads)));
        case StackTrace =>
          var frames := [];
          if stopped {
            var span := spans[cursor];
            frames := [Frame(span.spanKind + " (" + span.outcome + ")", span.sdk, config.tracePath)];
          }
          Send(Response(requestSeq, true, Frames(frames)));
        case Scopes => HandleScopes(requestSeq);
        case VariablesOf(ref) => HandleVariables(requestSeq, ref);
        case _ => Send(Response(requestSeq, false, NoBody));
      }
    }

    /** Run: handle the requests until one of them ends the session or the input does. */
    method Run(requests: seq<Request>) returns (done: bool)
      requires Valid(Now()) && seqNo == |out| && InSequence(out)
      modifies this
      ensures Did(Serve(config, old(Now()), requests), old(seqNo), old(out))
      ensures done == Serve(config, old(Now()), requests).done
      ensures Valid(Now()) && seqNo == |out| && InSequence(out)
    {
      ghost var now, contents: seq<Content> := Now(), [];
      ghost var all := Serve(config, now, requests);
      done := false;
      assert requests[0..] == requests;
      var i := 0;
      while i < |requests| && !done
        invariant i <= |requests| && Valid(now)
        invariant Did(Handled(now, contents, false), old(seqNo), old(out))
        invariant Leads(all, contents, Remaining(config, now, requests, i, done))
      {
        LeadsNext(config, now, requests, i, contents, all);
        now, contents, done := Turn(requests[i], now, contents, old(seqNo), old(out));
        i := i + 1;
      }
      Unit(contents);
      StaysInSequence(old(out), contents);
    }

    /** One turn of the loop. */
    method Turn(r: Request, ghost s: State, ghost sent: seq<Content>, ghost last: int, ghost before: seq<Message>)
      returns (ghost t: State, ghost contents: seq<Content>, done: bool)
      requires Valid(s) && Did(Handled(s, sent, false), last, before)
      modifies this
      ensures var h := Handle(config, s, r); t == h.state && contents == sent + h.contents && done == h.done
      ensures Did(Handled(t, contents, false), last, before)
    {
      ghost var h := Handle(config, s, r);
      DidMore(before, last, sent, h.contents);
      done := HandleRequest(r);
      t, contents := h.state, sent + h.contents;
    }
  }

  lemma DidMore(before: seq<Message>, last: int, a: seq<Content>, b: seq<Content>)
    ensures (before + Numbered(last, a)) + Numbered(last + |a|, b) == before + Numbered(last, a + b)
  {
    NumberedConcat(last, a, b);
    Assoc(before, Numbered(last, a), Numbered(last + |a|, b));
  }

  /** Messages are numbered 1, 2, 3, ... */
  ghost predicate InSequence(out: seq<Message>) {
    forall i :: 0 <= i < |out| ==> out[i].seqNo == i + 1
  }

  lemma StaysInSequence(out: seq<Message>, contents: seq<Content>)
    requires InSequence(out)
    ensures InSequence(out + Numbered(|out|, contents))
  {
  }

  /** What was sent so far and what the rest of the session yields make the whole session. */
  ghost predicate Leads(all: Handled, contents: seq<Content>, rest: Handled) {
    rest.state == all.state && rest.done == all.done && contents + rest.contents == all.contents
  }

  /** What the requests from i on yield, if the session is not done. */
  ghost function Remaining(cfg: Config, s: State, requests: seq<Request>, i: nat, done: bool): Handled
    requires Valid(s) && i <= |requests|
  {
    if done then Handled(s, [], true) else Serve(cfg, s, requests[i..])
  }

  /** One turn of the loop. */
  lemma LeadsNext(cfg: Config, s: State, requests: seq<Request>, i: nat, contents: seq<Content>, all: Handled)
    requires Valid(s) && i < |requests|
    requires Leads(all, contents, Remaining(cfg, s, requests, i, false))
    ensures var h := Handle(cfg, s, requests[i]);
            Valid(h.state) && Leads(all, contents + h.contents, Remaining(cfg, h.state, requests, i + 1, h.done))
  {
    HandleKeepsValid(cfg, s, requests[i]);
    assert requests[i..][0] == requests[i] && requests[i..][1..] == requests[i + 1..];
    var h := Handle(cfg, s, requests[i]);
    Assoc(contents, h.contents, Serve(cfg, h.state, requests[i + 1..]).contents);
    Unit(contents + h.contents);
  }
}
