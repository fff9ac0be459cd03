/**
 What one step does, in terms of the test case, the results stored so far and the response:
 what it sends, what it stores and what it reports (runner/http/runner.go, executeStep and
 evaluateAssertions).
 */
module StepMeaning {
  import opened Decimal
  import opened Json
  import opened Matcher
  import opened Sequences
  import opened PathResolve
  import opened Template
  import opened StepExecution

  // -----------------------------------------------------------------------------------
  // The texts of a step

  /** The parsed bodies of the stored results. */
  ghost predicate BodiesIn(store: Store, bodies: Bodies) {
    forall id :: (id in bodies <==> id in store) && (id in bodies ==> bodies[id] == store[id].parsed)
  }

  lemma BodiesAre(store: Store, bodies: Bodies)
    requires BodiesIn(store, bodies)
    ensures BodiesOf(store) == bodies
  {
  }

  function RequestText(world: World, step: Step, bodies: Bodies): string {
    ResolveTemplates(world.out, step.path, bodies)
  }

  function RequestBodyText(world: World, step: Step, bodies: Bodies): Option<string> {
    if step.body.Some? then Some(ResolveTemplates(world.out, step.body.value, bodies)) else None
  }

  /** A text of the step, resolved. */
  lemma TextOf(world: World, step: Step, store: Store, bodies: Bodies, slot: Slot)
    requires BodiesIn(store, bodies) && slot in Slots(step)
    ensures At(ResolveAll(world, step, store), slot) == ResolveTemplates(world.out, SlotText(step, slot), bodies)
  {
    BodiesAre(store, bodies);
  }

  lemma RequestSlots(step: Step)
    ensures RequestPath in Slots(step) && (RequestBody in Slots(step) <==> step.body.Some?)
    ensures SlotText(step, RequestPath) == step.path
    ensures step.body.Some? ==> SlotText(step, RequestBody) == step.body.value
  {
  }

  lemma RequestTexts(world: World, step: Step, store: Store, bodies: Bodies)
    requires BodiesIn(store, bodies)
    ensures var texts := ResolveAll(world, step, store);
            At(texts, RequestPath) == RequestText(world, step, bodies) &&
            (if step.body.Some? then Some(At(texts, RequestBody)) else None) == RequestBodyText(world, step, bodies)
  {
    RequestSlots(step);
    TextOf(world, step, store, bodies, RequestPath);
    if step.body.Some? {
      TextOf(world, step, store, bodies, RequestBody);
    }
  }

  lemma EntrySlots(step: Step, path: string)
    ensures EntryPath(path) in Slots(step) <==> path in BodyEntries(step)
    ensures EntryMatcher(path) in Slots(step) <==> path in BodyEntries(step)
    ensures SlotText(step, EntryPath(path)) == path
    ensures path in BodyEntries(step) ==> SlotText(step, EntryMatcher(path)) == BodyEntries(step)[path]
  {
  }

  lemma OrSlots(step: Step, i: nat, path: string)
    ensures OrMatcher(i, path) in Slots(step) <==> i < |Alternatives(step)| && path in Alternatives(step)[i]
    ensures i < |Alternatives(step)| && path in Alternatives(step)[i] ==>
      SlotText(step, OrMatcher(i, path)) == Alternatives(step)[i][path]
  {
  }

  lemma OrTexts(world: World, step: Step, a: Assertions, store: Store, bodies: Bodies, i: nat, path: string)
    requires BodiesIn(store, bodies) && step.assertions == Some(a) && a.body.Some? && a.orAlternatives.Some?
    requires i < |a.orAlternatives.value| && path in a.orAlternatives.value[i]
    ensures At(ResolveAll(world, step, store), OrMatcher(i, path))
      == ResolveTemplates(world.out, a.orAlternatives.value[i][path], bodies)
  {
    OrSlots(step, i, path);
    TextOf(world, step, store, bodies, OrMatcher(i, path));
  }

  // -----------------------------------------------------------------------------------
  // What each kind of assertion complains about

  /** The matcher, as text, accepts the value. */
  predicate Accepts(world: World, matcher: string, v: Value) {
    var m := world.decode(matcher);
    m.Some? && Matches(world.lib, m.value, v)
  }

  /** $ alone, or $ and anything but a dot: an operator, not a path. */
  predicate IsDollarWord(path: string) { path != "" && path[0] == '$' && (|path| == 1 || path[1] != '.') }

  /** A path without a value, unless the matcher wants it absent, or with one the matcher refuses. */
  predicate Disagrees(world: World, path: string, matcher: string, doc: Value) {
    match Resolve(world.lib.render, path, doc)
    case Err => world.decode(matcher) != Some(Str("absent"))
    case Ok(v) => !Accepts(world, matcher, v)
  }

  /** A body assertion fails, path and matcher resolved against the stored bodies. */
  predicate EntryFails(world: World, entries: Entries, path: string, bodies: Bodies, doc: Value) {
    path in entries && !IsDollarWord(path) &&
    Disagrees(world, ResolveTemplates(world.out, path, bodies), ResolveTemplates(world.out, entries[path], bodies), doc)
  }

  /** An alternative fails with any of its paths. */
  ghost predicate AlternativeFails(world: World, alternative: Entries, bodies: Bodies, doc: Value) {
    exists path :: path in alternative &&
      var r := Resolve(world.lib.render, path, doc);
      r == Err || !Accepts(world, ResolveTemplates(world.out, alternative[path], bodies), r.value)
  }

  ghost predicate AllAlternativesFail(world: World, alternatives: seq<Entries>, bodies: Bodies, doc: Value) {
    forall i :: 0 <= i < |alternatives| ==> AlternativeFails(world, alternatives[i], bodies, doc)
  }

  predicate IsThere(world: World, path: string, doc: Value) {
    var r := Resolve(world.lib.render, path, doc);
    r != Err && r != Ok(Null)
  }

  /** The parsed body: an object, or nothing. */
  function Parsing(world: World, response: Response): Option<map<string, Value>> {
    if response.body != "" && world.decode(response.body).Some? && world.decode(response.body).value.Obj? then
      Some(world.decode(response.body).value.fields)
    else None
  }

  function ParsedDocument(world: World, response: Response): Value {
    Obj(if Parsing(world, response).Some? then Parsing(world, response).value else map[])
  }

  /** The failure is one that some assertion of the step has cause for. */
  ghost predicate Complains(world: World, step: Step, a: Assertions, bodies: Bodies, response: Response, f: Failure) {
    f in world.checkStatus(step, response) ||
    (f == Failure(step.id, "$or") && a.body.Some? && a.orAlternatives.Some? &&
     AllAlternativesFail(world, a.orAlternatives.value, bodies, ParsedDocument(world, response))) ||
    (f.stepID == step.id && a.body.Some? && Parsing(world, response).Some? &&
     EntryFails(world, a.body.value, f.field, bodies, ParsedDocument(world, response))) ||
    (f.stepID == step.id && f.field in a.bodyAbsent && IsThere(world, f.field, ParsedDocument(world, response))) ||
    (exists name :: name in a.headers && f in world.checkHeader(step, response, name)) ||
    f in world.checkRest(step, response)
  }

  lemma OrReports(world: World, step: Step, a: Assertions, store: Store, bodies: Bodies, doc: Value, f: Failure)
    requires BodiesIn(store, bodies) && step.assertions == Some(a)
    ensures f in OrFailures(world, step, ResolveAll(world, step, store), doc) <==>
      f == Failure(step.id, "$or") && a.body.Some? && a.orAlternatives.Some? &&
      AllAlternativesFail(world, a.orAlternatives.value, bodies, doc)
  {
    var texts := ResolveAll(world, step, store);
    if a.body.Some? && a.orAlternatives.Some? {
      forall i | 0 <= i < |a.orAlternatives.value|
        ensures AlternativeHolds(world, step, i, texts, doc)
          <==> !AlternativeFails(world, a.orAlternatives.value[i], bodies, doc)
      {
        AlternativeReports(world, step, a, store, bodies, doc, i);
      }
    }
  }

  lemma AlternativeReports(world: World, step: Step, a: Assertions, store: Store, bodies: Bodies, doc: Value, i: nat)
    requires BodiesIn(store, bodies) && step.assertions == Some(a) && a.body.Some? && a.orAlternatives.Some?
    requires i < |a.orAlternatives.value|
    ensures AlternativeHolds(world, step, i, ResolveAll(world, step, store), doc)
      <==> !AlternativeFails(world, a.orAlternatives.value[i], bodies, doc)
  {
    var texts := ResolveAll(world, step, store);
    var alternative := a.orAlternatives.value[i];
    forall path | path in alternative
      ensures PathHolds(world, i, path, texts, doc) <==>
        var r := Resolve(world.lib.render, path, doc);
        !(r == Err || !Accepts(world, ResolveTemplates(world.out, alternative[path], bodies), r.value))
    {
      OrTexts(world, step, a, store, bodies, i, path);
    }
  }

  lemma DollarWords(path: string)
    ensures IsOperator(path) <==> IsDollarWord(path)
  {
  }

  lemma FailingDisagrees(world: World, path: string, texts: Texts, doc: Value)
    ensures FailsEntry(world, path, texts, doc) <==>
      !IsDollarWord(path) && Disagrees(world, At(texts, EntryPath(path)), At(texts, EntryMatcher(path)), doc)
  {
    DollarWords(path);
  }

  lemma EntryReports(world: World, step: Step, a: Assertions, store: Store, bodies: Bodies, doc: Value, path: string)
    requires BodiesIn(store, bodies) && step.assertions == Some(a) && a.body.Some? && path in a.body.value
    ensures FailsEntry(world, path, ResolveAll(world, step, store), doc)
      <==> EntryFails(world, a.body.value, path, bodies, doc)
  {
    EntrySlots(step, path);
    TextOf(world, step, store, bodies, EntryPath(path));
    TextOf(world, step, store, bodies, EntryMatcher(path));
    FailingDisagrees(world, path, ResolveAll(world, step, store), doc);
  }

  lemma EntriesReport(world: World, step: Step, a: Assertions, store: Store, bodies: Bodies, doc: Value,
      order: seq<string>, f: Failure)
    requires BodiesIn(store, bodies) && step.assertions == Some(a)
    requires forall p :: p in order <==> a.body.Some? && p in a.body.value
    ensures f in BodyFailures(world, step, order, ResolveAll(world, step, store), doc)
      <==> f.stepID == step.id && a.body.Some? && EntryFails(world, a.body.value, f.field, bodies, doc)
  {
    BodyFailuresMeaning(world, step, order, ResolveAll(world, step, store), doc);
    if f.field in order {
      EntryReports(world, step, a, store, bodies, doc, f.field);
    }
  }

  lemma AbsentReports(world: World, step: Step, paths: seq<string>, doc: Value, f: Failure)
    ensures f in AbsentFailures(world, step, paths, doc)
      <==> f.stepID == step.id && f.field in paths && IsThere(world, f.field, doc)
  {
    InFlatMap(AbsentCheck(world, step, doc), paths, f);
  }

  lemma HeadersReport(world: World, step: Step, a: Assertions, response: Response, order: seq<string>, f: Failure)
    requires forall name :: name in order <==> name in a.headers
    ensures f in FlatMap(HeaderCheck(world, step, response), order)
      <==> exists name :: name in a.headers && f in world.checkHeader(step, response, name)
  {
    InFlatMap(HeaderCheck(world, step, response), order, f);
    var check := HeaderCheck(world, step, response);
    assert forall name :: check(name) == world.checkHeader(step, response, name);
  }

  lemma VisitsEach(step: Step, a: Assertions, visit: Visit)
    requires step.assertions == Some(a) && Visits(step, visit)
    ensures forall p :: p in visit.entries <==> a.body.Some? && p in a.body.value
    ensures forall name :: name in visit.headers <==> name in a.headers
  {
    forall p ensures p in visit.entries <==> a.body.Some? && p in a.body.value {
      assert p in visit.entries <==> p in multiset(visit.entries);
    }
    forall name ensures name in visit.headers <==> name in a.headers {
      assert name in visit.headers <==> name in multiset(visit.headers);
    }
  }

  lemma ParsedAs(world: World, response: Response)
    ensures ParseBody(world, response.body) == Parsing(world, response)
    ensures StepExecution.Document(ParseBody(world, response.body)) == ParsedDocument(world, response)
  {
  }

  /** Evaluation reports a failure exactly when some assertion has cause for it. */
  lemma EvaluationReports(world: World, step: Step, a: Assertions, store: Store, bodies: Bodies, response: Response,
      visit: Visit, f: Failure)
    requires BodiesIn(store, bodies) && step.assertions == Some(a) && Visits(step, visit)
    ensures var sr := StepResult(step.id, Some(response), Parsing(world, response));
            f in EvaluateAssertions(world, step, ResolveAll(world, step, store), sr, visit)
            <==> Complains(world, step, a, bodies, response, f)
  {
    var doc := ParsedDocument(world, response);
    VisitsEach(step, a, visit);
    OrReports(world, step, a, store, bodies, doc, f);
    EntriesReport(world, step, a, store, bodies, doc, visit.entries, f);
    AbsentReports(world, step, a.bodyAbsent, doc, f);
    HeadersReport(world, step, a, response, visit.headers, f);
  }

  // -----------------------------------------------------------------------------------
  // The whole step

  predicate SaysWait(action: string) {
    |action| == 4 && (action[0] == 'w' || action[0] == 'W') && (action[1] == 'a' || action[1] == 'A') &&
    (action[2] == 'i' || action[2] == 'I') && (action[3] == 't' || action[3] == 'T')
  }

  lemma LowerAt(s: string, k: nat)
    requires k < |s|
    ensures |Lower(s)| == |s| && Lower(s)[k] == if 'A' <= s[k] <= 'Z' then (s[k] as int + 32) as char else s[k]
  {
    if k > 0 {
      LowerAt(s[1..], k - 1);
    } else if |s| > 1 {
      LowerAt(s[1..], 0);
    }
  }

  lemma WaitIsSaid(action: string)
    ensures IsWait(action) <==> SaysWait(action)
  {
    if |action| == 4 {
      LowerAt(action, 0);
      LowerAt(action, 1);
      LowerAt(action, 2);
      LowerAt(action, 3);
      var l := Lower(action);
      assert l == [l[0], l[1], l[2], l[3]];
    }
  }

  /** What the request of a step gets for an answer, if it is no wait. */
  function Answered(world: World, step: Step, bodies: Bodies): Option<Response> {
    world.send(step, RequestText(world, step, bodies), RequestBodyText(world, step, bodies))
  }

  /** A wait sends nothing, stores nothing but its id and reports nothing. */
  lemma WaitOnly(world: World, step: Step, store: Store, visit: Visit)
    requires SaysWait(step.action)
    ensures ExecuteStep(world, step, store, visit) == StepOutcome(StepResult(step.id, None, None), [])
  {
    WaitIsSaid(step.action);
  }

  lemma StepSends(world: World, step: Step, store: Store, bodies: Bodies, visit: Visit)
    requires !SaysWait(step.action) && BodiesIn(store, bodies)
    ensures ExecuteStep(world, step, store, visit).result == match Answered(world, step, bodies)
      case None => StepResult(step.id, None, None)
      case Some(response) => StepResult(step.id, Some(response), Parsing(world, response))
  {
    WaitIsSaid(step.action);
    RequestTexts(world, step, store, bodies);
    if Answered(world, step, bodies).Some? {
      ParsedAs(world, Answered(world, step, bodies).value);
    }
  }

  /**
   What a step reports: one failure without a field if its request gets no answer; else the
   failures some assertion has cause for, and none without assertions.
   */
  lemma StepReports(world: World, step: Step, store: Store, bodies: Bodies, visit: Visit)
    requires !SaysWait(step.action) && BodiesIn(store, bodies) && Visits(step, visit)
    ensures var failures := ExecuteStep(world, step, store, visit).failures;
            match Answered(world, step, bodies)
            case None => failures == [Failure(step.id, "")]
            case Some(response) =>
              if step.assertions.None? then failures == []
              else forall f :: f in failures <==> Complains(world, step, step.assertions.value, bodies, response, f)
  {
    WaitIsSaid(step.action);
    RequestTexts(world, step, store, bodies);
    if Answered(world, step, bodies).Some? && step.assertions.Some? {
      var response := Answered(world, step, bodies).value;
      ParsedAs(world, response);
      forall f
        ensures f in ExecuteStep(world, step, store, visit).failures
          <==> Complains(world, step, step.assertions.value, bodies, response, f)
      {
        EvaluationReports(world, step, step.assertions.value, store, bodies, response, visit, f);
      }
    }
  }

  // -----------------------------------------------------------------------------------
  // Which steps a step depends on

  /** A step names what its path, its body, its assertions or its alternatives refer to. */
  lemma NamesExactly(step: Step, id: string)
    ensures Names(step, id) <==>
      id in NamedSteps(step.path) || (step.body.Some? && id in NamedSteps(step.body.value)) ||
      (step.assertions.Some? && step.assertions.value.body.Some? &&
       (EntriesName(step.assertions.value.body.value, id) ||
        (step.assertions.value.orAlternatives.Some? &&
         AlternativesName(step.assertions.value.orAlternatives.value, id))))
  {
    NamesBySlot(step, id);
    RequestSlots(step);
    EntriesAreNamed(step, id);
    AlternativesAreNamed(step, id);
  }

  /** Some text of the given kind refers to the step. */
  ghost predicate NamesIn(step: Step, kind: Slot -> bool, id: string) {
    exists slot :: slot in Slots(step) && kind(slot) && id in NamedSteps(SlotText(step, slot))
  }

  lemma NamesBySlot(step: Step, id: string)
    ensures Names(step, id) <==>
      (RequestPath in Slots(step) && id in NamedSteps(SlotText(step, RequestPath))) ||
      (RequestBody in Slots(step) && id in NamedSteps(SlotText(step, RequestBody))) ||
      NamesIn(step, (slot: Slot) => slot.EntryPath? || slot.EntryMatcher?, id) ||
      NamesIn(step, (slot: Slot) => slot.OrMatcher?, id)
  {
    var entry, alternative := (slot: Slot) => slot.EntryPath? || slot.EntryMatcher?, (slot: Slot) => slot.OrMatcher?;
    if slot :| slot in Slots(step) && id in NamedSteps(SlotText(step, slot)) {
      assert slot.RequestPath? || slot.RequestBody? || entry(slot) || alternative(slot);
    }
  }

  ghost predicate EntriesName(entries: Entries, id: string) {
    exists p :: p in entries && (id in NamedSteps(p) || id in NamedSteps(entries[p]))
  }

  ghost predicate AlternativesName(alternatives: seq<Entries>, id: string) {
    exists i, p :: 0 <= i < |alternatives| && p in alternatives[i] && id in NamedSteps(alternatives[i][p])
  }

  lemma EntriesAreNamed(step: Step, id: string)
    ensures EntriesName(BodyEntries(step), id)
      <==> NamesIn(step, (slot: Slot) => slot.EntryPath? || slot.EntryMatcher?, id)
  {
    var entry := (slot: Slot) => slot.EntryPath? || slot.EntryMatcher?;
    if p :| p in BodyEntries(step) && (id in NamedSteps(p) || id in NamedSteps(BodyEntries(step)[p])) {
      EntrySlots(step, p);
      assert entry(EntryPath(p)) && entry(EntryMatcher(p));
    }
    if slot :| slot in Slots(step) && entry(slot) && id in NamedSteps(SlotText(step, slot)) {
      EntrySlots(step, slot.path);
    }
  }

  lemma AlternativesAreNamed(step: Step, id: string)
    ensures AlternativesName(Alternatives(step), id) <==> NamesIn(step, (slot: Slot) => slot.OrMatcher?, id)
  {
    var alternative := (slot: Slot) => slot.OrMatcher?;
    var alternatives := Alternatives(step);
    if i: nat, p :| i < |alternatives| && p in alternatives[i] && id in NamedSteps(alternatives[i][p]) {
      OrSlots(step, i, p);
      assert alternative(OrMatcher(i, p));
    }
    if slot :| slot in Slots(step) && alternative(slot) && id in NamedSteps(SlotText(step, slot)) {
      OrSlots(step, slot.alternative, slot.path);
    }
  }
}
