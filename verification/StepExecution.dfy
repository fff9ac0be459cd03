/**
 One step of a test case (runner/http/runner.go, executeStep and evaluateAssertions): resolve
 the templates, send the request, evaluate the assertions. The server and the JSON codec are
 parameters; the status, header, timing and substring checks read nothing but the response.
 */
module StepExecution {
  import opened Decimal
  import opened Json
  import opened Matcher
  import opened Sequences
  import opened Text
  import opened PathResolve
  import opened Template

  /** A body assertion block: path text to raw matcher text. */
  type Entries = map<string, string>

  datatype Assertions = Assertions(
    orAlternatives: Option<seq<Entries>>,
    body: Option<Entries>,
    bodyAbsent: seq<string>,
    headers: set<string>)

  datatype Step = Step(
    id: string,
    action: string,
    path: string,
    body: Option<string>,
    parallelWith: string,
    assertions: Option<Assertions>)

  datatype Response = Response(status: int, headers: map<string, string>, body: string, durationMs: int)

  datatype StepResult = StepResult(stepID: string, response: Option<Response>, parsed: Option<map<string, Value>>)

  datatype Failure = Failure(stepID: string, field: string)

  /**
   What lies outside the runner: the server's answer to a resolved request (None when the
   request could not be built or sent), JSON decoding, library renderings and patterns, and the
   checks that need only the response. The answer depends on the request alone: the server has
   no memory.
   */
  datatype World = World(
    send: (Step, string, Option<string>) -> Option<Response>,
    decode: string -> Option<Value>,
    out: Rendering,
    lib: Library,
    checkStatus: (Step, Response) -> seq<Failure>,
    checkHeader: (Step, Response, string) -> seq<Failure>,
    checkRest: (Step, Response) -> seq<Failure>)

  // -----------------------------------------------------------------------------------
  // Where templates occur in a step

  datatype Slot =
    | RequestPath
    | RequestBody
    | OrMatcher(alternative: nat, path: string)
    | EntryPath(path: string)
    | EntryMatcher(path: string)

  function BodyEntries(step: Step): Entries {
    if step.assertions.Some? && step.assertions.value.body.Some? then step.assertions.value.body.value else map[]
  }

  /** The $or block is part of the body assertions; without a body there is none. */
  function OrBlock(step: Step): Option<seq<Entries>> {
    if step.assertions.Some? && step.assertions.value.body.Some? then step.assertions.value.orAlternatives else None
  }

  function Alternatives(step: Step): seq<Entries> {
    if OrBlock(step).Some? then OrBlock(step).value else []
  }

  function Slots(step: Step): set<Slot> {
    {RequestPath}
    + (if step.body.Some? then {RequestBody} else {})
    + (set p | p in BodyEntries(step) :: EntryPath(p))
    + (set p | p in BodyEntries(step) :: EntryMatcher(p))
    + (set i, p | 0 <= i < |Alternatives(step)| && p in Alternatives(step)[i] :: OrMatcher(i, p))
  }

  function SlotText(step: Step, slot: Slot): string {
    match slot
    case RequestPath => step.path
    case RequestBody => if step.body.Some? then step.body.value else ""
    case EntryPath(p) => p
    case EntryMatcher(p) => if p in BodyEntries(step) then BodyEntries(step)[p] else ""
    case OrMatcher(i, p) =>
      if i < |Alternatives(step)| && p in Alternatives(step)[i] then Alternatives(step)[i][p] else ""
  }

  /** The steps whose results a step's templates name. */
  ghost predicate Names(step: Step, id: string) {
    exists slot :: slot in Slots(step) && id in NamedSteps(SlotText(step, slot))
  }

  // -----------------------------------------------------------------------------------
  // Execution, once the texts are resolved

  type Store = map<string, StepResult>

  type Texts = map<Slot, string>

  function BodiesOf(store: Store): Bodies {
    map id | id in store :: store[id].parsed
  }

  function ResolveSlot(world: World, step: Step, slot: Slot, store: Store): string {
    ResolveTemplates(world.out, SlotText(step, slot), BodiesOf(store))
  }

  function ResolveAll(world: World, step: Step, store: Store): Texts {
    map slot | slot in Slots(step) :: ResolveSlot(world, step, slot, store)
  }

  /** One reference of one text: a read of the results. */
  datatype Point = Point(slot: Slot, index: nat)

  type Reads = map<Point, Parsed>

  function ReferencesAt(step: Step, slot: Slot): seq<Reference> { References(SlotText(step, slot)) }

  function Points(step: Step): set<Point> {
    set slot, i | slot in Slots(step) && 0 <= i < |ReferencesAt(step, slot)| :: Point(slot, i)
  }

  function ReadAt(step: Step, point: Point, store: Store): Parsed
    requires point in Points(step)
  {
    Answer(ReferencesAt(step, point.slot)[point.index], BodiesOf(store))
  }

  function AnswersAt(found: Reads, slot: Slot, n: nat): (answers: seq<Parsed>)
    ensures |answers| == n
  {
    seq(n, (i: nat) => if Point(slot, i) in found then found[Point(slot, i)] else None)
  }

  /** A text, resolved from the reads of its references. */
  function TextFrom(world: World, step: Step, slot: Slot, found: Reads): string {
    ResolveWith(world.out, SlotText(step, slot), AnswersAt(found, slot, |ReferencesAt(step, slot)|))
  }

  function TextsFrom(world: World, step: Step, found: Reads): Texts {
    map slot | slot in Slots(step) :: TextFrom(world, step, slot, found)
  }

  function At(texts: Texts, slot: Slot): string {
    if slot in texts then texts[slot] else ""
  }

  function ParseBody(world: World, body: string): Option<map<string, Value>> {
    if body == "" then None
    else
      match world.decode(body)
      case Some(Obj(fields)) => Some(fields)
      case _ => None
  }

  /** A nil map and an empty object resolve paths alike. */
  function Document(parsed: Option<map<string, Value>>): Value {
    Obj(if parsed.Some? then parsed.value else map[])
  }

  predicate MatchesText(world: World, matcher: string, v: Value) {
    var m := world.decode(matcher);
    m.Some? && Matches(world.lib, m.value, v)
  }

  predicate EntryHolds(world: World, path: string, matcher: string, doc: Value) {
    match Resolve(world.lib.render, path, doc)
    case Ok(v) => MatchesText(world, matcher, v)
    case Err => world.decode(matcher) == Some(Str("absent"))
  }

  /** $or at the top of a body: a path that does not resolve fails, whatever the matcher. */
  predicate AlternativeHolds(world: World, step: Step, i: nat, texts: Texts, doc: Value)
    requires i < |Alternatives(step)|
  {
    forall p :: p in Alternatives(step)[i] ==> PathHolds(world, i, p, texts, doc)
  }

  predicate PathHolds(world: World, i: nat, path: string, texts: Texts, doc: Value) {
    var r := Resolve(world.lib.render, path, doc);
    r.Ok? && MatchesText(world, At(texts, OrMatcher(i, path)), r.value)
  }

  function OrFailures(world: World, step: Step, texts: Texts, doc: Value): seq<Failure> {
    if OrBlock(step).Some? &&
       (forall i :: 0 <= i < |Alternatives(step)| ==> !AlternativeHolds(world, step, i, texts, doc))
    then [Failure(step.id, "$or")] else []
  }

  /** Top-level operators are skipped, "$." paths are not. */
  predicate IsOperator(path: string) { "$" <= path && !("$." <= path) }

  function EntryFailures(world: World, step: Step, path: string, texts: Texts, doc: Value): seq<Failure> {
    if IsOperator(path) || EntryHolds(world, At(texts, EntryPath(path)), At(texts, EntryMatcher(path)), doc)
    then [] else [Failure(step.id, path)]
  }

  function EntryCheck(world: World, step: Step, texts: Texts, doc: Value): string -> seq<Failure> {
    path => EntryFailures(world, step, path, texts, doc)
  }

  function BodyFailures(world: World, step: Step, order: seq<string>, texts: Texts, doc: Value): seq<Failure> {
    FlatMap(EntryCheck(world, step, texts, doc), order)
  }

  function AbsentCheck(world: World, step: Step, doc: Value): string -> seq<Failure> {
    path =>
      var r := Resolve(world.lib.render, path, doc);
      if r.Ok? && !r.value.Null? then [Failure(step.id, path)] else []
  }

  function AbsentFailures(world: World, step: Step, paths: seq<string>, doc: Value): seq<Failure> {
    FlatMap(AbsentCheck(world, step, doc), paths)
  }

  function HeaderCheck(world: World, step: Step, response: Response): string -> seq<Failure> {
    name => world.checkHeader(step, response, name)
  }

  /**
   The order in which one evaluation visits the maps of a step: its body assertions and its
   header assertions. Go chooses it anew at every range over a map.
   */
  datatype Visit = Visit(entries: seq<string>, headers: seq<string>)

  function HeaderNames(step: Step): set<string> {
    if step.assertions.Some? then step.assertions.value.headers else {}
  }

  /** Every key once. */
  predicate Visits(step: Step, visit: Visit) {
    multiset(visit.entries) == multiset(BodyEntries(step).Keys) &&
    multiset(visit.headers) == multiset(HeaderNames(step))
  }

  /** What is reported before the header assertions are looked at. */
  function FailuresBeforeHeaders(world: World, step: Step, texts: Texts, sr: StepResult, response: Response,
      entries: seq<string>): seq<Failure>
    requires step.assertions.Some?
  {
    var doc := Document(sr.parsed);
    ((world.checkStatus(step, response)
    + OrFailures(world, step, texts, doc))
    + (if sr.parsed.Some? then BodyFailures(world, step, entries, texts, doc) else []))
    + AbsentFailures(world, step, step.assertions.value.bodyAbsent, doc)
  }

  function EvaluateAssertions(world: World, step: Step, texts: Texts, sr: StepResult, visit: Visit): seq<Failure> {
    if step.assertions.None? || sr.response.None? then []
    else
      var response := sr.response.value;
      (FailuresBeforeHeaders(world, step, texts, sr, response, visit.entries)
      + FlatMap(HeaderCheck(world, step, response), visit.headers))
      + world.checkRest(step, response)
  }

  predicate IsWait(action: string) { |action| == 4 && Lower(action) == "wait" }

  /** strings.EqualFold against an ASCII word. */
  function Lower(s: string): string {
    if s == "" then ""
    else [if 'A' <= s[0] <= 'Z' then (s[0] as int + 32) as char else s[0]] + Lower(s[1..])
  }

  datatype StepOutcome = StepOutcome(result: StepResult, failures: seq<Failure>)

  /** The outcome of a step as a function of its resolved texts and of the order of visiting. */
  function Finish(world: World, step: Step, texts: Texts, visit: Visit): StepOutcome {
    if IsWait(step.action) then StepOutcome(StepResult(step.id, None, None), [])
    else
      var body := if step.body.Some? then Some(At(texts, RequestBody)) else None;
      match world.send(step, At(texts, RequestPath), body)
      case None => StepOutcome(StepResult(step.id, None, None), [Failure(step.id, "")])
      case Some(response) =>
        var sr := StepResult(step.id, Some(response), ParseBody(world, response.body));
        StepOutcome(sr, EvaluateAssertions(world, step, texts, sr, visit))
  }

  /** executeStep(step, stepResults): every template read from one store. */
  function ExecuteStep(world: World, step: Step, store: Store, visit: Visit): (o: StepOutcome)
    ensures o.result.stepID == step.id
  {
    Finish(world, step, ResolveAll(world, step, store), visit)
  }

  // -----------------------------------------------------------------------------------
  // A step depends only on the results it names

  lemma SlotFrame(world: World, step: Step, slot: Slot, a: Store, b: Store)
    requires slot in Slots(step)
    requires forall id :: Names(step, id) ==> (id in a <==> id in b) && (id in a ==> a[id] == b[id])
    ensures ResolveSlot(world, step, slot, a) == ResolveSlot(world, step, slot, b)
  {
    forall id | id in NamedSteps(SlotText(step, slot))
      ensures (id in BodiesOf(a) <==> id in BodiesOf(b)) && (id in BodiesOf(a) ==> BodiesOf(a)[id] == BodiesOf(b)[id])
    {
      assert Names(step, id);
    }
    TemplateFrame(world.out, SlotText(step, slot), BodiesOf(a), BodiesOf(b));
  }

  lemma StepFrame(world: World, step: Step, a: Store, b: Store, visit: Visit)
    requires forall id :: Names(step, id) ==> (id in a <==> id in b) && (id in a ==> a[id] == b[id])
    ensures ResolveAll(world, step, a) == ResolveAll(world, step, b)
    ensures ExecuteStep(world, step, a, visit) == ExecuteStep(world, step, b, visit)
  {
    forall slot | slot in Slots(step)
      ensures ResolveSlot(world, step, slot, a) == ResolveSlot(world, step, slot, b)
    {
      SlotFrame(world, step, slot, a, b);
    }
  }

  lemma ReadFrame(step: Step, point: Point, a: Store, b: Store)
    requires point in Points(step)
    requires forall id :: Names(step, id) ==> (id in a <==> id in b) && (id in a ==> a[id] == b[id])
    ensures ReadAt(step, point, a) == ReadAt(step, point, b)
  {
    var text := SlotText(step, point.slot);
    ReferencesAreNamed(text);
    assert References(text)[point.index] in References(text);
    assert Names(step, References(text)[point.index].id);
  }

  /** Reads of one state of the results, made one reference at a time, give the texts resolved against it. */
  lemma ReadsGiveTexts(world: World, step: Step, found: Reads, store: Store)
    requires found.Keys == Points(step)
    requires forall point :: point in found ==> found[point] == ReadAt(step, point, store)
    ensures TextsFrom(world, step, found) == ResolveAll(world, step, store)
  {
    forall slot | slot in Slots(step)
      ensures TextFrom(world, step, slot, found) == ResolveSlot(world, step, slot, store)
    {
      var n := |ReferencesAt(step, slot)|;
      var answers := AnswersAt(found, slot, n);
      forall i | 0 <= i < n ensures answers[i] == Answer(ReferencesAt(step, slot)[i], BodiesOf(store)) {
        assert Point(slot, i) in Points(step);
      }
      ReadsResolve(world.out, SlotText(step, slot), BodiesOf(store), answers);
    }
  }

  // -----------------------------------------------------------------------------------
  // The order of visiting

  /** The same result, and the same failures, each as often. */
  ghost predicate Agrees(a: StepOutcome, b: StepOutcome) {
    a.result == b.result && multiset(a.failures) == multiset(b.failures)
  }

  /** Two visiting orders of the same paths report the same failures, each as often. */
  lemma OrderIrrelevant(world: World, step: Step, a: seq<string>, b: seq<string>, texts: Texts, doc: Value)
    requires multiset(a) == multiset(b)
    ensures multiset(BodyFailures(world, step, a, texts, doc)) == multiset(BodyFailures(world, step, b, texts, doc))
  {
    FlatMapPermuted(EntryCheck(world, step, texts, doc), a, b);
  }

  lemma BodyPartAgrees(world: World, step: Step, texts: Texts, sr: StepResult, response: Response, a: seq<string>,
      b: seq<string>)
    requires step.assertions.Some? && multiset(a) == multiset(b)
    ensures multiset(FailuresBeforeHeaders(world, step, texts, sr, response, a))
      == multiset(FailuresBeforeHeaders(world, step, texts, sr, response, b))
  {
    OrderIrrelevant(world, step, a, b, texts, Document(sr.parsed));
  }

  lemma EvaluationAgrees(world: World, step: Step, texts: Texts, sr: StepResult, a: Visit, b: Visit)
    requires Visits(step, a) && Visits(step, b)
    ensures multiset(EvaluateAssertions(world, step, texts, sr, a))
      == multiset(EvaluateAssertions(world, step, texts, sr, b))
  {
    if step.assertions.Some? && sr.response.Some? {
      var response := sr.response.value;
      BodyPartAgrees(world, step, texts, sr, response, a.entries, b.entries);
      FlatMapPermuted(HeaderCheck(world, step, response), a.headers, b.headers);
    }
  }

  /** However the maps of a step are visited, its outcome is the same up to the order of its failures. */
  lemma FinishAgrees(world: World, step: Step, texts: Texts, a: Visit, b: Visit)
    requires Visits(step, a) && Visits(step, b)
    ensures Agrees(Finish(world, step, texts, a), Finish(world, step, texts, b))
  {
    EvaluationAgrees(world, step, texts, Finish(world, step, texts, a).result, a, b);
  }

  /**
   What the body assertions report: nothing exactly when every path that is no operator
   resolves to a value its matcher accepts, or does not resolve and is wanted absent; and
   every path that fails is reported under its name as written.
   */
  lemma {:induction false} BodyFailuresMeaning(world: World, step: Step, order: seq<string>, texts: Texts, doc: Value)
    ensures forall f :: f in BodyFailures(world, step, order, texts, doc) <==>
      f.stepID == step.id && f.field in order && FailsEntry(world, f.field, texts, doc)
    decreases |order|
  {
    if order != [] {
      BodyFailuresMeaning(world, step, order[1..], texts, doc);
      Recons(order);
    }
  }

  /** A path that is evaluated and fails: without a value unless wanted absent, or with one its matcher refuses. */
  predicate FailsEntry(world: World, path: string, texts: Texts, doc: Value) {
    !IsOperator(path) &&
    var r := Resolve(world.lib.render, At(texts, EntryPath(path)), doc);
    var m := world.decode(At(texts, EntryMatcher(path)));
    if r.Err? then m != Some(Str("absent")) else !(m.Some? && Matches(world.lib, m.value, r.value))
  }

  /** Some order of visiting, key by key as the runtime happens to choose. */
  method ChooseVisit(step: Step) returns (visit: Visit)
    ensures Visits(step, visit)
  {
    var entries := ChooseOrder(BodyEntries(step).Keys);
    var headers := ChooseOrder(HeaderNames(step));
    visit := Visit(entries, headers);
  }

  method ChooseOrder(keys: set<string>) returns (order: seq<string>)
    ensures multiset(order) == multiset(keys)
  {
    order := [];
    var rest := keys;
    while rest != {}
      invariant rest <= keys
      invariant multiset(order) == multiset(keys - rest)
      decreases rest
    {
      var key :| key in rest;
      assert keys - (rest - {key}) == (keys - rest) + {key};
      order := order + [key];
      rest := rest - {key};
    }
    assert keys - rest == keys;
  }

  /** The loop over the body assertions, in the given order of visiting. */
  method EvaluateBody(world: World, step: Step, order: seq<string>, texts: Texts, doc: Value)
      returns (failures: seq<Failure>)
    ensures failures == BodyFailures(world, step, order, texts, doc)
  {
    failures := [];
    ghost var check := EntryCheck(world, step, texts, doc);
    ghost var all := FlatMap(check, order);
    assert order[0..] == order;
    for k := 0 to |order|
      invariant failures + FlatMap(check, order[k..]) == all
    {
      FlatMapNext(check, order, k);
      var more := EvaluateEntry(world, step, order[k], texts, doc);
      Assoc(failures, more, FlatMap(check, order[k + 1..]));
      failures := failures + more;
    }
  }

  /** One turn of that loop. */
  method EvaluateEntry(world: World, step: Step, path: string, texts: Texts, doc: Value)
      returns (failures: seq<Failure>)
    ensures failures == EntryFailures(world, step, path, texts, doc)
  {
    if IsOperator(path) {
      return [];
    }
    var val := Resolve(world.lib.render, At(texts, EntryPath(path)), doc);
    var matcher := At(texts, EntryMatcher(path));
    if val.Err? {
      if world.decode(matcher) == Some(Str("absent")) {
        return [];
      }
      return [Failure(step.id, path)];
    }
    if !MatchesText(world, matcher, val.value) {
      return [Failure(step.id, path)];
    }
    return [];
  }

  /** One $or alternative: its paths in any order, until one fails. */
  method MatchAlternative(world: World, step: Step, i: nat, texts: Texts, doc: Value) returns (matched: bool)
    requires i < |Alternatives(step)|
    ensures matched == AlternativeHolds(world, step, i, texts, doc)
  {
    var alternative := Alternatives(step)[i];
    var rest := alternative.Keys;
    while rest != {}
      invariant rest <= alternative.Keys
      invariant forall p :: p in alternative && p !in rest ==> PathHolds(world, i, p, texts, doc)
      decreases rest
    {
      var p :| p in rest;
      rest := rest - {p};
      var val := Resolve(world.lib.render, p, doc);
      if val.Err? || !MatchesText(world, At(texts, OrMatcher(i, p)), val.value) {
        assert !PathHolds(world, i, p, texts, doc);
        return false;
      }
    }
    return true;
  }

  /** The $or block: alternative after alternative, until one matches. */
  method EvaluateOr(world: World, step: Step, texts: Texts, doc: Value) returns (failures: seq<Failure>)
    ensures failures == OrFailures(world, step, texts, doc)
  {
    if OrBlock(step).None? {
      return [];
    }
    var alternatives := OrBlock(step).value;
    for i := 0 to |alternatives|
      invariant forall k :: 0 <= k < i ==> !AlternativeHolds(world, step, k, texts, doc)
    {
      var matched := MatchAlternative(world, step, i, texts, doc);
      if matched {
        return [];
      }
    }
    return [Failure(step.id, "$or")];
  }

  /** The loop over the paths that must be absent. */
  method EvaluateAbsent(world: World, step: Step, paths: seq<string>, doc: Value) returns (failures: seq<Failure>)
    ensures failures == AbsentFailures(world, step, paths, doc)
  {
    failures := [];
    ghost var check := AbsentCheck(world, step, doc);
    assert paths[0..] == paths;
    for k := 0 to |paths|
      invariant failures + FlatMap(check, paths[k..]) == FlatMap(check, paths)
    {
      FlatMapNext(check, paths, k);
      var val := Resolve(world.lib.render, paths[k], doc);
      var more := [];
      if val.Ok? && !val.value.Null? {
        more := [Failure(step.id, paths[k])];
      }
      Assoc(failures, more, FlatMap(check, paths[k + 1..]));
      failures := failures + more;
    }
  }

  /** The loop over the header assertions, in the given order of visiting. */
  method EvaluateHeaders(world: World, step: Step, response: Response, order: seq<string>)
      returns (failures: seq<Failure>)
    ensures failures == FlatMap(HeaderCheck(world, step, response), order)
  {
    failures := [];
    ghost var check := HeaderCheck(world, step, response);
    assert order[0..] == order;
    for k := 0 to |order|
      invariant failures + FlatMap(check, order[k..]) == FlatMap(check, order)
    {
      FlatMapNext(check, order, k);
      var more := world.checkHeader(step, response, order[k]);
      Assoc(failures, more, FlatMap(check, order[k + 1..]));
      failures := failures + more;
    }
  }

  /** evaluateAssertions: status, $or, body, absent fields, headers, and the rest. */
  method Evaluate(world: World, step: Step, texts: Texts, sr: StepResult, visit: Visit)
      returns (failures: seq<Failure>)
    requires step.assertions.Some? && sr.response.Some?
    ensures failures == EvaluateAssertions(world, step, texts, sr, visit)
  {
    var response := sr.response.value;
    var doc := Document(sr.parsed);
    failures := world.checkStatus(step, response);
    var more := EvaluateOr(world, step, texts, doc);
    failures := failures + more;
    if sr.parsed.Some? {
      more := EvaluateBody(world, step, visit.entries, texts, doc);
      failures := failures + more;
    }
    more := EvaluateAbsent(world, step, step.assertions.value.bodyAbsent, doc);
    failures := failures + more;
    more := EvaluateHeaders(world, step, response, visit.headers);
    failures := failures + more;
    failures := failures + world.checkRest(step, response);
  }

  /** executeStep: resolve, send, evaluate. */
  method RunStep(world: World, step: Step, stepResults: Store, visit: Visit) returns (o: StepOutcome)
    ensures o == ExecuteStep(world, step, stepResults, visit)
  {
    if |step.action| == 4 && Lower(step.action) == "wait" {
      return StepOutcome(StepResult(step.id, None, None), []);
    }
    var texts := ResolveAll(world, step, stepResults);
    var path := ResolveTemplates(world.out, step.path, BodiesOf(stepResults));
    var body := None;
    if step.body.Some? {
      body := Some(ResolveTemplates(world.out, step.body.value, BodiesOf(stepResults)));
    }
    var response := world.send(step, path, body);
    if response.None? {
      return StepOutcome(StepResult(step.id, None, None), [Failure(step.id, "")]);
    }
    var sr := StepResult(step.id, response, ParseBody(world, response.value.body));
    var failures := [];
    if step.assertions.Some? {
      failures := Evaluate(world, step, texts, sr, visit);
    }
    return StepOutcome(sr, failures);
  }
}
