/**
 A parallel group as a state machine (runner/http/runner.go:310-338, runner/grpc/runner.go:
 150-178). Each member runs in its own goroutine; a goroutine reads the shared results once
 for each reference in its texts, and when it has made all its reads it computes its outcome
 and stores its result. Reads and writes of the shared map are the atomic steps, in any
 interleaving.
 */
module Interleaving {
  import opened StepExecution
  import opened Template

  datatype Goroutine = Running(found: Reads) | Finished(outcome: StepOutcome)

  datatype Group = Group(store: Store, goroutines: seq<Goroutine>)

  /** A write ends a goroutine, after its step visited its assertions in some order. */
  datatype Event = Read(j: nat, point: Point) | Write(j: nat, visit: Visit)

  function Start(steps: seq<Step>, store: Store): (g: Group)
    ensures |g.goroutines| == |steps|
  {
    Group(store, seq(|steps|, _ => Running(map[])))
  }

  /** A goroutine that is still running may make a read it needs, or finish once it has made all. */
  predicate Enabled(steps: seq<Step>, g: Group, e: Event) {
    |g.goroutines| == |steps| && e.j < |steps| && g.goroutines[e.j].Running? &&
    match e
    case Read(j, point) => point in Points(steps[j])
    case Write(j, visit) => Points(steps[j]) <= g.goroutines[j].found.Keys && Visits(steps[j], visit)
  }

  function Fire(world: World, steps: seq<Step>, g: Group, e: Event): (r: Group)
    requires Enabled(steps, g, e)
    ensures |r.goroutines| == |g.goroutines|
  {
    match e
    case Read(j, point) =>
      var found := g.goroutines[j].found[point := ReadAt(steps[j], point, g.store)];
      g.(goroutines := g.goroutines[j := Running(found)])
    case Write(j, visit) =>
      var o := Finish(world, steps[j], TextsFrom(world, steps[j], g.goroutines[j].found), visit);
      Group(g.store[steps[j].id := o.result], g.goroutines[j := Finished(o)])
  }

  /** The events, one after the other; an event that is not enabled cannot happen and is skipped. */
  function Run(world: World, steps: seq<Step>, g: Group, events: seq<Event>): (r: Group)
    requires |g.goroutines| == |steps|
    ensures |r.goroutines| == |steps|
    decreases |events|
  {
    if events == [] then g
    else if Enabled(steps, g, events[0]) then Run(world, steps, Fire(world, steps, g, events[0]), events[1..])
    else Run(world, steps, g, events[1..])
  }

  predicate AllFinished(g: Group) {
    forall j :: 0 <= j < |g.goroutines| ==> g.goroutines[j].Finished?
  }

  /** What wg.Wait leaves behind, read off in the order of the group. */
  function Outcomes(g: Group): seq<StepOutcome>
    requires AllFinished(g)
  {
    seq(|g.goroutines|, j requires 0 <= j < |g.goroutines| => g.goroutines[j].outcome)
  }

  // -----------------------------------------------------------------------------------
  // The same steps one after the other

  datatype Sequential = Sequential(store: Store, outcomes: seq<StepOutcome>)

  function RunSequentially(world: World, steps: seq<Step>, visits: seq<Visit>, store: Store): (r: Sequential)
    requires |visits| == |steps|
    ensures |r.outcomes| == |steps|
    decreases |steps|
  {
    if steps == [] then Sequential(store, [])
    else
      var o := ExecuteStep(world, steps[0], store, visits[0]);
      var rest := RunSequentially(world, steps[1..], visits[1..], store[steps[0].id := o.result]);
      Sequential(rest.store, [o] + rest.outcomes)
  }

  /** An order of visiting for each step. */
  ghost predicate AllVisit(steps: seq<Step>, visits: seq<Visit>) {
    |visits| == |steps| && forall j :: 0 <= j < |steps| ==> Visits(steps[j], visits[j])
  }

  /** The same final results, and step by step the same outcome up to the order of its failures. */
  ghost predicate SameRun(a: Sequential, b: Sequential) {
    a.store == b.store && |a.outcomes| == |b.outcomes| &&
    forall j :: 0 <= j < |a.outcomes| ==> Agrees(a.outcomes[j], b.outcomes[j])
  }

  /** Members have their own ids and no template of a member names another member. */
  ghost predicate Independent(steps: seq<Step>) {
    forall j, k :: 0 <= j < |steps| && 0 <= k < |steps| && j != k ==>
      steps[j].id != steps[k].id && !Names(steps[j], steps[k].id)
  }

  // -----------------------------------------------------------------------------------
  // Every interleaving: what each goroutine sees and leaves

  /** The outcomes of the members when each is executed against the starting store. */
  ghost predicate StartOutcomes(world: World, steps: seq<Step>, visits: seq<Visit>, start: Store,
      outcomes: seq<StepOutcome>)
    requires |visits| == |steps|
  {
    |outcomes| == |steps| &&
    forall j :: 0 <= j < |steps| ==> outcomes[j] == ExecuteStep(world, steps[j], start, visits[j])
  }

  ghost predicate SameAt(a: Store, b: Store, id: string) {
    (id in a <==> id in b) && (id in b ==> a[id] == b[id])
  }

  /** At id the store holds a finished member's result, or what it held at the start. */
  ghost predicate StoreAt(steps: seq<Step>, outcomes: seq<StepOutcome>, start: Store, g: Group, id: string)
    requires |g.goroutines| == |steps| == |outcomes|
  {
    (forall j :: 0 <= j < |steps| && g.goroutines[j].Finished? && steps[j].id == id ==>
       id in g.store && g.store[id] == outcomes[j].result) &&
    ((forall j :: 0 <= j < |steps| && g.goroutines[j].Finished? ==> steps[j].id != id) ==> SameAt(g.store, start, id))
  }

  ghost predicate GoroutineInv(step: Step, outcome: StepOutcome, start: Store, g: Goroutine) {
    match g
    case Running(found) =>
      found.Keys <= Points(step) && forall point :: point in found ==> found[point] == ReadAt(step, point, start)
    case Finished(o) => Agrees(o, outcome)
  }

  ghost predicate Inv(steps: seq<Step>, outcomes: seq<StepOutcome>, start: Store, g: Group) {
    |g.goroutines| == |steps| == |outcomes| &&
    (forall id :: StoreAt(steps, outcomes, start, g, id)) &&
    forall j :: 0 <= j < |steps| ==> GoroutineInv(steps[j], outcomes[j], start, g.goroutines[j])
  }

  /** A running member finds every result it names as it was at the start. */
  lemma MemberSeesStart(steps: seq<Step>, outcomes: seq<StepOutcome>, start: Store, g: Group, j: nat, id: string)
    requires Independent(steps) && Inv(steps, outcomes, start, g)
    requires j < |steps| && g.goroutines[j].Running? && Names(steps[j], id)
    ensures SameAt(g.store, start, id)
  {
    assert StoreAt(steps, outcomes, start, g, id);
    forall k | 0 <= k < |steps| && g.goroutines[k].Finished?
      ensures steps[k].id != id
    {
      assert k != j;
    }
  }

  lemma ReadKeepsInv(world: World, steps: seq<Step>, outcomes: seq<StepOutcome>, start: Store, g: Group, j: nat,
      point: Point)
    requires Independent(steps) && Inv(steps, outcomes, start, g) && Enabled(steps, g, Read(j, point))
    ensures Inv(steps, outcomes, start, Fire(world, steps, g, Read(j, point)))
  {
    forall id | Names(steps[j], id)
      ensures SameAt(g.store, start, id)
    {
      MemberSeesStart(steps, outcomes, start, g, j, id);
    }
    var r := Fire(world, steps, g, Read(j, point));
    assert GoroutineInv(steps[j], outcomes[j], start, g.goroutines[j]);
    ReadKeepsGoroutine(steps[j], outcomes[j], start, g.goroutines[j].found, point, g.store);
    ReadKeepsStore(steps, outcomes, start, g, r);
  }

  lemma ReadKeepsGoroutine(step: Step, outcome: StepOutcome, start: Store, found: Reads, point: Point, store: Store)
    requires GoroutineInv(step, outcome, start, Running(found)) && point in Points(step)
    requires forall id :: Names(step, id) ==> SameAt(store, start, id)
    ensures GoroutineInv(step, outcome, start, Running(found[point := ReadAt(step, point, store)]))
  {
    ReadFrame(step, point, store, start);
  }

  lemma ReadKeepsStore(steps: seq<Step>, outcomes: seq<StepOutcome>, start: Store, g: Group, r: Group)
    requires |g.goroutines| == |r.goroutines| == |steps| == |outcomes| && r.store == g.store
    requires forall k :: 0 <= k < |steps| ==> (r.goroutines[k].Finished? <==> g.goroutines[k].Finished?)
    requires forall id :: StoreAt(steps, outcomes, start, g, id)
    ensures forall id :: StoreAt(steps, outcomes, start, r, id)
  {
    forall id
      ensures StoreAt(steps, outcomes, start, r, id)
    {
      assert StoreAt(steps, outcomes, start, g, id);
    }
  }

  /** Storing the result of member j moves only the store at its id. */
  lemma WriteStoreAt(steps: seq<Step>, outcomes: seq<StepOutcome>, start: Store, g: Group, r: Group, j: nat, id: string)
    requires |g.goroutines| == |steps| == |outcomes| && j < |steps|
    requires forall k :: 0 <= k < |steps| && k != j ==> steps[k].id != steps[j].id
    requires StoreAt(steps, outcomes, start, g, id)
    requires r.store == g.store[steps[j].id := outcomes[j].result] && |r.goroutines| == |steps|
    requires r.goroutines[j].Finished? && forall k :: 0 <= k < |steps| && k != j ==> r.goroutines[k] == g.goroutines[k]
    ensures StoreAt(steps, outcomes, start, r, id)
  {
  }

  /** A member that finishes has read what it would have read at the start. */
  lemma WriteAgrees(world: World, step: Step, visit: Visit, other: Visit, outcome: StepOutcome, start: Store,
      g: Goroutine)
    requires g.Running? && GoroutineInv(step, outcome, start, g) && Points(step) <= g.found.Keys
    requires outcome == ExecuteStep(world, step, start, other) && Visits(step, visit) && Visits(step, other)
    ensures Agrees(Finish(world, step, TextsFrom(world, step, g.found), visit), outcome)
  {
    assert g.found.Keys == Points(step);
    ReadsGiveTexts(world, step, g.found, start);
    FinishAgrees(world, step, ResolveAll(world, step, start), visit, other);
  }

  lemma WriteKeepsStore(steps: seq<Step>, outcomes: seq<StepOutcome>, start: Store, g: Group, r: Group, j: nat)
    requires |g.goroutines| == |steps| == |outcomes| && j < |steps|
    requires forall k :: 0 <= k < |steps| && k != j ==> steps[k].id != steps[j].id
    requires forall id :: StoreAt(steps, outcomes, start, g, id)
    requires r.store == g.store[steps[j].id := outcomes[j].result] && |r.goroutines| == |steps|
    requires r.goroutines[j].Finished? && forall k :: 0 <= k < |steps| && k != j ==> r.goroutines[k] == g.goroutines[k]
    ensures forall id :: StoreAt(steps, outcomes, start, r, id)
  {
    forall id
      ensures StoreAt(steps, outcomes, start, r, id)
    {
      assert StoreAt(steps, outcomes, start, g, id);
      WriteStoreAt(steps, outcomes, start, g, r, j, id);
    }
  }

  lemma WriteKeepsInv(world: World, steps: seq<Step>, visits: seq<Visit>, outcomes: seq<StepOutcome>, start: Store,
      g: Group, j: nat, visit: Visit)
    requires Independent(steps) && Inv(steps, outcomes, start, g) && Enabled(steps, g, Write(j, visit))
    requires AllVisit(steps, visits) && StartOutcomes(world, steps, visits, start, outcomes)
    ensures Inv(steps, outcomes, start, Fire(world, steps, g, Write(j, visit)))
  {
    assert GoroutineInv(steps[j], outcomes[j], start, g.goroutines[j]);
    WriteAgrees(world, steps[j], visit, visits[j], outcomes[j], start, g.goroutines[j]);
    var texts := TextsFrom(world, steps[j], g.goroutines[j].found);
    InvAfterWrite(steps, outcomes, start, g, j, Finish(world, steps[j], texts, visit));
  }

  lemma InvAfterWrite(steps: seq<Step>, outcomes: seq<StepOutcome>, start: Store, g: Group, j: nat, o: StepOutcome)
    requires Independent(steps) && Inv(steps, outcomes, start, g) && j < |steps| && Agrees(o, outcomes[j])
    ensures Inv(steps, outcomes, start, Group(g.store[steps[j].id := o.result], g.goroutines[j := Finished(o)]))
  {
    var r := Group(g.store[steps[j].id := o.result], g.goroutines[j := Finished(o)]);
    WriteKeepsStore(steps, outcomes, start, g, r, j);
  }

  lemma {:induction false} RunKeepsInv(world: World, steps: seq<Step>, visits: seq<Visit>,
      outcomes: seq<StepOutcome>, start: Store, g: Group, events: seq<Event>)
    requires Independent(steps) && Inv(steps, outcomes, start, g)
    requires AllVisit(steps, visits) && StartOutcomes(world, steps, visits, start, outcomes)
    ensures Inv(steps, outcomes, start, Run(world, steps, g, events))
    decreases |events|
  {
    if events != [] {
      var e := events[0];
      if Enabled(steps, g, e) {
        match e {
          case Read(j, point) => ReadKeepsInv(world, steps, outcomes, start, g, j, point);
          case Write(j, visit) => WriteKeepsInv(world, steps, visits, outcomes, start, g, j, visit);
        }
        RunKeepsInv(world, steps, visits, outcomes, start, Fire(world, steps, g, e), events[1..]);
      } else {
        RunKeepsInv(world, steps, visits, outcomes, start, g, events[1..]);
      }
    }
  }

  // -----------------------------------------------------------------------------------
  // The sequential run, from the same start

  lemma TailIndependent(steps: seq<Step>)
    requires Independent(steps) && steps != []
    ensures Independent(steps[1..])
  {
    var tail := steps[1..];
    forall j, k | 0 <= j < |tail| && 0 <= k < |tail| && j != k
      ensures tail[j].id != tail[k].id && !Names(tail[j], tail[k].id)
    {
      assert tail[j] == steps[j + 1] && tail[k] == steps[k + 1];
    }
  }

  /** Results of steps this one does not name do not matter to it. */
  lemma ForeignResult(world: World, step: Step, visit: Visit, store: Store, id: string, result: StepResult)
    requires !Names(step, id)
    ensures ExecuteStep(world, step, store[id := result], visit) == ExecuteStep(world, step, store, visit)
  {
    StepFrame(world, step, store[id := result], store, visit);
  }

  /** Run after one of them, independent members still do what they would have done before it. */
  lemma StartOutcomesTail(world: World, steps: seq<Step>, visits: seq<Visit>, start: Store, outcomes: seq<StepOutcome>)
    requires Independent(steps) && steps != [] && |visits| == |steps| &&
      StartOutcomes(world, steps, visits, start, outcomes)
    ensures StartOutcomes(world, steps[1..], visits[1..], start[steps[0].id := outcomes[0].result], outcomes[1..])
  {
    forall j | 0 <= j < |steps| - 1
      ensures outcomes[1..][j] == ExecuteStep(world, steps[1..][j], start[steps[0].id := outcomes[0].result],
        visits[1..][j])
    {
      assert outcomes[j + 1] == ExecuteStep(world, steps[j + 1], start, visits[j + 1]);
      ForeignResult(world, steps[j + 1], visits[j + 1], start, steps[0].id, outcomes[0].result);
    }
  }

  /** The store with the results of the members put in, one after the other. */
  ghost function Stored(steps: seq<Step>, outcomes: seq<StepOutcome>, store: Store): Store
    requires |outcomes| == |steps|
    decreases |steps|
  {
    if steps == [] then store
    else Stored(steps[1..], outcomes[1..], store[steps[0].id := outcomes[0].result])
  }

  lemma {:induction false} SequentialIsStart(world: World, steps: seq<Step>, visits: seq<Visit>, start: Store,
      outcomes: seq<StepOutcome>)
    requires Independent(steps) && |visits| == |steps| && StartOutcomes(world, steps, visits, start, outcomes)
    ensures RunSequentially(world, steps, visits, start) == Sequential(Stored(steps, outcomes, start), outcomes)
    decreases |steps|
  {
    if steps != [] {
      TailIndependent(steps);
      StartOutcomesTail(world, steps, visits, start, outcomes);
      SequentialIsStart(world, steps[1..], visits[1..], start[steps[0].id := outcomes[0].result], outcomes[1..]);
      assert outcomes == [outcomes[0]] + outcomes[1..];
    }
  }

  lemma {:induction false} StoredAt(steps: seq<Step>, outcomes: seq<StepOutcome>, store: Store, id: string)
    requires |outcomes| == |steps|
    requires forall j, k :: 0 <= j < k < |steps| ==> steps[j].id != steps[k].id
    ensures forall j :: 0 <= j < |steps| && steps[j].id == id ==>
      id in Stored(steps, outcomes, store) && Stored(steps, outcomes, store)[id] == outcomes[j].result
    ensures (forall j :: 0 <= j < |steps| ==> steps[j].id != id) ==> SameAt(Stored(steps, outcomes, store), store, id)
    decreases |steps|
  {
    if steps != [] {
      var next := store[steps[0].id := outcomes[0].result];
      StoredAt(steps[1..], outcomes[1..], next, id);
      forall j | 0 <= j < |steps| && steps[j].id == id
        ensures id in Stored(steps, outcomes, store) && Stored(steps, outcomes, store)[id] == outcomes[j].result
      {
        if j > 0 {
          assert steps[1..][j - 1].id == id && outcomes[1..][j - 1] == outcomes[j];
        }
      }
    }
  }

  /** With every member finished, the store is the starting store with all results put in. */
  lemma FinishedStore(steps: seq<Step>, outcomes: seq<StepOutcome>, start: Store, g: Group)
    requires Independent(steps) && Inv(steps, outcomes, start, g) && AllFinished(g)
    ensures g.store == Stored(steps, outcomes, start)
  {
    var s := Stored(steps, outcomes, start);
    forall id: string
      ensures id in g.store <==> id in s
      ensures id in g.store ==> g.store[id] == s[id]
    {
      assert StoreAt(steps, outcomes, start, g, id);
      StoredAt(steps, outcomes, start, id);
      if j :| 0 <= j < |steps| && steps[j].id == id {
        assert g.goroutines[j].Finished?;
      }
    }
  }

  ghost function OutcomesAtStart(world: World, steps: seq<Step>, visits: seq<Visit>, start: Store)
      : (outcomes: seq<StepOutcome>)
    requires |visits| == |steps|
    ensures StartOutcomes(world, steps, visits, start, outcomes)
  {
    seq(|steps|, j requires 0 <= j < |steps| => ExecuteStep(world, steps[j], start, visits[j]))
  }

  lemma StartInv(steps: seq<Step>, outcomes: seq<StepOutcome>, start: Store)
    requires |outcomes| == |steps|
    ensures Inv(steps, outcomes, start, Start(steps, start))
  {
  }

  lemma FinishedOutcomes(steps: seq<Step>, outcomes: seq<StepOutcome>, start: Store, g: Group)
    requires Inv(steps, outcomes, start, g) && AllFinished(g)
    ensures |Outcomes(g)| == |outcomes| && forall j :: 0 <= j < |outcomes| ==> Agrees(Outcomes(g)[j], outcomes[j])
  {
    forall j | 0 <= j < |outcomes|
      ensures Agrees(Outcomes(g)[j], outcomes[j])
    {
      assert GoroutineInv(steps[j], outcomes[j], start, g.goroutines[j]);
    }
  }

  /**
   Race freedom: when no member names another, every complete interleaving gives, in group
   order, the results of running the members one after the other, and the same final results
   map; and each member the same failures, whatever the orders of visiting in either run.
   */
  lemma InterleavingIsSequential(world: World, steps: seq<Step>, visits: seq<Visit>, store: Store, events: seq<Event>)
    requires Independent(steps) && AllVisit(steps, visits)
    requires AllFinished(Run(world, steps, Start(steps, store), events))
    ensures var g := Run(world, steps, Start(steps, store), events);
            SameRun(Sequential(g.store, Outcomes(g)), RunSequentially(world, steps, visits, store))
  {
    var outcomes := OutcomesAtStart(world, steps, visits, store);
    var g := Run(world, steps, Start(steps, store), events);
    StartInv(steps, outcomes, store);
    RunKeepsInv(world, steps, visits, outcomes, store, Start(steps, store), events);
    SequentialIsStart(world, steps, visits, store, outcomes);
    FinishedStore(steps, outcomes, store, g);
    FinishedOutcomes(steps, outcomes, store, g);
  }

  // -----------------------------------------------------------------------------------
  // Running a group

  lemma {:induction false} RunSnoc(world: World, steps: seq<Step>, g: Group, events: seq<Event>, e: Event)
    requires |g.goroutines| == |steps|
    requires Enabled(steps, Run(world, steps, g, events), e)
    ensures Run(world, steps, g, events + [e]) == Fire(world, steps, Run(world, steps, g, events), e)
    decreases |events|
  {
    if events == [] {
      assert events + [e] == [e];
      assert Run(world, steps, Fire(world, steps, g, e), [e][1..]) == Fire(world, steps, g, e);
    } else {
      assert (events + [e])[0] == events[0] && (events + [e])[1..] == events[1..] + [e];
      if Enabled(steps, g, events[0]) {
        RunSnoc(world, steps, Fire(world, steps, g, events[0]), events[1..], e);
      } else {
        RunSnoc(world, steps, g, events[1..], e);
      }
    }
  }

  /** The reads a goroutine has still to make. */
  function Unread(step: Step, g: Goroutine): set<Point> {
    match g case Running(found) => Points(step) - found.Keys case Finished(_) => {}
  }

  ghost function StepsLeft(step: Step, g: Goroutine): nat {
    if g.Finished? then 0 else 1 + |Unread(step, g)|
  }

  ghost function Sum(ws: seq<nat>): nat {
    if ws == [] then 0 else ws[0] + Sum(ws[1..])
  }

  lemma {:induction false} SumDecreases(ws: seq<nat>, j: nat, w: nat)
    requires j < |ws| && w < ws[j]
    ensures Sum(ws[j := w]) < Sum(ws)
    decreases |ws|
  {
    if j == 0 {
      assert ws[0 := w][1..] == ws[1..];
    } else {
      assert ws[j := w][1..] == ws[1..][j - 1 := w];
      SumDecreases(ws[1..], j - 1, w);
    }
  }

  ghost function Weights(steps: seq<Step>, gs: seq<Goroutine>): seq<nat>
    requires |gs| == |steps|
  {
    seq(|gs|, j requires 0 <= j < |gs| => StepsLeft(steps[j], gs[j]))
  }

  ghost function Left(steps: seq<Step>, gs: seq<Goroutine>): nat
    requires |gs| == |steps|
  {
    Sum(Weights(steps, gs))
  }

  lemma WeightsUpdate(steps: seq<Step>, gs: seq<Goroutine>, j: nat, g: Goroutine)
    requires |gs| == |steps| && j < |steps|
    ensures Weights(steps, gs[j := g]) == Weights(steps, gs)[j := StepsLeft(steps[j], g)]
  {
  }

  lemma LeftDecreases(steps: seq<Step>, gs: seq<Goroutine>, j: nat, g: Goroutine)
    requires |gs| == |steps| && j < |steps|
    requires StepsLeft(steps[j], g) < StepsLeft(steps[j], gs[j])
    ensures Left(steps, gs[j := g]) < Left(steps, gs)
  {
    WeightsUpdate(steps, gs, j, g);
    SumDecreases(Weights(steps, gs), j, StepsLeft(steps[j], g));
  }

  /** The event is a write, or a read that has not been made. */
  predicate Progress(steps: seq<Step>, g: Group, e: Event)
    requires Enabled(steps, g, e)
  {
    e.Write? || e.point in Unread(steps[e.j], g.goroutines[e.j])
  }

  lemma ReadLeavesLess(step: Step, found: Reads, point: Point, answer: Parsed)
    requires point in Unread(step, Running(found))
    ensures StepsLeft(step, Running(found[point := answer])) < StepsLeft(step, Running(found))
  {
    assert Unread(step, Running(found[point := answer])) == Unread(step, Running(found)) - {point};
  }

  lemma ProgressDecreases(world: World, steps: seq<Step>, g: Group, e: Event)
    requires Enabled(steps, g, e) && Progress(steps, g, e)
    ensures Left(steps, Fire(world, steps, g, e).goroutines) < Left(steps, g.goroutines)
  {
    var before := g.goroutines[e.j].found;
    match e {
      case Read(j, point) =>
        var answer := ReadAt(steps[j], point, g.store);
        ReadLeavesLess(steps[j], before, point, answer);
        LeftDecreases(steps, g.goroutines, j, Running(before[point := answer]));
      case Write(j, visit) =>
        var texts := TextsFrom(world, steps[j], before);
        LeftDecreases(steps, g.goroutines, j, Finished(Finish(world, steps[j], texts, visit)));
    }
  }

  /** A schedule lets every goroutine finish, with these outcomes and this final store. */
  ghost predicate Yields(world: World, steps: seq<Step>, store: Store, events: seq<Event>,
      outcomes: seq<StepOutcome>, final: Store) {
    var g := Run(world, steps, Start(steps, store), events);
    AllFinished(g) && outcomes == Outcomes(g) && final == g.store
  }

  /**
   The goroutines of a group, scheduled arbitrarily: each turn lets any unfinished member make
   one of the reads it needs, or visit its assertions and store its result.
   */
  method RunGroup(world: World, steps: seq<Step>, store: Store) returns (outcomes: seq<StepOutcome>, final: Store)
    ensures exists events :: Yields(world, steps, store, events, outcomes, final)
  {
    var g := Start(steps, store);
    ghost var events: seq<Event> := [];
    while !AllFinished(g)
      invariant g == Run(world, steps, Start(steps, store), events)
      decreases Left(steps, g.goroutines)
    {
      var j: nat :| j < |g.goroutines| && g.goroutines[j].Running?;
      var e := ChooseEvent(steps, g, j);
      RunSnoc(world, steps, Start(steps, store), events, e);
      ProgressDecreases(world, steps, g, e);
      events := events + [e];
      g := Fire(world, steps, g, e);
    }
    outcomes, final := Outcomes(g), g.store;
    assert Yields(world, steps, store, events, outcomes, final);
  }

  lemma MayRead(steps: seq<Step>, g: Group, j: nat, point: Point)
    requires |g.goroutines| == |steps| && j < |steps| && g.goroutines[j].Running?
    requires point in Unread(steps[j], g.goroutines[j])
    ensures Enabled(steps, g, Read(j, point)) && Progress(steps, g, Read(j, point))
  {
  }

  lemma MayWrite(steps: seq<Step>, g: Group, j: nat, visit: Visit)
    requires |g.goroutines| == |steps| && j < |steps| && g.goroutines[j].Running?
    requires Unread(steps[j], g.goroutines[j]) == {} && Visits(steps[j], visit)
    ensures Enabled(steps, g, Write(j, visit)) && Progress(steps, g, Write(j, visit))
  {
    var unread := Points(steps[j]) - g.goroutines[j].found.Keys;
    assert forall point :: point in Points(steps[j]) ==> point in g.goroutines[j].found.Keys || point in unread;
  }

  /** Any event of goroutine j that gets it closer to its result. */
  method ChooseEvent(steps: seq<Step>, g: Group, j: nat) returns (e: Event)
    requires |g.goroutines| == |steps| && j < |steps| && g.goroutines[j].Running?
    ensures Enabled(steps, g, e) && Progress(steps, g, e)
  {
    var unread := Unread(steps[j], g.goroutines[j]);
    if unread != {} {
      var point :| point in unread;
      MayRead(steps, g, j, point);
      e := Read(j, point);
    } else {
      var visit := ChooseVisit(steps[j]);
      MayWrite(steps, g, j, visit);
      e := Write(j, visit);
    }
  }
}
