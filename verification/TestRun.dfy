/**
 A whole test case (runTest in runner/http/runner.go and runner/grpc/runner.go): setup, steps,
 teardown and the status, and when it passes, in terms of its steps' requests and assertions.
 */
module TestRun {
  import opened Decimal
  import opened Text
  import opened Template
  import opened StepExecution
  import opened StepMeaning
  import opened Interleaving
  import opened Scheduler
  import opened SchedulerOrder
  import opened Execution

  datatype TestCase = TestCase(setup: seq<Step>, steps: seq<Step>, teardown: seq<Step>)

  // -----------------------------------------------------------------------------------
  // Steps one after the other, without the machinery

  /** What is stored of a step. */
  function ResultIn(world: World, step: Step, bodies: Bodies): StepResult {
    if SaysWait(step.action) then StepResult(step.id, None, None)
    else
      match Answered(world, step, bodies)
      case None => StepResult(step.id, None, None)
      case Some(response) => StepResult(step.id, Some(response), Parsing(world, response))
  }

  /** The step waits, or its request is answered and no assertion has cause to complain. */
  ghost predicate Succeeds(world: World, step: Step, bodies: Bodies) {
    SaysWait(step.action) ||
    (Answered(world, step, bodies).Some? &&
     (step.assertions.Some? ==> forall f ::
        !Complains(world, step, step.assertions.value, bodies, Answered(world, step, bodies).value, f)))
  }

  function StoreBehind(world: World, steps: seq<Step>, store: Store): Store
    decreases |steps|
  {
    if steps == [] then store
    else StoreBehind(world, steps[1..], store[steps[0].id := ResultIn(world, steps[0], BodiesOf(store))])
  }

  ghost predicate AllSucceed(world: World, steps: seq<Step>, store: Store)
    decreases |steps|
  {
    steps == [] ||
    (Succeeds(world, steps[0], BodiesOf(store)) &&
     AllSucceed(world, steps[1..], store[steps[0].id := ResultIn(world, steps[0], BodiesOf(store))]))
  }

  lemma StepSucceeds(world: World, step: Step, store: Store, visit: Visit)
    requires Visits(step, visit)
    ensures var o := ExecuteStep(world, step, store, visit);
            o.result == ResultIn(world, step, BodiesOf(store)) &&
            (o.failures == [] <==> Succeeds(world, step, BodiesOf(store)))
  {
    var bodies := BodiesOf(store);
    if SaysWait(step.action) {
      WaitOnly(world, step, store, visit);
    } else {
      StepSends(world, step, store, bodies, visit);
      StepReports(world, step, store, bodies, visit);
      var failures := ExecuteStep(world, step, store, visit).failures;
      assert failures == [] <==> forall f :: f !in failures by {
        if failures != [] {
          assert failures[0] in failures;
        }
      }
    }
  }

  predicate AllPass(outcomes: seq<StepOutcome>) { forall o :: o in outcomes ==> o.failures == [] }

  lemma AllPassCons(o: StepOutcome, rest: seq<StepOutcome>)
    ensures AllPass([o] + rest) <==> o.failures == [] && AllPass(rest)
  {
    assert forall x :: x in [o] + rest <==> x == o || x in rest;
  }

  /** A sequential run, in these terms. */
  lemma {:induction false} RunSucceeds(world: World, steps: seq<Step>, visits: seq<Visit>, store: Store)
    requires AllVisit(steps, visits)
    ensures var run := RunSequentially(world, steps, visits, store);
            run.store == StoreBehind(world, steps, store) &&
            (AllPass(run.outcomes) <==> AllSucceed(world, steps, store))
    decreases |steps|
  {
    if steps != [] {
      StepSucceeds(world, steps[0], store, visits[0]);
      var o := ExecuteStep(world, steps[0], store, visits[0]);
      RunSucceeds(world, steps[1..], visits[1..], store[steps[0].id := o.result]);
      AllPassCons(o, RunSequentially(world, steps[1..], visits[1..], store[steps[0].id := o.result]).outcomes);
    }
  }

  // -----------------------------------------------------------------------------------
  // When the steps of a test case pass

  ghost function SomeOrder(keys: set<string>): (order: seq<string>)
    ensures multiset(order) == multiset(keys)
  {
    if keys == {} then []
    else
      var key :| key in keys;
      assert keys == {key} + (keys - {key});
      [key] + SomeOrder(keys - {key})
  }

  ghost function SomeVisits(steps: seq<Step>): (visits: seq<Visit>)
    ensures AllVisit(steps, visits)
  {
    seq(|steps|, j requires 0 <= j < |steps| =>
      Visit(SomeOrder(BodyEntries(steps[j]).Keys), SomeOrder(HeaderNames(steps[j]))))
  }

  lemma PassMeaning(world: World, steps: seq<Step>, visits: seq<Visit>, store: Store, results: seq<StepResult>,
      failures: seq<Failure>, final: Store)
    requires AllVisit(steps, visits) && Reports(RunSequentially(world, steps, visits, store), results, failures, final)
    ensures failures == [] <==> AllSucceed(world, steps, store)
    ensures final == StoreBehind(world, steps, store)
  {
    RunSucceeds(world, steps, visits, store);
    PassesExactly(RunSequentially(world, steps, visits, store), results, failures, final);
  }

  /** With the gRPC runner: exactly when each step, taken in order, is answered and nothing complains. */
  lemma GrpcPasses(world: World, steps: seq<Step>, schedules: seq<seq<Event>>, store: Store,
      results: seq<StepResult>, failures: seq<Failure>, final: Store)
    requires DistinctIds(steps) && AllIndependent(Batches(Grpc, steps))
    requires RanAs(world, Batches(Grpc, steps), schedules, store, results, failures, final)
    ensures failures == [] <==> AllSucceed(world, steps, store)
    ensures final == StoreBehind(world, steps, store)
  {
    var visits := SomeVisits(steps);
    GrpcIsSequential(world, steps, schedules, visits, store, results, failures, final);
    PassMeaning(world, steps, visits, store, results, failures, final);
  }

  /** With the HTTP runner too, when it does not repeat steps. */
  lemma HttpPasses(world: World, steps: seq<Step>, schedules: seq<seq<Event>>, store: Store,
      results: seq<StepResult>, failures: seq<Failure>, final: Store)
    requires DistinctIds(steps) && AllIndependent(Batches(Http, steps)) && NoStraggler(Members(steps), steps)
    requires RanAs(world, Batches(Http, steps), schedules, store, results, failures, final)
    ensures failures == [] <==> AllSucceed(world, steps, store)
    ensures final == StoreBehind(world, steps, store)
  {
    var visits := SomeVisits(steps);
    HttpIsSequential(world, steps, schedules, visits, store, results, failures, final);
    PassMeaning(world, steps, visits, store, results, failures, final);
  }

  // -----------------------------------------------------------------------------------
  // The test case

  /** The steps ran, as some schedules have it, and left these failures. */
  ghost predicate Ran(runner: Runner, world: World, steps: seq<Step>, store: Store, failures: seq<Failure>) {
    exists schedules, results, final :: RanAs(world, Batches(runner, steps), schedules, store, results, failures, final)
  }

  /** runTest: the status and the failures of a test case. */
  method RunTest(runner: Runner, world: World, test: TestCase) returns (status: string, failures: seq<Failure>)
    ensures status == "error" || status == "fail" || status == "pass"
    ensures status == "error" <==> !AllSucceed(world, test.setup, map[])
    ensures status != "error" ==> Ran(runner, world, test.steps, StoreBehind(world, test.setup, map[]), failures)
    ensures status != "error" ==> (status == "pass" <==> failures == [])
    ensures status == "error" ==> |failures| == 1 && failures[0].field == ""
  {
    var stepResults: Store := map[];
    assert test.setup[0..] == test.setup;
    for k := 0 to |test.setup|
      invariant AllSucceed(world, test.setup[k..], stepResults) <==> AllSucceed(world, test.setup, map[])
      invariant StoreBehind(world, test.setup[k..], stepResults) == StoreBehind(world, test.setup, map[])
    {
      var step := test.setup[k];
      assert test.setup[k..][0] == step && test.setup[k..][1..] == test.setup[k + 1..];
      var visit := ChooseVisit(step);
      var o := RunStep(world, step, stepResults, visit);
      StepSucceeds(world, step, stepResults, visit);
      stepResults := stepResults[step.id := o.result];
      if |o.failures| > 0 {
        return "error", [Failure(step.id, "")];
      }
    }
    var results, found, final := ExecuteStepsWithParallel(runner, world, test.steps, stepResults);
    final := RunTeardown(world, test.teardown, final);
    failures := found;
    status := if |failures| > 0 then "fail" else "pass";
  }

  /** Teardown steps run one after the other, whatever they report. */
  method RunTeardown(world: World, teardown: seq<Step>, start: Store) returns (stepResults: Store)
    ensures stepResults == StoreBehind(world, teardown, start)
  {
    stepResults := start;
    assert teardown[0..] == teardown;
    for k := 0 to |teardown|
      invariant StoreBehind(world, teardown[k..], stepResults) == StoreBehind(world, teardown, start)
    {
      assert teardown[k..][0] == teardown[k] && teardown[k..][1..] == teardown[k + 1..];
      var visit := ChooseVisit(teardown[k]);
      var o := RunStep(world, teardown[k], stepResults, visit);
      StepSucceeds(world, teardown[k], stepResults, visit);
      stepResults := stepResults[teardown[k].id := o.result];
    }
  }

  /** A test case with independent groups passes exactly when its setup and its steps succeed, taken in order. */
  lemma TestPasses(runner: Runner, world: World, test: TestCase, failures: seq<Failure>)
    requires DistinctIds(test.steps) && AllIndependent(Batches(runner, test.steps))
    requires runner == Http ==> NoStraggler(Members(test.steps), test.steps)
    requires Ran(runner, world, test.steps, StoreBehind(world, test.setup, map[]), failures)
    ensures AllSucceed(world, test.setup, map[]) && failures == []
      <==> AllSucceed(world, test.setup + test.steps, map[])
  {
    var store := StoreBehind(world, test.setup, map[]);
    var schedules, results, final :|
      RanAs(world, Batches(runner, test.steps), schedules, store, results, failures, final);
    match runner {
      case Http => HttpPasses(world, test.steps, schedules, store, results, failures, final);
      case Grpc => GrpcPasses(world, test.steps, schedules, store, results, failures, final);
    }
    SucceedInTurn(world, test.setup, test.steps, map[]);
  }

  lemma {:induction false} SucceedInTurn(world: World, a: seq<Step>, b: seq<Step>, store: Store)
    ensures AllSucceed(world, a + b, store)
      <==> AllSucceed(world, a, store) && AllSucceed(world, b, StoreBehind(world, a, store))
    decreases |a|
  {
    if a == [] {
      Unit(b);
    } else {
      TailOfConcat(a, b);
      SucceedInTurn(world, a[1..], b, store[a[0].id := ResultIn(world, a[0], BodiesOf(store))]);
    }
  }
}
