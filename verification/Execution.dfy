/**
 Running the steps of a test case: the main loop of executeStepsWithParallel with the batches
 it forms and the goroutines it starts (runner/http/runner.go:286-350, runner/grpc/runner.go:
 130-190), and when all of it amounts to running the steps one after the other.
 */
module Execution {
  import opened Text
  import opened StepExecution
  import opened Interleaving
  import opened Scheduler
  import opened SchedulerOrder

  // -----------------------------------------------------------------------------------
  // What a run of the batches can leave behind

  /** A schedule for one batch: it lets every goroutine of a group finish, or runs a single step. */
  ghost predicate Completes(world: World, batch: seq<Step>, schedule: seq<Event>, store: Store) {
    if |batch| == 1 then |schedule| == 1 && schedule[0].Write? && Visits(batch[0], schedule[0].visit)
    else AllFinished(Run(world, batch, Start(batch, store), schedule))
  }

  ghost function AfterBatch(world: World, batch: seq<Step>, schedule: seq<Event>, store: Store): Sequential
    requires Completes(world, batch, schedule, store)
  {
    if |batch| == 1 then RunSequentially(world, batch, [schedule[0].visit], store)
    else
      var g := Run(world, batch, Start(batch, store), schedule);
      Sequential(g.store, Outcomes(g))
  }

  /** One schedule for each batch, and each completes where the batches before it lead. */
  ghost predicate Possible(world: World, batches: seq<seq<Step>>, schedules: seq<seq<Event>>, store: Store)
    decreases |batches|, 0
  {
    |schedules| == |batches| &&
    (batches != [] ==>
      var n := |batches| - 1;
      Possible(world, batches[..n], schedules[..n], store) &&
      Completes(world, batches[n], schedules[n], After(world, batches[..n], schedules[..n], store).store))
  }

  ghost function After(world: World, batches: seq<seq<Step>>, schedules: seq<seq<Event>>, store: Store): Sequential
    requires Possible(world, batches, schedules, store)
    decreases |batches|, 1
  {
    if batches == [] then Sequential(store, [])
    else
      var n := |batches| - 1;
      var before := After(world, batches[..n], schedules[..n], store);
      var last := AfterBatch(world, batches[n], schedules[n], before.store);
      Sequential(last.store, before.outcomes + last.outcomes)
  }

  /** The result of each step, in order. */
  predicate EachResult(results: seq<StepResult>, outcomes: seq<StepOutcome>) {
    |results| == |outcomes| && forall i :: 0 <= i < |results| ==> results[i] == outcomes[i].result
  }

  /** The failures of each step, one step's behind the other's. */
  predicate EachFailure(failures: seq<Failure>, outcomes: seq<StepOutcome>)
    decreases |outcomes|
  {
    if outcomes == [] then failures == []
    else
      var first := outcomes[0].failures;
      first <= failures && EachFailure(failures[|first|..], outcomes[1..])
  }

  lemma {:induction false} EachFailureConcat(f: seq<Failure>, a: seq<StepOutcome>, g: seq<Failure>, b: seq<StepOutcome>)
    requires EachFailure(f, a) && EachFailure(g, b)
    ensures EachFailure(f + g, a + b)
    decreases |a|
  {
    if a == [] {
      Unit(g);
      Unit(b);
    } else {
      var first := a[0].failures;
      TailOfConcat(a, b);
      EachFailureConcat(f[|first|..], a[1..], g, b);
      assert (f + g)[|first|..] == f[|first|..] + g;
    }
  }

  lemma EachFailureOne(o: StepOutcome)
    ensures EachFailure(o.failures, [o])
  {
    assert o.failures[|o.failures|..] == [] && [o][1..] == [];
  }

  // -----------------------------------------------------------------------------------
  // The loops of the source

  method ParallelGroups(steps: seq<Step>) returns (members: set<string>)
    ensures members == Members(steps)
  {
    members := {};
    for k := 0 to |steps|
      invariant members == Members(steps[..k])
    {
      assert steps[..k + 1] == steps[..k] + [steps[k]];
      MembersSnoc(steps[..k], steps[k]);
      if steps[k].parallelWith != "" {
        members := members + {steps[k].id};
        members := members + {steps[k].parallelWith};
      }
    }
    assert steps[..|steps|] == steps;
  }

  lemma MembersSnoc(steps: seq<Step>, s: Step)
    ensures Members(steps + [s]) == Members(steps) + if s.parallelWith != "" then {s.id, s.parallelWith} else {}
  {
  }

  /** The group a member opens, by the runner's own collecting loop; alone if it is the only one. */
  method CollectBatch(runner: Runner, members: set<string>, steps: seq<Step>, i: nat) returns (batch: seq<Step>)
    requires i < |steps|
    ensures batch == BatchAt(runner, members, steps, i)
  {
    var step := steps[i];
    if step.id in members {
      var group;
      match runner {
        case Http => group := CollectHttpGroup(steps[i..], step.id, members);
        case Grpc => group := CollectGrpcGroup(steps[i..], step.id, members);
      }
      if |group| > 1 {
        return group;
      }
    }
    return [step];
  }

  /** A schedule under which a batch leaves these outcomes and this store. */
  ghost predicate Leaves(world: World, batch: seq<Step>, schedule: seq<Event>, store: Store,
      outcomes: seq<StepOutcome>, final: Store) {
    Completes(world, batch, schedule, store) && AfterBatch(world, batch, schedule, store) == Sequential(final, outcomes)
  }

  /** One batch: goroutines for a group, a plain call for a single step. */
  method RunBatch(world: World, batch: seq<Step>, store: Store) returns (outcomes: seq<StepOutcome>, final: Store)
    requires batch != []
    ensures exists schedule :: Leaves(world, batch, schedule, store, outcomes, final)
  {
    if |batch| > 1 {
      outcomes, final := RunGroup(world, batch, store);
      ghost var events :| Yields(world, batch, store, events, outcomes, final);
      assert Leaves(world, batch, events, store, outcomes, final);
    } else {
      var visit := ChooseVisit(batch[0]);
      var o := RunStep(world, batch[0], store, visit);
      OneStep(world, batch, visit, store);
      outcomes, final := [o], store[batch[0].id := o.result];
      assert Leaves(world, batch, [Write(0, visit)], store, outcomes, final);
    }
  }

  /** Results and failures are those of the batches under the given schedules, in batch order. */
  ghost predicate RanAs(world: World, batches: seq<seq<Step>>, schedules: seq<seq<Event>>, store: Store,
    results: seq<StepResult>, failures: seq<Failure>, final: Store)
  {
    Possible(world, batches, schedules, store) &&
    Accumulated(After(world, batches, schedules, store), results, failures, final)
  }

  /**
   executeStepsWithParallel: for some interleaving of the goroutines of each batch, results,
   failures and stored results are those the batches leave behind, in batch order.
   */
  method ExecuteStepsWithParallel(runner: Runner, world: World, steps: seq<Step>, stepResults: Store)
    returns (allResults: seq<StepResult>, allFailures: seq<Failure>, final: Store)
    ensures exists schedules :: RanAs(world, Batches(runner, steps), schedules, stepResults, allResults,
      allFailures, final)
  {
    var members := ParallelGroups(steps);
    allResults, allFailures, final := [], [], stepResults;
    var executed: set<string> := {};
    ghost var done: seq<seq<Step>>, schedules: seq<seq<Event>> := [], [];
    for i := 0 to |steps|
      invariant done + BatchesFrom(runner, members, steps, i, executed) == Batches(runner, steps)
      invariant RanAs(world, done, schedules, stepResults, allResults, allFailures, final)
    {
      if steps[i].id in executed {
        continue;
      }
      var batch := CollectBatch(runner, members, steps, i);
      var outcomes, next := RunBatch(world, batch, final);
      ghost var schedule :| Leaves(world, batch, schedule, final, outcomes, next);
      Assoc(done, [batch], BatchesFrom(runner, members, steps, i + 1, executed + Ids(batch)));
      var results, failures := Gather(outcomes);
      var started := MarkExecuted(batch);
      BatchDone(world, done, schedules, stepResults, batch, schedule, outcomes, next, allResults, allFailures,
        results, failures);
      schedules := schedules + [schedule];
      done := done + [batch];
      allResults := allResults + results;
      allFailures := allFailures + failures;
      final := next;
      executed := executed + started;
    }
    Unit(done);
    assert RanAs(world, Batches(runner, steps), schedules, stepResults, allResults, allFailures, final);
  }

  /** The loop over the outcomes of a batch. */
  method Gather(outcomes: seq<StepOutcome>) returns (results: seq<StepResult>, failures: seq<Failure>)
    ensures EachResult(results, outcomes) && EachFailure(failures, outcomes)
  {
    results, failures := [], [];
    for k := 0 to |outcomes|
      invariant EachResult(results, outcomes[..k]) && EachFailure(failures, outcomes[..k])
    {
      assert outcomes[..k + 1] == outcomes[..k] + [outcomes[k]];
      EachFailureOne(outcomes[k]);
      EachFailureConcat(failures, outcomes[..k], outcomes[k].failures, [outcomes[k]]);
      results := results + [outcomes[k].result];
      failures := failures + outcomes[k].failures;
    }
    assert outcomes[..|outcomes|] == outcomes;
  }

  method MarkExecuted(batch: seq<Step>) returns (ids: set<string>)
    ensures ids == Ids(batch)
  {
    ids := {};
    for k := 0 to |batch|
      invariant ids == Ids(batch[..k])
    {
      assert batch[..k + 1] == batch[..k] + [batch[k]];
      ids := ids + {batch[k].id};
    }
    assert batch[..|batch|] == batch;
  }

  ghost predicate Accumulated(run: Sequential, results: seq<StepResult>, failures: seq<Failure>, store: Store) {
    store == run.store && EachResult(results, run.outcomes) && EachFailure(failures, run.outcomes)
  }

  /** One more batch: what has been accumulated stays what the batches so far leave behind. */
  lemma BatchDone(world: World, done: seq<seq<Step>>, schedules: seq<seq<Event>>, store: Store, batch: seq<Step>,
      schedule: seq<Event>, outcomes: seq<StepOutcome>, next: Store, results: seq<StepResult>, failures: seq<Failure>,
      moreResults: seq<StepResult>, moreFailures: seq<Failure>)
    requires Possible(world, done, schedules, store)
    requires var before := After(world, done, schedules, store);
             Accumulated(before, results, failures, before.store) &&
             Leaves(world, batch, schedule, before.store, outcomes, next)
    requires EachResult(moreResults, outcomes) && EachFailure(moreFailures, outcomes)
    ensures RanAs(world, done + [batch], schedules + [schedule], store,
              results + moreResults, failures + moreFailures, next)
  {
    var before := After(world, done, schedules, store);
    AfterSnoc(world, done, schedules, store, batch, schedule);
    EachFailureConcat(failures, before.outcomes, moreFailures, outcomes);
  }

  lemma AfterSnoc(world: World, batches: seq<seq<Step>>, schedules: seq<seq<Event>>, store: Store,
      batch: seq<Step>, schedule: seq<Event>)
    requires Possible(world, batches, schedules, store)
    requires Completes(world, batch, schedule, After(world, batches, schedules, store).store)
    ensures Possible(world, batches + [batch], schedules + [schedule], store)
    ensures var before := After(world, batches, schedules, store);
            var last := AfterBatch(world, batch, schedule, before.store);
            After(world, batches + [batch], schedules + [schedule], store)
            == Sequential(last.store, before.outcomes + last.outcomes)
  {
    assert (batches + [batch])[..|batches|] == batches;
    assert (schedules + [schedule])[..|batches|] == schedules;
  }

  // -----------------------------------------------------------------------------------
  // Parallel execution is sequential execution

  lemma OneStep(world: World, batch: seq<Step>, visit: Visit, store: Store)
    requires |batch| == 1
    ensures var o := ExecuteStep(world, batch[0], store, visit);
            RunSequentially(world, batch, [visit], store) == Sequential(store[batch[0].id := o.result], [o])
  {
    assert batch[1..] == [] && [visit][1..] == [];
  }

  function Prepend(o: StepOutcome, r: Sequential): Sequential { Sequential(r.store, [o] + r.outcomes) }

  lemma SequentialCons(world: World, s: Step, tail: seq<Step>, visit: Visit, visits: seq<Visit>, store: Store)
    requires |visits| == |tail|
    ensures var o := ExecuteStep(world, s, store, visit);
            RunSequentially(world, [s] + tail, [visit] + visits, store)
            == Prepend(o, RunSequentially(world, tail, visits, store[s.id := o.result]))
  {
    Uncons(s, tail);
    Uncons(visit, visits);
  }

  /** One run, then another from the store it left. */
  function Chain(world: World, first: Sequential, b: seq<Step>, visits: seq<Visit>): Sequential
    requires |visits| == |b|
  {
    var second := RunSequentially(world, b, visits, first.store);
    Sequential(second.store, first.outcomes + second.outcomes)
  }

  lemma ChainPrepend(world: World, o: StepOutcome, first: Sequential, b: seq<Step>, visits: seq<Visit>)
    requires |visits| == |b|
    ensures Chain(world, Prepend(o, first), b, visits) == Prepend(o, Chain(world, first, b, visits))
  {
    var second := RunSequentially(world, b, visits, first.store).outcomes;
    Assoc([o], first.outcomes, second);
  }

  lemma {:induction false} SequentialConcat(world: World, a: seq<Step>, va: seq<Visit>, b: seq<Step>,
      vb: seq<Visit>, store: Store)
    requires |va| == |a| && |vb| == |b|
    ensures RunSequentially(world, a + b, va + vb, store) == Chain(world, RunSequentially(world, a, va, store), b, vb)
    decreases |a|
  {
    if a == [] {
      Unit(b);
      Unit(vb);
      Unit(RunSequentially(world, b, vb, store).outcomes);
    } else {
      var s, tail, v, rest := a[0], a[1..], va[0], va[1..];
      var o := ExecuteStep(world, s, store, v);
      Recons(a);
      Recons(va);
      Assoc([s], tail, b);
      Assoc([v], rest, vb);
      SequentialCons(world, s, tail, v, rest, store);
      SequentialCons(world, s, tail + b, v, rest + vb, store);
      SequentialConcat(world, tail, rest, b, vb, store[s.id := o.result]);
      ChainPrepend(world, o, RunSequentially(world, tail, rest, store[s.id := o.result]), b, vb);
    }
  }

  lemma {:induction false} FlattenSnoc(batches: seq<seq<Step>>, batch: seq<Step>)
    ensures Flatten(batches + [batch]) == Flatten(batches) + batch
    decreases |batches|
  {
    if batches == [] {
      assert batches + [batch] == [batch];
      assert Flatten([batch][1..]) == [];
    } else {
      assert (batches + [batch])[0] == batches[0] && (batches + [batch])[1..] == batches[1..] + [batch];
      FlattenSnoc(batches[1..], batch);
    }
  }

  lemma BatchIsSequential(world: World, batch: seq<Step>, schedule: seq<Event>, visits: seq<Visit>, store: Store)
    requires Completes(world, batch, schedule, store) && Independent(batch) && AllVisit(batch, visits)
    ensures SameRun(AfterBatch(world, batch, schedule, store), RunSequentially(world, batch, visits, store))
  {
    if |batch| == 1 {
      Unsnoc(visits);
      assert visits == [visits[0]];
      OneStep(world, batch, visits[0], store);
      OneStep(world, batch, schedule[0].visit, store);
      FinishAgrees(world, batch[0], ResolveAll(world, batch[0], store), schedule[0].visit, visits[0]);
    } else {
      InterleavingIsSequential(world, batch, visits, store, schedule);
    }
  }

  lemma SameRunsChain(a: Sequential, b: Sequential, c: Sequential, d: Sequential)
    requires SameRun(a, b) && SameRun(c, d)
    ensures SameRun(Sequential(c.store, a.outcomes + c.outcomes), Sequential(d.store, b.outcomes + d.outcomes))
  {
  }

  lemma VisitsSplit(a: seq<Step>, b: seq<Step>, visits: seq<Visit>)
    requires AllVisit(a + b, visits)
    ensures AllVisit(a, visits[..|a|]) && AllVisit(b, visits[|a|..]) && visits[..|a|] + visits[|a|..] == visits
  {
    assert forall j :: 0 <= j < |a| ==> (a + b)[j] == a[j];
    assert forall j :: 0 <= j < |b| ==> (a + b)[|a| + j] == b[j];
  }

  ghost predicate AllIndependent(batches: seq<seq<Step>>) { forall b :: b in batches ==> Independent(b) }

  /**
   With independent batches, no interleaving and no order of visiting can be told from running the
   batches in line.
   */
  lemma {:induction false} BatchesAreSequential(world: World, batches: seq<seq<Step>>, schedules: seq<seq<Event>>,
      visits: seq<Visit>, store: Store)
    requires Possible(world, batches, schedules, store) && AllIndependent(batches)
    requires AllVisit(Flatten(batches), visits)
    ensures SameRun(After(world, batches, schedules, store), RunSequentially(world, Flatten(batches), visits, store))
    decreases |batches|
  {
    if batches != [] {
      var n := |batches| - 1;
      Unsnoc(batches);
      assert batches[n] in batches && forall b :: b in batches[..n] ==> b in batches;
      var first := Flatten(batches[..n]);
      FlattenSnoc(batches[..n], batches[n]);
      VisitsSplit(first, batches[n], visits);
      var va, vb := visits[..|first|], visits[|first|..];
      BatchesAreSequential(world, batches[..n], schedules[..n], va, store);
      var before := After(world, batches[..n], schedules[..n], store);
      BatchIsSequential(world, batches[n], schedules[n], vb, before.store);
      SequentialConcat(world, first, va, batches[n], vb, store);
      SameRunsChain(before, RunSequentially(world, first, va, store),
        AfterBatch(world, batches[n], schedules[n], before.store),
        RunSequentially(world, batches[n], vb, before.store));
    }
  }

  // -----------------------------------------------------------------------------------
  // What the runners return

  /** How often the steps report a failure. */
  function Occurrences(f: Failure, outcomes: seq<StepOutcome>): nat {
    if outcomes == [] then 0 else multiset(outcomes[0].failures)[f] + Occurrences(f, outcomes[1..])
  }

  /** Each step's result, each failure as often as the steps report it, and the final store of the run. */
  ghost predicate Reports(run: Sequential, results: seq<StepResult>, failures: seq<Failure>, final: Store) {
    EachResult(results, run.outcomes) &&
    (forall f :: multiset(failures)[f] == Occurrences(f, run.outcomes)) &&
    final == run.store
  }

  lemma {:induction false} FailuresCounted(failures: seq<Failure>, outcomes: seq<StepOutcome>, f: Failure)
    requires EachFailure(failures, outcomes)
    ensures multiset(failures)[f] == Occurrences(f, outcomes)
    decreases |outcomes|
  {
    if outcomes != [] {
      var n := |outcomes[0].failures|;
      FailuresCounted(failures[n..], outcomes[1..], f);
      assert failures == outcomes[0].failures + failures[n..];
    }
  }

  lemma {:induction false} AgreeingOutcomes(a: seq<StepOutcome>, b: seq<StepOutcome>, f: Failure)
    requires |a| == |b| && forall j :: 0 <= j < |a| ==> Agrees(a[j], b[j])
    ensures Occurrences(f, a) == Occurrences(f, b)
    decreases |a|
  {
    if a != [] {
      assert Agrees(a[0], b[0]);
      AgreeingOutcomes(a[1..], b[1..], f);
    }
  }

  lemma SameRunReports(a: Sequential, b: Sequential, results: seq<StepResult>, failures: seq<Failure>, final: Store)
    requires SameRun(a, b) && Accumulated(a, results, failures, final)
    ensures Reports(b, results, failures, final)
  {
    assert forall j :: 0 <= j < |a.outcomes| ==> Agrees(a.outcomes[j], b.outcomes[j]);
    forall f ensures multiset(failures)[f] == Occurrences(f, b.outcomes) {
      FailuresCounted(failures, a.outcomes, f);
      AgreeingOutcomes(a.outcomes, b.outcomes, f);
    }
  }

  lemma {:induction false} SomeOccurrence(f: Failure, outcomes: seq<StepOutcome>)
    ensures Occurrences(f, outcomes) > 0 <==> exists o :: o in outcomes && f in o.failures
    decreases |outcomes|
  {
    if outcomes != [] {
      SomeOccurrence(f, outcomes[1..]);
      assert outcomes[0] in outcomes && forall o :: o in outcomes <==> o == outcomes[0] || o in outcomes[1..];
    }
  }

  /** A test case passes, that is, returns no failure, exactly when none of its steps reports one. */
  lemma PassesExactly(run: Sequential, results: seq<StepResult>, failures: seq<Failure>, final: Store)
    requires Reports(run, results, failures, final)
    ensures failures == [] <==> forall o :: o in run.outcomes ==> o.failures == []
    ensures forall f :: f in failures <==> exists o :: o in run.outcomes && f in o.failures
  {
    forall f ensures f in failures <==> exists o :: o in run.outcomes && f in o.failures {
      assert f in failures <==> multiset(failures)[f] > 0;
      SomeOccurrence(f, run.outcomes);
    }
    if failures != [] {
      assert failures[0] in failures;
    }
    if o :| o in run.outcomes && o.failures != [] {
      assert o.failures[0] in failures;
    }
  }

  /**
   The gRPC runner, whatever the interleavings and the orders of visiting: with distinct ids
   and no template naming a member of its own group, a test case runs as if its steps ran one
   after the other, and returns the same results, failures and stored results.
   */
  lemma GrpcIsSequential(world: World, steps: seq<Step>, schedules: seq<seq<Event>>, visits: seq<Visit>, store: Store,
      results: seq<StepResult>, failures: seq<Failure>, final: Store)
    requires DistinctIds(steps) && AllIndependent(Batches(Grpc, steps)) && AllVisit(steps, visits)
    requires RanAs(world, Batches(Grpc, steps), schedules, store, results, failures, final)
    ensures SameRun(After(world, Batches(Grpc, steps), schedules, store), RunSequentially(world, steps, visits, store))
    ensures Reports(RunSequentially(world, steps, visits, store), results, failures, final)
  {
    GrpcRunsOnceInOrder(steps);
    BatchesAreSequential(world, Batches(Grpc, steps), schedules, visits, store);
    SameRunReports(After(world, Batches(Grpc, steps), schedules, store), RunSequentially(world, steps, visits, store),
      results, failures, final);
  }

  /** The HTTP runner too, when it does not repeat steps. */
  lemma HttpIsSequential(world: World, steps: seq<Step>, schedules: seq<seq<Event>>, visits: seq<Visit>, store: Store,
      results: seq<StepResult>, failures: seq<Failure>, final: Store)
    requires DistinctIds(steps) && AllIndependent(Batches(Http, steps)) && AllVisit(steps, visits)
    requires NoStraggler(Members(steps), steps)
    requires RanAs(world, Batches(Http, steps), schedules, store, results, failures, final)
    ensures SameRun(After(world, Batches(Http, steps), schedules, store), RunSequentially(world, steps, visits, store))
    ensures Reports(RunSequentially(world, steps, visits, store), results, failures, final)
  {
    HttpRunsOnceInOrder(steps);
    BatchesAreSequential(world, Batches(Http, steps), schedules, visits, store);
    SameRunReports(After(world, Batches(Http, steps), schedules, store), RunSequentially(world, steps, visits, store),
      results, failures, final);
  }
}
