/**
 Which steps a runner starts together, and in which order (executeStepsWithParallel and
 collectParallelGroup, in runner/http/runner.go and runner/grpc/runner.go). The two runners
 share the main loop and differ in how they collect a parallel group.
 */
module Scheduler {
  import opened StepExecution
  import opened Text

  datatype Runner = Http | Grpc

  /** The ids that take part in some parallel_with link. */
  function Members(steps: seq<Step>): set<string> {
    (set s | s in steps && s.parallelWith != "" :: s.id)
    + (set s | s in steps && s.parallelWith != "" :: s.parallelWith)
  }

  /** A step that joins a group rather than opening one. */
  predicate Follows(s: Step) { s.parallelWith != "" }

  // -----------------------------------------------------------------------------------
  // Collecting a group

  predicate HttpTakes(s: Step, trigger: string, members: set<string>) {
    s.id in members && (s.id == trigger || s.parallelWith == trigger || s.parallelWith != "")
  }

  /** The HTTP runner stops at the first non-member after it has taken a step. */
  function CollectHttp(steps: seq<Step>, trigger: string, members: set<string>, started: bool): seq<Step> {
    if steps == [] then []
    else
      var s := steps[0];
      var taken := if HttpTakes(s, trigger, members) then [s] else [];
      if (started || taken != []) && s.id !in members then taken
      else taken + CollectHttp(steps[1..], trigger, members, started || taken != [])
  }

  /** The gRPC runner takes every member and stops at the first step that is none. */
  function CollectGrpc(steps: seq<Step>, trigger: string, members: set<string>): seq<Step> {
    if steps == [] then []
    else
      var s := steps[0];
      var taken := if s.id in members then [s] else [];
      if s.parallelWith != trigger && s.id != trigger && s.id !in members then taken
      else taken + CollectGrpc(steps[1..], trigger, members)
  }

  function Collect(runner: Runner, steps: seq<Step>, trigger: string, members: set<string>): seq<Step> {
    match runner
    case Http => CollectHttp(steps, trigger, members, false)
    case Grpc => CollectGrpc(steps, trigger, members)
  }

  /** One turn of the HTTP loop that takes a step, which is a member then. */
  lemma CollectHttpTakes(steps: seq<Step>, trigger: string, members: set<string>, started: bool, k: nat)
    requires k < |steps| && HttpTakes(steps[k], trigger, members)
    ensures CollectHttp(steps[k..], trigger, members, started)
      == [steps[k]] + CollectHttp(steps[k + 1..], trigger, members, true)
  {
    assert steps[k..][1..] == steps[k + 1..];
  }

  /** And one that takes none. */
  lemma CollectHttpSkips(steps: seq<Step>, trigger: string, members: set<string>, started: bool, k: nat)
    requires k < |steps| && !HttpTakes(steps[k], trigger, members)
    ensures started && steps[k].id !in members ==> CollectHttp(steps[k..], trigger, members, started) == []
    ensures !started || steps[k].id in members ==>
      CollectHttp(steps[k..], trigger, members, started) == CollectHttp(steps[k + 1..], trigger, members, started)
  {
    assert steps[k..][1..] == steps[k + 1..];
    Unit(CollectHttp(steps[k + 1..], trigger, members, started));
  }

  method CollectHttpGroup(steps: seq<Step>, trigger: string, members: set<string>) returns (group: seq<Step>)
    ensures group == CollectHttp(steps, trigger, members, false)
  {
    group := [];
    ghost var all := CollectHttp(steps, trigger, members, false);
    assert steps[0..] == steps;
    for k := 0 to |steps|
      invariant group + CollectHttp(steps[k..], trigger, members, group != []) == all
    {
      var s := steps[k];
      if HttpTakes(s, trigger, members) {
        CollectHttpTakes(steps, trigger, members, group != [], k);
        Assoc(group, [s], CollectHttp(steps[k + 1..], trigger, members, true));
        group := group + [s];
      } else {
        CollectHttpSkips(steps, trigger, members, group != [], k);
      }
      if |group| > 0 && s.id !in members {
        Unit(group);
        break;
      }
    }
  }

  /** One turn of the gRPC loop. */
  lemma CollectGrpcNext(steps: seq<Step>, trigger: string, members: set<string>, k: nat)
    requires k < |steps|
    ensures var s := steps[k];
            var taken := if s.id in members then [s] else [];
            CollectGrpc(steps[k..], trigger, members)
            == if s.parallelWith != trigger && s.id != trigger && s.id !in members then taken
               else taken + CollectGrpc(steps[k + 1..], trigger, members)
  {
    assert steps[k..][1..] == steps[k + 1..];
  }

  method CollectGrpcGroup(steps: seq<Step>, trigger: string, members: set<string>) returns (group: seq<Step>)
    ensures group == CollectGrpc(steps, trigger, members)
  {
    group := [];
    ghost var all := CollectGrpc(steps, trigger, members);
    assert steps[0..] == steps;
    for k := 0 to |steps|
      invariant group + CollectGrpc(steps[k..], trigger, members) == all
    {
      var s := steps[k];
      CollectGrpcNext(steps, trigger, members, k);
      if s.id in members {
        Assoc(group, [s], CollectGrpc(steps[k + 1..], trigger, members));
        group := group + [s];
      }
      if s.parallelWith == trigger || s.id == trigger {
        continue;
      }
      if s.id !in members {
        break;
      }
    }
  }

  // -----------------------------------------------------------------------------------
  // The main loop

  function Ids(steps: seq<Step>): set<string> { set s | s in steps :: s.id }

  /** What is started at step i: a group of more than one, or the step alone. */
  function BatchAt(runner: Runner, members: set<string>, steps: seq<Step>, i: nat): (batch: seq<Step>)
    requires i < |steps|
    ensures batch != []
  {
    var s := steps[i];
    if s.id !in members then [s]
    else
      var group := Collect(runner, steps[i..], s.id, members);
      if |group| > 1 then group else [s]
  }

  function BatchesFrom(runner: Runner, members: set<string>, steps: seq<Step>, i: nat, executed: set<string>)
      : seq<seq<Step>>
    requires i <= |steps|
    decreases |steps| - i
  {
    if i == |steps| then []
    else if steps[i].id in executed then BatchesFrom(runner, members, steps, i + 1, executed)
    else
      var batch := BatchAt(runner, members, steps, i);
      [batch] + BatchesFrom(runner, members, steps, i + 1, executed + Ids(batch))
  }

  /** The batches of a test case: each is one step, or a group run in parallel. */
  function Batches(runner: Runner, steps: seq<Step>): seq<seq<Step>> {
    BatchesFrom(runner, Members(steps), steps, 0, {})
  }

  function Flatten(batches: seq<seq<Step>>): seq<Step> {
    if batches == [] then [] else batches[0] + Flatten(batches[1..])
  }

  // -----------------------------------------------------------------------------------
  // Runs of members

  /** What a test case is expected to provide: step ids that identify the steps. */
  ghost predicate DistinctIds(steps: seq<Step>) {
    (forall i :: 0 <= i < |steps| ==> steps[i].id != "") &&
    forall i, j :: 0 <= i < j < |steps| ==> steps[i].id != steps[j].id
  }

  predicate IsMember(members: set<string>, steps: seq<Step>, i: int)
    requires 0 <= i < |steps|
  {
    steps[i].id in members
  }

  /** The first position from i on that holds no member. */
  function RunEnd(members: set<string>, steps: seq<Step>, i: nat): (e: nat)
    requires i <= |steps|
    ensures i <= e <= |steps|
    ensures forall k :: i <= k < e ==> IsMember(members, steps, k)
    ensures e < |steps| ==> !IsMember(members, steps, e)
    decreases |steps| - i
  {
    if i < |steps| && IsMember(members, steps, i) then RunEnd(members, steps, i + 1) else i
  }

  /** A member whose predecessor is a member too. */
  predicate Inside(members: set<string>, steps: seq<Step>, i: int)
    requires 0 <= i <= |steps|
  {
    0 < i < |steps| && IsMember(members, steps, i) && IsMember(members, steps, i - 1)
  }

  /** A step without parallel_with that is not the first of its run. */
  predicate InsideLeader(members: set<string>, steps: seq<Step>, i: int)
    requires 0 <= i < |steps|
  {
    Inside(members, steps, i) && !Follows(steps[i])
  }

  /** Every step with parallel_with is a member: true of the members the runners compute. */
  ghost predicate Linked(members: set<string>, steps: seq<Step>) {
    forall i :: 0 <= i < |steps| && Follows(steps[i]) ==> steps[i].id in members
  }

  lemma MembersLinked(steps: seq<Step>)
    ensures Linked(Members(steps), steps)
  {
  }

  lemma RunEndNext(members: set<string>, steps: seq<Step>, i: nat)
    requires i < |steps| && IsMember(members, steps, i)
    ensures RunEnd(members, steps, i) == RunEnd(members, steps, i + 1) && RunEnd(members, steps, i) > i
  {
  }

  function Followers(steps: seq<Step>): seq<Step> {
    if steps == [] then []
    else (if Follows(steps[0]) then [steps[0]] else []) + Followers(steps[1..])
  }

  function Leaders(steps: seq<Step>): seq<Step> {
    if steps == [] then []
    else (if Follows(steps[0]) then [] else [steps[0]]) + Leaders(steps[1..])
  }

  /** The members behind step i in its run that carry parallel_with. */
  function FollowersBehind(members: set<string>, steps: seq<Step>, i: nat): seq<Step>
    requires i < |steps|
  {
    Followers(steps[i + 1..RunEnd(members, steps, i + 1)])
  }
}
