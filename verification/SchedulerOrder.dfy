/**
 What the two runners' schedules amount to: the gRPC runner starts every step exactly once, in
 order; the HTTP runner starts every step at least once, and repeats exactly the followers that
 stand behind a leader inside a run of members.
 */
module SchedulerOrder {
  import opened StepExecution
  import opened Scheduler

  // -----------------------------------------------------------------------------------
  // The groups that are collected

  lemma SliceHead(steps: seq<Step>, i: nat, e: nat)
    requires i < e <= |steps|
    ensures steps[i..e] == [steps[i]] + steps[i + 1..e]
  {
  }

  lemma SuffixHead(steps: seq<Step>, i: nat)
    requires i < |steps|
    ensures steps[i..][0] == steps[i] && steps[i..][1..] == steps[i + 1..]
  {
  }

  lemma SuffixSplit(steps: seq<Step>, i: nat, e: nat)
    requires i <= e <= |steps|
    ensures steps[i..] == steps[i..e] + steps[e..]
  {
  }

  lemma FollowersCons(s: Step, tail: seq<Step>)
    ensures Followers([s] + tail) == (if Follows(s) then [s] else []) + Followers(tail)
    ensures Leaders([s] + tail) == (if Follows(s) then [] else [s]) + Leaders(tail)
  {
    assert ([s] + tail)[1..] == tail;
  }

  lemma {:induction false} HttpCollectsFollowers(members: set<string>, steps: seq<Step>, i: nat, k: nat)
    requires DistinctIds(steps) && i < k <= |steps|
    ensures CollectHttp(steps[k..], steps[i].id, members, true) == Followers(steps[k..RunEnd(members, steps, k)])
    decreases |steps| - k
  {
    if k < |steps| {
      SuffixHead(steps, k);
      if IsMember(members, steps, k) {
        RunEndNext(members, steps, k);
        SliceHead(steps, k, RunEnd(members, steps, k));
        FollowersCons(steps[k], steps[k + 1..RunEnd(members, steps, k)]);
        HttpCollectsFollowers(members, steps, i, k + 1);
      }
    }
  }

  /** The HTTP runner starts a member together with all followers behind it in its run. */
  lemma HttpBatch(members: set<string>, steps: seq<Step>, i: nat)
    requires DistinctIds(steps) && i < |steps|
    ensures BatchAt(Http, members, steps, i)
      == [steps[i]] + if IsMember(members, steps, i) then FollowersBehind(members, steps, i) else []
  {
    if IsMember(members, steps, i) {
      SuffixHead(steps, i);
      HttpCollectsFollowers(members, steps, i, i + 1);
      assert CollectHttp(steps[i..], steps[i].id, members, false) == [steps[i]] + FollowersBehind(members, steps, i);
    }
  }

  lemma {:induction false} GrpcCollectsRun(members: set<string>, steps: seq<Step>, trigger: string, k: nat)
    requires Linked(members, steps) && trigger != "" && trigger in members && k <= |steps|
    ensures CollectGrpc(steps[k..], trigger, members) == steps[k..RunEnd(members, steps, k)]
    decreases |steps| - k
  {
    if k < |steps| {
      SuffixHead(steps, k);
      if IsMember(members, steps, k) {
        RunEndNext(members, steps, k);
        SliceHead(steps, k, RunEnd(members, steps, k));
        GrpcCollectsRun(members, steps, trigger, k + 1);
      }
    }
  }

  /** The gRPC runner starts a member together with all that is left of its run. */
  lemma GrpcBatch(members: set<string>, steps: seq<Step>, i: nat)
    requires Linked(members, steps) && DistinctIds(steps) && i < |steps|
    ensures BatchAt(Grpc, members, steps, i)
      == if IsMember(members, steps, i) then steps[i..RunEnd(members, steps, i)] else [steps[i]]
  {
    if IsMember(members, steps, i) {
      RunEndNext(members, steps, i);
      GrpcCollectsRun(members, steps, steps[i].id, i);
    }
  }

  // -----------------------------------------------------------------------------------
  // The schedules, without the bookkeeping of executed ids

  /** Followers inside a run have been started by its first member; everyone else starts a batch. */
  function HttpPlan(members: set<string>, steps: seq<Step>, i: nat): seq<seq<Step>>
    requires i <= |steps|
    decreases |steps| - i
  {
    if i == |steps| then []
    else if Inside(members, steps, i) && Follows(steps[i]) then HttpPlan(members, steps, i + 1)
    else
      [[steps[i]] + if IsMember(members, steps, i) then FollowersBehind(members, steps, i) else []]
      + HttpPlan(members, steps, i + 1)
  }

  /** Each run of members is one batch, every other step is one. */
  function GrpcPlan(members: set<string>, steps: seq<Step>, i: nat): seq<seq<Step>>
    requires i <= |steps|
    decreases |steps| - i
  {
    if i == |steps| then []
    else if IsMember(members, steps, i) then
      RunEndNext(members, steps, i);
      [steps[i..RunEnd(members, steps, i)]] + GrpcPlan(members, steps, RunEnd(members, steps, i))
    else [[steps[i]]] + GrpcPlan(members, steps, i + 1)
  }

  ghost function StartedBefore(members: set<string>, steps: seq<Step>, i: nat): set<string>
    requires i <= |steps|
  {
    Ids(steps[..i]) + if Inside(members, steps, i) then Ids(Followers(steps[i..RunEnd(members, steps, i)])) else {}
  }

  lemma IdsConcat(a: seq<Step>, b: seq<Step>)
    ensures Ids(a + b) == Ids(a) + Ids(b)
  {
  }

  lemma {:induction false} FollowersSubset(steps: seq<Step>)
    ensures forall s :: s in Followers(steps) ==> s in steps && Follows(s)
    ensures forall s :: s in steps && Follows(s) ==> s in Followers(steps)
  {
    if steps != [] {
      FollowersSubset(steps[1..]);
      assert steps == [steps[0]] + steps[1..];
    }
  }

  /** A step has been started before its turn exactly when it follows inside a run. */
  lemma StartedExactly(members: set<string>, steps: seq<Step>, i: nat)
    requires DistinctIds(steps) && i < |steps|
    ensures steps[i].id in StartedBefore(members, steps, i) <==> Inside(members, steps, i) && Follows(steps[i])
  {
    NotYetStarted(steps, i);
    if Inside(members, steps, i) {
      var run := steps[i..RunEnd(members, steps, i)];
      RunEndNext(members, steps, i);
      FollowersSubset(run);
      assert run[0] == steps[i];
      forall s | s in run && s.id == steps[i].id
        ensures s == steps[i]
      {
        var k :| 0 <= k < |run| && run[k] == s;
        assert s == steps[i + k];
      }
    }
  }

  lemma StartedNext(members: set<string>, steps: seq<Step>, i: nat)
    requires DistinctIds(steps) && i < |steps|
    ensures StartedBefore(members, steps, i + 1)
            == StartedBefore(members, steps, i)
               + if Inside(members, steps, i) && Follows(steps[i]) then {} else Ids(BatchAt(Http, members, steps, i))
  {
    HttpBatch(members, steps, i);
    assert steps[..i + 1] == steps[..i] + [steps[i]];
    IdsConcat(steps[..i], [steps[i]]);
    assert Ids([steps[i]]) == {steps[i].id};
    if IsMember(members, steps, i) {
      var behind := FollowersBehind(members, steps, i);
      RunEndNext(members, steps, i);
      SliceHead(steps, i, RunEnd(members, steps, i));
      FollowersCons(steps[i], steps[i + 1..RunEnd(members, steps, i)]);
      IdsConcat([steps[i]], behind);
      IdsConcat(if Follows(steps[i]) then [steps[i]] else [], behind);
      if !Inside(members, steps, i + 1) {
        assert RunEnd(members, steps, i + 1) == i + 1 && steps[i + 1..i + 1] == [];
        assert behind == [] && Ids(behind) == {};
      }
    }
  }

  /** One turn of the main loop, with the executed ids as they should be. */
  lemma HttpLoopStep(members: set<string>, steps: seq<Step>, i: nat, executed: set<string>, next: set<string>)
    requires i < |steps|
    requires steps[i].id in executed <==> Inside(members, steps, i) && Follows(steps[i])
    requires next == executed + if steps[i].id in executed then {} else Ids(BatchAt(Http, members, steps, i))
    requires BatchAt(Http, members, steps, i)
             == [steps[i]] + if IsMember(members, steps, i) then FollowersBehind(members, steps, i) else []
    requires BatchesFrom(Http, members, steps, i + 1, next) == HttpPlan(members, steps, i + 1)
    ensures BatchesFrom(Http, members, steps, i, executed) == HttpPlan(members, steps, i)
  {
    if steps[i].id in executed {
      assert next == executed;
    }
  }

  lemma {:induction false} HttpFollowsPlan(members: set<string>, steps: seq<Step>, i: nat)
    requires DistinctIds(steps) && i <= |steps|
    ensures BatchesFrom(Http, members, steps, i, StartedBefore(members, steps, i)) == HttpPlan(members, steps, i)
    decreases |steps| - i
  {
    if i < |steps| {
      HttpFollowsPlan(members, steps, i + 1);
      StartedExactly(members, steps, i);
      StartedNext(members, steps, i);
      HttpBatch(members, steps, i);
      HttpLoopStep(members, steps, i, StartedBefore(members, steps, i), StartedBefore(members, steps, i + 1));
    }
  }

  lemma NotYetStarted(steps: seq<Step>, i: nat)
    requires DistinctIds(steps) && i < |steps|
    ensures steps[i].id !in Ids(steps[..i])
  {
    forall s | s in steps[..i]
      ensures s.id != steps[i].id
    {
      var k :| 0 <= k < i && steps[k] == s;
    }
  }

  lemma PrefixIds(steps: seq<Step>, k: nat, next: nat)
    requires k <= next <= |steps|
    ensures Ids(steps[..k]) + Ids(steps[k..next]) == Ids(steps[..next])
  {
    assert steps[..next] == steps[..k] + steps[k..next];
    IdsConcat(steps[..k], steps[k..next]);
  }

  lemma {:induction false} GrpcFollowsPlan(members: set<string>, steps: seq<Step>, i: nat, k: nat)
    requires Linked(members, steps) && DistinctIds(steps) && i <= k <= |steps|
    ensures BatchesFrom(Grpc, members, steps, i, Ids(steps[..k])) == GrpcPlan(members, steps, k)
    decreases |steps| - i
  {
    if i < k {
      assert steps[i] in steps[..k];
      GrpcFollowsPlan(members, steps, i + 1, k);
    } else if i < |steps| {
      NotYetStarted(steps, i);
      GrpcBatch(members, steps, i);
      var next := if IsMember(members, steps, i) then RunEnd(members, steps, i) else i + 1;
      if IsMember(members, steps, i) {
        RunEndNext(members, steps, i);
      }
      PrefixIds(steps, i, next);
      assert BatchAt(Grpc, members, steps, i) == steps[i..next];
      GrpcFollowsPlan(members, steps, i + 1, next);
    }
  }

  // -----------------------------------------------------------------------------------
  // The gRPC runner

  lemma GrpcPlanNext(members: set<string>, steps: seq<Step>, i: nat, next: nat)
    requires i < |steps| && next == if IsMember(members, steps, i) then RunEnd(members, steps, i) else i + 1
    ensures i < next <= |steps| && GrpcPlan(members, steps, i) == [steps[i..next]] + GrpcPlan(members, steps, next)
  {
    if IsMember(members, steps, i) {
      RunEndNext(members, steps, i);
    } else {
      assert steps[i..next] == [steps[i]];
    }
  }

  lemma {:induction false} GrpcPlanInOrder(members: set<string>, steps: seq<Step>, i: nat)
    requires i <= |steps|
    ensures Flatten(GrpcPlan(members, steps, i)) == steps[i..]
    decreases |steps| - i
  {
    if i < |steps| {
      var next := if IsMember(members, steps, i) then RunEnd(members, steps, i) else i + 1;
      GrpcPlanNext(members, steps, i, next);
      GrpcPlanInOrder(members, steps, next);
      SuffixSplit(steps, i, next);
      FlattenCons(steps[i..next], GrpcPlan(members, steps, next));
    }
  }

  lemma FlattenCons(batch: seq<Step>, rest: seq<seq<Step>>)
    ensures Flatten([batch] + rest) == batch + Flatten(rest)
  {
    assert ([batch] + rest)[1..] == rest;
  }

  lemma NothingStarted(members: set<string>, steps: seq<Step>)
    ensures Ids(steps[..0]) == {} && StartedBefore(members, steps, 0) == {}
    ensures steps[0..] == steps
  {
  }

  /** Whatever the parallel_with links, the gRPC runner starts every step once, in step order. */
  lemma GrpcRunsOnceInOrder(steps: seq<Step>)
    requires DistinctIds(steps)
    ensures Flatten(Batches(Grpc, steps)) == steps
  {
    MembersLinked(steps);
    NothingStarted(Members(steps), steps);
    GrpcFollowsPlan(Members(steps), steps, 0, 0);
    GrpcPlanInOrder(Members(steps), steps, 0);
  }

  // -----------------------------------------------------------------------------------
  // The HTTP runner

  /** How often the HTTP runner starts a step again, from step i on. */
  function Reruns(members: set<string>, steps: seq<Step>, i: nat): nat
    requires i <= |steps|
    decreases |steps| - i
  {
    if i == |steps| then 0
    else
      (if InsideLeader(members, steps, i) then |FollowersBehind(members, steps, i)| else 0)
      + Reruns(members, steps, i + 1)
  }

  /** No leader inside a run stands directly before a follower. */
  ghost predicate NoStraggler(members: set<string>, steps: seq<Step>) {
    forall i :: 0 <= i < |steps| - 1 && InsideLeader(members, steps, i) ==> !Follows(steps[i + 1])
  }

  /** What is still to be started when the loop reaches step i. */
  ghost function StillToStart(members: set<string>, steps: seq<Step>, i: nat): seq<Step>
    requires i <= |steps|
  {
    var end := RunEnd(members, steps, i);
    if Inside(members, steps, i) then Leaders(steps[i..end]) + steps[end..] else steps[i..]
  }

  lemma StillAfterMember(members: set<string>, steps: seq<Step>, i: nat)
    requires i < |steps| && IsMember(members, steps, i)
    ensures var e := RunEnd(members, steps, i + 1);
            StillToStart(members, steps, i + 1) == Leaders(steps[i + 1..e]) + steps[e..]
  {
    if !Inside(members, steps, i + 1) {
      assert steps[i + 1..i + 1] == [];
    }
  }

  lemma {:induction false} SplitLengths(steps: seq<Step>)
    ensures |Followers(steps)| + |Leaders(steps)| == |steps|
  {
    if steps != [] {
      SplitLengths(steps[1..]);
    }
  }

  lemma {:induction false} PlanLength(members: set<string>, steps: seq<Step>, i: nat)
    requires i <= |steps|
    ensures |Flatten(HttpPlan(members, steps, i))| == |StillToStart(members, steps, i)| + Reruns(members, steps, i)
    decreases |steps| - i
  {
    if i < |steps| {
      PlanLength(members, steps, i + 1);
      var rest := HttpPlan(members, steps, i + 1);
      if IsMember(members, steps, i) {
        var e := RunEnd(members, steps, i + 1);
        RunEndNext(members, steps, i);
        StillAfterMember(members, steps, i);
        SplitLengths(steps[i + 1..e]);
        SliceHead(steps, i, e);
        FollowersCons(steps[i], steps[i + 1..e]);
        FlattenCons([steps[i]] + FollowersBehind(members, steps, i), rest);
      } else {
        FlattenCons([steps[i]] + [], rest);
      }
    }
  }

  /** In the part of a run behind its first member, followers come before leaders. */
  lemma {:induction false} FollowersFirst(members: set<string>, steps: seq<Step>, i: nat, e: nat)
    requires 0 < i <= e <= |steps| && e == RunEnd(members, steps, i) && IsMember(members, steps, i - 1)
    requires Reruns(members, steps, i) == 0
    ensures Followers(steps[i..e]) + Leaders(steps[i..e]) == steps[i..e]
    decreases e - i
  {
    if i < e {
      FollowersFirst(members, steps, i + 1, e);
      SliceHead(steps, i, e);
      FollowersCons(steps[i], steps[i + 1..e]);
    }
  }

  lemma {:induction false} PlanInOrder(members: set<string>, steps: seq<Step>, i: nat)
    requires i <= |steps| && Reruns(members, steps, i) == 0
    ensures Flatten(HttpPlan(members, steps, i)) == StillToStart(members, steps, i)
    decreases |steps| - i
  {
    if i < |steps| {
      PlanInOrder(members, steps, i + 1);
      var rest := HttpPlan(members, steps, i + 1);
      if IsMember(members, steps, i) {
        PlanInOrderMember(members, steps, i);
      } else {
        FlattenCons([steps[i]] + [], rest);
        SliceHead(steps, i, |steps|);
        assert steps[i..|steps|] == steps[i..] && steps[i + 1..|steps|] == steps[i + 1..];
      }
    }
  }

  lemma PlanInOrderMember(members: set<string>, steps: seq<Step>, i: nat)
    requires i < |steps| && Reruns(members, steps, i) == 0 && IsMember(members, steps, i)
    requires Flatten(HttpPlan(members, steps, i + 1)) == StillToStart(members, steps, i + 1)
    ensures Flatten(HttpPlan(members, steps, i)) == StillToStart(members, steps, i)
  {
    if !Inside(members, steps, i) {
      PlanInOrderFirst(members, steps, i);
    } else if Follows(steps[i]) {
      LeadersInside(members, steps, i);
    } else {
      PlanInOrderLeader(members, steps, i);
    }
  }

  lemma LeadersInside(members: set<string>, steps: seq<Step>, i: nat)
    requires i < |steps| && Inside(members, steps, i)
    ensures var e := RunEnd(members, steps, i + 1);
            StillToStart(members, steps, i)
            == ((if Follows(steps[i]) then [] else [steps[i]]) + Leaders(steps[i + 1..e])) + steps[e..]
    ensures Follows(steps[i]) ==> StillToStart(members, steps, i) == StillToStart(members, steps, i + 1)
  {
    var e := RunEnd(members, steps, i + 1);
    RunEndNext(members, steps, i);
    StillAfterMember(members, steps, i);
    SliceHead(steps, i, e);
    FollowersCons(steps[i], steps[i + 1..e]);
    NoneBefore([], Leaders(steps[i + 1..e]));
  }

  lemma PlanInOrderLeader(members: set<string>, steps: seq<Step>, i: nat)
    requires i < |steps| && Reruns(members, steps, i) == 0 && InsideLeader(members, steps, i)
    requires Flatten(HttpPlan(members, steps, i + 1)) == StillToStart(members, steps, i + 1)
    ensures Flatten(HttpPlan(members, steps, i)) == StillToStart(members, steps, i)
  {
    var e := RunEnd(members, steps, i + 1);
    var leaders := Leaders(steps[i + 1..e]);
    LeadersInside(members, steps, i);
    StillAfterMember(members, steps, i);
    assert FollowersBehind(members, steps, i) == [];
    FlattenCons([steps[i]] + [], HttpPlan(members, steps, i + 1));
    Regroup(steps[i], [], leaders, steps[e..]);
    NoneBefore([], leaders);
  }

  lemma PlanInOrderFirst(members: set<string>, steps: seq<Step>, i: nat)
    requires i < |steps| && Reruns(members, steps, i) == 0
    requires IsMember(members, steps, i) && !Inside(members, steps, i)
    requires Flatten(HttpPlan(members, steps, i + 1)) == StillToStart(members, steps, i + 1)
    ensures Flatten(HttpPlan(members, steps, i)) == StillToStart(members, steps, i)
  {
    var e := RunEnd(members, steps, i + 1);
    var behind, leaders := FollowersBehind(members, steps, i), Leaders(steps[i + 1..e]);
    StillAfterMember(members, steps, i);
    FlattenCons([steps[i]] + behind, HttpPlan(members, steps, i + 1));
    FollowersFirst(members, steps, i + 1, e);
    SliceHead(steps, i, e);
    SuffixSplit(steps, i, e);
    Regroup(steps[i], behind, leaders, steps[e..]);
  }

  lemma Regroup(s: Step, a: seq<Step>, b: seq<Step>, c: seq<Step>)
    ensures ([s] + a) + (b + c) == ([s] + (a + b)) + c
  {
  }

  lemma NoneBefore(a: seq<Step>, b: seq<Step>)
    ensures a == [] ==> a + b == b
  {
  }

  lemma {:induction false} PlanCovers(members: set<string>, steps: seq<Step>, i: nat)
    requires i <= |steps|
    ensures forall s :: s in StillToStart(members, steps, i) ==> s in Flatten(HttpPlan(members, steps, i))
    decreases |steps| - i
  {
    if i < |steps| {
      PlanCovers(members, steps, i + 1);
      var rest := HttpPlan(members, steps, i + 1);
      if IsMember(members, steps, i) {
        var e := RunEnd(members, steps, i + 1);
        RunEndNext(members, steps, i);
        StillAfterMember(members, steps, i);
        SliceHead(steps, i, e);
        FollowersCons(steps[i], steps[i + 1..e]);
        FlattenCons([steps[i]] + FollowersBehind(members, steps, i), rest);
        SuffixSplit(steps, i, e);
        EitherKind(steps[i + 1..e]);
      } else {
        FlattenCons([steps[i]] + [], rest);
        SuffixSplit(steps, i, i + 1);
      }
    }
  }

  lemma {:induction false} EitherKind(steps: seq<Step>)
    ensures forall s :: s in steps ==> s in Followers(steps) || s in Leaders(steps)
  {
    if steps != [] {
      EitherKind(steps[1..]);
      assert steps == [steps[0]] + steps[1..];
    }
  }

  lemma {:induction false} NoRerunsForward(members: set<string>, steps: seq<Step>, i: nat)
    requires i <= |steps|
    requires forall k :: i <= k < |steps| && InsideLeader(members, steps, k) ==>
      FollowersBehind(members, steps, k) == []
    ensures Reruns(members, steps, i) == 0
    decreases |steps| - i
  {
    if i < |steps| {
      NoRerunsForward(members, steps, i + 1);
    }
  }

  lemma {:induction false} RerunsAtLeast(members: set<string>, steps: seq<Step>, i: nat, k: nat)
    requires i <= k < |steps| && InsideLeader(members, steps, k)
    ensures Reruns(members, steps, i) >= |FollowersBehind(members, steps, k)|
    decreases k - i
  {
    if i < k {
      RerunsAtLeast(members, steps, i + 1, k);
    }
  }

  lemma {:induction false} NothingBehind(members: set<string>, steps: seq<Step>, k: nat)
    requires NoStraggler(members, steps) && k < |steps| && InsideLeader(members, steps, k)
    ensures FollowersBehind(members, steps, k) == []
    decreases |steps| - k
  {
    var e := RunEnd(members, steps, k + 1);
    if k + 1 < e {
      assert InsideLeader(members, steps, k + 1);
      NothingBehind(members, steps, k + 1);
      RunEndNext(members, steps, k + 1);
      SliceHead(steps, k + 1, e);
      FollowersCons(steps[k + 1], steps[k + 2..e]);
    } else {
      assert steps[k + 1..e] == [];
    }
  }

  lemma NoStragglerIsNoRerun(members: set<string>, steps: seq<Step>)
    requires Linked(members, steps)
    ensures NoStraggler(members, steps) <==> Reruns(members, steps, 0) == 0
  {
    if NoStraggler(members, steps) {
      forall k | 0 <= k < |steps| && InsideLeader(members, steps, k)
        ensures FollowersBehind(members, steps, k) == []
      {
        NothingBehind(members, steps, k);
      }
      NoRerunsForward(members, steps, 0);
    } else {
      var k :| 0 <= k < |steps| - 1 && InsideLeader(members, steps, k) && Follows(steps[k + 1]);
      RunEndNext(members, steps, k + 1);
      SliceHead(steps, k + 1, RunEnd(members, steps, k + 1));
      FollowersCons(steps[k + 1], steps[k + 2..RunEnd(members, steps, k + 1)]);
      RerunsAtLeast(members, steps, 0, k);
    }
  }

  /** The HTTP runner starts every step, and as many again as its leaders drag along. */
  lemma HttpRunsEveryStep(steps: seq<Step>)
    requires DistinctIds(steps)
    ensures forall s :: s in steps ==> s in Flatten(Batches(Http, steps))
    ensures |Flatten(Batches(Http, steps))| == |steps| + Reruns(Members(steps), steps, 0)
  {
    var members := Members(steps);
    NothingStarted(members, steps);
    HttpFollowsPlan(members, steps, 0);
    PlanCovers(members, steps, 0);
    PlanLength(members, steps, 0);
  }

  /**
   The HTTP runner starts every step exactly once, and then in step order, exactly when no
   leader inside a run of group members stands directly before a follower.
   */
  lemma HttpRunsOnceInOrder(steps: seq<Step>)
    requires DistinctIds(steps)
    ensures Flatten(Batches(Http, steps)) == steps <==> NoStraggler(Members(steps), steps)
    ensures multiset(Flatten(Batches(Http, steps))) == multiset(steps) <==> NoStraggler(Members(steps), steps)
  {
    var members := Members(steps);
    MembersLinked(steps);
    HttpRunsEveryStep(steps);
    NoStragglerIsNoRerun(members, steps);
    if NoStraggler(members, steps) {
      NothingStarted(members, steps);
      HttpFollowsPlan(members, steps, 0);
      PlanInOrder(members, steps, 0);
    } else {
      assert |multiset(Flatten(Batches(Http, steps)))| == |Flatten(Batches(Http, steps))|;
      assert |multiset(steps)| == |steps|;
    }
  }

  /** A, B with A, C, D with C: the HTTP runner starts D with A and again with C. */
  lemma StragglerRunsTwice(a: Step, b: Step, c: Step, d: Step)
    requires DistinctIds([a, b, c, d])
    requires a.parallelWith == "" && b.parallelWith == a.id && c.parallelWith == "" && d.parallelWith == c.id
    ensures Batches(Http, [a, b, c, d]) == [[a, b, d], [c, d]]
  {
    var steps := [a, b, c, d];
    var members := Members(steps);
    assert steps[0].id != "" && steps[2].id != "";
    assert b in steps && d in steps;
    NothingStarted(members, steps);
    HttpFollowsPlan(members, steps, 0);
    FourPlanned(members, steps);
  }

  predicate FourLinked(members: set<string>, steps: seq<Step>) {
    |steps| == 4 && (forall i :: 0 <= i < 4 ==> IsMember(members, steps, i)) &&
    !Follows(steps[0]) && Follows(steps[1]) && !Follows(steps[2]) && Follows(steps[3])
  }

  lemma FourRuns(members: set<string>, steps: seq<Step>, i: nat)
    requires FourLinked(members, steps) && i <= 4
    ensures RunEnd(members, steps, i) == 4
  {
  }

  lemma FourFollowers(members: set<string>, steps: seq<Step>)
    requires FourLinked(members, steps)
    ensures FollowersBehind(members, steps, 0) == [steps[1], steps[3]]
    ensures FollowersBehind(members, steps, 2) == [steps[3]]
  {
    FourRuns(members, steps, 1);
    FourRuns(members, steps, 3);
    SliceHead(steps, 1, 4);
    SliceHead(steps, 2, 4);
    SliceHead(steps, 3, 4);
    assert steps[4..4] == [];
    FollowersCons(steps[3], []);
    FollowersCons(steps[2], steps[3..4]);
    FollowersCons(steps[1], steps[2..4]);
  }

  lemma FourPlanned(members: set<string>, steps: seq<Step>)
    requires FourLinked(members, steps)
    ensures HttpPlan(members, steps, 0) == [[steps[0], steps[1], steps[3]], [steps[2], steps[3]]]
  {
    FourFollowers(members, steps);
    assert HttpPlan(members, steps, 4) == [];
    assert HttpPlan(members, steps, 3) == [];
    assert HttpPlan(members, steps, 2) == [[steps[2]] + FollowersBehind(members, steps, 2)];
    assert HttpPlan(members, steps, 1) == HttpPlan(members, steps, 2);
    var first, second := [steps[0]] + [steps[1], steps[3]], [steps[2]] + [steps[3]];
    assert HttpPlan(members, steps, 0) == [first] + [second];
    assert first == [steps[0], steps[1], steps[3]] && second == [steps[2], steps[3]];
  }

  // -----------------------------------------------------------------------------------
  // When the two runners agree

  ghost predicate OnlyFirstLeads(members: set<string>, steps: seq<Step>, i: nat) {
    forall k :: i <= k < |steps| ==> !InsideLeader(members, steps, k)
  }

  lemma {:induction false} AllFollow(members: set<string>, steps: seq<Step>, i: nat, e: nat)
    requires 0 < i <= e <= |steps| && e == RunEnd(members, steps, i) && IsMember(members, steps, i - 1)
    ensures Followers(steps[i..e]) == steps[i..e] <==> forall k :: i <= k < e ==> Follows(steps[k])
    ensures |Followers(steps[i..e])| <= e - i
    decreases e - i
  {
    if i < e {
      AllFollow(members, steps, i + 1, e);
      SliceHead(steps, i, e);
      FollowersCons(steps[i], steps[i + 1..e]);
      if !Follows(steps[i]) {
        assert |Followers(steps[i..e])| < |steps[i..e]|;
      }
    }
  }

  lemma {:induction false} SkipFollowers(members: set<string>, steps: seq<Step>, i: nat, e: nat)
    requires 0 < i <= e <= |steps| && e == RunEnd(members, steps, i) && IsMember(members, steps, i - 1)
    requires forall k :: i <= k < e ==> Follows(steps[k])
    ensures HttpPlan(members, steps, i) == HttpPlan(members, steps, e)
    decreases e - i
  {
    if i < e {
      SkipFollowers(members, steps, i + 1, e);
    }
  }

  lemma ConsEqual<T>(x: T, a: seq<T>, b: seq<T>)
    ensures [x] + a == [x] + b <==> a == b
  {
    assert ([x] + a)[1..] == a && ([x] + b)[1..] == b;
  }

  lemma ConsBatches(a: seq<Step>, more: seq<seq<Step>>, b: seq<Step>, others: seq<seq<Step>>)
    ensures [a] + more == [b] + others <==> a == b && more == others
  {
    if [a] + more == [b] + others {
      assert ([a] + more)[0] == a && ([b] + others)[0] == b;
      assert ([a] + more)[1..] == more && ([b] + others)[1..] == others;
    }
  }

  lemma RunIsInside(members: set<string>, steps: seq<Step>, i: nat, e: nat)
    requires i < |steps| && IsMember(members, steps, i) && e == RunEnd(members, steps, i)
    ensures forall k :: i + 1 <= k < e ==> (InsideLeader(members, steps, k) <==> !Follows(steps[k]))
  {
    forall k | i + 1 <= k < e
      ensures InsideLeader(members, steps, k) <==> !Follows(steps[k])
    {
      assert IsMember(members, steps, k) && IsMember(members, steps, k - 1);
    }
  }

  /** The batch that opens a run is the whole run exactly when all others in it follow. */
  lemma FirstBatchesAgree(members: set<string>, steps: seq<Step>, i: nat)
    requires i < |steps| && IsMember(members, steps, i)
    ensures var e := RunEnd(members, steps, i);
            [steps[i]] + FollowersBehind(members, steps, i) == steps[i..e]
            <==> forall k :: i + 1 <= k < e ==> !InsideLeader(members, steps, k)
  {
    var e := RunEnd(members, steps, i + 1);
    RunEndNext(members, steps, i);
    SliceHead(steps, i, e);
    AllFollow(members, steps, i + 1, e);
    RunIsInside(members, steps, i, e);
    ConsEqual(steps[i], FollowersBehind(members, steps, i), steps[i + 1..e]);
  }

  lemma {:induction false} PlansAgree(members: set<string>, steps: seq<Step>, i: nat)
    requires i <= |steps| && !Inside(members, steps, i)
    ensures HttpPlan(members, steps, i) == GrpcPlan(members, steps, i) <==> OnlyFirstLeads(members, steps, i)
    decreases |steps| - i, 1
  {
    if i < |steps| {
      if IsMember(members, steps, i) {
        RunAgrees(members, steps, i);
      } else {
        PlansAgree(members, steps, i + 1);
        assert [steps[i]] + [] == [steps[i]];
        ConsBatches([steps[i]], HttpPlan(members, steps, i + 1), [steps[i]], GrpcPlan(members, steps, i + 1));
      }
    }
  }

  /** How either plan opens a run. */
  lemma RunOpens(members: set<string>, steps: seq<Step>, i: nat)
    requires i < |steps| && !Inside(members, steps, i) && IsMember(members, steps, i)
    ensures var e := RunEnd(members, steps, i);
            e > i &&
            HttpPlan(members, steps, i)
            == [[steps[i]] + FollowersBehind(members, steps, i)] + HttpPlan(members, steps, i + 1) &&
            GrpcPlan(members, steps, i) == [steps[i..e]] + GrpcPlan(members, steps, e)
  {
    RunEndNext(members, steps, i);
  }

  lemma LeadersOfRun(members: set<string>, steps: seq<Step>, i: nat, e: nat)
    requires i < e <= |steps| && !InsideLeader(members, steps, i)
    ensures OnlyFirstLeads(members, steps, i)
      <==> (forall k :: i + 1 <= k < e ==> !InsideLeader(members, steps, k)) && OnlyFirstLeads(members, steps, e)
  {
  }

  lemma {:induction false} RunAgrees(members: set<string>, steps: seq<Step>, i: nat)
    requires i < |steps| && !Inside(members, steps, i) && IsMember(members, steps, i)
    ensures HttpPlan(members, steps, i) == GrpcPlan(members, steps, i) <==> OnlyFirstLeads(members, steps, i)
    decreases |steps| - i, 0
  {
    var e := RunEnd(members, steps, i);
    RunOpens(members, steps, i);
    FirstBatchesAgree(members, steps, i);
    RunIsInside(members, steps, i, e);
    LeadersOfRun(members, steps, i, e);
    ConsBatches([steps[i]] + FollowersBehind(members, steps, i), HttpPlan(members, steps, i + 1),
                steps[i..e], GrpcPlan(members, steps, e));
    if forall k :: i + 1 <= k < e ==> !InsideLeader(members, steps, k) {
      SkipFollowers(members, steps, i + 1, e);
      PlansAgree(members, steps, e);
    }
  }

  /** The two runners form the same batches exactly when in each run only the first step leads. */
  lemma RunnersAgree(steps: seq<Step>)
    requires DistinctIds(steps)
    ensures Batches(Http, steps) == Batches(Grpc, steps) <==> OnlyFirstLeads(Members(steps), steps, 0)
  {
    var members := Members(steps);
    MembersLinked(steps);
    NothingStarted(members, steps);
    HttpFollowsPlan(members, steps, 0);
    GrpcFollowsPlan(members, steps, 0, 0);
    PlansAgree(members, steps, 0);
  }
}
