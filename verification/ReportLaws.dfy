/**
 Laws of the reports: counts are conserved, the order of the results does not matter, and how
 the verdicts of the two runners on the same results relate.
 */
module ReportLaws {
  import opened Sequences
  import opened Scheduler
  import opened Report
  import opened Text

  // -----------------------------------------------------------------------------------
  // Conservation

  lemma CountHead(v: Verdict, js: seq<Judged>)
    requires js != []
    ensures Count(v, js) == (if js[0].verdict == v then 1 else 0) + Count(v, js[1..])
  {
  }

  lemma {:induction false} VerdictsPartition(js: seq<Judged>)
    ensures Count(Pass, js) + Count(Fail, js) + Count(Skip, js) + Count(Error, js) + Count(Unknown, js) == |js|
    decreases |js|
  {
    if js != [] {
      VerdictsPartition(js[1..]);
      CountHead(Pass, js);
      CountHead(Fail, js);
      CountHead(Skip, js);
      CountHead(Error, js);
      CountHead(Unknown, js);
    }
  }

  lemma {:induction false} ReadAs(runner: Runner, results: seq<TestResult>, j: Judged)
    ensures j in JudgeAll(runner, results) <==> j.result in results && j.verdict == VerdictOf(runner, j.result.status)
    ensures |JudgeAll(runner, results)| == |results|
    decreases |results|
  {
    if results != [] {
      ReadAs(runner, results[1..], j);
      assert results == [results[0]] + results[1..];
    }
  }

  lemma {:induction false} NoneCounted(v: Verdict, js: seq<Judged>)
    ensures Count(v, js) == 0 <==> forall j :: j in js ==> j.verdict != v
    decreases |js|
  {
    if js != [] {
      NoneCounted(v, js[1..]);
      assert js == [js[0]] + js[1..];
    }
  }

  predicate KnownStatus(status: string) {
    status == "pass" || status == "fail" || status == "skip" || status == "error"
  }

  /**
   The total of a report that counts the results is the sum of its four counters: always for the gRPC runner, and for
   the HTTP runner exactly when every status is one of the four.
   */
  lemma TotalsConserved(runner: Runner, results: seq<TestResult>, rep: SuiteReport)
    requires Counted(rep, JudgeAll(runner, results))
    ensures rep.total == |results|
    ensures rep.total == rep.passed + rep.failed + rep.skipped + rep.errored
            <==> runner == Grpc || forall r :: r in results ==> KnownStatus(r.status)
  {
    var js := JudgeAll(runner, results);
    VerdictsPartition(js);
    NoneCounted(Unknown, js);
    ReadAs(runner, results, Judged(TestResult("", 0, ""), Pass));
    KnownMeaning(runner, results);
  }

  lemma KnownMeaning(runner: Runner, results: seq<TestResult>)
    ensures (forall j :: j in JudgeAll(runner, results) ==> j.verdict != Unknown)
            <==> runner == Grpc || forall r :: r in results ==> KnownStatus(r.status)
  {
    var p := (j: Judged) => j.verdict != Unknown;
    var q := (r: TestResult) => runner == Grpc || KnownStatus(r.status);
    ForAllRead(runner, results, p, q);
    assert (forall j :: j in JudgeAll(runner, results) ==> p(j)) <==> forall r :: r in results ==> q(r);
    assert forall r :: r in results && runner == Http ==> (q(r) <==> KnownStatus(r.status));
  }

  /** A count over the results at any of the given levels. */
  ghost function CountWithin(levels: set<int>, v: Verdict, js: seq<Judged>): nat {
    if js == [] then 0
    else (if js[0].verdict == v && js[0].result.level in levels then 1 else 0) + CountWithin(levels, v, js[1..])
  }

  lemma {:induction false} TakeOutLevel(levels: set<int>, l: int, v: Verdict, js: seq<Judged>)
    requires l in levels
    ensures CountWithin(levels, v, js) == Count(v, AtLevel(l, js)) + CountWithin(levels - {l}, v, js)
    decreases |js|
  {
    if js != [] {
      TakeOutLevel(levels, l, v, js[1..]);
      if js[0].result.level == l {
        assert AtLevel(l, js) == [js[0]] + AtLevel(l, js[1..]);
        FlatMapConcat(Picked({v}), [js[0]], AtLevel(l, js[1..]));
        assert FlatMap(Picked({v}), [js[0]]) == Picked({v})(js[0]) + FlatMap(Picked({v}), []);
      } else {
        assert AtLevel(l, js) == AtLevel(l, js[1..]);
      }
    }
  }

  lemma {:induction false} NoLevels(levels: set<int>, v: Verdict, js: seq<Judged>)
    requires forall l :: l !in levels
    ensures CountWithin(levels, v, js) == 0
    decreases |js|
  {
    if js != [] {
      NoLevels(levels, v, js[1..]);
    }
  }

  /** Each of the levels once. */
  ghost predicate Lists(order: seq<int>, levels: set<int>) {
    (forall i, j :: 0 <= i < j < |order| ==> order[i] != order[j]) && (forall l :: l in order <==> l in levels)
  }

  /** How many results of a level, and of a report, were read a given way; the rest of the total is unknown. */
  function Part(ls: LevelSummary, v: Verdict): int {
    match v
    case Pass => ls.passed
    case Fail => ls.failed
    case Skip => ls.skipped
    case Error => ls.errored
    case Unknown => ls.total - ls.passed - ls.failed - ls.skipped - ls.errored
  }

  function Whole(rep: SuiteReport, v: Verdict): int {
    match v
    case Pass => rep.passed
    case Fail => rep.failed
    case Skip => rep.skipped
    case Error => rep.errored
    case Unknown => rep.total - rep.passed - rep.failed - rep.skipped - rep.errored
  }

  ghost function SumOver(order: seq<int>, byLevel: Levels, v: Verdict): int {
    if order == [] then 0 else Part(LevelOf(byLevel, order[0]), v) + SumOver(order[1..], byLevel, v)
  }

  lemma ListsRest(order: seq<int>, levels: set<int>)
    requires order != [] && Lists(order, levels)
    ensures order[0] in levels && Lists(order[1..], levels - {order[0]})
  {
    Recons(order);
    assert forall l :: l in order <==> l == order[0] || l in order[1..];
  }

  lemma PartReported(runner: Runner, byLevel: Levels, js: seq<Judged>, level: int, v: Verdict)
    requires LevelReported(runner, byLevel, js, level)
    ensures Part(LevelOf(byLevel, level), v) == Count(v, AtLevel(level, js))
  {
    VerdictsPartition(AtLevel(level, js));
  }

  lemma {:induction false} SumIsCountWithin(order: seq<int>, levels: set<int>, runner: Runner, byLevel: Levels,
      js: seq<Judged>, v: Verdict)
    requires Lists(order, levels) && forall l :: LevelReported(runner, byLevel, js, l)
    ensures SumOver(order, byLevel, v) == CountWithin(levels, v, js)
    decreases |order|
  {
    if order == [] {
      NoLevels(levels, v, js);
    } else {
      ListsRest(order, levels);
      SumIsCountWithin(order[1..], levels - {order[0]}, runner, byLevel, js, v);
      TakeOutLevel(levels, order[0], v, js);
      assert LevelReported(runner, byLevel, js, order[0]);
      PartReported(runner, byLevel, js, order[0], v);
    }
  }

  lemma {:induction false} AllWithin(levels: set<int>, v: Verdict, js: seq<Judged>)
    requires forall j :: j in js ==> j.result.level in levels
    ensures CountWithin(levels, v, js) == Count(v, js)
    decreases |js|
  {
    if js != [] {
      assert forall j :: j in js[1..] ==> j in js;
      AllWithin(levels, v, js[1..]);
    }
  }

  /** However results are read, the overall count is the sum of the counts of the levels of the report. */
  lemma LevelsConserved(runner: Runner, results: seq<TestResult>, rep: SuiteReport, order: seq<int>, v: Verdict)
    requires Accounts(runner, rep, JudgeAll(runner, results)) && Lists(order, rep.byLevel.Keys)
    ensures SumOver(order, rep.byLevel, v) == Whole(rep, v)
  {
    var js := JudgeAll(runner, results);
    forall j | j in js
      ensures j.result.level in rep.byLevel.Keys
    {
      assert LevelReported(runner, rep.byLevel, js, j.result.level);
      PresentExactly(j.result.level, js);
    }
    SumIsCountWithin(order, rep.byLevel.Keys, runner, rep.byLevel, js, v);
    AllWithin(rep.byLevel.Keys, v, js);
    VerdictsPartition(js);
  }

  // -----------------------------------------------------------------------------------
  // Levels, by membership

  lemma {:induction false} AtLevelExactly(level: int, js: seq<Judged>)
    ensures forall j :: j in AtLevel(level, js) <==> j in js && j.result.level == level
    decreases |js|
  {
    if js != [] {
      AtLevelExactly(level, js[1..]);
      assert js == [js[0]] + js[1..];
    }
  }

  lemma PresentExactly(level: int, js: seq<Judged>)
    ensures Present(level, js) <==> exists j :: j in js && j.result.level == level
  {
    AtLevelExactly(level, js);
    if Present(level, js) {
      assert AtLevel(level, js)[0] in AtLevel(level, js);
    }
  }

  lemma {:induction false} AllPassedExactly(js: seq<Judged>)
    ensures AllPassed(js) <==> forall j :: j in js ==> j.verdict == Pass
    ensures Count(Pass, js) <= |js|
    decreases |js|
  {
    if js != [] {
      AllPassedExactly(js[1..]);
      assert js == [js[0]] + js[1..];
    }
  }

  lemma CleanExactly(js: seq<Judged>)
    ensures Clean(js) <==> forall j :: j in js ==> j.verdict != Fail && j.verdict != Error
  {
    NoneCounted(Fail, js);
    NoneCounted(Error, js);
  }

  // -----------------------------------------------------------------------------------
  // Reports do not depend on the order of the results

  lemma SameJudged(runner: Runner, a: seq<TestResult>, b: seq<TestResult>)
    requires multiset(a) == multiset(b)
    ensures multiset(JudgeAll(runner, a)) == multiset(JudgeAll(runner, b))
  {
    FlatMapPermuted(Reading(runner), a, b);
  }

  lemma SameCounts(a: seq<Judged>, b: seq<Judged>, vs: set<Verdict>)
    requires multiset(a) == multiset(b)
    ensures multiset(Select(vs, a)) == multiset(Select(vs, b)) && |Select(vs, a)| == |Select(vs, b)| && |a| == |b|
  {
    FlatMapPermuted(Picked(vs), a, b);
    assert |multiset(Select(vs, a))| == |multiset(Select(vs, b))|;
    assert |multiset(a)| == |multiset(b)|;
  }

  lemma SameAtLevel(a: seq<Judged>, b: seq<Judged>, level: int, allPass: bool)
    requires multiset(a) == multiset(b)
    ensures Summary(AtLevel(level, a), allPass) == Summary(AtLevel(level, b), allPass)
    ensures Present(level, a) <==> Present(level, b)
    ensures Clean(AtLevel(level, a)) <==> Clean(AtLevel(level, b))
    ensures AllPassed(AtLevel(level, a)) <==> AllPassed(AtLevel(level, b))
  {
    FlatMapPermuted(Placed(level), a, b);
    var x, y := AtLevel(level, a), AtLevel(level, b);
    SameCounts(x, y, {Pass});
    SameCounts(x, y, {Fail});
    SameCounts(x, y, {Skip});
    SameCounts(x, y, {Error});
  }

  lemma GreatestIsUnique(runner: Runner, a: View, b: View, x: int, y: int)
    requires IsGreatest(runner, a, x) && IsGreatest(runner, b, y) && x >= -1 && y >= -1
    requires forall l :: Reaches(runner, l, a) <==> Reaches(runner, l, b)
    ensures x == y
  {
  }

  lemma SameVerdicts(runner: Runner, x: seq<Judged>, y: seq<Judged>)
    requires multiset(x) == multiset(y)
    ensures Conformant(runner, x) == Conformant(runner, y)
    ensures ConformantLevel(runner, x) == ConformantLevel(runner, y)
  {
    SameCounts(x, y, {Pass});
    SameCounts(x, y, {Fail});
    SameCounts(x, y, {Error});
    ConformantLevelIsGreatest(runner, x);
    ConformantLevelIsGreatest(runner, y);
    SameReaches(runner, x, y);
    GreatestIsUnique(runner, ViewOf(x), ViewOf(y), ConformantLevel(runner, x), ConformantLevel(runner, y));
  }

  lemma SameReaches(runner: Runner, x: seq<Judged>, y: seq<Judged>)
    requires multiset(x) == multiset(y)
    ensures forall l :: Reaches(runner, l, ViewOf(x)) <==> Reaches(runner, l, ViewOf(y))
  {
    forall l
      ensures ViewOf(x).present(l) <==> ViewOf(y).present(l)
      ensures ViewOf(x).clean(l) <==> ViewOf(y).clean(l)
      ensures ViewOf(x).allPassed(l) <==> ViewOf(y).allPassed(l)
    {
      SameAtLevel(x, y, l, false);
    }
  }

  lemma SameLevelReported(runner: Runner, p: Levels, q: Levels, x: seq<Judged>, y: seq<Judged>, level: int)
    requires multiset(x) == multiset(y)
    requires LevelReported(runner, p, x, level) && LevelReported(runner, q, y, level)
    ensures (level in p <==> level in q) && (level in p ==> p[level] == q[level])
  {
    SameReaches(runner, x, y);
    assert Reaches(runner, level, ViewOf(x)) <==> Reaches(runner, level, ViewOf(y));
    SameAtLevel(x, y, level, ReportedAllPass(runner, x, level));
  }

  lemma SameLevels(runner: Runner, p: Levels, q: Levels, x: seq<Judged>, y: seq<Judged>)
    requires multiset(x) == multiset(y)
    requires forall l :: LevelReported(runner, p, x, l) && LevelReported(runner, q, y, l)
    ensures p == q
  {
    forall l ensures (l in p <==> l in q) && (l in p ==> p[l] == q[l]) {
      assert LevelReported(runner, p, x, l) && LevelReported(runner, q, y, l);
      SameLevelReported(runner, p, q, x, y, l);
    }
  }

  /**
   Two reports of the same results in different orders differ in nothing but the order of
   their lists of failures and skips: all counters, levels and verdicts are equal.
   */
  lemma PermutationInvariant(runner: Runner, a: seq<TestResult>, b: seq<TestResult>, p: SuiteReport, q: SuiteReport)
    requires multiset(a) == multiset(b)
    requires IsReport(runner, p, JudgeAll(runner, a)) && IsReport(runner, q, JudgeAll(runner, b))
    ensures p == q.(failures := p.failures, skips := p.skips)
    ensures multiset(p.failures) == multiset(q.failures) && multiset(p.skips) == multiset(q.skips)
  {
    var x, y := JudgeAll(runner, a), JudgeAll(runner, b);
    SameJudged(runner, a, b);
    SameTotals(p, q, x, y);
    SameLevels(runner, p.byLevel, q.byLevel, x, y);
    SameVerdicts(runner, x, y);
  }

  lemma SameTotals(p: SuiteReport, q: SuiteReport, x: seq<Judged>, y: seq<Judged>)
    requires multiset(x) == multiset(y) && Counted(p, x) && Counted(q, y)
    ensures p.total == q.total && p.passed == q.passed && p.failed == q.failed
    ensures p.skipped == q.skipped && p.errored == q.errored
    ensures multiset(p.failures) == multiset(q.failures) && multiset(p.skips) == multiset(q.skips)
  {
    SameCounts(x, y, {Pass});
    SameCounts(x, y, {Fail});
    SameCounts(x, y, {Skip});
    SameCounts(x, y, {Error});
    SameCounts(x, y, {Fail, Error});
  }

  // -----------------------------------------------------------------------------------
  // The two runners on the same results

  predicate BadStatus(status: string) { status == "fail" || status == "error" }

  ghost predicate PresentIn(results: seq<TestResult>, level: int) {
    exists r :: r in results && r.level == level
  }

  ghost predicate NoBadAt(results: seq<TestResult>, level: int) {
    forall r :: r in results && r.level == level ==> !BadStatus(r.status)
  }

  ghost predicate OnlyPassesAt(results: seq<TestResult>, level: int) {
    forall r :: r in results && r.level == level ==> r.status == "pass"
  }

  lemma VerdictMeaning(runner: Runner, status: string)
    ensures VerdictOf(runner, status) == Pass <==> status == "pass"
    ensures runner == Http ==>
      (VerdictOf(runner, status) == Fail || VerdictOf(runner, status) == Error <==> BadStatus(status))
  {
  }

  lemma ReadBack(runner: Runner, results: seq<TestResult>)
    ensures forall r :: r in results ==> Judge(runner, r) in JudgeAll(runner, results)
    ensures forall j :: j in JudgeAll(runner, results) ==> j.result in results && j == Judge(runner, j.result)
  {
    var js := JudgeAll(runner, results);
    forall r | r in results
      ensures Judge(runner, r) in js
    {
      ReadAs(runner, results, Judge(runner, r));
    }
    forall j | j in js
      ensures j.result in results && j == Judge(runner, j.result)
    {
      ReadAs(runner, results, j);
    }
  }

  /** A property of all judged results, and the property of results it stands for. */
  lemma ForAllRead(runner: Runner, results: seq<TestResult>, p: Judged -> bool, q: TestResult -> bool)
    requires forall r :: r in results ==> (p(Judge(runner, r)) <==> q(r))
    ensures (forall j :: j in JudgeAll(runner, results) ==> p(j)) <==> (forall r :: r in results ==> q(r))
  {
    ReadBack(runner, results);
    var js := JudgeAll(runner, results);
    if forall j :: j in js ==> p(j) {
      forall r | r in results ensures q(r) {
        assert Judge(runner, r) in js;
      }
    }
    if forall r :: r in results ==> q(r) {
      forall j | j in js ensures p(j) {
        assert q(j.result);
      }
    }
  }

  lemma PresentMeaning(runner: Runner, results: seq<TestResult>, level: int)
    ensures Present(level, JudgeAll(runner, results)) <==> PresentIn(results, level)
  {
    PresentExactly(level, JudgeAll(runner, results));
    ForAllRead(runner, results, (j: Judged) => j.result.level != level, (r: TestResult) => r.level != level);
  }

  lemma CleanMeaning(results: seq<TestResult>, level: int)
    ensures Clean(AtLevel(level, JudgeAll(Http, results))) <==> NoBadAt(results, level)
  {
    var js := JudgeAll(Http, results);
    AtLevelExactly(level, js);
    CleanExactly(AtLevel(level, js));
    var p := (j: Judged) => j.result.level == level ==> j.verdict != Fail && j.verdict != Error;
    var q := (r: TestResult) => r.level == level ==> !BadStatus(r.status);
    forall r | r in results ensures p(Judge(Http, r)) <==> q(r) { VerdictMeaning(Http, r.status); }
    ForAllRead(Http, results, p, q);
    assert Clean(AtLevel(level, js)) <==> forall j :: j in js ==> p(j);
  }

  lemma PassesMeaning(runner: Runner, results: seq<TestResult>, level: int)
    ensures AllPassed(AtLevel(level, JudgeAll(runner, results))) <==> OnlyPassesAt(results, level)
  {
    var js := JudgeAll(runner, results);
    AtLevelExactly(level, js);
    AllPassedExactly(AtLevel(level, js));
    var p := (j: Judged) => j.result.level == level ==> j.verdict == Pass;
    var q := (r: TestResult) => r.level == level ==> r.status == "pass";
    forall r | r in results ensures p(Judge(runner, r)) <==> q(r) { VerdictMeaning(runner, r.status); }
    ForAllRead(runner, results, p, q);
    assert AllPassed(AtLevel(level, js)) <==> forall j :: j in js ==> p(j);
  }

  lemma HttpConformantMeaning(results: seq<TestResult>)
    ensures Conformant(Http, JudgeAll(Http, results)) <==> forall r :: r in results ==> !BadStatus(r.status)
  {
    CleanExactly(JudgeAll(Http, results));
    var p := (j: Judged) => j.verdict != Fail && j.verdict != Error;
    var q := (r: TestResult) => !BadStatus(r.status);
    forall r | r in results ensures p(Judge(Http, r)) <==> q(r) { VerdictMeaning(Http, r.status); }
    ForAllRead(Http, results, p, q);
    assert Clean(JudgeAll(Http, results)) <==> forall j :: j in JudgeAll(Http, results) ==> p(j);
    assert (forall r :: r in results ==> q(r)) <==> forall r :: r in results ==> !BadStatus(r.status);
  }

  lemma GrpcConformantMeaning(results: seq<TestResult>)
    ensures Conformant(Grpc, JudgeAll(Grpc, results))
      <==> results != [] && forall r :: r in results ==> r.status == "pass"
  {
    AllPassedExactly(JudgeAll(Grpc, results));
    ReadAs(Grpc, results, Judged(TestResult("", 0, ""), Pass));
    var p := (j: Judged) => j.verdict == Pass;
    var q := (r: TestResult) => r.status == "pass";
    forall r | r in results ensures p(Judge(Grpc, r)) <==> q(r) { VerdictMeaning(Grpc, r.status); }
    ForAllRead(Grpc, results, p, q);
    assert AllPassed(JudgeAll(Grpc, results)) <==> forall j :: j in JudgeAll(Grpc, results) ==> p(j);
    assert (forall r :: r in results ==> q(r)) <==> forall r :: r in results ==> r.status == "pass";
  }

  /** The gRPC verdict implies the HTTP one; they differ exactly on clean runs that are not all passes. */
  lemma ConformanceAcrossRunners(results: seq<TestResult>)
    ensures var http := Conformant(Http, JudgeAll(Http, results));
            var grpc := Conformant(Grpc, JudgeAll(Grpc, results));
            (grpc ==> http) &&
            (http == grpc <==>
              (exists r :: r in results && BadStatus(r.status)) ||
              (results != [] && forall r :: r in results ==> r.status == "pass"))
  {
    HttpConformantMeaning(results);
    GrpcConformantMeaning(results);
  }

  /** The levels found on two views, when a level the gRPC runner reaches is reached by the HTTP runner. */
  lemma LevelsOfViews(h: View, g: View, http: int, grpc: int)
    requires forall l :: GrpcReaches(l, g) ==> HttpReaches(l, h)
    requires IsGreatest(Http, h, http) && IsGreatest(Grpc, g, grpc) && http >= -1 && grpc >= -1
    ensures grpc <= http
    ensures grpc == http <==> forall l :: HttpReaches(l, h) ==> GrpcReaches(l, g)
  {
    if grpc >= 0 {
      assert Reaches(Grpc, grpc, g) && GrpcReaches(grpc, g);
      assert Reaches(Http, grpc, h);
    }
    if http >= 0 {
      assert Reaches(Http, http, h) && HttpReaches(http, h);
      assert Reaches(Grpc, http, g) <==> GrpcReaches(http, g);
    }
    forall l | grpc == http && HttpReaches(l, h) ensures GrpcReaches(l, g) {
      assert Reaches(Http, l, h);
    }
  }

  /** The level has results, and no result up to it is a failure or an error. */
  ghost predicate CleanUpTo(results: seq<TestResult>, level: int) {
    PresentIn(results, level) && forall l :: 0 <= l <= level ==> NoBadAt(results, l)
  }

  /** Every level up to it has results and only passes. */
  ghost predicate PassedUpTo(results: seq<TestResult>, level: int) {
    forall l :: 0 <= l <= level ==> PresentIn(results, l) && OnlyPassesAt(results, l)
  }

  lemma HttpReachesMeaning(results: seq<TestResult>, level: int)
    ensures HttpReaches(level, ViewOf(JudgeAll(Http, results))) <==> 0 <= level <= 4 && CleanUpTo(results, level)
  {
    var h := ViewOf(JudgeAll(Http, results));
    forall l
      ensures h.present(l) <==> PresentIn(results, l)
      ensures h.clean(l) <==> NoBadAt(results, l)
    {
      PresentMeaning(Http, results, l);
      CleanMeaning(results, l);
    }
    assert forall l :: !PresentIn(results, l) ==> NoBadAt(results, l);
  }

  lemma GrpcReachesMeaning(results: seq<TestResult>, level: int)
    ensures GrpcReaches(level, ViewOf(JudgeAll(Grpc, results))) <==> 0 <= level <= 4 && PassedUpTo(results, level)
  {
    var g := ViewOf(JudgeAll(Grpc, results));
    forall l
      ensures g.present(l) <==> PresentIn(results, l)
      ensures g.allPassed(l) <==> OnlyPassesAt(results, l)
    {
      PresentMeaning(Grpc, results, l);
      PassesMeaning(Grpc, results, l);
    }
  }

  lemma PassedIsClean(results: seq<TestResult>, level: int)
    requires level >= 0 && PassedUpTo(results, level)
    ensures CleanUpTo(results, level)
  {
    PassIsNotBad();
    assert forall l :: OnlyPassesAt(results, l) ==> NoBadAt(results, l);
  }

  /**
   The gRPC level never exceeds the HTTP level, and equals it exactly when wherever a level
   has results and nothing failed up to it, every level up to it has results and only passes.
   */
  lemma LevelsAcrossRunners(results: seq<TestResult>)
    ensures var http := ConformantLevel(Http, JudgeAll(Http, results));
            var grpc := ConformantLevel(Grpc, JudgeAll(Grpc, results));
            grpc <= http &&
            (grpc == http <==> forall l :: 0 <= l <= 4 && CleanUpTo(results, l) ==> PassedUpTo(results, l))
  {
    var h, g := ViewOf(JudgeAll(Http, results)), ViewOf(JudgeAll(Grpc, results));
    ConformantLevelIsGreatest(Http, JudgeAll(Http, results));
    ConformantLevelIsGreatest(Grpc, JudgeAll(Grpc, results));
    forall l
      ensures HttpReaches(l, h) <==> 0 <= l <= 4 && CleanUpTo(results, l)
      ensures GrpcReaches(l, g) <==> 0 <= l <= 4 && PassedUpTo(results, l)
      ensures GrpcReaches(l, g) ==> HttpReaches(l, h)
    {
      HttpReachesMeaning(results, l);
      GrpcReachesMeaning(results, l);
      if GrpcReaches(l, g) {
        PassedIsClean(results, l);
      }
    }
    LevelsOfViews(h, g, LevelFound(Http, h), LevelFound(Grpc, g));
  }

  lemma PassIsNotBad()
    ensures !BadStatus("pass")
  {
  }

  lemma NotBadIsPass(results: seq<TestResult>, level: int)
    requires OnlyPassesOrBad(results)
    ensures NoBadAt(results, level) ==> OnlyPassesAt(results, level)
  {
  }

  ghost predicate OnlyPassesOrBad(results: seq<TestResult>) {
    forall r :: r in results ==> r.status == "pass" || BadStatus(r.status)
  }

  /** The levels 0..4 with results form an initial segment. */
  ghost predicate LevelsUpTo(results: seq<TestResult>, top: int) {
    forall l :: 0 <= l <= 4 ==> (PresentIn(results, l) <==> l <= top)
  }

  /** Both verdicts agree when only passes, failures and errors occur and no level is skipped. */
  lemma RunnersAgreeOnPlainSuites(results: seq<TestResult>, top: int)
    requires results != [] && OnlyPassesOrBad(results) && LevelsUpTo(results, top)
    ensures Conformant(Http, JudgeAll(Http, results)) == Conformant(Grpc, JudgeAll(Grpc, results))
    ensures ConformantLevel(Http, JudgeAll(Http, results)) == ConformantLevel(Grpc, JudgeAll(Grpc, results))
  {
    ConformanceAcrossRunners(results);
    PlainLevelsAgree(results, top);
  }

  lemma PlainLevelsAgree(results: seq<TestResult>, top: int)
    requires OnlyPassesOrBad(results) && LevelsUpTo(results, top)
    ensures ConformantLevel(Http, JudgeAll(Http, results)) == ConformantLevel(Grpc, JudgeAll(Grpc, results))
  {
    LevelsAcrossRunners(results);
    forall l | 0 <= l <= 4 && CleanUpTo(results, l)
      ensures PassedUpTo(results, l)
    {
      forall m | 0 <= m <= l ensures PresentIn(results, m) && OnlyPassesAt(results, m) {
        NotBadIsPass(results, m);
      }
    }
  }

  // -----------------------------------------------------------------------------------
  // Reports in terms of statuses and levels

  /** The results with a property, in order. */
  function Those(p: TestResult -> bool, results: seq<TestResult>): seq<TestResult> {
    if results == [] then [] else (if p(results[0]) then [results[0]] else []) + Those(p, results[1..])
  }

  lemma {:induction false} ThoseAlike(p: TestResult -> bool, q: TestResult -> bool, results: seq<TestResult>)
    requires forall r :: r in results ==> p(r) == q(r)
    ensures Those(p, results) == Those(q, results)
    decreases |results|
  {
    if results != [] {
      assert results[0] in results && forall r :: r in results[1..] ==> r in results;
      ThoseAlike(p, q, results[1..]);
    }
  }

  function ReadAmong(runner: Runner, vs: set<Verdict>): TestResult -> bool {
    (r: TestResult) => VerdictOf(runner, r.status) in vs
  }

  lemma JudgeHead(runner: Runner, results: seq<TestResult>)
    requires results != []
    ensures JudgeAll(runner, results) == [Judge(runner, results[0])] + JudgeAll(runner, results[1..])
  {
  }

  lemma {:induction false} SelectedAre(runner: Runner, vs: set<Verdict>, results: seq<TestResult>)
    ensures Select(vs, JudgeAll(runner, results)) == Those(ReadAmong(runner, vs), results)
    decreases |results|
  {
    if results != [] {
      SelectedAre(runner, vs, results[1..]);
      JudgeHead(runner, results);
      Uncons(Judge(runner, results[0]), JudgeAll(runner, results[1..]));
    }
  }

  /** A status both runners read for what it says. */
  function Saying(status: string): TestResult -> bool { (r: TestResult) => r.status == status }

  /** What counts as failed: for the gRPC runner every status it does not know. */
  function Failing(runner: Runner): TestResult -> bool {
    match runner
    case Http => (r: TestResult) => r.status == "fail"
    case Grpc => (r: TestResult) => r.status != "pass" && r.status != "skip" && r.status != "error"
  }

  function FailingOrError(runner: Runner): TestResult -> bool {
    (r: TestResult) => r.status == "error" || Failing(runner)(r)
  }

  lemma CountedAs(runner: Runner, vs: set<Verdict>, p: TestResult -> bool, results: seq<TestResult>)
    requires forall r :: r in results ==> (p(r) <==> VerdictOf(runner, r.status) in vs)
    ensures Select(vs, JudgeAll(runner, results)) == Those(p, results)
  {
    SelectedAre(runner, vs, results);
    ThoseAlike(ReadAmong(runner, vs), p, results);
  }

  lemma StatusesRead(runner: Runner, results: seq<TestResult>)
    ensures var js := JudgeAll(runner, results);
            Select({Pass}, js) == Those(Saying("pass"), results) &&
            Select({Skip}, js) == Those(Saying("skip"), results) &&
            Select({Error}, js) == Those(Saying("error"), results) &&
            |js| == |results|
  {
    CountedAs(runner, {Pass}, Saying("pass"), results);
    CountedAs(runner, {Skip}, Saying("skip"), results);
    CountedAs(runner, {Error}, Saying("error"), results);
    ReadAs(runner, results, Judged(TestResult("", 0, ""), Pass));
  }

  lemma FailuresRead(runner: Runner, results: seq<TestResult>)
    ensures var js := JudgeAll(runner, results);
            Select({Fail}, js) == Those(Failing(runner), results) &&
            Select({Fail, Error}, js) == Those(FailingOrError(runner), results)
  {
    CountedAs(runner, {Fail}, Failing(runner), results);
    CountedAs(runner, {Fail, Error}, FailingOrError(runner), results);
  }

  /** The counters and lists of a report, status by status. */
  lemma CountersMeaning(runner: Runner, results: seq<TestResult>, rep: SuiteReport)
    requires Counted(rep, JudgeAll(runner, results))
    ensures rep.total == |results|
    ensures rep.passed == |Those(Saying("pass"), results)| && rep.skipped == |Those(Saying("skip"), results)|
    ensures rep.failed == |Those(Failing(runner), results)| && rep.errored == |Those(Saying("error"), results)|
    ensures rep.failures == Those(FailingOrError(runner), results) && rep.skips == Those(Saying("skip"), results)
  {
    StatusesRead(runner, results);
    FailuresRead(runner, results);
  }

  function AtThatLevel(level: int): TestResult -> bool { (r: TestResult) => r.level == level }

  lemma {:induction false} LevelRead(runner: Runner, level: int, results: seq<TestResult>)
    ensures AtLevel(level, JudgeAll(runner, results)) == JudgeAll(runner, Those(AtThatLevel(level), results))
    decreases |results|
  {
    if results != [] {
      LevelRead(runner, level, results[1..]);
      JudgeHead(runner, results);
      var first, rest := results[0], Those(AtThatLevel(level), results[1..]);
      Uncons(Judge(runner, first), JudgeAll(runner, results[1..]));
      Unit(rest);
      Unit(AtLevel(level, JudgeAll(runner, results[1..])));
      if first.level == level {
        Uncons(first, rest);
        JudgeHead(runner, [first] + rest);
      }
    }
  }

  /** The summary of a level: it has one if it has results, and counts them status by status. */
  lemma LevelMeaning(runner: Runner, results: seq<TestResult>, rep: SuiteReport, level: int)
    requires LevelReported(runner, rep.byLevel, JudgeAll(runner, results), level)
    ensures var here := Those(AtThatLevel(level), results);
            (level in rep.byLevel <==> here != []) &&
            (level in rep.byLevel ==>
              var ls := rep.byLevel[level];
              ls.total == |here| && ls.passed == |Those(Saying("pass"), here)| &&
              ls.failed == |Those(Failing(runner), here)| && ls.skipped == |Those(Saying("skip"), here)| &&
              ls.errored == |Those(Saying("error"), here)| &&
              (ls.allPass <==> match runner
                case Http => 0 <= level <= 4 && CleanUpTo(results, level)
                case Grpc => OnlyPassesAt(results, level)))
  {
    LevelRead(runner, level, results);
    StatusesRead(runner, Those(AtThatLevel(level), results));
    FailuresRead(runner, Those(AtThatLevel(level), results));
    match runner {
      case Http => HttpReachesMeaning(results, level);
      case Grpc => PassesMeaning(Grpc, results, level);
    }
  }

  ghost predicate LevelPasses(runner: Runner, results: seq<TestResult>, level: int) {
    0 <= level <= 4 && match runner case Http => CleanUpTo(results, level) case Grpc => PassedUpTo(results, level)
  }

  /** The verdicts: whether all is well, and the greatest level up to which it is. */
  lemma VerdictsMeaning(runner: Runner, results: seq<TestResult>, rep: SuiteReport)
    requires IsReport(runner, rep, JudgeAll(runner, results))
    ensures rep.conformant <==> match runner
      case Http => forall r :: r in results ==> r.status != "fail" && r.status != "error"
      case Grpc => results != [] && forall r :: r in results ==> r.status == "pass"
    ensures rep.conformantLevel == -1 || LevelPasses(runner, results, rep.conformantLevel)
    ensures forall l :: LevelPasses(runner, results, l) ==> l <= rep.conformantLevel
  {
    ConformantLevelIsGreatest(runner, JudgeAll(runner, results));
    match runner {
      case Http => HttpConformantMeaning(results);
      case Grpc => GrpcConformantMeaning(results);
    }
    forall l ensures LevelPasses(runner, results, l) <==> Reaches(runner, l, ViewOf(JudgeAll(runner, results))) {
      match runner {
        case Http => HttpReachesMeaning(results, l);
        case Grpc => GrpcReachesMeaning(results, l);
      }
    }
  }
}
