/**
 The conformance reports of the two runners (buildReport in runner/http/runner.go and
 runner/grpc/runner.go). They count statuses alike, except unknown ones, and judge
 conformance differently.
 */
module Report {
  import opened Scheduler
  import opened Sequences
  import opened Text

  datatype TestResult = TestResult(testID: string, level: int, status: string)

  datatype LevelSummary = LevelSummary(
    total: nat, passed: nat, failed: nat, skipped: nat, errored: nat, allPass: bool)

  type Levels = map<int, LevelSummary>

  datatype SuiteReport = SuiteReport(
    total: nat, passed: nat, failed: nat, skipped: nat, errored: nat,
    byLevel: Levels,
    conformant: bool,
    conformantLevel: int,
    failures: seq<TestResult>,
    skips: seq<TestResult>)

  // -----------------------------------------------------------------------------------
  // Reading statuses

  datatype Verdict = Pass | Fail | Skip | Error | Unknown

  /** How a runner reads a status: the gRPC runner takes every other status for a failure. */
  function VerdictOf(runner: Runner, status: string): Verdict {
    if status == "pass" then Pass
    else if status == "skip" then Skip
    else if status == "error" then Error
    else if status == "fail" || runner == Grpc then Fail
    else Unknown
  }

  /** A result with its status read. */
  datatype Judged = Judged(result: TestResult, verdict: Verdict)

  function Judge(runner: Runner, r: TestResult): Judged {
    Judged(r, VerdictOf(runner, r.status))
  }

  function Reading(runner: Runner): TestResult -> seq<Judged> {
    (r: TestResult) => [Judge(runner, r)]
  }

  function JudgeAll(runner: Runner, results: seq<TestResult>): seq<Judged> {
    FlatMap(Reading(runner), results)
  }

  // -----------------------------------------------------------------------------------
  // Counting

  function Picked(vs: set<Verdict>): Judged -> seq<TestResult> {
    (j: Judged) => if j.verdict in vs then [j.result] else []
  }

  function Placed(level: int): Judged -> seq<Judged> {
    (j: Judged) => if j.result.level == level then [j] else []
  }

  /** The results with one of the given verdicts, in order. */
  function Select(vs: set<Verdict>, js: seq<Judged>): seq<TestResult> { FlatMap(Picked(vs), js) }

  function Count(v: Verdict, js: seq<Judged>): nat { |Select({v}, js)| }

  /** The results at one level, in order. */
  function AtLevel(level: int, js: seq<Judged>): seq<Judged> { FlatMap(Placed(level), js) }

  predicate Present(level: int, js: seq<Judged>) { AtLevel(level, js) != [] }

  predicate Clean(js: seq<Judged>) { Count(Fail, js) == 0 && Count(Error, js) == 0 }

  predicate AllPassed(js: seq<Judged>) { Count(Pass, js) == |js| }

  function Summary(js: seq<Judged>, allPass: bool): LevelSummary {
    LevelSummary(|js|, Count(Pass, js), Count(Fail, js), Count(Skip, js), Count(Error, js), allPass)
  }

  // -----------------------------------------------------------------------------------
  // The tally, one result at a time

  const EMPTY_LEVEL := LevelSummary(0, 0, 0, 0, 0, false)

  const EMPTY_REPORT := SuiteReport(0, 0, 0, 0, 0, map[], false, -1, [], [])

  /** The summary of a level with one more result; only the gRPC runner keeps allPass up to date. */
  function AddToLevel(runner: Runner, ls: LevelSummary, v: Verdict): LevelSummary {
    var more := ls.(total := ls.total + 1);
    var counted := match v
      case Pass => more.(passed := ls.passed + 1)
      case Fail => more.(failed := ls.failed + 1)
      case Skip => more.(skipped := ls.skipped + 1)
      case Error => more.(errored := ls.errored + 1)
      case Unknown => more;
    if runner == Grpc then counted.(allPass := counted.total > 0 && counted.passed == counted.total) else counted
  }

  function LevelOf(byLevel: Levels, level: int): LevelSummary {
    if level in byLevel then byLevel[level] else EMPTY_LEVEL
  }

  function AddToLevels(runner: Runner, byLevel: Levels, j: Judged): Levels {
    var level := j.result.level;
    byLevel[level := AddToLevel(runner, LevelOf(byLevel, level), j.verdict)]
  }

  function AddResult(runner: Runner, rep: SuiteReport, j: Judged): (next: SuiteReport)
    ensures next.byLevel == AddToLevels(runner, rep.byLevel, j)
  {
    var next := rep.(total := rep.total + 1, byLevel := AddToLevels(runner, rep.byLevel, j));
    match j.verdict
    case Pass => next.(passed := rep.passed + 1)
    case Fail => next.(failed := rep.failed + 1, failures := rep.failures + [j.result])
    case Skip => next.(skipped := rep.skipped + 1, skips := rep.skips + [j.result])
    case Error => next.(errored := rep.errored + 1, failures := rep.failures + [j.result])
    case Unknown => next
  }

  function Tally(runner: Runner, js: seq<Judged>): SuiteReport {
    if js == [] then EMPTY_REPORT
    else AddResult(runner, Tally(runner, js[..|js| - 1]), js[|js| - 1])
  }

  /** The overall part of a report agrees with the results read so far. */
  predicate Counted(rep: SuiteReport, js: seq<Judged>) {
    rep.total == |js| &&
    rep.passed == Count(Pass, js) && rep.failed == Count(Fail, js) &&
    rep.skipped == Count(Skip, js) && rep.errored == Count(Error, js) &&
    rep.failures == Select({Fail, Error}, js) && rep.skips == Select({Skip}, js)
  }

  lemma AddCounts(runner: Runner, rep: SuiteReport, js: seq<Judged>, j: Judged)
    requires Counted(rep, js)
    ensures Counted(AddResult(runner, rep, j), js + [j])
  {
    CountSnoc(Pass, js, j);
    CountSnoc(Fail, js, j);
    CountSnoc(Skip, js, j);
    CountSnoc(Error, js, j);
    SelectSnoc({Fail, Error}, js, j);
    SelectSnoc({Skip}, js, j);
  }

  /** What the counting loop has counted. */
  lemma {:induction false} TallyCounts(runner: Runner, js: seq<Judged>)
    ensures Counted(Tally(runner, js), js)
    decreases |js|
  {
    if js != [] {
      var before, last := js[..|js| - 1], js[|js| - 1];
      TallyCounts(runner, before);
      AddCounts(runner, Tally(runner, before), before, last);
      Unsnoc(js);
    }
  }

  lemma SelectSnoc(vs: set<Verdict>, js: seq<Judged>, j: Judged)
    ensures Select(vs, js + [j]) == Select(vs, js) + if j.verdict in vs then [j.result] else []
  {
    FlatMapSnoc(Picked(vs), js, j);
  }

  lemma AtLevelSnoc(level: int, js: seq<Judged>, j: Judged)
    ensures AtLevel(level, js + [j]) == if j.result.level == level then AtLevel(level, js) + [j] else AtLevel(level, js)
  {
    FlatMapSnoc(Placed(level), js, j);
    Unit(AtLevel(level, js));
  }

  lemma CountSnoc(v: Verdict, js: seq<Judged>, j: Judged)
    ensures Count(v, js + [j]) == Count(v, js) + One(j.verdict, v)
  {
    SelectSnoc({v}, js, j);
  }

  function One(v: Verdict, w: Verdict): nat { if v == w then 1 else 0 }

  /** One result more, in numbers. */
  lemma AddToLevelCounts(runner: Runner, ls: LevelSummary, v: Verdict)
    ensures AddToLevel(runner, ls, v) == LevelSummary(ls.total + 1,
              ls.passed + One(v, Pass), ls.failed + One(v, Fail), ls.skipped + One(v, Skip), ls.errored + One(v, Error),
              if runner == Grpc then ls.passed + One(v, Pass) == ls.total + 1 else ls.allPass)
  {
  }

  lemma SummarySnoc(runner: Runner, js: seq<Judged>, j: Judged)
    ensures var allPass := runner == Grpc && js != [] && AllPassed(js);
            Summary(js + [j], runner == Grpc && AllPassed(js + [j]))
            == AddToLevel(runner, Summary(js, allPass), j.verdict)
  {
    AddToLevelCounts(runner, Summary(js, runner == Grpc && js != [] && AllPassed(js)), j.verdict);
    CountSnoc(Pass, js, j);
    CountSnoc(Fail, js, j);
    CountSnoc(Skip, js, j);
    CountSnoc(Error, js, j);
  }

  function RunningSummary(runner: Runner, js: seq<Judged>): LevelSummary {
    Summary(js, runner == Grpc && js != [] && AllPassed(js))
  }

  /** The summary of a level is that of the results at the level; other levels have none. */
  predicate LevelCounted(runner: Runner, byLevel: Levels, js: seq<Judged>, level: int) {
    (level in byLevel <==> Present(level, js)) &&
    LevelOf(byLevel, level) == RunningSummary(runner, AtLevel(level, js))
  }

  lemma AddLevel(runner: Runner, byLevel: Levels, js: seq<Judged>, j: Judged, level: int)
    requires LevelCounted(runner, byLevel, js, level)
    ensures LevelCounted(runner, AddToLevels(runner, byLevel, j), js + [j], level)
  {
    AtLevelSnoc(level, js, j);
    if j.result.level == level {
      SummarySnoc(runner, AtLevel(level, js), j);
    }
  }

  lemma {:induction false} TallyLevel(runner: Runner, js: seq<Judged>, level: int)
    ensures LevelCounted(runner, Tally(runner, js).byLevel, js, level)
    decreases |js|
  {
    if js != [] {
      var before, last := js[..|js| - 1], js[|js| - 1];
      TallyLevel(runner, before, level);
      AddLevel(runner, Tally(runner, before).byLevel, before, last, level);
      Unsnoc(js);
    }
  }

  // -----------------------------------------------------------------------------------
  // Conformance

  /** What the conformance loops ask of a level. */
  datatype View = View(present: int -> bool, clean: int -> bool, allPassed: int -> bool)

  function ViewOf(js: seq<Judged>): View {
    View(l => Present(l, js), l => Clean(AtLevel(l, js)), l => AllPassed(AtLevel(l, js)))
  }

  /** A level without results is passed over; one that is not clean ends the search. */
  function HttpLevelFrom(view: View, level: int, best: int): int
    requires 0 <= level <= 5
    decreases 5 - level
  {
    if level == 5 then best
    else if !view.present(level) then HttpLevelFrom(view, level + 1, best)
    else if view.clean(level) then HttpLevelFrom(view, level + 1, level)
    else best
  }

  /** A level without results, or with anything but passes, ends the search. */
  function GrpcLevelFrom(view: View, level: int, best: int): int
    requires 0 <= level <= 5
    decreases 5 - level
  {
    if level == 5 || !view.present(level) || !view.allPassed(level) then best
    else GrpcLevelFrom(view, level + 1, level)
  }

  function LevelFound(runner: Runner, view: View): int {
    match runner
    case Http => HttpLevelFrom(view, 0, -1)
    case Grpc => GrpcLevelFrom(view, 0, -1)
  }

  function ConformantLevel(runner: Runner, js: seq<Judged>): int { LevelFound(runner, ViewOf(js)) }

  predicate Conformant(runner: Runner, js: seq<Judged>) {
    match runner
    case Http => Clean(js)
    case Grpc => js != [] && AllPassed(js)
  }

  /** The HTTP runner's condition on a level: it has results, and nothing failed up to it. */
  predicate HttpReaches(level: int, view: View) {
    0 <= level <= 4 && view.present(level) && forall l :: 0 <= l <= level && view.present(l) ==> view.clean(l)
  }

  /** The gRPC runner's: every level up to it has results, and all of them passed. */
  predicate GrpcReaches(level: int, view: View) {
    0 <= level <= 4 && forall l :: 0 <= l <= level ==> view.present(l) && view.allPassed(l)
  }

  predicate Reaches(runner: Runner, level: int, view: View) {
    match runner case Http => HttpReaches(level, view) case Grpc => GrpcReaches(level, view)
  }

  ghost predicate IsGreatest(runner: Runner, view: View, level: int) {
    (level == -1 || Reaches(runner, level, view)) && forall l :: level < l ==> !Reaches(runner, l, view)
  }

  lemma {:induction false} HttpSearch(view: View, level: int, best: int)
    requires 0 <= level <= 5
    requires forall l :: 0 <= l < level && view.present(l) ==> view.clean(l)
    requires best == -1 || (HttpReaches(best, view) && best < level)
    requires forall l :: 0 <= l && best < l < level ==> !view.present(l)
    ensures IsGreatest(Http, view, HttpLevelFrom(view, level, best))
    decreases 5 - level
  {
    if level < 5 {
      if !view.present(level) {
        HttpSearch(view, level + 1, best);
      } else if view.clean(level) {
        HttpSearch(view, level + 1, level);
      }
    }
  }

  lemma {:induction false} GrpcSearch(view: View, level: int)
    requires 0 <= level <= 5
    requires forall l :: 0 <= l < level ==> view.present(l) && view.allPassed(l)
    ensures IsGreatest(Grpc, view, GrpcLevelFrom(view, level, level - 1))
    decreases 5 - level
  {
    if level < 5 && view.present(level) && view.allPassed(level) {
      GrpcSearch(view, level + 1);
    }
  }

  /** The conformant level is the greatest level the runner's condition reaches, else -1. */
  lemma ConformantLevelIsGreatest(runner: Runner, js: seq<Judged>)
    ensures IsGreatest(runner, ViewOf(js), ConformantLevel(runner, js))
  {
    match runner {
      case Http => HttpSearch(ViewOf(js), 0, -1);
      case Grpc => GrpcSearch(ViewOf(js), 0);
    }
  }

  // -----------------------------------------------------------------------------------
  // The loops of the source

  /** The counting loop. */
  method TallyResults(runner: Runner, results: seq<TestResult>) returns (rep: SuiteReport)
    ensures rep == Tally(runner, JudgeAll(runner, results))
  {
    rep := EMPTY_REPORT;
    for k := 0 to |results|
      invariant rep == Tally(runner, JudgeAll(runner, results[..k]))
    {
      JudgeSnoc(runner, results, k);
      rep := CountResult(runner, rep, results[k]);
    }
    assert results[..|results|] == results;
  }

  lemma JudgeSnoc(runner: Runner, results: seq<TestResult>, k: nat)
    requires k < |results|
    ensures var js := JudgeAll(runner, results[..k + 1]);
            js != [] && js[..|js| - 1] == JudgeAll(runner, results[..k]) && js[|js| - 1] == Judge(runner, results[k])
  {
    assert results[..k + 1] == results[..k] + [results[k]];
    FlatMapSnoc(Reading(runner), results[..k], results[k]);
  }

  /** One turn of it: the counters of the report and of the result's level. */
  method CountResult(runner: Runner, before: SuiteReport, r: TestResult) returns (rep: SuiteReport)
    ensures rep == AddResult(runner, before, Judge(runner, r))
  {
    rep := before.(total := before.total + 1);
    var ls := LevelOf(rep.byLevel, r.level);
    ls := ls.(total := ls.total + 1);
    match VerdictOf(runner, r.status) {
      case Pass =>
        rep := rep.(passed := rep.passed + 1);
        ls := ls.(passed := ls.passed + 1);
      case Fail =>
        rep := rep.(failed := rep.failed + 1, failures := rep.failures + [r]);
        ls := ls.(failed := ls.failed + 1);
      case Skip =>
        rep := rep.(skipped := rep.skipped + 1, skips := rep.skips + [r]);
        ls := ls.(skipped := ls.skipped + 1);
      case Error =>
        rep := rep.(errored := rep.errored + 1, failures := rep.failures + [r]);
        ls := ls.(errored := ls.errored + 1);
      case Unknown =>
    }
    if runner == Grpc {
      ls := ls.(allPass := ls.total > 0 && ls.passed == ls.total);
    }
    rep := rep.(byLevel := rep.byLevel[r.level := ls]);
  }

  /** The level summaries, as far as the conformance loops look at them. */
  ghost predicate Shows(byLevel: Levels, view: View, level: int) {
    (level in byLevel <==> view.present(level)) &&
    (level in byLevel ==>
      byLevel[level].total > 0 &&
      (byLevel[level].failed == 0 && byLevel[level].errored == 0 <==> view.clean(level)))
  }

  /** What the HTTP loop leaves of a level: its counters, and allPass for the levels reached. */
  ghost predicate Marked(before: Levels, after: Levels, view: View, level: int, visited: int) {
    (level in after <==> level in before) &&
    (level in after ==>
      after[level] == if level < visited then before[level].(allPass := HttpReaches(level, view)) else before[level])
  }

  ghost predicate FinallyMarked(before: Levels, after: Levels, view: View, level: int) {
    Marked(before, after, view, level, level + 1)
  }

  /** The conformance loop of the HTTP runner: it also fills in allPass, up to the first failure. */
  method HttpConformance(before: Levels, ghost view: View) returns (byLevel: Levels, best: int)
    requires forall l :: Shows(before, view, l)
    requires forall l :: l in before ==> !before[l].allPass
    ensures best == LevelFound(Http, view)
    ensures forall l :: FinallyMarked(before, byLevel, view, l)
  {
    best, byLevel := -1, before;
    for lvl := 0 to 5
      invariant HttpLevelFrom(view, lvl, best) == LevelFound(Http, view)
      invariant forall l :: 0 <= l < lvl && view.present(l) ==> view.clean(l)
      invariant forall l :: Marked(before, byLevel, view, l, lvl)
    {
      assert Shows(before, view, lvl) && Marked(before, byLevel, view, lvl, lvl);
      MarkNext(before, byLevel, view, lvl, lvl + 1);
      if lvl !in byLevel {
        continue;
      }
      var ls := byLevel[lvl];
      ls := ls.(allPass := ls.failed == 0 && ls.errored == 0);
      byLevel := byLevel[lvl := ls];
      if ls.allPass && ls.total > 0 {
        best := lvl;
      } else {
        MarkedAll(before, byLevel, view, lvl + 1);
        return;
      }
    }
    MarkedAll(before, byLevel, view, 5);
  }

  lemma MarkNext(before: Levels, byLevel: Levels, view: View, lvl: int, next: int)
    requires 0 <= lvl <= 4 && next == lvl + 1
    requires Shows(before, view, lvl)
    requires forall l :: 0 <= l < lvl && view.present(l) ==> view.clean(l)
    requires forall l :: Marked(before, byLevel, view, l, lvl)
    ensures lvl !in byLevel ==> forall l :: Marked(before, byLevel, view, l, next)
    ensures lvl in byLevel ==>
      var after := byLevel[lvl := byLevel[lvl].(allPass := view.clean(lvl))];
      forall l :: Marked(before, after, view, l, next)
  {
    assert Marked(before, byLevel, view, lvl, lvl);
    var after := if lvl in byLevel then byLevel[lvl := byLevel[lvl].(allPass := view.clean(lvl))] else byLevel;
    forall l
      ensures Marked(before, after, view, l, next)
    {
      assert Marked(before, byLevel, view, l, lvl);
    }
  }

  /** Levels behind the last one looked at are not reached, and their allPass is still false. */
  lemma MarkedAll(before: Levels, byLevel: Levels, view: View, visited: int)
    requires 0 <= visited <= 5
    requires forall l :: l in before ==> !before[l].allPass
    requires forall l :: Marked(before, byLevel, view, l, visited)
    requires visited == 5 || (visited > 0 && view.present(visited - 1) && !view.clean(visited - 1))
    ensures forall l :: FinallyMarked(before, byLevel, view, l)
  {
    forall l
      ensures FinallyMarked(before, byLevel, view, l)
    {
      assert Marked(before, byLevel, view, l, visited);
    }
  }

  /** The conformance loop of the gRPC runner. */
  method GrpcConformance(byLevel: Levels, ghost view: View) returns (best: int)
    requires forall l :: l in byLevel <==> view.present(l)
    requires forall l :: l in byLevel ==> byLevel[l].allPass == view.allPassed(l)
    ensures best == LevelFound(Grpc, view)
  {
    best := -1;
    for level := 0 to 5
      invariant GrpcLevelFrom(view, level, best) == LevelFound(Grpc, view)
    {
      if level !in byLevel || !byLevel[level].allPass {
        return;
      }
      best := level;
    }
  }

  /** What a finished report says of a level. */
  predicate LevelReported(runner: Runner, byLevel: Levels, js: seq<Judged>, level: int) {
    (level in byLevel <==> Present(level, js)) &&
    (level in byLevel ==>
      byLevel[level] == Summary(AtLevel(level, js), ReportedAllPass(runner, js, level)))
  }

  predicate ReportedAllPass(runner: Runner, js: seq<Judged>, level: int) {
    match runner case Http => HttpReaches(level, ViewOf(js)) case Grpc => AllPassed(AtLevel(level, js))
  }

  /** The counters and the levels of a report are those of the results read. */
  ghost predicate Accounts(runner: Runner, rep: SuiteReport, js: seq<Judged>) {
    Counted(rep, js) && forall l :: LevelReported(runner, rep.byLevel, js, l)
  }

  /** A report of the results read: it accounts for them and judges them. */
  ghost predicate IsReport(runner: Runner, rep: SuiteReport, js: seq<Judged>) {
    Accounts(runner, rep, js) &&
    rep.conformant == Conformant(runner, js) &&
    rep.conformantLevel == ConformantLevel(runner, js)
  }

  lemma HttpShows(byLevel: Levels, js: seq<Judged>)
    requires forall l :: LevelCounted(Http, byLevel, js, l)
    ensures forall l :: Shows(byLevel, ViewOf(js), l)
    ensures forall l :: l in byLevel ==> !byLevel[l].allPass
  {
    forall l ensures Shows(byLevel, ViewOf(js), l) && (l in byLevel ==> !byLevel[l].allPass) {
      assert LevelCounted(Http, byLevel, js, l);
    }
  }

  lemma HttpReported(before: Levels, after: Levels, js: seq<Judged>)
    requires forall l :: LevelCounted(Http, before, js, l)
    requires forall l :: FinallyMarked(before, after, ViewOf(js), l)
    ensures forall l :: LevelReported(Http, after, js, l)
  {
    forall l ensures LevelReported(Http, after, js, l) {
      assert LevelCounted(Http, before, js, l) && FinallyMarked(before, after, ViewOf(js), l);
    }
  }

  lemma GrpcReported(byLevel: Levels, js: seq<Judged>)
    requires forall l :: LevelCounted(Grpc, byLevel, js, l)
    ensures forall l :: l in byLevel <==> ViewOf(js).present(l)
    ensures forall l :: l in byLevel ==> byLevel[l].allPass == ViewOf(js).allPassed(l)
    ensures forall l :: LevelReported(Grpc, byLevel, js, l)
  {
    forall l ensures (l in byLevel <==> ViewOf(js).present(l)) && LevelReported(Grpc, byLevel, js, l) {
      assert LevelCounted(Grpc, byLevel, js, l);
    }
  }

  /** The results counted, overall and by level. */
  ghost predicate Tallied(runner: Runner, rep: SuiteReport, js: seq<Judged>) {
    Counted(rep, js) && forall l :: LevelCounted(runner, rep.byLevel, js, l)
  }

  lemma TallyIsTallied(runner: Runner, js: seq<Judged>)
    ensures Tallied(runner, Tally(runner, js), js)
  {
    TallyCounts(runner, js);
    forall l ensures LevelCounted(runner, Tally(runner, js).byLevel, js, l) {
      TallyLevel(runner, js, l);
    }
  }

  /** The verdict of the HTTP runner. */
  method HttpVerdict(tally: SuiteReport, ghost js: seq<Judged>) returns (rep: SuiteReport)
    requires Tallied(Http, tally, js)
    ensures IsReport(Http, rep, js)
  {
    HttpShows(tally.byLevel, js);
    var byLevel, best := HttpConformance(tally.byLevel, ViewOf(js));
    HttpReported(tally.byLevel, byLevel, js);
    rep := tally.(byLevel := byLevel, conformantLevel := best, conformant := tally.failed == 0 && tally.errored == 0);
  }

  /** The verdict of the gRPC runner. */
  method GrpcVerdict(tally: SuiteReport, ghost js: seq<Judged>) returns (rep: SuiteReport)
    requires Tallied(Grpc, tally, js)
    ensures IsReport(Grpc, rep, js)
  {
    GrpcReported(tally.byLevel, js);
    var best := GrpcConformance(tally.byLevel, ViewOf(js));
    rep := tally.(conformantLevel := best, conformant := tally.total > 0 && tally.passed == tally.total);
  }

  /** buildReport: the overall counters, the levels and the verdict, all in terms of the results. */
  method BuildReport(runner: Runner, results: seq<TestResult>) returns (rep: SuiteReport)
    ensures IsReport(runner, rep, JudgeAll(runner, results))
  {
    rep := TallyResults(runner, results);
    ghost var js := JudgeAll(runner, results);
    TallyIsTallied(runner, js);
    match runner {
      case Http => rep := HttpVerdict(rep, js);
      case Grpc => rep := GrpcVerdict(rep, js);
    }
  }
}
