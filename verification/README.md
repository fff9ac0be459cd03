# Verification of the OJS conformance tools

This project models the three parts of the OJS conformance repository whose behaviour is easiest
to get wrong, and proves what they do for all inputs, runs and interleavings.

* **The assertion language** (`lib/assertions.go`). Paths are interpreted on text: split at dots
  outside brackets, walked part by part, and, behind a wildcard, joined and split again. The model
  keeps that interpreter (`PathSplit`, `PathResolve`, with the source's loops as methods), gives the
  language an abstract syntax and a structural meaning (`PathSyntax`), and proves that the first
  refines the second (`PathRefinement`), which laws the language has (`PathLaws`), and exactly when
  it agrees with what its documentation says (`PathReadings`); `PathText` says what a filter finds, as
  it is written in test cases. Matchers are recursive predicates over JSON trees (`Matcher`);
  `MatcherMeaning` says word by word and operator by operator what they accept, and `MatcherReadings`
  exactly when that is what the documentation says. On plain matchers acceptance is a partial order, and
  on a much larger class it is monotone in it (`MatcherOrder`).
* **The step scheduler and report builder of the HTTP and gRPC runners** (`runner/http/runner.go`,
  `runner/grpc/runner.go`). `Template` expands references, `StepExecution` is one step as a function
  of its resolved texts, with the source's loops as methods, and `StepMeaning` what a step sends,
  stores and reports in terms of its assertions, the stored bodies and the response; `Interleaving`
  is a parallel group as a state machine over atomic reads and writes of the shared results,
  `Scheduler` and `SchedulerOrder` say which steps run together and how often, `Execution` puts them
  together in the loops of the source, `TestRun` says when a whole test case passes, `Report` and
  `ReportLaws` count the results and compare the two runners' verdicts.
* **The Debug Adapter Protocol adapter** (`cmd/exec-history-dap`). `DapServer` is the interactive
  server, a class whose methods update its fields in place, against a transition function on states;
  `DapSessions` proves what any sequence of requests yields; `DapExplorer` that a client which
  expands every reference rebuilds the data; `DapEmitter` is the batch emitter, which tells the same
  story as the server; `DapMeaning` states what a client sees in terms of the spans' fields and of
  its requests; `DapFraming`, `DapFramingLaws`, `DapFramingEnds` and `DapFramingText` are the
  Content-Length framing of the protocol ("Base Protocol" in the Debug Adapter Protocol
  specification), written and read back.

`Text`, `Decimal`, `Json` and `Sequences` hold what these share: the string and number functions of
Go's library that the code uses, decoded JSON, and lists built piecewise.

What comes from outside is a parameter: the server under test, JSON encoding and decoding, Go's `%v`
rendering, and regular expressions. The order in which Go visits the keys of a map is a choice, made
anew each time. The trace file is an arbitrary list of spans.

## What turned out not to hold as one might expect

* The HTTP runner does not run every step once. In a run of consecutive group members, one without
  `parallel_with` that is not the first of the run, and stands directly before one with it, takes that
  step along again. `HttpRunsOnceInOrder` gives the exact condition, `HttpRunsEveryStep` the number of
  repeats, `StragglerRunsTwice` the smallest example.
* "p.q" is not always "q on what p yields": a missing plain field ends the whole path with nil, where
  q on nil is an error (`PathComposition`, both directions).
* A filter's text is read back as written only if its key neither contains "==" nor ends in "=", and
  its value neither starts nor ends with a quote (`FilterTextExact`, both directions).
* A filter is understood exactly where it opens the brackets of its part or stands directly behind a
  wildcard, which runs it on each item (`FilterUnderstoodExactly`, both directions). Behind an index it is
  an error, unless the path ends before it at a missing plain field and is nil (`FilterAfterIndexFails`,
  both directions); behind a wildcard and indexes that error leaves out every item, and the path is the
  empty list (`FilterAfterStarAndIndexIsEmpty`). Brackets behind a filter are dropped, in any path
  (`BracketsAfterFilterDropped`). The evaluator covers filters in all these places (`ResolveRefinesEval`).
* Matching numbers is neither transitive nor antisymmetric in general, because other numbers than whole
  ones match up to 1e-9: 1.0 and 1.0000000008 accept each other. It chains exactly when at least two of
  the three numbers are whole (`NumbersTransitiveExactly`) and is antisymmetric exactly when both are
  (`NumbersAntisymmetricExactly`).
* Of the matchers on lists, "contains:" and "not_contains:" may turn from a pass into a failure when an
  item gets more fields, exactly when the item is then rendered differently (`ContainsIsNotMonotone`).
* The server's `Run` takes the end of input right after a header block for a clean end, because the
  error it gets wraps io.EOF (`InteractiveEnds`); `ReadDAPMessages` does so after a header line
  (`BatchEnds`). On arbitrary input `Run` also ends without an error at a "Content-Length:" line with
  nothing or a bare sign behind it, whatever follows, since scanning that wraps io.EOF as well, and where
  headers end that give no length or a negative one; `CleanEndExactly` and `RunEndsExactly` give the
  exact condition.
* The comment on `varsFromMap` speaks of arrays getting references too; only objects do (`ListShows`).
* `docs/test-case-reference.md` calls `$` the root of the document. Where that reading yields a value, the code
  agrees exactly when a dot follows; in `$` alone, `$[0]` or `$[*]` it is the name of a field (`RootNeedsDot`, `DollarIsAField`).
* The same document says that a wildcard yields a flattened array without the elements that fail to
  resolve. "p[*].q" yields that list exactly when q resolves to neither nil nor an array on any element,
  and "p[*]" exactly when no element is an array (`WildcardFlattens`, `WildcardAloneFlattens`).

* Matchers too differ from that document. "any" takes null and "exists" refuses it, the other way round
  (`AnyAsDocumented`, `ExistsAsDocumented`). "~x" has no minimum tolerance of 100, so it is as documented
  on every number exactly when x is 200 or more (`CloseAsDocumented`, `CloseAgreesExactly`). Numbers match
  exactly only when both are whole (`NumberAsDocumented`). Operators in one object do not combine: the
  first in a fixed order decides, which agrees exactly when it refuses or all others accept too
  (`FirstOperatorDecides`, `CombinationAsDocumented`). `$empty` accepts everything (`EmptyOperator`), and an
  assertion under `$` is never evaluated (`DollarIsNotEvaluated`).

The model follows the code throughout.

## Model

| member | source | states |
|---|---|---|
| PathSplit.SplitJSONPath | lib/assertions.go:718-742 | the scanning loop computes the recursive split |
| PathSplit.JoinSplit | lib/assertions.go:718-742 | splitting loses nothing on any string, unbalanced brackets included: joining the parts restores it, plus one dot exactly if it ended in a splitting dot |
| PathSplit.SplitJoinExact | lib/assertions.go:718-742 | a list of parts comes back from joining and splitting if and only if no part holds a splitting dot, all but the last are balanced, and the last is not empty |
| PathResolve.ResolveJSONPath | lib/assertions.go:562-715 | the loop over the parts, with its early returns and recursive calls, computes the recursive interpreter |
| PathResolve.WalkFilter | lib/assertions.go:590-640 | the filter branch continues from the first match, or returns what the text behind it yields |
| PathResolve.WalkIndexes | lib/assertions.go:641-700 | the bracket loop, chained indexes and the wildcard that ends the walk |
| PathResolve.CollectAll | lib/assertions.go:672-683 | the wildcard's loop collects, in order, the results that are neither errors nor nil |
| PathResolve.DotBehindWildcard | lib/assertions.go:661-669 | a dot that brackets which do not match leave behind a wildcard is dropped before the rest is resolved |
| PathResolve.FindMatch | lib/assertions.go:614-631 | the filter's loop finds the first object whose key renders as the value |
| PathResolve.FirstMatch | lib/assertions.go:614-631 | the result matches and nothing before it in the list does, or nothing in the list matches |
| Decimal.AtoiReads | lib/assertions.go:686-689 | digits, with or without a sign, are an index up to the bounds of int64 |
| Decimal.AtoiRefuses | lib/assertions.go:686-689 | anything else is none |
| PathRefinement.ResolveRefinesEval | lib/assertions.go:562-742 | for every well-formed path, indexes, wildcards and filters in any order in the brackets of a part, resolving its printed text, with or without "$.", gives the value, nil or error of the structural evaluator |
| PathRefinement.PartsSeparable | lib/assertions.go:718-742 | the printed parts of a well-formed path survive the split, whatever indexes, wildcards and filters they hold |
| PathRefinement.RemainingRefines | lib/assertions.go:661-684 | what a wildcard joins from unread brackets, filters among them, and parts is the text of the rest of the path, and resolving it again walks that rest |
| PathRefinement.EachRefines | lib/assertions.go:672-683 | the wildcard's results are the structural evaluator's results on each item, a filter left unread opening there |
| PathRefinement.FilterTextExact | lib/assertions.go:599-607 | a filter condition is read back as written if and only if key and value avoid "==", a final "=" and end quotes |
| PathRefinement.EveryConditionIsCovered | lib/assertions.go:591-604 | every text without brackets between the opening and the end of a filter is the condition of a well-formed filter, readable or not |
| PathText.QuotesAreRead | lib/assertions.go:591-607 | a filter written with single quotes, double quotes or none around its value is read as its key and its value |
| PathText.FilterLaw | lib/assertions.go:590-640 | such a filter behind a name takes, from the list there, the first object whose key is rendered as the value, or nil, and what follows goes on from it; anything but a list is an error |
| PathLaws.EvalInTwoLegs | lib/assertions.go:571-711 | evaluating p then q in one go is walking p, and going on with q unless p ended at a missing field |
| PathLaws.PathComposition | lib/assertions.go:562-715 | "p.q" resolves to what q resolves to on p's result, exactly when the walk along p does not end at a missing plain field; a non-nil result is enough |
| PathLaws.WildcardRestLaw | lib/assertions.go:654-684 | a wildcard followed by any brackets, indexes, wildcards or filters, and any parts: the in-order list of the non-nil successes of what follows on the items of p's array |
| PathLaws.WildcardLaw | lib/assertions.go:654-684 | "p[*].q" is the in-order list of the non-nil successes of q on the items of p's array |
| PathLaws.WildcardAlone | lib/assertions.go:672-683 | "p[*]" alone is the array itself, nils included |
| PathLaws.BracketsAfterFilterDropped | lib/assertions.go:631-640 | brackets written behind a filter, itself behind any brackets, have no effect, anywhere in a path, behind wildcards too, and on any document |
| PathLaws.FilterAfterIndexFails | lib/assertions.go:641-709 | a path without wildcards up to a filter written behind indexes, whatever stands behind it, is an error if and only if the walk does not end before it at a missing plain field, and nil otherwise |
| PathLaws.FilterAfterStarAndIndexIsEmpty | lib/assertions.go:654-684 | behind a wildcard and indexes a filter makes the path the empty list |
| PathLaws.FilterUnderstoodExactly | lib/assertions.go:590-709 | some document tells a filter from one that cannot be read if and only if it opens its part or stands directly behind a wildcard |
| PathReadings.DollarIsAField | lib/assertions.go:563-566 | without a dot behind it `$` reads the field of that name of an object, and the path is an error on anything else |
| PathReadings.RootNeedsDot | docs/test-case-reference.md:426-435 | where reading `$` as the root yields a value, the code agrees if and only if a dot follows the `$` |
| PathReadings.WildcardFlattens | docs/test-case-reference.md:459-463 | "p[*].q" is the flattened list of all successes if and only if q yields neither nil nor an array on any item |
| PathReadings.WildcardAloneFlattens | docs/test-case-reference.md:459-463 | "p[*]" is the flattened list if and only if no item is an array |
| Matcher.MatchFields | lib/assertions.go:404-425 | the field loop, keys visited in any order, succeeds if and only if every field matches, that is, if the object matcher accepts the object; else it names a failing field |
| MatcherMeaning.WordsOfPresence | lib/assertions.go:81-95 | "any" takes everything, "absent" only nil, "exists" everything else |
| MatcherMeaning.WordsForStrings | lib/assertions.go:97-135 | the words for strings take strings only: non-empty, or of the given pattern |
| MatcherMeaning.WordsForNumbers | lib/assertions.go:137-155 | the words for numbers take numbers above 0, or not below |
| MatcherMeaning.WordsForArrays | lib/assertions.go:157-176 | the words for arrays take arrays with items, or without |
| MatcherMeaning.MinLength | lib/assertions.go:179-210 | both spellings take arrays of so many items or more, and nothing if the length is no integer |
| MatcherMeaning.Length | lib/assertions.go:213-227 | arrays of exactly so many items |
| MatcherMeaning.ListContains | lib/assertions.go:230-242 | lists with an item rendered as the text |
| MatcherMeaning.ListLacks | lib/assertions.go:245-257 | lists without one |
| MatcherMeaning.StringContaining | lib/assertions.go:260-270 | strings that have the text somewhere in them |
| MatcherMeaning.NumberInRange | lib/assertions.go:273-285 | numbers between the bounds, both included |
| MatcherMeaning.ArrayOfLength | lib/assertions.go:287-298 | arrays of exactly so many items, in the other spelling |
| MatcherMeaning.NumberCloseTo | lib/assertions.go:300-312 | "~x" takes numbers from half of x to one and a half of it |
| MatcherMeaning.StringLike | lib/assertions.go:314-328 | strings that the pattern matches |
| MatcherMeaning.OtherStrings | lib/assertions.go:330-338 | a string that is no word and starts like none takes itself alone |
| MatcherMeaning.Numbers | lib/assertions.go:341-358 | whole numbers match when equal, others up to 1e-9 |
| MatcherMeaning.NullsAndBooleans | lib/assertions.go:32-64 | null takes nil, a boolean itself |
| MatcherMeaning.Arrays | lib/assertions.go:360-374 | arrays match item by item, at equal length |
| MatcherMeaning.Objects | lib/assertions.go:404-426 | without operators each field must be there and match, and one wanted absent must not be there |
| MatcherMeaning.ExistsOperator | lib/assertions.go:428-453 | $exists true takes everything but nil, false or null only nil; $type, a string, must be the value's type |
| MatcherMeaning.TypeNames | lib/assertions.go:540-557 | the names of the six types |
| MatcherMeaning.MatchOperator | lib/assertions.go:455-475 | strings that the pattern matches |
| MatcherMeaning.InOperator | lib/assertions.go:477-491 | values that some item of the list takes |
| MatcherMeaning.SizeOperator | lib/assertions.go:493-522 | arrays of the size, or of the $gte or more |
| MatcherMeaning.OrOperator | lib/assertions.go:524-538 | values that some alternative takes |
| MatcherMeaning.EmptyOperator | lib/assertions.go:393-399 | everything |
| MatcherMeaning.RangeOperator | lib/assertions.go:744-774 | numbers within those bounds that are given |
| MatcherReadings.AnyAsDocumented | docs/test-case-reference.md:244 | "any" takes what it is documented to, on a value that is not nil and on no other |
| MatcherReadings.ExistsAsDocumented | docs/test-case-reference.md:246 | "exists", documented to take every value, takes exactly those that are not nil |
| MatcherReadings.CloseAsDocumented | docs/test-case-reference.md:278-280 | "~x" differs from its documentation exactly on numbers off by more than half of x, but by 100 or less |
| MatcherReadings.CloseAgreesExactly | docs/test-case-reference.md:278-280 | "~x" is as documented on every value if and only if x is 200 or more |
| MatcherReadings.NumberAsDocumented | docs/test-case-reference.md:273 | a number differs from exact matching exactly on other numbers within 1e-9, unless both are whole |
| MatcherReadings.FirstOperatorDecides | lib/assertions.go:376-402 | an object with operators takes what its first operator takes, in the order of the source |
| MatcherReadings.CombinationAsDocumented | docs/test-case-reference.md:329 | operators combine as documented if and only if the first refuses the value or all others take it too |
| MatcherReadings.DollarIsNotEvaluated | runner/http/runner.go:537-540 | a body assertion under `$` or another word that starts with it, without a dot, never fails |
| MatcherOrder.PlainMatchIsExtension | lib/assertions.go:29-77 | among actual values whose numbers are whole, a plain matcher accepts exactly those that extend it, at any depth |
| MatcherOrder.PlainMatchingIsPartialOrder | lib/assertions.go:341-426 | acceptance between plain values is reflexive, transitive and antisymmetric |
| MatcherOrder.NumbersTransitiveExactly | lib/assertions.go:341-358 | for each pattern of whole and other numbers: acceptance chains on all triples of the pattern if and only if at least two of the three are whole |
| MatcherOrder.NumbersAntisymmetricExactly | lib/assertions.go:341-358 | numbers of a pattern that accept each other are always equal if and only if both are whole |
| MatcherOrder.MatchingIsTransitive | lib/assertions.go:29-77 | on matchers without reserved words acceptance chains wherever at least two of three corresponding numbers are whole |
| MatcherOrder.WidthMonotone | lib/assertions.go:360-538 | adding object fields at any depth never turns a pass into a failure, through arrays, objects, $in and $or, without absent fields and contains: |
| MatcherOrder.AbsentFieldIsNotMonotone | lib/assertions.go:410-417 | giving a value the field a matcher wants absent always fails it |
| MatcherOrder.ContainsIsNotMonotone | lib/assertions.go:229-257 | when an item of a list gets more fields, some contains: and some not_contains: turn from a pass into a failure if and only if the item is rendered differently |
| Template.MatcherTemplatesSame | runner/http/runner.go:702-712 | the shortcut for matchers without a reference changes nothing |
| Template.TemplateFrame | runner/http/runner.go:666-698 | a text resolves the same against any results that agree on the steps it names |
| Template.UnresolvedTextUnchanged | runner/http/runner.go:675-683 | a text whose references name only steps without a parsed body is left as it is |
| Template.ReadsResolve | runner/http/runner.go:666-698 | reading the results once for each reference gives the resolved text, if the reads are those of one state of the results |
| Template.ReadReference | runner/http/runner.go:666-673 | a printed reference is recognised, whatever follows it |
| Template.NoReferenceInLiteral | runner/http/runner.go:666-668 | no reference begins inside a literal, not even across its end |
| Template.ExpansionIsExact | runner/grpc/runner.go:499-531 | in any document of literals and references each resolvable reference is replaced by its rendering, all other text stays, substituted text is not read again |
| Template.ReferenceIsReplaced | runner/http/runner.go:666-673 | a reference as it is written, behind literal text and before any text, is replaced, and the rest resolved on its own |
| Template.UnresolvableStays | runner/http/runner.go:675-683 | without the step, its body or a value other than nil the reference stays as written |
| Template.ResolvedIsRendered | runner/http/runner.go:685-697 | a string is put in as it is, a whole number in digits, another number by %v, anything else as JSON |
| Template.NamedAreReferenced | runner/http/runner.go:666-675 | the steps a document names are exactly those its references are to |
| StepExecution.SlotFrame | runner/http/runner.go:542-544 | each templated text of a step depends only on the results the step names |
| StepExecution.StepFrame | runner/http/runner.go:367-460 | a step's outcome depends only on the results its templates name |
| StepExecution.ReadsGiveTexts | runner/http/runner.go:675-683 | one read for each reference of each text of a step, against one state of the results, gives all its texts |
| StepExecution.OrderIrrelevant | runner/http/runner.go:535-576 | map iteration order changes no body failure and no count of them |
| StepExecution.FinishAgrees | runner/http/runner.go:463-663 | however its body and header assertions are visited, a step has the same result and the same failures up to their order |
| StepExecution.EvaluateBody | runner/http/runner.go:535-576 | the loop over the body assertions reports the failures of each entry, in the order of the visit |
| StepExecution.BodyFailuresMeaning | runner/http/runner.go:535-576 | the failures reported are exactly those of the visited paths that are no operator and either fail to resolve, unless wanted absent, or resolve to a value their matcher refuses |
| StepExecution.EvaluateOr | runner/http/runner.go:495-533 | the loop over the $or alternatives reports one failure if all of them fail |
| StepExecution.Evaluate | runner/http/runner.go:463-663 | the failures of status, $or, body, absent fields, headers and the rest, in that order |
| StepExecution.RunStep | runner/http/runner.go:367-460 | one step resolved, sent and evaluated is the step as a function |
| StepMeaning.StepSends | runner/http/runner.go:384-452 | a step that is no wait sends its path and body with references replaced by the stored bodies, and stores the response with its parsed body |
| StepMeaning.StepReports | runner/http/runner.go:463-663 | it reports one failure if there is no answer; else, among them all, exactly the failures that a status check, an unmatched $or, a failing body entry, a field present but wanted absent, a header or another check has cause for |
| StepMeaning.WaitOnly | runner/http/runner.go:373-383 | WAIT, in upper or lower case, sends and reports nothing |
| StepMeaning.NamesExactly | runner/http/runner.go:386-544 | the steps a step depends on are those its path, body, assertions and alternatives refer to |
| Interleaving.MemberSeesStart | runner/http/runner.go:319-330 | a running member finds every result it names as it was when the group started |
| Interleaving.InterleavingIsSequential | runner/http/runner.go:310-338 | for a group whose members name no other member, every interleaving of writes and reads, one read for each reference, each evaluation visiting its maps in any order, leaves the final results, in order the results, and member by member the failures (as multisets) of running them one after the other |
| Interleaving.RunGroup | runner/grpc/runner.go:150-178 | a scheduler that picks goroutines at will always lets the group finish, by some such interleaving |
| Scheduler.CollectHttpGroup | runner/http/runner.go:353-364 | the HTTP collecting loop computes its recursive specification |
| Scheduler.CollectGrpcGroup | runner/grpc/runner.go:193-207 | the gRPC collecting loop computes its recursive specification |
| SchedulerOrder.HttpBatch | runner/http/runner.go:308-310 | the HTTP runner starts a member together with all followers behind it in its run |
| SchedulerOrder.GrpcBatch | runner/grpc/runner.go:148-150 | the gRPC runner starts a member together with all that is left of its run |
| SchedulerOrder.HttpFollowsPlan | runner/http/runner.go:300-347 | the bookkeeping of executed ids amounts to a plan that reads off the runs of members |
| SchedulerOrder.GrpcFollowsPlan | runner/grpc/runner.go:143-187 | the same for gRPC: each run of members is one batch |
| SchedulerOrder.GrpcRunsOnceInOrder | runner/grpc/runner.go:130-207 | with distinct ids the gRPC runner starts every step exactly once, in step order, whatever the links |
| SchedulerOrder.HttpRunsEveryStep | runner/http/runner.go:286-364 | with distinct ids the HTTP runner starts every step, and exactly as many more as leaders inside runs drag along |
| SchedulerOrder.HttpRunsOnceInOrder | runner/http/runner.go:286-364 | it starts every step exactly once, and then in order, if and only if no leader inside a run stands directly before a follower |
| SchedulerOrder.StragglerRunsTwice | runner/http/runner.go:353-364 | for A, B with A, C, D with C it starts the batches A, B, D and C, D |
| SchedulerOrder.RunnersAgree | runner/grpc/runner.go:193-207 | the runners form the same batches if and only if in each run only the first step has no parallel_with |
| Execution.ParallelGroups | runner/http/runner.go:291-297 | the loop collects the ids on either side of a parallel_with link |
| Execution.CollectBatch | runner/http/runner.go:307-310 | what is started at a step: a group of more than one, or the step alone |
| Execution.RunBatch | runner/http/runner.go:310-346 | a batch leaves what some complete interleaving of its members leaves |
| Execution.ExecuteStepsWithParallel | runner/http/runner.go:286-350 | results, failures and stored results are those of the planned batches, in order, under some interleaving of each that lets all its members finish |
| Execution.GrpcIsSequential | runner/grpc/runner.go:130-190 | with distinct ids and independent groups a gRPC test case returns the results, the failures (as a multiset) and the stored results of running its steps one after the other, whatever the interleavings and visiting orders |
| Execution.HttpIsSequential | runner/http/runner.go:286-350 | so does an HTTP test case when no step is repeated |
| Execution.PassesExactly | runner/http/runner.go:332-346 | the failures returned are those of the steps: none if and only if no step has any |
| TestRun.RunTest | runner/http/runner.go:232-282 | the status is error if and only if a setup step fails, else pass if and only if the steps left no failure |
| TestRun.GrpcPasses | runner/grpc/runner.go:102-124 | with distinct ids and independent groups the steps leave no failure if and only if each, taken in order, is answered and no assertion has cause to complain |
| TestRun.HttpPasses | runner/http/runner.go:259-279 | the same for HTTP when no step is repeated |
| TestRun.TestPasses | runner/http/runner.go:232-282 | so setup and steps pass if and only if all of them succeed, taken in order from nothing stored |
| Report.TallyCounts | runner/http/runner.go:732-756 | the counters and lists of a report are those of the results read, status by status |
| Report.TallyLevel | runner/http/runner.go:734-755 | the summary of each level is that of the results at the level, and other levels have none |
| Report.ConformantLevelIsGreatest | runner/http/runner.go:758-772 | the level found is the greatest present level up to 4 with nothing failed at levels 0 to it (gRPC: with all levels up to it present and passed), else -1 |
| Report.TallyResults | runner/http/runner.go:732-756 | the counting loop computes the tally |
| Report.HttpConformance | runner/http/runner.go:758-772 | the HTTP level loop finds that level and marks AllPass on exactly the levels reached |
| Report.GrpcConformance | runner/grpc/runner.go:595-601 | the gRPC level loop finds that level |
| Report.BuildReport | runner/grpc/runner.go:546-604 | counters, levels with their AllPass, Conformant and ConformantLevel in terms of the results, for both runners |
| ReportLaws.TotalsConserved | runner/http/runner.go:732-756 | in any report that counts the results the total is the sum of the four counters: always for gRPC, for HTTP if and only if every status is one of the four |
| ReportLaws.LevelsConserved | runner/http/runner.go:734-755 | in any report that accounts for the results each overall count is the sum of that count over the levels |
| ReportLaws.PermutationInvariant | runner/http/runner.go:715-777 | two reports of the same results in different orders agree in every counter, every level summary with its allPass, and both verdicts, and their failures and skips are equal as multisets |
| ReportLaws.ConformanceAcrossRunners | runner/grpc/runner.go:586-601 | gRPC conformance implies HTTP conformance; they differ exactly on runs without fail or error that are not all passes |
| ReportLaws.LevelsAcrossRunners | runner/http/runner.go:758-774 | the gRPC level is at most the HTTP level, and equal if and only if, wherever a level from 0 to 4 has results and nothing failed at levels 0 to it, all levels 0 to it have results and only passes |
| ReportLaws.RunnersAgreeOnPlainSuites | runner/grpc/runner.go:586-601 | both verdicts agree on non-empty results of passes, fails and errors whose levels form an initial segment |
| ReportLaws.CountersMeaning | runner/http/runner.go:732-756 | each counter and list in terms of the statuses, for gRPC with every unknown status failed |
| ReportLaws.LevelMeaning | runner/grpc/runner.go:566-592 | the same for the summary of each level, with its AllPass |
| ReportLaws.VerdictsMeaning | runner/http/runner.go:758-774 | Conformant, and ConformantLevel as the greatest level that passes, in terms of statuses and levels |
| DapProtocol.SpanMapLosesNothing | cmd/exec-history-dap/main.go:244-277 | every field of a span can be read back from its variables |
| DapThreads.CastIsWhoActs | cmd/exec-history-dap/serve.go:271-275 | the threads of a trace are exactly the keys of its spans |
| DapThreads.AdmitKeepsFilled | cmd/exec-history-dap/serve.go:293-301 | allocating keeps thread ids injective, without gaps from 1, and never changes one |
| DapThreads.ArrivalIsScene | cmd/exec-history-dap/serve.go:270-290 | with ids numbered by first occurrence, an arrival tells what the story of the trace tells of the span |
| DapThreads.RisingFills | cmd/exec-history-dap/serve.go:160-173 | sorting the ids lists the threads 1, 2, 3, ... |
| DapThreads.StoryStartsThreads | cmd/exec-history-dap/serve.go:275-283 | a trace starts each thread once, in the order 1, 2, 3, ..., before the first stop on it |
| DapVariables.SortedIsUnique | cmd/exec-history-dap/serve.go:315-319 | the sorted keys are the only ascending list of them, so map iteration order cannot show |
| DapVariables.ListGrows | cmd/exec-history-dap/serve.go:328-334 | references are handed out without gaps and none given before is lost or changed |
| DapVariables.ListShows | cmd/exec-history-dap/serve.go:314-338 | each entry names its key and shows its value; a nested map is found under its new reference |
| DapServer.HandleKeepsValid | cmd/exec-history-dap/serve.go:121-308 | every request keeps ids and references gapless and the cursor sound, and forgets no reference, thread or span |
| DapServer.OneResponseFirst | cmd/exec-history-dap/serve.go:121-232 | a request gets exactly one response, before its events; anything else gets none |
| DapServer.Server.constructor | cmd/exec-history-dap/serve.go:81-93 | a new server is in the initial state and has sent nothing |
| DapServer.Server.Send | cmd/exec-history-dap/serve.go:355-384 | one more message, with the next number, and nothing else changes |
| DapServer.Server.ThreadIDFor | cmd/exec-history-dap/serve.go:293-301 | the known id, or the next one and the key entered under it |
| DapServer.Server.AllocVar | cmd/exec-history-dap/serve.go:303-308 | the next reference, denoting the given map |
| DapServer.Server.AdvanceAndStop | cmd/exec-history-dap/serve.go:263-291 | the next span with its thread and stopped events, or the end with terminated |
| DapServer.Server.ListThreads | cmd/exec-history-dap/serve.go:157-174 | the threads by ascending id, whatever order the map is visited in |
| DapServer.Server.VarsFromMap | cmd/exec-history-dap/serve.go:314-338 | the entries in key order, with counter and references updated as the listing says |
| DapServer.Server.HandleRequest | cmd/exec-history-dap/serve.go:121-232 | state, output and whether to stop are those of the transition function |
| DapServer.Server.Run | cmd/exec-history-dap/serve.go:96-119 | the loop yields the session of its requests up to the first that ends it, and all output is numbered 1, 2, 3, ... |
| DapSessions.SessionTellsVisited | cmd/exec-history-dap/serve.go:121-301 | for any requests, launches included, the thread-started and stopped events tell the story of the spans visited, thread ids by first occurrence |
| DapSessions.SessionStartsThreads | cmd/exec-history-dap/serve.go:263-301 | any session starts each thread once, in order and before its first stop, and ends with exactly those ids allocated |
| DapSessions.SessionKeepsValid | cmd/exec-history-dap/serve.go:121-308 | every reachable state is valid and remembers all earlier ones |
| DapSessions.EachRequestAnsweredOnce | cmd/exec-history-dap/serve.go:121-232 | the responses of a session are to its requests, each once, in order |
| DapSessions.SteadySession | cmd/exec-history-dap/serve.go:263-269 | without launch and end, every advance past the last span sends one terminated event, and nothing else does |
| DapSessions.ScriptTellsPrefix | cmd/exec-history-dap/serve.go:121-291 | one launch of n spans before k advances, other requests anywhere: the events tell exactly of the first min(k, n) spans |
| DapSessions.ScriptTerminates | cmd/exec-history-dap/serve.go:222-228 | that client, ending the session, gets one terminated event if k is at most n and k - n otherwise, so exactly one if and only if k is at most n + 1 |
| DapSessions.StoryStopsAtEverySpan | cmd/exec-history-dap/serve.go:285-290 | the stops of a trace are one per span, in order, with its reason and description, on the thread numbered by the rank of its key |
| DapMeaning.StoryStops | cmd/exec-history-dap/serve.go:270-290 | a story stops once at each span with its kind, outcome and reason; two stops are on the same thread if and only if their spans share the envelope, or the SDK in that mode |
| DapMeaning.SessionStops | cmd/exec-history-dap/serve.go:263-301 | so do the stops of any session, for the spans visited |
| DapMeaning.SessionThreads | cmd/exec-history-dap/serve.go:157-174 | at any time the threads request lists exactly the threads of the stops so far, each under the envelope or SDK of its spans |
| DapMeaning.RequestAnswered | cmd/exec-history-dap/serve.go:121-232 | for each request whether it succeeds, what kind of body its response has, and the events behind it |
| DapMeaning.CurrentMeaning | cmd/exec-history-dap/serve.go:254-291 | the span shown is the next one after an advance, if there is one, and stays through any other request |
| DapMeaning.StackMeaning | cmd/exec-history-dap/serve.go:175-193 | its frame shows kind, outcome, SDK and trace |
| DapMeaning.ExpansionTells | cmd/exec-history-dap/serve.go:206-215 | expanding a reference lists each key once, in order, with null, strings, JSON, or a reference from 1000 on to the nested map |
| DapMeaning.BeforeMeaning | cmd/exec-history-dap/serve.go:319 | that order is by the first character that differs, or by length |
| DapMeaning.SpanEntries | cmd/exec-history-dap/main.go:244-277 | the entries of a span; worker, parent and attributes only if it has them |
| DapExplorer.ExploreRebuilds | cmd/exec-history-dap/serve.go:206-215 | expanding a reference, and every reference in the answers, ends and rebuilds the map it denotes, with leaves as shown |
| DapExplorer.ReferencesLast | cmd/exec-history-dap/serve.go:303-338 | a reference handed out stays resolvable and denotes the same map after any further requests |
| DapExplorer.ScopeLeadsToSpan | cmd/exec-history-dap/serve.go:194-205 | the scope of the current span leads to the whole span, at any later time |
| DapEmitter.EventsTellStory | cmd/exec-history-dap/main.go:185-240 | the emitter's thread-started and stopped events are the story of the trace |
| DapEmitter.EmitterAgreesWithServer | cmd/exec-history-dap/main.go:185-240 | for every trace and thread mode they are the server's, once it was advanced past every span |
| DapEmitter.ReferencesDenoteSpans | cmd/exec-history-dap/main.go:302-307 | the reference sent with the i-th stop denotes the i-th span |
| DapMeaning.EmitterBurst | cmd/exec-history-dap/main.go:178-240 | the events sent for the i-th span: its thread's start unless an earlier span shares it, the console line, the stop of the story with the span and the reference 1000 + i, which denotes it, and that the thread continues |
| DapMeaning.EmissionFrame | cmd/exec-history-dap/main.go:152-176 | initialized and process come first, the summary and terminated last, unless the trace is invalid, and nowhere else |
| DapEmitter.Emitter.OnSpan | cmd/exec-history-dap/main.go:185-240 | the burst of events of one span, numbered on, and the state after it |
| DapEmitter.Emitter.Emit | cmd/exec-history-dap/main.go:110-122 | the whole emission, numbered from 1 |
| DapFraming.Input.ReadHeaderBlock | cmd/exec-history-dap/serve.go:388-410 | the header loop reads up to the blank line, the last Content-Length counting |
| DapFraming.Input.ReadDAPMessage | cmd/exec-history-dap/serve.go:387-423 | one message and the input behind it, or why there is none |
| DapFraming.Input.ReadDAPMessages | cmd/exec-history-dap/main.go:343-381 | all messages up to where reading stops, and why |
| DapFraming.Output.WriteDAPMessage | cmd/exec-history-dap/serve.go:425-437 | the frame of the payload is appended |
| DapFramingText.FrameText | cmd/exec-history-dap/serve.go:425-437 | a frame, character by character |
| DapFramingText.LengthIsRead | cmd/exec-history-dap/serve.go:404-409 | blanks around the digits of a length line do not matter |
| DapFramingText.OtherHeaderIsSkipped | cmd/exec-history-dap/serve.go:400-410 | other header lines are read past |
| DapFramingText.ScanReads | cmd/exec-history-dap/serve.go:405 | a sign and digits are a number within int64, whatever stands behind them |
| DapFramingText.ScanRefuses | cmd/exec-history-dap/serve.go:405-408 | any other text behind the sign is an error, and not the end of input |
| DapFramingText.MessageBehindHeaders | cmd/exec-history-dap/main.go:347-380 | both readers take the message behind any header lines by the length given last |
| DapFramingLaws.ReadCutStream | cmd/exec-history-dap/serve.go:387-423 | a stream of understood frames cut anywhere yields exactly the whole frames, and where it is cut decides how reading ends |
| DapFramingLaws.ReadWholeFrame | cmd/exec-history-dap/main.go:323-338 | a frame is read as its payload, whatever the payload holds and whatever follows |
| DapFramingLaws.ReadPartOfFrame | cmd/exec-history-dap/serve.go:390-417 | how reading ends at each position inside a frame |
| DapFramingLaws.InteractiveEnds | cmd/exec-history-dap/serve.go:391-417 | on any prefix of a stream the reader ends with a bare end of input if and only if the prefix ends on a frame boundary; Run also ends cleanly exactly right after a header block |
| DapFramingEnds.CleanEndExactly | cmd/exec-history-dap/serve.go:387-423 | on any input, reading one message stops at the end of input, or at an error that wraps it, if and only if the input is header lines that give no length or a negative one; or header lines with a positive length and a blank line; or header lines and a length line with nothing or a sign, and anything behind |
| DapFramingEnds.RunEndsExactly | cmd/exec-history-dap/serve.go:96-110 | given frames and behind them any text that is not read as a message, Run handles exactly the frames, and ends without an error if and only if that text is one of these |
| DapFramingLaws.BatchEnds | cmd/exec-history-dap/main.go:349-356 | ReadDAPMessages ends without an error if and only if the prefix ends on a boundary or right after a header line |
| DapFramingLaws.ReadsBackPayloads | cmd/exec-history-dap/main.go:343-381 | both readers return exactly the payloads written, whatever bytes they contain |
| DapFramingLaws.ReadsBackMessages | cmd/exec-history-dap/serve.go:425-437 | with any codec that decodes what it encodes, messages are read back as sent |

## Left out

- DapProtocol.SpanMapLosesNothing: the exec-history event type is not part of the repository; the span record has the fields `spanAsMap` reads, with the types their use suggests.
- DapFraming.Input.ReadHeaderBlock: white space around a length is ASCII white space; multi-byte Unicode spaces are not recognised. That `fmt.Sscanf` reports io.EOF when the text ends before any digit is taken from Go's library.
- Numbers are reals. IEEE rounding, conversion of numbers beyond int64, and the spelling of a number (an integer field written 3.0) are not modelled.
- Strings are sequences of Unicode characters, in frames of bytes; invalid UTF-8 is not modelled.
- Errors: only success or failure and, for assertions, the failing field; no error text.
- Regular expressions, UUID and datetime patterns, the numbers inside "number:range(a,b)", "array:length(n)" and "~x", `%v` and JSON rendering are parameters.
- JSON decoding is a parameter; matchers and documents are trees. A wildcard over an empty array is the empty list, though Go's nil slice renders as null where it is marshalled.
- Statuses, headers, timing and raw-substring assertions read only the response; the checks are parameters of a step, and so is the gRPC runner's lack of header assertions.
- The server has no memory: its answer is a function of the resolved request, so what one request changes for the next is not modelled.
- Map reads and writes are atomic; the memory-level race on the results map is not modelled. A goroutine makes all its reads before it stores its result, in any order; reads the source would skip are made too.
- Delays, HTTP and gRPC transport, Redis, the command line, test loading and filtering, tables and badges: input and output, or fixed tables.
- The report's metadata (times, commit, environment, requested level) and per-test fields other than id, level and status.
- In the HTTP report the total is set from the list's length at each turn; the model counts up to the same number.
- The server writes messages, not bytes; the framing of a message is modelled separately. Failing writes, the process id and the flush after termination are left out.
- The text of the emitter's console lines and of its summary is a parameter.
- `sort.Strings` and `sort.Ints` are functions with the library's contract; `bufio` buffering is not visible.
- A Content-Length too large to allocate.
- The job lifecycle rules in `suites/`: test data for servers outside the repository.
