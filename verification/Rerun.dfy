/** The --rerun-failed cycle of test.py: the results file a run leaves behind
    decides which suites and C++ examples the next run skips. */
module Rerun {
  import opened Totals
  import opened WorkerPool
  import opened PoolRuns
  import opened PoolOrder

  /** NamedExample is a C++ example chosen by --example; its dispatch does not
      look at the previous results, and neither does that of Python examples. */
  datatype Kind = Suite | CppExample | NamedExample | PyExample

  /** The two elements of the results file. */
  datatype Tag = TestTag | ExampleTag

  /** A test the options select; staticSkip collects the valgrind and fullness
      conditions, which do not change from run to run. */
  datatype Test = Test(kind: Kind, name: string, staticSkip: bool)

  /** What executing the test in a given run yields: the return code and, for a
      suite, the result its own file states. */
  datatype Trial = Trial(code: int, fileVerdict: string)

  datatype Entry = Entry(tag: Tag, name: string, result: string)

  function TagOf(kind: Kind): Tag {
    if kind.Suite? then TestTag else ExampleTag
  }

  /** The result text written for a collected job; an interrupted job leaves no entry. */
  function ResultText(test: Test, trial: Trial, outcome: Outcome): string
    requires !outcome.Interrupted?
  {
    match outcome
    case Skipped => "SKIP"
    case Returned(code) =>
      if test.kind.Suite? && 0 <= code <= 1 then trial.fileVerdict
      else if code == 0 then "PASS"
      else if code == 1 then "FAIL"
      else if code == 2 then "VALGR"
      else "CRASH"
  }

  predicate IsSuccess(result: string) {
    result == "PASS" || result == "SKIP"
  }

  /** The collected outcome puts the test on the list of tests to skip. */
  predicate Succeeds(test: Test, trial: Trial, outcome: Outcome) {
    !outcome.Interrupted? && IsSuccess(ResultText(test, trial, outcome))
  }

  /** The results file, in the order in which the reports were collected. */
  function LogOf(tests: seq<Test>, trials: seq<Trial>, reports: seq<Report>): seq<Entry>
    requires |trials| == |tests|
    requires forall k :: 0 <= k < |reports| ==> reports[k].id < |tests|
  {
    if reports == [] then []
    else
      var r := reports[|reports| - 1];
      var log := LogOf(tests, trials, reports[..|reports| - 1]);
      if r.outcome.Interrupted? then log
      else
        var test := tests[r.id];
        log + [Entry(TagOf(test.kind), test.name, ResultText(test, trials[r.id], r.outcome))]
  }

  /** The names of the successful entries under a tag, in file order. */
  ghost function SuccessNames(log: seq<Entry>, tag: Tag): seq<string> {
    if log == [] then []
    else
      var n := |log| - 1;
      var names := SuccessNames(log[..n], tag);
      if log[n].tag == tag && IsSuccess(log[n].result) then names + [log[n].name] else names
  }

  lemma {:induction false} SuccessNamesMembers(log: seq<Entry>, tag: Tag, name: string)
    ensures name in SuccessNames(log, tag) <==> NameSucceeded(log, tag, name)
  {
    if log != [] {
      var n := |log| - 1;
      SuccessNamesMembers(log[..n], tag, name);
      SucceededAfterAppend(log[..n], log[n], tag, name);
      assert log == log[..n] + [log[n]];
    }
  }

  /** load_previously_successful_tests, for one of the two lists it returns. */
  method LoadPreviouslySuccessful(log: seq<Entry>, tag: Tag) returns (names: seq<string>)
    ensures names == SuccessNames(log, tag)
    ensures forall name :: name in names <==> NameSucceeded(log, tag, name)
  {
    names := [];
    for i := 0 to |log|
      invariant names == SuccessNames(log[..i], tag)
    {
      if log[i].tag == tag && IsSuccess(log[i].result) {
        names := names + [log[i].name];
      }
      assert log[..i + 1][..i] == log[..i];
    }
    assert log[..|log|] == log;
    forall name ensures name in names <==> NameSucceeded(log, tag, name) {
      SuccessNamesMembers(log, tag, name);
    }
  }

  ghost predicate NameSucceeded(log: seq<Entry>, tag: Tag, name: string) {
    exists k :: 0 <= k < |log| && log[k].tag == tag && log[k].name == name && IsSuccess(log[k].result)
  }

  lemma SucceededAfterAppend(log: seq<Entry>, e: Entry, tag: Tag, name: string)
    ensures NameSucceeded(log + [e], tag, name)
      <==> NameSucceeded(log, tag, name) || (e.tag == tag && e.name == name && IsSuccess(e.result))
  {
    var more := log + [e];
    assert more[|log|] == e && forall k :: 0 <= k < |log| ==> more[k] == log[k];
    if NameSucceeded(log, tag, name) {
      var k :| 0 <= k < |log| && log[k].tag == tag && log[k].name == name && IsSuccess(log[k].result);
      assert more[k] == log[k];
    }
  }

  /** The previous results are consulted for suites and for the C++ examples of
      a run that names no example. */
  predicate Consulted(test: Test) {
    test.kind.Suite? || test.kind.CppExample?
  }

  ghost predicate SkippedNext(test: Test, log: seq<Entry>) {
    test.staticSkip || (Consulted(test) && NameSucceeded(log, TagOf(test.kind), test.name))
  }

  /** What a run dispatches, given the previous results (none for a fresh run). */
  ghost function PlanFor(tests: seq<Test>, trials: seq<Trial>, log: seq<Entry>): (plan: seq<Spec>)
    requires |trials| == |tests|
    ensures |plan| == |tests|
  {
    seq(|tests|, i requires 0 <= i < |tests| => Spec(SkippedNext(tests[i], log), trials[i].code))
  }

  /** One finished run of the pool: any number of workers, any schedule. */
  datatype Run = Run(trials: seq<Trial>, count: nat, final: State)

  ghost predicate IsRun(tests: seq<Test>, log: seq<Entry>, run: Run) {
    && |run.trials| == |tests|
    && Reachable(PlanFor(tests, run.trials, log), run.count, run.final)
    && run.final.phase.Finished?
  }

  lemma RunFacts(tests: seq<Test>, log: seq<Entry>, run: Run)
    requires IsRun(tests, log, run)
    ensures Inv(PlanFor(tests, run.trials, log), run.count, run.final)
    ensures forall k :: 0 <= k < |run.final.collected| ==> run.final.collected[k].id < |tests|
  {
    var plan := PlanFor(tests, run.trials, log);
    ReachableKeepsInv(plan, run.count, run.final);
    forall k | 0 <= k < |run.final.collected|
      ensures run.final.collected[k].id < |tests|
    {
      assert Truthful(plan, run.final.threadExit, run.final.collected[k]);
    }
  }

  /** The results file the run leaves behind. */
  ghost function NextLog(tests: seq<Test>, log: seq<Entry>, run: Run): seq<Entry>
    requires IsRun(tests, log, run)
  {
    RunFacts(tests, log, run);
    LogOf(tests, run.trials, run.final.collected)
  }

  // ---------------------------------------------------------------------
  // From reports to the next skip list
  // ---------------------------------------------------------------------

  /** The report puts the name on the list under the tag. */
  ghost predicate Lists(tests: seq<Test>, trials: seq<Trial>, r: Report, tag: Tag, name: string) {
    && r.id < |tests| == |trials|
    && TagOf(tests[r.id].kind) == tag && tests[r.id].name == name
    && Succeeds(tests[r.id], trials[r.id], r.outcome)
  }

  lemma {:induction false} LogAppend(tests: seq<Test>, trials: seq<Trial>, reports: seq<Report>, tag: Tag, name: string)
    requires |trials| == |tests| && reports != []
    requires forall k :: 0 <= k < |reports| ==> reports[k].id < |tests|
    ensures var n := |reports| - 1;
      NameSucceeded(LogOf(tests, trials, reports), tag, name) <==>
        NameSucceeded(LogOf(tests, trials, reports[..n]), tag, name) || Lists(tests, trials, reports[n], tag, name)
  {
    var n := |reports| - 1;
    var r := reports[n];
    if !r.outcome.Interrupted? {
      var test := tests[r.id];
      var e := Entry(TagOf(test.kind), test.name, ResultText(test, trials[r.id], r.outcome));
      SucceededAfterAppend(LogOf(tests, trials, reports[..n]), e, tag, name);
    }
  }

  lemma {:induction false} LogNames(tests: seq<Test>, trials: seq<Trial>, reports: seq<Report>, tag: Tag, name: string)
    requires |trials| == |tests|
    requires forall k :: 0 <= k < |reports| ==> reports[k].id < |tests|
    ensures NameSucceeded(LogOf(tests, trials, reports), tag, name) <==>
      exists k :: 0 <= k < |reports| && Lists(tests, trials, reports[k], tag, name)
  {
    if reports != [] {
      var front := reports[..|reports| - 1];
      LogNames(tests, trials, front, tag, name);
      LogAppend(tests, trials, reports, tag, name);
      assert forall k :: 0 <= k < |front| ==> front[k] == reports[k];
    }
  }

  lemma {:induction false} SomeElement<T>(s: seq<T>, weight: T -> nat) returns (k: nat)
    requires Total(s, weight) > 0
    ensures k < |s| && weight(s[k]) > 0
  {
    if weight(s[|s| - 1]) > 0 {
      k := |s| - 1;
    } else {
      k := SomeElement(s[..|s| - 1], weight);
    }
  }

  lemma {:induction false} TwoElements<T>(s: seq<T>, j: nat, k: nat, weight: T -> nat)
    requires j < k < |s| && weight(s[j]) > 0 && weight(s[k]) > 0
    ensures Total(s, weight) >= 2
  {
    TotalAtLeast(s[..k], j, weight);
    TotalAtLeast(s[k..], 0, weight);
    assert s == s[..k] + s[k..];
    TotalOfConcat(s[..k], s[k..], weight);
  }

  /** Every test has exactly one report in a finished run. */
  lemma OneReport(tests: seq<Test>, log: seq<Entry>, run: Run, i: nat) returns (k: nat)
    requires IsRun(tests, log, run) && i < |tests|
    ensures k < |run.final.collected| && run.final.collected[k].id == i
    ensures forall j :: 0 <= j < |run.final.collected| && run.final.collected[j].id == i ==> j == k
  {
    var reports := run.final.collected;
    var w := JobWeights(i).kept;
    RunFacts(tests, log, run);
    FinalState(PlanFor(tests, run.trials, log), run.count, run.final);
    k := SomeElement(reports, w);
    forall j | 0 <= j < |reports| && reports[j].id == i ensures j == k {
      if j < k { TwoElements(reports, j, k, w); }
      if k < j { TwoElements(reports, k, j, w); }
    }
  }

  /** No suite and no C++ example that is run at all shares its name with another
      test of its sort: suites are one sort, all examples the other. */
  ghost predicate DistinctNames(tests: seq<Test>) {
    forall i, j :: 0 <= i < |tests| && 0 <= j < |tests| && i != j
                   && (tests[i].kind.Suite? || tests[i].kind.CppExample?) && !tests[i].staticSkip ==>
      !SameName(tests[i], tests[j])
  }

  ghost predicate SameName(a: Test, b: Test) {
    (a.kind.Suite? <==> b.kind.Suite?) && a.name == b.name
  }

  /** The rule for any finished run, interrupted or not: the next run executes a
      consulted test exactly when this run did not collect a success for it. */
  lemma NextRunExecutes(tests: seq<Test>, log: seq<Entry>, run: Run, i: nat, k: nat)
    requires IsRun(tests, log, run) && DistinctNames(tests)
    requires i < |tests| && (tests[i].kind.Suite? || tests[i].kind.CppExample?) && !tests[i].staticSkip
    requires k < |run.final.collected| && run.final.collected[k].id == i
    ensures SkippedNext(tests[i], NextLog(tests, log, run))
      <==> Succeeds(tests[i], run.trials[i], run.final.collected[k].outcome)
  {
    RunFacts(tests, log, run);
    var reports := run.final.collected;
    var test := tests[i];
    LogNames(tests, run.trials, reports, TagOf(test.kind), test.name);
    var only := OneReport(tests, log, run, i);
    forall j | 0 <= j < |reports| && Lists(tests, run.trials, reports[j], TagOf(test.kind), test.name)
      ensures j == k
    {
      assert SameName(test, tests[reports[j].id]);
    }
  }

  /** In an uninterrupted run a test that is executed reports its return code, any other reports a skip. */
  lemma UninterruptedOutcome(tests: seq<Test>, log: seq<Entry>, run: Run, i: nat, k: nat)
    requires IsRun(tests, log, run) && !run.final.threadExit
    requires i < |tests| && k < |run.final.collected| && run.final.collected[k].id == i
    ensures run.final.collected[k].outcome
      == if SkippedNext(tests[i], log) then Skipped else Returned(run.trials[i].code)
  {
    RunFacts(tests, log, run);
    var plan := PlanFor(tests, run.trials, log);
    assert Truthful(plan, run.final.threadExit, run.final.collected[k]);
    assert plan[i] == Spec(SkippedNext(tests[i], log), run.trials[i].code);
  }

  ghost predicate Passed(test: Test, trial: Trial) {
    Succeeds(test, trial, Returned(trial.code))
  }

  /** A suite passes by the result its own file states, provided it returned 0 or
      1; an example passes by its return code. */
  lemma PassedIff(test: Test, trial: Trial)
    ensures test.kind.Suite? ==>
      (Passed(test, trial) <==> 0 <= trial.code <= 1 && (trial.fileVerdict == "PASS" || trial.fileVerdict == "SKIP"))
    ensures !test.kind.Suite? ==> (Passed(test, trial) <==> trial.code == 0)
  {
    assert !IsSuccess("FAIL") && !IsSuccess("VALGR") && !IsSuccess("CRASH") by {
      assert "FAIL"[0] == 'F' && "VALGR"[0] == 'V' && "CRASH"[0] == 'C';
      assert "PASS"[0] == 'P' && "SKIP"[0] == 'S';
    }
  }

  /** After an uninterrupted run the next one executes exactly the consulted
      tests that this one executed and that did not pass. */
  lemma RerunExecutesTheFailed(tests: seq<Test>, log: seq<Entry>, run: Run, i: nat)
    requires IsRun(tests, log, run) && !run.final.threadExit && DistinctNames(tests)
    requires i < |tests| && (tests[i].kind.Suite? || tests[i].kind.CppExample?)
    ensures !SkippedNext(tests[i], NextLog(tests, log, run))
      <==> !SkippedNext(tests[i], log) && !Passed(tests[i], run.trials[i])
  {
    if !tests[i].staticSkip {
      var k := OneReport(tests, log, run, i);
      NextRunExecutes(tests, log, run, i, k);
      UninterruptedOutcome(tests, log, run, i, k);
    }
  }

  /** Whatever the names: a test skipped or passed in an uninterrupted run is skipped in the next. */
  lemma SkipsPersist(tests: seq<Test>, log: seq<Entry>, run: Run, i: nat)
    requires IsRun(tests, log, run) && !run.final.threadExit
    requires i < |tests| && (tests[i].kind.Suite? || tests[i].kind.CppExample?)
    requires SkippedNext(tests[i], log) || Passed(tests[i], run.trials[i])
    ensures SkippedNext(tests[i], NextLog(tests, log, run))
  {
    var k := OneReport(tests, log, run, i);
    RunFacts(tests, log, run);
    UninterruptedOutcome(tests, log, run, i, k);
    LogNames(tests, run.trials, run.final.collected, TagOf(tests[i].kind), tests[i].name);
  }

  // ---------------------------------------------------------------------
  // Sequences of runs
  // ---------------------------------------------------------------------

  /** Successive uninterrupted runs, each started with --rerun-failed from the results of the one before. */
  ghost predicate IsCycle(tests: seq<Test>, log: seq<Entry>, runs: seq<Run>)
    decreases |runs|
  {
    runs == [] ||
    (IsRun(tests, log, runs[0]) && !runs[0].final.threadExit && IsCycle(tests, NextLog(tests, log, runs[0]), runs[1..]))
  }

  /** The results file that run number k starts from. */
  ghost function LogBefore(tests: seq<Test>, log: seq<Entry>, runs: seq<Run>, k: nat): seq<Entry>
    requires IsCycle(tests, log, runs) && k <= |runs|
    decreases k
  {
    if k == 0 then log else LogBefore(tests, NextLog(tests, log, runs[0]), runs[1..], k - 1)
  }

  ghost predicate ExecutedIn(tests: seq<Test>, log: seq<Entry>, runs: seq<Run>, k: nat, i: nat)
    requires IsCycle(tests, log, runs) && k < |runs| && i < |tests|
  {
    !SkippedNext(tests[i], LogBefore(tests, log, runs, k))
  }

  ghost predicate PassedIn(tests: seq<Test>, runs: seq<Run>, k: nat, i: nat)
    requires k < |runs| && i < |tests|
  {
    |runs[k].trials| == |tests| && Passed(tests[i], runs[k].trials[i])
  }

  /** A run of the cycle is a run from the results before it. */
  lemma {:induction false} CycleRun(tests: seq<Test>, log: seq<Entry>, runs: seq<Run>, k: nat)
    requires IsCycle(tests, log, runs) && k < |runs|
    ensures IsRun(tests, LogBefore(tests, log, runs, k), runs[k]) && !runs[k].final.threadExit
    ensures LogBefore(tests, log, runs, k + 1) == NextLog(tests, LogBefore(tests, log, runs, k), runs[k])
    decreases k
  {
    if k > 0 {
      CycleRun(tests, NextLog(tests, log, runs[0]), runs[1..], k - 1);
    }
  }

  /** Over any number of runs the executed sets only shrink, and a test that passed never runs again. */
  lemma {:induction false} CycleShrinks(tests: seq<Test>, log: seq<Entry>, runs: seq<Run>, k: nat, l: nat, i: nat)
    requires IsCycle(tests, log, runs) && k < l < |runs|
    requires i < |tests| && (tests[i].kind.Suite? || tests[i].kind.CppExample?)
    ensures ExecutedIn(tests, log, runs, l, i) ==>
      ExecutedIn(tests, log, runs, k, i) && !PassedIn(tests, runs, k, i)
    decreases l
  {
    CycleRun(tests, log, runs, l - 1);
    var before := LogBefore(tests, log, runs, l - 1);
    if SkippedNext(tests[i], before) || Passed(tests[i], runs[l - 1].trials[i]) {
      SkipsPersist(tests, before, runs[l - 1], i);
    }
    CycleRun(tests, log, runs, k);
    if k < l - 1 {
      CycleShrinks(tests, log, runs, k, l - 1, i);
    }
  }

  /** With distinct names the tests executed in run k + 1 are exactly those of run k that did not pass. */
  lemma {:induction false} CycleExecutesTheFailed(tests: seq<Test>, log: seq<Entry>, runs: seq<Run>, k: nat, i: nat)
    requires IsCycle(tests, log, runs) && k + 1 < |runs| && DistinctNames(tests)
    requires i < |tests| && (tests[i].kind.Suite? || tests[i].kind.CppExample?)
    ensures ExecutedIn(tests, log, runs, k + 1, i)
      <==> ExecutedIn(tests, log, runs, k, i) && !PassedIn(tests, runs, k, i)
  {
    CycleRun(tests, log, runs, k);
    RerunExecutesTheFailed(tests, LogBefore(tests, log, runs, k), runs[k], i);
  }

  // ---------------------------------------------------------------------
  // Where the promise stops
  // ---------------------------------------------------------------------

  /** The rule that the next run executes exactly what was executed and did not pass. */
  ghost predicate RerunRule(tests: seq<Test>, log: seq<Entry>, run: Run)
    requires IsRun(tests, log, run)
  {
    forall i :: 0 <= i < |tests| && (tests[i].kind.Suite? || tests[i].kind.CppExample?) ==>
      (!SkippedNext(tests[i], NextLog(tests, log, run))
       <==> !SkippedNext(tests[i], log) && !Passed(tests[i], run.trials[i]))
  }

  /** A run on one worker, never interrupted. */
  lemma SomeRun(tests: seq<Test>, log: seq<Entry>, trials: seq<Trial>) returns (run: Run)
    requires |trials| == |tests|
    ensures IsRun(tests, log, run) && run.trials == trials && !run.final.threadExit
  {
    var plan := PlanFor(tests, trials, log);
    InitKeepsInv(plan, 1);
    var schedule, final := CanFinish(plan, 1, Init(1));
    run := Run(trials, 1, final);
  }

  /** The rule holds for every uninterrupted run exactly when the names are distinct. */
  lemma RuleIffDistinctNames(tests: seq<Test>)
    ensures (forall log, run :: IsRun(tests, log, run) && !run.final.threadExit ==> RerunRule(tests, log, run))
      <==> DistinctNames(tests)
  {
    if DistinctNames(tests) {
      forall log, run | IsRun(tests, log, run) && !run.final.threadExit
        ensures RerunRule(tests, log, run)
      {
        forall i: nat | i < |tests| && (tests[i].kind.Suite? || tests[i].kind.CppExample?)
          ensures !SkippedNext(tests[i], NextLog(tests, log, run))
            <==> !SkippedNext(tests[i], log) && !Passed(tests[i], run.trials[i])
        {
          RerunExecutesTheFailed(tests, log, run, i);
        }
      }
    } else {
      var i, j :| 0 <= i < |tests| && 0 <= j < |tests| && i != j
                  && (tests[i].kind.Suite? || tests[i].kind.CppExample?) && !tests[i].staticSkip
                  && SameName(tests[i], tests[j]);
      SharedNameHidesFailure(tests, i, j);
    }
  }

  /** A pass exempts a test from every later rerun exactly when its dispatch
      consults the results (or it is never run at all): an example named by
      --example, or a Python example, runs again after it has passed. */
  lemma PassExemptsIff(tests: seq<Test>, i: nat)
    requires i < |tests|
    ensures (forall log, run :: IsRun(tests, log, run) && !run.final.threadExit && Passed(tests[i], run.trials[i]) ==>
               SkippedNext(tests[i], NextLog(tests, log, run)))
      <==> (tests[i].kind.Suite? || tests[i].kind.CppExample?) || tests[i].staticSkip
  {
    if (tests[i].kind.Suite? || tests[i].kind.CppExample?) {
      forall log, run | IsRun(tests, log, run) && !run.final.threadExit && Passed(tests[i], run.trials[i])
        ensures SkippedNext(tests[i], NextLog(tests, log, run))
      {
        SkipsPersist(tests, log, run, i);
      }
    } else if !tests[i].staticSkip {
      var run := SomeRun(tests, [], seq(|tests|, k => Trial(0, "PASS")));
      assert Passed(tests[i], run.trials[i]) && !SkippedNext(tests[i], NextLog(tests, [], run));
    }
  }

  /** When a passing test shares the name of a crashing one, the crash is never rerun. */
  lemma SharedNameHidesFailure(tests: seq<Test>, i: nat, j: nat)
    requires i < |tests| && j < |tests| && i != j
    requires (tests[i].kind.Suite? || tests[i].kind.CppExample?) && !tests[i].staticSkip && SameName(tests[i], tests[j])
    ensures exists run :: IsRun(tests, [], run) && !run.final.threadExit && !RerunRule(tests, [], run)
  {
    var trials := seq(|tests|, k => if k == i then Trial(3, "") else Trial(0, "PASS"));
    var run := SomeRun(tests, [], trials);
    var k := OneReport(tests, [], run, j);
    RunFacts(tests, [], run);
    UninterruptedOutcome(tests, [], run, j, k);
    assert Succeeds(tests[j], trials[j], run.final.collected[k].outcome);
    LogNames(tests, trials, run.final.collected, TagOf(tests[i].kind), tests[i].name);
    assert SkippedNext(tests[i], NextLog(tests, [], run));
    assert !SkippedNext(tests[i], []) && !Passed(tests[i], trials[i]);
    assert !RerunRule(tests, [], run);
  }

  // ---------------------------------------------------------------------
  // Interrupted runs of a single worker
  // ---------------------------------------------------------------------

  /** The tests in front of the cut are reported as without an interrupt, the
      others as interrupted, all in dispatch order. */
  ghost predicate CutBehind(tests: seq<Test>, log: seq<Entry>, run: Run, cut: nat) {
    && |run.final.collected| == |tests| == |run.trials|
    && forall i :: 0 <= i < |tests| ==> run.final.collected[i] == CutReport(tests[i], log, run.trials[i], i, cut)
  }

  ghost function CutReport(test: Test, log: seq<Entry>, trial: Trial, i: nat, cut: nat): Report {
    Report(i, if i >= cut then Interrupted else if SkippedNext(test, log) then Skipped else Returned(trial.code))
  }

  lemma CutReports(tests: seq<Test>, log: seq<Entry>, run: Run, cut: nat)
    requires IsRun(tests, log, run) && run.count == 1
    requires forall k :: 0 <= k < |run.final.collected| ==> (run.final.collected[k].outcome.Interrupted? <==> cut <= k)
    ensures CutBehind(tests, log, run, cut)
  {
    var plan, reports := PlanFor(tests, run.trials, log), run.final.collected;
    RunFacts(tests, log, run);
    FinalState(plan, 1, run.final);
    OneWorkerKeepsOrder(plan, run.final);
    forall i | 0 <= i < |tests| ensures reports[i] == CutReport(tests[i], log, run.trials[i], i, cut) {
      assert Truthful(plan, run.final.threadExit, reports[i]) && reports[i].id == i;
      assert plan[i] == Spec(SkippedNext(tests[i], log), run.trials[i].code);
    }
  }

  /** Every run of a single worker, interrupted or not, is cut somewhere. */
  lemma OneWorkerRunIsCut(tests: seq<Test>, log: seq<Entry>, run: Run) returns (cut: nat)
    requires IsRun(tests, log, run) && run.count == 1
    ensures CutBehind(tests, log, run, cut)
  {
    cut := OneWorkerCut(PlanFor(tests, run.trials, log), run.final);
    CutReports(tests, log, run, cut);
  }

  /** And every cut is that of some run. */
  lemma SomeRunCutAt(tests: seq<Test>, log: seq<Entry>, trials: seq<Trial>, cut: nat) returns (run: Run)
    requires |trials| == |tests| && cut <= |tests|
    ensures IsRun(tests, log, run) && run.trials == trials && run.count == 1 && CutBehind(tests, log, run, cut)
  {
    var final := EveryCutHappens(PlanFor(tests, trials, log), cut);
    run := Run(trials, 1, final);
    CutReports(tests, log, run, cut);
  }

  /** What such a run forgets: the next one skips a consulted test exactly when
      it lies in front of the cut and was skipped or passed. */
  lemma CutRunForgets(tests: seq<Test>, log: seq<Entry>, run: Run, cut: nat, i: nat)
    requires IsRun(tests, log, run) && CutBehind(tests, log, run, cut) && DistinctNames(tests)
    requires i < |tests| && (tests[i].kind.Suite? || tests[i].kind.CppExample?) && !tests[i].staticSkip
    ensures SkippedNext(tests[i], NextLog(tests, log, run))
      <==> i < cut && (SkippedNext(tests[i], log) || Passed(tests[i], run.trials[i]))
  {
    assert run.final.collected[i] == CutReport(tests[i], log, run.trials[i], i, cut);
    NextRunExecutes(tests, log, run, i, i);
  }

  /** A run interrupted at once leaves an empty results file, so the next run
      executes even the tests that an earlier run had passed. */
  lemma InterruptForgets(tests: seq<Test>, log: seq<Entry>, trials: seq<Trial>) returns (run: Run)
    requires |trials| == |tests|
    ensures IsRun(tests, log, run) && run.trials == trials
    ensures forall i :: 0 <= i < |tests| ==>
      (SkippedNext(tests[i], NextLog(tests, log, run)) <==> tests[i].staticSkip)
  {
    run := SomeRunCutAt(tests, log, trials, 0);
    RunFacts(tests, log, run);
    forall i | 0 <= i < |tests|
      ensures SkippedNext(tests[i], NextLog(tests, log, run)) <==> tests[i].staticSkip
    {
      LogNames(tests, trials, run.final.collected, TagOf(tests[i].kind), tests[i].name);
    }
  }
}
