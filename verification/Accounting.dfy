/** The collect loop of run_tests in test.py and what its counters mean for a
    whole run of the pool. */
module Accounting {
  import opened Totals
  import opened WorkerPool
  import opened PoolRuns

  datatype Status = Pass | Skip | Fail | Valgr | Crash | NoResult

  function StatusOf(outcome: Outcome): Status {
    match outcome
    case Interrupted => NoResult
    case Skipped => Skip
    case Returned(code) => if code == 0 then Pass else if code == 1 then Fail else if code == 2 then Valgr else Crash
  }

  ghost function StatusWeight(status: Status): Report -> nat {
    (r: Report) => if StatusOf(r.outcome) == status then 1 else 0
  }

  ghost function CountOf(reports: seq<Report>, status: Status): nat {
    Total(reports, StatusWeight(status))
  }

  /** The reports with the given outcome, by position. */
  ghost function WithOutcome(reports: seq<Report>, outcome: Outcome): set<nat> {
    set k: nat | k < |reports| && reports[k].outcome == outcome
  }

  /** The reports of a return code other than 0, 1 and 2. */
  ghost function CrashesIn(reports: seq<Report>): set<nat> {
    set k: nat | k < |reports| && reports[k].outcome.Returned? && reports[k].outcome.code !in {0, 1, 2}
  }

  lemma StatusNumber(reports: seq<Report>, status: Status)
    ensures CountOf(reports, status) == |Where(reports, StatusWeight(status))|
  {
    TotalIsNumber(reports, StatusWeight(status));
  }

  /** The weighted counts are the numbers of reports with the outcome each status stands for. */
  lemma {:induction false} CountsAreNumbers(reports: seq<Report>)
    ensures CountOf(reports, Pass) == |WithOutcome(reports, Returned(0))|
    ensures CountOf(reports, Fail) == |WithOutcome(reports, Returned(1))|
    ensures CountOf(reports, Valgr) == |WithOutcome(reports, Returned(2))|
    ensures CountOf(reports, Crash) == |CrashesIn(reports)|
    ensures CountOf(reports, Skip) == |WithOutcome(reports, Skipped)|
    ensures CountOf(reports, NoResult) == |WithOutcome(reports, Interrupted)|
  {
    forall status: Status ensures CountOf(reports, status) == |Where(reports, StatusWeight(status))| {
      StatusNumber(reports, status);
    }
    assert WithOutcome(reports, Returned(0)) == Where(reports, StatusWeight(Pass));
    assert WithOutcome(reports, Returned(1)) == Where(reports, StatusWeight(Fail));
    assert WithOutcome(reports, Returned(2)) == Where(reports, StatusWeight(Valgr));
    assert CrashesIn(reports) == Where(reports, StatusWeight(Crash));
    assert WithOutcome(reports, Skipped) == Where(reports, StatusWeight(Skip));
    assert WithOutcome(reports, Interrupted) == Where(reports, StatusWeight(NoResult));
  }

  lemma {:induction false} OneMoreReport(reports: seq<Report>, r: Report)
    ensures forall code :: 0 <= code <= 2 ==>
      |WithOutcome(reports + [r], Returned(code))|
        == |WithOutcome(reports, Returned(code))| + if r.outcome == Returned(code) then 1 else 0
    ensures |CrashesIn(reports + [r])|
      == |CrashesIn(reports)| + if r.outcome.Returned? && r.outcome.code !in {0, 1, 2} then 1 else 0
    ensures |WithOutcome(reports + [r], Skipped)|
      == |WithOutcome(reports, Skipped)| + if r.outcome == Skipped then 1 else 0
  {
    CountsAreNumbers(reports);
    CountsAreNumbers(reports + [r]);
    forall status: Status ensures CountOf(reports + [r], status) == CountOf(reports, status) + StatusWeight(status)(r) {
      TotalOfAppend(reports, r, StatusWeight(status));
    }
  }

  /** The results file of a job: absent, not well formed, or with a stated result
      that is PASS or SKIP, or another. */
  datatype ResultFile = Missing | Unparsable | States(passed: bool)

  /** What the collect loop knows of a job besides its report: whether it is a
      test suite (not a C++ or Python example), and its own results file. */
  datatype JobInfo = JobInfo(suite: bool, file: ResultFile) {
    predicate fileSaysPassed() {
      file.States? && file.passed
    }
  }

  /** Opening the file of the job raises an exception that ends the collect loop. */
  predicate Raises(info: JobInfo, r: Report) {
    info.suite && info.file.Missing? && r.outcome.Returned? && 0 <= r.outcome.code <= 2
  }

  ghost predicate RaisesAt(infos: seq<JobInfo>, reports: seq<Report>, k: nat) {
    k < |reports| && reports[k].id < |infos| && Raises(infos[reports[k].id], reports[k])
  }

  /** The entries a report puts on the list of failed jobs: one for its return
      code, one for its results file. */
  function FailEntries(info: JobInfo, r: Report): seq<nat> {
    StatusEntries(r) + FileEntries(info, r)
  }

  function StatusEntries(r: Report): seq<nat> {
    if r.outcome.Returned? && r.outcome.code != 0 then [r.id] else []
  }

  function FileEntries(info: JobInfo, r: Report): seq<nat> {
    if r.outcome.Returned? && info.suite && !(0 <= r.outcome.code <= 2 && info.fileSaysPassed()) then [r.id] else []
  }

  function FailLog(infos: seq<JobInfo>, reports: seq<Report>): seq<nat>
    requires forall k :: 0 <= k < |reports| ==> reports[k].id < |infos|
  {
    if reports == [] then []
    else
      var last := reports[|reports| - 1];
      FailLog(infos, reports[..|reports| - 1]) + FailEntries(infos[last.id], last)
  }

  class Summary {
    var passed: nat
    var skipped: nat
    var failed: nat
    var valgrind: nat
    var crashed: nat
    var failedJobs: seq<nat>

    constructor ()
      ensures passed == 0 && skipped == 0 && failed == 0 && valgrind == 0 && crashed == 0 && failedJobs == []
    {
      passed, skipped, failed, valgrind, crashed, failedJobs := 0, 0, 0, 0, 0, [];
    }

    ghost predicate Describes(infos: seq<JobInfo>, reports: seq<Report>)
      reads this
      requires forall k :: 0 <= k < |reports| ==> reports[k].id < |infos|
    {
      && passed == |WithOutcome(reports, Returned(0))|
      && skipped == |WithOutcome(reports, Skipped)|
      && failed == |WithOutcome(reports, Returned(1))|
      && valgrind == |WithOutcome(reports, Returned(2))|
      && crashed == |CrashesIn(reports)|
      && failedJobs == FailLog(infos, reports)
    }

    /** Counting the status of a job.  Its entry on failed_jobs is pushed first
        and taken back when it passed; an older entry is never taken. */
    method CountStatus(r: Report)
      modifies this
      ensures passed == old(passed) + if r.outcome == Returned(0) then 1 else 0
      ensures failed == old(failed) + if r.outcome == Returned(1) then 1 else 0
      ensures valgrind == old(valgrind) + if r.outcome == Returned(2) then 1 else 0
      ensures crashed == old(crashed) + if r.outcome.Returned? && r.outcome.code !in {0, 1, 2} then 1 else 0
      ensures skipped == old(skipped) + if r.outcome == Skipped then 1 else 0
      ensures failedJobs == old(failedJobs) + StatusEntries(r)
    {
      if r.outcome.Interrupted? { return; }
      if r.outcome.Skipped? {
        skipped := skipped + 1;
        return;
      }
      var code := r.outcome.code;
      failedJobs := failedJobs + [r.id];
      if code == 0 {
        passed := passed + 1;
        failedJobs := failedJobs[..|failedJobs| - 1];
      } else if code == 1 {
        failed := failed + 1;
      } else if code == 2 {
        valgrind := valgrind + 1;
      } else {
        crashed := crashed + 1;
      }
    }

    /** Taking over the results file of a suite that was run: a second entry is
        pushed, and taken back when the file states a success. */
    method TakeResult(info: JobInfo, r: Report) returns (raised: bool)
      modifies this`failedJobs
      ensures failedJobs == old(failedJobs) + FileEntries(info, r)
      ensures raised <==> info.suite && info.file == Missing && r.outcome in {Returned(0), Returned(1), Returned(2)}
    {
      raised := false;
      if r.outcome.Returned? && info.suite {
        failedJobs := failedJobs + [r.id];
        if 0 <= r.outcome.code <= 2 {
          if info.file.Missing? { return true; }
          if info.fileSaysPassed() {
            failedJobs := failedJobs[..|failedJobs| - 1];
          }
        }
      }
    }

    /** One iteration of the collect loop. */
    method Record(infos: seq<JobInfo>, ghost before: seq<Report>, r: Report) returns (raised: bool)
      requires r.id < |infos|
      requires forall k :: 0 <= k < |before| ==> before[k].id < |infos|
      requires Describes(infos, before)
      modifies this
      ensures Describes(infos, before + [r]) && (raised <==> Raises(infos[r.id], r))
    {
      CountStatus(r);
      raised := TakeResult(infos[r.id], r);
      assert (before + [r])[..|before|] == before;
      OneMoreReport(before, r);
    }

    /** The collect loop over the reports in the order the output queue gave them.
        It ends early exactly when a suite's results file is missing, right
        after it counted that suite. */
    method Collect(infos: seq<JobInfo>, reports: seq<Report>) returns (raised: bool, ghost counted: nat)
      requires passed == 0 && skipped == 0 && failed == 0 && valgrind == 0 && crashed == 0 && failedJobs == []
      requires forall k :: 0 <= k < |reports| ==> reports[k].id < |infos|
      modifies this
      ensures counted <= |reports| && Describes(infos, reports[..counted])
      ensures raised <==> exists k :: 0 <= k < |reports| && RaisesAt(infos, reports, k)
      ensures raised ==> 0 < counted && RaisesAt(infos, reports, counted - 1)
      ensures forall k :: 0 <= k < counted - 1 ==> !RaisesAt(infos, reports, k)
      ensures !raised ==> counted == |reports| && Describes(infos, reports)
    {
      for i := 0 to |reports|
        invariant Describes(infos, reports[..i])
        invariant forall k :: 0 <= k < i ==> !RaisesAt(infos, reports, k)
      {
        assert reports[..i + 1] == reports[..i] + [reports[i]];
        raised := Record(infos, reports[..i], reports[i]);
        assert raised <==> RaisesAt(infos, reports, i);
        if raised { return true, i + 1; }
      }
      assert reports[..|reports|] == reports;
      return false, |reports|;
    }

    /** The exit status of the runner. */
    method ExitStatus(infos: seq<JobInfo>, reports: seq<Report>, totalTests: nat) returns (status: int)
      requires totalTests == |reports|
      requires forall k :: 0 <= k < |reports| ==> reports[k].id < |infos|
      requires Describes(infos, reports)
      ensures status == 0 || status == 1
      ensures status == 0 <==>
        forall k :: 0 <= k < |reports| ==> reports[k].outcome == Returned(0) || reports[k].outcome == Skipped
    {
      CleanIffAllPassOrSkip(reports);
      CountsAreNumbers(reports);
      status := if passed + skipped == totalTests then 0 else 1;
    }
  }

  lemma {:induction false} CleanIffAllPassOrSkip(reports: seq<Report>)
    ensures CountOf(reports, Pass) + CountOf(reports, Skip) <= |reports|
    ensures CountOf(reports, Pass) + CountOf(reports, Skip) == |reports| <==>
      forall k :: 0 <= k < |reports| ==> reports[k].outcome == Returned(0) || reports[k].outcome == Skipped
  {
    if reports != [] {
      var front := reports[..|reports| - 1];
      CleanIffAllPassOrSkip(front);
      assert forall k :: 0 <= k < |front| ==> front[k] == reports[k];
    }
  }

  /** The five counters and the interrupted jobs account for every report. */
  lemma {:induction false} CountsAddUp(reports: seq<Report>)
    ensures CountOf(reports, Pass) + CountOf(reports, Skip) + CountOf(reports, Fail)
      + CountOf(reports, Valgr) + CountOf(reports, Crash) + CountOf(reports, NoResult) == |reports|
  {
    if reports != [] {
      CountsAddUp(reports[..|reports| - 1]);
    }
  }

  /** A plainly failing suite is listed as failed twice, a passing job never. */
  lemma FailEntriesOf(info: JobInfo, id: nat, code: int)
    ensures var entries := FailEntries(info, Report(id, Returned(code)));
      && (entries == [] <==> code == 0 && (!info.suite || info.fileSaysPassed()))
      && (forall k :: 0 <= k < |entries| ==> entries[k] == id)
      && (|entries| == 2 <==> code != 0 && info.suite && (!info.fileSaysPassed() || code < 0 || code > 2))
  {
  }

  // ---------------------------------------------------------------------
  // Independence of the schedule
  // ---------------------------------------------------------------------

  function SpecStatus(spec: Spec): Status {
    if spec.skip then Skip else StatusOf(Returned(spec.code))
  }

  ghost function SpecWeight(status: Status): Spec -> nat {
    (spec: Spec) => if SpecStatus(spec) == status then 1 else 0
  }

  /** The number of jobs of the plan that end with a status when nothing is interrupted. */
  ghost function PlanCount(plan: seq<Spec>, status: Status): nat {
    Total(plan, SpecWeight(status))
  }

  ghost function IdWeight(plan: seq<Spec>, status: Status, id: nat): nat {
    if id < |plan| && SpecStatus(plan[id]) == status then 1 else 0
  }

  /** Weigh a job, wherever it is, by the status its specification leads to. */
  ghost function PlanWeights(plan: seq<Spec>, status: Status): Weights {
    Weights(
      (t: Ticket) => if t.Work? then IdWeight(plan, status, t.id) else 0,
      (v: Worker) =>
        match v
        case Got(t) => if t.Work? then IdWeight(plan, status, t.id) else 0
        case Running(id) => IdWeight(plan, status, id)
        case Reporting(r) => IdWeight(plan, status, r.id)
        case _ => 0,
      (r: Report) => IdWeight(plan, status, r.id),
      (r: Report) => IdWeight(plan, status, r.id))
  }

  lemma PlanWeightsAreSteady(plan: seq<Spec>, status: Status)
    ensures Steady(plan, PlanWeights(plan, status))
  {
  }

  lemma PlanCountStep(plan: seq<Spec>, k: nat, status: Status)
    requires k < |plan|
    ensures PlanCount(plan[..k + 1], status)
      == PlanCount(plan[..k], status) + PlanWeights(plan, status).ticket(Work(k))
  {
    assert plan[..k + 1] == plan[..k] + [plan[k]];
    TotalOfAppend(plan[..k], plan[k], SpecWeight(status));
  }

  lemma DispatchedAfter(plan: seq<Spec>, count: nat, s: State, m: Move)
    requires Shape(plan, count, s) && Enabled(plan, s, m)
    ensures Dispatched(plan, Apply(plan, s, m)) ==
      if m.MainMove? && s.phase.Dispatching? && s.phase.next < |plan| then s.phase.next + 1
      else Dispatched(plan, s)
  {
  }

  lemma MoveKeepsPlanMass(plan: seq<Spec>, count: nat, s: State, m: Move, status: Status)
    requires Shape(plan, count, s) && Enabled(plan, s, m)
    requires Mass(s, PlanWeights(plan, status)) == PlanCount(plan[..Dispatched(plan, s)], status)
    ensures Dispatched(plan, Apply(plan, s, m)) <= |plan|
    ensures Mass(Apply(plan, s, m), PlanWeights(plan, status))
      == PlanCount(plan[..Dispatched(plan, Apply(plan, s, m))], status)
  {
    var t, u := Apply(plan, s, m), PlanWeights(plan, status);
    DispatchedAfter(plan, count, s, m);
    assert Mass(t, u) == Mass(s, u)
      + if m.MainMove? && s.phase.Dispatching? && s.phase.next < |plan| then u.ticket(Work(s.phase.next)) else 0
    by {
      PlanWeightsAreSteady(plan, status);
      SteadyFlow(plan, s, m, u);
    }
    if m.MainMove? && s.phase.Dispatching? && s.phase.next < |plan| {
      PlanCountStep(plan, s.phase.next, status);
    }
  }

  lemma {:induction false} ScheduleKeepsPlanMass(
      plan: seq<Spec>, count: nat, s: State, schedule: seq<Move>, t: State, status: Status)
    requires Shape(plan, count, s) && Leads(plan, s, schedule, t)
    requires Mass(s, PlanWeights(plan, status)) == PlanCount(plan[..Dispatched(plan, s)], status)
    ensures Shape(plan, count, t)
    ensures Mass(t, PlanWeights(plan, status)) == PlanCount(plan[..Dispatched(plan, t)], status)
    decreases |schedule|
  {
    if schedule != [] {
      MoveKeepsShape(plan, count, s, schedule[0]);
      MoveKeepsPlanMass(plan, count, s, schedule[0], status);
      ScheduleKeepsPlanMass(plan, count, Apply(plan, s, schedule[0]), schedule[1..], t, status);
    }
  }

  /** When a run finishes, the jobs collected have, by specification, the statuses of the plan. */
  lemma FinishedPlanMass(plan: seq<Spec>, count: nat, s: State, status: Status)
    requires Reachable(plan, count, s) && s.phase.Finished?
    ensures Total(s.collected, PlanWeights(plan, status).kept) == PlanCount(plan, status)
  {
    var schedule :| Leads(plan, Init(count), schedule, s);
    InitPlanMass(plan, count, status);
    ScheduleKeepsPlanMass(plan, count, Init(count), schedule, s, status);
    ReachableKeepsInv(plan, count, s);
    FinalPlanMass(plan, count, s, status);
  }

  lemma InitPlanMass(plan: seq<Spec>, count: nat, status: Status)
    ensures Shape(plan, count, Init(count))
    ensures Mass(Init(count), PlanWeights(plan, status)) == PlanCount(plan[..0], status) == 0
  {
    TotalZero(Init(count).workers, PlanWeights(plan, status).worker);
  }

  /** At the end everything weighed is among the results. */
  lemma FinalPlanMass(plan: seq<Spec>, count: nat, s: State, status: Status)
    requires Inv(plan, count, s) && s.phase.Finished?
    requires Mass(s, PlanWeights(plan, status)) == PlanCount(plan[..|plan|], status)
    ensures Total(s.collected, PlanWeights(plan, status).kept) == PlanCount(plan, status)
  {
    FinalState(plan, count, s);
    TotalZero(s.workers, PlanWeights(plan, status).worker);
    assert plan[..|plan|] == plan;
  }

  /** The counts of an uninterrupted run are those of the plan, whatever the
      number of workers and the schedule. */
  lemma UninterruptedCounts(plan: seq<Spec>, count: nat, s: State, status: Status)
    requires Reachable(plan, count, s) && s.phase.Finished? && !s.threadExit
    ensures CountOf(s.collected, status) == PlanCount(plan, status)
  {
    ReachableKeepsInv(plan, count, s);
    FinishedPlanMass(plan, count, s, status);
    forall k | 0 <= k < |s.collected|
      ensures StatusWeight(status)(s.collected[k]) == PlanWeights(plan, status).kept(s.collected[k])
    {
      assert Truthful(plan, s.threadExit, s.collected[k]);
    }
    TotalAgrees(s.collected, StatusWeight(status), PlanWeights(plan, status).kept);
  }

  // The jobs of the plan by what they are asked to do and would return.

  ghost function ToSkip(plan: seq<Spec>): set<nat> {
    set id: nat | id < |plan| && plan[id].skip
  }

  ghost function ToReturn(plan: seq<Spec>, code: int): set<nat> {
    set id: nat | id < |plan| && !plan[id].skip && plan[id].code == code
  }

  ghost function ToCrash(plan: seq<Spec>): set<nat> {
    set id: nat | id < |plan| && !plan[id].skip && plan[id].code !in {0, 1, 2}
  }

  lemma {:induction false} PlanCountsAreNumbers(plan: seq<Spec>)
    ensures PlanCount(plan, Skip) == |ToSkip(plan)|
    ensures PlanCount(plan, Pass) == |ToReturn(plan, 0)|
    ensures PlanCount(plan, Fail) == |ToReturn(plan, 1)|
    ensures PlanCount(plan, Valgr) == |ToReturn(plan, 2)|
    ensures PlanCount(plan, Crash) == |ToCrash(plan)|
  {
    forall status: Status ensures PlanCount(plan, status) == |Where(plan, SpecWeight(status))| {
      TotalIsNumber(plan, SpecWeight(status));
    }
    assert ToSkip(plan) == Where(plan, SpecWeight(Skip));
    assert ToReturn(plan, 0) == Where(plan, SpecWeight(Pass));
    assert ToReturn(plan, 1) == Where(plan, SpecWeight(Fail));
    assert ToReturn(plan, 2) == Where(plan, SpecWeight(Valgr));
    assert ToCrash(plan) == Where(plan, SpecWeight(Crash));
  }

  /** The numbers an uninterrupted run reports, read off the plan. */
  lemma UninterruptedNumbers(plan: seq<Spec>, count: nat, s: State)
    requires Reachable(plan, count, s) && s.phase.Finished? && !s.threadExit
    ensures |WithOutcome(s.collected, Skipped)| == |ToSkip(plan)|
    ensures |WithOutcome(s.collected, Returned(0))| == |ToReturn(plan, 0)|
    ensures |WithOutcome(s.collected, Returned(1))| == |ToReturn(plan, 1)|
    ensures |WithOutcome(s.collected, Returned(2))| == |ToReturn(plan, 2)|
    ensures |CrashesIn(s.collected)| == |ToCrash(plan)|
  {
    CountsAreNumbers(s.collected);
    PlanCountsAreNumbers(plan);
    UninterruptedCounts(plan, count, s, Skip);
    UninterruptedCounts(plan, count, s, Pass);
    UninterruptedCounts(plan, count, s, Fail);
    UninterruptedCounts(plan, count, s, Valgr);
    UninterruptedCounts(plan, count, s, Crash);
  }

  /** With interrupts, no status can be counted more often than the plan has it. */
  lemma {:induction false} CountsAtMost(plan: seq<Spec>, threadExit: bool, reports: seq<Report>, status: Status)
    requires forall k :: 0 <= k < |reports| ==> Truthful(plan, threadExit, reports[k])
    requires status != NoResult
    ensures CountOf(reports, status) <= Total(reports, PlanWeights(plan, status).kept)
  {
    if reports != [] {
      assert Truthful(plan, threadExit, reports[|reports| - 1]);
      CountsAtMost(plan, threadExit, reports[..|reports| - 1], status);
    }
  }

  lemma InterruptedCounts(plan: seq<Spec>, count: nat, s: State, status: Status)
    requires Reachable(plan, count, s) && s.phase.Finished? && status != NoResult
    ensures CountOf(s.collected, status) <= PlanCount(plan, status)
    ensures CountOf(s.collected, Pass) + CountOf(s.collected, Skip) + CountOf(s.collected, Fail)
      + CountOf(s.collected, Valgr) + CountOf(s.collected, Crash) + CountOf(s.collected, NoResult) == |plan|
  {
    ReachableKeepsInv(plan, count, s);
    FinishedPlanMass(plan, count, s, status);
    CountsAtMost(plan, s.threadExit, s.collected, status);
    CountsAddUp(s.collected);
    FinalState(plan, count, s);
  }

  /** A run whose main thread leaves the collect loop, say because a results file
      is missing: the counts, the interrupted jobs and what the workers leave in
      the output queue account for every test. */
  lemma {:induction false} AbandonedCounts(plan: seq<Spec>, count: nat, s: State, schedule: seq<Move>, t: State)
    requires Reachable(plan, count, s) && s.phase.Collecting? && count >= 1
    requires Leads(plan, s, schedule, t) && MainMove !in schedule && forall w: nat :: !WorkerEnabled(t, w)
    ensures CountOf(s.collected, Pass) + CountOf(s.collected, Skip) + CountOf(s.collected, Fail)
      + CountOf(s.collected, Valgr) + CountOf(s.collected, Crash) + CountOf(s.collected, NoResult)
      + |t.output| == |plan|
  {
    AbandonedRunEnds(plan, count, s, schedule, t);
    CountsAddUp(s.collected);
  }

  /** The runner succeeds exactly when every job it collected passed or was
      skipped; in an uninterrupted run, exactly when the plan has no job that
      fails, crashes or upsets valgrind. */
  lemma SuccessOfRun(plan: seq<Spec>, count: nat, s: State)
    requires Reachable(plan, count, s) && s.phase.Finished? && !s.threadExit
    ensures CountOf(s.collected, Pass) + CountOf(s.collected, Skip) == |plan|
      <==> forall id :: 0 <= id < |plan| ==> plan[id].skip || plan[id].code == 0
  {
    UninterruptedCounts(plan, count, s, Pass);
    UninterruptedCounts(plan, count, s, Skip);
    PlanIsCleanIff(plan);
  }

  lemma {:induction false} PlanIsCleanIff(plan: seq<Spec>)
    ensures PlanCount(plan, Pass) + PlanCount(plan, Skip) <= |plan|
    ensures PlanCount(plan, Pass) + PlanCount(plan, Skip) == |plan|
      <==> forall id :: 0 <= id < |plan| ==> plan[id].skip || plan[id].code == 0
  {
    if plan != [] {
      var front := plan[..|plan| - 1];
      PlanIsCleanIff(front);
      assert forall id :: 0 <= id < |front| ==> front[id] == plan[id];
    }
  }
}
