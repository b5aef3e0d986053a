/** Whole runs of the worker pool: progress, termination and the final state. */
module PoolRuns {
  import opened Totals
  import opened WorkerPool

  // ---------------------------------------------------------------------
  // Every schedule is finite
  // ---------------------------------------------------------------------

  ghost function CostWeights(): Weights {
    Weights(
      (t: Ticket) => if t.Break? then 2 else 5,
      (v: Worker) =>
        match v
        case Got(t) => if t.Break? then 1 else 4
        case Running(_) => 3
        case Reporting(_) => 2
        case _ => 0,
      (r: Report) => 1,
      (r: Report) => 0)
  }

  ghost function MainCost(plan: seq<Spec>, s: State): int {
    var n, count := |plan|, |s.workers|;
    match s.phase
    case Dispatching(k) => 6 * (n - k) + 4 * count + 4
    case Stopping(k) => 3 * (count - k) + count + 3
    case Collecting => count + 2
    case Joining(k) => count - k + 1
    case Finished => 0
  }

  /** An upper bound on the number of moves still possible. */
  ghost function Rank(plan: seq<Spec>, s: State): int {
    Mass(s, CostWeights()) + MainCost(plan, s) + if s.threadExit then 0 else 1
  }

  lemma MainLowersRank(plan: seq<Spec>, count: nat, s: State)
    requires Shape(plan, count, s) && MainEnabled(plan, s)
    ensures Rank(plan, MainStep(plan, s)) < Rank(plan, s)
  {
    MainFlow(plan, s, CostWeights());
  }

  lemma WorkerLowersRank(plan: seq<Spec>, count: nat, s: State, w: nat)
    requires Shape(plan, count, s) && WorkerEnabled(s, w)
    ensures Rank(plan, WorkerStep(plan, s, w)) < Rank(plan, s)
  {
    WorkerFlow(plan, s, w, CostWeights());
  }

  /** Every move of every actor brings the run closer to its end. */
  lemma MoveLowersRank(plan: seq<Spec>, count: nat, s: State, m: Move)
    requires Shape(plan, count, s) && Enabled(plan, s, m)
    ensures Rank(plan, Apply(plan, s, m)) < Rank(plan, s)
  {
    match m
    case MainMove => MainLowersRank(plan, count, s);
    case WorkerMove(w) => WorkerLowersRank(plan, count, s, w);
    case Interrupt =>
  }

  lemma RankOfInit(plan: seq<Spec>, count: nat)
    ensures Rank(plan, Init(count)) == 6 * |plan| + 4 * count + 5
  {
    TotalZero(Init(count).workers, CostWeights().worker);
  }

  lemma {:induction false} ScheduleLowersRank(
      plan: seq<Spec>, count: nat, s: State, schedule: seq<Move>, t: State)
    requires Shape(plan, count, s) && Leads(plan, s, schedule, t)
    ensures |schedule| + Rank(plan, t) <= Rank(plan, s)
    ensures Rank(plan, t) >= 0
    decreases |schedule|
  {
    if schedule != [] {
      MoveKeepsShape(plan, count, s, schedule[0]);
      MoveLowersRank(plan, count, s, schedule[0]);
      ScheduleLowersRank(plan, count, Apply(plan, s, schedule[0]), schedule[1..], t);
    }
  }

  /** No schedule whatever is longer than 6 * jobs + 4 * workers + 5 moves. */
  lemma {:induction false} EveryScheduleIsBounded(plan: seq<Spec>, count: nat, schedule: seq<Move>, t: State)
    requires Leads(plan, Init(count), schedule, t)
    ensures |schedule| <= 6 * |plan| + 4 * count + 5
  {
    InitKeepsInv(plan, count);
    RankOfInit(plan, count);
    ScheduleLowersRank(plan, count, Init(count), schedule, t);
  }

  // ---------------------------------------------------------------------
  // No deadlock
  // ---------------------------------------------------------------------

  /** Some thread of the runner can move; the signal handler does not count. */
  ghost predicate CanMove(plan: seq<Spec>, s: State) {
    MainEnabled(plan, s) || exists w: nat :: WorkerEnabled(s, w)
  }

  /** When no worker can move, none holds anything. */
  lemma BlockedWorkersAreEmptyHanded(s: State)
    requires forall w: nat :: !WorkerEnabled(s, w)
    ensures forall w :: 0 <= w < |s.workers| ==> s.workers[w].Exited? || (s.workers[w].Idle? && s.input == [])
    ensures Total(s.workers, AnyJobWeights().worker) == 0
  {
    forall w | 0 <= w < |s.workers|
      ensures s.workers[w].Exited? || (s.workers[w].Idle? && s.input == [])
    {
      assert !WorkerEnabled(s, w);
    }
    TotalZero(s.workers, AnyJobWeights().worker);
  }

  /** After the breaks are sent, blocked workers have emptied the input queue and all exited. */
  lemma BlockedWorkersAreDone(plan: seq<Spec>, count: nat, s: State)
    requires Inv(plan, count, s) && !s.phase.Dispatching? && !s.phase.Stopping? && count >= 1
    requires forall w: nat :: !WorkerEnabled(s, w)
    ensures s.input == []
    ensures forall w :: 0 <= w < count ==> s.workers[w].Exited?
  {
    BlockedWorkersAreEmptyHanded(s);
    var past := BreakWeights().worker;
    assert Mass(s, BreakWeights()) == count;
    assert Total(s.output, BreakWeights().queued) == 0 by { TotalZero(s.output, BreakWeights().queued); }
    assert Total(s.collected, BreakWeights().kept) == 0 by { TotalZero(s.collected, BreakWeights().kept); }
    TotalOfUnits(s.workers, past);
    assert s.input != [] ==> forall w :: 0 <= w < count ==> past(s.workers[w]) == 1;
    forall w | 0 <= w < count ensures s.workers[w].Exited? {
      assert past(s.workers[w]) == 1;
    }
  }

  /** With at least one worker, or nothing to do, the pool never deadlocks. */
  lemma NoDeadlock(plan: seq<Spec>, count: nat, s: State)
    requires Inv(plan, count, s) && !s.phase.Finished?
    requires count >= 1 || plan == []
    ensures CanMove(plan, s)
  {
    if !CanMove(plan, s) {
      if count >= 1 {
        BlockedWorkersAreDone(plan, count, s);
        BlockedWorkersAreEmptyHanded(s);
      }
      if s.phase.Collecting? {
        assert Mass(s, AnyJobWeights()) == |plan|;
        TotalOfUnits(s.collected, AnyJobWeights().kept);
        assert false;
      }
    }
  }

  /** Without workers the main thread dispatches everything and then waits for ever. */
  lemma {:induction false} LonelyMain(plan: seq<Spec>, k: nat) returns (schedule: seq<Move>, s: State)
    requires k <= |plan|
    ensures Leads(plan, State(Dispatching(k), seq(k, i requires i >= 0 => Work(i)), [], [], [], false), schedule, s)
    ensures s == State(Collecting, seq(|plan|, i requires i >= 0 => Work(i)), [], [], [], false)
    decreases |plan| - k
  {
    var now := State(Dispatching(k), seq(k, i requires i >= 0 => Work(i)), [], [], [], false);
    if k < |plan| {
      var rest;
      rest, s := LonelyMain(plan, k + 1);
      schedule := [MainMove] + rest;
      assert Apply(plan, now, MainMove).input == seq(k + 1, i requires i >= 0 => Work(i));
      assert schedule[1..] == rest;
    } else {
      s := now.(phase := Collecting);
      schedule := [MainMove, MainMove];
      assert Leads(plan, Apply(plan, Apply(plan, now, MainMove), MainMove), [], s);
      assert schedule[1..] == [MainMove] && schedule[1..][1..] == [];
      assert Leads(plan, Apply(plan, now, MainMove), schedule[1..], s);
    }
  }

  /** Exactly when the pool is free of deadlock. */
  lemma DeadlockFreeIff(plan: seq<Spec>, count: nat)
    ensures (forall s :: Reachable(plan, count, s) ==> s.phase.Finished? || CanMove(plan, s))
      <==> (count >= 1 || plan == [])
  {
    if count >= 1 || plan == [] {
      forall s | Reachable(plan, count, s) && !s.phase.Finished?
        ensures CanMove(plan, s)
      {
        ReachableKeepsInv(plan, count, s);
        NoDeadlock(plan, count, s);
      }
    } else {
      var schedule, s := LonelyMain(plan, 0);
      assert seq(0, i requires i >= 0 => Work(i)) == [];
      assert Init(count).workers == [];
      assert Reachable(plan, count, s);
      assert !CanMove(plan, s);
    }
  }

  /** The thread count comes from --jobs: on a machine with at least one
      processor the pool can deadlock exactly for a negative limit; otherwise
      there are as many workers as processors and a positive limit allow. */
  lemma DeadlockFreeForLimit(plan: seq<Spec>, processors: int, processLimit: int)
    requires processors >= 1 && plan != []
    ensures (forall s :: Reachable(plan, WorkerCount(processors, processLimit), s)
                         ==> s.phase.Finished? || CanMove(plan, s))
      <==> processLimit >= 0
    ensures var n := WorkerCount(processors, processLimit);
      && n <= processors && (processLimit > 0 ==> n <= processLimit)
      && (processLimit >= 0 ==> n == processors || n == processLimit > 0)
  {
    DeadlockFreeIff(plan, WorkerCount(processors, processLimit));
  }

  // ---------------------------------------------------------------------
  // How a run ends
  // ---------------------------------------------------------------------

  lemma {:induction false} LeadsAppend(plan: seq<Spec>, s: State, a: seq<Move>, t: State, b: seq<Move>, u: State)
    requires Leads(plan, s, a, t) && Leads(plan, t, b, u)
    ensures Leads(plan, s, a + b, u)
    decreases |a|
  {
    if a == [] {
      assert a + b == b;
    } else {
      assert (a + b)[0] == a[0] && (a + b)[1..] == a[1..] + b;
      LeadsAppend(plan, Apply(plan, s, a[0]), a[1..], t, b, u);
    }
  }

  /** From every state a run can get into, it can still be completed, without a further interrupt. */
  lemma {:induction false} CanFinish(plan: seq<Spec>, count: nat, s: State) returns (schedule: seq<Move>, t: State)
    requires Inv(plan, count, s)
    requires count >= 1 || plan == []
    ensures Leads(plan, s, schedule, t) && t.phase.Finished?
    ensures t.threadExit == s.threadExit && Interrupt !in schedule
    decreases Rank(plan, s)
  {
    if s.phase.Finished? {
      schedule, t := [], s;
    } else {
      var m := SomeMove(plan, count, s);
      MoveKeepsInv(plan, count, s, m);
      MoveLowersRank(plan, count, s, m);
      RankIsNat(plan, count, s);
      var rest;
      rest, t := CanFinish(plan, count, Apply(plan, s, m));
      schedule := [m] + rest;
      assert schedule[1..] == rest;
    }
  }

  lemma SomeMove(plan: seq<Spec>, count: nat, s: State) returns (m: Move)
    requires Inv(plan, count, s) && !s.phase.Finished?
    requires count >= 1 || plan == []
    ensures Enabled(plan, s, m) && !m.Interrupt?
    ensures !Apply(plan, s, m).threadExit <==> !s.threadExit
  {
    NoDeadlock(plan, count, s);
    if MainEnabled(plan, s) {
      m := MainMove;
    } else {
      var w: nat :| WorkerEnabled(s, w);
      m := WorkerMove(w);
    }
  }

  lemma RankIsNat(plan: seq<Spec>, count: nat, s: State)
    requires Shape(plan, count, s)
    ensures Rank(plan, s) >= 0
  {
  }

  /** A run that no thread can continue has finished: both queues are empty,
      every worker has exited, and every job was collected exactly once. */
  lemma FinalState(plan: seq<Spec>, count: nat, s: State)
    requires Inv(plan, count, s) && s.phase.Finished?
    ensures s.input == [] && s.output == []
    ensures forall w :: 0 <= w < count ==> s.workers[w].Exited?
    ensures |s.collected| == |plan|
    ensures forall id: nat :: Total(s.collected, JobWeights(id).kept) == if id < |plan| then 1 else 0
  {
    var any, past := AnyJobWeights(), BreakWeights();
    TotalOfUnits(s.collected, any.kept);
    assert Mass(s, any) == |plan|;
    assert Total(s.input, any.ticket) == 0 && Total(s.output, any.queued) == 0;
    TotalOfUnits(s.output, any.queued);
    assert forall w :: 0 <= w < count ==> past.worker(s.workers[w]) == 1;
    TotalOfUnits(s.workers, past.worker);
    assert Mass(s, past) == count;
    forall id: nat
      ensures Total(s.collected, JobWeights(id).kept) == if id < |plan| then 1 else 0
    {
      assert Mass(s, JobWeights(id)) == if id < |plan| then 1 else 0;
      TotalZero(s.workers, JobWeights(id).worker);
    }
  }

  /** A schedule that cannot be extended by any thread. */
  ghost predicate Maximal(plan: seq<Spec>, count: nat, schedule: seq<Move>, s: State) {
    Leads(plan, Init(count), schedule, s) && !CanMove(plan, s)
  }

  /** Every maximal run, under every schedule, ends well. */
  lemma MaximalRunsFinish(plan: seq<Spec>, count: nat, schedule: seq<Move>, s: State)
    requires count >= 1 || plan == []
    requires Maximal(plan, count, schedule, s)
    ensures s.phase.Finished? && s.input == [] && s.output == [] && |s.collected| == |plan|
    ensures forall w :: 0 <= w < |s.workers| ==> s.workers[w].Exited?
    ensures forall id: nat :: Total(s.collected, JobWeights(id).kept) == if id < |plan| then 1 else 0
  {
    assert Reachable(plan, count, s);
    ReachableKeepsInv(plan, count, s);
    if !s.phase.Finished? {
      NoDeadlock(plan, count, s);
    }
    FinalState(plan, count, s);
  }

  // ---------------------------------------------------------------------
  // When the main thread leaves the collect loop
  // ---------------------------------------------------------------------

  /** The main thread takes no part in the schedule. */
  lemma {:induction false} WithoutMain(plan: seq<Spec>, s: State, schedule: seq<Move>, t: State)
    requires Leads(plan, s, schedule, t) && MainMove !in schedule
    ensures t.phase == s.phase && t.collected == s.collected
    decreases |schedule|
  {
    if schedule != [] {
      var next := Apply(plan, s, schedule[0]);
      assert next.phase == s.phase && next.collected == s.collected;
      assert forall m :: m in schedule[1..] ==> m in schedule;
      WithoutMain(plan, next, schedule[1..], t);
    }
  }

  /** Left to themselves, the workers finish all jobs and exit. */
  lemma {:induction false} WorkersCanFinish(plan: seq<Spec>, count: nat, s: State)
    returns (schedule: seq<Move>, t: State)
    requires Inv(plan, count, s)
    ensures Leads(plan, s, schedule, t) && MainMove !in schedule && Interrupt !in schedule
    ensures forall w: nat :: !WorkerEnabled(t, w)
    decreases Rank(plan, s)
  {
    if w: nat :| WorkerEnabled(s, w) {
      var m := WorkerMove(w);
      MoveKeepsInv(plan, count, s, m);
      MoveLowersRank(plan, count, s, m);
      RankIsNat(plan, count, s);
      var rest;
      rest, t := WorkersCanFinish(plan, count, Apply(plan, s, m));
      schedule := [m] + rest;
      assert schedule[1..] == rest;
    } else {
      schedule, t := [], s;
    }
  }

  /** The job is once in the output queue or among the results. */
  ghost predicate HandedBack(s: State, id: nat) {
    Total(s.output, JobWeights(id).queued) + Total(s.collected, JobWeights(id).kept) == 1
  }

  /** Once the break jobs are sent and no worker can move, the workers have ended
      and handed back every job, whatever the main thread does. */
  lemma WorkersDone(plan: seq<Spec>, count: nat, s: State)
    requires Inv(plan, count, s) && !s.phase.Dispatching? && !s.phase.Stopping? && count >= 1
    requires forall w: nat :: !WorkerEnabled(s, w)
    ensures s.input == [] && forall w :: 0 <= w < count ==> s.workers[w].Exited?
    ensures |s.output| + |s.collected| == |plan|
    ensures forall id: nat :: id < |plan| ==> HandedBack(s, id)
  {
    BlockedWorkersAreDone(plan, count, s);
    BlockedWorkersAreEmptyHanded(s);
    TotalOfUnits(s.output, AnyJobWeights().queued);
    TotalOfUnits(s.collected, AnyJobWeights().kept);
    assert Mass(s, AnyJobWeights()) == |plan|;
    forall id: nat | id < |plan| ensures HandedBack(s, id) {
      assert Mass(s, JobWeights(id)) == 1;
      TotalZero(s.workers, JobWeights(id).worker);
    }
  }

  /** The collect loop may end in an exception.  Wherever the main thread stops
      in it, every continuation by the other threads that they cannot prolong has
      emptied the input queue and ended all workers; what was collected stays, and
      every job is once in the output queue or among the results. */
  lemma {:induction false} AbandonedRunEnds(plan: seq<Spec>, count: nat, s: State, schedule: seq<Move>, t: State)
    requires Reachable(plan, count, s) && s.phase.Collecting? && count >= 1
    requires Leads(plan, s, schedule, t) && MainMove !in schedule && forall w: nat :: !WorkerEnabled(t, w)
    ensures t.input == [] && t.collected == s.collected
    ensures |t.workers| == count && forall w :: 0 <= w < count ==> t.workers[w].Exited?
    ensures |t.output| + |t.collected| == |plan|
    ensures forall id: nat :: id < |plan| ==> HandedBack(t, id)
  {
    ReachableKeepsInv(plan, count, s);
    ScheduleKeepsInv(plan, count, s, schedule, t);
    WithoutMain(plan, s, schedule, t);
    WorkersDone(plan, count, t);
  }

  /** Once a worker has taken a break job, no real job waits in the input queue. */
  lemma NothingLeftAfterExit(plan: seq<Spec>, count: nat, s: State, w: nat, k: nat)
    requires Reachable(plan, count, s)
    requires w < |s.workers| && s.workers[w].Exited? && k < |s.input|
    ensures s.input[k].Break?
  {
    ReachableKeepsInv(plan, count, s);
  }

  /** In every reachable state a dispatched job is in exactly one of the four places, once. */
  lemma ExactlyOnePlace(plan: seq<Spec>, count: nat, s: State, id: nat)
    requires Reachable(plan, count, s)
    ensures Total(s.input, JobWeights(id).ticket) + Total(s.workers, JobWeights(id).worker)
      + Total(s.output, JobWeights(id).queued) + Total(s.collected, JobWeights(id).kept)
      == if id < Dispatched(plan, s) then 1 else 0
  {
    ReachableKeepsInv(plan, count, s);
    assert Mass(s, JobWeights(id)) == if id < Dispatched(plan, s) then 1 else 0;
  }

  // ---------------------------------------------------------------------
  // After an interrupt
  // ---------------------------------------------------------------------

  /** Weight one for every job that got past the test of the interrupt flag. */
  ghost function RealWeights(): Weights {
    Weights(
      (t: Ticket) => 0,
      (v: Worker) => if v.Running? || (v.Reporting? && !v.report.outcome.Interrupted?) then 1 else 0,
      (r: Report) => if r.outcome.Interrupted? then 0 else 1,
      (r: Report) => if r.outcome.Interrupted? then 0 else 1)
  }

  /** Once the flag is set no further job starts: the real results of the whole
      run are those already under way when it was set. */
  lemma {:induction false} InterruptStopsRealWork(
      plan: seq<Spec>, s: State, schedule: seq<Move>, t: State)
    requires s.threadExit && Leads(plan, s, schedule, t)
    ensures Mass(t, RealWeights()) == Mass(s, RealWeights())
    decreases |schedule|
  {
    if schedule != [] {
      match schedule[0] {
        case MainMove => MainFlow(plan, s, RealWeights());
        case WorkerMove(w) => WorkerFlow(plan, s, w, RealWeights());
        case Interrupt =>
      }
      InterruptStopsRealWork(plan, Apply(plan, s, schedule[0]), schedule[1..], t);
    }
  }
}
