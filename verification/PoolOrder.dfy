/** What the two FIFO queues of the pool mean for the order of the jobs. */
module PoolOrder {
  import opened WorkerPool
  import opened PoolRuns

  /** The numbers of the real jobs in the input queue. */
  ghost function Waiting(input: seq<Ticket>): seq<nat> {
    if input == [] then [] else Waiting(input[..|input| - 1]) + TicketIds(input[|input| - 1])
  }

  ghost function TicketIds(t: Ticket): seq<nat> {
    if t.Work? then [t.id] else []
  }

  ghost function ReportIds(reports: seq<Report>): (ids: seq<nat>)
    ensures |ids| == |reports|
  {
    seq(|reports|, k requires 0 <= k < |reports| => reports[k].id)
  }

  ghost function HandIds(v: Worker): seq<nat> {
    match v
    case Got(t) => TicketIds(t)
    case Running(id) => [id]
    case Reporting(r) => [r.id]
    case _ => []
  }

  lemma {:induction false} WaitingAppend(input: seq<Ticket>, t: Ticket)
    ensures Waiting(input + [t]) == Waiting(input) + TicketIds(t)
  {
    assert (input + [t])[..|input|] == input;
  }

  lemma {:induction false} WaitingConcat(a: seq<Ticket>, b: seq<Ticket>)
    ensures Waiting(a + b) == Waiting(a) + Waiting(b)
  {
    if b == [] {
      assert a + b == a;
    } else {
      assert (a + b)[..|a + b| - 1] == a + b[..|b| - 1];
      WaitingConcat(a, b[..|b| - 1]);
    }
  }

  lemma {:induction false} WaitingTail(input: seq<Ticket>)
    requires input != []
    ensures Waiting(input) == TicketIds(input[0]) + Waiting(input[1..])
  {
    var first := [input[0]];
    assert input == first + input[1..];
    WaitingConcat(first, input[1..]);
    assert Waiting(first) == TicketIds(input[0]) by { assert first[..0] == []; }
  }

  /** Consecutive numbers that end just below the bound. */
  ghost predicate RunUpTo(ids: seq<nat>, bound: nat) {
    |ids| <= bound && forall k :: 0 <= k < |ids| ==> ids[k] == bound - |ids| + k
  }

  ghost predicate QueueInOrder(plan: seq<Spec>, s: State) {
    RunUpTo(Waiting(s.input), Dispatched(plan, s))
  }

  lemma RunUpToAppend(ids: seq<nat>, bound: nat)
    requires RunUpTo(ids, bound)
    ensures RunUpTo(ids + [bound], bound + 1)
  {
  }

  /** Putting a job extends the run of waiting numbers by the next one. */
  lemma PutKeepsQueue(plan: seq<Spec>, s: State, t: State, k: nat)
    requires QueueInOrder(plan, s) && Dispatched(plan, s) == k
    requires t.input == s.input + [Work(k)] && Dispatched(plan, t) == k + 1
    ensures QueueInOrder(plan, t)
  {
    WaitingAppend(s.input, Work(k));
    RunUpToAppend(Waiting(s.input), k);
  }

  lemma BreakKeepsQueue(plan: seq<Spec>, s: State, t: State)
    requires QueueInOrder(plan, s) && t.input == s.input + [Break] && Dispatched(plan, t) == Dispatched(plan, s)
    ensures QueueInOrder(plan, t)
  {
    WaitingAppend(s.input, Break);
    assert Waiting(s.input) + [] == Waiting(s.input);
  }

  lemma MainKeepsQueue(plan: seq<Spec>, count: nat, s: State)
    requires Shape(plan, count, s) && QueueInOrder(plan, s) && MainEnabled(plan, s)
    ensures QueueInOrder(plan, MainStep(plan, s))
  {
    var t := MainStep(plan, s);
    if s.phase.Dispatching? && s.phase.next < |plan| {
      PutKeepsQueue(plan, s, t, s.phase.next);
    } else if t.input != s.input {
      BreakKeepsQueue(plan, s, t);
    } else {
      assert Dispatched(plan, t) == Dispatched(plan, s);
    }
  }

  lemma WorkerKeepsQueue(plan: seq<Spec>, s: State, w: nat)
    requires QueueInOrder(plan, s) && WorkerEnabled(s, w)
    ensures QueueInOrder(plan, WorkerStep(plan, s, w))
  {
    if s.workers[w].Idle? {
      WaitingTail(s.input);
      RunUpToTail(TicketIds(s.input[0]), Waiting(s.input[1..]), Dispatched(plan, s));
    }
  }

  lemma RunUpToTail(head: seq<nat>, tail: seq<nat>, bound: nat)
    requires RunUpTo(head + tail, bound)
    ensures RunUpTo(tail, bound)
  {
    forall k | 0 <= k < |tail| ensures tail[k] == bound - |tail| + k {
      assert (head + tail)[|head| + k] == tail[k];
    }
  }

  lemma {:induction false} ScheduleKeepsQueue(plan: seq<Spec>, count: nat, s: State, schedule: seq<Move>, t: State)
    requires Shape(plan, count, s) && QueueInOrder(plan, s) && Leads(plan, s, schedule, t)
    ensures QueueInOrder(plan, t)
    decreases |schedule|
  {
    if schedule != [] {
      var m := schedule[0];
      MoveKeepsShape(plan, count, s, m);
      match m {
        case MainMove => MainKeepsQueue(plan, count, s);
        case WorkerMove(w) => WorkerKeepsQueue(plan, s, w);
        case Interrupt =>
      }
      ScheduleKeepsQueue(plan, count, Apply(plan, s, m), schedule[1..], t);
    }
  }

  /** The jobs still waiting are always the last ones dispatched, in order: jobs
      are taken in the order in which they were dispatched. */
  lemma TakenInDispatchOrder(plan: seq<Spec>, count: nat, s: State)
    requires Reachable(plan, count, s)
    ensures RunUpTo(Waiting(s.input), Dispatched(plan, s))
  {
    var schedule :| Leads(plan, Init(count), schedule, s);
    InitKeepsInv(plan, count);
    ScheduleKeepsQueue(plan, count, Init(count), schedule, s);
  }

  // ---------------------------------------------------------------------
  // A single worker
  // ---------------------------------------------------------------------

  ghost function Glue(a: seq<nat>, b: seq<nat>, c: seq<nat>, d: seq<nat>): seq<nat> {
    a + (b + (c + d))
  }

  lemma GlueMoves(a: seq<nat>, b: seq<nat>, d: seq<nat>, x: seq<nat>)
    ensures Glue(a, b + x, [], d) == Glue(a, b, x, d) == Glue(a, b, [], x + d)
  {
  }

  lemma GlueShift(a: seq<nat>, b: seq<nat>, c: seq<nat>, d: seq<nat>, x: seq<nat>)
    ensures Glue(a + x, b, c, d) == Glue(a, x + b, c, d)
    ensures Glue(a, b, c, d + x) == Glue(a, b, c, d) + x
  {
  }

  /** The jobs from the first collected to the last waiting. */
  ghost function Line(s: State): seq<nat>
    requires |s.workers| == 1
  {
    Glue(ReportIds(s.collected), ReportIds(s.output), HandIds(s.workers[0]), Waiting(s.input))
  }

  ghost function UpTo(n: nat): (ids: seq<nat>)
    ensures |ids| == n && forall k :: 0 <= k < n ==> ids[k] == k
  {
    seq(n, k requires 0 <= k => k)
  }

  lemma ReportsMove(collected: seq<Report>, output: seq<Report>)
    requires output != []
    ensures ReportIds(collected + [output[0]]) == ReportIds(collected) + [output[0].id]
    ensures ReportIds(output) == [output[0].id] + ReportIds(output[1..])
  {
  }

  lemma PutKeepsLine(s: State, input: seq<Ticket>, t: Ticket)
    requires |s.workers| == 1 && input == s.input + [t]
    ensures Line(s.(input := input)) == Line(s) + TicketIds(t)
  {
    WaitingAppend(s.input, t);
    GlueShift(ReportIds(s.collected), ReportIds(s.output), HandIds(s.workers[0]), Waiting(s.input), TicketIds(t));
  }

  lemma CollectKeepsLine(s: State)
    requires |s.workers| == 1 && s.output != []
    ensures Line(s.(output := s.output[1..], collected := s.collected + [s.output[0]])) == Line(s)
  {
    ReportsMove(s.collected, s.output);
    GlueShift(ReportIds(s.collected), ReportIds(s.output[1..]), HandIds(s.workers[0]), Waiting(s.input), [s.output[0].id]);
  }

  lemma MainKeepsLine(plan: seq<Spec>, s: State)
    requires |s.workers| == 1 && MainEnabled(plan, s)
    ensures Line(MainStep(plan, s)) == Line(s)
      + if s.phase.Dispatching? && s.phase.next < |plan| then [s.phase.next] else []
  {
    match s.phase
    case Dispatching(k) => PutKeepsLine(s, s.input + [Work(k)], Work(k));
    case Stopping(_) => PutKeepsLine(s, s.input + [Break], Break);
    case Collecting => if s.output != [] { CollectKeepsLine(s); }
    case Joining(_) =>
  }

  lemma WorkerKeepsLine(plan: seq<Spec>, s: State)
    requires |s.workers| == 1 && WorkerEnabled(s, 0)
    ensures Line(WorkerStep(plan, s, 0)) == Line(s)
  {
    var t := WorkerStep(plan, s, 0);
    var a, b := ReportIds(s.collected), ReportIds(s.output);
    if s.workers[0].Idle? {
      WaitingTail(s.input);
      GlueMoves(a, b, Waiting(t.input), TicketIds(s.input[0]));
    } else if s.workers[0].Reporting? {
      assert ReportIds(t.output) == b + HandIds(s.workers[0]);
      GlueMoves(a, b, Waiting(s.input), HandIds(s.workers[0]));
    }
  }

  ghost predicate LineInOrder(plan: seq<Spec>, s: State) {
    |s.workers| == 1 && Line(s) == UpTo(Dispatched(plan, s))
  }

  lemma UpToStep(n: nat)
    ensures UpTo(n + 1) == UpTo(n) + [n]
  {
  }

  lemma MainKeepsLineInOrder(plan: seq<Spec>, s: State)
    requires Shape(plan, 1, s) && LineInOrder(plan, s) && MainEnabled(plan, s)
    ensures LineInOrder(plan, MainStep(plan, s))
  {
    MainKeepsLine(plan, s);
    if s.phase.Dispatching? && s.phase.next < |plan| {
      UpToStep(s.phase.next);
      assert Dispatched(plan, MainStep(plan, s)) == s.phase.next + 1;
    } else {
      assert Line(s) + [] == Line(s);
      assert Dispatched(plan, MainStep(plan, s)) == Dispatched(plan, s);
    }
  }

  lemma MoveKeepsLine(plan: seq<Spec>, s: State, m: Move)
    requires Shape(plan, 1, s) && LineInOrder(plan, s) && Enabled(plan, s, m)
    ensures LineInOrder(plan, Apply(plan, s, m))
  {
    match m
    case MainMove => MainKeepsLineInOrder(plan, s);
    case WorkerMove(w) =>
      WorkerKeepsLine(plan, s);
      assert WorkerStep(plan, s, 0).phase == s.phase;
    case Interrupt => assert Line(s.(threadExit := true)) == Line(s);
  }

  lemma {:induction false} ScheduleKeepsLine(plan: seq<Spec>, s: State, schedule: seq<Move>, t: State)
    requires Shape(plan, 1, s) && LineInOrder(plan, s) && Leads(plan, s, schedule, t)
    ensures LineInOrder(plan, t)
    decreases |schedule|
  {
    if schedule != [] {
      MoveKeepsShape(plan, 1, s, schedule[0]);
      MoveKeepsLine(plan, s, schedule[0]);
      ScheduleKeepsLine(plan, Apply(plan, s, schedule[0]), schedule[1..], t);
    }
  }

  /** With one worker the results come back in dispatch order, interrupted or not. */
  lemma OneWorkerKeepsOrder(plan: seq<Spec>, s: State)
    requires Reachable(plan, 1, s)
    ensures forall k :: 0 <= k < |s.collected| ==> s.collected[k].id == k
  {
    var schedule :| Leads(plan, Init(1), schedule, s);
    InitKeepsInv(plan, 1);
    ScheduleKeepsLine(plan, Init(1), schedule, s);
    forall k | 0 <= k < |s.collected| ensures s.collected[k].id == k {
      assert Line(s)[k] == ReportIds(s.collected)[k];
    }
  }

  // ---------------------------------------------------------------------
  // Where an interrupt cuts the run of a single worker
  // ---------------------------------------------------------------------

  /** Which reports say that the job was interrupted. */
  ghost function ReportFlags(reports: seq<Report>): (flags: seq<bool>)
    ensures |flags| == |reports| && forall k :: 0 <= k < |flags| ==> flags[k] == reports[k].outcome.Interrupted?
  {
    seq(|reports|, k requires 0 <= k < |reports| => reports[k].outcome.Interrupted?)
  }

  ghost function HandFlags(v: Worker): seq<bool> {
    match v
    case Running(_) => [false]
    case Reporting(r) => [r.outcome.Interrupted?]
    case _ => []
  }

  /** For every job the worker has decided on, in order, whether it was interrupted. */
  ghost function Decisions(s: State): seq<bool>
    requires |s.workers| == 1
  {
    ReportFlags(s.collected) + ReportFlags(s.output) + HandFlags(s.workers[0])
  }

  lemma MainKeepsDecisions(plan: seq<Spec>, s: State)
    requires |s.workers| == 1 && MainEnabled(plan, s)
    ensures Decisions(MainStep(plan, s)) == Decisions(s)
  {
    var t := MainStep(plan, s);
    if t.output != s.output {
      assert ReportFlags(t.collected) + ReportFlags(t.output) == ReportFlags(s.collected) + ReportFlags(s.output);
    }
  }

  /** A worker decides on a job by the flag, at the moment it looks at it. */
  lemma WorkerDecides(plan: seq<Spec>, s: State)
    requires |s.workers| == 1 && WorkerEnabled(s, 0)
    ensures Decisions(WorkerStep(plan, s, 0))
      == Decisions(s) + if s.workers[0].Got? && s.workers[0].ticket.Work? then [s.threadExit] else []
  {
    var t := WorkerStep(plan, s, 0);
    if s.workers[0].Reporting? {
      assert ReportFlags(t.output) == ReportFlags(s.output) + HandFlags(s.workers[0]);
    }
  }

  /** Exactly the decisions from the cut on are interruptions; before the flag
      is set the cut lies behind them all. */
  ghost predicate CutAt(s: State, cut: nat) {
    && |s.workers| == 1 && cut <= |Decisions(s)|
    && (forall k :: 0 <= k < |Decisions(s)| ==> (Decisions(s)[k] <==> cut <= k))
    && (!s.threadExit ==> cut == |Decisions(s)|)
  }

  lemma MoveKeepsCut(plan: seq<Spec>, s: State, m: Move, cut: nat) returns (next: nat)
    requires CutAt(s, cut) && Enabled(plan, s, m)
    ensures CutAt(Apply(plan, s, m), next) && (s.threadExit ==> next == cut)
    ensures |Decisions(Apply(plan, s, m))| <= |Decisions(s)| + 1
  {
    next := cut;
    match m
    case MainMove => MainKeepsDecisions(plan, s);
    case WorkerMove(w) =>
      WorkerDecides(plan, s);
      if !s.threadExit {
        next := |Decisions(WorkerStep(plan, s, 0))|;
      }
    case Interrupt => assert Decisions(s.(threadExit := true)) == Decisions(s);
  }

  /** Once the flag is set the cut stays where it is. */
  lemma {:induction false} ScheduleKeepsCut(plan: seq<Spec>, s: State, schedule: seq<Move>, t: State, cut: nat)
    returns (last: nat)
    requires CutAt(s, cut) && Leads(plan, s, schedule, t)
    ensures CutAt(t, last) && (s.threadExit ==> last == cut)
    decreases |schedule|
  {
    if schedule == [] {
      last := cut;
    } else {
      var next := MoveKeepsCut(plan, s, schedule[0], cut);
      last := ScheduleKeepsCut(plan, Apply(plan, s, schedule[0]), schedule[1..], t, next);
    }
  }

  /** The results of a single worker are real ones up to a cut, and interrupted
      ones from it on. */
  lemma OneWorkerCut(plan: seq<Spec>, s: State) returns (cut: nat)
    requires Reachable(plan, 1, s)
    ensures forall k :: 0 <= k < |s.collected| ==> (s.collected[k].outcome.Interrupted? <==> cut <= k)
    ensures !s.threadExit ==> cut >= |s.collected|
  {
    var schedule :| Leads(plan, Init(1), schedule, s);
    assert Decisions(Init(1)) == [];
    cut := ScheduleKeepsCut(plan, Init(1), schedule, s, 0);
    CollectedDecisions(s, cut);
  }

  lemma CollectedDecisions(s: State, cut: nat)
    requires CutAt(s, cut)
    ensures |s.collected| <= |Decisions(s)|
    ensures forall k :: 0 <= k < |s.collected| ==> (s.collected[k].outcome.Interrupted? <==> cut <= k)
  {
    forall k | 0 <= k < |s.collected| ensures s.collected[k].outcome.Interrupted? <==> cut <= k {
      assert Decisions(s)[k] == ReportFlags(s.collected)[k];
    }
  }

  /** A run in which the worker has decided on exactly cut jobs, none of them interrupted. */
  lemma {:induction false} DecideUpTo(plan: seq<Spec>, s: State, cut: nat) returns (schedule: seq<Move>, t: State)
    requires Inv(plan, 1, s) && !s.threadExit && CutAt(s, |Decisions(s)|) && |Decisions(s)| <= cut <= |plan|
    ensures Leads(plan, s, schedule, t) && Inv(plan, 1, t) && !t.threadExit && CutAt(t, cut)
    decreases Rank(plan, s)
  {
    if |Decisions(s)| == cut {
      schedule, t := [], s;
    } else {
      if s.phase.Finished? { FinalState(plan, 1, s); }
      var m := SomeMove(plan, 1, s);
      MoveKeepsInv(plan, 1, s, m);
      MoveLowersRank(plan, 1, s, m);
      RankIsNat(plan, 1, s);
      var next := MoveKeepsCut(plan, s, m, |Decisions(s)|);
      var rest;
      rest, t := DecideUpTo(plan, Apply(plan, s, m), cut);
      schedule := [m] + rest;
      assert schedule[1..] == rest;
    }
  }

  /** An interrupt can cut the run of a single worker behind any number of jobs. */
  lemma EveryCutHappens(plan: seq<Spec>, cut: nat) returns (s: State)
    requires cut <= |plan|
    ensures Reachable(plan, 1, s) && s.phase.Finished? && |s.collected| == |plan|
    ensures forall k :: 0 <= k < |plan| ==> (s.collected[k].outcome.Interrupted? <==> cut <= k)
  {
    InitKeepsInv(plan, 1);
    assert Decisions(Init(1)) == [];
    var before, now := DecideUpTo(plan, Init(1), cut);
    var flagged := Apply(plan, now, Interrupt);
    MoveKeepsInv(plan, 1, now, Interrupt);
    var same := MoveKeepsCut(plan, now, Interrupt, cut);
    var rest;
    rest, s := CanFinish(plan, 1, flagged);
    var last := ScheduleKeepsCut(plan, flagged, rest, s, cut);
    assert ([Interrupt] + rest)[1..] == rest;
    LeadsAppend(plan, Init(1), before, now, [Interrupt] + rest, s);
    ReachableKeepsInv(plan, 1, s);
    FinalState(plan, 1, s);
    CollectedDecisions(s, cut);
  }
}
