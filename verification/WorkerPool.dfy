/** The parallel test runner of test.py: a main thread that dispatches jobs,
    sends one "break" job per worker, collects exactly as many results as it
    dispatched and joins the workers; worker threads that serve two unbounded
    FIFO queues; and an interrupt flag that a signal handler may set at any
    moment.  A schedule is any sequence of atomic moves of these actors. */
module WorkerPool {
  import opened Totals

  /** What a dispatched job asks for, and the code its process would return. */
  datatype Spec = Spec(skip: bool, code: int)

  /** An entry of the input queue: a real job, by dispatch number, or a break. */
  datatype Ticket = Break | Work(id: nat)

  datatype Outcome = Interrupted | Skipped | Returned(code: int)

  /** An entry of the output queue. */
  datatype Report = Report(id: nat, outcome: Outcome)

  datatype Worker = Idle | Got(ticket: Ticket) | Running(id: nat) | Reporting(report: Report) | Exited

  datatype Phase =
    | Dispatching(next: nat)
    | Stopping(sent: nat)
    | Collecting
    | Joining(joined: nat)
    | Finished

  datatype State = State(
    phase: Phase,
    input: seq<Ticket>,
    workers: seq<Worker>,
    output: seq<Report>,
    collected: seq<Report>,
    threadExit: bool)

  datatype Move = MainMove | WorkerMove(w: nat) | Interrupt

  /** The number of threads spawned: range() of a negative count is empty. */
  function WorkerCount(processors: int, processLimit: int): nat {
    var chosen := if processLimit != 0 && processors >= processLimit then processLimit else processors;
    if chosen < 0 then 0 else chosen
  }

  function Init(count: nat): State {
    State(Dispatching(0), [], seq(count, _ => Idle), [], [], false)
  }

  predicate MainEnabled(plan: seq<Spec>, s: State) {
    match s.phase
    case Dispatching(_) => true
    case Stopping(_) => true
    case Collecting => |s.collected| >= |plan| || s.output != []
    case Joining(k) => k >= |s.workers| || s.workers[k].Exited?
    case Finished => false
  }

  predicate WorkerEnabled(s: State, w: nat) {
    w < |s.workers| && !s.workers[w].Exited? && (s.workers[w].Idle? ==> s.input != [])
  }

  predicate Enabled(plan: seq<Spec>, s: State, m: Move) {
    match m
    case MainMove => MainEnabled(plan, s)
    case WorkerMove(w) => WorkerEnabled(s, w)
    case Interrupt => !s.threadExit
  }

  function MainStep(plan: seq<Spec>, s: State): State
    requires MainEnabled(plan, s)
  {
    match s.phase
    case Dispatching(k) =>
      if k < |plan| then s.(input := s.input + [Work(k)], phase := Dispatching(k + 1))
      else s.(phase := Stopping(0))
    case Stopping(k) =>
      if k < |s.workers| then s.(input := s.input + [Break], phase := Stopping(k + 1))
      else s.(phase := Collecting)
    case Collecting =>
      if |s.collected| < |plan| then
        s.(output := s.output[1..], collected := s.collected + [s.output[0]])
      else s.(phase := Joining(0))
    case Joining(k) =>
      if k < |s.workers| then s.(phase := Joining(k + 1)) else s.(phase := Finished)
  }

  /** What a worker does with the ticket it holds; the flag is read once per job. */
  function Decide(plan: seq<Spec>, threadExit: bool, t: Ticket): Worker {
    match t
    case Break => Exited
    case Work(id) =>
      if threadExit then Reporting(Report(id, Interrupted))
      else if id < |plan| && plan[id].skip then Reporting(Report(id, Skipped))
      else Running(id)
  }

  function WorkerStep(plan: seq<Spec>, s: State, w: nat): State
    requires WorkerEnabled(s, w)
  {
    match s.workers[w]
    case Idle => s.(input := s.input[1..], workers := s.workers[w := Got(s.input[0])])
    case Got(t) => s.(workers := s.workers[w := Decide(plan, s.threadExit, t)])
    case Running(id) =>
      var code := if id < |plan| then plan[id].code else 0;
      s.(workers := s.workers[w := Reporting(Report(id, Returned(code)))])
    case Reporting(r) => s.(output := s.output + [r], workers := s.workers[w := Idle])
  }

  function Apply(plan: seq<Spec>, s: State, m: Move): State
    requires Enabled(plan, s, m)
  {
    match m
    case MainMove => MainStep(plan, s)
    case WorkerMove(w) => WorkerStep(plan, s, w)
    case Interrupt => s.(threadExit := true)
  }

  /** The schedule is possible from s and leads to t. */
  ghost predicate Leads(plan: seq<Spec>, s: State, schedule: seq<Move>, t: State)
    decreases |schedule|
  {
    if schedule == [] then s == t
    else Enabled(plan, s, schedule[0]) && Leads(plan, Apply(plan, s, schedule[0]), schedule[1..], t)
  }

  ghost predicate Reachable(plan: seq<Spec>, count: nat, s: State) {
    exists schedule :: Leads(plan, Init(count), schedule, s)
  }

  // ---------------------------------------------------------------------
  // Flow: how any weighting of the four places changes with a move
  // ---------------------------------------------------------------------

  datatype Weights = Weights(
    ticket: Ticket -> nat,
    worker: Worker -> nat,
    queued: Report -> nat,
    kept: Report -> nat)

  /** The weight of everything in the input queue, in the workers' hands, in
      the output queue and among the collected results. */
  ghost function Mass(s: State, u: Weights): nat {
    Total(s.input, u.ticket) + Total(s.workers, u.worker)
    + Total(s.output, u.queued) + Total(s.collected, u.kept)
  }

  lemma MainFlow(plan: seq<Spec>, s: State, u: Weights)
    requires MainEnabled(plan, s)
    ensures s.phase.Dispatching? && s.phase.next < |plan| ==>
      Mass(MainStep(plan, s), u) == Mass(s, u) + u.ticket(Work(s.phase.next))
    ensures s.phase.Stopping? && s.phase.sent < |s.workers| ==>
      Mass(MainStep(plan, s), u) == Mass(s, u) + u.ticket(Break)
    ensures s.phase.Collecting? && |s.collected| < |plan| ==>
      Mass(MainStep(plan, s), u) + u.queued(s.output[0]) == Mass(s, u) + u.kept(s.output[0])
    ensures MainStep(plan, s) == s.(phase := MainStep(plan, s).phase) ==>
      Mass(MainStep(plan, s), u) == Mass(s, u)
  {
    match s.phase
    case Dispatching(k) => TotalOfAppend(s.input, Work(k), u.ticket);
    case Stopping(k) => TotalOfAppend(s.input, Break, u.ticket);
    case Collecting =>
      if |s.collected| < |plan| {
        TotalOfTail(s.output, u.queued);
        TotalOfAppend(s.collected, s.output[0], u.kept);
      }
    case Joining(k) =>
  }

  lemma WorkerFlow(plan: seq<Spec>, s: State, w: nat, u: Weights)
    requires WorkerEnabled(s, w)
    ensures var before, after := s.workers[w], WorkerStep(plan, s, w).workers[w];
      Mass(WorkerStep(plan, s, w), u) + u.worker(before)
        + (if before.Idle? then u.ticket(s.input[0]) else 0)
      == Mass(s, u) + u.worker(after)
        + (if before.Reporting? then u.queued(before.report) else 0)
  {
    var after := WorkerStep(plan, s, w).workers[w];
    TotalOfUpdate(s.workers, w, after, u.worker);
    match s.workers[w]
    case Idle => TotalOfTail(s.input, u.ticket);
    case Reporting(r) => TotalOfAppend(s.output, r, u.queued);
    case _ =>
  }

  // ---------------------------------------------------------------------
  // What every move keeps
  // ---------------------------------------------------------------------

  ghost function Dispatched(plan: seq<Spec>, s: State): nat {
    if s.phase.Dispatching? then s.phase.next else |plan|
  }

  ghost function BreaksSent(s: State): nat {
    match s.phase
    case Dispatching(_) => 0
    case Stopping(k) => k
    case _ => |s.workers|
  }

  /** Weight one for job id wherever it is. */
  ghost function JobWeights(id: nat): Weights {
    Weights(
      (t: Ticket) => if t == Work(id) then 1 else 0,
      (v: Worker) => if v == Got(Work(id)) || v == Running(id) || (v.Reporting? && v.report.id == id) then 1 else 0,
      (r: Report) => if r.id == id then 1 else 0,
      (r: Report) => if r.id == id then 1 else 0)
  }

  /** Weight one for every real job. */
  ghost function AnyJobWeights(): Weights {
    Weights(
      (t: Ticket) => if t.Work? then 1 else 0,
      (v: Worker) => if v.Running? || v.Reporting? || (v.Got? && v.ticket.Work?) then 1 else 0,
      (r: Report) => 1,
      (r: Report) => 1)
  }

  /** A worker that has taken a break job. */
  predicate PastBreak(v: Worker) {
    v.Exited? || v == Got(Break)
  }

  /** Weight one for every break job sent, consumed or not. */
  ghost function BreakWeights(): Weights {
    Weights((t: Ticket) => if t.Break? then 1 else 0, (v: Worker) => if PastBreak(v) then 1 else 0, (r: Report) => 0, (r: Report) => 0)
  }

  ghost predicate Shape(plan: seq<Spec>, count: nat, s: State) {
    && |s.workers| == count
    && |s.collected| <= |plan|
    && match s.phase
       case Dispatching(k) => k <= |plan| && s.collected == []
       case Stopping(k) => k <= count && s.collected == []
       case Collecting => true
       case Joining(k) =>
         k <= count && |s.collected| == |plan| && forall w :: 0 <= w < k ==> s.workers[w].Exited?
       case Finished => |s.collected| == |plan| && forall w :: 0 <= w < count ==> s.workers[w].Exited?
  }

  /** Each dispatched job is in exactly one place, exactly once. */
  ghost predicate Conserved(plan: seq<Spec>, s: State) {
    && (forall id: nat :: Mass(s, JobWeights(id)) == if id < Dispatched(plan, s) then 1 else 0)
    && Mass(s, AnyJobWeights()) == Dispatched(plan, s)
    && Mass(s, BreakWeights()) == BreaksSent(s)
  }

  /** Break jobs stay behind every real job, and nobody takes one while a real job waits. */
  ghost predicate Ordered(s: State) {
    && (forall j, k :: 0 <= j < k < |s.input| && s.input[j].Break? ==> s.input[k].Break?)
    && (forall w, k :: 0 <= w < |s.workers| && 0 <= k < |s.input| && PastBreak(s.workers[w]) ==> s.input[k].Break?)
    && (s.phase.Dispatching? ==>
          && (forall k :: 0 <= k < |s.input| ==> s.input[k].Work?)
          && (forall w :: 0 <= w < |s.workers| ==> !PastBreak(s.workers[w])))
  }

  /** A report says what the job was asked to do and returned, or that the
      worker saw the interrupt flag set. */
  ghost predicate Truthful(plan: seq<Spec>, threadExit: bool, r: Report) {
    && r.id < |plan|
    && match r.outcome
       case Interrupted => threadExit
       case Skipped => plan[r.id].skip
       case Returned(code) => !plan[r.id].skip && code == plan[r.id].code
  }

  ghost predicate TruthfulWorker(plan: seq<Spec>, threadExit: bool, v: Worker) {
    match v
    case Got(t) => t.Work? ==> t.id < |plan|
    case Running(id) => id < |plan| && !plan[id].skip
    case Reporting(r) => Truthful(plan, threadExit, r)
    case _ => true
  }

  ghost predicate AllTruthful(plan: seq<Spec>, s: State) {
    && (forall k :: 0 <= k < |s.input| && s.input[k].Work? ==> s.input[k].id < |plan|)
    && (forall w :: 0 <= w < |s.workers| ==> TruthfulWorker(plan, s.threadExit, s.workers[w]))
    && (forall k :: 0 <= k < |s.output| ==> Truthful(plan, s.threadExit, s.output[k]))
    && (forall k :: 0 <= k < |s.collected| ==> Truthful(plan, s.threadExit, s.collected[k]))
  }

  ghost predicate Inv(plan: seq<Spec>, count: nat, s: State) {
    Shape(plan, count, s) && Conserved(plan, s) && Ordered(s) && AllTruthful(plan, s)
  }

  lemma InitKeepsInv(plan: seq<Spec>, count: nat)
    ensures Inv(plan, count, Init(count))
  {
    var s := Init(count);
    forall u: Weights | u.worker(Idle) == 0
      ensures Mass(s, u) == 0
    {
      TotalZero(s.workers, u.worker);
    }
    forall id: nat ensures Mass(s, JobWeights(id)) == 0 {
      assert JobWeights(id).worker(Idle) == 0;
    }
    assert AnyJobWeights().worker(Idle) == 0 && BreakWeights().worker(Idle) == 0;
  }

  /** A job keeps its weight along its whole way through the pool. */
  ghost predicate Steady(plan: seq<Spec>, u: Weights) {
    && (forall t :: u.worker(Got(t)) == u.worker(Idle) + u.ticket(t))
    && (forall t, flag: bool :: u.worker(Decide(plan, flag, t)) == u.worker(Got(t)))
    && (forall id, r: Report :: r.id == id ==> u.worker(Running(id)) == u.worker(Reporting(r)))
    && (forall r :: u.worker(Reporting(r)) == u.worker(Idle) + u.queued(r))
    && (forall r :: u.queued(r) == u.kept(r))
  }

  /** The total of a steady weight changes only when the main thread puts a ticket. */
  lemma SteadyFlow(plan: seq<Spec>, s: State, m: Move, u: Weights)
    requires Enabled(plan, s, m) && Steady(plan, u)
    ensures Mass(Apply(plan, s, m), u) == Mass(s, u)
      + (if m.MainMove? && s.phase.Dispatching? && s.phase.next < |plan| then u.ticket(Work(s.phase.next)) else 0)
      + (if m.MainMove? && s.phase.Stopping? && s.phase.sent < |s.workers| then u.ticket(Break) else 0)
  {
    match m
    case MainMove => MainFlow(plan, s, u);
    case WorkerMove(w) => WorkerFlow(plan, s, w, u);
    case Interrupt =>
  }

  lemma JobIsSteady(plan: seq<Spec>, id: nat)
    ensures Steady(plan, JobWeights(id))
  {
  }

  lemma AnyJobIsSteady(plan: seq<Spec>)
    ensures Steady(plan, AnyJobWeights())
  {
  }

  lemma BreakIsSteady(plan: seq<Spec>)
    ensures Steady(plan, BreakWeights())
  {
  }

  lemma JobFlow(plan: seq<Spec>, count: nat, s: State, m: Move, id: nat)
    requires Shape(plan, count, s) && Enabled(plan, s, m)
    requires Mass(s, JobWeights(id)) == if id < Dispatched(plan, s) then 1 else 0
    ensures var t := Apply(plan, s, m);
      Mass(t, JobWeights(id)) == if id < Dispatched(plan, t) then 1 else 0
  {
    JobIsSteady(plan, id);
    SteadyFlow(plan, s, m, JobWeights(id));
  }

  lemma AnyJobFlow(plan: seq<Spec>, count: nat, s: State, m: Move)
    requires Shape(plan, count, s) && Enabled(plan, s, m)
    requires Mass(s, AnyJobWeights()) == Dispatched(plan, s)
    ensures Mass(Apply(plan, s, m), AnyJobWeights()) == Dispatched(plan, Apply(plan, s, m))
  {
    AnyJobIsSteady(plan);
    SteadyFlow(plan, s, m, AnyJobWeights());
  }

  lemma BreakFlow(plan: seq<Spec>, count: nat, s: State, m: Move)
    requires Shape(plan, count, s) && Enabled(plan, s, m)
    requires Mass(s, BreakWeights()) == BreaksSent(s)
    ensures Mass(Apply(plan, s, m), BreakWeights()) == BreaksSent(Apply(plan, s, m))
  {
    var t, u := Apply(plan, s, m), BreakWeights();
    assert Mass(t, u) == Mass(s, u)
      + if m.MainMove? && s.phase.Stopping? && s.phase.sent < |s.workers| then 1 else 0
    by {
      BreakIsSteady(plan);
      SteadyFlow(plan, s, m, u);
    }
    BreaksSentAfter(plan, count, s, m);
  }

  /** The number of break jobs sent grows by the ones the main thread puts. */
  lemma BreaksSentAfter(plan: seq<Spec>, count: nat, s: State, m: Move)
    requires Shape(plan, count, s) && Enabled(plan, s, m)
    ensures BreaksSent(Apply(plan, s, m)) == BreaksSent(s)
      + if m.MainMove? && s.phase.Stopping? && s.phase.sent < |s.workers| then 1 else 0
  {
  }

  lemma MoveKeepsConserved(plan: seq<Spec>, count: nat, s: State, m: Move)
    requires Shape(plan, count, s) && Conserved(plan, s) && Enabled(plan, s, m)
    ensures Conserved(plan, Apply(plan, s, m))
  {
    var t := Apply(plan, s, m);
    forall id: nat
      ensures Mass(t, JobWeights(id)) == if id < Dispatched(plan, t) then 1 else 0
    {
      JobFlow(plan, count, s, m, id);
    }
    AnyJobFlow(plan, count, s, m);
    BreakFlow(plan, count, s, m);
  }

  lemma MoveKeepsShape(plan: seq<Spec>, count: nat, s: State, m: Move)
    requires Shape(plan, count, s) && Enabled(plan, s, m)
    ensures Shape(plan, count, Apply(plan, s, m))
  {
  }

  lemma MainKeepsOrdered(plan: seq<Spec>, s: State)
    requires Ordered(s) && MainEnabled(plan, s)
    ensures Ordered(MainStep(plan, s))
  {
  }

  lemma WorkerKeepsOrdered(plan: seq<Spec>, s: State, w: nat)
    requires Ordered(s) && WorkerEnabled(s, w)
    ensures Ordered(WorkerStep(plan, s, w))
  {
    if s.workers[w].Idle? {
      var t := WorkerStep(plan, s, w);
      assert forall k :: 0 <= k < |t.input| ==> t.input[k] == s.input[k + 1];
    }
  }

  lemma MoveKeepsOrdered(plan: seq<Spec>, s: State, m: Move)
    requires Ordered(s) && Enabled(plan, s, m)
    ensures Ordered(Apply(plan, s, m))
  {
    match m
    case MainMove => MainKeepsOrdered(plan, s);
    case WorkerMove(w) => WorkerKeepsOrdered(plan, s, w);
    case Interrupt =>
  }

  lemma MoveKeepsTruthful(plan: seq<Spec>, s: State, m: Move)
    requires AllTruthful(plan, s) && Enabled(plan, s, m)
    ensures AllTruthful(plan, Apply(plan, s, m))
  {
  }

  lemma MoveKeepsInv(plan: seq<Spec>, count: nat, s: State, m: Move)
    requires Inv(plan, count, s) && Enabled(plan, s, m)
    ensures Inv(plan, count, Apply(plan, s, m))
  {
    MoveKeepsShape(plan, count, s, m);
    MoveKeepsConserved(plan, count, s, m);
    MoveKeepsOrdered(plan, s, m);
    MoveKeepsTruthful(plan, s, m);
  }

  lemma {:induction false} ScheduleKeepsInv(plan: seq<Spec>, count: nat, s: State, schedule: seq<Move>, t: State)
    requires Inv(plan, count, s) && Leads(plan, s, schedule, t)
    ensures Inv(plan, count, t)
    decreases |schedule|
  {
    if schedule != [] {
      MoveKeepsInv(plan, count, s, schedule[0]);
      ScheduleKeepsInv(plan, count, Apply(plan, s, schedule[0]), schedule[1..], t);
    }
  }

  /** The invariant holds in every reachable state, for every number of workers
      and every interleaving, interrupted or not. */
  lemma ReachableKeepsInv(plan: seq<Spec>, count: nat, s: State)
    requires Reachable(plan, count, s)
    ensures Inv(plan, count, s)
  {
    var schedule :| Leads(plan, Init(count), schedule, s);
    InitKeepsInv(plan, count);
    ScheduleKeepsInv(plan, count, Init(count), schedule, s);
  }
}
