/** Bench::Run and Bench::Cb of bench-scheduler.cc: every executed event
    schedules a new one until the configured total has been executed. */
module BenchRun {

  /** The time for which the i-th event is scheduled: the first population events
      by their delays alone, later ones by their delays after a dispatch. */
  ghost function Due(delays: nat -> nat, first: nat, population: nat, times: seq<nat>, i: nat): nat
    requires i < population + |times|
  {
    if i < population then delays(first + i) else times[i - population] + delays(first + i)
  }

  ghost predicate FollowsDelays(delays: nat -> nat, first: nat, population: nat, times: seq<nat>, scheduled: seq<nat>) {
    && |scheduled| <= population + |times|
    && forall i :: 0 <= i < |scheduled| ==> scheduled[i] == Due(delays, first, population, times, i)
  }

  /** Every event scheduled waits or was dispatched. */
  ghost predicate Balanced(queue: multiset<nat>, times: seq<nat>, scheduled: seq<nat>) {
    multiset(scheduled) == queue + multiset(times)
  }

  lemma OneMoreDispatch(
      delays: nat -> nat, first: nat, population: nat, times: seq<nat>, scheduled: seq<nat>, t: nat)
    requires FollowsDelays(delays, first, population, times, scheduled)
    ensures FollowsDelays(delays, first, population, times + [t], scheduled)
    ensures |scheduled| == population + |times| ==>
      FollowsDelays(delays, first, population, times + [t], scheduled + [t + delays(first + |scheduled|)])
  {
    forall i | 0 <= i < |scheduled|
      ensures scheduled[i] == Due(delays, first, population, times + [t], i)
    {
      assert scheduled[i] == Due(delays, first, population, times, i);
    }
  }

  lemma OneMoreInitial(delays: nat -> nat, first: nat, population: nat, scheduled: seq<nat>)
    requires FollowsDelays(delays, first, population, [], scheduled) && |scheduled| < population
    ensures FollowsDelays(delays, first, population, [], scheduled + [delays(first + |scheduled|)])
    ensures multiset(scheduled + [delays(first + |scheduled|)])
      == multiset(scheduled) + multiset{delays(first + |scheduled|)}
  {
  }

  lemma InitiallyBalanced(scheduled: seq<nat>)
    ensures Balanced(multiset(scheduled), [], scheduled) && |multiset(scheduled)| == |scheduled|
  {
  }

  /** A dispatch at time t, without and with a new event for time u. */
  lemma DispatchBalances(queue: multiset<nat>, rest: multiset<nat>, t: nat, u: nat, times: seq<nat>, scheduled: seq<nat>)
    requires Balanced(queue, times, scheduled) && queue == rest + multiset{t}
    ensures Balanced(rest, times + [t], scheduled)
    ensures Balanced(rest + multiset{u}, times + [t], scheduled + [u])
  {
  }

  class Bench {
    var population: nat
    var total: nat
    var count: nat
    /** The times of the scheduled events. */
    var queue: multiset<nat>
    var now: nat
    var stopped: bool
    /** How many random delays have been drawn. */
    var drawn: nat
    /** The size of the event queue at each dispatch, the dispatched event included. */
    ghost var sizes: seq<nat>
    /** The times of the dispatched events. */
    ghost var times: seq<nat>
    /** The times for which events were scheduled, in the order of the calls. */
    ghost var scheduled: seq<nat>

    constructor (population: nat, total: nat)
      ensures this.population == population && this.total == total && count == 0
    {
      this.population, this.total := population, total;
      count, queue, now, stopped, drawn := 0, multiset{}, 0, false, 0;
      sizes, times, scheduled := [], [], [];
    }

    method Schedule(delays: nat -> nat)
      modifies this`queue, this`drawn, this`scheduled
      ensures queue == old(queue) + multiset{now + delays(old(drawn))} && drawn == old(drawn) + 1
      ensures scheduled == old(scheduled) + [now + delays(old(drawn))]
    {
      scheduled := scheduled + [now + delays(drawn)];
      queue := queue + multiset{now + delays(drawn)};
      drawn := drawn + 1;
    }

    method Cb(delays: nat -> nat)
      modifies this`count, this`queue, this`drawn, this`stopped, this`scheduled
      ensures stopped == (old(stopped) || old(count) >= total)
      ensures old(count) >= total ==>
        count == old(count) && queue == old(queue) && drawn == old(drawn) && scheduled == old(scheduled)
      ensures old(count) < total ==>
        && count == old(count) + 1 && queue == old(queue) + multiset{now + delays(old(drawn))}
        && drawn == old(drawn) + 1 && scheduled == old(scheduled) + [now + delays(old(drawn))]
    {
      if count >= total {
        stopped := true;
        return;
      }
      Schedule(delays);
      count := count + 1;
    }

    ghost predicate NothingBefore(t: nat)
      reads this
    {
      forall u :: u in queue ==> t <= u
    }

    /** Any scheduler hands out an earliest event; which one among equals is open. */
    method Earliest() returns (t: nat)
      requires queue != multiset{}
      ensures t in queue && NothingBefore(t)
    {
      var rest := queue;
      t :| t in rest;
      ghost var seen := multiset{};
      while rest != multiset{}
        invariant queue == rest + seen && t in queue
        invariant forall u :: u in seen ==> t <= u
        decreases |rest|
      {
        var u :| u in rest;
        rest := rest - multiset{u};
        seen := seen + multiset{u};
        if u < t {
          t := u;
        }
      }
    }

    /** What holds between two dispatches. */
    ghost predicate Steady()
      reads this
    {
      && |sizes| == |times|
      && (population == 0 ==> sizes == [])
      && (!stopped ==> |queue| == population && count == |sizes| <= total)
      && (stopped ==> population > 0 && count == total && |sizes| == total + 1)
      && forall k :: 0 <= k < |sizes| ==> sizes[k] == population
    }

    ghost predicate Chronological()
      reads this
    {
      && NothingBefore(now)
      && (forall k :: 0 <= k < |times| ==> times[k] <= now)
      && (forall j, k :: 0 <= j < k < |times| ==> times[j] <= times[k])
    }

    /** Take an earliest event off the queue and advance the clock to it. */
    method Pop()
      requires queue != multiset{} && Chronological()
      modifies this`queue, this`now, this`sizes, this`times
      ensures |queue| == |old(queue)| - 1 && Chronological()
      ensures sizes == old(sizes) + [|old(queue)|]
      ensures times == old(times) + [now] && old(queue) == queue + multiset{now}
    {
      var t := Earliest();
      assert t >= now;
      sizes, times := sizes + [|queue|], times + [t];
      queue := queue - multiset{t};
      now := t;
    }

    /** One round of Simulator::Run. */
    method Dispatch(delays: nat -> nat)
      requires Steady() && Chronological() && queue != multiset{} && !stopped
      modifies this
      ensures Steady() && Chronological() && population == old(population) && total == old(total)
      ensures times == old(times) + [now] && now in old(queue)
      ensures old(count) < total ==>
        && count == old(count) + 1 && drawn == old(drawn) + 1
        && queue == old(queue) - multiset{now} + multiset{now + delays(old(drawn))}
        && scheduled == old(scheduled) + [now + delays(old(drawn))]
      ensures old(count) >= total ==>
        && stopped && count == old(count) && drawn == old(drawn)
        && queue == old(queue) - multiset{now} && scheduled == old(scheduled)
    {
      Pop();
      Cb(delays);
    }

    ghost predicate Accounted(delays: nat -> nat, first: nat)
      reads this
    {
      && FollowsDelays(delays, first, population, times, scheduled) && Balanced(queue, times, scheduled)
      && |scheduled| == population + count && drawn == first + |scheduled|
    }

    /** The same, with the account of the delays. */
    method DispatchAccounted(delays: nat -> nat, ghost first: nat)
      requires Steady() && Chronological() && Accounted(delays, first) && queue != multiset{} && !stopped
      modifies this
      ensures Steady() && Chronological() && Accounted(delays, first)
      ensures population == old(population) && total == old(total)
      ensures stopped || count == old(count) + 1
    {
      Dispatch(delays);
      ghost var rest, u := old(queue) - multiset{now}, now + delays(old(drawn));
      OneMoreDispatch(delays, first, population, old(times), old(scheduled), now);
      DispatchBalances(old(queue), rest, now, u, old(times), old(scheduled));
    }

    /** The loop that schedules the initial events. */
    method FillQueue(delays: nat -> nat)
      requires queue == multiset{} && now == 0 && scheduled == []
      modifies this`queue, this`drawn, this`scheduled
      ensures |scheduled| == population && drawn == old(drawn) + population && queue == multiset(scheduled)
      ensures FollowsDelays(delays, old(drawn), population, [], scheduled)
    {
      for i := 0 to population
        invariant |scheduled| == i && drawn == old(drawn) + i && queue == multiset(scheduled)
        invariant FollowsDelays(delays, old(drawn), population, [], scheduled)
      {
        OneMoreInitial(delays, old(drawn), population, scheduled);
        Schedule(delays);
      }
    }

    /** The state in which Simulator::Run starts. */
    method Populate(delays: nat -> nat)
      modifies this
      ensures Steady() && Chronological() && Accounted(delays, old(drawn)) && !stopped && count == 0
      ensures population == old(population) && total == old(total)
    {
      count, queue, now, stopped := 0, multiset{}, 0, false;
      sizes, times, scheduled := [], [], [];
      FillQueue(delays);
      InitiallyBalanced(scheduled);
    }

    /** The benchmark run.  For any delays: the queue holds the configured
        population at every dispatch, time never goes back, and a run with
        events executes exactly total of them in total + 1 callbacks. */
    method Run(delays: nat -> nat)
      modifies this
      ensures population == old(population) && total == old(total)
      ensures count == if population == 0 then 0 else total
      ensures |sizes| == |times| == if population == 0 then 0 else total + 1
      ensures forall k :: 0 <= k < |sizes| ==> sizes[k] == population
      ensures forall j, k :: 0 <= j < k < |times| ==> times[j] <= times[k]
      ensures stopped <==> population > 0
      ensures |scheduled| == population + count && multiset(scheduled) == queue + multiset(times)
      ensures FollowsDelays(delays, old(drawn), population, times, scheduled)
      ensures forall k, u :: 0 <= k < |times| && u in queue ==> times[k] <= u
    {
      ghost var first := drawn;
      Populate(delays);
      while queue != multiset{} && !stopped
        invariant Steady() && Chronological() && Accounted(delays, first)
        invariant population == old(population) && total == old(total)
        decreases !stopped, total - count
      {
        DispatchAccounted(delays, first);
      }
    }
  }
}
