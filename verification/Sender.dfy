/** The Sender application of wifi-example-apps.cc: start, stop and timer
    events in any order, against the simulator's list of pending events. */
module Sender {

  /** An EventId: the simulator numbers the events it schedules. */
  type EventId = nat

  class Application {
    const nPackets: nat
    var count: nat
    var sendEvent: EventId
    /** The SendPacket events that are scheduled and neither run nor cancelled. */
    var pending: set<EventId>
    var nextId: EventId
    /** Whether StartApplication ran after the last StopApplication. */
    ghost var started: bool
    /** Packets handed to the socket. */
    ghost var sent: nat

    /** At most one send is pending, and it is the one the application knows. */
    ghost predicate Valid()
      reads this
    {
      && nPackets >= 1
      && pending <= {sendEvent} && sendEvent < nextId
      && count <= nPackets
      && (pending != {} <==> started && count < nPackets)
    }

    /** The attribute checker admits no packet count below one. */
    constructor (nPackets: nat)
      requires nPackets >= 1
      ensures Valid() && this.nPackets == nPackets && pending == {} && sent == 0 && !started
    {
      this.nPackets := nPackets;
      count, sendEvent, pending, nextId := 0, 0, {}, 1;
      started, sent := false, 0;
    }

    method Schedule() returns (id: EventId)
      modifies this`pending, this`nextId
      ensures id == old(nextId) && nextId == id + 1 && pending == old(pending) + {id}
    {
      id := nextId;
      pending, nextId := pending + {id}, nextId + 1;
    }

    /** Cancelling an event that has run or was cancelled has no effect. */
    method Cancel(id: EventId)
      modifies this`pending
      ensures pending == old(pending) - {id}
    {
      pending := pending - {id};
    }

    method StartApplication()
      requires Valid()
      modifies this
      ensures Valid() && started && count == 0 && |pending| == 1 && sent == old(sent)
    {
      OnlyTheNewOne(pending, sendEvent, nextId);
      count := 0;
      Cancel(sendEvent);
      sendEvent := Schedule();
      started := true;
    }

    method StopApplication()
      requires Valid()
      modifies this
      ensures Valid() && !started && pending == {} && sent == old(sent) && count == old(count)
    {
      Cancel(sendEvent);
      started := false;
    }

    method SendPacket()
      requires pending == {} && started && count < nPackets && sendEvent < nextId
      modifies this
      ensures Valid() && started && count == old(count) + 1 && sent == old(sent) + 1
      ensures pending != {} <==> count < nPackets
    {
      sent := sent + 1;
      count := count + 1;
      if count < nPackets {
        sendEvent := Schedule();
      }
    }

    /** The simulator runs some pending event, if there is one. */
    method Timer() returns (ran: bool)
      requires Valid()
      modifies this
      ensures Valid() && started == old(started)
      ensures ran <==> old(started) && old(count) < nPackets
      ensures ran ==> sent == old(sent) + 1 && count == old(count) + 1
      ensures !ran ==> sent == old(sent) && count == old(count) && pending == old(pending) == {}
    {
      if pending == {} { return false; }
      var e :| e in pending;
      pending := pending - {e};
      SendPacket();
      return true;
    }

    /** Start and let the timer run undisturbed: exactly nPackets are sent. */
    method StartAndFinish()
      requires Valid()
      modifies this
      ensures Valid() && sent == old(sent) + nPackets && pending == {}
    {
      StartApplication();
      var ran := true;
      while ran
        invariant Valid() && started && sent == old(sent) + count
        invariant !ran ==> pending == {}
        decreases ran, nPackets - count
      {
        ran := Timer();
      }
    }

    /** One event; sends says whether it handed a packet to the socket. */
    method Handle(e: Event) returns (sends: bool)
      requires Valid()
      modifies this
      ensures Valid()
      ensures sends <==> e.Tick? && old(started) && old(count) < nPackets
      ensures started <==> e.Start? || (old(started) && !e.Stop?)
      ensures count == if e.Start? then 0 else old(count) + if sends then 1 else 0
      ensures sent == old(sent) + if sends then 1 else 0
    {
      sends := false;
      match e
      case Start => StartApplication();
      case Stop => StopApplication();
      case Tick => sends := Timer();
    }

    /** Any interleaving of starts, stops and timer events.  sends says which of
        them handed a packet to the socket: a timer event does exactly while the
        application is started and fewer than nPackets were sent since. */
    method Drive(events: seq<Event>) returns (ghost sends: seq<bool>)
      requires Valid()
      modifies this
      ensures Valid() && |pending| <= 1
      ensures IsTrace(events, sends, old(started), old(count), nPackets)
      ensures started <==> Active(events, old(started))
      ensures count == SentSince(events, sends, old(count)) <= nPackets
      ensures sent == old(sent) + Sends(sends)
    {
      sends := [];
      for i := 0 to |events|
        invariant Valid() && IsTrace(events[..i], sends, old(started), old(count), nPackets)
        invariant started <==> Active(events[..i], old(started))
        invariant count == SentSince(events[..i], sends, old(count))
        invariant sent == old(sent) + Sends(sends)
      {
        var ran := Handle(events[i]);
        assert events[..i + 1] == events[..i] + [events[i]];
        OneMoreEvent(events[..i], events[i], sends, ran, old(started), old(count), nPackets);
        sends := sends + [ran];
      }
      assert events[..|events|] == events;
      AtMostOne(pending, sendEvent);
    }

    lemma OnlyTheNewOne(s: set<EventId>, known: EventId, id: EventId)
      requires s <= {known}
      ensures s - {known} + {id} == {id}
    {
    }

    lemma AtMostOne(s: set<EventId>, x: EventId)
      requires s <= {x}
      ensures |s| <= 1
    {
      assert s == {} || s == {x};
    }
  }

  datatype Event = Start | Stop | Tick

  /** The events leave the application started: some start has no stop after it,
      or it was started before and there is no stop at all. */
  ghost predicate Active(events: seq<Event>, before: bool) {
    || (exists j :: 0 <= j < |events| && events[j].Start? && NoStopAfter(events, j))
    || (before && forall k :: 0 <= k < |events| ==> !events[k].Stop?)
  }

  ghost predicate NoStopAfter(events: seq<Event>, j: nat) {
    forall k :: j < k < |events| ==> !events[k].Stop?
  }

  /** The number of packets that were sent. */
  ghost function Sends(sends: seq<bool>): (n: nat)
    ensures n <= |sends|
  {
    if sends == [] then 0 else Sends(sends[..|sends| - 1]) + if sends[|sends| - 1] then 1 else 0
  }

  /** The packets sent after the last start; without a start they add to those before. */
  ghost function SentSince(events: seq<Event>, sends: seq<bool>, before: nat): nat
    requires |events| == |sends|
  {
    if events == [] then before
    else
      var n := |events| - 1;
      if events[n].Start? then 0 else SentSince(events[..n], sends[..n], before) + if sends[n] then 1 else 0
  }

  lemma ActiveAfter(events: seq<Event>, e: Event, before: bool)
    ensures Active(events + [e], before) <==> e.Start? || (Active(events, before) && !e.Stop?)
  {
    var more := events + [e];
    var n := |events|;
    assert more[n] == e && forall k :: 0 <= k < n ==> more[k] == events[k];
    if e.Start? {
      assert NoStopAfter(more, n);
    }
    if j :| 0 <= j < n && events[j].Start? && NoStopAfter(events, j) {
      assert !e.Stop? ==> more[j].Start? && NoStopAfter(more, j);
    }
    if j :| 0 <= j < |more| && more[j].Start? && NoStopAfter(more, j) {
      if j < n {
        assert !more[n].Stop?;
        assert events[j].Start? && NoStopAfter(events, j);
      }
    }
    if forall k :: 0 <= k < |more| ==> !more[k].Stop? {
      assert !more[n].Stop?;
    }
  }

  /** An event sends a packet exactly when it is a timer event, the events before
      it leave the application started, and fewer than limit packets were sent since. */
  ghost predicate SendsAt(events: seq<Event>, sends: seq<bool>, started: bool, count: nat, limit: nat, k: nat)
    requires |events| == |sends| && k < |events|
  {
    sends[k] <==>
      events[k].Tick? && Active(events[..k], started) && SentSince(events[..k], sends[..k], count) < limit
  }

  ghost predicate IsTrace(events: seq<Event>, sends: seq<bool>, started: bool, count: nat, limit: nat) {
    |events| == |sends| && forall k :: 0 <= k < |events| ==> SendsAt(events, sends, started, count, limit, k)
  }

  lemma {:induction false} OneMoreEvent(
      events: seq<Event>, e: Event, sends: seq<bool>, ran: bool, started: bool, count: nat, limit: nat)
    requires IsTrace(events, sends, started, count, limit)
    requires ran <==> e.Tick? && Active(events, started) && SentSince(events, sends, count) < limit
    ensures IsTrace(events + [e], sends + [ran], started, count, limit)
    ensures Active(events + [e], started) <==> e.Start? || (Active(events, started) && !e.Stop?)
    ensures SentSince(events + [e], sends + [ran], count)
      == if e.Start? then 0 else SentSince(events, sends, count) + if ran then 1 else 0
    ensures Sends(sends + [ran]) == Sends(sends) + if ran then 1 else 0
  {
    var n, longer, more := |events|, events + [e], sends + [ran];
    assert longer[..n] == events && more[..n] == sends;
    ActiveAfter(events, e, started);
    forall k | 0 <= k < |longer| ensures SendsAt(longer, more, started, count, limit, k) {
      if k < n {
        assert SendsAt(events, sends, started, count, limit, k);
        assert longer[..k] == events[..k] && more[..k] == sends[..k];
      }
    }
  }

  /** The recursive count is the number of sends behind the last start. */
  lemma {:induction false} SentSinceLastStart(events: seq<Event>, sends: seq<bool>, before: nat, j: nat)
    requires |events| == |sends| && j < |events| && events[j].Start?
    requires forall k :: j < k < |events| ==> !events[k].Start?
    ensures SentSince(events, sends, before) == Sends(sends[j + 1..])
  {
    var n := |events| - 1;
    if j < n {
      SentSinceLastStart(events[..n], sends[..n], before, j);
      assert sends[j + 1..][..n - j - 1] == sends[..n][j + 1..];
    } else {
      assert sends[j + 1..] == [];
    }
  }
}
