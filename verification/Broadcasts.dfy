/** A broadcast on the machine, from the read of its packet to its cleanup, told by the events of the run. */
module Broadcasts {
  import opened Values
  import opened Buckets
  import opened ReplicaMachine

  /** The last packet read, the sockets there were for it, and those sent it and failed since. */
  datatype Round = Round(packet: Packet, snapshot: set<SocketId>, sent: set<SocketId>, failed: set<SocketId>)

  function LastRound(events: seq<Event>): Option<Round> {
    if events == [] then None
    else
      var earlier, e := events[..|events| - 1], events[|events| - 1];
      var round := LastRound(earlier);
      match e
      case ReadPacket =>
        var before := After(earlier);
        if before.None? || before.value.inbox == [] then None
        else
          var packet := before.value.inbox[0];
          Some(Round(packet, Members(before.value.sockets, packet.message.conversation), {}, {}))
      case SendOk(socket) =>
        if round.None? then None else Some(round.value.(sent := round.value.sent + {socket}))
      case SendRaises(socket) =>
        if round.None? then None else Some(round.value.(failed := round.value.failed + {socket}))
      case _ => round
  }

  /** The reader is where the events say it is: every socket of the snapshot is still to be tried, or has
      been tried once. */
  ghost predicate Underway(p: Replica, round: Option<Round>) {
    p.reader.Broadcasting? ==>
      && round.Some?
      && var r := round.value;
      && p.reader.packet == r.packet
      && r.snapshot == p.reader.todo + r.sent + r.failed
      && p.reader.todo !! r.sent && p.reader.todo !! r.failed && r.sent !! r.failed
      && p.reader.dead == r.failed
  }

  lemma StepKeepsUnderway(events: seq<Event>, e: Event)
    requires After(events).Some? && Enabled(After(events).value, e) && Underway(After(events).value, LastRound(events))
    ensures Underway(Step(After(events).value, e), LastRound(events + [e]))
  {
    assert (events + [e])[..|events|] == events;
  }

  lemma {:induction false} RoundsAreUnderway(events: seq<Event>)
    requires After(events).Some?
    ensures Underway(After(events).value, LastRound(events))
  {
    if events != [] {
      var earlier, e := events[..|events| - 1], events[|events| - 1];
      RoundsAreUnderway(earlier);
      assert events == earlier + [e];
      StepKeepsUnderway(earlier, e);
    }
  }

  /** Over every run: when a broadcast is done, each socket that was in the packet's conversation at its
      read has been tried exactly once, and exactly those whose send failed since are dropped, from that
      conversation and from no other. */
  lemma BroadcastDropsFailed(events: seq<Event>)
    requires After(events).Some? && Enabled(After(events).value, BroadcastDone)
    ensures LastRound(events).Some?
    ensures var p, q, r := After(events).value, Step(After(events).value, BroadcastDone), LastRound(events).value;
            && q.reader.Idle?
            && r.snapshot == r.sent + r.failed && r.sent !! r.failed
            && forall x :: Members(q.sockets, x) == Members(p.sockets, x) - if x == r.packet.message.conversation then r.failed else {}
  {
    RoundsAreUnderway(events);
    var p, r := After(events).value, LastRound(events).value;
    MembersAfter(p.sockets, r.packet.message.conversation, 0, r.failed);
  }

  /** A read is only ever begun after some subscribe has succeeded: the reader leaves a connection that
      was never opened alone. */
  lemma {:induction false} ReadsFollowASubscribe(events: seq<Event>)
    requires After(events).Some?
    ensures After(events).value.channels != {} ==> SubscribeReturns in events
    ensures Poll in events ==> SubscribeReturns in events
  {
    if events != [] {
      var earlier, e := events[..|events| - 1], events[|events| - 1];
      assert events == earlier + [e];
      ReadsFollowASubscribe(earlier);
    }
  }

  /** A first join and a last leave that Redis accepts leave no trace. */
  lemma JoinThenLeave(conversation: ConversationId, socket: SocketId) returns (events: seq<Event>)
    ensures events == [JoinBegins(conversation, socket), SubscribeBegins, SubscribeTakesEffect, SubscribeReturns]
                      + [LeaveBegins(conversation, socket), UnsubscribeBegins, UnsubscribeTakesEffect, UnsubscribeReturns]
    ensures After(events) == Some(INITIAL)
  {
    events := FirstJoin(conversation, socket);
    var p := After(events).value;
    events := Extend(events, LeaveBegins(conversation, socket));
    assert {socket} - {socket} == {} && map[conversation := {socket}] - {conversation} == map[];
    assert {conversation} - {conversation} == {};
    assert After(events) == Some(p.(sockets := map[], registry := Leaving(conversation)));
    events := Extend(events, UnsubscribeBegins);
    events := Extend(events, UnsubscribeTakesEffect);
    events := Extend(events, UnsubscribeReturns);
  }

  /** A read that finds nothing leaves the reader where it was. */
  lemma EmptyReadChangesNothing(p: Replica)
    requires Enabled(p, Poll) && p.pubsub.Unheld?
    ensures Enabled(Step(p, Poll), ReadNothing) && Step(Step(p, Poll), ReadNothing) == p
  {
  }

  /** A broadcast can always be finished, and without a failed send it drops nobody. */
  lemma {:induction false} FinishBroadcast(events: seq<Event>) returns (more: seq<Event>)
    requires After(events).Some? && After(events).value.reader.Broadcasting? && After(events).value.reader.dead == {}
    ensures After(more) == Some(After(events).value.(reader := Idle))
    decreases |After(events).value.reader.todo|
  {
    var p := After(events).value;
    if p.reader.todo == {} {
      more := Extend(events, BroadcastDone);
      ReplicaSafety(events);
      UnregisterNone(p.sockets, p.reader.packet.message.conversation);
    } else {
      var socket :| socket in p.reader.todo;
      more := Extend(events, SendOk(socket));
      more := FinishBroadcast(more);
    }
  }

  /** A live reader can always drain its queue, however long, and drops nobody who can be sent to. */
  lemma {:induction false} QueueCanBeDrained(events: seq<Event>) returns (more: seq<Event>)
    requires After(events).Some?
    requires var p := After(events).value; p.reader.Idle? && p.pubsub.Unheld? && p.channels != {}
    ensures After(more) == Some(After(events).value.(inbox := []))
    decreases |After(events).value.inbox|
  {
    var p := After(events).value;
    if p.inbox == [] {
      more := events;
    } else {
      more := Extend(events, Poll);
      more := Extend(more, ReadPacket);
      if After(more).value.reader.Broadcasting? {
        more := FinishBroadcast(more);
      }
      assert After(more) == Some(p.(inbox := p.inbox[1..]));
      more := QueueCanBeDrained(more);
    }
  }
}
