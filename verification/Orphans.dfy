/** "Subscribed if and only if some local socket": which steps break it, for the bookkeeping and for the
    subscriptions Redis really holds. */
module Orphans {
  import opened Values
  import opened Buckets
  import opened ReplicaMachine

  // The subscriptions Redis holds.

  /** The conversation whose join or leave is in progress. */
  function InTransition(p: Replica): set<ConversationId> {
    if p.registry.Free? then {} else {p.registry.conversation}
  }

  /** Outside the transition in progress, subscribed is the same as having a local socket. */
  ghost predicate SubscriptionsExact(p: Replica) {
    Agree(p.subscriptions, p.sockets, InTransition(p))
  }

  ghost predicate Agree(claimed: set<ConversationId>, sockets: Buckets<SocketId>, except: set<ConversationId>) {
    forall conversation :: conversation !in except ==> (conversation in claimed <==> conversation in sockets)
  }

  /** Connected, with a reader, and not in the middle of a reconnect. */
  ghost predicate Steady(p: Replica) {
    p.linked && !p.reader.Crashed? && !p.pubsub.Resubscribing?
  }

  /** A first joiner is alone in its conversation while it waits for its subscribe. */
  ghost predicate JoinerAlone(p: Replica) {
    p.registry.Joining? ==> Members(p.sockets, p.registry.conversation) <= {p.registry.socket}
  }

  /** Every step that parts the two: a subscribe that raises after Redis applied it; one that returns when
      the joiner is gone again; an unsubscribe that raises before Redis applied it; a broadcast that drops
      a last socket; a drain of live sockets; and a reconnect that subscribes again to what the
      bookkeeping still claims for nobody. */
  ghost predicate Orphans(p: Replica, e: Event)
    requires Enabled(p, e)
  {
    match e
    case SubscribeRaises => p.linked && p.registry.conversation in p.subscriptions && !p.reader.Crashed?
    case SubscribeReturns => p.registry.conversation !in p.sockets && !p.reader.Crashed?
    case UnsubscribeRaises => p.linked && p.registry.conversation in p.subscriptions && !p.reader.Crashed?
    case BroadcastDone =>
      var conversation := p.reader.packet.message.conversation;
      && Steady(p) && conversation in p.sockets && conversation !in InTransition(p)
      && p.sockets[conversation] <= p.reader.dead
    case Drain => Steady(p) && exists conversation :: conversation in p.sockets && conversation !in InTransition(p)
    case ReconnectDone => p.linked && !Agree(p.channels, p.sockets, InTransition(p))
    case _ => false
  }

  lemma KeysAfter(b: Buckets<SocketId>, conversation: ConversationId, socket: SocketId, dead: set<SocketId>)
    ensures forall x :: x in Registered(b, conversation, socket) <==> x in b || x == conversation
    ensures forall x :: x in Unregistered(b, conversation, socket) <==>
              x in b && (x == conversation ==> !(b[x] <= {socket}))
    ensures forall x :: x in UnregisteredAll(b, conversation, dead) <==>
              x in b && (x == conversation ==> !(b[x] <= dead))
  {
    if conversation in b {
      NothingLeft(b[conversation], {socket});
      NothingLeft(b[conversation], dead);
    }
  }

  lemma NothingLeft<T>(a: set<T>, b: set<T>)
    ensures a <= b <==> a - b == {}
  {
    if a - b == {} {
      forall x | x in a ensures x in b {
        assert x !in a - b;
      }
    }
  }

  lemma StepKeepsJoinerAlone(p: Replica, e: Event)
    requires JoinerAlone(p) && Enabled(p, e)
    ensures JoinerAlone(Step(p, e))
  {
  }

  /** A step parts the subscriptions from the local sockets if and only if it is one of those. */
  lemma StepKeepsExact(p: Replica, e: Event)
    requires Inv(p) && JoinerAlone(p) && Enabled(p, e)
    requires Steady(p) ==> SubscriptionsExact(p)
    ensures (Steady(Step(p, e)) ==> SubscriptionsExact(Step(p, e))) <==> !Orphans(p, e)
  {
    match e
    case JoinBegins(conversation, socket) => KeysAfter(p.sockets, conversation, socket, {});
    case LeaveBegins(conversation, socket) => KeysAfter(p.sockets, conversation, socket, {});
    case SubscribeRaises => KeysAfter(p.sockets, p.registry.conversation, p.registry.socket, {});
    case BroadcastDone => KeysAfter(p.sockets, p.reader.packet.message.conversation, 0, p.reader.dead);
    case _ =>
  }

  /** At every steady moment of the run, subscribed is the same as having a local socket. */
  ghost predicate AlwaysExact(events: seq<Event>)
    requires After(events).Some?
  {
    && (events == [] || AlwaysExact(events[..|events| - 1]))
    && (Steady(After(events).value) ==> SubscriptionsExact(After(events).value))
  }

  /** No step of the run orphans a subscription. */
  ghost predicate NeverOrphans(events: seq<Event>)
    requires After(events).Some?
  {
    events == [] ||
    var earlier := events[..|events| - 1];
    NeverOrphans(earlier) && !Orphans(After(earlier).value, events[|events| - 1])
  }

  lemma {:induction false} JoinersAreAlone(events: seq<Event>)
    requires After(events).Some?
    ensures JoinerAlone(After(events).value)
  {
    if events != [] {
      JoinersAreAlone(events[..|events| - 1]);
      StepKeepsJoinerAlone(After(events[..|events| - 1]).value, events[|events| - 1]);
    }
  }

  /** "Subscribed if and only if some local socket": a run has it at every steady moment if and only if
      none of its steps is one that orphans a subscription. */
  lemma {:induction false} SubscribedIffRegistered(events: seq<Event>)
    requires After(events).Some?
    ensures AlwaysExact(events) <==> NeverOrphans(events)
  {
    if events != [] {
      var earlier := events[..|events| - 1];
      SubscribedIffRegistered(earlier);
      ReplicaSafety(earlier);
      JoinersAreAlone(earlier);
      if AlwaysExact(earlier) {
        StepKeepsExact(After(earlier).value, events[|events| - 1]);
      }
    }
  }

  /** Connected, at rest, without a socket, and still subscribed. */
  ghost predicate SubscribedButEmpty(p: Replica, conversation: ConversationId) {
    && Steady(p) && p.registry.Free? && p.pubsub.Unheld?
    && p.sockets == map[] && conversation in p.subscriptions
  }

  /** A drain of a joined socket does it, and here the bookkeeping is left behind too. */
  lemma DrainLeavesSubscribed(conversation: ConversationId, socket: SocketId) returns (events: seq<Event>)
    ensures After(events).Some? && SubscribedButEmpty(After(events).value, conversation)
    ensures conversation in After(events).value.channels
  {
    events := FirstJoin(conversation, socket);
    events := Extend(events, Drain);
  }

  /** So does a last leave whose unsubscribe Redis refuses; the bookkeeping is exact, and does not show it. */
  lemma RefusedUnsubscribeLeavesSubscribed(conversation: ConversationId, socket: SocketId) returns (events: seq<Event>)
    ensures After(events).Some? && SubscribedButEmpty(After(events).value, conversation)
    ensures BookkeepingExact(After(events).value)
  {
    events := FirstJoin(conversation, socket);
    events := Extend(events, LeaveBegins(conversation, socket));
    assert {socket} - {socket} == {} && map[conversation := {socket}] - {conversation} == map[];
    events := Extend(events, UnsubscribeBegins);
    events := Extend(events, UnsubscribeRaises);
  }

  lemma ReadOne(message: Message, socket: SocketId) returns (events: seq<Event>)
    ensures events == [JoinBegins(message.conversation, socket), SubscribeBegins, SubscribeTakesEffect, SubscribeReturns]
                      + [Arrives(Packet(0, message)), Poll, ReadPacket]
    ensures var conversation := message.conversation;
            After(events) == Some(Replica(map[conversation := {socket}], Free, {conversation}, true, {conversation}, [], Unheld,
                                          Broadcasting(Packet(0, message), {socket}, {})))
  {
    var packet := Packet(0, message);
    events := FirstJoin(message.conversation, socket);
    assert [] + [packet] == [packet] && [packet][1..] == [];
    events := Extend(events, Arrives(packet));
    events := Extend(events, Poll);
    events := Extend(events, ReadPacket);
  }

  /** And a broadcast that finds the last socket dead. */
  lemma DeadSocketLeavesSubscribed(message: Message, socket: SocketId) returns (events: seq<Event>)
    ensures events == [JoinBegins(message.conversation, socket), SubscribeBegins, SubscribeTakesEffect, SubscribeReturns]
                      + [Arrives(Packet(0, message)), Poll, ReadPacket, SendRaises(socket), BroadcastDone]
    ensures After(events).Some? && SubscribedButEmpty(After(events).value, message.conversation)
  {
    var conversation := message.conversation;
    events := ReadOne(message, socket);
    events := Extend(events, SendRaises(socket));
    assert {socket} - {socket} == {} && {} + {socket} == {socket};
    events := Extend(events, BroadcastDone);
    assert map[conversation := {socket}] - {conversation} == map[];
  }

  /** And a first join whose subscribe raises although Redis applied it: the joiner is rolled back, the
      subscription is not. */
  lemma RefusedSubscribeLeavesSubscribed(conversation: ConversationId, socket: SocketId) returns (events: seq<Event>)
    ensures After(events).Some? && SubscribedButEmpty(After(events).value, conversation)
    ensures BookkeepingExact(After(events).value)
  {
    events := Extend([], JoinBegins(conversation, socket));
    events := Extend(events, SubscribeBegins);
    events := Extend(events, SubscribeTakesEffect);
    RegisterThenUnregister(INITIAL.sockets, conversation, socket);
    events := Extend(events, SubscribeRaises);
  }

  // The bookkeeping.

  /** Bookkeeping that matches the live sockets exactly, up to the transition in progress. */
  ghost predicate BookkeepingExact(p: Replica) {
    match p.registry
    case Free => p.sockets.Keys == p.channels
    case Joining(conversation, _) => p.sockets.Keys == p.channels + {conversation} && conversation !in p.channels
    case Leaving(conversation) => p.sockets.Keys == p.channels - {conversation}
  }

  /** The two steps that take a last socket away without unsubscribing. */
  ghost predicate LeavesBookkeepingOrphan(p: Replica, e: Event)
    requires Enabled(p, e)
  {
    match e
    case BroadcastDone =>
      var bucket := Members(p.sockets, p.reader.packet.message.conversation);
      bucket != {} && bucket <= p.reader.dead
    case Drain => p.sockets != map[]
    case _ => false
  }

  /** The bookkeeping set holds exactly the conversations with a local socket until a step that is a
      broadcast dropping a conversation's last socket, or a drain of live sockets. */
  lemma BookkeepingIffRegistered(p: Replica, e: Event)
    requires Inv(p) && BookkeepingExact(p) && Enabled(p, e)
    ensures BookkeepingExact(Step(p, e)) <==> !LeavesBookkeepingOrphan(p, e)
  {
    match e
    case JoinBegins(conversation, socket) =>
      assert Step(p, e).sockets.Keys == p.sockets.Keys + {conversation};
    case SubscribeRaises =>
      var b := p.registry.conversation;
      assert p.sockets[b] - {p.registry.socket} == {};
      assert Step(p, e).sockets.Keys == p.sockets.Keys - {b};
    case LeaveBegins(conversation, socket) =>
      var rest := Step(p, e).sockets;
      assert rest.Keys == p.sockets.Keys || rest.Keys == p.sockets.Keys - {conversation};
    case BroadcastDone =>
      var b := p.reader.packet.message.conversation;
      var rest := Step(p, e).sockets;
      if LeavesBookkeepingOrphan(p, e) {
        assert p.sockets[b] - p.reader.dead == {};
        assert rest.Keys == p.sockets.Keys - {b} && b in p.sockets.Keys;
      } else if b in p.sockets {
        assert !(p.sockets[b] <= p.reader.dead);
        var x :| x in p.sockets[b] && x !in p.reader.dead;
        assert x in p.sockets[b] - p.reader.dead;
        assert rest.Keys == p.sockets.Keys;
      }
    case Drain =>
      if p.sockets != map[] {
        assert exists b :: b in p.sockets.Keys;
      }
    case _ =>
  }
}
