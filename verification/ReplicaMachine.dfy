/** One replica's registry, subscriber and reader as a state machine. Every point at which the code
    awaits is a point at which any other enabled event may happen, failures included. */
module ReplicaMachine {
  import opened Values
  import opened Buckets

  type SocketId = nat

  /** A published message with its position in the order in which Redis accepted the publishes. */
  datatype Packet = Packet(at: nat, message: Message)

  /** Who holds the registry lock: a first join awaiting its subscribe, or a last leave its unsubscribe. */
  datatype RegistryLock =
    | Free
    | Joining(conversation: ConversationId, socket: SocketId)
    | Leaving(conversation: ConversationId)

  /** Who holds the lock around the pub/sub connection, other than for a single read. */
  datatype PubSubLock = Unheld | Subscribing | Unsubscribing | Resubscribing(todo: set<ConversationId>)

  /** The reader task: before its channel check, in a read, asleep before a reconnect, sending one
      message to a snapshot of sockets, or ended by an exception. */
  datatype Reader =
    | Idle
    | Polling
    | Backoff
    | Broadcasting(packet: Packet, todo: set<SocketId>, dead: set<SocketId>)
    | Crashed

  datatype Replica = Replica(
    sockets: Buckets<SocketId>,
    registry: RegistryLock,
    channels: set<ConversationId>,
    linked: bool,
    subscriptions: set<ConversationId>,
    inbox: seq<Packet>,
    pubsub: PubSubLock,
    reader: Reader)

  const INITIAL: Replica := Replica(map[], Free, {}, true, {}, [], Unheld, Idle)

  datatype Event =
    | JoinBegins(conversation: ConversationId, socket: SocketId)
    | SubscribeBegins
    | SubscribeTakesEffect
    | SubscribeReturns
    | SubscribeRaises
    | LeaveBegins(conversation: ConversationId, socket: SocketId)
    | UnsubscribeBegins
    | UnsubscribeTakesEffect
    | UnsubscribeReturns
    | UnsubscribeRaises
    | Arrives(packet: Packet)
    | LinkDrops(kept: nat)
    | Poll
    | ReadNothing
    | ReadFails
    | ReadPacket
    | ReconnectBegins
    | Resubscribe(conversation: ConversationId)
    | ReconnectDone
    | ReconnectRaises
    | SendOk(socket: SocketId)
    | SendRaises(socket: SocketId)
    | BroadcastDone
    | Drain

  predicate Enabled(p: Replica, e: Event) {
    match e
    case JoinBegins(_, _) => p.registry.Free?
    case SubscribeBegins => p.registry.Joining? && p.pubsub.Unheld?
    case SubscribeTakesEffect => p.pubsub.Subscribing? && p.registry.Joining? && p.linked
    case SubscribeReturns => p.pubsub.Subscribing? && p.registry.Joining? && p.linked && p.registry.conversation in p.subscriptions
    case SubscribeRaises => p.pubsub.Subscribing? && p.registry.Joining?
    case LeaveBegins(_, _) => p.registry.Free?
    case UnsubscribeBegins => p.registry.Leaving? && p.pubsub.Unheld?
    case UnsubscribeTakesEffect => p.pubsub.Unsubscribing? && p.registry.Leaving?
    case UnsubscribeReturns => p.pubsub.Unsubscribing? && p.registry.Leaving? && p.registry.conversation !in p.subscriptions
    case UnsubscribeRaises => p.pubsub.Unsubscribing? && p.registry.Leaving?
    case Arrives(packet) => p.linked && packet.message.conversation in p.subscriptions
    case LinkDrops(kept) => kept <= |p.inbox|
    case Poll => p.reader.Idle? && p.channels != {}
    case ReadNothing => p.reader.Polling? && p.pubsub.Unheld?
    case ReadFails => p.reader.Polling? && p.pubsub.Unheld?
    case ReadPacket => p.reader.Polling? && p.pubsub.Unheld? && p.inbox != []
    case ReconnectBegins => p.reader.Backoff? && p.pubsub.Unheld?
    case Resubscribe(conversation) => p.pubsub.Resubscribing? && conversation in p.pubsub.todo && p.linked
    case ReconnectDone => p.pubsub == Resubscribing({})
    case ReconnectRaises => p.pubsub.Resubscribing?
    case SendOk(socket) => p.reader.Broadcasting? && socket in p.reader.todo
    case SendRaises(socket) => p.reader.Broadcasting? && socket in p.reader.todo
    case BroadcastDone => p.reader.Broadcasting? && p.reader.todo == {}
    case Drain => true
  }

  function Step(p: Replica, e: Event): Replica
    requires Enabled(p, e)
  {
    match e
    case JoinBegins(conversation, socket) =>
      var first := Members(p.sockets, conversation) == {};
      p.(sockets := Registered(p.sockets, conversation, socket),
         registry := if first then Joining(conversation, socket) else Free)
    case SubscribeBegins => p.(pubsub := Subscribing)
    case SubscribeTakesEffect => p.(subscriptions := p.subscriptions + {p.registry.conversation})
    case SubscribeReturns =>
      p.(channels := p.channels + {p.registry.conversation}, pubsub := Unheld, registry := Free)
    case SubscribeRaises =>
      p.(sockets := Unregistered(p.sockets, p.registry.conversation, p.registry.socket), pubsub := Unheld, registry := Free)
    case LeaveBegins(conversation, socket) =>
      var rest := Unregistered(p.sockets, conversation, socket);
      p.(sockets := rest,
         registry := if conversation in p.sockets && conversation !in rest then Leaving(conversation) else Free)
    case UnsubscribeBegins => p.(channels := p.channels - {p.registry.conversation}, pubsub := Unsubscribing)
    case UnsubscribeTakesEffect => p.(subscriptions := p.subscriptions - {p.registry.conversation})
    case UnsubscribeReturns => p.(pubsub := Unheld, registry := Free)
    case UnsubscribeRaises => p.(pubsub := Unheld, registry := Free)
    case Arrives(packet) => p.(inbox := p.inbox + [packet])
    case LinkDrops(kept) => p.(linked := false, subscriptions := {}, inbox := p.inbox[..kept])
    case Poll => p.(reader := Polling)
    case ReadNothing => p.(reader := Idle)
    case ReadFails => p.(reader := Backoff)
    case ReadPacket =>
      var packet := p.inbox[0];
      var snapshot := Members(p.sockets, packet.message.conversation);
      p.(inbox := p.inbox[1..], reader := if snapshot == {} then Idle else Broadcasting(packet, snapshot, {}))
    case ReconnectBegins => p.(linked := true, subscriptions := {}, inbox := [], pubsub := Resubscribing(p.channels))
    case Resubscribe(conversation) =>
      p.(subscriptions := p.subscriptions + {conversation}, pubsub := Resubscribing(p.pubsub.todo - {conversation}))
    case ReconnectDone => p.(pubsub := Unheld, reader := Idle)
    case ReconnectRaises => p.(pubsub := Unheld, reader := Crashed)
    case SendOk(socket) => p.(reader := p.reader.(todo := p.reader.todo - {socket}))
    case SendRaises(socket) => p.(reader := p.reader.(todo := p.reader.todo - {socket}, dead := p.reader.dead + {socket}))
    case BroadcastDone =>
      p.(sockets := UnregisteredAll(p.sockets, p.reader.packet.message.conversation, p.reader.dead), reader := Idle)
    case Drain => p.(sockets := map[])
  }

  /** The state after a run from the start; None if some event was not enabled when it came. */
  function After(events: seq<Event>): Option<Replica> {
    if events == [] then Some(INITIAL)
    else
      var before := After(events[..|events| - 1]);
      var e := events[|events| - 1];
      if before.Some? && Enabled(before.value, e) then Some(Step(before.value, e)) else None
  }

  /** A conversation with a local socket is subscribed, but for the one whose first join is in
      progress: its only socket is then the joiner. */
  ghost predicate RegisteredImpliesSubscribed(p: Replica) {
    forall conversation :: conversation in p.sockets ==>
      || conversation in p.channels
      || (p.registry.Joining? && p.registry.conversation == conversation && p.sockets[conversation] == {p.registry.socket})
  }

  /** While connected and read, the bookkeeping never claims more than the connection delivers; during
      a reconnect, what is claimed is what is subscribed plus what is still to be. */
  ghost predicate BookkeepingIsReal(p: Replica) {
    p.linked && !p.reader.Crashed? ==>
      if p.pubsub.Resubscribing? then p.channels == p.subscriptions + p.pubsub.todo
      else p.channels <= p.subscriptions
  }

  ghost predicate LocksAgree(p: Replica) {
    && (p.pubsub.Subscribing? ==> p.registry.Joining?)
    && (p.pubsub.Unsubscribing? ==> p.registry.Leaving? && p.registry.conversation !in p.channels)
    && (p.registry.Leaving? ==> p.registry.conversation !in p.sockets)
    && (p.pubsub.Resubscribing? ==> p.reader.Backoff?)
  }

  ghost predicate Inv(p: Replica) {
    && NoEmptyBucket(p.sockets)
    && RegisteredImpliesSubscribed(p)
    && BookkeepingIsReal(p)
    && LocksAgree(p)
  }

  lemma StepKeepsBuckets(p: Replica, e: Event)
    requires Inv(p) && Enabled(p, e)
    ensures NoEmptyBucket(Step(p, e).sockets)
    ensures RegisteredImpliesSubscribed(Step(p, e))
  {
    match e
    case JoinBegins(conversation, socket) => BucketsStayNonEmpty(p.sockets, conversation, socket, {});
    case LeaveBegins(conversation, socket) => BucketsStayNonEmpty(p.sockets, conversation, socket, {});
    case SubscribeRaises => BucketsStayNonEmpty(p.sockets, p.registry.conversation, p.registry.socket, {});
    case BroadcastDone => BucketsStayNonEmpty(p.sockets, p.reader.packet.message.conversation, 0, p.reader.dead);
    case _ =>
  }

  lemma StepKeepsInv(p: Replica, e: Event)
    requires Inv(p) && Enabled(p, e)
    ensures Inv(Step(p, e))
  {
    StepKeepsBuckets(p, e);
  }

  /** Over every run of a replica: failed subscribes and unsubscribes, dropped links, dead sockets and
      drains included, a registered conversation is subscribed and bookkeeping is real. */
  lemma {:induction false} ReplicaSafety(events: seq<Event>)
    requires After(events).Some?
    ensures Inv(After(events).value)
  {
    if events != [] {
      var earlier, e := events[..|events| - 1], events[|events| - 1];
      ReplicaSafety(earlier);
      StepKeepsInv(After(earlier).value, e);
    }
  }

  /** A reconnect that goes through on a live link re-establishes exact equality: no registered
      conversation is deaf afterwards, but for a first join still in progress. */
  lemma ReconnectHeals(events: seq<Event>)
    requires After(events).Some? && Enabled(After(events).value, ReconnectDone) && After(events).value.linked
    ensures var p := Step(After(events).value, ReconnectDone);
            && p.reader.Idle?
            && p.subscriptions == p.channels
            && forall conversation :: conversation in p.sockets ==>
                 || conversation in p.subscriptions
                 || (p.registry.Joining? && p.registry.conversation == conversation && p.sockets[conversation] == {p.registry.socket})
  {
    ReplicaSafety(events);
  }

  lemma CrashedStays(p: Replica, e: Event)
    requires Inv(p) && Enabled(p, e) && p.reader.Crashed?
    ensures Step(p, e).reader.Crashed? && e != ReconnectDone && e != ReadPacket
  {
  }

  /** "The reader always repairs itself" has one exception: a reader that has ended never reads or
      reconnects again, whatever happens after. */
  lemma {:induction false} CrashIsFinal(events: seq<Event>, more: seq<Event>)
    requires After(events + more).Some? && After(events).Some? && After(events).value.reader.Crashed?
    ensures After(events + more).value.reader.Crashed? && ReconnectDone !in more && ReadPacket !in more
  {
    if more == [] {
      assert events + more == events;
    } else {
      var less, e := more[..|more| - 1], more[|more| - 1];
      assert (events + more)[..|events + more| - 1] == events + less;
      CrashIsFinal(events, less);
      ReplicaSafety(events + less);
      CrashedStays(After(events + less).value, e);
      assert more == less + [e];
    }
  }

  /** A step ends the reader exactly when it is an exception out of a reconnect. */
  lemma CrashOnlyByReconnect(p: Replica, e: Event)
    requires Inv(p) && Enabled(p, e) && !p.reader.Crashed?
    ensures Step(p, e).reader.Crashed? <==> e.ReconnectRaises?
  {
    assert p.reader.Broadcasting? ==> p.reader != Crashed;
  }

  /** Over a whole run, the reader has ended if and only if an exception came out of a reconnect. */
  lemma {:induction false} CrashedIffReconnectRaised(events: seq<Event>)
    requires After(events).Some?
    ensures After(events).value.reader.Crashed? <==> ReconnectRaises in events
  {
    if events != [] {
      var earlier, e := events[..|events| - 1], events[|events| - 1];
      assert events == earlier + [e];
      CrashedIffReconnectRaised(earlier);
      ReplicaSafety(earlier);
      if After(earlier).value.reader.Crashed? {
        CrashedStays(After(earlier).value, e);
      } else {
        CrashOnlyByReconnect(After(earlier).value, e);
      }
    }
  }

  /** A run that ends with a registered socket, an ended reader and no
      subscription at all. */
  lemma DeafReplica(conversation: ConversationId, socket: SocketId) returns (events: seq<Event>)
    ensures After(events).Some?
    ensures var p := After(events).value;
            p.reader.Crashed? && socket in Members(p.sockets, conversation) && p.subscriptions == {}
  {
    events := FirstJoin(conversation, socket);
    events := Extend(events, Poll);
    events := Extend(events, LinkDrops(0));
    events := Extend(events, ReadFails);
    events := Extend(events, ReconnectBegins);
    events := Extend(events, ReconnectRaises);
  }

  lemma Extend(events: seq<Event>, e: Event) returns (more: seq<Event>)
    requires After(events).Some? && Enabled(After(events).value, e)
    ensures more == events + [e]
    ensures After(more) == Some(Step(After(events).value, e))
  {
    more := events + [e];
    assert more[..|more| - 1] == events;
  }

  lemma FirstJoin(conversation: ConversationId, socket: SocketId) returns (events: seq<Event>)
    ensures events == [JoinBegins(conversation, socket), SubscribeBegins, SubscribeTakesEffect, SubscribeReturns]
    ensures After(events) == Some(Replica(map[conversation := {socket}], Free, {conversation}, true, {conversation}, [], Unheld, Idle))
  {
    events := Extend([], JoinBegins(conversation, socket));
    events := Extend(events, SubscribeBegins);
    events := Extend(events, SubscribeTakesEffect);
    events := Extend(events, SubscribeReturns);
    assert Registered(INITIAL.sockets, conversation, socket) == map[conversation := {socket}] by {
      assert Members(INITIAL.sockets, conversation) + {socket} == {socket};
    }
    assert INITIAL.channels + {conversation} == {conversation} == INITIAL.subscriptions + {conversation};
  }
}
