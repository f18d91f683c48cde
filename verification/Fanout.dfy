/** The whole delivery engine: one store, any number of replicas and sockets, every await a point of
    interleaving. A socket's log records the frames its client received, in order of arrival. */
module Fanout {
  import opened Values
  import opened Buckets
  import opened MessageTable
  import Rep = ReplicaMachine
  import Db = MessageStore
  import Replay

  type SocketId = Rep.SocketId

  datatype Delivery = Live(packet: Rep.Packet) | Replayed(message: Message)

  /** Where a socket's handler stands: authenticated, awaiting its first subscribe, paging through the
      backlog, sending it, in the receive loop, or done. */
  datatype Phase =
    | Opened
    | Waiting
    | Paging(progress: Replay.Progress)
    | Streaming(rest: seq<Message>)
    | Serving
    | Closed

  /** `linkOk`, `failed` and `since` are history: whether the replica has been receiving the
      conversation ever since the join returned, whether a send failed or a drain closed the socket, and
      how many messages had been published when the join returned. */
  datatype Socket = Socket(
    replica: nat,
    conversation: ConversationId,
    cursor: Option<int>,
    phase: Phase,
    linkOk: bool,
    failed: bool,
    since: nat,
    log: seq<Delivery>)

  datatype System = System(store: Db.Store, replicas: seq<Rep.Replica>, sockets: seq<Socket>)

  datatype Event =
    | Storage(action: Db.Action)
    | Connect(replica: nat, conversation: ConversationId, cursor: Option<int>)
    | At(replica: nat, event: Rep.Event)
    | ReplayPage(socket: SocketId)
    | ReplayFrame(socket: SocketId)

  function Start(replicas: nat): System {
    System(Db.EMPTY, seq(replicas, _ => Rep.INITIAL), [])
  }

  predicate Joined(k: Socket) {
    k.phase.Paging? || k.phase.Streaming? || k.phase.Serving?
  }

  /** The join that begins or the leave that begins is the handler's own. */
  predicate HandlerAllows(s: System, r: nat, e: Rep.Event) {
    match e
    case JoinBegins(conversation, c) =>
      c < |s.sockets| && s.sockets[c].replica == r && s.sockets[c].conversation == conversation && s.sockets[c].phase.Opened?
    case LeaveBegins(conversation, c) =>
      c < |s.sockets| && s.sockets[c].replica == r && s.sockets[c].conversation == conversation && Joined(s.sockets[c])
    case Arrives(_) => false
    case _ => true
  }

  ghost predicate Enabled(s: System, e: Event) {
    match e
    case Storage(action) => Db.Allowed(s.store, action)
    case Connect(r, _, _) => r < |s.replicas|
    case At(r, event) => r < |s.replicas| && Rep.Enabled(s.replicas[r], event) && HandlerAllows(s, r, event)
    case ReplayPage(c) => c < |s.sockets| && s.sockets[c].phase.Paging? && s.sockets[c].phase.progress.Paging?
    case ReplayFrame(c) => c < |s.sockets| && s.sockets[c].phase.Streaming? && s.sockets[c].phase.rest != []
  }

  function Sending(messages: seq<Message>): Phase {
    if messages == [] then Serving else Streaming(messages)
  }

  function AfterJoin(k: Socket, live: bool, now: nat): Socket {
    k.(phase := if k.cursor.None? then Serving else Paging(Replay.Paging(k.cursor, [])), linkOk := live, since := now)
  }

  /** What one event at its replica does to a socket's handler and client. */
  function Effect(p: Rep.Replica, e: Rep.Event, now: nat, i: SocketId, k: Socket): Socket
    requires Rep.Enabled(p, e)
  {
    match e
    case JoinBegins(conversation, c) =>
      if c != i then k
      else if Members(p.sockets, conversation) == {} then k.(phase := Waiting)
      else AfterJoin(k, p.linked && conversation in p.subscriptions, now)
    case SubscribeReturns => if p.registry.socket == i then AfterJoin(k, true, now) else k
    case SubscribeRaises => if p.registry.socket == i then k.(phase := Closed) else k
    case LeaveBegins(_, c) => if c == i then k.(phase := Closed) else k
    case LinkDrops(_) => k.(linkOk := false)
    case ReconnectBegins => k.(linkOk := false)
    case SendOk(c) => if c == i then k.(log := k.log + [Live(p.reader.packet)]) else k
    case SendRaises(c) => if c == i then k.(failed := true) else k
    case Drain => if i in Members(p.sockets, k.conversation) then k.(failed := true) else k
    case _ => k
  }

  function Receive(p: Rep.Replica, packet: Rep.Packet): Rep.Replica {
    if Rep.Enabled(p, Rep.Arrives(packet)) then Rep.Step(p, Rep.Arrives(packet)) else p
  }

  function Page(k: Socket, table: seq<Message>): Socket
    requires k.phase.Paging? && k.phase.progress.Paging?
  {
    var next := Replay.NextPage(table, k.conversation, Replay.REPLAY_PAGE_SIZE, k.phase.progress);
    k.(phase := if next.Paging? then Paging(next) else Sending(next.messages))
  }

  function SendFrame(k: Socket): Socket
    requires k.phase.Streaming? && k.phase.rest != []
  {
    k.(log := k.log + [Replayed(k.phase.rest[0])], phase := Sending(k.phase.rest[1..]))
  }

  function Step(s: System, e: Event): System
    requires Enabled(s, e)
  {
    match e
    case Storage(action) =>
      s.(store := Db.Do(s.store, action),
         replicas := if action.Publish?
                     then seq(|s.replicas|, r requires 0 <= r < |s.replicas| =>
                                Receive(s.replicas[r], Rep.Packet(|s.store.published|, action.row)))
                     else s.replicas)
    case Connect(r, conversation, cursor) =>
      s.(sockets := s.sockets + [Socket(r, conversation, cursor, Opened, false, false, 0, [])])
    case At(r, event) =>
      s.(replicas := s.replicas[r := Rep.Step(s.replicas[r], event)],
         sockets := seq(|s.sockets|, i requires 0 <= i < |s.sockets| =>
                          if s.sockets[i].replica == r
                          then Effect(s.replicas[r], event, |s.store.published|, i, s.sockets[i])
                          else s.sockets[i]))
    case ReplayPage(c) => s.(sockets := s.sockets[c := Page(s.sockets[c], s.store.table)])
    case ReplayFrame(c) => s.(sockets := s.sockets[c := SendFrame(s.sockets[c])])
  }

  /** The state after a run from the start; None if some event was not enabled when it came. */
  ghost function After(replicas: nat, events: seq<Event>): Option<System> {
    if events == [] then Some(Start(replicas))
    else
      var before := After(replicas, events[..|events| - 1]);
      var e := events[|events| - 1];
      if before.Some? && Enabled(before.value, e) then Some(Step(before.value, e)) else None
  }

  // Projections of a socket's log.

  function Lives(log: seq<Delivery>): seq<Rep.Packet> {
    if log == [] then []
    else
      var last := log[|log| - 1];
      Lives(log[..|log| - 1]) + if last.Live? then [last.packet] else []
  }

  function Replays(log: seq<Delivery>): seq<Message> {
    if log == [] then []
    else
      var last := log[|log| - 1];
      Replays(log[..|log| - 1]) + if last.Replayed? then [last.message] else []
  }

  lemma ProjectAppend(log: seq<Delivery>, d: Delivery)
    ensures Lives(log + [d]) == Lives(log) + if d.Live? then [d.packet] else []
    ensures Replays(log + [d]) == Replays(log) + if d.Replayed? then [d.message] else []
  {
    assert (log + [d])[..|log|] == log;
  }

  lemma {:induction false} ProjectMembers(log: seq<Delivery>)
    ensures forall q :: q in Lives(log) <==> Live(q) in log
    ensures forall m :: m in Replays(log) <==> Replayed(m) in log
  {
    if log != [] {
      ProjectMembers(log[..|log| - 1]);
      assert log == log[..|log| - 1] + [log[|log| - 1]];
    }
  }

  // Invariants of one replica and of one socket at its replica.

  ghost predicate PublishedAt(q: Rep.Packet, published: seq<Message>) {
    q.at < |published| && published[q.at] == q.message
  }

  ghost predicate Rising(packets: seq<Rep.Packet>) {
    forall i, j :: 0 <= i < j < |packets| ==> packets[i].at < packets[j].at
  }

  /** The inbox is a stretch of the publish order, after the message being broadcast. */
  ghost predicate InOrder(p: Rep.Replica, published: seq<Message>) {
    && Rising(p.inbox)
    && (forall q :: q in p.inbox ==> PublishedAt(q, published))
    && (p.reader.Broadcasting? ==>
          PublishedAt(p.reader.packet, published) && forall q :: q in p.inbox ==> p.reader.packet.at < q.at)
  }

  ghost predicate Below(ids: set<SocketId>, n: nat) {
    forall i :: i in ids ==> i < n
  }

  /** Every socket a replica speaks of has been connected. */
  ghost predicate Known(p: Rep.Replica, n: nat) {
    && (forall conversation :: Below(Members(p.sockets, conversation), n))
    && (p.registry.Joining? ==> p.registry.socket < n)
    && (p.reader.Broadcasting? ==> Below(p.reader.todo, n) && Below(p.reader.dead, n))
  }

  ghost predicate Enlisted(k: Socket) {
    k.phase.Waiting? || Joined(k)
  }

  /** The replica's view of one of its sockets agrees with the socket's handler. */
  ghost predicate Local(p: Rep.Replica, i: SocketId, k: Socket) {
    && (forall conversation :: i in Members(p.sockets, conversation) ==> conversation == k.conversation)
    && (p.registry.Joining? && p.registry.socket == i ==> k.phase.Waiting? && p.registry.conversation == k.conversation)
    && (p.reader.Broadcasting? && (i in p.reader.todo || i in p.reader.dead) ==>
          p.reader.packet.message.conversation == k.conversation)
    && (p.reader.Broadcasting? && i in p.reader.dead ==> k.failed)
    && (Enlisted(k) && !k.failed ==> i in Members(p.sockets, k.conversation))
  }

  /** A joined socket that was never dropped, on a replica that has been receiving since. */
  ghost predicate Intact(k: Socket) {
    Joined(k) && k.linkOk && !k.failed
  }

  ghost predicate Linked(p: Rep.Replica, k: Socket) {
    Intact(k) ==> p.linked && k.conversation in p.subscriptions
  }

  /** The published message at a position has reached the socket live, or is on its way. */
  ghost predicate Covered(p: Rep.Replica, i: SocketId, k: Socket, q: Rep.Packet) {
    || Live(q) in k.log
    || q in p.inbox
    || (p.reader.Broadcasting? && p.reader.packet == q && i in p.reader.todo)
  }

  /** Everything published to the conversation since the join returned is covered. */
  ghost predicate Delivers(p: Rep.Replica, i: SocketId, k: Socket, published: seq<Message>) {
    Intact(k) ==>
      forall at :: k.since <= at < |published| && published[at].conversation == k.conversation ==>
        Covered(p, i, k, Rep.Packet(at, published[at]))
  }

  /** Live frames follow the publish order, each position at most once. */
  ghost predicate Trails(p: Rep.Replica, i: SocketId, conversation: ConversationId, sent: seq<Rep.Packet>,
                        published: seq<Message>) {
    && Rising(sent)
    && (forall q :: q in sent ==> PublishedAt(q, published) && q.message.conversation == conversation)
    && (forall q, w :: q in sent && w in p.inbox ==> q.at < w.at)
    && (p.reader.Broadcasting? ==> forall q :: q in sent ==> q.at <= p.reader.packet.at)
    && (p.reader.Broadcasting? && i in p.reader.todo ==> forall q :: q in sent ==> q.at < p.reader.packet.at)
  }

  ghost predicate Ordered(p: Rep.Replica, i: SocketId, k: Socket, published: seq<Message>) {
    Trails(p, i, k.conversation, Lives(k.log), published)
  }

  /** The backlog still owes the row, or has sent it. */
  ghost predicate Owed(k: Socket, m: Message) {
    match k.phase
    case Paging(progress) => Replay.Covers(progress, m)
    case Streaming(rest) => m in rest || Replayed(m) in k.log
    case _ => Replayed(m) in k.log
  }

  /** The seam: a committed row above the cursor is the backlog's unless its publish came after the join. */
  ghost predicate Seamless(k: Socket, store: Db.Store) {
    Joined(k) && k.cursor.Some? ==>
      && k.since <= |store.published|
      && forall m :: m in store.table && Matches(m, k.conversation, k.cursor, None) ==>
           Owed(k, m) || m !in store.published[..k.since]
  }

  /** What has been and will be replayed: committed rows above the cursor, strictly ascending. */
  function Backlog(k: Socket): seq<Message> {
    Replays(k.log) + if k.phase.Streaming? then k.phase.rest else []
  }

  ghost predicate ReplaysRows(k: Socket, table: seq<Message>) {
    && Ascending(Backlog(k))
    && (forall m :: m in Backlog(k) ==> m in table && k.cursor.Some? && Matches(m, k.conversation, k.cursor, None))
    && (k.phase.Opened? || k.phase.Waiting? || k.phase.Paging? ==> Replays(k.log) == [])
    && (k.phase.Paging? ==> k.cursor.Some? && k.phase.progress.Paging? && Replay.Sound(k.phase.progress, table, k.conversation, k.cursor))
  }

  ghost predicate SocketInv(s: System, i: SocketId)
    requires i < |s.sockets|
  {
    var k := s.sockets[i];
    && k.replica < |s.replicas|
    && var p := s.replicas[k.replica];
    && Local(p, i, k)
    && Linked(p, k)
    && Delivers(p, i, k, s.store.published)
    && Ordered(p, i, k, s.store.published)
    && Seamless(k, s.store)
    && ReplaysRows(k, s.store.table)
  }

  ghost predicate ReplicaInv(s: System, r: nat)
    requires r < |s.replicas|
  {
    Rep.Inv(s.replicas[r]) && InOrder(s.replicas[r], s.store.published) && Known(s.replicas[r], |s.sockets|)
  }

  ghost predicate Inv(s: System) {
    && Db.Inv(s.store)
    && (forall r :: 0 <= r < |s.replicas| ==> ReplicaInv(s, r))
    && (forall i :: 0 <= i < |s.sockets| ==> SocketInv(s, i))
  }

  // How an event at a replica keeps them.

  lemma EventKeepsOrder(p: Rep.Replica, e: Rep.Event, published: seq<Message>)
    requires Rep.Enabled(p, e) && !e.Arrives?
    requires InOrder(p, published)
    ensures InOrder(Rep.Step(p, e), published)
  {
    if e.ReadPacket? {
      assert p.inbox[0] in p.inbox;
      assert forall q :: q in p.inbox[1..] ==> q in p.inbox;
    } else if e.LinkDrops? {
      assert forall q :: q in p.inbox[..e.kept] ==> q in p.inbox;
    }
  }

  lemma EventKeepsLocal(p: Rep.Replica, e: Rep.Event, now: nat, i: SocketId, k: Socket)
    requires Rep.Inv(p) && Rep.Enabled(p, e)
    requires Local(p, i, k)
    requires e.JoinBegins? && e.socket == i ==> k.phase.Opened? && e.conversation == k.conversation
    requires e.LeaveBegins? && e.socket == i ==> Joined(k) && e.conversation == k.conversation
    ensures Local(Rep.Step(p, e), i, Effect(p, e, now, i, k))
  {
    if e.JoinBegins? || e.LeaveBegins? || e.SubscribeRaises? || e.BroadcastDone? {
      BucketEventKeepsLocal(p, e, now, i, k);
    } else if e.ReadPacket? || e.SendOk? || e.SendRaises? {
      ReaderEventKeepsLocal(p, e, now, i, k);
    }
  }

  lemma ReaderEventKeepsLocal(p: Rep.Replica, e: Rep.Event, now: nat, i: SocketId, k: Socket)
    requires Rep.Enabled(p, e) && (e.ReadPacket? || e.SendOk? || e.SendRaises?)
    requires Local(p, i, k)
    ensures Local(Rep.Step(p, e), i, Effect(p, e, now, i, k))
  {
  }

  lemma BucketEventKeepsLocal(p: Rep.Replica, e: Rep.Event, now: nat, i: SocketId, k: Socket)
    requires Rep.Inv(p) && Rep.Enabled(p, e)
    requires e.JoinBegins? || e.LeaveBegins? || e.SubscribeRaises? || e.BroadcastDone?
    requires Local(p, i, k)
    requires e.JoinBegins? && e.socket == i ==> k.phase.Opened? && e.conversation == k.conversation
    requires e.LeaveBegins? && e.socket == i ==> Joined(k) && e.conversation == k.conversation
    ensures Local(Rep.Step(p, e), i, Effect(p, e, now, i, k))
  {
    if e.JoinBegins? || e.LeaveBegins? {
      MembersAfter(p.sockets, e.conversation, e.socket, {});
    } else if e.SubscribeRaises? {
      MembersAfter(p.sockets, p.registry.conversation, p.registry.socket, {});
    } else {
      MembersAfter(p.sockets, p.reader.packet.message.conversation, 0, p.reader.dead);
    }
  }

  lemma EventKeepsLinked(p: Rep.Replica, e: Rep.Event, now: nat, i: SocketId, k: Socket)
    requires Rep.Inv(p) && Rep.Enabled(p, e)
    requires Local(p, i, k) && Linked(p, k)
    requires e.JoinBegins? && e.socket == i ==> e.conversation == k.conversation
    ensures Linked(Rep.Step(p, e), Effect(p, e, now, i, k))
  {
  }

  lemma EventKeepsDelivers(p: Rep.Replica, e: Rep.Event, i: SocketId, k: Socket, published: seq<Message>)
    requires Rep.Inv(p) && Rep.Enabled(p, e) && !e.Arrives?
    requires InOrder(p, published)
    requires Local(p, i, k) && Delivers(p, i, k, published)
    ensures Delivers(Rep.Step(p, e), i, Effect(p, e, |published|, i, k), published)
  {
    var p', k' := Rep.Step(p, e), Effect(p, e, |published|, i, k);
    if Intact(k') && Intact(k) {
      forall at | k'.since <= at < |published| && published[at].conversation == k.conversation
        ensures Covered(p', i, k', Rep.Packet(at, published[at]))
      {
        assert Covered(p, i, k, Rep.Packet(at, published[at]));
      }
    }
  }

  lemma EventKeepsOrdered(p: Rep.Replica, e: Rep.Event, i: SocketId, k: Socket, published: seq<Message>)
    requires Rep.Enabled(p, e) && !e.Arrives?
    requires InOrder(p, published) && Local(p, i, k) && Ordered(p, i, k, published)
    ensures Ordered(Rep.Step(p, e), i, Effect(p, e, |published|, i, k), published)
  {
    var sent := Lives(k.log);
    if e.SendOk? && e.socket == i {
      ProjectAppend(k.log, Live(p.reader.packet));
      SendTrails(p, i, k.conversation, sent, published);
    } else {
      EventTrails(p, e, i, k.conversation, sent, published);
      assert Effect(p, e, |published|, i, k).log == k.log;
    }
  }

  lemma EventTrails(p: Rep.Replica, e: Rep.Event, i: SocketId, conversation: ConversationId, sent: seq<Rep.Packet>,
                    published: seq<Message>)
    requires Rep.Enabled(p, e) && !e.Arrives?
    requires InOrder(p, published) && Trails(p, i, conversation, sent, published)
    ensures Trails(Rep.Step(p, e), i, conversation, sent, published)
  {
    if e.ReadPacket? {
      assert p.inbox[0] in p.inbox;
      assert forall q :: q in p.inbox[1..] ==> q in p.inbox;
    } else if e.LinkDrops? {
      assert forall q :: q in p.inbox[..e.kept] ==> q in p.inbox;
    }
  }

  lemma SendTrails(p: Rep.Replica, i: SocketId, conversation: ConversationId, sent: seq<Rep.Packet>, published: seq<Message>)
    requires p.reader.Broadcasting? && i in p.reader.todo && p.reader.packet.message.conversation == conversation
    requires InOrder(p, published) && Trails(p, i, conversation, sent, published)
    ensures Trails(Rep.Step(p, Rep.SendOk(i)), i, conversation, sent + [p.reader.packet], published)
  {
    var q := p.reader.packet;
    RisingAppend(sent, q);
    var more := sent + [q];
    assert forall w :: w in more <==> w in sent || w == q;
    assert Rep.Step(p, Rep.SendOk(i)).inbox == p.inbox;
  }

  lemma RisingAppend(sent: seq<Rep.Packet>, q: Rep.Packet)
    requires Rising(sent) && forall w :: w in sent ==> w.at < q.at
    ensures Rising(sent + [q])
  {
    assert forall j :: 0 <= j < |sent| ==> sent[j] in sent;
  }
}
