/** The fan-out invariant holds in every reachable state. */
module FanoutSafety {
  import opened Values
  import opened Buckets
  import opened MessageTable
  import opened Fanout
  import Rep = ReplicaMachine
  import Db = MessageStore
  import Replay

  // Publishing a row.

  lemma PublishKeepsOrder(p: Rep.Replica, published: seq<Message>, row: Message)
    requires InOrder(p, published)
    ensures InOrder(Receive(p, Rep.Packet(|published|, row)), published + [row])
  {
    var q := Rep.Packet(|published|, row);
    var p' := Receive(p, q);
    RisingAppend(p.inbox, q);
    forall w | w in p'.inbox ensures PublishedAt(w, published + [row]) {
      assert w in p.inbox || w == q;
    }
  }

  lemma PublishKeepsTrails(p: Rep.Replica, i: SocketId, conversation: ConversationId, sent: seq<Rep.Packet>,
                        published: seq<Message>, row: Message)
    requires Trails(p, i, conversation, sent, published)
    ensures Trails(Receive(p, Rep.Packet(|published|, row)), i, conversation, sent, published + [row])
  {
    var q := Rep.Packet(|published|, row);
    forall w | w in Receive(p, q).inbox ensures w in p.inbox || w == q {
    }
  }

  lemma PublishKeepsDelivers(p: Rep.Replica, i: SocketId, k: Socket, published: seq<Message>, row: Message)
    requires Linked(p, k) && Delivers(p, i, k, published)
    ensures Delivers(Receive(p, Rep.Packet(|published|, row)), i, k, published + [row])
  {
    var q := Rep.Packet(|published|, row);
    var p', published' := Receive(p, q), published + [row];
    if Intact(k) {
      forall at | k.since <= at < |published'| && published'[at].conversation == k.conversation
        ensures Covered(p', i, k, Rep.Packet(at, published'[at]))
      {
        if at < |published| {
          assert Covered(p, i, k, Rep.Packet(at, published[at]));
        }
      }
    }
  }

  lemma PublishKeepsSocket(p: Rep.Replica, i: SocketId, k: Socket, store: Db.Store, row: Message)
    requires Local(p, i, k) && Linked(p, k) && Delivers(p, i, k, store.published) && Ordered(p, i, k, store.published)
    requires Seamless(k, store) && Db.Allowed(store, Db.Publish(row))
    ensures var p', store' := Receive(p, Rep.Packet(|store.published|, row)), Db.Do(store, Db.Publish(row));
            && Local(p', i, k) && Linked(p', k)
            && Delivers(p', i, k, store'.published) && Ordered(p', i, k, store'.published)
            && Seamless(k, store')
  {
    PublishKeepsDelivers(p, i, k, store.published, row);
    PublishKeepsTrails(p, i, k.conversation, Lives(k.log), store.published, row);
    if Joined(k) && k.cursor.Some? {
      assert (store.published + [row])[..k.since] == store.published[..k.since];
    }
  }

  // Committing a row, and the steps that leave both table and publish order alone.

  lemma CommitKeepsSeam(k: Socket, store: Db.Store, a: Db.Action)
    requires Db.Inv(store) && Db.Allowed(store, a) && !a.Publish?
    requires Seamless(k, store)
    ensures Seamless(k, Db.Do(store, a))
  {
    if a.Commit? {
      var row := store.inflight[a.id];
      InsertMembers(store.table, row);
      assert row !in store.published;
    }
  }

  lemma GrowthKeepsReplay(k: Socket, table: seq<Message>, more: seq<Message>)
    requires Contained(table, more) && ReplaysRows(k, table)
    ensures ReplaysRows(k, more)
  {
  }

  // The replay loop.

  lemma PageKeepsSeam(k: Socket, store: Db.Store)
    requires Db.Inv(store) && k.phase.Paging? && k.phase.progress.Paging?
    requires Seamless(k, store)
    ensures Seamless(Page(k, store.table), store)
  {
    var k' := Page(k, store.table);
    if k.cursor.Some? {
      forall m | m in store.table && Matches(m, k.conversation, k.cursor, None)
        ensures Owed(k', m) || m !in store.published[..k.since]
      {
        if Owed(k, m) {
          Replay.PageKeepsCover(store.table, k.conversation, Replay.REPLAY_PAGE_SIZE, k.phase.progress, m);
        }
      }
    }
  }

  lemma PageKeepsReplay(k: Socket, table: seq<Message>)
    requires Ascending(table) && k.phase.Paging? && k.phase.progress.Paging?
    requires ReplaysRows(k, table)
    ensures ReplaysRows(Page(k, table), table)
  {
    Replay.PageKeepsSound(table, table, k.conversation, Replay.REPLAY_PAGE_SIZE, k.cursor, k.phase.progress);
    var next := Replay.NextPage(table, k.conversation, Replay.REPLAY_PAGE_SIZE, k.phase.progress);
    assert [] + next.Rows() == next.Rows();
  }

  lemma FrameKeepsReplay(k: Socket, table: seq<Message>)
    requires k.phase.Streaming? && k.phase.rest != []
    requires ReplaysRows(k, table)
    ensures ReplaysRows(SendFrame(k), table)
    ensures Lives(SendFrame(k).log) == Lives(k.log)
  {
    var k', m := SendFrame(k), k.phase.rest[0];
    ProjectAppend(k.log, Replayed(m));
    assert Backlog(k') == Backlog(k);
  }

  lemma FrameKeepsSeam(k: Socket, store: Db.Store)
    requires k.phase.Streaming? && k.phase.rest != []
    requires Seamless(k, store)
    ensures Seamless(SendFrame(k), store)
  {
    var k' := SendFrame(k);
    forall m | Owed(k, m) ensures Owed(k', m) {
      assert k.phase.rest == [k.phase.rest[0]] + k.phase.rest[1..];
    }
  }

  // Events at a replica, seen from the backlog.

  lemma EventKeepsBacklog(p: Rep.Replica, e: Rep.Event, i: SocketId, k: Socket, store: Db.Store)
    requires Rep.Enabled(p, e)
    requires Local(p, i, k)
    requires e.JoinBegins? && e.socket == i ==> k.phase.Opened?
    requires Db.Inv(store) && Seamless(k, store) && ReplaysRows(k, store.table)
    ensures Seamless(Effect(p, e, |store.published|, i, k), store)
    ensures ReplaysRows(Effect(p, e, |store.published|, i, k), store.table)
  {
    var k' := Effect(p, e, |store.published|, i, k);
    if k'.log != k.log {
      LiveFrameKeepsBacklog(k, p.reader.packet, store);
    } else if k'.phase == k.phase {
      SameSeam(k, k', store);
    } else if k'.phase.Closed? {
      CloseKeepsBacklog(k, store.table);
    } else if k'.phase.Waiting? {
      assert Backlog(k') == Backlog(k);
    } else {
      JoinStartsBacklog(k, k'.linkOk, store);
    }
  }

  lemma SameSeam(k: Socket, k': Socket, store: Db.Store)
    requires Seamless(k, store) && ReplaysRows(k, store.table)
    requires k' == k.(linkOk := k'.linkOk, failed := k'.failed)
    ensures Seamless(k', store) && ReplaysRows(k', store.table)
  {
    assert Backlog(k') == Backlog(k);
    assert forall m :: Owed(k, m) <==> Owed(k', m);
  }

  lemma LiveFrameKeepsBacklog(k: Socket, q: Rep.Packet, store: Db.Store)
    requires Seamless(k, store) && ReplaysRows(k, store.table)
    ensures var k' := k.(log := k.log + [Live(q)]); Seamless(k', store) && ReplaysRows(k', store.table)
  {
    ProjectAppend(k.log, Live(q));
    var k' := k.(log := k.log + [Live(q)]);
    assert Backlog(k') == Backlog(k);
    forall m | Owed(k, m) ensures Owed(k', m) {
    }
  }

  lemma CloseKeepsBacklog(k: Socket, table: seq<Message>)
    requires ReplaysRows(k, table)
    ensures ReplaysRows(k.(phase := Closed), table)
  {
    var sent := Replays(k.log);
    assert forall j :: 0 <= j < |sent| ==> Backlog(k)[j] == sent[j];
    assert Backlog(k.(phase := Closed)) == sent;
    assert forall m :: m in sent ==> m in Backlog(k);
  }

  lemma JoinStartsBacklog(k: Socket, live: bool, store: Db.Store)
    requires k.phase.Opened? || k.phase.Waiting?
    requires ReplaysRows(k, store.table)
    ensures var k' := AfterJoin(k, live, |store.published|); Seamless(k', store) && ReplaysRows(k', store.table)
  {
    var k' := AfterJoin(k, live, |store.published|);
    assert Backlog(k') == [];
  }

  lemma EventKeepsKnown(p: Rep.Replica, e: Rep.Event, n: nat)
    requires Rep.Enabled(p, e) && Known(p, n)
    requires e.JoinBegins? ==> e.socket < n
    ensures Known(Rep.Step(p, e), n)
  {
    match e
    case JoinBegins(conversation, c) => MembersAfter(p.sockets, conversation, c, {});
    case LeaveBegins(conversation, c) => MembersAfter(p.sockets, conversation, c, {});
    case SubscribeRaises => MembersAfter(p.sockets, p.registry.conversation, p.registry.socket, {});
    case BroadcastDone => MembersAfter(p.sockets, p.reader.packet.message.conversation, 0, p.reader.dead);
    case ReadPacket =>
      assert Below(Members(p.sockets, p.inbox[0].message.conversation), n);
    case _ =>
  }

  // One step of the whole system.

  lemma AtKeepsInv(s: System, r: nat, e: Rep.Event)
    requires Inv(s) && Enabled(s, At(r, e))
    ensures Inv(Step(s, At(r, e)))
  {
    var s' := Step(s, At(r, e));
    forall q | 0 <= q < |s'.replicas| ensures ReplicaInv(s', q) {
      assert ReplicaInv(s, q);
      if q == r {
        AtKeepsReplica(s, r, e);
      }
    }
    forall i | 0 <= i < |s'.sockets| ensures SocketInv(s', i) {
      assert SocketInv(s, i);
      if s.sockets[i].replica == r {
        assert ReplicaInv(s, r);
        EventKeepsSocket(s.replicas[r], e, i, s.sockets[i], s.store);
      }
    }
  }

  lemma AtKeepsReplica(s: System, r: nat, e: Rep.Event)
    requires Enabled(s, At(r, e)) && ReplicaInv(s, r)
    ensures ReplicaInv(Step(s, At(r, e)), r)
  {
    Rep.StepKeepsInv(s.replicas[r], e);
    EventKeepsOrder(s.replicas[r], e, s.store.published);
    EventKeepsKnown(s.replicas[r], e, |s.sockets|);
  }

  lemma EventKeepsSocket(p: Rep.Replica, e: Rep.Event, i: SocketId, k: Socket, store: Db.Store)
    requires Rep.Inv(p) && Rep.Enabled(p, e) && !e.Arrives? && InOrder(p, store.published) && Db.Inv(store)
    requires Local(p, i, k) && Linked(p, k) && Delivers(p, i, k, store.published) && Ordered(p, i, k, store.published)
    requires Seamless(k, store) && ReplaysRows(k, store.table)
    requires e.JoinBegins? && e.socket == i ==> k.phase.Opened? && e.conversation == k.conversation
    requires e.LeaveBegins? && e.socket == i ==> Joined(k) && e.conversation == k.conversation
    ensures var p', k' := Rep.Step(p, e), Effect(p, e, |store.published|, i, k);
            && Local(p', i, k') && Linked(p', k')
            && Delivers(p', i, k', store.published) && Ordered(p', i, k', store.published)
            && Seamless(k', store) && ReplaysRows(k', store.table)
  {
    EventKeepsLocal(p, e, |store.published|, i, k);
    EventKeepsLinked(p, e, |store.published|, i, k);
    EventKeepsDelivers(p, e, i, k, store.published);
    EventKeepsOrdered(p, e, i, k, store.published);
    EventKeepsBacklog(p, e, i, k, store);
  }

  lemma PublishKeepsInv(s: System, row: Message)
    requires Inv(s) && Enabled(s, Storage(Db.Publish(row)))
    ensures Inv(Step(s, Storage(Db.Publish(row))))
  {
    var e := Storage(Db.Publish(row));
    var s' := Step(s, e);
    Db.DoKeepsInv(s.store, e.action);
    forall r | 0 <= r < |s'.replicas| ensures ReplicaInv(s', r) {
      assert ReplicaInv(s, r);
      var p, q := s.replicas[r], Rep.Packet(|s.store.published|, row);
      PublishKeepsOrder(p, s.store.published, row);
      if Rep.Enabled(p, Rep.Arrives(q)) {
        Rep.StepKeepsInv(p, Rep.Arrives(q));
      }
    }
    forall i | 0 <= i < |s'.sockets| ensures SocketInv(s', i) {
      assert SocketInv(s, i);
      var k := s.sockets[i];
      PublishKeepsSocket(s.replicas[k.replica], i, k, s.store, row);
    }
  }

  lemma StorageKeepsInv(s: System, a: Db.Action)
    requires Inv(s) && Enabled(s, Storage(a)) && !a.Publish?
    ensures Inv(Step(s, Storage(a)))
  {
    var s' := Step(s, Storage(a));
    Db.DoKeepsInv(s.store, a);
    Db.DoGrowsTable(s.store, a);
    forall r | 0 <= r < |s'.replicas| ensures ReplicaInv(s', r) {
      assert ReplicaInv(s, r);
    }
    forall i | 0 <= i < |s'.sockets| ensures SocketInv(s', i) {
      assert SocketInv(s, i);
      CommitKeepsSeam(s.sockets[i], s.store, a);
      GrowthKeepsReplay(s.sockets[i], s.store.table, s'.store.table);
    }
  }

  lemma ConnectKeepsInv(s: System, e: Event)
    requires Inv(s) && e.Connect? && Enabled(s, e)
    ensures Inv(Step(s, e))
  {
    var s' := Step(s, e);
    var n := |s.sockets|;
    forall r | 0 <= r < |s'.replicas| ensures ReplicaInv(s', r) {
      assert ReplicaInv(s, r);
    }
    forall i | 0 <= i < |s'.sockets| ensures SocketInv(s', i) {
      if i < n {
        assert SocketInv(s, i);
      } else {
        assert ReplicaInv(s, e.replica);
        forall conversation ensures n !in Members(s.replicas[e.replica].sockets, conversation) {
          assert Below(Members(s.replicas[e.replica].sockets, conversation), n);
        }
      }
    }
  }

  lemma ReplayKeepsInv(s: System, e: Event)
    requires Inv(s) && (e.ReplayPage? || e.ReplayFrame?) && Enabled(s, e)
    ensures Inv(Step(s, e))
  {
    var s' := Step(s, e);
    forall r | 0 <= r < |s'.replicas| ensures ReplicaInv(s', r) {
      assert ReplicaInv(s, r);
    }
    forall i | 0 <= i < |s'.sockets| ensures SocketInv(s', i) {
      assert SocketInv(s, i);
      if i == e.socket {
        ReplayKeepsSocket(s, e);
      }
    }
  }

  lemma ReplayKeepsSocket(s: System, e: Event)
    requires Db.Inv(s.store) && (e.ReplayPage? || e.ReplayFrame?) && Enabled(s, e) && SocketInv(s, e.socket)
    ensures SocketInv(Step(s, e), e.socket)
  {
    var k := s.sockets[e.socket];
    if e.ReplayPage? {
      PageKeepsSeam(k, s.store);
      PageKeepsReplay(k, s.store.table);
    } else {
      FrameKeepsSeam(k, s.store);
      FrameKeepsReplay(k, s.store.table);
    }
    SameLiveKeepsDelivery(s.replicas[k.replica], e.socket, k, Step(s, e).sockets[e.socket], s.store.published);
  }

  /** Replaying changes nothing that live delivery depends on. */
  lemma SameLiveKeepsDelivery(p: Rep.Replica, i: SocketId, k: Socket, k': Socket, published: seq<Message>)
    requires Joined(k) && Joined(k')
    requires k' == k.(phase := k'.phase, log := k'.log)
    requires k.log <= k'.log && Lives(k'.log) == Lives(k.log)
    requires Local(p, i, k) && Linked(p, k) && Delivers(p, i, k, published) && Ordered(p, i, k, published)
    ensures Local(p, i, k') && Linked(p, k') && Delivers(p, i, k', published) && Ordered(p, i, k', published)
  {
    if Intact(k') {
      forall at | k.since <= at < |published| && published[at].conversation == k.conversation
        ensures Covered(p, i, k', Rep.Packet(at, published[at]))
      {
        assert Covered(p, i, k, Rep.Packet(at, published[at]));
      }
    }
  }

  lemma StepKeepsInv(s: System, e: Event)
    requires Inv(s) && Enabled(s, e)
    ensures Inv(Step(s, e))
  {
    match e
    case Storage(a) =>
      if a.Publish? {
        PublishKeepsInv(s, a.row);
      } else {
        StorageKeepsInv(s, a);
      }
    case Connect(_, _, _) => ConnectKeepsInv(s, e);
    case At(r, event) => AtKeepsInv(s, r, event);
    case ReplayPage(_) => ReplayKeepsInv(s, e);
    case ReplayFrame(_) => ReplayKeepsInv(s, e);
  }

  /** Every reachable state of any number of replicas and sockets, under any faults. */
  lemma {:induction false} Reachable(replicas: nat, events: seq<Event>)
    requires After(replicas, events).Some?
    ensures Inv(After(replicas, events).value)
  {
    if events != [] {
      var earlier, e := events[..|events| - 1], events[|events| - 1];
      Reachable(replicas, earlier);
      StepKeepsInv(After(replicas, earlier).value, e);
    }
  }
}
