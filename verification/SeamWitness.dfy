/** A fault-free run after which a high-water-mark client has lost a message for good. */
module SeamWitness {
  import opened Values
  import opened Buckets
  import opened MessageTable
  import opened Fanout
  import Rep = ReplicaMachine
  import Db = MessageStore
  import Replay
  import Client
  import Delivery

  const FIRST := Message(1, 0, Some(7), User, "first", None)
  const SECOND := Message(2, 0, Some(7), User, "second", None)

  lemma Extend(events: seq<Event>, e: Event) returns (more: seq<Event>)
    requires After(1, events).Some? && Enabled(After(1, events).value, e)
    ensures more == events + [e]
    ensures After(1, more) == Some(Step(After(1, events).value, e))
    ensures Delivery.FaultFree(events) && Delivery.Benign(e) ==> Delivery.FaultFree(more)
  {
    more := events + [e];
    assert more[..|more| - 1] == events;
  }

  /** An event at the only replica of a system with one socket. */
  lemma ExtendAt(events: seq<Event>, store: Db.Store, p: Rep.Replica, k: Socket, e: Rep.Event) returns (more: seq<Event>)
    requires After(1, events) == Some(System(store, [p], [k]))
    requires k.replica == 0 && Rep.Enabled(p, e) && HandlerAllows(System(store, [p], [k]), 0, e)
    ensures more == events + [At(0, e)]
    ensures After(1, more) == Some(System(store, [Rep.Step(p, e)], [Effect(p, e, |store.published|, 0, k)]))
    ensures Delivery.FaultFree(events) && Delivery.Benign(At(0, e)) ==> Delivery.FaultFree(more)
  {
    more := Extend(events, At(0, e));
    var s' := Step(System(store, [p], [k]), At(0, e));
    assert s'.replicas == [Rep.Step(p, e)];
    assert s'.sockets == [Effect(p, e, |store.published|, 0, k)];
  }

  /** A storage step, with at most the one replica listening. */
  lemma ExtendStorage(events: seq<Event>, store: Db.Store, p: Rep.Replica, sockets: seq<Socket>,
                      a: Db.Action) returns (more: seq<Event>)
    requires After(1, events) == Some(System(store, [p], sockets)) && Db.Allowed(store, a)
    ensures After(1, more) == Some(System(Db.Do(store, a),
              [if a.Publish? then Receive(p, Rep.Packet(|store.published|, a.row)) else p], sockets))
    ensures Delivery.FaultFree(events) ==> Delivery.FaultFree(more)
  {
    more := Extend(events, Storage(a));
    if a.Publish? {
      assert After(1, more).value.replicas == [Receive(p, Rep.Packet(|store.published|, a.row))];
    }
  }

  /** Writing and publishing a row. */
  lemma ExtendRow(events: seq<Event>, store: Db.Store, p: Rep.Replica, sockets: seq<Socket>,
                  row: Message) returns (more: seq<Event>)
    requires After(1, events) == Some(System(store, [p], sockets))
    requires store.inflight == map[] && row.id == store.nextId && row.key == None && row !in store.published
    requires row in Insert(store.table, row)
    ensures After(1, more) == Some(System(
              Db.Store(row.id + 1, map[], Insert(store.table, row), store.published + [row]),
              [Receive(p, Rep.Packet(|store.published|, row))],
              sockets))
    ensures Delivery.FaultFree(events) ==> Delivery.FaultFree(more)
  {
    more := ExtendStorage(events, store, p, sockets, Db.Flush(row));
    var flushed := Db.Store(row.id + 1, map[row.id := row], store.table, store.published);
    assert flushed == Db.Do(store, Db.Flush(row));
    more := ExtendStorage(more, flushed, p, sockets, Db.Commit(row.id));
    assert map[row.id := row] - {row.id} == map[];
    var committed := Db.Store(row.id + 1, map[], Insert(store.table, row), store.published);
    more := ExtendStorage(more, committed, p, sockets, Db.Publish(row));
  }

  const SUBSCRIBED := Rep.Replica(map[0 := {0}], Rep.Free, {0}, true, {0}, [], Rep.Unheld, Rep.Idle)
  const ONE_ROW := Db.Store(2, map[], [FIRST], [FIRST])
  const TWO_ROWS := Db.Store(3, map[], [FIRST, SECOND], [FIRST, SECOND])
  const CLIENT := Socket(0, 0, Some(0), Opened, false, false, 0, [])
  const READING := CLIENT.(phase := Paging(Replay.Paging(Some(0), [])), linkOk := true, since := 1)

  lemma RowsInOrder()
    ensures Insert([], FIRST) == [FIRST] == [] + [FIRST]
    ensures Insert([FIRST], SECOND) == [FIRST, SECOND] == [FIRST] + [SECOND]
    ensures SECOND !in [FIRST]
  {
    assert [FIRST][1..] == [];
    assert Insert([], SECOND) == [SECOND] + [] == [SECOND];
  }

  /** One row is committed and published. */
  lemma FirstRowRun() returns (events: seq<Event>)
    ensures After(1, events) == Some(System(ONE_ROW, [Rep.INITIAL], []))
    ensures Delivery.FaultFree(events)
  {
    assert Start(1).replicas == [Rep.INITIAL];
    RowsInOrder();
    events := ExtendRow([], Db.EMPTY, Rep.INITIAL, [], FIRST);
    assert Receive(Rep.INITIAL, Rep.Packet(0, FIRST)) == Rep.INITIAL;
  }

  /** A client with cursor 0 connects. */
  lemma ConnectedRun() returns (events: seq<Event>)
    ensures After(1, events) == Some(System(ONE_ROW, [Rep.INITIAL], [CLIENT]))
    ensures Delivery.FaultFree(events)
  {
    events := FirstRowRun();
    events := Extend(events, Connect(0, 0, Some(0)));
    assert [] + [CLIENT] == [CLIENT];
  }

  /** Its join subscribes the replica, and it starts on the backlog. */
  lemma JoinedRun() returns (events: seq<Event>)
    ensures After(1, events) == Some(System(ONE_ROW, [SUBSCRIBED], [READING]))
    ensures Delivery.FaultFree(events)
  {
    events := ConnectedRun();
    events := ExtendAt(events, ONE_ROW, Rep.INITIAL, CLIENT, Rep.JoinBegins(0, 0));
    assert Members(Rep.INITIAL.sockets, 0) + {0} == {0};
    var p1 := Rep.INITIAL.(sockets := map[0 := {0}], registry := Rep.Joining(0, 0));
    var k := CLIENT.(phase := Waiting);
    events := ExtendAt(events, ONE_ROW, p1, k, Rep.SubscribeBegins);
    events := ExtendAt(events, ONE_ROW, p1.(pubsub := Rep.Subscribing), k, Rep.SubscribeTakesEffect);
    assert {} + {0} == {0};
    events := ExtendAt(events, ONE_ROW, p1.(pubsub := Rep.Subscribing, subscriptions := {0}), k, Rep.SubscribeReturns);
  }

  /** The backlog is one page of one row. */
  lemma PagedRun() returns (events: seq<Event>)
    ensures After(1, events) == Some(System(ONE_ROW, [SUBSCRIBED], [READING.(phase := Streaming([FIRST]))]))
    ensures Delivery.FaultFree(events)
  {
    events := JoinedRun();
    SelectOne(FIRST, 0, Some(0));
    assert [] + [FIRST] == [FIRST];
    assert Page(READING, [FIRST]) == READING.(phase := Streaming([FIRST]));
    events := Extend(events, ReplayPage(0));
    assert [READING][0 := Page(READING, [FIRST])] == [Page(READING, [FIRST])];
  }

  /** A second row is written and published to the replica. */
  lemma PublishedRun(q: Rep.Packet) returns (events: seq<Event>)
    requires q == Rep.Packet(1, SECOND)
    ensures After(1, events) == Some(System(TWO_ROWS, [SUBSCRIBED.(inbox := [q])], [READING.(phase := Streaming([FIRST]))]))
    ensures Delivery.FaultFree(events)
  {
    events := PagedRun();
    var k := READING.(phase := Streaming([FIRST]));
    RowsInOrder();
    events := ExtendRow(events, ONE_ROW, SUBSCRIBED, [k], SECOND);
    assert Receive(SUBSCRIBED, q) == SUBSCRIBED.(inbox := [q]);
  }

  /** The reader takes it from its inbox. */
  lemma ReadRun(q: Rep.Packet) returns (events: seq<Event>)
    requires q == Rep.Packet(1, SECOND)
    ensures After(1, events) == Some(System(TWO_ROWS, [SUBSCRIBED.(reader := Rep.Broadcasting(q, {0}, {}))],
                                            [READING.(phase := Streaming([FIRST]))]))
    ensures Delivery.FaultFree(events)
  {
    events := PublishedRun(q);
    var k := READING.(phase := Streaming([FIRST]));
    var p := SUBSCRIBED.(inbox := [q]);
    events := ExtendAt(events, TWO_ROWS, p, k, Rep.Poll);
    events := ExtendAt(events, TWO_ROWS, p.(reader := Rep.Polling), k, Rep.ReadPacket);
    assert [q][1..] == [];
  }

  /** It is delivered live before the backlog's frame is sent. */
  lemma OvertakenRun(q: Rep.Packet) returns (events: seq<Event>)
    requires q == Rep.Packet(1, SECOND)
    ensures After(1, events) == Some(System(TWO_ROWS, [SUBSCRIBED.(reader := Rep.Broadcasting(q, {}, {}))],
                                            [READING.(phase := Streaming([FIRST]), log := [Live(q)])]))
    ensures Delivery.FaultFree(events)
  {
    events := ReadRun(q);
    var k := READING.(phase := Streaming([FIRST]));
    events := ExtendAt(events, TWO_ROWS, SUBSCRIBED.(reader := Rep.Broadcasting(q, {0}, {})), k, Rep.SendOk(0));
    assert {0} - {0} == {} && [] + [Live(q)] == [Live(q)];
  }

  /** The client has received everything, and the high-water-mark one has refused the older message. */
  lemma HighWaterClientLoses() returns (events: seq<Event>)
    ensures Delivery.FaultFree(events) && After(1, events).Some?
    ensures var s := After(1, events).value;
            && |s.sockets| == 1 && |s.replicas| == 1
            && s.sockets[0].phase.Serving? && s.sockets[0].cursor == Some(0)
            && Delivery.Drained(s.replicas[0], 0, s.sockets[0])
            && FIRST in Select(s.store.table, 0, Some(0), None)
            && FIRST in Delivery.Received(s.sockets[0].log)
            && FIRST !in Client.HighWater(Delivery.Received(s.sockets[0].log), 0)
  {
    var q := Rep.Packet(1, SECOND);
    events := OvertakenRun(q);
    var k := READING.(phase := Streaming([FIRST]), log := [Live(q)]);
    assert [FIRST][1..] == [] && [Live(q)] + [Replayed(FIRST)] == [Live(q), Replayed(FIRST)];
    assert SendFrame(k) == READING.(phase := Serving, log := [Live(q), Replayed(FIRST)]);
    events := Extend(events, ReplayFrame(0));
    LossByHighWater(q);
    SelectMembers(TWO_ROWS.table, 0, Some(0), None);
  }

  lemma LossByHighWater(q: Rep.Packet)
    requires q.message == SECOND
    ensures Delivery.Received([Live(q), Replayed(FIRST)]) == [SECOND, FIRST]
    ensures Client.HighWater([SECOND, FIRST], 0) == [SECOND]
  {
    var log := [Live(q), Replayed(FIRST)];
    assert log[..1] == [Live(q)] && [Live(q)][..0] == [];
    assert Delivery.Received([Live(q)]) == [] + [SECOND] == [SECOND];
    assert Delivery.Received(log) == Delivery.Received(log[..1]) + [FIRST];
    var frames := [SECOND, FIRST];
    assert frames[..1] == [SECOND] && [SECOND][..0] == [];
    assert Client.Mark([SECOND], 0) == 2;
    assert Client.HighWater([SECOND], 0) == [] + [SECOND] == [SECOND];
    assert Client.HighWater(frames, 0) == Client.HighWater(frames[..1], 0);
  }

  lemma SelectOne(m: Message, conversation: ConversationId, after: Option<int>)
    requires Matches(m, conversation, after, None)
    ensures Select([m], conversation, after, None) == [m]
  {
    assert [m][1..] == [];
    assert [m] + Select([], conversation, after, None) == [m];
  }
}
