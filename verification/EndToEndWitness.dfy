/** A joint run: a message is sent and answered, and a client that connects afterwards catches up. */
module EndToEndWitness {
  import opened Values
  import opened Buckets
  import opened MessageTable
  import opened EndToEnd
  import E = Exchange
  import ExchangeSafety
  import SendGuarantees
  import F = Fanout
  import Rep = ReplicaMachine
  import Db = MessageStore
  import Replay
  import Delivery
  import Client

  const QUESTION := Message(1, 0, Some(1), User, "hi", Some(9))
  const ANSWER := Message(2, 0, None, Assistant, "hello", None)
  const SEND := E.Exchange(0, 1, "hi", Some(9), E.Checking)
  const ANSWERED := Db.Store(3, map[], [QUESTION, ANSWER], [QUESTION, ANSWER])
  const DONE := E.World(ANSWERED, [SEND.(stage := E.Acked(QUESTION, true))], map[2 := QUESTION])
  const CLIENT := F.Socket(0, 0, Some(0), F.Opened, false, false, 0, [])
  const JOINED := CLIENT.(linkOk := true, since := 2)
  const SUBSCRIBED := Rep.Replica(map[0 := {0}], Rep.Free, {0}, true, {0}, [], Rep.Unheld, Rep.Idle)

  /** The two sides of a joint run with one replica. */
  ghost predicate Reaches(run: seq<Event>, w: E.World, s: F.System) {
    && IsRun(1, run) && World(run) == Some(w) && Engine(1, run) == Some(s)
    && Delivery.FaultFree(Deliveries(run))
  }

  lemma ThenSend(run: seq<Event>, w: E.World, s: F.System, ev: E.Event) returns (more: seq<Event>)
    requires Reaches(run, w, s) && E.Enabled(w, ev)
    ensures E.Request(w, ev).Some? ==> F.Enabled(s, F.Storage(E.Request(w, ev).value))
    ensures Reaches(more, E.Step(w, ev), if E.Request(w, ev).Some? then F.Step(s, F.Storage(E.Request(w, ev).value)) else s)
  {
    more := run + [Send(ev)];
    assert more[..|run|] == run;
    OneStore(1, run);
    ExchangeSafety.Reachable(Sends(run));
    SendSteps(Sends(run), ev);
    SendGuarantees.ExchangeDrivesFanout(w, ev, s);
    if E.Request(w, ev).Some? {
      DeliverySteps(1, Deliveries(run), F.Storage(E.Request(w, ev).value));
    } else {
      assert Deliveries(more) == Deliveries(run) + [] == Deliveries(run);
    }
  }

  lemma ThenDeliver(run: seq<Event>, w: E.World, s: F.System, d: F.Event) returns (more: seq<Event>)
    requires Reaches(run, w, s) && !d.Storage? && Delivery.Benign(d) && F.Enabled(s, d)
    ensures Reaches(more, w, F.Step(s, d))
  {
    more := run + [Deliver(d)];
    assert more[..|run|] == run;
    assert Sends(more) == Sends(run) + [] == Sends(run);
    DeliverySteps(1, Deliveries(run), d);
  }

  /** Nobody listens yet. */
  function Unheard(store: Db.Store): F.System {
    F.System(store, [Rep.INITIAL], [])
  }

  /** The only exchange, at a stage. */
  function Sending(store: Db.Store, stage: E.Stage, answers: map<nat, Message>): E.World {
    E.World(store, [SEND.(stage := stage)], answers)
  }

  /** A step of the only exchange that asks nothing of the store. */
  lemma SendQuietly(run: seq<Event>, store: Db.Store, stage: E.Stage, ev: E.Event, stage': E.Stage) returns (more: seq<Event>)
    requires Reaches(run, Sending(store, stage, map[]), Unheard(store))
    requires ev.FindNone? && ev.e == 0 && E.Enabled(Sending(store, stage, map[]), ev)
    requires stage' == E.NextStage(Sending(store, stage, map[]), ev)
    ensures Reaches(more, Sending(store, stage', map[]), Unheard(store))
  {
    more := ThenSend(run, Sending(store, stage, map[]), Unheard(store), ev);
    assert [SEND.(stage := stage)][0 := SEND.(stage := stage')] == [SEND.(stage := stage')];
  }

  /** A step of the only exchange that does. */
  lemma SendStoring(run: seq<Event>, store: Db.Store, stage: E.Stage, answers: map<nat, Message>, ev: E.Event,
                    action: Db.Action, stage': E.Stage, answers': map<nat, Message>)
    returns (more: seq<Event>)
    requires Reaches(run, Sending(store, stage, answers), Unheard(store))
    requires !ev.Receive? && ev.e == 0 && E.Enabled(Sending(store, stage, answers), ev)
    requires E.Request(Sending(store, stage, answers), ev) == Some(action)
    requires stage' == E.NextStage(Sending(store, stage, answers), ev)
    requires answers' == E.NextAnswers(Sending(store, stage, answers), ev)
    ensures Reaches(more, Sending(Db.Do(store, action), stage', answers'), Unheard(Db.Do(store, action)))
  {
    more := ThenSend(run, Sending(store, stage, answers), Unheard(store), ev);
    assert [SEND.(stage := stage)][0 := SEND.(stage := stage')] == [SEND.(stage := stage')];
    StaysUnheard(store, action);
  }

  lemma StaysUnheard(store: Db.Store, action: Db.Action)
    requires F.Enabled(Unheard(store), F.Storage(action))
    ensures F.Step(Unheard(store), F.Storage(action)) == Unheard(Db.Do(store, action))
  {
    assert F.Step(Unheard(store), F.Storage(action)).replicas == [Rep.INITIAL];
  }

  /** An event at the only replica of a system with one socket, after the exchange. */
  lemma ThenAt(run: seq<Event>, p: Rep.Replica, k: F.Socket, e: Rep.Event) returns (more: seq<Event>)
    requires Reaches(run, DONE, F.System(ANSWERED, [p], [k])) && Delivery.Benign(F.At(0, e))
    requires k.replica == 0 && Rep.Enabled(p, e) && F.HandlerAllows(F.System(ANSWERED, [p], [k]), 0, e)
    ensures Reaches(more, DONE, F.System(ANSWERED, [Rep.Step(p, e)], [F.Effect(p, e, 2, 0, k)]))
  {
    var s := F.System(ANSWERED, [p], [k]);
    more := ThenDeliver(run, DONE, s, F.At(0, e));
    assert F.Step(s, F.At(0, e)).replicas == [Rep.Step(p, e)];
    assert F.Step(s, F.At(0, e)).sockets == [F.Effect(p, e, 2, 0, k)];
  }

  const OPEN := Db.Store(2, map[1 := QUESTION], [], [])
  const STORED := Db.Store(2, map[], [QUESTION], [])
  const ASKED := Db.Store(2, map[], [QUESTION], [QUESTION])
  const REPLYING := Db.Store(3, map[2 := ANSWER], [QUESTION], [QUESTION])
  const REPLIED := Db.Store(3, map[], [QUESTION, ANSWER], [QUESTION])

  lemma StoresInOrder()
    ensures Db.Do(Db.EMPTY, Db.Flush(QUESTION)) == OPEN
    ensures Db.Do(OPEN, Db.Commit(1)) == STORED
    ensures Db.Do(STORED, Db.Publish(QUESTION)) == ASKED
    ensures Db.Do(ASKED, Db.Flush(ANSWER)) == REPLYING
    ensures Db.Do(REPLYING, Db.Commit(2)) == REPLIED
    ensures Db.Do(REPLIED, Db.Publish(ANSWER)) == ANSWERED
  {
    assert map[1 := QUESTION] - {1} == map[] && Insert([], QUESTION) == [QUESTION] + [] == [QUESTION];
    assert map[2 := ANSWER] - {2} == map[];
    assert [QUESTION][1..] == [] && Insert([], ANSWER) == [ANSWER] + [] && Insert([QUESTION], ANSWER) == [QUESTION] + [ANSWER];
  }

  /** The question is inserted. */
  lemma InsertedRun() returns (run: seq<Event>)
    ensures Reaches(run, Sending(OPEN, E.Flushed(QUESTION), map[]), Unheard(OPEN))
  {
    assert F.Start(1) == Unheard(Db.EMPTY);
    run := ThenSend([], E.START, Unheard(Db.EMPTY), E.Receive(0, 1, "hi", Some(9)));
    assert [] + [SEND] == [SEND];
    run := SendQuietly(run, Db.EMPTY, E.Checking, E.FindNone(0), E.Inserting);
    StoresInOrder();
    run := SendStoring(run, Db.EMPTY, E.Inserting, map[], E.Insert(0), Db.Flush(QUESTION), E.Flushed(QUESTION), map[]);
  }

  /** It is stored and published. */
  lemma AskedRun() returns (run: seq<Event>)
    ensures Reaches(run, Sending(ASKED, E.Announced(QUESTION), map[]), Unheard(ASKED))
  {
    run := InsertedRun();
    StoresInOrder();
    run := SendStoring(run, OPEN, E.Flushed(QUESTION), map[], E.Commit(0), Db.Commit(1), E.Stored(QUESTION), map[]);
    run := SendStoring(run, STORED, E.Stored(QUESTION), map[], E.Publish(0), Db.Publish(QUESTION), E.Announced(QUESTION), map[]);
  }

  /** So is the answer, and the send is acked. */
  lemma AnsweredRun() returns (run: seq<Event>)
    ensures Reaches(run, DONE, Unheard(ANSWERED))
  {
    run := AskedRun();
    StoresInOrder();
    run := SendStoring(run, ASKED, E.Announced(QUESTION), map[], E.InsertReply(0, "hello"), Db.Flush(ANSWER),
                       E.ReplyFlushed(QUESTION, ANSWER), map[]);
    run := SendStoring(run, REPLYING, E.ReplyFlushed(QUESTION, ANSWER), map[], E.Commit(0), Db.Commit(2),
                       E.ReplyStored(QUESTION, ANSWER), map[2 := QUESTION]);
    run := SendStoring(run, REPLIED, E.ReplyStored(QUESTION, ANSWER), map[2 := QUESTION], E.Publish(0), Db.Publish(ANSWER),
                       E.Acked(QUESTION, true), map[2 := QUESTION]);
  }

  /** A client with cursor 0 connects and joins. */
  lemma JoinedRun() returns (run: seq<Event>)
    ensures Reaches(run, DONE, F.System(ANSWERED, [SUBSCRIBED], [JOINED.(phase := F.Paging(Replay.Paging(Some(0), [])))]))
  {
    run := AnsweredRun();
    run := ThenDeliver(run, DONE, Unheard(ANSWERED), F.Connect(0, 0, Some(0)));
    assert [] + [CLIENT] == [CLIENT];
    run := ThenAt(run, Rep.INITIAL, CLIENT, Rep.JoinBegins(0, 0));
    assert Members(Rep.INITIAL.sockets, 0) + {0} == {0};
    var p := Rep.INITIAL.(sockets := map[0 := {0}], registry := Rep.Joining(0, 0));
    var k := CLIENT.(phase := F.Waiting);
    run := ThenAt(run, p, k, Rep.SubscribeBegins);
    run := ThenAt(run, p.(pubsub := Rep.Subscribing), k, Rep.SubscribeTakesEffect);
    assert {} + {0} == {0};
    run := ThenAt(run, p.(pubsub := Rep.Subscribing, subscriptions := {0}), k, Rep.SubscribeReturns);
  }

  lemma SelectBoth()
    ensures Select([QUESTION, ANSWER], 0, Some(0), None) == [QUESTION, ANSWER]
  {
    assert [QUESTION, ANSWER][1..] == [ANSWER] && [ANSWER][1..] == [];
    assert Select([ANSWER], 0, Some(0), None) == [ANSWER] + [] == [ANSWER];
    assert Select([QUESTION, ANSWER], 0, Some(0), None) == [QUESTION] + [ANSWER];
  }

  /** The backlog's page is read. */
  lemma PagedRun() returns (run: seq<Event>)
    ensures Reaches(run, DONE, F.System(ANSWERED, [SUBSCRIBED], [JOINED.(phase := F.Streaming([QUESTION, ANSWER]))]))
  {
    run := JoinedRun();
    var k := JOINED.(phase := F.Paging(Replay.Paging(Some(0), [])));
    SelectBoth();
    assert [] + [QUESTION, ANSWER] == [QUESTION, ANSWER];
    var k' := JOINED.(phase := F.Streaming([QUESTION, ANSWER]));
    assert F.Page(k, ANSWERED.table) == k';
    run := ThenDeliver(run, DONE, F.System(ANSWERED, [SUBSCRIBED], [k]), F.ReplayPage(0));
    assert [k][0 := k'] == [k'];
  }

  /** The client is served, and has the question and its answer. */
  lemma CaughtUpRun() returns (run: seq<Event>, s: F.System)
    ensures IsRun(1, run) && World(run) == Some(DONE) && Engine(1, run) == Some(s)
    ensures Delivery.FaultFree(Deliveries(run)) && AllFinished(DONE)
    ensures |s.sockets| == |s.replicas| == 1 && s.sockets[0].phase.Serving? && s.sockets[0].cursor == Some(0)
    ensures s.sockets[0].replica == 0 && Delivery.Drained(s.replicas[0], 0, s.sockets[0])
    ensures Client.SeenSet(Delivery.Received(s.sockets[0].log), 0) == [QUESTION, ANSWER]
  {
    run := PagedRun();
    var k := JOINED.(phase := F.Streaming([QUESTION, ANSWER]));
    var k1 := JOINED.(phase := F.Streaming([ANSWER]), log := [F.Replayed(QUESTION)]);
    assert [QUESTION, ANSWER][1..] == [ANSWER] && [] + [F.Replayed(QUESTION)] == [F.Replayed(QUESTION)];
    assert F.SendFrame(k) == k1;
    run := ThenDeliver(run, DONE, F.System(ANSWERED, [SUBSCRIBED], [k]), F.ReplayFrame(0));
    assert [k][0 := k1] == [k1];
    var k2 := JOINED.(phase := F.Serving, log := [F.Replayed(QUESTION), F.Replayed(ANSWER)]);
    assert [ANSWER][1..] == [] && [F.Replayed(QUESTION)] + [F.Replayed(ANSWER)] == [F.Replayed(QUESTION), F.Replayed(ANSWER)];
    assert F.SendFrame(k1) == k2;
    run := ThenDeliver(run, DONE, F.System(ANSWERED, [SUBSCRIBED], [k1]), F.ReplayFrame(0));
    assert [k1][0 := k2] == [k2];
    s := F.System(ANSWERED, [SUBSCRIBED], [k2]);
    OneStore(1, run);
    ClientsCatchUp(Sends(run), DONE, 1, Deliveries(run), s, 0);
    SelectBoth();
  }
}
