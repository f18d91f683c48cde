/** The send flow and the delivery engine running together: exchanges and deliveries interleave, and
    what the exchanges do to the store is what the engine delivers from. */
module EndToEnd {
  import opened Values
  import opened MessageTable
  import E = Exchange
  import ExchangeSafety
  import SendGuarantees
  import F = Fanout
  import FanoutSafety
  import Delivery
  import Client
  import Db = MessageStore

  datatype Event = Send(send: E.Event) | Deliver(delivery: F.Event)

  /** The exchanges' part of a run. */
  function Sends(run: seq<Event>): seq<E.Event> {
    if run == [] then []
    else
      var last := run[|run| - 1];
      Sends(run[..|run| - 1]) + if last.Send? then [last.send] else []
  }

  ghost function World(run: seq<Event>): Option<E.World> {
    E.After(Sends(run))
  }

  /** The engine's part: its own events, and whatever the exchanges ask of the store. */
  ghost function Deliveries(run: seq<Event>): seq<F.Event> {
    if run == [] then []
    else
      var earlier, last := run[..|run| - 1], run[|run| - 1];
      Deliveries(earlier) + if last.Deliver? then [last.delivery] else Stored(World(earlier), last.send)
  }

  ghost function Stored(world: Option<E.World>, ev: E.Event): seq<F.Event> {
    if world.None? || !E.Enabled(world.value, ev) || E.Request(world.value, ev).None? then []
    else [F.Storage(E.Request(world.value, ev).value)]
  }

  /** Each event needs only its own side's permission. */
  ghost predicate IsRun(replicas: nat, run: seq<Event>) {
    run == [] ||
    var earlier, last := run[..|run| - 1], run[|run| - 1];
    && IsRun(replicas, earlier)
    && match last
       case Send(ev) => World(earlier).Some? && E.Enabled(World(earlier).value, ev)
       case Deliver(d) =>
         !d.Storage? && Engine(replicas, earlier).Some? && F.Enabled(Engine(replicas, earlier).value, d)
  }

  ghost function Engine(replicas: nat, run: seq<Event>): Option<F.System> {
    F.After(replicas, Deliveries(run))
  }

  lemma SendSteps(events: seq<E.Event>, ev: E.Event)
    requires E.After(events).Some? && E.Enabled(E.After(events).value, ev)
    ensures E.After(events + [ev]) == Some(E.Step(E.After(events).value, ev))
  {
    assert (events + [ev])[..|events|] == events;
  }

  lemma DeliverySteps(replicas: nat, events: seq<F.Event>, d: F.Event)
    requires F.After(replicas, events).Some? && F.Enabled(F.After(replicas, events).value, d)
    ensures F.After(replicas, events + [d]) == Some(F.Step(F.After(replicas, events).value, d))
  {
    assert (events + [d])[..|events|] == events;
  }

  /** A run of each machine, over one and the same store. */
  ghost predicate Paired(sends: seq<E.Event>, w: E.World, replicas: nat, deliveries: seq<F.Event>, s: F.System) {
    E.After(sends) == Some(w) && F.After(replicas, deliveries) == Some(s) && w.store == s.store
  }

  /** The two machines never part: a joint run is a run of each, over one and the same store, and no
      step of an exchange is ever refused by the engine. */
  lemma {:induction false} OneStore(replicas: nat, run: seq<Event>)
    requires IsRun(replicas, run)
    ensures World(run).Some? && Engine(replicas, run).Some?
    ensures Paired(Sends(run), World(run).value, replicas, Deliveries(run), Engine(replicas, run).value)
  {
    if run != [] {
      var earlier, last := run[..|run| - 1], run[|run| - 1];
      OneStore(replicas, earlier);
      var w, s := World(earlier).value, Engine(replicas, earlier).value;
      if last.Send? {
        ExchangeSafety.Reachable(Sends(earlier));
        SendSteps(Sends(earlier), last.send);
        SendGuarantees.ExchangeDrivesFanout(w, last.send, s);
        if E.Request(w, last.send).Some? {
          DeliverySteps(replicas, Deliveries(earlier), F.Storage(E.Request(w, last.send).value));
        } else {
          assert Deliveries(run) == Deliveries(earlier) + [] == Deliveries(earlier);
        }
      } else {
        assert Sends(run) == Sends(earlier) + [] == Sends(earlier);
        DeliverySteps(replicas, Deliveries(earlier), last.delivery);
      }
    }
  }

  /** No exchange is still under way with a row it wrote, and none failed short of its reply's broadcast. */
  ghost predicate AllFinished(w: E.World) {
    forall i :: 0 <= i < |w.exchanges| && E.Wrote(w.exchanges[i]).Some? ==> E.Finished(w.exchanges[i])
  }

  /** Once every exchange that wrote a row has finished, every committed row has been published. */
  lemma FinishedMeansPublished(events: seq<E.Event>)
    requires E.After(events).Some? && AllFinished(E.After(events).value)
    ensures var store := E.After(events).value.store;
            Contained(store.table, store.published) && Contained(store.published, store.table)
  {
    var w := E.After(events).value;
    ExchangeSafety.Reachable(events);
    SendGuarantees.RowsAreAuthored(events);
    forall m | m in w.store.table && m.role.User? ensures m in w.store.published && E.Complete(w, m) {
      var j :| 0 <= j < |w.exchanges| && E.Wrote(w.exchanges[j]) == Some(m);
      assert E.WroteInv(w, w.exchanges[j]);
    }
    forall m | m in w.store.table && m.role.Assistant? ensures m in w.store.published {
      SendGuarantees.RepliesFollow(events, m);
      var row := w.answers[m.id];
      assert E.Complete(w, row);
      var reply :| reply in w.store.published && reply.role.Assistant? && reply.id in w.answers && w.answers[reply.id] == row;
      assert reply.id == m.id && reply in w.store.table;
    }
  }

  // What holds of any two runs of one store, and so of every joint run.

  /** End to end: whatever the schedule of sends, retries and their failures, and however ids and commits
      were reordered, when the exchanges have finished and a served client's queue is drained, the client
      has rebuilt exactly the conversation above its cursor, if nothing failed on the delivery path. */
  lemma ClientsCatchUp(sends: seq<E.Event>, w: E.World, replicas: nat, deliveries: seq<F.Event>, s: F.System, i: F.SocketId)
    requires Paired(sends, w, replicas, deliveries, s)
    requires Delivery.FaultFree(deliveries) && AllFinished(w)
    requires i < |s.sockets| && s.sockets[i].replica < |s.replicas|
    requires s.sockets[i].phase.Serving? && s.sockets[i].cursor.Some?
    requires Delivery.Drained(s.replicas[s.sockets[i].replica], i, s.sockets[i])
    ensures var k := s.sockets[i];
            Client.SeenSet(Delivery.Received(k.log), k.cursor.value) == Select(w.store.table, k.conversation, k.cursor, None)
  {
    FinishedMeansPublished(sends);
    Delivery.FaultFreeReconnect(replicas, deliveries, i);
  }

  /** Idempotence as clients see it: on whatever sockets, replicas and paths two messages of one
      conversation with one client key are received, they are the same message. */
  lemma OneMessagePerKey(sends: seq<E.Event>, w: E.World, replicas: nat, deliveries: seq<F.Event>, s: F.System,
                         i: F.SocketId, j: F.SocketId, m: Message, n: Message)
    requires Paired(sends, w, replicas, deliveries, s)
    requires i < |s.sockets| && m in Delivery.Received(s.sockets[i].log)
    requires j < |s.sockets| && n in Delivery.Received(s.sockets[j].log)
    requires Db.SameKey(m, n)
    ensures m == n
  {
    SendGuarantees.SendsAreIdempotent(sends);
    Delivery.OnlyCommittedRows(replicas, deliveries, i);
    Delivery.OnlyCommittedRows(replicas, deliveries, j);
  }

  /** A client that receives a reply and the message it answers live receives the message first. */
  lemma QuestionComesFirst(sends: seq<E.Event>, w: E.World, replicas: nat, deliveries: seq<F.Event>, s: F.System,
                           i: F.SocketId, a: nat, b: nat)
    requires Paired(sends, w, replicas, deliveries, s) && i < |s.sockets|
    requires a < |F.Lives(s.sockets[i].log)| && b < |F.Lives(s.sockets[i].log)|
    requires var question, reply := F.Lives(s.sockets[i].log)[a].message, F.Lives(s.sockets[i].log)[b].message;
             reply.role.Assistant? && reply.id in w.answers && w.answers[reply.id] == question
    ensures a < b
  {
    var published := w.store.published;
    var x := F.Lives(s.sockets[i].log);
    Delivery.LiveOrderAgrees(replicas, deliveries, s, i, i, a, b, a, b);
    Delivery.LiveOrderAgrees(replicas, deliveries, s, i, i, b, a, b, a);
    SendGuarantees.RepliesArePublishedAfter(sends);
    assert published[x[b].at] == x[b].message && published[x[a].at] == x[a].message;
    var at :| 0 <= at < x[b].at && published[..x[b].at][at] == x[a].message;
    SendGuarantees.SendsAreIdempotent(sends);
    assert published[at] == published[x[a].at];
    assert at == x[a].at;
  }
}
