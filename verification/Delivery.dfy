/** What the engine promises its clients, in every reachable state. */
module Delivery {
  import opened Values
  import opened Buckets
  import opened MessageTable
  import opened Fanout
  import Rep = ReplicaMachine
  import Db = MessageStore
  import Replay
  import FanoutSafety
  import Client

  /** Nothing of the socket's conversation is still queued for it at its replica. */
  ghost predicate Drained(p: Rep.Replica, i: SocketId, k: Socket) {
    && (forall q :: q in p.inbox ==> q.message.conversation != k.conversation)
    && !(p.reader.Broadcasting? && i in p.reader.todo)
  }

  function Received(log: seq<Delivery>): seq<Message> {
    if log == [] then []
    else
      var last := log[|log| - 1];
      Received(log[..|log| - 1]) + [if last.Live? then last.packet.message else last.message]
  }

  lemma {:induction false} ReceivedMembers(log: seq<Delivery>)
    ensures forall m :: m in Received(log) <==> Replayed(m) in log || exists q :: Live(q) in log && q.message == m
  {
    if log != [] {
      var earlier, last := log[..|log| - 1], log[|log| - 1];
      ReceivedMembers(earlier);
      assert log == earlier + [last];
      forall m ensures m in Received(log) <==> Replayed(m) in log || exists q :: Live(q) in log && q.message == m {
        if m in Received(log) {
          if m in Received(earlier) {
            if Replayed(m) !in earlier {
              var q :| Live(q) in earlier && q.message == m;
              assert Live(q) in log;
            }
          } else if last.Live? {
            assert Live(last.packet) in log;
          }
        }
        if exists q :: Live(q) in log && q.message == m {
          var q :| Live(q) in log && q.message == m;
          assert Live(q) in earlier || last == Live(q);
        }
      }
    }
  }

  /** No gap at the seam: after the backlog is sent and the queue drained, a committed row above the
      cursor that has been published has reached the socket. Ids may have committed out of order and
      rows between two replay pages; other sockets, replicas and conversations may have failed. */
  lemma NoGap(replicas: nat, events: seq<Event>, i: SocketId, m: Message)
    requires After(replicas, events).Some? && i < |After(replicas, events).value.sockets|
    requires var s := After(replicas, events).value;
             var k := s.sockets[i];
             && k.phase.Serving? && k.cursor.Some? && Intact(k)
             && k.replica < |s.replicas| && Drained(s.replicas[k.replica], i, k)
             && m in s.store.table && m in s.store.published && Matches(m, k.conversation, k.cursor, None)
    ensures m in Received(After(replicas, events).value.sockets[i].log)
  {
    var s := After(replicas, events).value;
    var k := s.sockets[i];
    FanoutSafety.Reachable(replicas, events);
    assert SocketInv(s, i);
    ReceivedMembers(k.log);
    if Replayed(m) !in k.log {
      var published := s.store.published;
      assert !Owed(k, m) && m !in published[..k.since];
      var at :| 0 <= at < |published| && published[at] == m;
      assert forall j :: 0 <= j < k.since ==> published[..k.since][j] == published[j];
      assert Covered(s.replicas[k.replica], i, k, Rep.Packet(at, published[at]));
      assert Live(Rep.Packet(at, m)) in k.log;
    }
  }

  /** Everything a client receives, live or replayed, is a committed row of its own conversation. */
  lemma OnlyCommittedRows(replicas: nat, events: seq<Event>, i: SocketId)
    requires After(replicas, events).Some? && i < |After(replicas, events).value.sockets|
    ensures var s := After(replicas, events).value;
            forall m :: m in Received(s.sockets[i].log) ==> m in s.store.table && m.conversation == s.sockets[i].conversation
  {
    var s := After(replicas, events).value;
    var k := s.sockets[i];
    FanoutSafety.Reachable(replicas, events);
    assert SocketInv(s, i);
    ReceivedMembers(k.log);
    ProjectMembers(k.log);
    forall m | m in Received(k.log) ensures m in s.store.table && m.conversation == k.conversation {
      if Replayed(m) in k.log {
        assert m in Backlog(k);
      } else {
        var q :| Live(q) in k.log && q.message == m;
        assert q in Lives(k.log) && m in s.store.published;
      }
    }
  }

  /** The seen-set client sorting by id holds, at such a moment and once everything committed has been
      published, exactly the tail of the table above its cursor. */
  lemma SeenSetRebuildsTail(replicas: nat, events: seq<Event>, i: SocketId)
    requires After(replicas, events).Some? && i < |After(replicas, events).value.sockets|
    requires var s := After(replicas, events).value;
             var k := s.sockets[i];
             && k.phase.Serving? && k.cursor.Some? && Intact(k)
             && k.replica < |s.replicas| && Drained(s.replicas[k.replica], i, k)
             && Contained(s.store.table, s.store.published)
    ensures var s := After(replicas, events).value;
            var k := s.sockets[i];
            Client.SeenSet(Received(k.log), k.cursor.value) == Select(s.store.table, k.conversation, k.cursor, None)
  {
    var s := After(replicas, events).value;
    var k := s.sockets[i];
    var frames := Received(k.log);
    FanoutSafety.Reachable(replicas, events);
    OnlyCommittedRows(replicas, events, i);
    AscendingNames(s.store.table, frames);
    Client.SeenSetIsSorted(frames, k.cursor.value);
    SelectMembers(s.store.table, k.conversation, k.cursor, None);
    SelectAscending(s.store.table, k.conversation, k.cursor, None);
    forall m | m in Select(s.store.table, k.conversation, k.cursor, None) ensures m in frames {
      NoGap(replicas, events, i, m);
    }
    AscendingUnique(Client.SeenSet(frames, k.cursor.value), Select(s.store.table, k.conversation, k.cursor, None));
  }

  lemma AscendingNames(table: seq<Message>, frames: seq<Message>)
    requires Ascending(table) && Contained(frames, table)
    ensures Client.IdsName(frames)
  {
    forall m, n | m in frames && n in frames && m.id == n.id ensures m == n {
      assert m in table && n in table;
    }
  }

  /** At most twice: a client gets each message at most once by replay and at most once live. */
  lemma AtMostOnceEachWay(replicas: nat, events: seq<Event>, i: SocketId)
    requires After(replicas, events).Some? && i < |After(replicas, events).value.sockets|
    ensures var k := After(replicas, events).value.sockets[i];
            && (forall a, b :: 0 <= a < b < |Lives(k.log)| ==> Lives(k.log)[a].message != Lives(k.log)[b].message)
            && Ascending(Replays(k.log))
  {
    var s := After(replicas, events).value;
    var k := s.sockets[i];
    FanoutSafety.Reachable(replicas, events);
    assert SocketInv(s, i);
    var sent := Lives(k.log);
    forall a, b | 0 <= a < b < |sent| ensures sent[a].message != sent[b].message {
      assert sent[a] in sent && sent[b] in sent;
    }
    forall a, b | 0 <= a < b < |Replays(k.log)| ensures Replays(k.log)[a].id < Replays(k.log)[b].id {
      assert Backlog(k)[a] == Replays(k.log)[a] && Backlog(k)[b] == Replays(k.log)[b];
    }
  }

  /** Agreement: whatever two clients of a conversation both receive live, on whatever replicas, they
      receive in the same order, which is the order of publication. */
  lemma LiveOrderAgrees(replicas: nat, events: seq<Event>, s: System, i: SocketId, j: SocketId, a: nat, b: nat, c: nat, d: nat)
    requires After(replicas, events) == Some(s) && i < |s.sockets| && j < |s.sockets|
    requires a < |Lives(s.sockets[i].log)| && b < |Lives(s.sockets[i].log)|
    requires c < |Lives(s.sockets[j].log)| && d < |Lives(s.sockets[j].log)|
    requires Lives(s.sockets[i].log)[a].message == Lives(s.sockets[j].log)[c].message
    requires Lives(s.sockets[i].log)[b].message == Lives(s.sockets[j].log)[d].message
    ensures var x := Lives(s.sockets[i].log);
            && (a < b <==> c < d)
            && (a < b <==> x[a].at < x[b].at)
            && PublishedAt(x[a], s.store.published)
  {
    FanoutSafety.Reachable(replicas, events);
    assert SocketInv(s, i) && SocketInv(s, j);
    OrderAgrees(s.store.published, Lives(s.sockets[i].log), Lives(s.sockets[j].log), a, b, c, d);
  }

  lemma OrderAgrees(published: seq<Message>, x: seq<Rep.Packet>, y: seq<Rep.Packet>, a: nat, b: nat, c: nat, d: nat)
    requires Db.Distinct(published) && Rising(x) && Rising(y)
    requires forall q :: q in x || q in y ==> PublishedAt(q, published)
    requires a < |x| && b < |x| && c < |y| && d < |y|
    requires x[a].message == y[c].message && x[b].message == y[d].message
    ensures (a < b <==> c < d) && (a < b <==> x[a].at < x[b].at) && PublishedAt(x[a], published)
  {
    assert x[a] in x && x[b] in x && y[c] in y && y[d] in y;
    assert x[a].at == y[c].at && x[b].at == y[d].at;
  }

  // Runs without faults on the delivery path.

  predicate Benign(e: Event) {
    e.At? ==> !e.event.LinkDrops? && !e.event.ReadFails? && !e.event.SendRaises? && !e.event.Drain?
  }

  ghost predicate FaultFree(events: seq<Event>) {
    forall e :: e in events ==> Benign(e)
  }

  ghost predicate Healthy(p: Rep.Replica) {
    p.linked && !p.reader.Backoff? && !p.reader.Crashed? && !p.pubsub.Resubscribing?
  }

  ghost predicate AllHealthy(s: System) {
    && (forall r :: 0 <= r < |s.replicas| ==> Healthy(s.replicas[r]))
    && (forall i :: 0 <= i < |s.sockets| ==> !s.sockets[i].failed && (Joined(s.sockets[i]) ==> s.sockets[i].linkOk))
  }

  lemma BenignEventKeepsSocket(p: Rep.Replica, e: Rep.Event, now: nat, i: SocketId, k: Socket)
    requires Rep.Inv(p) && Rep.Enabled(p, e) && Healthy(p)
    requires !e.LinkDrops? && !e.ReadFails? && !e.SendRaises? && !e.Drain?
    requires !k.failed && (Joined(k) ==> k.linkOk)
    ensures Healthy(Rep.Step(p, e))
    ensures var k' := Effect(p, e, now, i, k); !k'.failed && (Joined(k') ==> k'.linkOk)
  {
  }

  lemma BenignStepKeepsHealth(s: System, e: Event)
    requires Inv(s) && Enabled(s, e) && AllHealthy(s) && Benign(e)
    ensures AllHealthy(Step(s, e))
  {
    var s' := Step(s, e);
    if e.At? {
      var p := s.replicas[e.replica];
      assert ReplicaInv(s, e.replica);
      forall i | 0 <= i < |s'.sockets| ensures !s'.sockets[i].failed && (Joined(s'.sockets[i]) ==> s'.sockets[i].linkOk) {
        BenignEventKeepsSocket(p, e.event, |s.store.published|, i, s.sockets[i]);
      }
      BenignEventKeepsSocket(p, e.event, 0, 0, Socket(0, 0, None, Opened, false, false, 0, []));
    }
  }

  lemma {:induction false} FaultFreeRunsStayHealthy(replicas: nat, events: seq<Event>)
    requires After(replicas, events).Some? && FaultFree(events)
    ensures AllHealthy(After(replicas, events).value)
  {
    if events != [] {
      var earlier, e := events[..|events| - 1], events[|events| - 1];
      FaultFreeRunsStayHealthy(replicas, earlier);
      FanoutSafety.Reachable(replicas, earlier);
      assert Benign(e);
      BenignStepKeepsHealth(After(replicas, earlier).value, e);
    }
  }

  /** In a run without such faults every reconnecting client, once its queue is drained and everything
      committed is published, has rebuilt exactly the tail above its cursor. */
  lemma FaultFreeReconnect(replicas: nat, events: seq<Event>, i: SocketId)
    requires After(replicas, events).Some? && FaultFree(events)
    requires i < |After(replicas, events).value.sockets|
    requires var s := After(replicas, events).value;
             var k := s.sockets[i];
             && k.phase.Serving? && k.cursor.Some?
             && k.replica < |s.replicas| && Drained(s.replicas[k.replica], i, k)
             && Contained(s.store.table, s.store.published)
    ensures var s := After(replicas, events).value;
            var k := s.sockets[i];
            Client.SeenSet(Received(k.log), k.cursor.value) == Select(s.store.table, k.conversation, k.cursor, None)
  {
    FaultFreeRunsStayHealthy(replicas, events);
    SeenSetRebuildsTail(replicas, events, i);
  }
}
