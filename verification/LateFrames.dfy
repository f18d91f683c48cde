/** What a socket receives live after its handler has left, and after its replica's reader has ended. */
module LateFrames {
  import opened Values
  import opened Buckets
  import opened Fanout
  import Rep = ReplicaMachine
  import FanoutSafety
  import SeamWitness

  // After the leave.

  /** Only a socket whose handler is between its join and its leave is on its replica's roll. */
  ghost predicate OnRoll(p: Rep.Replica, i: SocketId, k: Socket) {
    forall conversation :: i in Members(p.sockets, conversation) ==> Enlisted(k)
  }

  ghost predicate Rolls(s: System) {
    forall i :: 0 <= i < |s.sockets| ==> s.sockets[i].replica < |s.replicas| && OnRoll(s.replicas[s.sockets[i].replica], i, s.sockets[i])
  }

  lemma EventKeepsRoll(p: Rep.Replica, e: Rep.Event, now: nat, i: SocketId, k: Socket)
    requires Rep.Enabled(p, e) && Local(p, i, k) && OnRoll(p, i, k)
    requires e.JoinBegins? && e.socket == i ==> k.phase.Opened? && e.conversation == k.conversation
    requires e.LeaveBegins? && e.socket == i ==> Joined(k) && e.conversation == k.conversation
    ensures OnRoll(Rep.Step(p, e), i, Effect(p, e, now, i, k))
  {
    match e
    case JoinBegins(conversation, c) => MembersAfter(p.sockets, conversation, c, {});
    case LeaveBegins(conversation, c) => MembersAfter(p.sockets, conversation, c, {});
    case SubscribeRaises => MembersAfter(p.sockets, p.registry.conversation, p.registry.socket, {});
    case BroadcastDone => MembersAfter(p.sockets, p.reader.packet.message.conversation, 0, p.reader.dead);
    case _ =>
  }

  lemma StepKeepsRolls(s: System, e: Event)
    requires Inv(s) && Enabled(s, e) && Rolls(s)
    ensures Rolls(Step(s, e))
  {
    var s' := Step(s, e);
    forall i | 0 <= i < |s'.sockets|
      ensures s'.sockets[i].replica < |s'.replicas| && OnRoll(s'.replicas[s'.sockets[i].replica], i, s'.sockets[i])
    {
      if i < |s.sockets| {
        assert SocketInv(s, i);
        StepKeepsRoll(s, e, i);
      } else {
        assert ReplicaInv(s, e.replica);
        forall conversation ensures i !in Members(s.replicas[e.replica].sockets, conversation) {
          assert Below(Members(s.replicas[e.replica].sockets, conversation), |s.sockets|);
        }
      }
    }
  }

  lemma StepKeepsRoll(s: System, e: Event, i: SocketId)
    requires Enabled(s, e) && i < |s.sockets| && SocketInv(s, i) && OnRoll(s.replicas[s.sockets[i].replica], i, s.sockets[i])
    ensures var s' := Step(s, e);
            s'.sockets[i].replica == s.sockets[i].replica < |s'.replicas| && OnRoll(s'.replicas[s'.sockets[i].replica], i, s'.sockets[i])
  {
    if e.At? && e.replica == s.sockets[i].replica {
      EventKeepsRoll(s.replicas[e.replica], e.event, |s.store.published|, i, s.sockets[i]);
    }
  }

  lemma {:induction false} RollsAreKept(replicas: nat, events: seq<Event>)
    requires After(replicas, events).Some?
    ensures Rolls(After(replicas, events).value)
  {
    if events != [] {
      var earlier, e := events[..|events| - 1], events[|events| - 1];
      RollsAreKept(replicas, earlier);
      FanoutSafety.Reachable(replicas, earlier);
      StepKeepsRolls(After(replicas, earlier).value, e);
    }
  }

  /** The packet a replica is broadcasting to a snapshot that still holds the socket. */
  function Pending(p: Rep.Replica, i: SocketId): Option<Rep.Packet> {
    if p.reader.Broadcasting? && i in p.reader.todo then Some(p.reader.packet) else None
  }

  /** One event at the replica of a socket that has left. */
  lemma EventAfterLeave(p: Rep.Replica, e: Rep.Event, now: nat, i: SocketId, k: Socket)
    requires Rep.Enabled(p, e) && Local(p, i, k) && OnRoll(p, i, k) && k.phase.Closed?
    requires (e.JoinBegins? && e.socket == i ==> k.phase.Opened?) && (e.LeaveBegins? && e.socket == i ==> Joined(k))
    ensures var k', pending := Effect(p, e, now, i, k), Pending(p, i);
            && k'.phase.Closed?
            && if e == Rep.SendOk(i)
               then pending.Some? && k'.log == k.log + [Live(pending.value)] && Pending(Rep.Step(p, e), i).None?
               else k'.log == k.log && (Pending(Rep.Step(p, e), i) == pending || Pending(Rep.Step(p, e), i).None?)
  {
    if e == Rep.SendOk(i) {
      assert Effect(p, e, now, i, k).log == k.log + [Live(p.reader.packet)];
    } else {
      StaysClosed(p, e, now, i, k);
    }
  }

  lemma StaysClosed(p: Rep.Replica, e: Rep.Event, now: nat, i: SocketId, k: Socket)
    requires Rep.Enabled(p, e) && Local(p, i, k) && OnRoll(p, i, k) && k.phase.Closed? && e != Rep.SendOk(i)
    requires (e.JoinBegins? && e.socket == i ==> k.phase.Opened?) && (e.LeaveBegins? && e.socket == i ==> Joined(k))
    ensures Effect(p, e, now, i, k).phase.Closed? && Effect(p, e, now, i, k).log == k.log
    ensures Pending(Rep.Step(p, e), i) == Pending(p, i) || Pending(Rep.Step(p, e), i).None?
  {
    match e
    case ReadPacket => assert i !in Members(p.sockets, p.inbox[0].message.conversation);
    case _ =>
  }

  /** Where a closed socket stands: its phase and replica stay, its log is `log` plus at most the one
      pending frame, and it has that frame exactly if it was sent it. */
  ghost predicate Lingers(s: System, i: SocketId, replica: nat, log: seq<Delivery>, pending: Option<Rep.Packet>, sent: bool)
    requires i < |s.sockets|
  {
    var k := s.sockets[i];
    && k.phase.Closed? && k.replica == replica < |s.replicas|
    && if sent then pending.Some? && k.log == log + [Live(pending.value)] && Pending(s.replicas[replica], i).None?
       else k.log == log && (Pending(s.replicas[replica], i) == pending || Pending(s.replicas[replica], i).None?)
  }

  lemma StepLingers(s: System, e: Event, i: SocketId, replica: nat, log: seq<Delivery>, pending: Option<Rep.Packet>, sent: bool)
    requires Enabled(s, e) && i < |s.sockets| && SocketInv(s, i) && OnRoll(s.replicas[s.sockets[i].replica], i, s.sockets[i])
    requires Lingers(s, i, replica, log, pending, sent)
    ensures i < |Step(s, e).sockets|
    ensures Lingers(Step(s, e), i, replica, log, pending, sent || e == At(replica, Rep.SendOk(i)))
  {
    if e.At? && e.replica == replica {
      EventAfterLeave(s.replicas[replica], e.event, |s.store.published|, i, s.sockets[i]);
    }
  }

  /** "No frame after the leave" fails by one frame at most: however the run goes on, a closed socket's log
      grows only by the packet whose snapshot was taken before the leave, and exactly if it is sent then. */
  lemma {:induction false} FramesAfterLeave(replicas: nat, events: seq<Event>, more: seq<Event>, i: SocketId)
    requires After(replicas, events).Some? && After(replicas, events + more).Some?
    requires i < |After(replicas, events).value.sockets| && After(replicas, events).value.sockets[i].phase.Closed?
    ensures i < |After(replicas, events + more).value.sockets|
    ensures var s := After(replicas, events).value;
            var k := s.sockets[i];
            && k.replica < |s.replicas|
            && Lingers(After(replicas, events + more).value, i, k.replica, k.log, Pending(s.replicas[k.replica], i),
                       At(k.replica, Rep.SendOk(i)) in more)
  {
    var s := After(replicas, events).value;
    RollsAreKept(replicas, events);
    if more == [] {
      assert events + more == events;
    } else {
      var less, e := more[..|more| - 1], more[|more| - 1];
      assert (events + more)[..|events + more| - 1] == events + less;
      assert more == less + [e];
      FramesAfterLeave(replicas, events, less, i);
      FanoutSafety.Reachable(replicas, events + less);
      RollsAreKept(replicas, events + less);
      var k := s.sockets[i];
      assert SocketInv(After(replicas, events + less).value, i);
      StepLingers(After(replicas, events + less).value, e, i, k.replica, k.log, Pending(s.replicas[k.replica], i),
                  At(k.replica, Rep.SendOk(i)) in less);
    }
  }

  /** It does fail: a run whose client gets a live frame after its leave has begun. */
  lemma FrameAfterLeave() returns (events: seq<Event>, more: seq<Event>)
    ensures After(1, events).Some? && After(1, events + more).Some?
    ensures var before, after := After(1, events).value, After(1, events + more).value;
            && |before.sockets| == |after.sockets| == 1
            && before.sockets[0].phase.Closed? && before.sockets[0].log == []
            && after.sockets[0].log == [Live(Rep.Packet(1, SeamWitness.SECOND))]
  {
    var q := Rep.Packet(1, SeamWitness.SECOND);
    events := SeamWitness.ReadRun(q);
    var k := SeamWitness.READING.(phase := Streaming([SeamWitness.FIRST]));
    var p1 := SeamWitness.SUBSCRIBED.(reader := Rep.Broadcasting(q, {0}, {}));
    events := SeamWitness.ExtendAt(events, SeamWitness.TWO_ROWS, p1, k, Rep.LeaveBegins(0, 0));
    assert {0} - {0} == {} && map[0 := {0}] - {0} == map[];
    var p2 := p1.(sockets := map[], registry := Rep.Leaving(0));
    var all := SeamWitness.ExtendAt(events, SeamWitness.TWO_ROWS, p2, k.(phase := Closed), Rep.SendOk(0));
    more := [At(0, Rep.SendOk(0))];
  }

  // After the end of the reader.

  lemma EventAfterEnd(p: Rep.Replica, e: Rep.Event, now: nat, i: SocketId, k: Socket)
    requires Rep.Inv(p) && Rep.Enabled(p, e) && p.reader.Crashed?
    ensures Rep.Step(p, e).reader.Crashed? && Effect(p, e, now, i, k).log == k.log
  {
    Rep.CrashedStays(p, e);
  }

  ghost predicate DeafSince(s: System, r: nat, before: seq<Socket>) {
    && r < |s.replicas| && s.replicas[r].reader.Crashed?
    && |before| <= |s.sockets|
    && (forall i :: 0 <= i < |before| ==> s.sockets[i].replica == before[i].replica)
    && (forall i :: 0 <= i < |s.sockets| && s.sockets[i].replica == r ==>
          Lives(s.sockets[i].log) == if i < |before| then Lives(before[i].log) else [])
  }

  lemma StepStaysDeaf(s: System, e: Event, r: nat, before: seq<Socket>)
    requires Inv(s) && Enabled(s, e) && DeafSince(s, r, before)
    ensures DeafSince(Step(s, e), r, before)
  {
    assert ReplicaInv(s, r);
    if e.At? && e.replica == r {
      Rep.CrashedStays(s.replicas[r], e.event);
    }
    forall i | 0 <= i < |s.sockets|
      ensures Step(s, e).sockets[i].replica == s.sockets[i].replica
      ensures s.sockets[i].replica == r ==> Lives(Step(s, e).sockets[i].log) == Lives(s.sockets[i].log)
    {
      SocketStaysDeaf(s, e, r, i);
    }
  }

  lemma SocketStaysDeaf(s: System, e: Event, r: nat, i: SocketId)
    requires Enabled(s, e) && r < |s.replicas| && s.replicas[r].reader.Crashed? && ReplicaInv(s, r) && i < |s.sockets|
    ensures Step(s, e).sockets[i].replica == s.sockets[i].replica
    ensures s.sockets[i].replica == r ==> Lives(Step(s, e).sockets[i].log) == Lives(s.sockets[i].log)
  {
    if e.At? && e.replica == r && s.sockets[i].replica == r {
      EventAfterEnd(s.replicas[r], e.event, |s.store.published|, i, s.sockets[i]);
    } else if e == ReplayFrame(i) {
      ProjectAppend(s.sockets[i].log, Replayed(s.sockets[i].phase.rest[0]));
    }
  }

  /** An ended reader is the end of live delivery at its replica: in every continuation no socket of the
      replica, present or still to connect, gets another live frame. */
  lemma {:induction false} EndedReaderIsDeaf(replicas: nat, events: seq<Event>, more: seq<Event>, r: nat)
    requires After(replicas, events).Some? && After(replicas, events + more).Some?
    requires r < |After(replicas, events).value.replicas| && After(replicas, events).value.replicas[r].reader.Crashed?
    ensures DeafSince(After(replicas, events + more).value, r, After(replicas, events).value.sockets)
  {
    if more == [] {
      assert events + more == events;
    } else {
      var less, e := more[..|more| - 1], more[|more| - 1];
      assert (events + more)[..|events + more| - 1] == events + less;
      EndedReaderIsDeaf(replicas, events, less, r);
      FanoutSafety.Reachable(replicas, events + less);
      StepStaysDeaf(After(replicas, events + less).value, e, r, After(replicas, events).value.sockets);
    }
  }

  /** A client in the receive loop, and a row that is committed and published but will never reach it live. */
  lemma UnservedClient() returns (events: seq<Event>)
    ensures After(1, events).Some?
    ensures var s := After(1, events).value;
            && |s.sockets| == |s.replicas| == 1
            && s.replicas[0].reader.Crashed? && s.sockets[0].phase.Serving? && !s.sockets[0].failed
            && SeamWitness.SECOND in s.store.table && SeamWitness.SECOND in s.store.published
            && Lives(s.sockets[0].log) == []
  {
    var k := SeamWitness.READING.(phase := Serving, log := [Replayed(SeamWitness.FIRST)], linkOk := false);
    var p := SeamWitness.SUBSCRIBED.(subscriptions := {}, reader := Rep.Crashed);
    events := EndedRun(k, p);
    SeamWitness.RowsInOrder();
    events := SeamWitness.ExtendRow(events, SeamWitness.ONE_ROW, p, [k], SeamWitness.SECOND);
    assert After(1, events) == Some(System(SeamWitness.TWO_ROWS, [p], [k]));
    NothingLive(SeamWitness.FIRST);
  }

  lemma NothingLive(m: Message)
    ensures Lives([Replayed(m)]) == []
  {
    ProjectAppend([], Replayed(m));
    assert [] + [Replayed(m)] == [Replayed(m)];
  }

  /** The client is served before the reader ends. */
  lemma ServedRun(k: Socket) returns (events: seq<Event>)
    requires k == SeamWitness.READING.(phase := Serving, log := [Replayed(SeamWitness.FIRST)])
    ensures After(1, events) == Some(System(SeamWitness.ONE_ROW, [SeamWitness.SUBSCRIBED], [k]))
  {
    events := SeamWitness.PagedRun();
    var k0 := SeamWitness.READING.(phase := Streaming([SeamWitness.FIRST]));
    assert [SeamWitness.FIRST][1..] == [] && [] + [Replayed(SeamWitness.FIRST)] == [Replayed(SeamWitness.FIRST)];
    assert SendFrame(k0) == k;
    events := SeamWitness.Extend(events, ReplayFrame(0));
    assert [k0][0 := k] == [k];
  }

  lemma EndedRun(k: Socket, p: Rep.Replica) returns (events: seq<Event>)
    requires k == SeamWitness.READING.(phase := Serving, log := [Replayed(SeamWitness.FIRST)], linkOk := false)
    requires p == SeamWitness.SUBSCRIBED.(subscriptions := {}, reader := Rep.Crashed)
    ensures After(1, events) == Some(System(SeamWitness.ONE_ROW, [p], [k]))
  {
    var k1 := k.(linkOk := true);
    events := ServedRun(k1);
    var p0 := SeamWitness.SUBSCRIBED;
    events := SeamWitness.ExtendAt(events, SeamWitness.ONE_ROW, p0, k1, Rep.Poll);
    events := SeamWitness.ExtendAt(events, SeamWitness.ONE_ROW, p0.(reader := Rep.Polling), k1, Rep.ReadFails);
    events := Reconnected(events, k1, k, p0.(reader := Rep.Backoff), p);
  }

  lemma Reconnected(before: seq<Event>, k1: Socket, k: Socket, p0: Rep.Replica, p: Rep.Replica) returns (events: seq<Event>)
    requires After(1, before) == Some(System(SeamWitness.ONE_ROW, [p0], [k1]))
    requires p0 == SeamWitness.SUBSCRIBED.(reader := Rep.Backoff) && p == p0.(subscriptions := {}, reader := Rep.Crashed)
    requires k1.replica == 0 && k == k1.(linkOk := false)
    ensures After(1, events) == Some(System(SeamWitness.ONE_ROW, [p], [k]))
  {
    events := SeamWitness.ExtendAt(before, SeamWitness.ONE_ROW, p0, k1, Rep.ReconnectBegins);
    var p1 := p0.(subscriptions := {}, pubsub := Rep.Resubscribing({0}));
    events := SeamWitness.ExtendAt(events, SeamWitness.ONE_ROW, p1, k, Rep.ReconnectRaises);
  }
}
