/** Pub/sub keeps nothing for a replica that is not listening: a publish it misses is never delivered live. */
module MissedPublishes {
  import opened Values
  import opened Fanout
  import Rep = ReplicaMachine
  import Db = MessageStore
  import FanoutSafety

  /** The replica is connected, and subscribed to the conversation. */
  predicate Listens(p: Rep.Replica, conversation: nat) {
    p.linked && conversation in p.subscriptions
  }

  /** The message published at this position is neither queued at the replica, nor being broadcast there, nor
      in the log of any of its sockets. */
  ghost predicate Missed(s: System, r: nat, at: nat) {
    && r < |s.replicas| && at < |s.store.published|
    && PacketsAvoid(s.replicas[r], at)
    && forall i :: 0 <= i < |s.sockets| && s.sockets[i].replica == r ==> LogAvoids(s.sockets[i], at)
  }

  ghost predicate PacketsAvoid(p: Rep.Replica, at: nat) {
    && (forall q :: q in p.inbox ==> q.at != at)
    && (p.reader.Broadcasting? ==> p.reader.packet.at != at)
  }

  ghost predicate LogAvoids(k: Socket, at: nat) {
    forall q :: q in Lives(k.log) ==> q.at != at
  }

  lemma EventAvoids(p: Rep.Replica, e: Rep.Event, at: nat)
    requires Rep.Enabled(p, e) && PacketsAvoid(p, at) && (e.Arrives? ==> e.packet.at != at)
    ensures PacketsAvoid(Rep.Step(p, e), at)
  {
    match e
    case ReadPacket =>
      assert p.inbox[0] in p.inbox;
      assert forall q :: q in p.inbox[1..] ==> q in p.inbox;
    case LinkDrops(kept) => assert forall q :: q in p.inbox[..kept] ==> q in p.inbox;
    case _ =>
  }

  lemma SocketAvoids(p: Rep.Replica, e: Rep.Event, now: nat, i: SocketId, k: Socket, at: nat)
    requires Rep.Enabled(p, e) && PacketsAvoid(p, at) && LogAvoids(k, at)
    ensures LogAvoids(Effect(p, e, now, i, k), at)
  {
    if e.SendOk? && e.socket == i {
      ProjectAppend(k.log, Live(p.reader.packet));
    } else {
      assert Effect(p, e, now, i, k).log == k.log;
    }
  }

  lemma ReplicaStaysDeaf(s: System, e: Event, r: nat, at: nat)
    requires Enabled(s, e) && Missed(s, r, at)
    ensures PacketsAvoid(Step(s, e).replicas[r], at)
  {
    if e.At? && e.replica == r {
      EventAvoids(s.replicas[r], e.event, at);
    } else if e.Storage? && e.action.Publish? {
      var packet := Rep.Packet(|s.store.published|, e.action.row);
      if Rep.Enabled(s.replicas[r], Rep.Arrives(packet)) {
        EventAvoids(s.replicas[r], Rep.Arrives(packet), at);
      }
    }
  }

  lemma SocketStaysDeaf(s: System, e: Event, r: nat, at: nat, i: SocketId)
    requires Enabled(s, e) && Missed(s, r, at) && i < |s.sockets|
    ensures Step(s, e).sockets[i].replica == s.sockets[i].replica
    ensures s.sockets[i].replica == r ==> LogAvoids(Step(s, e).sockets[i], at)
  {
    if e.At? && e.replica == r && s.sockets[i].replica == r {
      SocketAvoids(s.replicas[r], e.event, |s.store.published|, i, s.sockets[i], at);
    } else if e == ReplayFrame(i) {
      ProjectAppend(s.sockets[i].log, Replayed(s.sockets[i].phase.rest[0]));
    }
  }

  lemma StepStaysMissed(s: System, e: Event, r: nat, at: nat)
    requires Enabled(s, e) && Missed(s, r, at)
    ensures Missed(Step(s, e), r, at)
  {
    ReplicaStaysDeaf(s, e, r, at);
    forall i | 0 <= i < |s.sockets|
      ensures Step(s, e).sockets[i].replica == s.sockets[i].replica
      ensures s.sockets[i].replica == r ==> LogAvoids(Step(s, e).sockets[i], at)
    {
      SocketStaysDeaf(s, e, r, at, i);
    }
  }

  /** A publish is queued at a replica exactly if the replica listens; otherwise it is missed. */
  lemma HeardIffListening(s: System, row: Message, r: nat)
    requires Inv(s) && Enabled(s, Storage(Db.Publish(row))) && r < |s.replicas|
    ensures var s', at := Step(s, Storage(Db.Publish(row))), |s.store.published|;
            && (Listens(s.replicas[r], row.conversation) ==> s'.replicas[r].inbox == s.replicas[r].inbox + [Rep.Packet(at, row)])
            && (!Listens(s.replicas[r], row.conversation) ==> Missed(s', r, at))
  {
    var s', at := Step(s, Storage(Db.Publish(row))), |s.store.published|;
    assert ReplicaInv(s, r);
    if !Listens(s.replicas[r], row.conversation) {
      forall i | 0 <= i < |s.sockets| && s.sockets[i].replica == r ensures LogAvoids(s.sockets[i], at) {
        assert SocketInv(s, i);
      }
    }
  }

  /** However the run goes on, reconnects included, no socket of a replica that was not listening when a
      message was published ever gets it live. */
  lemma {:induction false} MissedForGood(replicas: nat, events: seq<Event>, row: Message, more: seq<Event>, r: nat)
    requires After(replicas, events).Some? && r < |After(replicas, events).value.replicas|
    requires !Listens(After(replicas, events).value.replicas[r], row.conversation)
    requires After(replicas, events + [Storage(Db.Publish(row))] + more).Some?
    ensures Missed(After(replicas, events + [Storage(Db.Publish(row))] + more).value, r, |After(replicas, events).value.store.published|)
  {
    var published := events + [Storage(Db.Publish(row))];
    if more == [] {
      assert published + more == published && published[..|events|] == events;
      FanoutSafety.Reachable(replicas, events);
      HeardIffListening(After(replicas, events).value, row, r);
    } else {
      var less, e := more[..|more| - 1], more[|more| - 1];
      assert (published + more)[..|published + more| - 1] == published + less;
      MissedForGood(replicas, events, row, less, r);
      StepStaysMissed(After(replicas, published + less).value, e, r, |After(replicas, events).value.store.published|);
    }
  }

  /** What was queued on a connection is lost with it: a dropped link loses all but a first part of the queue,
      and a reconnect the rest. */
  lemma QueueIsLost(s: System, r: nat, e: Rep.Event, n: nat)
    requires Inv(s) && Enabled(s, At(r, e)) && n < |s.replicas[r].inbox|
    requires e.ReconnectBegins? || (e.LinkDrops? && e.kept <= n && !s.replicas[r].reader.Broadcasting?)
    ensures Missed(Step(s, At(r, e)), r, s.replicas[r].inbox[n].at)
  {
    var p, q := s.replicas[r], s.replicas[r].inbox[n];
    var s' := Step(s, At(r, e));
    assert ReplicaInv(s, r) && q in p.inbox;
    assert e.LinkDrops? ==> forall j :: 0 <= j < |s'.replicas[r].inbox| ==> s'.replicas[r].inbox[j] == p.inbox[j];
    forall i | 0 <= i < |s'.sockets| && s'.sockets[i].replica == r ensures LogAvoids(s'.sockets[i], q.at) {
      assert SocketInv(s, i);
      assert s'.sockets[i].log == s.sockets[i].log;
    }
  }
}
