/** The two locks of a replica, told by the events of a run: who comes between a beginning and its end. */
module Locks {
  import opened Values
  import opened ReplicaMachine

  predicate TakesConnection(e: Event) {
    e.SubscribeBegins? || e.UnsubscribeBegins? || e.ReconnectBegins?
  }

  predicate ReleasesConnection(e: Event) {
    || e.SubscribeReturns? || e.SubscribeRaises? || e.UnsubscribeReturns? || e.UnsubscribeRaises?
    || e.ReconnectDone? || e.ReconnectRaises?
  }

  predicate Reads(e: Event) {
    e.ReadNothing? || e.ReadFails? || e.ReadPacket?
  }

  /** A subscribe, unsubscribe or reconnect has begun and not ended. */
  predicate ConnectionTaken(events: seq<Event>) {
    events != [] &&
    var last := events[|events| - 1];
    TakesConnection(last) || (!ReleasesConnection(last) && ConnectionTaken(events[..|events| - 1]))
  }

  lemma {:induction false} TakenIffHeld(events: seq<Event>)
    requires After(events).Some?
    ensures ConnectionTaken(events) <==> !After(events).value.pubsub.Unheld?
  {
    if events != [] {
      TakenIffHeld(events[..|events| - 1]);
      HeldAfter(After(events[..|events| - 1]).value, events[|events| - 1]);
    }
  }

  lemma HeldAfter(p: Replica, e: Event)
    requires Enabled(p, e)
    ensures Step(p, e).pubsub.Unheld? <==> !TakesConnection(e) && (ReleasesConnection(e) || p.pubsub.Unheld?)
  {
  }

  /** Over every run, nothing else touches the pub/sub connection between the beginning and the end of a
      subscribe, an unsubscribe or a reconnect: no read, and no second one of these. */
  lemma ConnectionIsExclusive(events: seq<Event>, e: Event)
    requires After(events).Some? && Enabled(After(events).value, e)
    ensures ConnectionTaken(events) ==> !Reads(e) && !TakesConnection(e)
    ensures !ConnectionTaken(events) ==> !ReleasesConnection(e)
  {
    TakenIffHeld(events);
    ReplicaSafety(events);
  }

  /** A first join or a last leave has begun and not ended. */
  predicate RegistryTaken(events: seq<Event>) {
    events != [] &&
    var earlier, last := events[..|events| - 1], events[|events| - 1];
    if last.JoinBegins? || last.LeaveBegins? then Waits(After(earlier), last)
    else !(last.SubscribeReturns? || last.SubscribeRaises? || last.UnsubscribeReturns? || last.UnsubscribeRaises?)
         && RegistryTaken(earlier)
  }

  /** A join into an empty conversation waits for its subscribe, the leave of an only socket for its
      unsubscribe; others are over at once. */
  predicate Waits(p: Option<Replica>, e: Event)
    requires e.JoinBegins? || e.LeaveBegins?
  {
    p.Some? &&
    if e.JoinBegins? then e.conversation !in p.value.sockets || p.value.sockets[e.conversation] == {}
    else e.conversation in p.value.sockets && p.value.sockets[e.conversation] <= {e.socket}
  }

  lemma {:induction false} RegistryTakenIffHeld(events: seq<Event>)
    requires After(events).Some?
    ensures RegistryTaken(events) <==> !After(events).value.registry.Free?
  {
    if events != [] {
      var earlier, last := events[..|events| - 1], events[|events| - 1];
      RegistryTakenIffHeld(earlier);
      if last.LeaveBegins? && last.conversation in After(earlier).value.sockets {
        NothingLeft(After(earlier).value.sockets[last.conversation], last.socket);
      }
    }
  }

  lemma NothingLeft(bucket: set<SocketId>, socket: SocketId)
    ensures bucket <= {socket} <==> bucket - {socket} == {}
  {
    if bucket - {socket} == {} {
      forall x | x in bucket ensures x in {socket} {
        assert x !in bucket - {socket};
      }
    }
  }

  /** Over every run, no join or leave begins while another waits for its subscribe or unsubscribe. */
  lemma RegistryIsExclusive(events: seq<Event>, e: Event)
    requires After(events).Some? && Enabled(After(events).value, e)
    ensures RegistryTaken(events) ==> !e.JoinBegins? && !e.LeaveBegins?
  {
    RegistryTakenIffHeld(events);
  }
}
