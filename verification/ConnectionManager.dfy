/** Local delivery on one replica: live sockets grouped by conversation, and the broadcast loop. */
module ConnectionManager {
  import opened Values
  import opened Buckets

  datatype Frame =
    | AuthOk
    | MessageNew(message: Message)
    | MessageAck(id: nat, key: Option<ClientKey>)
    | Error(detail: string)

  /** One live socket. A send or a close on a dead one raises. */
  class Connection {
    var alive: bool
    var sent: seq<Frame>
    var closedWith: Option<int>

    constructor (alive: bool := true)
      ensures this.alive == alive && sent == [] && closedWith == None
    {
      this.alive := alive;
      sent := [];
      closedWith := None;
    }

    method Send(frame: Frame) returns (ok: bool)
      modifies this`sent
      ensures ok == alive
      ensures sent == if alive then old(sent) + [frame] else old(sent)
    {
      ok := alive;
      if alive {
        sent := sent + [frame];
      }
    }

    method Close(code: int) returns (ok: bool)
      modifies this`alive, this`closedWith
      ensures ok == old(alive) && !alive
      ensures closedWith == if old(alive) then Some(code) else old(closedWith)
    {
      ok := alive;
      if alive {
        closedWith := Some(code);
      }
      alive := false;
    }
  }

  class ConnectionManager {
    var connections: Buckets<Connection>

    ghost predicate Valid()
      reads this
    {
      NoEmptyBucket(connections)
    }

    constructor ()
      ensures connections == map[] && Valid()
    {
      connections := map[];
    }

    /** Reports exactly the 0 to 1 transition of the conversation's sockets. */
    method Register(conversation: ConversationId, connection: Connection) returns (first: bool)
      requires Valid()
      modifies this
      ensures Valid()
      ensures connections == Registered(old(connections), conversation, connection)
      ensures first <==> old(Members(connections, conversation)) == {}
    {
      BucketsStayNonEmpty(connections, conversation, connection, {});
      var bucket := if conversation in connections then connections[conversation] else {};
      first := bucket == {};
      connections := connections[conversation := bucket + {connection}];
    }

    /** Reports exactly the 1 to 0 transition: the socket removed was the only one. */
    method Unregister(conversation: ConversationId, connection: Connection) returns (last: bool)
      requires Valid()
      modifies this
      ensures Valid()
      ensures connections == Unregistered(old(connections), conversation, connection)
      ensures last <==> old(Members(connections, conversation)) == {connection}
    {
      BucketsStayNonEmpty(connections, conversation, connection, {});
      if conversation !in connections {
        return false;
      }
      var bucket := connections[conversation] - {connection};
      if bucket != {} {
        connections := connections[conversation := bucket];
        return false;
      }
      connections := connections - {conversation};
      last := true;
    }

    /** Close every socket, dead ones included, and forget them all. */
    method CloseAll(code: int)
      modifies this, SocketsOf(connections)
      ensures connections == map[]
      ensures forall c :: c in old(SocketsOf(connections)) ==>
                && !c.alive
                && c.sent == old(c.sent)
                && c.closedWith == if old(c.alive) then Some(code) else old(c.closedWith)
    {
      var snapshot := SocketsOf(connections);
      var todo := snapshot;
      while todo != {}
        invariant todo <= snapshot == old(SocketsOf(connections)) && connections == old(connections)
        invariant forall c :: c in snapshot ==> c.sent == old(c.sent)
        invariant forall c :: c in todo ==> c.alive == old(c.alive) && c.closedWith == old(c.closedWith)
        invariant forall c :: c in snapshot - todo ==>
                    && !c.alive
                    && c.closedWith == if old(c.alive) then Some(code) else old(c.closedWith)
        decreases |todo|
      {
        var c :| c in todo;
        var ok := c.Close(code);
        todo := todo - {c};
      }
      connections := map[];
    }

    /** One frame to every healthy socket of the conversation and to no other; exactly the sockets
        whose send failed are dropped. */
    method Broadcast(conversation: ConversationId, message: Message)
      requires Valid()
      modifies this, set c | c in Members(connections, conversation) :: c`sent
      ensures Valid()
      ensures forall c :: c in old(Members(connections, conversation)) ==>
                c.sent == if c.alive then old(c.sent) + [MessageNew(message)] else old(c.sent)
      ensures connections == UnregisteredAll(old(connections), conversation,
                                           set c | c in old(Members(connections, conversation)) && !c.alive)
    {
      if conversation !in connections {
        return;
      }
      var snapshot := connections[conversation];
      var dead := SendToAll(snapshot, MessageNew(message));
      Drop(conversation, dead);
      assert dead == set c | c in snapshot && !c.alive;
    }

    /** The send loop over a snapshot: every socket is tried once, and the failed ones are listed. */
    static method SendToAll(snapshot: set<Connection>, frame: Frame) returns (dead: set<Connection>)
      modifies set c | c in snapshot :: c`sent
      ensures forall c :: c in snapshot ==> c.sent == if c.alive then old(c.sent) + [frame] else old(c.sent)
      ensures dead == set c | c in snapshot && !c.alive
    {
      var todo := snapshot;
      dead := {};
      while todo != {}
        invariant todo <= snapshot
        invariant dead == set c | c in snapshot - todo && !c.alive
        invariant forall c :: c in todo ==> c.sent == old(c.sent)
        invariant forall c :: c in snapshot - todo ==> c.sent == if c.alive then old(c.sent) + [frame] else old(c.sent)
        decreases |todo|
      {
        var c :| c in todo;
        var ok := c.Send(frame);
        if !ok {
          dead := dead + {c};
        }
        todo := todo - {c};
      }
    }

    /** The cleanup after a broadcast: unregister each dead socket in turn. */
    method Drop(conversation: ConversationId, dead: set<Connection>)
      requires Valid()
      modifies this
      ensures Valid()
      ensures connections == UnregisteredAll(old(connections), conversation, dead)
    {
      UnregisterNone(connections, conversation);
      var todo := dead;
      assert dead - todo == {};
      while todo != {}
        invariant todo <= dead && Valid()
        invariant connections == UnregisteredAll(old(connections), conversation, dead - todo)
        decreases |todo|
      {
        var c :| c in todo;
        UnregisterOneMore(old(connections), conversation, dead - todo, c);
        var last := Unregister(conversation, c);
        assert dead - todo + {c} == dead - (todo - {c});
        todo := todo - {c};
      }
      assert dead - todo == dead;
    }
  }
}
