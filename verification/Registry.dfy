/** Ties a socket's local registration to the conversation's Redis subscription. */
module Registry {
  import opened Values
  import opened Buckets
  import opened ConnectionManager
  import opened Subscriber

  class ConversationRegistry {
    const manager: ConnectionManager
    const subscriber: RedisConversationSubscriber

    /** Between calls, every conversation with a local socket is subscribed. */
    ghost predicate Valid()
      reads this, manager, subscriber, subscriber.pubsub
    {
      && manager.Valid() && subscriber.Valid()
      && manager.connections.Keys <= subscriber.channels
    }

    constructor (manager: ConnectionManager, subscriber: RedisConversationSubscriber)
      requires manager.Valid() && subscriber.Valid() && manager.connections.Keys <= subscriber.channels
      ensures this.manager == manager && this.subscriber == subscriber && Valid()
    {
      this.manager := manager;
      this.subscriber := subscriber;
    }

    /** Only a first socket subscribes; a refused subscribe leaves the sockets and the bookkeeping
        exactly as they were, so that a later join tries again. */
    method Join(conversation: ConversationId, connection: Connection, reply: Reply) returns (ok: bool)
      requires Valid() && connection !in Members(manager.connections, conversation)
      modifies manager, subscriber`channels, subscriber.pubsub
      ensures Valid()
      ensures ok <==> old(Members(manager.connections, conversation)) != {} || reply.Accepted?
      ensures ok ==> manager.connections == Registered(old(manager.connections), conversation, connection)
      ensures ok ==> subscriber.channels == old(subscriber.channels) + {conversation}
      ensures !ok ==> manager.connections == old(manager.connections) && subscriber.channels == old(subscriber.channels)
    {
      ghost var before := manager.connections;
      RegisterThenUnregister(before, conversation, connection);
      var first := manager.Register(conversation, connection);
      if !first {
        return true;
      }
      ok := subscriber.Subscribe(conversation, reply);
      if !ok {
        var last := manager.Unregister(conversation, connection);
      }
    }

    /** The last socket out unsubscribes; even a failing unsubscribe leaves the conversation free of
        the socket and out of the bookkeeping. */
    method Leave(conversation: ConversationId, connection: Connection, reply: Reply) returns (ok: bool)
      requires Valid()
      modifies manager, subscriber`channels, subscriber.pubsub
      ensures Valid()
      ensures manager.connections == Unregistered(old(manager.connections), conversation, connection)
      ensures connection !in Members(manager.connections, conversation)
      ensures subscriber.channels == old(subscriber.channels)
                - if old(Members(manager.connections, conversation)) == {connection} then {conversation} else {}
    {
      var last := manager.Unregister(conversation, connection);
      ok := true;
      if last {
        ok := subscriber.Unsubscribe(conversation, reply);
      }
    }
  }
}
