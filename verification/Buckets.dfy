/** The map of live sockets: one non-empty bucket per conversation that has any. The element type is
    left open, so that the same functions specify the heap classes and the interleaved machine. */
module Buckets {
  import opened Values

  type Buckets<T> = map<ConversationId, set<T>>

  function Members<T>(b: Buckets<T>, conversation: ConversationId): set<T> {
    if conversation in b then b[conversation] else {}
  }

  /** Every socket registered anywhere. */
  function SocketsOf<T>(b: Buckets<T>): set<T> {
    set conversation, socket | conversation in b && socket in b[conversation] :: socket
  }

  function Registered<T>(b: Buckets<T>, conversation: ConversationId, socket: T): Buckets<T> {
    b[conversation := Members(b, conversation) + {socket}]
  }

  function Unregistered<T>(b: Buckets<T>, conversation: ConversationId, socket: T): Buckets<T> {
    if conversation !in b then b
    else if b[conversation] - {socket} != {} then b[conversation := b[conversation] - {socket}]
    else b - {conversation}
  }

  function UnregisteredAll<T>(b: Buckets<T>, conversation: ConversationId, dead: set<T>): Buckets<T> {
    if conversation !in b then b
    else if b[conversation] - dead != {} then b[conversation := b[conversation] - dead]
    else b - {conversation}
  }

  /** The map never holds an empty bucket. */
  ghost predicate NoEmptyBucket<T>(b: Buckets<T>) {
    forall conversation :: conversation in b ==> b[conversation] != {}
  }

  lemma BucketsStayNonEmpty<T>(b: Buckets<T>, conversation: ConversationId, socket: T, dead: set<T>)
    requires NoEmptyBucket(b)
    ensures NoEmptyBucket(Registered(b, conversation, socket))
    ensures NoEmptyBucket(Unregistered(b, conversation, socket))
    ensures NoEmptyBucket(UnregisteredAll(b, conversation, dead))
  {
    var r := Registered(b, conversation, socket);
    assert socket in r[conversation];
  }

  /** Membership after each update. */
  lemma MembersAfter<T>(b: Buckets<T>, conversation: ConversationId, socket: T, dead: set<T>)
    ensures forall x :: Members(Registered(b, conversation, socket), x) == Members(b, x) + if x == conversation then {socket} else {}
    ensures forall x :: Members(Unregistered(b, conversation, socket), x) == Members(b, x) - if x == conversation then {socket} else {}
    ensures forall x :: Members(UnregisteredAll(b, conversation, dead), x) == Members(b, x) - if x == conversation then dead else {}
  {
  }

  /** A rolled-back first registration leaves no trace. */
  lemma RegisterThenUnregister<T>(b: Buckets<T>, conversation: ConversationId, socket: T)
    requires NoEmptyBucket(b) && socket !in Members(b, conversation)
    ensures Unregistered(Registered(b, conversation, socket), conversation, socket) == b
  {
    var r := Registered(b, conversation, socket);
    assert r[conversation] - {socket} == Members(b, conversation);
    if conversation !in b {
      assert r - {conversation} == b;
    }
  }

  lemma UnregisterOneMore<T>(b: Buckets<T>, conversation: ConversationId, dead: set<T>, socket: T)
    requires NoEmptyBucket(b)
    ensures Unregistered(UnregisteredAll(b, conversation, dead), conversation, socket) == UnregisteredAll(b, conversation, dead + {socket})
  {
    if conversation in b {
      assert b[conversation] - dead - {socket} == b[conversation] - (dead + {socket});
    }
  }

  lemma UnregisterNone<T>(b: Buckets<T>, conversation: ConversationId)
    requires NoEmptyBucket(b)
    ensures UnregisteredAll(b, conversation, {}) == b
  {
    if conversation in b {
      assert b[conversation] - {} == b[conversation];
    }
  }
}
