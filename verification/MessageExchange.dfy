/** The send flow as the code runs it: one call, start to finish, against the shared store. */
module MessageExchange {
  import opened Values
  import opened MessageTable
  import E = Exchange
  import ExchangeSafety
  import Db = MessageStore

  /** The first step of a call to raise, and whether its effect had been applied by then. */
  datatype Fault =
    | NoFault
    | LookupRaises
    | InsertRaises
    | CommitRaises(applied: bool)
    | PublishRaises(reached: bool)
    | ResponderRaises
    | ReplyInsertRaises
    | ReplyCommitRaises(applied: bool)
    | ReplyPublishRaises(reached: bool)

  datatype Result = ConversationNotFound | NotParticipant | Raised | Sent(message: Message, created: bool)

  /** How many of the user row and its reply are durable after a fault, and how many were broadcast. */
  function Durable(f: Fault): nat {
    match f
    case NoFault => 2
    case LookupRaises => 0
    case InsertRaises => 0
    case CommitRaises(applied) => if applied then 1 else 0
    case PublishRaises(_) => 1
    case ResponderRaises => 1
    case ReplyInsertRaises => 1
    case ReplyCommitRaises(applied) => if applied then 2 else 1
    case ReplyPublishRaises(_) => 2
  }

  function Broadcast(f: Fault): nat
    ensures Broadcast(f) <= Durable(f)
  {
    match f
    case NoFault => 2
    case LookupRaises => 0
    case InsertRaises => 0
    case CommitRaises(_) => 0
    case PublishRaises(reached) => if reached then 1 else 0
    case ResponderRaises => 1
    case ReplyInsertRaises => 1
    case ReplyCommitRaises(_) => 1
    case ReplyPublishRaises(reached) => if reached then 2 else 1
  }

  function InsertAll(rows: seq<Message>, more: seq<Message>): seq<Message>
    decreases |more|
  {
    if more == [] then rows else InsertAll(Insert(rows, more[0]), more[1..])
  }

  /** What each fault leaves: the user row is durable unless the fault came before its commit was applied, and
      broadcast unless it came before its publish reached Redis; the reply likewise. */
  lemma FaultsInOrder(f: Fault)
    ensures Durable(f) >= 1 <==> !f.LookupRaises? && !f.InsertRaises? && f != CommitRaises(false)
    ensures Broadcast(f) >= 1 <==> Durable(f) >= 1 && !f.CommitRaises? && f != PublishRaises(false)
    ensures Durable(f) == 2 <==> f.NoFault? || f == ReplyCommitRaises(true) || f.ReplyPublishRaises?
    ensures Durable(f) <= 2
    ensures Broadcast(f) == 2 <==> f.NoFault? || f == ReplyPublishRaises(true)
  {
  }

  /** Both rows are stored and broadcast, the reply after the message. */
  ghost predicate Completed(before: Db.Store, after: Db.Store, user: Message, answer: Message) {
    after.table == Insert(Insert(before.table, user), answer) && after.published == before.published + [user, answer]
  }

  /** The send has a key and a row of the conversation already carries it. */
  ghost predicate Taken(table: seq<Message>, conversation: ConversationId, key: Option<ClientKey>) {
    key.Some? && exists m :: m in table && m.conversation == conversation && m.key == key
  }

  /** What an ack promises: it is of an earlier row if and only if the send has a key and the table already
      held a row of the conversation under it, and then of that row; otherwise of the sender's own message,
      which is now stored and broadcast, and answered. */
  ghost predicate Meets(before: Db.Store, after: Db.Store, conversation: ConversationId, sender: UserId, content: string,
                        key: Option<ClientKey>, reply: string, message: Message, created: bool)
  {
    && (!created <==> Taken(before.table, conversation, key))
    && (!created ==> message in before.table && message.conversation == conversation && message.key == key && after == before)
    && (created ==>
          && message == Message(before.nextId, conversation, Some(sender), User, content, key)
          && Completed(before, after, message, Message(before.nextId + 1, conversation, None, Assistant, reply, None)))
  }

  lemma CarriedWhole(before: Db.Store, after: Db.Store, user: Message, answer: Message)
    requires Carried(before, after, [user, answer], NoFault)
    ensures Completed(before, after, user, answer)
  {
    assert [user, answer][..2] == [user, answer] && [user, answer][1..] == [answer] && [answer][1..] == [];
    assert InsertAll(before.table, [user, answer]) == InsertAll(Insert(before.table, user), [answer]);
  }

  /** How an authorized send ends: raised in the lookup, as a duplicate of a stored row, or carried as far as
      its fault lets it. */
  ghost predicate Settles(before: Db.Store, after: Db.Store, conversation: ConversationId, sender: UserId, content: string,
                          key: Option<ClientKey>, reply: string, fault: Fault, r: Result)
  {
    var duplicate := Duplicate(before.table, conversation, key);
    var user := Message(before.nextId, conversation, Some(sender), User, content, key);
    var answer := Message(before.nextId + 1, conversation, None, Assistant, reply, None);
    if fault.LookupRaises? then r == Raised && after == before
    else if duplicate.Some? then r == Sent(duplicate.value, false) && after == before
    else r == (if fault.NoFault? then Sent(user, true) else Raised) && Carried(before, after, [user, answer], fault)
  }

  /** The exchange of the machine has ended as the call has. */
  ghost predicate Concludes(x: E.Exchange, r: Result) {
    if r.Sent? then x.stage == E.Acked(r.message, r.created) else x.stage.Failed?
  }

  /** Of the user row and its reply, exactly those ahead of the fault were stored, and broadcast. */
  ghost predicate Carried(before: Db.Store, after: Db.Store, rows: seq<Message>, fault: Fault)
    requires |rows| == 2
  {
    && after.table == InsertAll(before.table, rows[..Durable(fault)])
    && after.published == before.published + rows[..Broadcast(fault)]
  }

  class MessageExchange {
    var store: Db.Store
    /** A run of the exchange machine that has led to this store. */
    ghost var run: seq<E.Event>

    ghost predicate Valid()
      reads this
    {
      E.After(run).Some? && E.After(run).value.store == store
    }

    constructor ()
      ensures Valid() && store == Db.EMPTY
    {
      store := Db.EMPTY;
      run := [];
    }

    /** One step of the current exchange, mirrored in the machine. */
    method Perform(ghost ev: E.Event, action: Option<Db.Action>)
      requires Valid() && E.Enabled(E.After(run).value, ev) && action == E.Request(E.After(run).value, ev)
      modifies this
      ensures Valid() && E.After(run) == Some(E.Step(E.After(old(run)).value, ev))
      ensures store == if action.Some? then Db.Do(old(store), action.value) else old(store)
    {
      ghost var more := run + [ev];
      assert more[..|more| - 1] == run;
      run := more;
      if action.Some? {
        store := Db.Do(store, action.value);
      }
    }

    /** Alone on the store: a stranger and a duplicate change nothing, the duplicate being acked with the
        stored row; a fresh send writes and broadcasts the user row and its reply, in that order, each
        broadcast only once durable; a fault at any step leaves exactly what was done before it. */
    method Exchange(participants: Option<set<UserId>>, conversation: ConversationId, sender: UserId, content: string,
                    key: Option<ClientKey>, reply: string, fault: Fault) returns (r: Result)
      requires Valid() && store.inflight == map[]
      modifies this
      ensures Valid() && store.inflight == map[]
      ensures if participants.None? then r == ConversationNotFound && store == old(store)
              else if sender !in participants.value then r == NotParticipant && store == old(store)
              else Settles(old(store), store, conversation, sender, content, key, reply, fault, r)
      ensures r.Sent? ==> Meets(old(store), store, conversation, sender, content, key, reply, r.message, r.created)
      ensures var e := |old(E.After(run)).value.exchanges|;
              |E.After(run).value.exchanges| == e + 1 && Concludes(E.After(run).value.exchanges[e], r)
    {
      ghost var e := Begin(conversation, sender, content, key);
      if participants.None? {
        Refuse(e);
        return ConversationNotFound;
      }
      if sender !in participants.value {
        Refuse(e);
        return NotParticipant;
      }
      r := Check(e, conversation, sender, content, key, reply, fault);
    }

    method Begin(conversation: ConversationId, sender: UserId, content: string, key: Option<ClientKey>) returns (ghost e: nat)
      requires Valid()
      modifies this
      ensures Valid() && store == old(store)
      ensures e == old(|E.After(run).value.exchanges|) && |E.After(run).value.exchanges| == e + 1
      ensures E.After(run).value.exchanges[e] == E.Exchange(conversation, sender, content, key, E.Checking)
    {
      e := |E.After(run).value.exchanges|;
      Perform(E.Receive(conversation, sender, content, key), None);
    }

    method Refuse(ghost e: nat)
      requires Valid() && e < |E.After(run).value.exchanges| && E.After(run).value.exchanges[e].stage.Checking?
      modifies this
      ensures Valid() && store == old(store)
      ensures |E.After(run).value.exchanges| == old(|E.After(run).value.exchanges|)
      ensures E.After(run).value.exchanges[e].stage.Failed?
    {
      Perform(E.GiveUp(e), None);
    }

    /** The pre-flight check of an authorized send. */
    method Check(ghost e: nat, conversation: ConversationId, sender: UserId, content: string, key: Option<ClientKey>,
                 reply: string, fault: Fault) returns (r: Result)
      requires Valid() && store.inflight == map[]
      requires e < |E.After(run).value.exchanges|
      requires E.After(run).value.exchanges[e] == E.Exchange(conversation, sender, content, key, E.Checking)
      modifies this
      ensures Valid() && store.inflight == map[]
      ensures |E.After(run).value.exchanges| == old(|E.After(run).value.exchanges|) && Concludes(E.After(run).value.exchanges[e], r)
      ensures Settles(old(store), store, conversation, sender, content, key, reply, fault, r)
      ensures r.Sent? ==> Meets(old(store), store, conversation, sender, content, key, reply, r.message, r.created)
    {
      if fault.LookupRaises? {
        Perform(E.GiveUp(e), None);
        return Raised;
      }
      var existing := Duplicate(store.table, conversation, key);
      if existing.Some? {
        Perform(E.FindDuplicate(e), None);
        return Sent(existing.value, false);
      }
      Perform(E.FindNone(e), None);
      r := Write(e, conversation, sender, content, key, reply, fault);
    }

    /** The part after the pre-flight check. */
    method Write(ghost e: nat, conversation: ConversationId, sender: UserId, content: string, key: Option<ClientKey>,
                 reply: string, fault: Fault) returns (r: Result)
      requires Valid() && store.inflight == map[] && !fault.LookupRaises?
      requires e < |E.After(run).value.exchanges|
      requires E.After(run).value.exchanges[e] == E.Exchange(conversation, sender, content, key, E.Inserting)
      requires Duplicate(store.table, conversation, key).None?
      modifies this
      ensures Valid() && store.inflight == map[]
      ensures |E.After(run).value.exchanges| == old(|E.After(run).value.exchanges|) && Concludes(E.After(run).value.exchanges[e], r)
      ensures var user := Message(old(store.nextId), conversation, Some(sender), User, content, key);
              var answer := Message(old(store.nextId) + 1, conversation, None, Assistant, reply, None);
              r == (if fault.NoFault? then Sent(user, true) else Raised) && Carried(old(store), store, [user, answer], fault)
      ensures r.Sent? ==> Completed(old(store), store, r.message, Message(old(store.nextId) + 1, conversation, None, Assistant, reply, None))
    {
      var user := Message(store.nextId, conversation, Some(sender), User, content, key);
      ghost var answer := Message(store.nextId + 1, conversation, None, Assistant, reply, None);
      ghost var before := store;
      if fault.InsertRaises? {
        CarriedToCommit(before, before, user, answer, fault);
        Perform(E.GiveUp(e), None);
        return Raised;
      }
      Persist(e, conversation, sender, content, key, user, fault);
      ghost var stored := store;
      if fault.CommitRaises? {
        CarriedToCommit(before, stored, user, answer, fault);
        return Raised;
      }
      r := Announce(e, user, reply, fault);
      CarriedOn(before, stored, store, user, answer, fault);
      if fault.NoFault? {
        CarriedWhole(before, store, user, answer);
      }
    }

    /** The user row's own transaction. */
    method Persist(ghost e: nat, conversation: ConversationId, sender: UserId, content: string, key: Option<ClientKey>,
                   user: Message, fault: Fault)
      requires Valid() && store.inflight == map[]
      requires e < |E.After(run).value.exchanges|
      requires E.After(run).value.exchanges[e] == E.Exchange(conversation, sender, content, key, E.Inserting)
      requires Duplicate(store.table, conversation, key).None?
      requires user == Message(store.nextId, conversation, Some(sender), User, content, key)
      modifies this
      ensures Valid() && store.inflight == map[]
      ensures |E.After(run).value.exchanges| == old(|E.After(run).value.exchanges|)
      ensures fault.CommitRaises? ==> E.After(run).value.exchanges[e].stage.Failed?
      ensures store.nextId == old(store.nextId) + 1 && store.published == old(store.published)
      ensures store.table == if fault == CommitRaises(false) then old(store.table) else Insert(old(store.table), user)
      ensures !fault.CommitRaises? ==>
                && e < |E.After(run).value.exchanges|
                && var x := E.After(run).value.exchanges[e]; x.stage == E.Stored(user) && x.conversation == conversation
    {
      Perform(E.Insert(e), Some(Db.Flush(user)));
      if fault == CommitRaises(false) {
        Perform(E.Rollback(e), Some(Db.Rollback(user.id)));
      } else if fault == CommitRaises(true) {
        Perform(E.CommitUnknown(e), Some(Db.Commit(user.id)));
      } else {
        Perform(E.Commit(e), Some(Db.Commit(user.id)));
      }
    }

    /** The broadcast of a user row that has just been committed, and its reply. */
    method Announce(ghost e: nat, user: Message, reply: string, fault: Fault) returns (r: Result)
      requires Valid() && store.inflight == map[] && Durable(fault) > 0 && !fault.CommitRaises?
      requires e < |E.After(run).value.exchanges|
      requires var x := E.After(run).value.exchanges[e]; x.stage == E.Stored(user) && x.conversation == user.conversation
      modifies this
      ensures Valid() && store.inflight == map[]
      ensures |E.After(run).value.exchanges| == old(|E.After(run).value.exchanges|) && Concludes(E.After(run).value.exchanges[e], r)
      ensures var answer := Message(old(store.nextId), user.conversation, None, Assistant, reply, None);
              && r == (if fault.NoFault? then Sent(user, true) else Raised)
              && store.table == InsertAll(old(store.table), [answer][..Durable(fault) - 1])
              && store.published == old(store.published) + [user, answer][..Broadcast(fault)]
    {
      ghost var answer := Message(store.nextId, user.conversation, None, Assistant, reply, None);
      assert [user, answer][..1] == [user] && [answer][..0] == [];
      if fault.PublishRaises? {
        Perform(E.PublishRaises(e, fault.reached), if fault.reached then Some(Db.Publish(user)) else None);
        return Raised;
      }
      Perform(E.Publish(e), Some(Db.Publish(user)));
      r := Answer(e, user, reply, fault);
      assert [user, answer][..Broadcast(fault)] == [user] + [answer][..Broadcast(fault) - 1];
    }

    /** The reply to a user row that has just been broadcast. */
    method Answer(ghost e: nat, user: Message, reply: string, fault: Fault) returns (r: Result)
      requires Valid() && store.inflight == map[] && Durable(fault) > 0 && Broadcast(fault) > 0 && !fault.PublishRaises?
      requires e < |E.After(run).value.exchanges|
      requires var x := E.After(run).value.exchanges[e]; x.stage == E.Announced(user) && x.conversation == user.conversation
      modifies this
      ensures Valid() && store.inflight == map[]
      ensures |E.After(run).value.exchanges| == old(|E.After(run).value.exchanges|) && Concludes(E.After(run).value.exchanges[e], r)
      ensures var answer := Message(old(store.nextId), user.conversation, None, Assistant, reply, None);
              && r == (if fault.NoFault? then Sent(user, true) else Raised)
              && store.table == InsertAll(old(store.table), [answer][..Durable(fault) - 1])
              && store.published == old(store.published) + [answer][..Broadcast(fault) - 1]
    {
      var answer := Message(store.nextId, user.conversation, None, Assistant, reply, None);
      NoneOrAll(store.table, answer);
      if fault.ResponderRaises? || fault.ReplyInsertRaises? {
        Perform(E.GiveUp(e), None);
        return Raised;
      }
      PersistReply(e, user, reply, answer, fault);
      if fault.ReplyCommitRaises? {
        return Raised;
      }
      r := AnnounceReply(e, user, answer, fault);
    }

    /** The reply's own transaction. */
    method PersistReply(ghost e: nat, user: Message, reply: string, answer: Message, fault: Fault)
      requires Valid() && store.inflight == map[]
      requires e < |E.After(run).value.exchanges|
      requires var x := E.After(run).value.exchanges[e]; x.stage == E.Announced(user) && x.conversation == user.conversation
      requires answer == Message(store.nextId, user.conversation, None, Assistant, reply, None)
      modifies this
      ensures Valid() && store.inflight == map[] && store.published == old(store.published)
      ensures |E.After(run).value.exchanges| == old(|E.After(run).value.exchanges|)
      ensures fault.ReplyCommitRaises? ==> E.After(run).value.exchanges[e].stage.Failed?
      ensures store.table == if fault == ReplyCommitRaises(false) then old(store.table) else Insert(old(store.table), answer)
      ensures !fault.ReplyCommitRaises? ==>
                && e < |E.After(run).value.exchanges|
                && E.After(run).value.exchanges[e].stage == E.ReplyStored(user, answer)
    {
      Perform(E.InsertReply(e, reply), Some(Db.Flush(answer)));
      if fault == ReplyCommitRaises(false) {
        Perform(E.Rollback(e), Some(Db.Rollback(answer.id)));
      } else if fault == ReplyCommitRaises(true) {
        Perform(E.CommitUnknown(e), Some(Db.Commit(answer.id)));
      } else {
        Perform(E.Commit(e), Some(Db.Commit(answer.id)));
      }
    }

    /** The broadcast of a reply that has just been committed. */
    method AnnounceReply(ghost e: nat, user: Message, answer: Message, fault: Fault) returns (r: Result)
      requires Valid() && store.inflight == map[] && (fault.NoFault? || fault.ReplyPublishRaises?)
      requires e < |E.After(run).value.exchanges|
      requires E.After(run).value.exchanges[e].stage == E.ReplyStored(user, answer)
      modifies this
      ensures Valid() && store.inflight == map[] && store.table == old(store.table)
      ensures |E.After(run).value.exchanges| == old(|E.After(run).value.exchanges|) && Concludes(E.After(run).value.exchanges[e], r)
      ensures r == (if fault.NoFault? then Sent(user, true) else Raised)
      ensures store.published == old(store.published) + if Broadcast(fault) == 2 then [answer] else []
    {
      if fault.ReplyPublishRaises? {
        Perform(E.PublishRaises(e, fault.reached), if fault.reached then Some(Db.Publish(answer)) else None);
        return Raised;
      }
      Perform(E.Publish(e), Some(Db.Publish(answer)));
      r := Sent(user, true);
    }
  }

  lemma NoneOrAll(rows: seq<Message>, answer: Message)
    ensures [answer][..0] == [] && [answer][..1] == [answer]
    ensures InsertAll(rows, []) == rows && InsertAll(rows, [answer]) == Insert(rows, answer)
  {
    assert [answer][1..] == [];
  }

  /** A fault no later than the first commit. */
  lemma CarriedToCommit(before: Db.Store, after: Db.Store, user: Message, answer: Message, fault: Fault)
    requires Durable(fault) <= 1 && Broadcast(fault) == 0
    requires after.published == before.published
    requires after.table == if Durable(fault) == 1 then Insert(before.table, user) else before.table
    ensures Carried(before, after, [user, answer], fault)
  {
    assert [user, answer][..1] == [user] && [user][1..] == [];
  }

  /** A fault after the first commit, or none. */
  lemma CarriedOn(before: Db.Store, stored: Db.Store, after: Db.Store, user: Message, answer: Message, fault: Fault)
    requires Durable(fault) >= 1
    requires stored.table == Insert(before.table, user) && stored.published == before.published
    requires after.table == InsertAll(stored.table, [answer][..Durable(fault) - 1])
    requires after.published == stored.published + [user, answer][..Broadcast(fault)]
    ensures Carried(before, after, [user, answer], fault)
  {
    var rows := [user, answer][..Durable(fault)];
    assert rows[0] == user && rows[1..] == [answer][..Durable(fault) - 1];
  }
}
