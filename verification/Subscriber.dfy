/** The per-replica Redis subscriber: channel bookkeeping, the reader loop and its reconnect. */
module Subscriber {
  import opened Values
  import opened Buckets
  import opened ConnectionManager

  /** What became of one command: a refused one raises, and may have reached the server or not. */
  datatype Reply = Accepted | Refused(reached: bool)

  /** One pub/sub connection, with the channels the server delivers on it. */
  class PubSub {
    var subscriptions: set<ConversationId>

    constructor ()
      ensures subscriptions == {}
    {
      subscriptions := {};
    }

    method Subscribe(conversation: ConversationId, reply: Reply) returns (ok: bool)
      modifies this
      ensures ok == reply.Accepted?
      ensures subscriptions == old(subscriptions) + if reply == Refused(false) then {} else {conversation}
    {
      ok := reply.Accepted?;
      if reply != Refused(false) {
        subscriptions := subscriptions + {conversation};
      }
    }

    method Unsubscribe(conversation: ConversationId, reply: Reply) returns (ok: bool)
      modifies this
      ensures ok == reply.Accepted?
      ensures subscriptions == old(subscriptions) - if reply == Refused(false) then {} else {conversation}
    {
      ok := reply.Accepted?;
      if reply != Refused(false) {
        subscriptions := subscriptions - {conversation};
      }
    }
  }

  /** One turn of the reader: nothing in time, a control or undecodable frame, a message, or a failed
      read followed by a reconnect in which re-subscribing to `refused` raises. */
  datatype Read = Nothing | Control | Garbage | Published(message: Message) | Broken(refused: set<ConversationId>)

  /** The messages the reader hands to local delivery before it idles, crashes or runs out of reads. */
  function Delivered(turns: seq<Read>, channels: set<ConversationId>): seq<Message> {
    if turns == [] || channels == {} then []
    else match turns[0]
      case Published(m) => [m] + Delivered(turns[1..], channels)
      case Broken(refused) => if refused * channels == {} then Delivered(turns[1..], channels) else []
      case _ => Delivered(turns[1..], channels)
  }

  /** The reader outlives its reads unless some reconnect is refused a channel it still needs. */
  predicate Survives(turns: seq<Read>, channels: set<ConversationId>) {
    channels == {} || forall r :: r in turns && r.Broken? ==> r.refused * channels == {}
  }

  ghost predicate Ends(turn: Read, channels: set<ConversationId>) {
    turn.Broken? && turn.refused * channels != {}
  }

  /** How many reads the reader gets through: none without a channel, else all before the first reconnect
      that is refused. */
  function ReadsMade(turns: seq<Read>, channels: set<ConversationId>): (n: nat)
    ensures n <= |turns|
    ensures channels == {} ==> n == 0
    ensures forall i :: 0 <= i < n ==> !Ends(turns[i], channels)
    ensures channels != {} && n < |turns| ==> Ends(turns[n], channels)
  {
    if turns == [] || channels == {} || (turns[0].Broken? && turns[0].refused * channels != {}) then 0
    else
      assert forall i :: 0 < i < |turns| ==> turns[i] == turns[1..][i - 1];
      1 + ReadsMade(turns[1..], channels)
  }

  /** `picks` are, in order, the reads before the `n`-th that brought a message of the conversation. */
  ghost predicate Picks(picks: seq<nat>, turns: seq<Read>, n: nat, conversation: ConversationId)
    requires n <= |turns|
  {
    && (forall j, k :: 0 <= j < k < |picks| ==> picks[j] < picks[k])
    && (forall i: nat :: i in picks <==> i < n && turns[i].Published? && turns[i].message.conversation == conversation)
  }

  /** One frame for each of those reads, in their order, and nothing else. */
  ghost predicate Heard(frames: seq<Frame>, turns: seq<Read>, n: nat, conversation: ConversationId)
    requires n <= |turns|
  {
    exists picks :: Picks(picks, turns, n, conversation) && Echoes(frames, picks, turns)
  }

  ghost predicate Echoes(frames: seq<Frame>, picks: seq<nat>, turns: seq<Read>) {
    && |frames| == |picks|
    && forall j :: 0 <= j < |picks| ==> picks[j] < |turns| && turns[picks[j]].Published? && frames[j] == MessageNew(turns[picks[j]].message)
  }

  /** The frames one conversation's sockets are due from a run of messages. */
  function Frames(messages: seq<Message>, conversation: ConversationId): seq<Frame> {
    if messages == [] then []
    else
      var last := messages[|messages| - 1];
      Frames(messages[..|messages| - 1], conversation) + if last.conversation == conversation then [MessageNew(last)] else []
  }

  ghost predicate OneConversationEach(b: Buckets<Connection>) {
    forall x, y, c :: c in Members(b, x) && c in Members(b, y) ==> x == y
  }

  lemma FramesAppend(messages: seq<Message>, message: Message)
    ensures forall conversation :: Frames(messages + [message], conversation) == Frames(messages, conversation) + Frames([message], conversation)
  {
    assert (messages + [message])[..|messages|] == messages;
    assert [message][..0] == [];
  }

  lemma {:induction false} FramesPrepend(message: Message, messages: seq<Message>, conversation: ConversationId)
    ensures Frames([message] + messages, conversation)
            == (if message.conversation == conversation then [MessageNew(message)] else []) + Frames(messages, conversation)
  {
    if messages == [] {
      assert [message] + messages == [message] && [message][..0] == [];
    } else {
      var n := |messages| - 1;
      assert ([message] + messages)[..n + 1] == [message] + messages[..n];
      FramesPrepend(message, messages[..n], conversation);
    }
  }

  /** What is delivered, index by index: every message read gets its frame, whatever stands around it. */
  lemma {:induction false} EveryMessageIsHeard(turns: seq<Read>, channels: set<ConversationId>, conversation: ConversationId)
    returns (picks: seq<nat>)
    ensures Picks(picks, turns, ReadsMade(turns, channels), conversation)
    ensures Echoes(Frames(Delivered(turns, channels), conversation), picks, turns)
  {
    picks := [];
    if turns != [] && channels != {} && !Ends(turns[0], channels) {
      var later := EveryMessageIsHeard(turns[1..], channels, conversation);
      PicksLater(later, turns, ReadsMade(turns[1..], channels), conversation);
      EchoesLater(Frames(Delivered(turns[1..], channels), conversation), later, turns);
      picks := Shifted(later);
      if turns[0].Published? {
        FramesPrepend(turns[0].message, Delivered(turns[1..], channels), conversation);
        if turns[0].message.conversation == conversation {
          EchoesFirst(Frames(Delivered(turns[1..], channels), conversation), Shifted(later), turns);
          picks := [0] + Shifted(later);
        } else {
          assert [] + Frames(Delivered(turns[1..], channels), conversation) == Frames(Delivered(turns[1..], channels), conversation);
        }
      }
    }
  }

  lemma PicksLater(later: seq<nat>, turns: seq<Read>, n: nat, conversation: ConversationId)
    requires turns != [] && n <= |turns[1..]| && Picks(later, turns[1..], n, conversation)
    ensures var mine := turns[0].Published? && turns[0].message.conversation == conversation;
            Picks(if mine then [0] + Shifted(later) else Shifted(later), turns, n + 1, conversation)
  {
    ShiftedPicks(later, turns, n, conversation);
    var shifted := Shifted(later);
    assert forall i: nat :: i in [0] + shifted <==> i == 0 || i in shifted;
  }

  lemma EchoesLater(frames: seq<Frame>, later: seq<nat>, turns: seq<Read>)
    requires turns != [] && Echoes(frames, later, turns[1..])
    ensures Echoes(frames, Shifted(later), turns)
  {
    forall j | 0 <= j < |later| ensures Shifted(later)[j] < |turns| && turns[Shifted(later)[j]] == turns[1..][later[j]] {
    }
  }

  lemma EchoesFirst(frames: seq<Frame>, picks: seq<nat>, turns: seq<Read>)
    requires turns != [] && turns[0].Published? && Echoes(frames, picks, turns)
    ensures Echoes([MessageNew(turns[0].message)] + frames, [0] + picks, turns)
  {
  }

  function Shifted(picks: seq<nat>): seq<nat> {
    seq(|picks|, j requires 0 <= j < |picks| => picks[j] + 1)
  }

  lemma ShiftedPicks(later: seq<nat>, turns: seq<Read>, n: nat, conversation: ConversationId)
    requires turns != [] && n <= |turns[1..]| && Picks(later, turns[1..], n, conversation)
    ensures forall i: nat :: i in Shifted(later) <==>
              0 < i < n + 1 && turns[i].Published? && turns[i].message.conversation == conversation
  {
    forall i: nat
      ensures i in Shifted(later) <==> 0 < i < n + 1 && turns[i].Published? && turns[i].message.conversation == conversation
    {
      if i in Shifted(later) {
        var j :| 0 <= j < |later| && Shifted(later)[j] == i;
        assert later[j] in later && turns[1..][later[j]] == turns[i];
      }
      if 0 < i < n + 1 && turns[i].Published? && turns[i].message.conversation == conversation {
        assert turns[1..][i - 1] == turns[i];
        assert (i - 1) as nat in later;
        var j :| 0 <= j < |later| && later[j] == i - 1;
        assert Shifted(later)[j] == i;
      }
    }
  }

  /** Buckets only lose sockets, and only dead ones. */
  ghost predicate Shrinks(before: Buckets<Connection>, after: Buckets<Connection>)
    reads SocketsOf(before)
  {
    forall x :: Members(after, x) <= Members(before, x) && forall c :: c in Members(before, x) && c.alive ==> c in Members(after, x)
  }

  lemma ShrinksTwice(a: Buckets<Connection>, b: Buckets<Connection>, c: Buckets<Connection>)
    requires Shrinks(a, b) && Shrinks(b, c)
    ensures Shrinks(a, c)
  {
  }

  lemma ShrunkStaysApart(before: Buckets<Connection>, after: Buckets<Connection>)
    requires Shrinks(before, after) && OneConversationEach(before)
    ensures OneConversationEach(after)
    ensures forall conversation :: Members(after, conversation) <= SocketsOf(before)
  {
    assert forall conversation :: Members(after, conversation) <= Members(before, conversation) <= SocketsOf(before);
  }

  /** Every healthy socket has had exactly its share of `done` since its log read `logs`; a dead one nothing. */
  ghost predicate Served(b: Buckets<Connection>, logs: map<Connection, seq<Frame>>, done: seq<Message>)
    reads SocketsOf(b)
  {
    forall x, c :: c in Members(b, x) ==>
      c in logs && c.sent == logs[c] + if c.alive then Frames(done, x) else []
  }

  ghost function LogsOf(b: Buckets<Connection>): map<Connection, seq<Frame>>
    reads SocketsOf(b)
  {
    map c | c in SocketsOf(b) :: c.sent
  }

  /** Since its log read `logs`, every healthy socket has heard the first `n` reads, and a dead one nothing. */
  ghost predicate AllHeard(b: Buckets<Connection>, logs: map<Connection, seq<Frame>>, turns: seq<Read>, n: nat)
    requires n <= |turns|
    reads SocketsOf(b)
  {
    forall x, c :: c in Members(b, x) ==>
      && c in logs
      && if c.alive then logs[c] <= c.sent && Heard(c.sent[|logs[c]|..], turns, n, x) else c.sent == logs[c]
  }

  lemma ServedIsHeard(b: Buckets<Connection>, logs: map<Connection, seq<Frame>>, turns: seq<Read>, channels: set<ConversationId>)
    requires Served(b, logs, Delivered(turns, channels))
    ensures AllHeard(b, logs, turns, ReadsMade(turns, channels))
  {
    forall x, c | c in Members(b, x) && c.alive
      ensures logs[c] <= c.sent && Heard(c.sent[|logs[c]|..], turns, ReadsMade(turns, channels), x)
    {
      var picks := EveryMessageIsHeard(turns, channels, x);
      assert c.sent[|logs[c]|..] == Frames(Delivered(turns, channels), x);
    }
  }

  lemma SurvivesIff(turns: seq<Read>, channels: set<ConversationId>)
    ensures Survives(turns, channels) <==> channels == {} || forall i :: 0 <= i < |turns| ==> !Ends(turns[i], channels)
  {
    if exists i :: 0 <= i < |turns| && Ends(turns[i], channels) {
      var i :| 0 <= i < |turns| && Ends(turns[i], channels);
      assert turns[i] in turns;
    }
  }

  class RedisConversationSubscriber {
    const manager: ConnectionManager
    var pubsub: PubSub
    var channels: set<ConversationId>

    /** Bookkeeping never runs ahead of the real subscriptions. */
    ghost predicate Valid()
      reads this, pubsub
    {
      channels <= pubsub.subscriptions
    }

    constructor (manager: ConnectionManager)
      ensures this.manager == manager && channels == {} && fresh(pubsub) && Valid()
    {
      this.manager := manager;
      channels := {};
      pubsub := new PubSub();
    }

    method Subscribe(conversation: ConversationId, reply: Reply) returns (ok: bool)
      requires Valid()
      modifies this`channels, pubsub
      ensures Valid() && ok == reply.Accepted?
      ensures channels == old(channels) + if ok then {conversation} else {}
      ensures old(pubsub.subscriptions) <= pubsub.subscriptions <= old(pubsub.subscriptions) + {conversation}
    {
      ok := pubsub.Subscribe(conversation, reply);
      if ok {
        channels := channels + {conversation};
      }
    }

    method Unsubscribe(conversation: ConversationId, reply: Reply) returns (ok: bool)
      requires Valid()
      modifies this`channels, pubsub
      ensures Valid() && ok == reply.Accepted?
      ensures channels == old(channels) - {conversation}
      ensures old(pubsub.subscriptions) - {conversation} <= pubsub.subscriptions <= old(pubsub.subscriptions)
    {
      channels := channels - {conversation};
      ok := pubsub.Unsubscribe(conversation, reply);
    }

    /** A fresh connection is given every channel still needed, up to the first refusal; it succeeds
        exactly when none is refused, and then bookkeeping and subscriptions are equal. */
    method Reconnect(refused: set<ConversationId>) returns (ok: bool)
      modifies this`pubsub
      ensures fresh(pubsub)
      ensures ok <==> refused * channels == {}
      ensures ok ==> pubsub.subscriptions == channels
      ensures pubsub.subscriptions <= channels
    {
      var connection := new PubSub();
      pubsub := connection;
      var todo := channels;
      while todo != {}
        invariant todo <= channels && pubsub == connection
        invariant connection.subscriptions == channels - todo
        invariant (channels - todo) * refused == {}
        decreases |todo|
      {
        var channel :| channel in todo;
        if channel in refused {
          return false;
        }
        var accepted := connection.Subscribe(channel, Accepted);
        todo := todo - {channel};
      }
      ok := true;
    }

    /** Hand one decoded message to the local sockets of its conversation. */
    method Deliver(message: Message)
      requires manager.Valid() && OneConversationEach(manager.connections)
      modifies manager, set c | c in Members(manager.connections, message.conversation) :: c`sent
      ensures manager.Valid() && Shrinks(old(manager.connections), manager.connections)
      ensures forall conversation, c :: c in old(Members(manager.connections, conversation)) ==>
                c.sent == old(c.sent) + if c.alive then Frames([message], conversation) else []
    {
      assert [message][..0] == [];
      manager.Broadcast(message.conversation, message);
    }

    /** The same, as one turn of a run that has already delivered `done`. */
    method DeliverNext(message: Message, ghost before: Buckets<Connection>, ghost logs: map<Connection, seq<Frame>>,
                       ghost done: seq<Message>)
      requires manager.Valid() && OneConversationEach(before) && Shrinks(before, manager.connections)
      requires Served(before, logs, done)
      modifies manager, set c | c in SocketsOf(before) :: c`sent
      ensures manager.Valid() && Shrinks(before, manager.connections)
      ensures Served(before, logs, done + [message])
    {
      FramesAppend(done, message);
      ghost var middle := manager.connections;
      ShrunkStaysApart(before, middle);
      Deliver(message);
      forall conversation, c | c in Members(before, conversation)
        ensures c.sent == logs[c] + if c.alive then Frames(done + [message], conversation) else []
      {
        if c in Members(middle, conversation) {
          assert c.sent == old(c.sent) + if c.alive then Frames([message], conversation) else [];
        } else {
          assert !c.alive && c.sent == old(c.sent);
        }
      }
      ShrinksTwice(before, middle, manager.connections);
    }

    /** Draining the reads terminates; while the reader has a channel and no reconnect is refused, every
        healthy socket's log grows by one frame for each read that brought a message of its conversation, in
        order, and by nothing else, and only dead sockets are dropped. */
    method Run(turns: seq<Read>) returns (survived: bool)
      requires manager.Valid() && OneConversationEach(manager.connections)
      modifies this`pubsub, manager, set c | c in SocketsOf(manager.connections) :: c`sent
      ensures manager.Valid() && channels == old(channels)
      ensures survived <==> Survives(turns, channels)
      ensures Shrinks(old(manager.connections), manager.connections)
      ensures survived <==> channels == {} || forall i :: 0 <= i < |turns| ==> !Ends(turns[i], channels)
      ensures forall conversation, c :: c in old(Members(manager.connections, conversation)) ==>
                c.sent == old(c.sent) + if c.alive then Frames(Delivered(turns, channels), conversation) else []
      ensures AllHeard(old(manager.connections), old(LogsOf(manager.connections)), turns, ReadsMade(turns, channels))
    {
      ghost var before := manager.connections;
      ghost var logs := LogsOf(before);
      ghost var done: seq<Message> := [];
      var rest := turns;
      survived := true;
      while rest != [] && channels != {}
        invariant manager.Valid() && channels == old(channels)
        invariant Delivered(turns, channels) == done + Delivered(rest, channels)
        invariant Survives(turns, channels) <==> Survives(rest, channels)
        invariant Shrinks(before, manager.connections) && Served(before, logs, done)
        decreases |rest|
      {
        var read := rest[0];
        assert rest == [read] + rest[1..];
        if read.Published? {
          DeliverNext(read.message, before, logs, done);
          done := done + [read.message];
        } else if read.Broken? {
          survived := Reconnect(read.refused);
          if !survived {
            assert read in rest;
            break;
          }
        }
        rest := rest[1..];
      }
      assert done == Delivered(turns, channels);
      ServedIsHeard(before, logs, turns, channels);
      SurvivesIff(turns, channels);
    }
  }
}
