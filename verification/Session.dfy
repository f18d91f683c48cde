/** The per-socket handler: authenticate, check access, join, replay, then the receive loop. */
module Session {
  import opened Values
  import opened Buckets
  import opened ConnectionManager
  import opened Subscriber
  import opened Registry
  import opened RateLimiter

  const AUTH_FAILED: int := 4401
  const FORBIDDEN: int := 4403
  const INTERNAL_ERROR: int := 1011

  datatype Opening = GoneBeforeAuth | NoValidFrame | BadCredentials | Authenticated

  datatype Access = Allows | Denies | AccessRaises

  /** What precedes the backlog: the auth frame, the access check, what Redis replies to a first join, and
      whether the transport dies while the join is awaited. */
  datatype Arrival = Arrival(opening: Opening, access: Access, reply: Reply, diesJoining: bool)
  {
    predicate IsAdmitted() {
      opening.Authenticated? && access.Allows?
    }
  }

  datatype Body = NotJson | Malformed | WellFormed

  /** What happens next to a served socket: its client leaves, its transport dies unnoticed, the reader
      broadcasts to the conversation, or a frame comes in; the last fields are what Redis, the token
      check and the exchange make of it. */
  datatype Turn =
    | Disconnects
    | Dies
    | Broadcasts(message: Message)
    | Incoming(at: Instant, redis: Outcome, body: Body, tokenValid: bool, exchanged: Option<Message>)

  /** Why the receive loop ended. A failed send remembers whether it was the ack of an exchange. */
  datatype Exit = ClientGone | TokenExpired | SendFailed(ack: bool)

  datatype Talk = Talk(frames: seq<Frame>, attempts: seq<Attempt>, exchanges: nat, exit: Exit)

  /** The one answer a frame gets; None closes the socket. */
  function Response(t: Turn, allowed: bool): Option<Frame>
    requires t.Incoming?
  {
    if !allowed then Some(Error("rate limit exceeded"))
    else if t.body.NotJson? then Some(Error("invalid JSON"))
    else if t.body.Malformed? then Some(Error("invalid message frame"))
    else if !t.tokenValid then None
    else if t.exchanged.None? then Some(Error("failed to handle message"))
    else Some(MessageAck(t.exchanged.value.id, t.exchanged.value.key))
  }

  /** What one turn sends the client, charges the sender, and hands to the exchange. */
  datatype Yield = Yield(frames: seq<Frame>, attempts: seq<Attempt>, exchanges: nat, exit: Option<Exit>)

  function Take(t: Turn, alive: bool, user: UserId, limits: Limits, trace: seq<Attempt>): Yield {
    match t
    case Disconnects => Yield([], [], 0, Some(ClientGone))
    case Dies => Yield([], [], 0, None)
    case Broadcasts(m) => Yield(if alive then [MessageNew(m)] else [], [], 0, None)
    case Incoming(at, redis, _, _, _) =>
      var attempt := Attempt(user, at, redis);
      var response := Response(t, Allowed(limits, trace + [attempt]));
      if response.None? then Yield([], [attempt], 0, Some(TokenExpired))
      else
        var ack := response.value.MessageAck?;
        Yield(if alive then [response.value] else [], [attempt], if ack then 1 else 0, if alive then None else Some(SendFailed(ack)))
  }

  /** What a socket's client receives over a script, and what the script costs its quota. */
  function Converse(turns: seq<Turn>, alive: bool, user: UserId, limits: Limits, trace: seq<Attempt>): Talk {
    if turns == [] then Talk([], [], 0, ClientGone)
    else
      var y := Take(turns[0], alive, user, limits, trace);
      if y.exit.Some? then Talk(y.frames, y.attempts, y.exchanges, y.exit.value)
      else
        var rest := Converse(turns[1..], alive && !turns[0].Dies?, user, limits, trace + y.attempts);
        Talk(y.frames + rest.frames, y.attempts + rest.attempts, y.exchanges + rest.exchanges, rest.exit)
  }

  function Errors(frames: seq<Frame>): nat {
    if frames == [] then 0 else (if frames[0].Error? then 1 else 0) + Errors(frames[1..])
  }

  function Acks(frames: seq<Frame>): nat {
    if frames == [] then 0 else (if frames[0].MessageAck? then 1 else 0) + Acks(frames[1..])
  }

  /** Every frame costs one limiter attempt of its sender and yields exactly one error, ack, close or failed send;
      acks are the successful exchanges, but for one whose ack could not be sent. */
  lemma {:induction false} OneAnswerPerFrame(turns: seq<Turn>, alive: bool, user: UserId, limits: Limits, trace: seq<Attempt>)
    ensures var talk := Converse(turns, alive, user, limits, trace);
            && |talk.attempts| == Errors(talk.frames) + Acks(talk.frames) + (if talk.exit.ClientGone? then 0 else 1)
            && talk.exchanges == Acks(talk.frames) + (if talk.exit == SendFailed(true) then 1 else 0)
            && (forall a :: a in talk.attempts ==> a.user == user)
            && AuthOk !in talk.frames
            && (!alive ==> talk.frames == [])
  {
    if turns != [] {
      var y := Take(turns[0], alive, user, limits, trace);
      TurnTally(turns[0], alive, user, limits, trace);
      if y.exit.None? {
        var alive' := alive && !turns[0].Dies?;
        OneAnswerPerFrame(turns[1..], alive', user, limits, trace + y.attempts);
        TallyConcat(y.frames, Converse(turns[1..], alive', user, limits, trace + y.attempts).frames);
      }
    }
  }

  lemma TurnTally(t: Turn, alive: bool, user: UserId, limits: Limits, trace: seq<Attempt>)
    ensures var y := Take(t, alive, user, limits, trace);
            && |y.attempts| == Errors(y.frames) + Acks(y.frames) + (if y.exit.None? || y.exit.value.ClientGone? then 0 else 1)
            && y.exchanges == Acks(y.frames) + (if y.exit == Some(SendFailed(true)) then 1 else 0)
            && (forall a :: a in y.attempts ==> a.user == user)
            && AuthOk !in y.frames
            && (!alive ==> y.frames == [])
  {
    var y := Take(t, alive, user, limits, trace);
    TallyOne(y.frames);
    if t.Incoming? {
      var response := Response(t, Allowed(limits, trace + [Attempt(user, t.at, t.redis)]));
      ResponseKind(t, Allowed(limits, trace + [Attempt(user, t.at, t.redis)]));
      if response.None? {
        assert y.frames == [];
      } else if alive {
        assert y.frames == [response.value];
      }
    }
  }

  lemma ResponseKind(t: Turn, allowed: bool)
    requires t.Incoming?
    ensures Response(t, allowed).Some? ==> Response(t, allowed).value.Error? || Response(t, allowed).value.MessageAck?
  {
  }

  lemma TallyOne(frames: seq<Frame>)
    requires |frames| <= 1
    ensures Errors(frames) == if frames != [] && frames[0].Error? then 1 else 0
    ensures Acks(frames) == if frames != [] && frames[0].MessageAck? then 1 else 0
  {
  }

  lemma {:induction false} TallyConcat(a: seq<Frame>, b: seq<Frame>)
    ensures Errors(a + b) == Errors(a) + Errors(b) && Acks(a + b) == Acks(a) + Acks(b)
  {
    if a == [] {
      assert a + b == b;
    } else {
      TallyConcat(a[1..], b);
      assert (a + b)[1..] == a[1..] + b;
    }
  }

  /** Where a socket stands in its script: its log and the limiter's trace so far, and the talk to come. */
  ghost predicate Heading(sent: seq<Frame>, trace: seq<Attempt>, left: Talk, finalSent: seq<Frame>,
                        finalTrace: seq<Attempt>, exit: Exit) {
    sent + left.frames == finalSent && trace + left.attempts == finalTrace && left.exit == exit
  }

  function Remaining(stop: Option<Exit>, turns: seq<Turn>, alive: bool, user: UserId, limits: Limits, trace: seq<Attempt>): Talk {
    if stop.Some? then Talk([], [], 0, stop.value) else Converse(turns, alive, user, limits, trace)
  }

  /** One turn moves what it yields from the talk to come to the past. */
  lemma TurnHeads(turns: seq<Turn>, alive: bool, user: UserId, limits: Limits, sent: seq<Frame>, trace: seq<Attempt>,
                  finalSent: seq<Frame>, finalTrace: seq<Attempt>, exit: Exit)
    requires turns != [] && Heading(sent, trace, Remaining(None, turns, alive, user, limits, trace), finalSent, finalTrace, exit)
    ensures var y := Take(turns[0], alive, user, limits, trace);
            Heading(sent + y.frames, trace + y.attempts,
                    Remaining(y.exit, turns[1..], alive && !turns[0].Dies?, user, limits, trace + y.attempts), finalSent, finalTrace, exit)
  {
    var y := Take(turns[0], alive, user, limits, trace);
    if y.exit.None? {
      var rest := Converse(turns[1..], alive && !turns[0].Dies?, user, limits, trace + y.attempts);
      Regroup(sent, y.frames, rest.frames);
      Regroup(trace, y.attempts, rest.attempts);
    } else {
      assert sent + y.frames + [] == sent + y.frames && trace + y.attempts + [] == trace + y.attempts;
    }
  }

  lemma Regroup<T>(a: seq<T>, b: seq<T>, c: seq<T>)
    ensures a + (b + c) == (a + b) + c
  {
  }

  function NewFrames(messages: seq<Message>): seq<Frame> {
    if messages == [] then []
    else NewFrames(messages[..|messages| - 1]) + [MessageNew(messages[|messages| - 1])]
  }

  /** How a connection ends: unanswered, by an exception that leaves the handler before the join is done,
      refused with a close code, in the backlog, or out of the loop. */
  datatype Path = Gone | Escaped | TurnedAway(code: int) | ReplayFailed | Ended(exit: Exit)

  /** How many more frames a transport takes. */
  function Takes(alive: bool, diesAfter: nat): nat {
    if alive then diesAfter else 0
  }

  /** The backlog's rows that go out: none without a cursor, and none past the death of the transport. */
  function BacklogSent(cursor: Option<int>, backlog: Option<seq<Message>>, diesAfter: nat): seq<Message> {
    if cursor.None? || backlog.None? then []
    else if diesAfter < |backlog.value| then backlog.value[..diesAfter]
    else backlog.value
  }

  predicate Replays(cursor: Option<int>, backlog: Option<seq<Message>>, diesAfter: nat) {
    cursor.None? || (backlog.Some? && |backlog.value| <= diesAfter)
  }

  function ServedPath(cursor: Option<int>, backlog: Option<seq<Message>>, diesAfter: nat, talk: Talk): Path {
    if Replays(cursor, backlog, diesAfter) then Ended(talk.exit) else ReplayFailed
  }

  function ServedFrames(cursor: Option<int>, backlog: Option<seq<Message>>, diesAfter: nat, talk: Talk): seq<Frame> {
    NewFrames(BacklogSent(cursor, backlog, diesAfter)) + if Replays(cursor, backlog, diesAfter) then talk.frames else []
  }

  /** The code the socket is closed with, if its transport (alive when the join is done) still takes one:
      1011 for an unreadable backlog, 4401 for an expired token, none for a client that is gone. */
  ghost predicate ClosesAs(path: Path, alive: bool, backlog: Option<seq<Message>>, turns: seq<Turn>, closed: Option<int>) {
    match path
    case Gone => closed.None?
    case Escaped => closed.None?
    case TurnedAway(code) => closed == Some(code)
    case ReplayFailed => closed == if alive && backlog.None? then Some(INTERNAL_ERROR) else None
    case Ended(exit) =>
      if exit.TokenExpired? && alive then closed == Some(AUTH_FAILED) || (closed.None? && Dies in turns) else closed.None?
  }

  /** A refusal that cannot be sent raises, as a greeting that cannot be sent does. */
  function Route(arrival: Arrival, alive: bool, joins: bool, served: Path): Path {
    if arrival.opening.GoneBeforeAuth? then Gone
    else if !arrival.opening.Authenticated? then if alive then TurnedAway(AUTH_FAILED) else Escaped
    else if arrival.access.AccessRaises? then Escaped
    else if arrival.access.Denies? then if alive then TurnedAway(FORBIDDEN) else Escaped
    else if !alive then Escaped
    else if !joins then if arrival.diesJoining then Escaped else TurnedAway(INTERNAL_ERROR)
    else served
  }

  function Transcript(arrival: Arrival, alive: bool, joins: bool, served: seq<Frame>): seq<Frame> {
    if !arrival.IsAdmitted() || !alive then []
    else [AuthOk] + if joins then served else []
  }

  /** auth.ok comes once and before everything else, and not at all for a client that is turned away or
      gone by then. */
  lemma AuthOkComesFirst(arrival: Arrival, alive: bool, joins: bool, cursor: Option<int>, backlog: Option<seq<Message>>,
                         diesAfter: nat, turns: seq<Turn>, user: UserId, limits: Limits, trace: seq<Attempt>)
    ensures var talk := Converse(turns, !arrival.diesJoining, user, limits, trace);
            var sent := Transcript(arrival, alive, joins, ServedFrames(cursor, backlog, diesAfter, talk));
            if arrival.IsAdmitted() && alive then sent != [] && sent[0] == AuthOk && AuthOk !in sent[1..] else sent == []
  {
    var talk := Converse(turns, !arrival.diesJoining, user, limits, trace);
    OneAnswerPerFrame(turns, !arrival.diesJoining, user, limits, trace);
    NewFramesAreNew(BacklogSent(cursor, backlog, diesAfter));
    var frames := if joins then ServedFrames(cursor, backlog, diesAfter, talk) else [];
    assert ([AuthOk] + frames)[1..] == frames;
  }

  lemma {:induction false} NewFramesAreNew(messages: seq<Message>)
    ensures AuthOk !in NewFrames(messages)
  {
    if messages != [] {
      NewFramesAreNew(messages[..|messages| - 1]);
    }
  }

  ghost predicate Appends(before: seq<Frame>, after: seq<Frame>, frames: seq<Frame>) {
    after == before + frames
  }

  lemma AppendsTwice(a: seq<Frame>, b: seq<Frame>, c: seq<Frame>, first: seq<Frame>, second: seq<Frame>)
    requires Appends(a, b, first) && Appends(b, c, second)
    ensures Appends(a, c, first + second)
  {
  }

  class ConversationSocket {
    const registry: ConversationRegistry
    const limiter: RedisRateLimiter
    const connection: Connection
    const conversation: ConversationId
    const user: UserId

    constructor (registry: ConversationRegistry, limiter: RedisRateLimiter, connection: Connection, conversation: ConversationId, user: UserId)
      ensures this.registry == registry && this.limiter == limiter && this.connection == connection
      ensures this.conversation == conversation && this.user == user
    {
      this.registry := registry;
      this.limiter := limiter;
      this.connection := connection;
      this.conversation := conversation;
      this.user := user;
    }

    ghost predicate Ready()
      reads registry, registry.manager, registry.subscriber, registry.subscriber.pubsub, limiter, limiter.redis
    {
      registry.Valid() && limiter.Valid()
    }

    /** A healthy socket stays registered; a dead one may have been dropped by a broadcast. */
    ghost predicate Enlisted()
      reads registry, registry.manager, connection
    {
      connection.alive ==> connection in Members(registry.manager.connections, conversation)
    }

    ghost function Peers(): set<Connection>
      reads registry, registry.manager
    {
      Members(registry.manager.connections, conversation)
    }

    /** One turn: a broadcast reaches a live socket; a frame costs one limiter attempt and gets one
        answer, or ends the loop. */
    method TakeTurn(turn: Turn) returns (exit: Option<Exit>)
      requires Ready() && Enlisted() && connection.closedWith.None?
      modifies registry.manager, limiter.redis, connection, set c | c in Peers() :: c`sent
      ensures Ready() && Peers() <= old(Peers())
      ensures registry.manager.connections.Keys <= old(registry.manager.connections.Keys)
      ensures var y := Take(turn, old(connection.alive), user, limiter.limits, old(limiter.redis.trace));
              && exit == y.exit
              && connection.sent == old(connection.sent) + y.frames
              && limiter.redis.trace == old(limiter.redis.trace) + y.attempts
      ensures exit.Some? && exit.value.SendFailed? ==> !connection.alive
      ensures exit != Some(TokenExpired) ==>
                Enlisted() && connection.closedWith.None? && connection.alive == (old(connection.alive) && !turn.Dies?)
      ensures connection.closedWith == if exit == Some(TokenExpired) && old(connection.alive) then Some(AUTH_FAILED) else None
    {
      match turn {
        case Disconnects => exit := Some(ClientGone);
        case Dies =>
          connection.alive := false;
          exit := None;
        case Broadcasts(m) =>
          registry.manager.Broadcast(conversation, m);
          exit := None;
        case Incoming(_, _, _, _, _) => exit := Answer(turn);
      }
    }

    /** One frame: one limiter attempt, and one answer or the close. */
    method Answer(turn: Turn) returns (exit: Option<Exit>)
      requires turn.Incoming? && limiter.Valid() && connection.closedWith.None?
      modifies limiter.redis, connection
      ensures limiter.Valid()
      ensures var y := Take(turn, old(connection.alive), user, limiter.limits, old(limiter.redis.trace));
              && exit == y.exit
              && connection.sent == old(connection.sent) + y.frames
              && limiter.redis.trace == old(limiter.redis.trace) + y.attempts
      ensures exit != Some(TokenExpired) ==> connection.closedWith.None? && connection.alive == old(connection.alive)
      ensures exit == Some(TokenExpired) ==>
                !connection.alive && connection.closedWith == if old(connection.alive) then Some(AUTH_FAILED) else None
      ensures exit.Some? ==> !connection.alive
    {
      var allowed := limiter.Allow(user, turn.at, turn.redis);
      var response := Response(turn, allowed);
      if response.None? {
        var closed := connection.Close(AUTH_FAILED);
        exit := Some(TokenExpired);
      } else {
        var ok := connection.Send(response.value);
        exit := if ok then None else Some(SendFailed(response.value.MessageAck?));
      }
    }

    /** The loop yields exactly the conversation its script prescribes, and charges exactly its attempts. */
    method ReceiveLoop(turns: seq<Turn>) returns (exit: Exit)
      requires Ready() && Enlisted() && connection.closedWith.None?
      modifies registry.manager, limiter.redis, connection, set c | c in Peers() :: c`sent
      ensures Ready()
      ensures var talk := Converse(turns, old(connection.alive), user, limiter.limits, old(limiter.redis.trace));
              && connection.sent == old(connection.sent) + talk.frames
              && limiter.redis.trace == old(limiter.redis.trace) + talk.attempts
              && exit == talk.exit
      ensures ClosesAs(Ended(exit), old(connection.alive), None, turns, connection.closedWith)
      ensures exit.SendFailed? ==> !connection.alive
      ensures registry.manager.connections.Keys <= old(registry.manager.connections.Keys)
    {
      ghost var before := registry.manager.connections;
      ghost var whole := Converse(turns, connection.alive, user, limiter.limits, limiter.redis.trace);
      ghost var finalSent, finalTrace := connection.sent + whole.frames, limiter.redis.trace + whole.attempts;
      var rest := turns;
      var stop: Option<Exit> := None;
      while rest != [] && stop.None?
        invariant Ready()
        invariant stop.None? ==> Enlisted() && connection.closedWith.None?
        invariant forall t :: t in rest ==> t in turns
        invariant stop.None? && old(connection.alive) ==> connection.alive || Dies in turns
        invariant ClosesAs(Ended(if stop.Some? then stop.value else ClientGone), old(connection.alive), None, turns,
                           connection.closedWith)
        invariant stop.None? && !old(connection.alive) ==> !connection.alive
        invariant stop.Some? && stop.value.SendFailed? ==> !connection.alive
        invariant Peers() <= Members(before, conversation)
        invariant registry.manager.connections.Keys <= before.Keys
        invariant Heading(connection.sent, limiter.redis.trace,
                          Remaining(stop, rest, connection.alive, user, limiter.limits, limiter.redis.trace),
                          finalSent, finalTrace, whole.exit)
        decreases |rest|, stop.None?
      {
        TurnHeads(rest, connection.alive, user, limiter.limits, connection.sent, limiter.redis.trace, finalSent, finalTrace, whole.exit);
        assert rest[0] in turns;
        stop := TakeTurn(rest[0]);
        rest := rest[1..];
      }
      assert connection.sent + [] == connection.sent && limiter.redis.trace + [] == limiter.redis.trace;
      exit := if stop.Some? then stop.value else ClientGone;
    }

    /** Send the backlog oldest first, if the client gave a cursor; reading it may raise, and the
        transport may die after `diesAfter` of its frames. */
    method ReplayMissed(cursor: Option<int>, backlog: Option<seq<Message>>, diesAfter: nat) returns (ok: bool)
      modifies connection`sent, connection`alive
      ensures var takes := Takes(old(connection.alive), diesAfter);
              && ok == Replays(cursor, backlog, takes)
              && connection.alive == (old(connection.alive) && (ok || backlog.None?))
              && Appends(old(connection.sent), connection.sent, NewFrames(BacklogSent(cursor, backlog, takes)))
    {
      if cursor.None? || backlog.None? {
        return cursor.None?;
      }
      var rows := backlog.value;
      var i := 0;
      while i < |rows|
        invariant 0 <= i <= |rows| && i <= Takes(old(connection.alive), diesAfter)
        invariant connection.alive == old(connection.alive)
        invariant connection.sent == old(connection.sent) + NewFrames(rows[..i])
      {
        if i == diesAfter {
          connection.alive := false;
        }
        ok := connection.Send(MessageNew(rows[i]));
        if !ok {
          return;
        }
        assert rows[..i + 1][..i] == rows[..i];
        i := i + 1;
      }
      assert rows[..i] == rows;
      ok := true;
    }

    /** The part between the join and the leave; any exception closes the socket with 1011. */
    method Attend(cursor: Option<int>, backlog: Option<seq<Message>>, diesAfter: nat, turns: seq<Turn>) returns (path: Path)
      requires Ready() && Enlisted() && connection.closedWith.None?
      modifies registry.manager, limiter.redis, connection, set c | c in Peers() :: c`sent
      ensures Ready()
      ensures var alive := old(connection.alive);
              var talk := Converse(turns, alive, user, limiter.limits, old(limiter.redis.trace));
              && path == ServedPath(cursor, backlog, Takes(alive, diesAfter), talk)
              && Appends(old(connection.sent), connection.sent, ServedFrames(cursor, backlog, Takes(alive, diesAfter), talk))
              && limiter.redis.trace == old(limiter.redis.trace) + (if path.Ended? then talk.attempts else [])
              && ClosesAs(path, alive, backlog, turns, connection.closedWith)
    {
      ghost var greeted := connection.sent;
      ghost var missed := NewFrames(BacklogSent(cursor, backlog, Takes(connection.alive, diesAfter)));
      ghost var talk := Converse(turns, connection.alive, user, limiter.limits, limiter.redis.trace);
      var replayed := ReplayMissed(cursor, backlog, diesAfter);
      ghost var caughtUp := connection.sent;
      AppendsTwice(greeted, caughtUp, caughtUp, missed, []);
      if !replayed {
        var closed := connection.Close(INTERNAL_ERROR);
        return ReplayFailed;
      }
      var exit := ReceiveOrClose(turns);
      AppendsTwice(greeted, caughtUp, connection.sent, missed, talk.frames);
      path := Ended(exit);
    }

    method ReceiveOrClose(turns: seq<Turn>) returns (exit: Exit)
      requires Ready() && Enlisted() && connection.closedWith.None?
      modifies registry.manager, limiter.redis, connection, set c | c in Peers() :: c`sent
      ensures Ready()
      ensures var talk := Converse(turns, old(connection.alive), user, limiter.limits, old(limiter.redis.trace));
              && exit == talk.exit
              && limiter.redis.trace == old(limiter.redis.trace) + talk.attempts
              && Appends(old(connection.sent), connection.sent, talk.frames)
      ensures ClosesAs(Ended(exit), old(connection.alive), None, turns, connection.closedWith)
    {
      exit := ReceiveLoop(turns);
      if exit.SendFailed? {
        var closed := connection.Close(INTERNAL_ERROR);
      }
    }

    /** The whole handler, from whatever state the transport is in once the auth frame is due. On every path the
        connection ends unregistered, the registry's and the limiter's invariants hold, and the client has
        received exactly its transcript. */
    method Serve(arrival: Arrival, cursor: Option<int>, backlog: Option<seq<Message>>, diesAfter: nat, turns: seq<Turn>,
                 leaving: Reply)
      returns (path: Path)
      requires Ready() && connection.sent == [] && connection.closedWith.None? && connection !in Peers()
      modifies registry.manager, registry.subscriber`channels, registry.subscriber.pubsub, limiter.redis
      modifies connection, set c | c in Peers() :: c`sent
      ensures Ready() && connection !in Peers()
      ensures var alive, lives := old(connection.alive), !arrival.diesJoining;
              var talk := Converse(turns, lives, user, limiter.limits, old(limiter.redis.trace));
              var joins, takes := old(Peers()) != {} || arrival.reply.Accepted?, Takes(lives, diesAfter);
              && path == Route(arrival, alive, joins, ServedPath(cursor, backlog, takes, talk))
              && connection.sent == Transcript(arrival, alive, joins, ServedFrames(cursor, backlog, takes, talk))
              && limiter.redis.trace == old(limiter.redis.trace) + (if path.Ended? then talk.attempts else [])
              && ClosesAs(path, lives, backlog, turns, connection.closedWith)
    {
      if arrival.opening.GoneBeforeAuth? {
        return Gone;
      }
      if !arrival.opening.Authenticated? {
        path := TurnAway(AUTH_FAILED);
        return;
      }
      if arrival.access.AccessRaises? {
        return Escaped;
      }
      if arrival.access.Denies? {
        path := TurnAway(FORBIDDEN);
        return;
      }
      var greeted := connection.Send(AuthOk);
      if !greeted {
        return Escaped;
      }
      path := Admit(arrival, cursor, backlog, diesAfter, turns, leaving);
    }

    method TurnAway(code: int) returns (path: Path)
      requires connection.closedWith.None?
      modifies connection`alive, connection`closedWith
      ensures path == if old(connection.alive) then TurnedAway(code) else Escaped
      ensures connection.closedWith == if old(connection.alive) then Some(code) else None
    {
      var closed := connection.Close(code);
      path := if closed then TurnedAway(code) else Escaped;
    }

    /** From the join to the leave. */
    method Admit(arrival: Arrival, cursor: Option<int>, backlog: Option<seq<Message>>, diesAfter: nat, turns: seq<Turn>,
                 leaving: Reply)
      returns (path: Path)
      requires Ready() && connection.alive && connection.sent == [AuthOk] && connection.closedWith.None?
      requires connection !in Peers()
      modifies registry.manager, registry.subscriber`channels, registry.subscriber.pubsub, limiter.redis
      modifies connection, set c | c in Peers() :: c`sent
      ensures Ready() && connection !in Peers()
      ensures var lives := !arrival.diesJoining;
              var talk := Converse(turns, lives, user, limiter.limits, old(limiter.redis.trace));
              var takes := Takes(lives, diesAfter);
              && path == (if old(Peers()) != {} || arrival.reply.Accepted? then ServedPath(cursor, backlog, takes, talk)
                          else if lives then TurnedAway(INTERNAL_ERROR) else Escaped)
              && Appends([AuthOk], connection.sent,
                         if old(Peers()) != {} || arrival.reply.Accepted? then ServedFrames(cursor, backlog, takes, talk) else [])
              && limiter.redis.trace == old(limiter.redis.trace) + (if path.Ended? then talk.attempts else [])
              && ClosesAs(path, lives, backlog, turns, connection.closedWith)
    {
      var joined := registry.Join(conversation, connection, arrival.reply);
      if arrival.diesJoining {
        connection.alive := false;
      }
      if !joined {
        path := TurnAway(INTERNAL_ERROR);
        return;
      }
      path := Attend(cursor, backlog, diesAfter, turns);
      var left := registry.Leave(conversation, connection, leaving);
    }
  }
}
