/** What a session's answers and paths mean, in terms of the limiter's count and of what befalls the socket. */
module SessionRules {
  import opened Values
  import opened ConnectionManager
  import opened Subscriber
  import opened RateLimiter
  import opened Session

  // One turn.

  function IfAlive(alive: bool, frame: Frame): seq<Frame> {
    if alive then [frame] else []
  }

  /** What an answered frame yields; an answer that a dead transport does not take ends the loop. */
  function Answered(alive: bool, frame: Frame, attempt: Attempt, exchanges: nat): Yield {
    Yield(IfAlive(alive, frame), [attempt], exchanges, if alive then None else Some(SendFailed(frame.MessageAck?)))
  }

  /** A frame over the limit is answered with the rate-limit error alone, whatever it holds; of the others,
      one that is not JSON, one that is no message, one whose exchange failed, each with its own error. An
      ack goes out exactly for a permitted, well-formed frame of a valid token whose exchange succeeded, and
      carries that message; the close comes exactly for a permitted, well-formed frame of an expired one. */
  lemma FrameGetsItsAnswer(t: Turn, alive: bool, user: UserId, limits: Limits, trace: seq<Attempt>)
    requires t.Incoming? && InClockOrder(trace + [Attempt(user, t.at, t.redis)])
    ensures var attempt := Attempt(user, t.at, t.redis);
            var permitted := Permitted(limits, trace + [attempt]);
            var y := Take(t, alive, user, limits, trace);
            && (!permitted ==> y == Answered(alive, Error("rate limit exceeded"), attempt, 0))
            && (permitted && t.body.NotJson? ==> y == Answered(alive, Error("invalid JSON"), attempt, 0))
            && (permitted && t.body.Malformed? ==> y == Answered(alive, Error("invalid message frame"), attempt, 0))
            && (permitted && t.body.WellFormed? && !t.tokenValid ==> y == Yield([], [attempt], 0, Some(TokenExpired)))
            && (permitted && t.body.WellFormed? && t.tokenValid ==>
                  y == if t.exchanged.Some? then Answered(alive, MessageAck(t.exchanged.value.id, t.exchanged.value.key), attempt, 1)
                       else Answered(alive, Error("failed to handle message"), attempt, 0))
  {
    AllowedIffPermitted(limits, trace + [Attempt(user, t.at, t.redis)]);
  }

  /** The rest of the turns cost nothing: a broadcast is one frame for a live socket. */
  lemma OtherTurnsAreFree(t: Turn, alive: bool, user: UserId, limits: Limits, trace: seq<Attempt>)
    requires !t.Incoming?
    ensures Take(t, alive, user, limits, trace)
            == Yield(if t.Broadcasts? then IfAlive(alive, MessageNew(t.message)) else [], [], 0,
                     if t.Disconnects? then Some(ClientGone) else None)
  {
  }

  // A script.

  /** What the frames among the turns charge the sender. */
  function Charges(turns: seq<Turn>, user: UserId): seq<Attempt> {
    if turns == [] then []
    else (if turns[0].Incoming? then [Attempt(user, turns[0].at, turns[0].redis)] else []) + Charges(turns[1..], user)
  }

  /** The loop takes the turns in order, each frame at its charge, until the script is over, the client is
      gone, or an answer was the close or could not be sent; and stops there. */
  lemma {:induction false} ScriptIsFollowed(turns: seq<Turn>, alive: bool, user: UserId, limits: Limits, trace: seq<Attempt>)
    returns (n: nat)
    ensures n <= |turns|
    ensures var talk := Converse(turns, alive, user, limits, trace);
            && talk.attempts == Charges(turns[..n], user)
            && (talk.exit.ClientGone? ==> n == |turns| || (n > 0 && turns[n - 1].Disconnects?))
            && (!talk.exit.ClientGone? ==> n > 0 && turns[n - 1].Incoming?)
            && (talk.exit.SendFailed? ==> !alive || Dies in turns[..n])
    ensures forall i :: 0 <= i < n - 1 ==> !turns[i].Disconnects?
  {
    n := 0;
    if turns != [] {
      var y := Take(turns[0], alive, user, limits, trace);
      if y.exit.Some? {
        n := 1;
        assert turns[..1] == [turns[0]] && [turns[0]][1..] == [];
      } else {
        var m := ScriptIsFollowed(turns[1..], alive && !turns[0].Dies?, user, limits, trace + y.attempts);
        n := m + 1;
        assert turns[..n][1..] == turns[1..][..m] && turns[..n][0] == turns[0];
        forall i | 0 <= i < n - 1 ensures !turns[i].Disconnects? {
          assert i > 0 ==> turns[i] == turns[1..][i - 1];
        }
        assert forall t :: t in turns[1..][..m] ==> t in turns[..n];
      }
    }
  }

  /** The messages a script hands to the exchange in an interval. */
  function ExchangesWithin(turns: seq<Turn>, alive: bool, user: UserId, limits: Limits, trace: seq<Attempt>,
                        lo: real, hi: real): nat {
    if turns == [] then 0
    else
      var y := Take(turns[0], alive, user, limits, trace);
      (if turns[0].Incoming? && lo <= turns[0].at < hi then y.exchanges else 0)
      + if y.exit.Some? then 0
        else ExchangesWithin(turns[1..], alive && !turns[0].Dies?, user, limits, trace + y.attempts, lo, hi)
  }

  lemma {:induction false} ExchangesAreGranted(turns: seq<Turn>, alive: bool, user: UserId, limits: Limits, trace: seq<Attempt>,
                                              lo: real, hi: real)
    ensures var talk := Converse(turns, alive, user, limits, trace);
            Granted(limits, trace, user, lo, hi) + ExchangesWithin(turns, alive, user, limits, trace, lo, hi)
            <= Granted(limits, trace + talk.attempts, user, lo, hi)
  {
    if turns == [] {
      assert trace + [] == trace;
    } else {
      var y := Take(turns[0], alive, user, limits, trace);
      TurnIsGranted(turns[0], alive, user, limits, trace, lo, hi);
      if y.exit.None? {
        var alive' := alive && !turns[0].Dies?;
        ExchangesAreGranted(turns[1..], alive', user, limits, trace + y.attempts, lo, hi);
        Regroup(trace, y.attempts, Converse(turns[1..], alive', user, limits, trace + y.attempts).attempts);
        FirstTurn(turns, alive, user, limits, trace, lo, hi);
      }
    }
  }

  /** A script whose first turn does not end it. */
  lemma FirstTurn(turns: seq<Turn>, alive: bool, user: UserId, limits: Limits, trace: seq<Attempt>, lo: real, hi: real)
    requires turns != [] && Take(turns[0], alive, user, limits, trace).exit.None?
    ensures var y, alive' := Take(turns[0], alive, user, limits, trace), alive && !turns[0].Dies?;
            && Converse(turns, alive, user, limits, trace).attempts
               == y.attempts + Converse(turns[1..], alive', user, limits, trace + y.attempts).attempts
            && ExchangesWithin(turns, alive, user, limits, trace, lo, hi)
               == (if turns[0].Incoming? && lo <= turns[0].at < hi then y.exchanges else 0)
                  + ExchangesWithin(turns[1..], alive', user, limits, trace + y.attempts, lo, hi)
  {
  }

  lemma TurnIsGranted(t: Turn, alive: bool, user: UserId, limits: Limits, trace: seq<Attempt>, lo: real, hi: real)
    ensures var y := Take(t, alive, user, limits, trace);
            Granted(limits, trace, user, lo, hi) + (if t.Incoming? && lo <= t.at < hi then y.exchanges else 0)
            <= Granted(limits, trace + y.attempts, user, lo, hi)
  {
    if t.Incoming? {
      var attempt := Attempt(user, t.at, t.redis);
      assert (trace + [attempt])[..|trace|] == trace;
    } else {
      assert trace + [] == trace;
    }
  }

  /** Whatever other sockets of the user have spent, a session hands the exchange at most the limit in a
      window, and one more for each failed limiter call in it. */
  lemma SessionKeepsTheLimit(turns: seq<Turn>, alive: bool, user: UserId, limits: Limits, trace: seq<Attempt>, w: int)
    requires limits.limit > 0 && limits.windowSeconds > 0
    requires InClockOrder(trace + Converse(turns, alive, user, limits, trace).attempts)
    ensures var lo, hi := Start(w, limits.windowSeconds), Start(w + 1, limits.windowSeconds);
            var whole := trace + Converse(turns, alive, user, limits, trace).attempts;
            Granted(limits, trace, user, lo, hi) + ExchangesWithin(turns, alive, user, limits, trace, lo, hi)
            <= limits.limit + Failures(whole, user, lo, hi)
  {
    var lo, hi := Start(w, limits.windowSeconds), Start(w + 1, limits.windowSeconds);
    ExchangesAreGranted(turns, alive, user, limits, trace, lo, hi);
    AtMostLimitPerWindow(limits, trace + Converse(turns, alive, user, limits, trace).attempts, user, w);
  }

  // The way into the loop.

  /** The rows of the backlog that go out are its first ones, all of them if the transport lasts. */
  lemma BacklogIsAPrefix(cursor: Option<int>, backlog: Option<seq<Message>>, diesAfter: nat)
    ensures var sent := BacklogSent(cursor, backlog, diesAfter);
            if cursor.None? || backlog.None? then sent == []
            else sent <= backlog.value && |sent| == if diesAfter < |backlog.value| then diesAfter else |backlog.value|
    ensures Replays(cursor, backlog, diesAfter) <==>
              cursor.None? || (backlog.Some? && BacklogSent(cursor, backlog, diesAfter) == backlog.value)
  {
  }

  /** Each path is taken in exactly one situation: 4401 without a valid auth frame, 4403 without access, 1011
      if the first join is refused, and an exception out of the handler if a reply of its own cannot be sent
      or the access check raises. */
  lemma PathsTellApart(arrival: Arrival, alive: bool, joins: bool, cursor: Option<int>, backlog: Option<seq<Message>>,
                       diesAfter: nat, talk: Talk)
    ensures var opening, access := arrival.opening, arrival.access;
            var authenticated, served := opening.Authenticated?, ServedPath(cursor, backlog, diesAfter, talk);
            var path := Route(arrival, alive, joins, served);
            && (path == Gone <==> opening.GoneBeforeAuth?)
            && (path == TurnedAway(4401) <==> (opening.NoValidFrame? || opening.BadCredentials?) && alive)
            && (path == TurnedAway(4403) <==> authenticated && access.Denies? && alive)
            && (path == TurnedAway(1011) <==> authenticated && access.Allows? && alive && !joins && !arrival.diesJoining)
            && (path == Escaped <==>
                  || ((opening.NoValidFrame? || opening.BadCredentials?) && !alive)
                  || (authenticated && (access.AccessRaises? || !alive))
                  || (authenticated && access.Allows? && alive && !joins && arrival.diesJoining))
            && (path.ReplayFailed? || path.Ended? <==> authenticated && access.Allows? && alive && joins)
            && (path.ReplayFailed? ==> cursor.Some? && (backlog.None? || diesAfter < |backlog.value|))
            && (path.Ended? ==> path.exit == talk.exit && (cursor.None? || (backlog.Some? && |backlog.value| <= diesAfter)))
  {
  }

  /** And the client then has, after the greeting, the backlog's rows that went out, and the talk if the
      backlog went out whole. */
  lemma TranscriptIsWhole(arrival: Arrival, alive: bool, cursor: Option<int>, backlog: Option<seq<Message>>,
                          diesAfter: nat, talk: Talk)
    requires arrival.opening.Authenticated? && arrival.access.Allows? && alive
    ensures var sent := Transcript(arrival, alive, true, ServedFrames(cursor, backlog, diesAfter, talk));
            sent == [AuthOk] + NewFrames(BacklogSent(cursor, backlog, diesAfter))
                    + if ServedPath(cursor, backlog, diesAfter, talk).Ended? then talk.frames else []
  {
  }

  lemma {:induction false} NewFramesInOrder(messages: seq<Message>)
    ensures |NewFrames(messages)| == |messages|
    ensures forall i :: 0 <= i < |messages| ==> NewFrames(messages)[i] == MessageNew(messages[i])
  {
    if messages != [] {
      NewFramesInOrder(messages[..|messages| - 1]);
    }
  }
}
