/** What the send flow promises, in every reachable world. */
module SendGuarantees {
  import opened Values
  import opened MessageTable
  import opened Exchange
  import ExchangeSafety
  import Db = MessageStore
  import Fanout

  /** Idempotent send: per conversation and client key at most one committed row; every message is
      published at most once and only after its commit; no user row is answered twice. */
  lemma SendsAreIdempotent(events: seq<Event>)
    requires After(events).Some?
    ensures var w := After(events).value;
            && (forall m, n :: m in w.store.table && n in w.store.table && Db.SameKey(m, n) ==> m == n)
            && Db.Distinct(w.store.published)
            && Contained(w.store.published, w.store.table)
            && (forall a, b :: a in w.answers && b in w.answers && w.answers[a] == w.answers[b] ==> a == b)
  {
    ExchangeSafety.Reachable(events);
  }

  /** All acks for a key carry the same message. */
  lemma AcksAgree(events: seq<Event>, i: nat, j: nat)
    requires After(events).Some? && i < |After(events).value.exchanges| && j < |After(events).value.exchanges|
    requires var xs := After(events).value.exchanges;
             && xs[i].stage.Acked? && xs[j].stage.Acked?
             && xs[i].key.Some? && xs[i].key == xs[j].key && xs[i].conversation == xs[j].conversation
    ensures var xs := After(events).value.exchanges; xs[i].stage.row == xs[j].stage.row
  {
    var w := After(events).value;
    ExchangeSafety.Reachable(events);
    assert StageInv(w, w.exchanges[i]) && StageInv(w, w.exchanges[j]);
    assert Db.SameKey(w.exchanges[i].stage.row, w.exchanges[j].stage.row);
  }

  /** An ack of an earlier row is only for a send with a key, and is of a row under that key; every other
      ack, and so every keyless one, is of the sender's own message. */
  lemma AcksAreOwnOrKeyed(events: seq<Event>, i: nat)
    requires After(events).Some? && i < |After(events).value.exchanges| && After(events).value.exchanges[i].stage.Acked?
    ensures var x := After(events).value.exchanges[i];
            && x.stage.row.conversation == x.conversation && x.stage.row.key == x.key
            && (x.stage.created || x.key.Some?)
            && (x.stage.created ==> IsUserRowOf(x, x.stage.row))
            && (x.key.None? ==> x.stage.created && IsUserRowOf(x, x.stage.row))
  {
    var w := After(events).value;
    ExchangeSafety.Reachable(events);
    assert StageInv(w, w.exchanges[i]) && WroteInv(w, w.exchanges[i]);
  }

  /** An exchange past its look-up although a row of the table has its key: it lost the race to insert. */
  ghost predicate LostRace(w: World, i: nat) {
    i < |w.exchanges| && w.exchanges[i].stage.Inserting? && Existing(w, w.exchanges[i]).Some?
  }

  ghost predicate Loses(w: World, i: nat, x: Exchange) {
    && i < |w.exchanges| && w.exchanges[i] == x.(stage := w.exchanges[i].stage) && Existing(w, x).Some?
    && (w.exchanges[i].stage.Inserting? || w.exchanges[i].stage == Failed(None, false))
  }

  lemma StepKeepsLoser(w: World, ev: Event, i: nat, x: Exchange)
    requires Inv(w) && Enabled(w, ev) && Loses(w, i, x)
    ensures Loses(Step(w, ev), i, x)
    ensures !ev.Receive? && ev.e == i ==> (ev.Collide? || ev.GiveUp?) && Step(w, ev).exchanges[i].stage == Failed(None, false)
    ensures ev.Collide? ==> Step(w, ev).store == w.store.(nextId := w.store.nextId + 1)
  {
    var w' := Step(w, ev);
    ExchangeSafety.StoreAfter(w, ev);
    assert Existing(w, x).value in w.store.table && Existing(w, x).value in w'.store.table;
  }

  /** The backstop: of two concurrent sends under one key that both got past the look-up, the one whose
      insert comes second can only fail, writing nothing, whatever else happens. */
  lemma {:induction false} LoserOfTheRaceFails(events: seq<Event>, more: seq<Event>, i: nat)
    requires After(events).Some? && After(events + more).Some? && LostRace(After(events).value, i)
    ensures Loses(After(events + more).value, i, After(events).value.exchanges[i])
  {
    if more == [] {
      assert events + more == events;
    } else {
      var less, ev := more[..|more| - 1], more[|more| - 1];
      assert (events + more)[..|events + more| - 1] == events + less;
      LoserOfTheRaceFails(events, less, i);
      ExchangeSafety.Reachable(events + less);
      StepKeepsLoser(After(events + less).value, ev, i, After(events).value.exchanges[i]);
    }
  }

  /** A send that looks up when a row of the table has its key already. */
  ghost predicate Repeats(w: World, i: nat, x: Exchange) {
    && i < |w.exchanges| && w.exchanges[i] == x.(stage := w.exchanges[i].stage) && Existing(w, x).Some?
    && (w.exchanges[i].stage in {Checking, Acked(Existing(w, x).value, false), Failed(None, false)})
  }

  lemma ExistingStays(w: World, ev: Event, x: Exchange)
    requires Inv(w) && Enabled(w, ev) && Existing(w, x).Some?
    ensures Existing(Step(w, ev), x) == Existing(w, x)
  {
    ExchangeSafety.StoreAfter(w, ev);
    assert Existing(w, x).value in Step(w, ev).store.table;
    assert Db.SameKey(Existing(w, x).value, Existing(Step(w, ev), x).value);
  }

  lemma StepKeepsRepeat(w: World, ev: Event, i: nat, x: Exchange)
    requires Inv(w) && Enabled(w, ev) && Repeats(w, i, x)
    ensures Repeats(Step(w, ev), i, x)
  {
    ExistingStays(w, ev, x);
  }

  /** A retry that comes after the commit writes nothing: whatever else happens, it is acked with the stored
      row or fails. */
  lemma {:induction false} RetryWritesNothing(events: seq<Event>, more: seq<Event>, i: nat)
    requires After(events).Some? && After(events + more).Some?
    requires var w := After(events).value;
             i < |w.exchanges| && w.exchanges[i].stage.Checking? && Existing(w, w.exchanges[i]).Some?
    ensures Repeats(After(events + more).value, i, After(events).value.exchanges[i])
    ensures var x := After(events).value.exchanges[i];
            Existing(After(events + more).value, x) == Existing(After(events).value, x)
  {
    if more == [] {
      assert events + more == events;
    } else {
      var less, ev := more[..|more| - 1], more[|more| - 1];
      assert (events + more)[..|events + more| - 1] == events + less;
      RetryWritesNothing(events, less, i);
      ExchangeSafety.Reachable(events + less);
      StepKeepsRepeat(After(events + less).value, ev, i, After(events).value.exchanges[i]);
      ExistingStays(After(events + less).value, ev, After(events).value.exchanges[i]);
    }
  }

  /** There is such a race: both sends look up before the first one's commit. */
  lemma RacingSend() returns (events: seq<Event>)
    ensures After(events).Some? && LostRace(After(events).value, 1) && Enabled(After(events).value, Collide(1))
  {
    events := BothLooked();
    var looked, open := SEND.(stage := Inserting), Db.Store(2, map[1 := ROW], [], []);
    events := Extend(events, Insert(0));
    assert [looked, looked][0 := SEND.(stage := Flushed(ROW))] == [SEND.(stage := Flushed(ROW)), looked];
    assert After(events) == Some(World(open, [SEND.(stage := Flushed(ROW)), looked], map[]));
    events := Extend(events, Commit(0));
    assert After(events).value.store.table == MessageTable.Insert([], ROW) == [ROW] + [] == [ROW];
  }

  lemma BothLooked() returns (events: seq<Event>)
    ensures After(events) == Some(World(Db.EMPTY, [SEND.(stage := Inserting), SEND.(stage := Inserting)], map[]))
  {
    var looked := SEND.(stage := Inserting);
    events := Extend([], Receive(0, 1, "hi", Some(9)));
    events := Extend(events, Receive(0, 1, "hi", Some(9)));
    assert [] + [SEND] == [SEND] && [SEND] + [SEND] == [SEND, SEND];
    events := Extend(events, FindNone(0));
    assert [SEND, SEND][0 := looked] == [looked, SEND] && [looked, SEND][1 := looked] == [looked, looked];
    assert After(events) == Some(World(Db.EMPTY, [looked, SEND], map[]));
    events := Extend(events, FindNone(1));
  }

  /** Each committed reply answers one committed, already published user row of its conversation with a
      smaller id. */
  lemma RepliesFollow(events: seq<Event>, reply: Message)
    requires After(events).Some? && reply in After(events).value.store.table && reply.role.Assistant?
    ensures var w := After(events).value;
            && reply.id in w.answers
            && var row := w.answers[reply.id];
            && row in w.store.table && row in w.store.published && row.role.User?
            && row.conversation == reply.conversation && row.id < reply.id
  {
    ExchangeSafety.Reachable(events);
  }

  /** Every published reply comes after the row it answers in the publish order. */
  ghost predicate AnswersTrail(published: seq<Message>, answers: map<nat, Message>) {
    forall at :: 0 <= at < |published| && published[at].role.Assistant? ==>
      published[at].id in answers && answers[published[at].id] in published[..at]
  }

  lemma TrailGrows(published: seq<Message>, answers: map<nat, Message>, more: seq<Message>, answers': map<nat, Message>)
    requires AnswersTrail(published, answers)
    requires forall a :: a in answers ==> a in answers' && answers'[a] == answers[a]
    requires |more| <= 1
    requires forall m :: m in more && m.role.Assistant? ==> m.id in answers' && answers'[m.id] in published
    ensures AnswersTrail(published + more, answers')
  {
    var all := published + more;
    forall at | 0 <= at < |all| && all[at].role.Assistant? ensures all[at].id in answers' && answers'[all[at].id] in all[..at] {
      if at < |published| {
        assert all[..at] == published[..at];
      } else {
        assert all[..at] == published && all[at] in more;
      }
    }
  }

  lemma StepKeepsTrail(w: World, ev: Event)
    requires Inv(w) && Enabled(w, ev) && AnswersTrail(w.store.published, w.answers)
    ensures AnswersTrail(Step(w, ev).store.published, Step(w, ev).answers)
  {
    var w' := Step(w, ev);
    assert !ev.Receive? ==> StageInv(w, w.exchanges[ev.e]) && WroteInv(w, w.exchanges[ev.e]);
    var more := NewlyPublished(w, ev);
    OldAnswersStay(w, ev);
    TrailGrows(w.store.published, w.answers, more, w'.answers);
  }

  /** A step publishes at most one message, and a reply only after the row it answers. */
  lemma NewlyPublished(w: World, ev: Event) returns (more: seq<Message>)
    requires Enabled(w, ev)
    requires !ev.Receive? ==> StageInv(w, w.exchanges[ev.e]) && WroteInv(w, w.exchanges[ev.e])
    ensures Step(w, ev).store.published == w.store.published + more && |more| <= 1
    ensures forall m :: m in more && m.role.Assistant? ==>
              m.id in Step(w, ev).answers && Step(w, ev).answers[m.id] in w.store.published
  {
    more := [];
    if ev.Publish? || (ev.PublishRaises? && ev.reached) {
      var x := w.exchanges[ev.e];
      ExchangeSafety.PublishedAfter(w, ev);
      more := [if x.stage.Stored? then x.stage.row else x.stage.reply];
    }
  }

  lemma OpenRowsAnswerNothing(w: World, row: Message)
    requires Db.Inv(w.store) && AnswersInv(w) && InFlight(w.store, row)
    ensures row.id !in w.answers
  {
  }

  lemma OldAnswersStay(w: World, ev: Event)
    requires Db.Inv(w.store) && AnswersInv(w) && Enabled(w, ev)
    requires !ev.Receive? && w.exchanges[ev.e].stage.ReplyFlushed? ==> InFlight(w.store, w.exchanges[ev.e].stage.reply)
    ensures forall a :: a in w.answers ==> a in NextAnswers(w, ev) && NextAnswers(w, ev)[a] == w.answers[a]
  {
    if NextAnswers(w, ev) != w.answers {
      OpenRowsAnswerNothing(w, w.exchanges[ev.e].stage.reply);
    }
  }

  /** In the publish order a reply never comes before the message it answers. */
  lemma {:induction false} RepliesArePublishedAfter(events: seq<Event>)
    requires After(events).Some?
    ensures var w := After(events).value; AnswersTrail(w.store.published, w.answers)
  {
    if events != [] {
      var earlier, ev := events[..|events| - 1], events[|events| - 1];
      RepliesArePublishedAfter(earlier);
      ExchangeSafety.Reachable(earlier);
      StepKeepsTrail(After(earlier).value, ev);
    }
  }

  // Conservation.

  ghost function UserRows(w: World, conversation: ConversationId): set<Message> {
    set m | m in w.store.table && m.role.User? && m.conversation == conversation
  }

  ghost function AssistantRows(w: World, conversation: ConversationId): set<Message> {
    set m | m in w.store.table && m.role.Assistant? && m.conversation == conversation
  }

  ghost function Owing(w: World, conversation: ConversationId): set<nat> {
    set i | 0 <= i < |w.exchanges| && OwesReply(w.exchanges[i]) && w.exchanges[i].conversation == conversation
  }

  ghost predicate Injective<A, B>(m: map<A, B>) {
    forall x, y :: x in m && y in m && m[x] == m[y] ==> x == y
  }

  lemma {:induction false} InjectiveSize<A, B>(m: map<A, B>)
    requires Injective(m)
    ensures |m.Values| == |m.Keys|
    decreases |m.Keys|
  {
    if m.Keys != {} {
      var x :| x in m.Keys;
      var rest := m - {x};
      assert rest.Keys == m.Keys - {x};
      forall v ensures v in rest.Values <==> v in m.Values && v != m[x] {
        if v in m.Values && v != m[x] {
          var y :| y in m && m[y] == v;
          assert y in rest && rest[y] == v;
        }
      }
      assert rest.Values == m.Values - {m[x]};
      InjectiveSize(rest);
    } else {
      assert m.Values == {};
    }
  }

  ghost function Targets(w: World, conversation: ConversationId): map<Message, Message>
    requires AnswersInv(w)
  {
    map m | m in AssistantRows(w, conversation) :: w.answers[m.id]
  }

  ghost function Debts(w: World, conversation: ConversationId): map<nat, Message> {
    map i | i in Owing(w, conversation) :: w.exchanges[i].stage.row
  }

  lemma TargetsAreUserRows(w: World, conversation: ConversationId)
    requires Db.Inv(w.store) && AnswersInv(w)
    ensures Injective(Targets(w, conversation)) && Targets(w, conversation).Values <= UserRows(w, conversation)
    ensures Targets(w, conversation).Values <= w.answers.Values
  {
  }

  lemma DebtsAreUserRows(w: World, conversation: ConversationId)
    requires Inv(w)
    ensures Injective(Debts(w, conversation)) && Debts(w, conversation).Values <= UserRows(w, conversation)
    ensures Debts(w, conversation).Values !! w.answers.Values
  {
    var debts := Debts(w, conversation);
    forall i | i in debts ensures debts[i] in UserRows(w, conversation) && debts[i] !in w.answers.Values {
      assert StageInv(w, w.exchanges[i]) && WroteInv(w, w.exchanges[i]);
    }
    forall i, j | i in debts && j in debts && debts[i] == debts[j] ensures i == j {
      assert Wrote(w.exchanges[i]) == Some(debts[i]) && Wrote(w.exchanges[j]) == Some(debts[j]);
    }
  }

  /** Per conversation, assistant rows and exchanges still owing a reply never exceed user rows. */
  lemma RepliesAreConserved(events: seq<Event>, conversation: ConversationId)
    requires After(events).Some?
    ensures var w := After(events).value;
            |AssistantRows(w, conversation)| + |Owing(w, conversation)| <= |UserRows(w, conversation)|
  {
    ExchangeSafety.Reachable(events);
    ConservedIn(After(events).value, conversation);
  }

  lemma ConservedIn(w: World, conversation: ConversationId)
    requires Inv(w)
    ensures |AssistantRows(w, conversation)| + |Owing(w, conversation)| <= |UserRows(w, conversation)|
  {
    TargetsAreUserRows(w, conversation);
    DebtsAreUserRows(w, conversation);
    assert Targets(w, conversation).Keys == AssistantRows(w, conversation);
    assert Debts(w, conversation).Keys == Owing(w, conversation);
    DisjointInto(Targets(w, conversation), Debts(w, conversation), UserRows(w, conversation));
  }

  lemma DisjointInto<A, B, C>(m: map<A, C>, n: map<B, C>, all: set<C>)
    requires Injective(m) && Injective(n) && m.Values !! n.Values
    requires m.Values <= all && n.Values <= all
    ensures |m.Keys| + |n.Keys| <= |all|
  {
    InjectiveSize(m);
    InjectiveSize(n);
    SubsetSize(m.Values + n.Values, all);
  }

  // What an ack means.

  /** Every committed user row was written by one of the exchanges. */
  ghost predicate Authored(w: World) {
    forall m :: m in w.store.table && m.role.User? ==> exists i :: 0 <= i < |w.exchanges| && Wrote(w.exchanges[i]) == Some(m)
  }

  lemma AuthorKept(w: World, ev: Event, m: Message)
    requires Db.Inv(w.store) && Enabled(w, ev) && !ev.Receive? && StageInv(w, w.exchanges[ev.e])
    requires Wrote(w.exchanges[ev.e]) == Some(m) && m in w.store.table
    ensures Wrote(Step(w, ev).exchanges[ev.e]) == Some(m)
  {
  }

  lemma CommitterIsAuthor(w: World, ev: Event)
    requires Enabled(w, ev) && (ev.Commit? || ev.CommitUnknown?) && w.exchanges[ev.e].stage.Flushed?
    ensures Wrote(Step(w, ev).exchanges[ev.e]) == Some(w.exchanges[ev.e].stage.row)
  {
  }

  lemma StepKeepsAuthored(w: World, ev: Event)
    requires Inv(w) && Authored(w) && Enabled(w, ev)
    ensures Authored(Step(w, ev))
  {
    var w' := Step(w, ev);
    if !ev.Receive? {
      ExchangeSafety.TableAfter(w, ev);
      assert StageInv(w, w.exchanges[ev.e]);
    }
    forall m | m in w'.store.table && m.role.User?
      ensures exists i :: 0 <= i < |w'.exchanges| && Wrote(w'.exchanges[i]) == Some(m)
    {
      if m in w.store.table {
        var i :| 0 <= i < |w.exchanges| && Wrote(w.exchanges[i]) == Some(m);
        if !ev.Receive? && i == ev.e {
          AuthorKept(w, ev, m);
        }
        assert Wrote(w'.exchanges[i]) == Some(m);
      } else {
        CommitterIsAuthor(w, ev);
        assert Wrote(w'.exchanges[ev.e]) == Some(m);
      }
    }
  }

  lemma {:induction false} RowsAreAuthored(events: seq<Event>)
    requires After(events).Some?
    ensures Authored(After(events).value)
  {
    if events != [] {
      var earlier, ev := events[..|events| - 1], events[|events| - 1];
      RowsAreAuthored(earlier);
      ExchangeSafety.Reachable(earlier);
      StepKeepsAuthored(After(earlier).value, ev);
    }
  }

  /** "An ack means broadcast and replied to" holds exactly when the exchange that wrote the row got as
      far as publishing its reply; an ack of one's own fresh row always means it. */
  lemma AckIsComplete(events: seq<Event>, i: nat)
    requires After(events).Some? && i < |After(events).value.exchanges| && After(events).value.exchanges[i].stage.Acked?
    ensures var w := After(events).value;
            var row := w.exchanges[i].stage.row;
            && (Complete(w, row) ==> row in w.store.published)
            && (Complete(w, row) <==> exists j :: 0 <= j < |w.exchanges| && Wrote(w.exchanges[j]) == Some(row) && Finished(w.exchanges[j]))
            && (w.exchanges[i].stage.created ==> Complete(w, row))
  {
    var w := After(events).value;
    var row := w.exchanges[i].stage.row;
    ExchangeSafety.Reachable(events);
    RowsAreAuthored(events);
    assert StageInv(w, w.exchanges[i]) && WroteInv(w, w.exchanges[i]);
    var j :| 0 <= j < |w.exchanges| && Wrote(w.exchanges[j]) == Some(row);
    assert WroteInv(w, w.exchanges[j]);
    forall k | 0 <= k < |w.exchanges| && Wrote(w.exchanges[k]) == Some(row) ensures k == j {
    }
  }

  lemma Extend(events: seq<Event>, ev: Event) returns (more: seq<Event>)
    requires After(events).Some? && Enabled(After(events).value, ev)
    ensures more == events + [ev]
    ensures After(more) == Some(Step(After(events).value, ev))
  {
    more := events + [ev];
    assert more[..|more| - 1] == events;
  }

  const ROW := Message(1, 0, Some(1), User, "hi", Some(9))
  const SEND := Exchange(0, 1, "hi", Some(9), Checking)
  const STORED := Db.Store(2, map[], [ROW], [])

  /** A step of the only exchange so far. */
  lemma ExtendOne(events: seq<Event>, store: Db.Store, x: Exchange, ev: Event) returns (more: seq<Event>)
    requires After(events) == Some(World(store, [x], map[])) && !ev.Receive? && ev.e == 0
    requires Enabled(World(store, [x], map[]), ev) && !x.stage.ReplyFlushed?
    ensures var w := World(store, [x], map[]);
            var request := Request(w, ev);
            After(more) == Some(World(if request.Some? then Db.Do(store, request.value) else store,
                                      [x.(stage := NextStage(w, ev))], map[]))
  {
    more := Extend(events, ev);
    var x' := x.(stage := NextStage(World(store, [x], map[]), ev));
    assert [x][0 := x'] == [x'];
  }

  lemma StoredRun() returns (events: seq<Event>)
    ensures After(events) == Some(World(STORED, [SEND.(stage := Stored(ROW))], map[]))
  {
    events := Extend([], Receive(0, 1, "hi", Some(9)));
    assert [] + [SEND] == [SEND];
    events := ExtendOne(events, Db.EMPTY, SEND, FindNone(0));
    events := ExtendOne(events, Db.EMPTY, SEND.(stage := Inserting), Insert(0));
    var open := Db.Store(2, map[1 := ROW], [], []);
    events := ExtendOne(events, open, SEND.(stage := Flushed(ROW)), Commit(0));
    assert MessageTable.Insert([], ROW) == [ROW] + [] == [ROW];
    assert open.inflight - {1} == map[];
  }

  /** A keyed retry after a failed publish is acked for a row that nobody was ever sent or answered. */
  lemma RetryAckedUnsent() returns (events: seq<Event>)
    ensures After(events).Some? && |After(events).value.exchanges| == 2
    ensures var w := After(events).value;
            && w.exchanges[1].stage.Acked?
            && w.exchanges[1].stage.row in w.store.table && w.store.published == []
            && !Complete(w, w.exchanges[1].stage.row)
  {
    events := StoredRun();
    events := ExtendOne(events, STORED, SEND.(stage := Stored(ROW)), PublishRaises(0, false));
    var failed := SEND.(stage := Failed(Some(ROW), false));
    events := Extend(events, Receive(0, 1, "hi", Some(9)));
    assert [failed] + [SEND] == [failed, SEND];
    assert After(events) == Some(World(STORED, [failed, SEND], map[]));
    events := Extend(events, FindDuplicate(1));
  }

  /** The delivery engine covers the send flow: whatever an exchange's step asks of the store is a step
      the engine allows, with the same effect on the store. */
  lemma ExchangeDrivesFanout(w: World, ev: Event, s: Fanout.System)
    requires Inv(w) && Enabled(w, ev) && s.store == w.store
    ensures match Request(w, ev)
            case None => Step(w, ev).store == s.store
            case Some(action) =>
              && Fanout.Enabled(s, Fanout.Storage(action))
              && Fanout.Step(s, Fanout.Storage(action)).store == Step(w, ev).store
  {
    RequestsAreAllowed(w, ev);
  }
}
