/** Idempotent send, persist-before-broadcast and conservation, over every schedule and every failure. */
module ExchangeSafety {
  import opened Values
  import opened MessageTable
  import opened Exchange
  import Db = MessageStore

  /** The call that puts a reply into the publish order. */
  ghost predicate PublishesReply(w: World, ev: Event)
    requires Enabled(w, ev)
  {
    !ev.Receive? && w.exchanges[ev.e].stage.ReplyStored? && (ev.Publish? || (ev.PublishRaises? && ev.reached))
  }

  lemma StoreAfter(w: World, ev: Event)
    requires Db.Inv(w.store) && Enabled(w, ev) && OwnInv(w, ev)
    ensures var w' := Step(w, ev);
            && Db.Inv(w'.store)
            && Contained(w.store.table, w'.store.table)
            && Contained(w.store.published, w'.store.published)
            && w.store.nextId <= w'.store.nextId
  {
    RequestsAreAllowed(w, ev);
    if Request(w, ev).Some? {
      Db.DoKeepsInv(w.store, Request(w, ev).value);
      Db.DoGrowsTable(w.store, Request(w, ev).value);
    }
  }

  /** A commit adds exactly the exchange's own open row. */
  lemma TableAfter(w: World, ev: Event)
    requires Db.Inv(w.store) && Enabled(w, ev) && !ev.Receive? && OwnInv(w, ev)
    ensures var w', x := Step(w, ev), w.exchanges[ev.e];
            forall m :: m in w'.store.table <==>
              m in w.store.table
              || ((ev.Commit? || ev.CommitUnknown?) && m == if x.stage.Flushed? then x.stage.row else x.stage.reply)
  {
    RequestsAreAllowed(w, ev);
    if ev.Commit? || ev.CommitUnknown? {
      InsertMembers(w.store.table, w.store.inflight[Request(w, ev).value.id]);
    }
  }

  lemma AnsweredByCommit(published: seq<Message>, answers: map<nat, Message>, id: nat, target: Message, row: Message)
    requires forall m :: m in published ==> m.id != id
    ensures Answered(published, answers[id := target], row) <==> Answered(published, answers, row)
  {
  }

  lemma AnsweredByPublish(published: seq<Message>, answers: map<nat, Message>, m: Message, row: Message)
    ensures Answered(published + [m], answers, row) <==>
            Answered(published, answers, row) || (m.role.Assistant? && m.id in answers && answers[m.id] == row)
  {
    if Answered(published, answers, row) {
      var reply :| reply in published && reply.role.Assistant? && reply.id in answers && answers[reply.id] == row;
      assert reply in published + [m];
    }
    assert m in published + [m];
  }

  /** The store after each kind of step, in the terms the invariant uses. */
  lemma PublishedAfter(w: World, ev: Event)
    requires Enabled(w, ev) && !ev.Receive?
    ensures var w', x := Step(w, ev), w.exchanges[ev.e];
            if ev.Publish? || (ev.PublishRaises? && ev.reached)
            then w'.store.published == w.store.published + [if x.stage.Stored? then x.stage.row else x.stage.reply]
            else w'.store.published == w.store.published
  {
  }

  lemma CompleteAfter(w: World, ev: Event, row: Message)
    requires Db.Inv(w.store) && AnswersInv(w) && Enabled(w, ev) && !ev.Receive? && OwnInv(w, ev)
    ensures Complete(Step(w, ev), row) <==> Complete(w, row) || (PublishesReply(w, ev) && row == w.exchanges[ev.e].stage.row)
  {
    var x := w.exchanges[ev.e];
    PublishedAfter(w, ev);
    if ev.Publish? || (ev.PublishRaises? && ev.reached) {
      AnsweredByPublish(w.store.published, w.answers, if x.stage.Stored? then x.stage.row else x.stage.reply, row);
    } else if NextAnswers(w, ev) != w.answers {
      UnpublishedReply(w, x.stage.reply);
      AnsweredByCommit(w.store.published, w.answers, x.stage.reply.id, x.stage.row, row);
    }
  }

  lemma UnpublishedReply(w: World, reply: Message)
    requires Db.Inv(w.store) && InFlight(w.store, reply)
    ensures forall m :: m in w.store.published ==> m.id != reply.id
  {
  }

  lemma AnswersKept(w: World, ev: Event)
    requires Db.Inv(w.store) && AnswersInv(w) && Enabled(w, ev) && !ev.Receive? && OwnInv(w, ev)
    ensures AnswersInv(Step(w, ev))
  {
    var w', x := Step(w, ev), w.exchanges[ev.e];
    StoreAfter(w, ev);
    TableAfter(w, ev);
    if ev.Commit? || ev.CommitUnknown? {
      PublishedAfter(w, ev);
      if x.stage.ReplyFlushed? {
        AnswerAdded(w.store.table, w'.store.table, w.store.published, w.answers, w.store.nextId, x.stage.row, x.stage.reply);
      } else {
        UserRowAdded(w.store.table, w'.store.table, w.store.published, w.answers, w.store.nextId, x.stage.row);
      }
    } else {
      AnswersGrow(w.store.table, w'.store.table, w.store.published, w'.store.published, w.answers, w.store.nextId, w'.store.nextId);
    }
  }

  lemma AnswersGrow(table: seq<Message>, table': seq<Message>, published: seq<Message>, published': seq<Message>,
                    answers: map<nat, Message>, nextId: nat, nextId': nat)
    requires AnswersIn(table, published, answers, nextId)
    requires Contained(table, table') && Contained(table', table) && Contained(published, published') && nextId <= nextId'
    ensures AnswersIn(table', published', answers, nextId')
  {
    forall a | a in answers ensures exists m :: m in table' && m.id == a {
      var m :| m in table && m.id == a;
      assert m in table';
    }
  }

  lemma UserRowAdded(table: seq<Message>, table': seq<Message>, published: seq<Message>, answers: map<nat, Message>,
                     nextId: nat, row: Message)
    requires AnswersIn(table, published, answers, nextId)
    requires row.role.User? && forall m :: m in table' <==> m in table || m == row
    requires forall m :: m in table ==> m.id != row.id
    ensures AnswersIn(table', published, answers, nextId)
  {
    assert row.id !in answers;
    forall a | a in answers ensures exists m :: m in table' && m.id == a {
      var m :| m in table && m.id == a;
      assert m in table';
    }
  }

  lemma AnswerAdded(table: seq<Message>, table': seq<Message>, published: seq<Message>, answers: map<nat, Message>,
                    nextId: nat, row: Message, reply: Message)
    requires AnswersIn(table, published, answers, nextId)
    requires forall m :: m in table' <==> m in table || m == reply
    requires forall m :: m in table ==> m.id != reply.id
    requires reply.role.Assistant? && reply.key.None? && reply.conversation == row.conversation
    requires row in table && row in published && row.role.User? && row.id < reply.id < nextId
    requires row !in answers.Values
    ensures AnswersIn(table', published, answers[reply.id := row], nextId)
  {
    assert reply.id !in answers;
    var more := answers[reply.id := row];
    forall a | a in more ensures exists m :: m in table' && m.id == a {
      if a == reply.id {
        assert reply in table';
      } else {
        var m :| m in table && m.id == a;
        assert m in table';
      }
    }
    forall a, b | a in more && b in more && more[a] == more[b] ensures a == b {
      assert a in answers ==> answers[a] in answers.Values;
      assert b in answers ==> answers[b] in answers.Values;
    }
  }

  /** A step never makes an exchange the writer of a row other than a new one. */
  ghost predicate KeepsOrNew(before: Option<Message>, after: Option<Message>, nextId: nat) {
    after == before || after == None || (after.Some? && after.value.id == nextId)
  }

  lemma WritesOnlyNewRows(w: World, ev: Event)
    requires Enabled(w, ev) && !ev.Receive?
    ensures var x, x' := w.exchanges[ev.e], Step(w, ev).exchanges[ev.e];
            KeepsOrNew(Wrote(x), Wrote(x'), w.store.nextId) && KeepsOrNew(ReplyOf(x), ReplyOf(x'), w.store.nextId)
  {
  }

  lemma SeparateKept(w: World, ev: Event)
    requires Inv(w) && Enabled(w, ev) && !ev.Receive?
    ensures Separate(Step(w, ev).exchanges)
  {
    WritesOnlyNewRows(w, ev);
    forall i | 0 <= i < |w.exchanges| ensures RowsAllocated(w, w.exchanges[i]) {
      RowsHaveIds(w, w.exchanges[i]);
    }
    SeparateUpdate(w, ev.e, Step(w, ev).exchanges[ev.e]);
  }

  lemma RowsHaveIds(w: World, x: Exchange)
    requires Db.Inv(w.store) && StageInv(w, x) && WroteInv(w, x)
    ensures RowsAllocated(w, x)
  {
  }

  ghost predicate RowsAllocated(w: World, x: Exchange) {
    && (Wrote(x).Some? ==> Wrote(x).value.id < w.store.nextId)
    && (ReplyOf(x).Some? ==> ReplyOf(x).value.id < w.store.nextId)
  }

  lemma SeparateUpdate(w: World, e: nat, x': Exchange)
    requires e < |w.exchanges| && Separate(w.exchanges)
    requires forall i :: 0 <= i < |w.exchanges| ==> RowsAllocated(w, w.exchanges[i])
    requires KeepsOrNew(Wrote(w.exchanges[e]), Wrote(x'), w.store.nextId)
    requires KeepsOrNew(ReplyOf(w.exchanges[e]), ReplyOf(x'), w.store.nextId)
    ensures Separate(w.exchanges[e := x'])
  {
    forall i | 0 <= i < |w.exchanges| ensures RowsAllocated(w, w.exchanges[i]) {
    }
  }

  // What one exchange's step does to another.

  ghost predicate Apart(x: Exchange, y: Exchange) {
    && (Wrote(x).Some? && Wrote(y).Some? ==> Wrote(x).value.id != Wrote(y).value.id)
    && (ReplyOf(x).Some? && ReplyOf(y).Some? ==> ReplyOf(x).value.id != ReplyOf(y).value.id)
  }

  lemma OthersKept(w: World, ev: Event, i: nat)
    requires Inv(w) && Enabled(w, ev) && !ev.Receive? && i < |w.exchanges| && i != ev.e
    ensures StageInv(Step(w, ev), w.exchanges[i]) && WroteInv(Step(w, ev), w.exchanges[i])
  {
    var x, y := w.exchanges[ev.e], w.exchanges[i];
    assert StageInv(w, x) && WroteInv(w, x) && StageInv(w, y) && WroteInv(w, y);
    assert Apart(x, y);
    if Wrote(y).Some? {
      CompleteAfter(w, ev, Wrote(y).value);
    }
    if ev.Publish? || ev.PublishRaises? {
      PublishKeepsOther(w, ev, y);
    } else if ev.Commit? || ev.CommitUnknown? {
      CommitKeepsOther(w, ev, y);
    } else if ev.Rollback? {
      RollbackKeepsOther(w, ev, y);
    } else {
      QuietKeepsOther(w, ev, y);
    }
  }

  lemma QuietKeepsOther(w: World, ev: Event, y: Exchange)
    requires Db.Inv(w.store) && Enabled(w, ev)
    requires ev.FindDuplicate? || ev.FindNone? || ev.Insert? || ev.InsertReply? || ev.Collide? || ev.GiveUp?
    requires StageInv(w, y) && WroteInv(w, y)
    requires Wrote(y).Some? ==> (Complete(Step(w, ev), Wrote(y).value) <==> Complete(w, Wrote(y).value))
    ensures StageInv(Step(w, ev), y) && WroteInv(Step(w, ev), y)
  {
    var w' := Step(w, ev);
    assert w'.store.table == w.store.table && w'.store.published == w.store.published && w'.answers == w.answers;
    assert forall row :: InFlight(w.store, row) ==> InFlight(w'.store, row);
  }

  lemma RollbackKeepsOther(w: World, ev: Event, y: Exchange)
    requires Enabled(w, ev) && ev.Rollback?
    requires StageInv(w, y) && WroteInv(w, y) && Apart(w.exchanges[ev.e], y)
    requires StageInv(w, w.exchanges[ev.e]) && WroteInv(w, w.exchanges[ev.e])
    requires Wrote(y).Some? ==> (Complete(Step(w, ev), Wrote(y).value) <==> Complete(w, Wrote(y).value))
    ensures StageInv(Step(w, ev), y) && WroteInv(Step(w, ev), y)
  {
    var w' := Step(w, ev);
    assert w'.store.table == w.store.table && w'.store.published == w.store.published && w'.answers == w.answers;
    OwnRowsStayOpen(w, ev, y);
  }

  /** Ending one transaction leaves every other exchange's open row open. */
  lemma OwnRowsStayOpen(w: World, ev: Event, y: Exchange)
    requires Enabled(w, ev) && (ev.Rollback? || ev.Commit? || ev.CommitUnknown?)
    requires var x := w.exchanges[ev.e]; StageInv(w, x) && WroteInv(w, x) && Apart(x, y)
    requires StageInv(w, y) && WroteInv(w, y)
    ensures y.stage.Flushed? ==> InFlight(Step(w, ev).store, y.stage.row)
    ensures y.stage.ReplyFlushed? ==> InFlight(Step(w, ev).store, y.stage.reply)
  {
    var x := w.exchanges[ev.e];
    var id := Request(w, ev).value.id;
    assert Step(w, ev).store.inflight == w.store.inflight - {id};
    if y.stage.Flushed? {
      assert id != y.stage.row.id;
    } else if y.stage.ReplyFlushed? {
      assert id != y.stage.reply.id;
    }
  }

  lemma CommitKeepsOther(w: World, ev: Event, y: Exchange)
    requires Db.Inv(w.store) && AnswersInv(w) && Enabled(w, ev) && (ev.Commit? || ev.CommitUnknown?)
    requires StageInv(w, y) && WroteInv(w, y) && Apart(w.exchanges[ev.e], y)
    requires StageInv(w, w.exchanges[ev.e]) && WroteInv(w, w.exchanges[ev.e])
    requires Wrote(y).Some? ==> (Complete(Step(w, ev), Wrote(y).value) <==> Complete(w, Wrote(y).value))
    ensures StageInv(Step(w, ev), y) && WroteInv(Step(w, ev), y)
  {
    var w', x := Step(w, ev), w.exchanges[ev.e];
    OwnRowsStayOpen(w, ev, y);
    StoreAfter(w, ev);
    PublishedAfter(w, ev);
    if x.stage.Flushed? {
      assert w'.answers == w.answers;
      CommitKeepsOtherWith(w, w', y, 0, None);
    } else {
      assert w'.answers == w.answers[x.stage.reply.id := x.stage.row];
      CommitKeepsOtherWith(w, w', y, x.stage.reply.id, Some(x.stage.row));
    }
  }

  lemma CommitKeepsOtherWith(w: World, w': World, y: Exchange, id: nat, target: Option<Message>)
    requires StageInv(w, y) && WroteInv(w, y)
    requires Contained(w.store.table, w'.store.table) && w'.store.published == w.store.published
    requires w'.answers == if target.Some? then w.answers[id := target.value] else w.answers
    requires target.Some? ==> id !in w.answers && (Wrote(y).Some? ==> Wrote(y).value != target.value)
    requires y.stage.Flushed? ==> InFlight(w'.store, y.stage.row)
    requires y.stage.ReplyFlushed? ==> InFlight(w'.store, y.stage.reply)
    requires Wrote(y).Some? ==> (Complete(w', Wrote(y).value) <==> Complete(w, Wrote(y).value))
    ensures StageInv(w', y) && WroteInv(w', y)
  {
  }

  lemma PublishKeepsOther(w: World, ev: Event, y: Exchange)
    requires Enabled(w, ev) && (ev.Publish? || ev.PublishRaises?)
    requires StageInv(w, y) && WroteInv(w, y) && Apart(w.exchanges[ev.e], y)
    requires StageInv(w, w.exchanges[ev.e]) && WroteInv(w, w.exchanges[ev.e])
    requires Wrote(y).Some? ==> (Complete(Step(w, ev), Wrote(y).value) <==>
               Complete(w, Wrote(y).value) || (PublishesReply(w, ev) && Wrote(y).value == w.exchanges[ev.e].stage.row))
    ensures StageInv(Step(w, ev), y) && WroteInv(Step(w, ev), y)
  {
    var w' := Step(w, ev);
    PublishedAfter(w, ev);
    assert w'.store.table == w.store.table && w'.store.inflight == w.store.inflight && w'.answers == w.answers;
  }

  // What a step does to its own exchange.

  lemma OwnKept(w: World, ev: Event)
    requires Inv(w) && Enabled(w, ev) && !ev.Receive?
    ensures var w' := Step(w, ev); StageInv(w', w'.exchanges[ev.e]) && WroteInv(w', w'.exchanges[ev.e])
  {
    var x := w.exchanges[ev.e];
    assert StageInv(w, x) && WroteInv(w, x);
    if ev.Insert? || ev.InsertReply? {
      InsertKeepsOwn(w, ev);
    } else if ev.Commit? || ev.CommitUnknown? {
      CompleteAfter(w, ev, x.stage.row);
      CommitKeepsOwn(w, ev);
    } else if ev.Publish? || ev.PublishRaises? {
      CompleteAfter(w, ev, x.stage.row);
      PublishKeepsOwn(w, ev);
    } else if ev.FindDuplicate? || ev.FindNone? {
      FindKeepsOwn(w, ev);
    } else {
      FailureKeepsOwn(w, ev);
    }
  }

  lemma FindKeepsOwn(w: World, ev: Event)
    requires AnswersInv(w) && Enabled(w, ev) && (ev.FindDuplicate? || ev.FindNone?)
    requires StageInv(w, w.exchanges[ev.e]) && WroteInv(w, w.exchanges[ev.e])
    ensures var w' := Step(w, ev); StageInv(w', w'.exchanges[ev.e]) && WroteInv(w', w'.exchanges[ev.e])
  {
    var w' := Step(w, ev);
    assert w'.store == w.store && w'.answers == w.answers;
    if ev.FindDuplicate? {
      var row := Existing(w, w.exchanges[ev.e]).value;
      assert row in w.store.table && row.key.Some?;
    }
  }

  lemma FailureKeepsOwn(w: World, ev: Event)
    requires Enabled(w, ev) && (ev.Collide? || ev.GiveUp? || ev.Rollback?)
    requires StageInv(w, w.exchanges[ev.e]) && WroteInv(w, w.exchanges[ev.e])
    ensures var w' := Step(w, ev); StageInv(w', w'.exchanges[ev.e]) && WroteInv(w', w'.exchanges[ev.e])
  {
    var w' := Step(w, ev);
    assert w'.store.table == w.store.table && w'.store.published == w.store.published && w'.answers == w.answers;
    assert forall row :: Complete(w', row) <==> Complete(w, row);
  }

  lemma InsertKeepsOwn(w: World, ev: Event)
    requires Db.Inv(w.store) && AnswersInv(w) && Enabled(w, ev) && (ev.Insert? || ev.InsertReply?)
    requires StageInv(w, w.exchanges[ev.e]) && WroteInv(w, w.exchanges[ev.e])
    ensures var w' := Step(w, ev); StageInv(w', w'.exchanges[ev.e]) && WroteInv(w', w'.exchanges[ev.e])
  {
    var w', x := Step(w, ev), w.exchanges[ev.e];
    assert w'.store.table == w.store.table && w'.store.published == w.store.published && w'.answers == w.answers;
    assert forall row :: Complete(w', row) <==> Complete(w, row);
    if ev.Insert? {
      NewRowIsUnanswered(w, UserRow(w, x));
    }
  }

  lemma NewRowIsUnanswered(w: World, row: Message)
    requires Db.Inv(w.store) && AnswersInv(w) && row.id == w.store.nextId
    ensures row !in w.answers.Values && !Complete(w, row)
  {
  }

  lemma CommitKeepsOwn(w: World, ev: Event)
    requires Db.Inv(w.store) && AnswersInv(w) && Enabled(w, ev) && (ev.Commit? || ev.CommitUnknown?)
    requires StageInv(w, w.exchanges[ev.e]) && WroteInv(w, w.exchanges[ev.e])
    requires Complete(Step(w, ev), w.exchanges[ev.e].stage.row) <==>
               Complete(w, w.exchanges[ev.e].stage.row) || PublishesReply(w, ev)
    ensures var w' := Step(w, ev); StageInv(w', w'.exchanges[ev.e]) && WroteInv(w', w'.exchanges[ev.e])
  {
    if w.exchanges[ev.e].stage.Flushed? {
      RowCommitKeepsOwn(w, ev);
    } else {
      ReplyCommitKeepsOwn(w, ev);
    }
  }

  lemma RowCommitKeepsOwn(w: World, ev: Event)
    requires Db.Inv(w.store) && AnswersInv(w) && Enabled(w, ev) && (ev.Commit? || ev.CommitUnknown?)
    requires w.exchanges[ev.e].stage.Flushed? && StageInv(w, w.exchanges[ev.e]) && WroteInv(w, w.exchanges[ev.e])
    requires Complete(Step(w, ev), w.exchanges[ev.e].stage.row) <==> Complete(w, w.exchanges[ev.e].stage.row)
    ensures var w' := Step(w, ev); StageInv(w', w'.exchanges[ev.e]) && WroteInv(w', w'.exchanges[ev.e])
  {
    var w', x := Step(w, ev), w.exchanges[ev.e];
    TableAfter(w, ev);
    PublishedAfter(w, ev);
    assert x.stage.row in w'.store.table && x.stage.row !in w.store.published;
    assert w'.answers == w.answers;
  }

  lemma ReplyCommitKeepsOwn(w: World, ev: Event)
    requires Db.Inv(w.store) && AnswersInv(w) && Enabled(w, ev) && (ev.Commit? || ev.CommitUnknown?)
    requires w.exchanges[ev.e].stage.ReplyFlushed? && StageInv(w, w.exchanges[ev.e]) && WroteInv(w, w.exchanges[ev.e])
    requires Complete(Step(w, ev), w.exchanges[ev.e].stage.row) <==> Complete(w, w.exchanges[ev.e].stage.row)
    ensures var w' := Step(w, ev); StageInv(w', w'.exchanges[ev.e]) && WroteInv(w', w'.exchanges[ev.e])
  {
    var w', x := Step(w, ev), w.exchanges[ev.e];
    TableAfter(w, ev);
    PublishedAfter(w, ev);
    assert x.stage.reply in w'.store.table && x.stage.reply !in w.store.published;
    assert w'.answers == w.answers[x.stage.reply.id := x.stage.row];
  }

  lemma PublishKeepsOwn(w: World, ev: Event)
    requires Enabled(w, ev) && (ev.Publish? || ev.PublishRaises?)
    requires StageInv(w, w.exchanges[ev.e]) && WroteInv(w, w.exchanges[ev.e])
    requires Complete(Step(w, ev), w.exchanges[ev.e].stage.row) <==>
               Complete(w, w.exchanges[ev.e].stage.row) || PublishesReply(w, ev)
    ensures var w' := Step(w, ev); StageInv(w', w'.exchanges[ev.e]) && WroteInv(w', w'.exchanges[ev.e])
  {
    var w', x := Step(w, ev), w.exchanges[ev.e];
    PublishedAfter(w, ev);
    assert w'.store.table == w.store.table && w'.answers == w.answers;
    var x' := w'.exchanges[ev.e];
    assert Wrote(x') == Some(x.stage.row);
    if x.stage.Stored? {
      assert x'.stage == if ev.Publish? then Announced(x.stage.row) else Failed(Some(x.stage.row), false);
    } else {
      assert x'.stage == if ev.Publish? then Acked(x.stage.row, true) else Failed(Some(x.stage.row), ev.reached);
    }
  }

  lemma StepKeepsInv(w: World, ev: Event)
    requires Inv(w) && Enabled(w, ev)
    ensures Inv(Step(w, ev))
  {
    var w' := Step(w, ev);
    if ev.Receive? {
      forall i | 0 <= i < |w'.exchanges| ensures StageInv(w', w'.exchanges[i]) && WroteInv(w', w'.exchanges[i]) {
        if i < |w.exchanges| {
          assert StageInv(w, w.exchanges[i]) && WroteInv(w, w.exchanges[i]);
        }
      }
    } else {
      StoreAfter(w, ev);
      AnswersKept(w, ev);
      SeparateKept(w, ev);
      forall i | 0 <= i < |w'.exchanges| ensures StageInv(w', w'.exchanges[i]) && WroteInv(w', w'.exchanges[i]) {
        if i == ev.e {
          OwnKept(w, ev);
        } else {
          OthersKept(w, ev, i);
        }
      }
    }
  }

  lemma {:induction false} Reachable(events: seq<Event>)
    requires After(events).Some?
    ensures Inv(After(events).value)
  {
    if events != [] {
      var earlier, ev := events[..|events| - 1], events[|events| - 1];
      Reachable(earlier);
      StepKeepsInv(After(earlier).value, ev);
    }
  }
}
