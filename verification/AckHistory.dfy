/** What an incomplete ack says about the events of the exchange that wrote the row. */
module AckHistory {
  import opened Values
  import opened Exchange
  import ExchangeSafety
  import SendGuarantees

  /** An event by which an exchange fails after its insert. */
  ghost predicate FailsIn(events: seq<Event>, j: nat) {
    || GiveUp(j) in events || Rollback(j) in events || CommitUnknown(j) in events
    || PublishRaises(j, false) in events || PublishRaises(j, true) in events
  }

  ghost predicate RepliesIn(events: seq<Event>, j: nat) {
    exists content :: InsertReply(j, content) in events
  }

  /** The exchange failed before its reply reached Redis: any failure but that of the reply's own publish
      after it got through. */
  ghost predicate CutShort(events: seq<Event>, j: nat) {
    || GiveUp(j) in events || Rollback(j) in events || CommitUnknown(j) in events || PublishRaises(j, false) in events
    || (PublishRaises(j, true) in events && !RepliesIn(events, j))
  }

  predicate Unfinished(stage: Stage) {
    stage.Stored? || stage.Announced? || stage.ReplyFlushed? || stage.ReplyStored?
  }

  /** What the events so far say of an exchange at a stage. */
  ghost predicate Story(events: seq<Event>, j: nat, stage: Stage) {
    match stage
    case Failed(wrote, finished) => wrote.Some? ==> (finished <==> !CutShort(events, j))
    case Acked(_, created) => !FailsIn(events, j)
    case ReplyFlushed(_, _) => !FailsIn(events, j) && RepliesIn(events, j)
    case ReplyStored(_, _) => !FailsIn(events, j) && RepliesIn(events, j)
    case _ => !FailsIn(events, j) && !RepliesIn(events, j)
  }

  ghost predicate Stories(events: seq<Event>, w: World) {
    && (forall ev :: ev in events && !ev.Receive? ==> ev.e < |w.exchanges|)
    && (forall j :: 0 <= j < |w.exchanges| ==> Story(events, j, w.exchanges[j].stage))
  }

  lemma StoryOfOther(events: seq<Event>, ev: Event, j: nat, stage: Stage)
    requires Story(events, j, stage) && (ev.Receive? || ev.e != j)
    ensures Story(events + [ev], j, stage)
  {
    var more := events + [ev];
    assert forall x :: x in more <==> x in events || x == ev;
    assert RepliesIn(more, j) <==> RepliesIn(events, j);
  }

  lemma StoryOfOwn(w: World, events: seq<Event>, ev: Event)
    requires Enabled(w, ev) && !ev.Receive? && Story(events, ev.e, w.exchanges[ev.e].stage)
    ensures Story(events + [ev], ev.e, NextStage(w, ev))
  {
    var more := events + [ev];
    assert forall x :: x in more <==> x in events || x == ev;
    if ev.InsertReply? {
      assert InsertReply(ev.e, ev.content) in more;
    } else {
      assert RepliesIn(more, ev.e) <==> RepliesIn(events, ev.e);
    }
  }

  lemma StoryOfNew(events: seq<Event>, n: nat)
    requires forall ev :: ev in events && !ev.Receive? ==> ev.e < n
    ensures Story(events, n, Checking)
  {
  }

  lemma StepKeepsStories(events: seq<Event>, w: World, ev: Event)
    requires Stories(events, w) && Enabled(w, ev)
    ensures Stories(events + [ev], Step(w, ev))
  {
    var w' := Step(w, ev);
    forall j | 0 <= j < |w'.exchanges| ensures Story(events + [ev], j, w'.exchanges[j].stage) {
      if j == |w.exchanges| {
        StoryOfNew(events + [ev], j);
      } else if !ev.Receive? && ev.e == j {
        StoryOfOwn(w, events, ev);
      } else {
        StoryOfOther(events, ev, j, w.exchanges[j].stage);
      }
    }
  }

  lemma {:induction false} StoriesHold(events: seq<Event>)
    requires After(events).Some?
    ensures Stories(events, After(events).value)
  {
    if events != [] {
      var earlier, ev := events[..|events| - 1], events[|events| - 1];
      assert events == earlier + [ev];
      StoriesHold(earlier);
      StepKeepsStories(earlier, After(earlier).value, ev);
    }
  }

  /** Over a whole run: an acked row was not broadcast and replied to if and only if the exchange that wrote
      it is still on its way there, or one of its own events cut it short. */
  lemma AckIncompleteIff(events: seq<Event>, i: nat) returns (j: nat)
    requires After(events).Some? && i < |After(events).value.exchanges| && After(events).value.exchanges[i].stage.Acked?
    ensures var w := After(events).value;
            var row := w.exchanges[i].stage.row;
            && j < |w.exchanges| && Wrote(w.exchanges[j]) == Some(row)
            && (!Complete(w, row) <==> Unfinished(w.exchanges[j].stage) || CutShort(events, j))
  {
    var w := After(events).value;
    var row := w.exchanges[i].stage.row;
    ExchangeSafety.Reachable(events);
    SendGuarantees.RowsAreAuthored(events);
    StoriesHold(events);
    assert StageInv(w, w.exchanges[i]);
    var author :| 0 <= author < |w.exchanges| && Wrote(w.exchanges[author]) == Some(row);
    j := author;
    AuthorsAck(w, row, j);
    assert Story(events, j, w.exchanges[j].stage);
  }

  lemma AuthorsAck(w: World, row: Message, j: nat)
    requires Inv(w) && row in w.store.table && j < |w.exchanges| && Wrote(w.exchanges[j]) == Some(row)
    ensures Finished(w.exchanges[j]) <==> Complete(w, row)
    ensures Unfinished(w.exchanges[j].stage) || w.exchanges[j].stage.Failed? || (w.exchanges[j].stage.Acked? && w.exchanges[j].stage.created)
  {
    assert StageInv(w, w.exchanges[j]) && WroteInv(w, w.exchanges[j]);
  }
}
