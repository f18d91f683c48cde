/** Forward replay: the messages a reconnecting client missed, fetched page by page. */
module Replay {
  import opened Values
  import opened MessageTable

  const REPLAY_PAGE_SIZE: nat := 500

  /** The paging loop between two queries, or its finished result. */
  datatype Progress =
    | Paging(cursor: Option<int>, collected: seq<Message>)
    | Collected(messages: seq<Message>)
  {
    function Rows(): seq<Message> {
      if Paging? then collected else messages
    }
  }

  /** One turn of the loop: one query against whatever is committed at that moment. */
  function NextPage(rows: seq<Message>, conversation: ConversationId, pageSize: nat, p: Progress): Progress
    requires p.Paging?
  {
    var page := ListSince(rows, conversation, p.cursor, pageSize);
    if page == [] then Collected(p.collected)
    else if |page| < pageSize then Collected(p.collected + page)
    else Paging(Some(page[|page| - 1].id), p.collected + page)
  }

  /** A row is still to come or already taken: the promise one paging state makes about a row. */
  ghost predicate Covers(p: Progress, m: Message) {
    m in p.Rows() || (p.Paging? && (p.cursor.None? || m.id > p.cursor.value))
  }

  /** What every paging state keeps about the rows it has collected. */
  ghost predicate Sound(p: Progress, rows: seq<Message>, conversation: ConversationId, after: Option<int>) {
    && Ascending(p.Rows())
    && (forall m :: m in p.Rows() ==> m in rows && Matches(m, conversation, after, None))
    && (p.Paging? && after.Some? ==> p.cursor.Some? && p.cursor.value >= after.value)
    && (p.Paging? && p.cursor.Some? ==> forall m :: m in p.Rows() ==> m.id <= p.cursor.value)
    && (p.Paging? && p.cursor.None? ==> p.collected == [])
  }

  /** One page never loses a committed row that was still covered, whatever else was committed since. */
  lemma PageKeepsCover(rows: seq<Message>, conversation: ConversationId, pageSize: nat, p: Progress, m: Message)
    requires p.Paging? && pageSize > 0
    requires Ascending(rows)
    requires m in rows && m.conversation == conversation
    requires Covers(p, m)
    ensures Covers(NextPage(rows, conversation, pageSize, p), m)
  {
    var all := Select(rows, conversation, p.cursor, None);
    SelectMembers(rows, conversation, p.cursor, None);
    SelectAscending(rows, conversation, p.cursor, None);
    if m !in p.collected {
      var i :| 0 <= i < |all| && all[i] == m;
      var page := ListSince(rows, conversation, p.cursor, pageSize);
      if i < |page| {
        assert page[i] == m;
      } else {
        assert page[|page| - 1] == all[|page| - 1];
      }
    }
  }

  lemma AscendingConcat(a: seq<Message>, b: seq<Message>)
    requires Ascending(a) && Ascending(b)
    requires forall m, n :: m in a && n in b ==> m.id < n.id
    ensures Ascending(a + b)
  {
    forall i, j | 0 <= i < j < |a + b| ensures (a + b)[i].id < (a + b)[j].id {
      if i < |a| <= j {
        assert a[i] in a && b[j - |a|] in b;
      }
    }
  }

  lemma PageKeepsSound(rows: seq<Message>, more: seq<Message>, conversation: ConversationId, pageSize: nat,
                       after: Option<int>, p: Progress)
    requires p.Paging? && pageSize > 0
    requires Ascending(more) && Contained(rows, more)
    requires Sound(p, rows, conversation, after)
    ensures Sound(NextPage(more, conversation, pageSize, p), more, conversation, after)
  {
    var page := ListSince(more, conversation, p.cursor, pageSize);
    PageRows(more, conversation, pageSize, p.cursor);
    ExtendedIsSound(rows, more, conversation, after, p, page, NextPage(more, conversation, pageSize, p));
  }

  /** A sound state stays sound when an ascending run of matching rows above its cursor is added. */
  lemma ExtendedIsSound(rows: seq<Message>, more: seq<Message>, conversation: ConversationId, after: Option<int>,
                        p: Progress, page: seq<Message>, next: Progress)
    requires p.Paging? && Contained(rows, more) && Sound(p, rows, conversation, after)
    requires Ascending(page) && forall m :: m in page ==> m in more && Matches(m, conversation, p.cursor, None)
    requires forall m :: m in page ==> m.id <= page[|page| - 1].id
    requires next.Rows() == p.collected + page
    requires next.Paging? ==> page != [] && next.cursor == Some(page[|page| - 1].id)
    ensures Sound(next, more, conversation, after)
  {
    AscendingConcat(p.collected, page);
    forall m | m in p.collected ensures m in more {
      assert m in rows;
    }
    if next.Paging? {
      assert page[|page| - 1] in page;
      forall m | m in next.Rows() ensures m.id <= next.cursor.value {
        assert m in p.collected ==> p.cursor.Some? && m.id <= p.cursor.value;
      }
    }
  }

  /** A page is an ascending run of matching rows above its cursor. */
  lemma PageRows(rows: seq<Message>, conversation: ConversationId, pageSize: nat, cursor: Option<int>)
    requires Ascending(rows)
    ensures var page := ListSince(rows, conversation, cursor, pageSize);
            && Ascending(page)
            && (forall m :: m in page ==> m in rows && Matches(m, conversation, cursor, None))
            && (forall m :: m in page ==> m.id <= page[|page| - 1].id)
  {
    var all := Select(rows, conversation, cursor, None);
    var page := ListSince(rows, conversation, cursor, pageSize);
    SelectMembers(rows, conversation, cursor, None);
    SelectAscending(rows, conversation, cursor, None);
    forall m | m in page ensures m in all && m.id <= page[|page| - 1].id {
      var i :| 0 <= i < |page| && page[i] == m;
      assert all[i] == m;
    }
  }

  /** The loop over a table that grows between queries: it reads `snapshots[k]` on its k-th turn. */
  function ReplayOver(snapshots: seq<seq<Message>>, conversation: ConversationId, pageSize: nat, p: Progress): Progress {
    if snapshots == [] || p.Collected? then p
    else ReplayOver(snapshots[1..], conversation, pageSize, NextPage(snapshots[0], conversation, pageSize, p))
  }

  ghost predicate Growing(snapshots: seq<seq<Message>>) {
    && (forall k :: 0 <= k < |snapshots| ==> Ascending(snapshots[k]))
    && (forall j, k :: 0 <= j <= k < |snapshots| ==> Contained(snapshots[j], snapshots[k]))
  }

  /** Under any growth between queries the collected rows stay strictly ascending (so duplicate-free),
      are all committed rows above the cursor, and miss none that was there when replay began. */
  lemma GrowingReplay(snapshots: seq<seq<Message>>, conversation: ConversationId, pageSize: nat, after: Option<int>)
    requires snapshots != [] && Growing(snapshots) && pageSize > 0
    ensures var end := ReplayOver(snapshots, conversation, pageSize, Paging(after, []));
            && Ascending(end.Rows())
            && (forall m :: m in end.Rows() ==> m in snapshots[|snapshots| - 1] && Matches(m, conversation, after, None))
            && (end.Collected? ==> forall m :: m in snapshots[0] && Matches(m, conversation, after, None) ==> m in end.messages)
  {
    var start := Paging(after, []);
    ReplayKeeps(snapshots, [], conversation, pageSize, after, start);
    forall m | m in snapshots[0] && Matches(m, conversation, after, None)
      ensures Covers(ReplayOver(snapshots, conversation, pageSize, start), m)
    {
      ReplayCovers(snapshots, conversation, pageSize, start, m);
    }
  }

  lemma {:induction false} ReplayKeeps(snapshots: seq<seq<Message>>, seen: seq<Message>,
                        conversation: ConversationId, pageSize: nat, after: Option<int>, p: Progress)
    requires Growing(snapshots) && pageSize > 0
    requires snapshots != [] ==> Contained(seen, snapshots[0])
    requires Sound(p, seen, conversation, after)
    ensures Sound(ReplayOver(snapshots, conversation, pageSize, p), if snapshots == [] then seen else snapshots[|snapshots| - 1], conversation, after)
  {
    if snapshots != [] {
      var last := snapshots[|snapshots| - 1];
      if p.Collected? {
        assert Contained(snapshots[0], last);
      } else {
        PageKeepsSound(seen, snapshots[0], conversation, pageSize, after, p);
        var rest := snapshots[1..];
        if rest != [] {
          assert Contained(snapshots[0], snapshots[1]);
        }
        ReplayKeeps(rest, snapshots[0], conversation, pageSize, after, NextPage(snapshots[0], conversation, pageSize, p));
      }
    }
  }

  lemma {:induction false} ReplayCovers(snapshots: seq<seq<Message>>, conversation: ConversationId, pageSize: nat,
      p: Progress, m: Message)
    requires Growing(snapshots) && pageSize > 0
    requires forall k :: 0 <= k < |snapshots| ==> m in snapshots[k]
    requires m.conversation == conversation && Covers(p, m)
    ensures Covers(ReplayOver(snapshots, conversation, pageSize, p), m)
  {
    if snapshots != [] && p.Paging? {
      PageKeepsCover(snapshots[0], conversation, pageSize, p, m);
      ReplayCovers(snapshots[1..], conversation, pageSize, NextPage(snapshots[0], conversation, pageSize, p), m);
    }
  }

  /** A page is the whole query, or a proper part of it followed by the query above its last row. */
  lemma PageSplits(rows: seq<Message>, conversation: ConversationId, cursor: Option<int>, pageSize: nat)
    requires Ascending(rows) && pageSize > 0
    ensures var left := Select(rows, conversation, cursor, None);
            var page := ListSince(rows, conversation, cursor, pageSize);
            if page == [] || |page| < pageSize then page == left
            else
              var rest := Select(rows, conversation, Some(page[|page| - 1].id), None);
              left == page + rest && |rest| < |left|
  {
    var left := Select(rows, conversation, cursor, None);
    var page := ListSince(rows, conversation, cursor, pageSize);
    if page != [] {
      SelectAfterPage(rows, conversation, cursor, |page|);
      assert left == left[..|page|] + left[|page|..];
    }
  }

  /** The loop asks no query more than it must: over a table that does not change it is done as soon as its
      pages have room for one row more than there are. */
  lemma {:induction false} TurnsTaken(rows: seq<Message>, conversation: ConversationId, pageSize: nat, p: Progress, turns: nat)
    requires Ascending(rows) && pageSize > 0 && p.Paging?
    ensures ReplayOver(seq(turns, _ => rows), conversation, pageSize, p).Collected?
            <==> turns * pageSize > |Select(rows, conversation, p.cursor, None)|
    decreases turns
  {
    if turns > 0 {
      PageSplits(rows, conversation, p.cursor, pageSize);
      var next := NextPage(rows, conversation, pageSize, p);
      assert seq(turns, _ => rows)[1..] == seq(turns - 1, _ => rows);
      assert turns * pageSize == (turns - 1) * pageSize + pageSize;
      if next.Paging? {
        TurnsTaken(rows, conversation, pageSize, next, turns - 1);
      } else {
        DoneStays(seq(turns - 1, _ => rows), conversation, pageSize, next);
        Room(turns, pageSize);
      }
    }
  }

  lemma Room(turns: nat, pageSize: nat)
    requires turns > 0
    ensures turns * pageSize >= pageSize
  {
    assert turns * pageSize == (turns - 1) * pageSize + pageSize;
  }

  lemma DoneStays(snapshots: seq<seq<Message>>, conversation: ConversationId, pageSize: nat, p: Progress)
    requires p.Collected?
    ensures ReplayOver(snapshots, conversation, pageSize, p) == p
  {
  }

  /** The replay use case against a store that does not change while it runs. */
  class ReplayMessages {
    const rows: seq<Message>
    const pageSize: nat

    constructor (rows: seq<Message>, pageSize: nat := REPLAY_PAGE_SIZE)
      ensures this.rows == rows && this.pageSize == pageSize
    {
      this.rows := rows;
      this.pageSize := pageSize;
    }

    /** Terminates, for every page size, with exactly the rows of the unpaged query, in order. */
    method Execute(conversation: ConversationId, after: Option<int>) returns (collected: seq<Message>)
      requires Ascending(rows) && pageSize > 0
      ensures collected == Select(rows, conversation, after, None)
      ensures Ascending(collected)
    {
      SelectAscending(rows, conversation, after, None);
      collected := [];
      var cursor := after;
      while true
        invariant collected + Select(rows, conversation, cursor, None) == Select(rows, conversation, after, None)
        decreases |Select(rows, conversation, cursor, None)|
      {
        PageSplits(rows, conversation, cursor, pageSize);
        var page := ListSince(rows, conversation, cursor, pageSize);
        if page == [] {
          break;
        }
        collected := collected + page;
        if |page| < pageSize {
          break;
        }
        cursor := Some(page[|page| - 1].id);
      }
    }
  }
}
