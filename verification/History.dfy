/** Backward history: pages over-fetched by one row, chained through a keyset cursor. */
module History {
  import opened Values
  import opened MessageTable

  datatype Page = Page(items: seq<Message>, nextCursor: Option<nat>, hasMore: bool)

  datatype Response = ConversationNotFound | NotParticipant | Served(page: Page)

  function Bound(cursor: Option<nat>): Option<int> {
    if cursor.None? then None else Some(cursor.value)
  }

  /** One page: ask for `limit + 1` rows, so an extra row says that an older page exists. */
  function FetchPage(rows: seq<Message>, conversation: ConversationId, before: Option<nat>, limit: nat): Page {
    var fetched := ListHistory(rows, conversation, Bound(before), limit + 1);
    var hasMore := |fetched| > limit;
    var items := Take(fetched, limit);
    Page(items, if hasMore && items != [] then Some(items[|items| - 1].id) else None, hasMore)
  }

  /** The use case: the conversation must be visible and the reader one of its participants. */
  function Execute(participants: Option<set<UserId>>, reader: UserId, rows: seq<Message>, conversation: ConversationId,
                   before: Option<nat>, limit: nat): Response {
    if participants.None? then ConversationNotFound
    else if reader !in participants.value then NotParticipant
    else Served(FetchPage(rows, conversation, before, limit))
  }

  /** The page is the newest `limit` rows below the cursor; the flag and the cursor say exactly
      whether, and from where, older rows remain. */
  lemma PageIsExact(rows: seq<Message>, conversation: ConversationId, before: Option<nat>, limit: nat)
    requires Ascending(rows) && limit > 0
    ensures var page := FetchPage(rows, conversation, before, limit);
            var older := Select(rows, conversation, None, Bound(before));
            && (page.hasMore <==> |older| > limit)
            && (page.nextCursor.Some? <==> page.hasMore)
            && (!page.hasMore ==> page.items == Reverse(older))
            && (page.hasMore ==>
                  var rest := Select(rows, conversation, None, Bound(page.nextCursor));
                  && Reverse(older) == page.items + Reverse(rest)
                  && |page.items| == limit
                  && (before.Some? ==> page.nextCursor.value < before.value))
  {
    var older := Select(rows, conversation, None, Bound(before));
    var page := FetchPage(rows, conversation, before, limit);
    ReverseAt(older);
    var newest := Reverse(older);
    if |older| > limit {
      var k := |older| - limit;
      assert page.items == newest[..limit];
      assert page.items[limit - 1] == older[k];
      SelectBeforePage(rows, conversation, Bound(before), k);
      SelectMembers(rows, conversation, None, Bound(before));
      assert older[k] in older;
      assert older == older[..k] + older[k..];
      ReverseConcat(older[..k], older[k..]);
      ReverseAt(older[k..]);
      ReverseAt(older[..k]);
      assert page.items == Reverse(older[k..]);
    }
  }

  /** The table as successive pages see it: `world[0]` now, the last entry for ever after. */
  function Later<T>(world: seq<T>): seq<T> {
    if |world| > 1 then world[1..] else world
  }

  ghost predicate AllAscending(world: seq<seq<Message>>) {
    world != [] && forall i :: 0 <= i < |world| ==> Ascending(world[i])
  }

  /** A client following `nextCursor` from page to page while the table changes under it. */
  ghost function Walk(world: seq<seq<Message>>, conversation: ConversationId, before: Option<nat>, limit: nat): seq<Message>
    requires limit > 0 && AllAscending(world)
    decreases before.None?, if before.None? then 0 else before.value
  {
    var page := FetchPage(world[0], conversation, before, limit);
    if !page.hasMore then page.items
    else
      PageIsExact(world[0], conversation, before, limit);
      page.items + Walk(Later(world), conversation, page.nextCursor, limit)
  }

  /** `later` is `earlier` with further rows appended above all of its ids. */
  ghost predicate AppendsOnly(earlier: seq<Message>, later: seq<Message>) {
    && (forall m :: m in earlier ==> m in later)
    && (forall m, n :: m in later && m !in earlier && n in earlier ==> n.id < m.id)
  }

  /** Appended rows are invisible below a cursor taken from the starting rows. */
  lemma AppendsInvisibleBelow(earlier: seq<Message>, later: seq<Message>, conversation: ConversationId, before: nat)
    requires Ascending(earlier) && Ascending(later) && AppendsOnly(earlier, later)
    requires exists n :: n in earlier && n.id == before
    ensures Select(later, conversation, None, Some(before)) == Select(earlier, conversation, None, Some(before))
  {
    SelectMembers(earlier, conversation, None, Some(before));
    SelectMembers(later, conversation, None, Some(before));
    SelectAscending(earlier, conversation, None, Some(before));
    SelectAscending(later, conversation, None, Some(before));
    AscendingUnique(Select(later, conversation, None, Some(before)), Select(earlier, conversation, None, Some(before)));
  }

  /** The walk terminates with exactly the starting messages, newest first and each once, even when
      messages with larger ids are appended between its pages. */
  lemma WalkIsExact(world: seq<seq<Message>>, conversation: ConversationId, limit: nat)
    requires limit > 0 && AllAscending(world)
    requires forall i :: 0 <= i < |world| ==> AppendsOnly(world[0], world[i])
    ensures Walk(world, conversation, None, limit) == Reverse(Select(world[0], conversation, None, None))
  {
    WalkFrom(world[0], world, conversation, None, limit);
  }

  lemma {:induction false} WalkFrom(start: seq<Message>, world: seq<seq<Message>>, conversation: ConversationId,
                        before: Option<nat>, limit: nat)
    requires limit > 0 && Ascending(start) && AllAscending(world)
    requires forall i :: 0 <= i < |world| ==> AppendsOnly(start, world[i])
    requires if before.None? then world[0] == start else exists n :: n in start && n.id == before.value
    ensures Walk(world, conversation, before, limit) == Reverse(Select(start, conversation, None, Bound(before)))
    decreases before.None?, if before.None? then 0 else before.value
  {
    var rows := world[0];
    var page := FetchPage(rows, conversation, before, limit);
    PageIsExact(rows, conversation, before, limit);
    if before.Some? {
      AppendsInvisibleBelow(start, rows, conversation, before.value);
    }
    if page.hasMore {
      CursorIsAStartingRow(start, rows, conversation, before, limit);
      WalkFrom(start, Later(world), conversation, page.nextCursor, limit);
      AppendsInvisibleBelow(start, rows, conversation, page.nextCursor.value);
    }
  }

  lemma CursorIsAStartingRow(start: seq<Message>, rows: seq<Message>, conversation: ConversationId,
                        before: Option<nat>, limit: nat)
    requires limit > 0 && FetchPage(rows, conversation, before, limit).hasMore
    requires Select(rows, conversation, None, Bound(before)) == Select(start, conversation, None, Bound(before))
    ensures exists n :: n in start && Some(n.id) == FetchPage(rows, conversation, before, limit).nextCursor
  {
    var last := CursorRow(rows, conversation, before, limit);
    SelectMembers(start, conversation, None, Bound(before));
    assert last in start;
  }

  /** The row a cursor was taken from is one of the rows the page was cut from. */
  lemma CursorRow(rows: seq<Message>, conversation: ConversationId, before: Option<nat>, limit: nat) returns (row: Message)
    requires limit > 0 && FetchPage(rows, conversation, before, limit).hasMore
    ensures row in Select(rows, conversation, None, Bound(before))
    ensures FetchPage(rows, conversation, before, limit).nextCursor == Some(row.id)
  {
    ReverseAt(Select(rows, conversation, None, Bound(before)));
    var older := Select(rows, conversation, None, Bound(before));
    row := older[|older| - limit];
  }

  ghost predicate Descending(rows: seq<Message>) {
    forall i, j :: 0 <= i < j < |rows| ==> rows[i].id > rows[j].id
  }

  /** A page row by row: descending, made of rows below the cursor, leaving out only older ones. */
  lemma PageMembers(rows: seq<Message>, conversation: ConversationId, before: Option<nat>, limit: nat)
    requires Ascending(rows) && limit > 0
    ensures var page := FetchPage(rows, conversation, before, limit);
            && Descending(page.items)
            && (forall m :: m in page.items ==> m in rows && Matches(m, conversation, None, Bound(before)))
            && (page.hasMore ==> page.nextCursor.Some? && (forall m :: m in page.items ==> m.id >= page.nextCursor.value)
                                 && (before.Some? ==> page.nextCursor.value < before.value))
            && (forall m :: m in rows && Matches(m, conversation, None, Bound(before)) ==>
                  m in page.items || (page.hasMore && m.id < page.nextCursor.value))
  {
    var page := FetchPage(rows, conversation, before, limit);
    PageIsNewest(rows, conversation, before, limit);
    SelectMembers(rows, conversation, None, Bound(before));
    if page.hasMore {
      assert page.items[|page.items| - 1] in page.items;
    }
  }

  /** A page leaves out only what is older than all of it, and says so. */
  lemma PageIsNewest(rows: seq<Message>, conversation: ConversationId, before: Option<nat>, limit: nat)
    requires Ascending(rows) && limit > 0
    ensures var page := FetchPage(rows, conversation, before, limit);
            var older := Select(rows, conversation, None, Bound(before));
            && Descending(page.items)
            && (page.hasMore ==> page.items != [] && page.nextCursor == Some(page.items[|page.items| - 1].id))
            && (forall m :: m in page.items ==> m in older && m.id >= page.items[|page.items| - 1].id)
            && (forall m :: m in older && m !in page.items ==>
                  page.hasMore && (page.items != [] ==> m.id < page.items[|page.items| - 1].id))
  {
    var older := Select(rows, conversation, None, Bound(before));
    var k := PageIsCut(rows, conversation, before, limit);
    SelectAscending(rows, conversation, None, Bound(before));
    NewestOf(older, k);
    RestIsOlder(older, k);
  }

  /** A page is cut from the newest end of the rows below its cursor. */
  lemma PageIsCut(rows: seq<Message>, conversation: ConversationId, before: Option<nat>, limit: nat) returns (k: nat)
    requires limit > 0
    ensures var page := FetchPage(rows, conversation, before, limit);
            var newest := Reverse(Select(rows, conversation, None, Bound(before)));
            && k <= |newest| == |Select(rows, conversation, None, Bound(before))|
            && page.items == newest[..k]
            && (page.hasMore <==> k < |newest|)
            && (page.hasMore ==> k > 0 && page.nextCursor == Some(newest[k - 1].id))
  {
    ReverseAt(Select(rows, conversation, None, Bound(before)));
    k := |FetchPage(rows, conversation, before, limit).items|;
  }

  lemma NewestOf(older: seq<Message>, k: nat)
    requires Ascending(older) && k <= |Reverse(older)|
    ensures var items := Reverse(older)[..k];
            && Descending(items)
            && forall m :: m in items ==> m in older && m.id >= items[k - 1].id
  {
    ReverseAt(older);
    var items := Reverse(older)[..k];
    forall m | m in items ensures m in older && m.id >= items[k - 1].id {
      var i :| 0 <= i < k && items[i] == m;
      assert older[|older| - 1 - i] == m;
    }
  }

  lemma RestIsOlder(older: seq<Message>, k: nat)
    requires Ascending(older) && k <= |Reverse(older)| == |older|
    ensures var items := Reverse(older)[..k];
            forall m :: m in older && m !in items ==> k < |older| && (k > 0 ==> m.id < items[k - 1].id)
  {
    ReverseAt(older);
    var n, items := |older|, Reverse(older)[..k];
    forall m | m in older && m !in items ensures k < n && (k > 0 ==> m.id < items[k - 1].id) {
      var i :| 0 <= i < n && older[i] == m;
      NewestAreCut(older, k, i);
    }
  }

  lemma NewestAreCut(older: seq<Message>, k: nat, i: nat)
    requires k <= |Reverse(older)| && i < |older|
    ensures i >= |older| - k ==> older[i] in Reverse(older)[..k]
  {
    ReverseAt(older);
    if i >= |older| - k {
      assert Reverse(older)[..k][|older| - 1 - i] == older[i];
    }
  }

  /** Under any growth at all (late commits below the cursor included) the walk is strictly descending,
      returns only committed rows, and misses no starting message. */
  lemma {:induction false} WalkUnderGrowth(world: seq<seq<Message>>, conversation: ConversationId,
      before: Option<nat>, limit: nat)
    requires limit > 0 && AllAscending(world)
    requires forall i, j :: 0 <= i <= j < |world| ==> Contained(world[i], world[j])
    ensures var all := Walk(world, conversation, before, limit);
            && Descending(all)
            && (forall m :: m in all ==> m in world[|world| - 1] && Matches(m, conversation, None, Bound(before)))
            && (forall m :: m in world[0] && Matches(m, conversation, None, Bound(before)) ==> m in all)
    decreases before.None?, if before.None? then 0 else before.value
  {
    var page := FetchPage(world[0], conversation, before, limit);
    PageMembers(world[0], conversation, before, limit);
    assert Contained(world[0], world[|world| - 1]);
    if page.hasMore {
      var tail := Walk(Later(world), conversation, page.nextCursor, limit);
      WalkUnderGrowth(Later(world), conversation, page.nextCursor, limit);
      JoinDescending(page.items, tail, page.nextCursor.value);
      assert Contained(world[0], Later(world)[0]);
    }
  }

  lemma JoinDescending(newer: seq<Message>, older: seq<Message>, cut: nat)
    requires Descending(newer) && Descending(older)
    requires forall m :: m in newer ==> m.id >= cut
    requires forall m :: m in older ==> m.id < cut
    ensures Descending(newer + older)
  {
    var all := newer + older;
    forall i, j | 0 <= i < j < |all| ensures all[i].id > all[j].id {
      if i < |newer| <= j {
        assert newer[i] in newer && older[j - |newer|] in older;
      }
    }
  }

  /** Only a participant of a visible conversation is served, and a stranger is told apart from a conversation
      that is not there. */
  lemma OnlyParticipantsAreServed(participants: Option<set<UserId>>, reader: UserId, rows: seq<Message>,
                                  conversation: ConversationId, before: Option<nat>, limit: nat)
    ensures var response := Execute(participants, reader, rows, conversation, before, limit);
            && (response.ConversationNotFound? <==> participants.None?)
            && (response.NotParticipant? <==> participants.Some? && reader !in participants.value)
            && (response.Served? ==> response.page == FetchPage(rows, conversation, before, limit))
  {
  }

  // The walk as the use case grants it, membership being checked again for every page.

  /** What one request finds: the participants of the conversation if it is visible, and the rows. */
  datatype View = View(participants: Option<set<UserId>>, rows: seq<Message>)

  predicate Admits(v: View, reader: UserId) {
    v.participants.Some? && reader in v.participants.value
  }

  function RowsOf(views: seq<View>): seq<seq<Message>> {
    seq(|views|, i requires 0 <= i < |views| => views[i].rows)
  }

  /** What a reader has been given when a page is the last or is refused, and whether it was the last. */
  datatype Reading = Reading(given: seq<Message>, complete: bool)

  ghost function Read(views: seq<View>, reader: UserId, conversation: ConversationId, before: Option<nat>, limit: nat)
    : Reading
    requires limit > 0 && AllAscending(RowsOf(views))
    decreases before.None?, if before.None? then 0 else before.value
  {
    assert RowsOf(views)[0] == views[0].rows;
    var response := Execute(views[0].participants, reader, views[0].rows, conversation, before, limit);
    if !response.Served? then Reading([], false)
    else if !response.page.hasMore then Reading(response.page.items, true)
    else
      PageIsExact(views[0].rows, conversation, before, limit);
      LaterRows(views);
      var rest := Read(Later(views), reader, conversation, response.page.nextCursor, limit);
      Reading(response.page.items + rest.given, rest.complete)
  }

  lemma LaterRows(views: seq<View>)
    ensures RowsOf(Later(views)) == Later(RowsOf(views))
  {
  }

  /** A stretch of the walk from its newest end, and all of it if complete. */
  ghost predicate Begins(r: Reading, all: seq<Message>) {
    r.given <= all && (r.complete ==> r.given == all)
  }

  lemma BeginsAfter(page: seq<Message>, rest: Reading, all: seq<Message>)
    requires Begins(rest, all)
    ensures Begins(Reading(page + rest.given, rest.complete), page + all)
  {
  }

  /** A reader is given the walk up to the first page that is refused, which is one for a reader who has
      lost the conversation by then. */
  lemma {:induction false} ReadIsWalk(views: seq<View>, reader: UserId, conversation: ConversationId, before: Option<nat>,
                                      limit: nat)
    requires limit > 0 && AllAscending(RowsOf(views))
    ensures var r := Read(views, reader, conversation, before, limit);
            && Begins(r, Walk(RowsOf(views), conversation, before, limit))
            && (!r.complete ==> exists v :: v in views && !Admits(v, reader))
            && (!Admits(views[0], reader) ==> r == Reading([], false))
    decreases before.None?, if before.None? then 0 else before.value
  {
    assert RowsOf(views)[0] == views[0].rows && views[0] in views;
    var page := FetchPage(views[0].rows, conversation, before, limit);
    if Admits(views[0], reader) && page.hasMore {
      PageIsExact(views[0].rows, conversation, before, limit);
      LaterRows(views);
      ReadIsWalk(Later(views), reader, conversation, page.nextCursor, limit);
      BeginsAfter(page.items, Read(Later(views), reader, conversation, page.nextCursor, limit),
                  Walk(Later(RowsOf(views)), conversation, page.nextCursor, limit));
      assert forall v :: v in Later(views) ==> v in views;
    }
  }

  /** So a participant who stays one reads exactly the starting messages, newest first and each once. */
  lemma ParticipantsReadEverything(views: seq<View>, reader: UserId, conversation: ConversationId, limit: nat)
    requires limit > 0 && AllAscending(RowsOf(views))
    requires forall i :: 0 <= i < |views| ==> AppendsOnly(views[0].rows, views[i].rows)
    requires forall v :: v in views ==> Admits(v, reader)
    ensures Read(views, reader, conversation, None, limit) == Reading(Reverse(Select(views[0].rows, conversation, None, None)), true)
  {
    ReadIsWalk(views, reader, conversation, None, limit);
    WalkIsExact(RowsOf(views), conversation, limit);
  }
}
