/** The committed `messages` rows, held in primary-key order, and the two keyset queries over them. */
module MessageTable {
  import opened Values

  ghost predicate Ascending(rows: seq<Message>) {
    forall i, j :: 0 <= i < j < |rows| ==> rows[i].id < rows[j].id
  }

  ghost predicate Contained(rows: seq<Message>, more: seq<Message>) {
    forall m :: m in rows ==> m in more
  }

  /** A committed row takes its place by id, whatever the order of commits. */
  function Insert(rows: seq<Message>, row: Message): seq<Message> {
    if rows == [] || row.id < rows[0].id then [row] + rows
    else [rows[0]] + Insert(rows[1..], row)
  }

  predicate Matches(m: Message, conversation: ConversationId, after: Option<int>, before: Option<int>) {
    && m.conversation == conversation
    && (after.Some? ==> m.id > after.value)
    && (before.Some? ==> m.id < before.value)
  }

  /** The rows of one conversation between two exclusive bounds, oldest first. */
  function Select(rows: seq<Message>, conversation: ConversationId, after: Option<int>, before: Option<int>): seq<Message> {
    if rows == [] then []
    else (if Matches(rows[0], conversation, after, before) then [rows[0]] else [])
         + Select(rows[1..], conversation, after, before)
  }

  function Reverse(rows: seq<Message>): seq<Message> {
    if rows == [] then [] else Reverse(rows[1..]) + [rows[0]]
  }

  function Take(rows: seq<Message>, limit: nat): seq<Message> {
    if |rows| <= limit then rows else rows[..limit]
  }

  /** Keyset query for replay: ids above the cursor, oldest first. */
  function ListSince(rows: seq<Message>, conversation: ConversationId, after: Option<int>, limit: nat): seq<Message> {
    Take(Select(rows, conversation, after, None), limit)
  }

  /** Keyset query for history: ids below the cursor, newest first. */
  function ListHistory(rows: seq<Message>, conversation: ConversationId, before: Option<int>, limit: nat): seq<Message> {
    Take(Reverse(Select(rows, conversation, None, before)), limit)
  }

  /** The row stored under a client key, if any. */
  function FindByKey(rows: seq<Message>, conversation: ConversationId, key: ClientKey): (found: Option<Message>)
    ensures found.Some? ==> found.value in rows && found.value.conversation == conversation && found.value.key == Some(key)
    ensures found.None? ==> forall m :: m in rows ==> !(m.conversation == conversation && m.key == Some(key))
  {
    if rows == [] then None
    else if rows[0].conversation == conversation && rows[0].key == Some(key) then Some(rows[0])
    else FindByKey(rows[1..], conversation, key)
  }

  /** The row an earlier send left under the same client key; a keyless send has none. */
  function Duplicate(rows: seq<Message>, conversation: ConversationId, key: Option<ClientKey>): (found: Option<Message>)
    ensures found.Some? <==> key.Some? && exists m :: m in rows && m.conversation == conversation && m.key == key
    ensures found.Some? ==> found.value in rows && found.value.conversation == conversation && found.value.key == key
  {
    if key.None? then None else FindByKey(rows, conversation, key.value)
  }

  lemma {:induction false} InsertMembers(rows: seq<Message>, row: Message)
    ensures |Insert(rows, row)| == |rows| + 1
    ensures forall m :: m in Insert(rows, row) <==> m in rows || m == row
  {
    if rows != [] && rows[0].id <= row.id {
      InsertMembers(rows[1..], row);
      assert rows == [rows[0]] + rows[1..];
    }
  }

  lemma {:induction false} InsertKeepsOrder(rows: seq<Message>, row: Message)
    requires Ascending(rows)
    requires forall m :: m in rows ==> m.id != row.id
    ensures Ascending(Insert(rows, row))
  {
    if rows != [] && rows[0].id <= row.id {
      assert rows[0] in rows;
      InsertKeepsOrder(rows[1..], row);
      InsertMembers(rows[1..], row);
      var rest := Insert(rows[1..], row);
      forall j | 0 <= j < |rest| ensures rows[0].id < rest[j].id {
        assert rest[j] in rest;
      }
    }
  }

  lemma {:induction false} SelectMembers(rows: seq<Message>, conversation: ConversationId, after: Option<int>,
      before: Option<int>)
    ensures forall m :: m in Select(rows, conversation, after, before) <==> m in rows && Matches(m, conversation, after, before)
    ensures |Select(rows, conversation, after, before)| <= |rows|
  {
    if rows != [] {
      SelectMembers(rows[1..], conversation, after, before);
      assert rows == [rows[0]] + rows[1..];
    }
  }

  lemma {:induction false} SelectAscending(rows: seq<Message>, conversation: ConversationId, after: Option<int>,
      before: Option<int>)
    requires Ascending(rows)
    ensures Ascending(Select(rows, conversation, after, before))
  {
    if rows != [] {
      SelectAscending(rows[1..], conversation, after, before);
      SelectMembers(rows[1..], conversation, after, before);
      var rest := Select(rows[1..], conversation, after, before);
      forall j | 0 <= j < |rest| ensures rows[0].id < rest[j].id {
        assert rest[j] in rest;
      }
    }
  }

  /** An ascending list is determined by its members: the tool behind every "equals the query" fact. */
  lemma {:induction false} AscendingUnique(a: seq<Message>, b: seq<Message>)
    requires Ascending(a) && Ascending(b)
    requires forall m :: m in a <==> m in b
    ensures a == b
  {
    if a == [] {
      assert forall i :: 0 <= i < |b| ==> b[i] in b;
    } else {
      assert a[0] in a && a[0] in b;
      assert b[0] in b && b[0] in a;
      assert a[0] == b[0];
      forall m ensures m in a[1..] <==> m in b[1..] {
        if m in a[1..] { assert m in a && m.id > a[0].id; assert m in b; }
        if m in b[1..] { assert m in b && m.id > b[0].id; assert m in a; }
      }
      AscendingUnique(a[1..], b[1..]);
      assert a == [a[0]] + a[1..] && b == [b[0]] + b[1..];
    }
  }

  /** Keyset paging loses nothing: what lies above the last row of a page is the rest of the query. */
  lemma SelectAfterPage(rows: seq<Message>, conversation: ConversationId, after: Option<int>, k: nat)
    requires Ascending(rows)
    requires 0 < k <= |Select(rows, conversation, after, None)|
    ensures var all := Select(rows, conversation, after, None);
            Select(rows, conversation, Some(all[k - 1].id), None) == all[k..]
  {
    var all := Select(rows, conversation, after, None);
    var rest := Select(rows, conversation, Some(all[k - 1].id), None);
    SelectMembers(rows, conversation, after, None);
    SelectMembers(rows, conversation, Some(all[k - 1].id), None);
    SelectAscending(rows, conversation, after, None);
    SelectAscending(rows, conversation, Some(all[k - 1].id), None);
    forall m ensures m in rest <==> m in all[k..] {
      if m in rest {
        assert all[k - 1] in all;
        assert m in all;
        var i :| 0 <= i < |all| && all[i] == m;
        assert i >= k;
      }
      if m in all[k..] {
        var i :| k <= i < |all| && all[i] == m;
        assert m in all;
      }
    }
    AscendingUnique(rest, all[k..]);
  }

  /** The same from the other end: below row `k` lie exactly the first `k` rows. */
  lemma SelectBeforePage(rows: seq<Message>, conversation: ConversationId, before: Option<int>, k: nat)
    requires Ascending(rows)
    requires k < |Select(rows, conversation, None, before)|
    ensures var all := Select(rows, conversation, None, before);
            Select(rows, conversation, None, Some(all[k].id)) == all[..k]
  {
    var all := Select(rows, conversation, None, before);
    var rest := Select(rows, conversation, None, Some(all[k].id));
    SelectMembers(rows, conversation, None, before);
    SelectMembers(rows, conversation, None, Some(all[k].id));
    SelectAscending(rows, conversation, None, before);
    SelectAscending(rows, conversation, None, Some(all[k].id));
    forall m ensures m in rest <==> m in all[..k] {
      if m in rest {
        assert all[k] in all;
        assert m in all;
        var i :| 0 <= i < |all| && all[i] == m;
        assert i < k;
      }
      if m in all[..k] {
        var i :| 0 <= i < k && all[i] == m;
        assert m in all;
      }
    }
    AscendingUnique(rest, all[..k]);
  }

  lemma {:induction false} ReverseAt(rows: seq<Message>)
    ensures |Reverse(rows)| == |rows|
    ensures forall k :: 0 <= k < |rows| ==> Reverse(rows)[k] == rows[|rows| - 1 - k]
  {
    if rows != [] {
      ReverseAt(rows[1..]);
    }
  }

  lemma {:induction false} ReverseConcat(a: seq<Message>, b: seq<Message>)
    ensures Reverse(a + b) == Reverse(b) + Reverse(a)
  {
    if a == [] {
      assert a + b == b;
    } else {
      ReverseConcat(a[1..], b);
      assert (a + b)[1..] == a[1..] + b;
    }
  }
}
