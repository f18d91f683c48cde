/** The durable side: ids allocated at flush, rows visible at commit, and the publish order of Redis. */
module MessageStore {
  import opened Values
  import opened MessageTable

  datatype Store = Store(
    nextId: nat,                  // the bigserial sequence; never given back
    inflight: map<nat, Message>,  // flushed in a transaction that is still open
    table: seq<Message>,          // committed rows, in primary-key order
    published: seq<Message>)      // messages in the order in which Redis accepted their publish

  const EMPTY: Store := Store(1, map[], [], [])

  datatype Action =
    | Flush(row: Message)
    | Burn
    | Rollback(id: nat)
    | Commit(id: nat)
    | Publish(row: Message)

  predicate SameKey(m: Message, n: Message) {
    m.key.Some? && m.key == n.key && m.conversation == n.conversation
  }

  /** The unique constraint sees committed rows and, by waiting for their transactions, open ones;
      an absent key never collides. */
  ghost predicate KeyIsFree(s: Store, row: Message) {
    && (forall m :: m in s.table ==> !SameKey(m, row))
    && (forall id :: id in s.inflight ==> !SameKey(s.inflight[id], row))
  }

  /** A row is published after its commit, and once. */
  ghost predicate Allowed(s: Store, a: Action) {
    match a
    case Flush(row) => row.id == s.nextId && KeyIsFree(s, row)
    case Burn => true
    case Rollback(id) => id in s.inflight
    case Commit(id) => id in s.inflight
    case Publish(row) => row in s.table && row !in s.published
  }

  function Do(s: Store, a: Action): Store {
    match a
    case Flush(row) => s.(nextId := s.nextId + 1, inflight := s.inflight[row.id := row])
    case Burn => s.(nextId := s.nextId + 1)
    case Rollback(id) => s.(inflight := s.inflight - {id})
    case Commit(id) =>
      if id in s.inflight then s.(inflight := s.inflight - {id}, table := Insert(s.table, s.inflight[id])) else s
    case Publish(row) => s.(published := s.published + [row])
  }

  ghost predicate Distinct(messages: seq<Message>) {
    forall i, j :: 0 <= i < j < |messages| ==> messages[i] != messages[j]
  }

  ghost predicate IdsAllocated(s: Store) {
    && (forall m :: m in s.table ==> m.id < s.nextId && m.id !in s.inflight)
    && (forall id :: id in s.inflight ==> id < s.nextId && s.inflight[id].id == id)
  }

  ghost predicate KeysUnique(s: Store) {
    && (forall m, n :: m in s.table && n in s.table && SameKey(m, n) ==> m == n)
    && (forall m, id :: m in s.table && id in s.inflight ==> !SameKey(m, s.inflight[id]))
    && (forall i, j :: i in s.inflight && j in s.inflight && SameKey(s.inflight[i], s.inflight[j]) ==> i == j)
  }

  ghost predicate PublishedAfterCommit(s: Store) {
    Distinct(s.published) && Contained(s.published, s.table)
  }

  ghost predicate Inv(s: Store) {
    Ascending(s.table) && IdsAllocated(s) && KeysUnique(s) && PublishedAfterCommit(s)
  }

  lemma DoKeepsInv(s: Store, a: Action)
    requires Inv(s) && Allowed(s, a)
    ensures Inv(Do(s, a))
  {
    if a.Commit? {
      InsertMembers(s.table, s.inflight[a.id]);
      InsertKeepsOrder(s.table, s.inflight[a.id]);
    }
  }

  /** Rows are never changed or withdrawn once committed, a row becomes visible only by its commit, and an
      id once allocated is spent, whatever becomes of its row. */
  lemma DoGrowsTable(s: Store, a: Action)
    requires Inv(s) && Allowed(s, a)
    ensures Contained(s.table, Do(s, a).table)
    ensures s.published <= Do(s, a).published
    ensures forall m :: m in Do(s, a).table && m !in s.table ==> a.Commit? && m == s.inflight[a.id]
    ensures Do(s, a).nextId == s.nextId + if a.Flush? || a.Burn? then 1 else 0
    ensures forall id :: id in Do(s, a).inflight <==>
              (id in s.inflight || (a.Flush? && id == a.row.id)) && !((a.Commit? || a.Rollback?) && id == a.id)
  {
    if a.Commit? {
      InsertMembers(s.table, s.inflight[a.id]);
    }
  }
}
