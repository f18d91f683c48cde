/** The send flow: any number of concurrent and retried exchanges over one store, each able to fail at
    any step. The steps of one exchange are those of `MessageExchange.exchange` and `PostMessage`. */
module Exchange {
  import opened Values
  import opened MessageTable
  import Db = MessageStore

  /** `Failed` remembers the user row the exchange wrote, if its fate was not a rollback, and whether the
      call that raised was the reply's publish and had reached Redis. */
  datatype Stage =
    | Checking
    | Inserting
    | Flushed(row: Message)
    | Stored(row: Message)
    | Announced(row: Message)
    | ReplyFlushed(row: Message, reply: Message)
    | ReplyStored(row: Message, reply: Message)
    | Acked(row: Message, created: bool)
    | Failed(wrote: Option<Message>, finished: bool)

  datatype Exchange = Exchange(conversation: ConversationId, sender: UserId, content: string, key: Option<ClientKey>, stage: Stage)

  /** `answers` is history: the user row each committed reply was written for, by the reply's id. */
  datatype World = World(store: Db.Store, exchanges: seq<Exchange>, answers: map<nat, Message>)

  const START: World := World(Db.EMPTY, [], map[])

  datatype Event =
    | Receive(conversation: ConversationId, sender: UserId, content: string, key: Option<ClientKey>)
    | FindDuplicate(e: nat)
    | FindNone(e: nat)
    | Insert(e: nat)
    | Collide(e: nat)
    | GiveUp(e: nat)
    | Rollback(e: nat)
    | Commit(e: nat)
    | CommitUnknown(e: nat)
    | Publish(e: nat)
    | PublishRaises(e: nat, reached: bool)
    | InsertReply(e: nat, content: string)

  function UserRow(w: World, x: Exchange): Message {
    Message(w.store.nextId, x.conversation, Some(x.sender), User, x.content, x.key)
  }

  function ReplyRow(w: World, x: Exchange, content: string): Message {
    Message(w.store.nextId, x.conversation, None, Assistant, content, None)
  }

  function Existing(w: World, x: Exchange): Option<Message> {
    Duplicate(w.store.table, x.conversation, x.key)
  }

  /** The only guard taken from the database is its unique constraint: an insert whose key another open
      transaction holds waits for it, and one whose key is committed collides. */
  ghost predicate Enabled(w: World, ev: Event) {
    if ev.Receive? then true
    else
      ev.e < |w.exchanges| &&
      var x := w.exchanges[ev.e];
      match ev
      case Receive(_, _, _, _) => true
      case FindDuplicate(_) => x.stage.Checking? && Existing(w, x).Some?
      case FindNone(_) => x.stage.Checking? && Existing(w, x).None?
      case Insert(_) => x.stage.Inserting? && Db.KeyIsFree(w.store, UserRow(w, x))
      case Collide(_) => x.stage.Inserting? && Existing(w, x).Some?
      case GiveUp(_) => x.stage.Checking? || x.stage.Inserting? || x.stage.Announced?
      case Rollback(_) => x.stage.Flushed? || x.stage.ReplyFlushed?
      case Commit(_) => x.stage.Flushed? || x.stage.ReplyFlushed?
      case CommitUnknown(_) => x.stage.Flushed? || x.stage.ReplyFlushed?
      case Publish(_) => x.stage.Stored? || x.stage.ReplyStored?
      case PublishRaises(_, _) => x.stage.Stored? || x.stage.ReplyStored?
      case InsertReply(_, _) => x.stage.Announced?
  }

  /** What the step asks of the store. */
  ghost function Request(w: World, ev: Event): Option<Db.Action>
    requires Enabled(w, ev)
  {
    if ev.Receive? then None
    else
      var x := w.exchanges[ev.e];
      var last := if x.stage.ReplyFlushed? || x.stage.ReplyStored? then x.stage.reply
                  else if x.stage.Flushed? || x.stage.Stored? then x.stage.row else UserRow(w, x);
      match ev
      case Insert(_) => Some(Db.Flush(UserRow(w, x)))
      case InsertReply(_, content) => Some(Db.Flush(ReplyRow(w, x, content)))
      case Collide(_) => Some(Db.Burn)
      case Rollback(_) => Some(Db.Rollback(last.id))
      case Commit(_) => Some(Db.Commit(last.id))
      case CommitUnknown(_) => Some(Db.Commit(last.id))
      case Publish(_) => Some(Db.Publish(last))
      case PublishRaises(_, reached) => if reached then Some(Db.Publish(last)) else None
      case _ => None
  }

  ghost function NextStage(w: World, ev: Event): Stage
    requires Enabled(w, ev) && !ev.Receive?
  {
    var x := w.exchanges[ev.e];
    match ev
    case Receive(_, _, _, _) => x.stage
    case FindDuplicate(_) => Acked(Existing(w, x).value, false)
    case FindNone(_) => Inserting
    case Insert(_) => Flushed(UserRow(w, x))
    case Collide(_) => Failed(None, false)
    case GiveUp(_) => Failed(if x.stage.Announced? then Some(x.stage.row) else None, false)
    case Rollback(_) => Failed(if x.stage.ReplyFlushed? then Some(x.stage.row) else None, false)
    case Commit(_) => if x.stage.Flushed? then Stored(x.stage.row) else ReplyStored(x.stage.row, x.stage.reply)
    case CommitUnknown(_) => Failed(Some(x.stage.row), false)
    case Publish(_) => if x.stage.Stored? then Announced(x.stage.row) else Acked(x.stage.row, true)
    case PublishRaises(_, reached) => Failed(Some(x.stage.row), x.stage.ReplyStored? && reached)
    case InsertReply(_, content) => ReplyFlushed(x.stage.row, ReplyRow(w, x, content))
  }

  ghost function NextAnswers(w: World, ev: Event): map<nat, Message>
    requires Enabled(w, ev)
  {
    if (ev.Commit? || ev.CommitUnknown?) && w.exchanges[ev.e].stage.ReplyFlushed?
    then w.answers[w.exchanges[ev.e].stage.reply.id := w.exchanges[ev.e].stage.row]
    else w.answers
  }

  ghost function Step(w: World, ev: Event): World
    requires Enabled(w, ev)
  {
    if ev.Receive? then w.(exchanges := w.exchanges + [Exchange(ev.conversation, ev.sender, ev.content, ev.key, Checking)])
    else
      var request := Request(w, ev);
      World(if request.Some? then Db.Do(w.store, request.value) else w.store,
            w.exchanges[ev.e := w.exchanges[ev.e].(stage := NextStage(w, ev))],
            NextAnswers(w, ev))
  }

  /** The state after a run from the start; None if some event was not enabled when it came. */
  ghost function After(events: seq<Event>): Option<World> {
    if events == [] then Some(START)
    else
      var before := After(events[..|events| - 1]);
      var ev := events[|events| - 1];
      if before.Some? && Enabled(before.value, ev) then Some(Step(before.value, ev)) else None
  }

  /** The user row an exchange wrote itself. */
  function Wrote(x: Exchange): Option<Message> {
    match x.stage
    case Checking => None
    case Inserting => None
    case Acked(row, created) => if created then Some(row) else None
    case Failed(wrote, _) => wrote
    case _ => Some(x.stage.row)
  }

  function ReplyOf(x: Exchange): Option<Message> {
    if x.stage.ReplyFlushed? || x.stage.ReplyStored? then Some(x.stage.reply) else None
  }

  /** Committed user rows whose reply is still to be written. */
  predicate OwesReply(x: Exchange) {
    x.stage.Stored? || x.stage.Announced? || x.stage.ReplyFlushed?
  }

  predicate Finished(x: Exchange) {
    (x.stage.Acked? && x.stage.created) || (x.stage.Failed? && x.stage.finished)
  }

  ghost predicate Answered(published: seq<Message>, answers: map<nat, Message>, row: Message) {
    exists reply :: reply in published && reply.role.Assistant? && reply.id in answers && answers[reply.id] == row
  }

  /** A reply to the row has been broadcast; so, then, had the row itself. */
  ghost predicate Complete(w: World, row: Message) {
    Answered(w.store.published, w.answers, row)
  }

  ghost predicate IsUserRowOf(x: Exchange, row: Message) {
    row.role.User? && row.conversation == x.conversation && row.key == x.key && row.sender == Some(x.sender) && row.content == x.content
  }

  ghost predicate IsReply(x: Exchange, row: Message, reply: Message) {
    reply.role.Assistant? && reply.conversation == x.conversation && reply.key.None? && row.id < reply.id
  }

  ghost predicate InFlight(store: Db.Store, row: Message) {
    row.id in store.inflight && store.inflight[row.id] == row
  }

  ghost predicate StageInv(w: World, x: Exchange) {
    match x.stage
    case Checking => true
    case Inserting => true
    case Flushed(row) => InFlight(w.store, row)
    case Stored(row) => row in w.store.table && row !in w.store.published
    case Announced(row) => row in w.store.table && row in w.store.published
    case ReplyFlushed(row, reply) =>
      row in w.store.table && row in w.store.published && InFlight(w.store, reply) && IsReply(x, row, reply)
    case ReplyStored(row, reply) =>
      && row in w.store.table && row in w.store.published
      && reply in w.store.table && reply !in w.store.published && IsReply(x, row, reply)
      && reply.id in w.answers && w.answers[reply.id] == row
    case Acked(row, created) =>
      && row in w.store.table && row.role.User? && row.conversation == x.conversation && row.key == x.key
      && (created || x.key.Some?)
    case Failed(wrote, finished) => (wrote.Some? ==> wrote.value in w.store.table) && (finished ==> wrote.Some?)
  }

  ghost predicate WroteInv(w: World, x: Exchange) {
    Wrote(x).Some? ==>
      var row := Wrote(x).value;
      && IsUserRowOf(x, row)
      && (x.stage.Flushed? || row in w.store.table)
      && (Finished(x) <==> Complete(w, row))
      && (x.stage.Flushed? || OwesReply(x) ==> row !in w.answers.Values)
  }

  /** No two exchanges wrote the same user row, or are writing the same reply. */
  ghost predicate Separate(xs: seq<Exchange>) {
    forall i, j :: 0 <= i < j < |xs| ==>
      && (Wrote(xs[i]).Some? && Wrote(xs[j]).Some? ==> Wrote(xs[i]).value.id != Wrote(xs[j]).value.id)
      && (ReplyOf(xs[i]).Some? && ReplyOf(xs[j]).Some? ==> ReplyOf(xs[i]).value.id != ReplyOf(xs[j]).value.id)
  }

  ghost predicate AnswersIn(table: seq<Message>, published: seq<Message>, answers: map<nat, Message>, nextId: nat) {
    && (forall m :: m in table && m.role.Assistant? ==> m.id in answers && m.key.None?)
    && (forall a :: a in answers ==>
          && answers[a] in table && answers[a] in published
          && answers[a].role.User? && answers[a].id < a < nextId)
    && (forall m :: m in table && m.id in answers ==> m.role.Assistant? && answers[m.id].conversation == m.conversation)
    && (forall a :: a in answers ==> exists m :: m in table && m.id == a)
    && (forall a, b :: a in answers && b in answers && answers[a] == answers[b] ==> a == b)
  }

  /** Every committed reply answers an earlier, published user row of its conversation, and no two the same. */
  ghost predicate AnswersInv(w: World) {
    AnswersIn(w.store.table, w.store.published, w.answers, w.store.nextId)
  }

  /** What holds of the exchange whose step it is. */
  ghost predicate OwnInv(w: World, ev: Event)
    requires Enabled(w, ev)
  {
    ev.Receive? || (StageInv(w, w.exchanges[ev.e]) && WroteInv(w, w.exchanges[ev.e]))
  }

  ghost predicate Inv(w: World) {
    && Db.Inv(w.store)
    && AnswersInv(w)
    && Separate(w.exchanges)
    && (forall i :: 0 <= i < |w.exchanges| ==> StageInv(w, w.exchanges[i]) && WroteInv(w, w.exchanges[i]))
  }

  /** The flow asks the store only for what the store allows: in particular it publishes nothing that is
      not committed, and nothing twice. */
  lemma RequestsAreAllowed(w: World, ev: Event)
    requires Db.Inv(w.store) && Enabled(w, ev) && OwnInv(w, ev)
    ensures Request(w, ev).Some? ==> Db.Allowed(w.store, Request(w, ev).value)
  {
  }
}
