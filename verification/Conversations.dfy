/** The conversation aggregate, the rows it is stored in, and the use cases that load, change and save it. */
module Conversations {
  import opened Values

  type Time = nat

  /** The value of an aggregate: its identity, its lifecycle and who takes part. */
  datatype Aggregate = Aggregate(
    id: ConversationId,
    owner: UserId,
    title: string,
    createdAt: Time,
    updatedAt: Time,
    deletedAt: Option<Time>,
    participants: set<UserId>)
  {
    function Renamed(title': string, now: Time): Aggregate {
      this.(title := title', updatedAt := now)
    }

    function Deleted(now: Time): Aggregate {
      if deletedAt.None? then this.(deletedAt := Some(now), updatedAt := now) else this
    }

    function Restored(now: Time): Aggregate {
      if deletedAt.Some? then this.(deletedAt := None, updatedAt := now) else this
    }
  }

  function Started(id: ConversationId, owner: UserId, title: string, now: Time): Aggregate {
    Aggregate(id, owner, title, now, now, None, {owner})
  }

  datatype Row = Row(owner: UserId, title: string, createdAt: Time, updatedAt: Time, deletedAt: Option<Time>)

  datatype Membership = Membership(conversation: ConversationId, user: UserId)

  datatype Post = Post(conversation: ConversationId, sender: Option<UserId>)

  /** The three tables. */
  datatype Rows = Rows(conversations: map<ConversationId, Row>, members: map<Membership, Time>, posts: seq<Post>)

  datatype Request =
    | Create(id: ConversationId, actor: UserId, title: string, now: Time)
    | Rename(id: ConversationId, actor: UserId, title: string, now: Time)
    | Delete(id: ConversationId, actor: UserId, now: Time)
    | Restore(id: ConversationId, actor: UserId, now: Time)
    | Invite(id: ConversationId, actor: UserId, invited: Option<UserId>, now: Time)
    | Remove(id: ConversationId, actor: UserId, user: UserId)
    | PostFromUser(id: ConversationId, actor: UserId)
    | PostFromAssistant(id: ConversationId)

  datatype Refusal =
    | NotFound
    | NotOwner
    | NotParticipant
    | UserNotFound
    | CannotRemoveOwner
    | ConstraintViolated

  /** What a use case answers; an accepted one carries the aggregate as it computed it. */
  datatype Outcome = Accepted(aggregate: Aggregate) | Posted | Refused(refusal: Refusal)

  function ParticipantsOf(rows: Rows, id: ConversationId): set<UserId> {
    set m | m in rows.members && m.conversation == id :: m.user
  }

  /** Loading: the row and its memberships, deleted or not. */
  function GetIncludingDeleted(rows: Rows, id: ConversationId): Option<Aggregate> {
    if id !in rows.conversations then None
    else
      var row := rows.conversations[id];
      Some(Aggregate(id, row.owner, row.title, row.createdAt, row.updatedAt, row.deletedAt, ParticipantsOf(rows, id)))
  }

  /** The read every use case but one goes through: a deleted conversation is not there. */
  function Get(rows: Rows, id: ConversationId): Option<Aggregate> {
    var found := GetIncludingDeleted(rows, id);
    if found.Some? && found.value.deletedAt.Some? then None else found
  }

  /** Saving a changed aggregate touches title and timestamps only. */
  function Update(rows: Rows, a: Aggregate): Rows {
    if a.id !in rows.conversations then rows
    else rows.(conversations := rows.conversations[a.id :=
      rows.conversations[a.id].(title := a.title, updatedAt := a.updatedAt, deletedAt := a.deletedAt)])
  }

  /** The owner-only changes, once the aggregate is loaded. */
  function Administer(rows: Rows, loaded: Option<Aggregate>, actor: UserId, changed: Aggregate -> Aggregate): (Rows, Outcome) {
    if loaded.None? then (rows, Refused(NotFound))
    else if loaded.value.owner != actor then (rows, Refused(NotOwner))
    else (Update(rows, changed(loaded.value)), Accepted(changed(loaded.value)))
  }

  function InviteInto(rows: Rows, loaded: Option<Aggregate>, actor: UserId, invited: Option<UserId>, now: Time): (Rows, Outcome) {
    if loaded.None? then (rows, Refused(NotFound))
    else if loaded.value.owner != actor then (rows, Refused(NotOwner))
    else if invited.None? then (rows, Refused(UserNotFound))
    else
      var a := loaded.value;
      if invited.value in a.participants then (rows, Accepted(a))
      else
        (rows.(members := rows.members[Membership(a.id, invited.value) := now]),
         Accepted(a.(participants := a.participants + {invited.value})))
  }

  function RemoveFrom(rows: Rows, loaded: Option<Aggregate>, actor: UserId, user: UserId): (Rows, Outcome) {
    if loaded.None? then (rows, Refused(NotFound))
    else if loaded.value.owner != actor && actor != user then (rows, Refused(NotOwner))
    else
      var a := loaded.value;
      if user == a.owner then (rows, Refused(CannotRemoveOwner))
      else if user !in a.participants then (rows, Refused(NotParticipant))
      else
        (rows.(members := rows.members - {Membership(a.id, user)}), Accepted(a.(participants := a.participants - {user})))
  }

  /** One request, start to commit. */
  function Handle(rows: Rows, request: Request): (Rows, Outcome) {
    match request
    case Create(id, actor, title, now) =>
      if id in rows.conversations then (rows, Refused(ConstraintViolated))
      else
        (rows.(conversations := rows.conversations[id := Row(actor, title, now, now, None)],
               members := rows.members[Membership(id, actor) := now]),
         Accepted(Started(id, actor, title, now)))
    case Rename(id, actor, title, now) => Administer(rows, Get(rows, id), actor, (a: Aggregate) => a.Renamed(title, now))
    case Delete(id, actor, now) => Administer(rows, Get(rows, id), actor, (a: Aggregate) => a.Deleted(now))
    case Restore(id, actor, now) => Administer(rows, GetIncludingDeleted(rows, id), actor, (a: Aggregate) => a.Restored(now))
    case Invite(id, actor, invited, now) => InviteInto(rows, Get(rows, id), actor, invited, now)
    case Remove(id, actor, user) => RemoveFrom(rows, Get(rows, id), actor, user)
    case PostFromUser(id, actor) =>
      var loaded := Get(rows, id);
      if loaded.None? then (rows, Refused(NotFound))
      else if actor !in loaded.value.participants then (rows, Refused(NotParticipant))
      else (rows.(posts := rows.posts + [Post(id, Some(actor))]), Posted)
    case PostFromAssistant(id) =>
      if id !in rows.conversations then (rows, Refused(ConstraintViolated))
      else (rows.(posts := rows.posts + [Post(id, None)]), Posted)
  }

  /** Requests served one after another. */
  function Serve(rows: Rows, requests: seq<Request>): Rows {
    if requests == [] then rows
    else Handle(Serve(rows, requests[..|requests| - 1]), requests[|requests| - 1]).0
  }

  const EMPTY: Rows := Rows(map[], map[], [])

  /** The owner takes part in every conversation, and every membership is of a stored conversation. */
  ghost predicate OwnersTakePart(rows: Rows) {
    && (forall id :: id in rows.conversations ==> Membership(id, rows.conversations[id].owner) in rows.members)
    && (forall m :: m in rows.members ==> m.conversation in rows.conversations)
  }

  lemma HandleKeepsOwners(rows: Rows, request: Request)
    requires OwnersTakePart(rows)
    ensures OwnersTakePart(Handle(rows, request).0)
  {
  }

  /** What is stored after a request is what the use case computed; a refused request stores nothing. */
  lemma ReloadsWhatWasComputed(rows: Rows, request: Request)
    requires OwnersTakePart(rows)
    ensures var (after, outcome) := Handle(rows, request);
            && (outcome.Accepted? ==> GetIncludingDeleted(after, request.id) == Some(outcome.aggregate))
            && (outcome.Refused? ==> after == rows)
            && (outcome.Posted? ==> after == rows.(posts := after.posts))
  {
    var (after, outcome) := Handle(rows, request);
    if outcome.Accepted? {
      var before, now := ParticipantsOf(rows, request.id), ParticipantsOf(after, request.id);
      forall u ensures u in before <==> Membership(request.id, u) in rows.members {
        if Membership(request.id, u) in rows.members {
          assert Membership(request.id, u).user == u;
        }
      }
      forall u ensures u in now <==> Membership(request.id, u) in after.members {
        if Membership(request.id, u) in after.members {
          assert Membership(request.id, u).user == u;
        }
      }
      assert now == outcome.aggregate.participants;
    }
  }

  lemma RowsKept(rows: Rows, request: Request, other: ConversationId)
    requires other != request.id
    ensures var after := Handle(rows, request).0;
            && (other in after.conversations <==> other in rows.conversations)
            && (other in rows.conversations ==> after.conversations[other] == rows.conversations[other])
  {
  }

  /** A request leaves every other conversation as it was. */
  lemma OthersUntouched(rows: Rows, request: Request, other: ConversationId)
    requires OwnersTakePart(rows) && other != request.id
    ensures GetIncludingDeleted(Handle(rows, request).0, other) == GetIncludingDeleted(rows, other)
  {
    var after := Handle(rows, request).0;
    forall u ensures u in ParticipantsOf(after, other) <==> u in ParticipantsOf(rows, other) {
      assert Membership(other, u) in after.members <==> Membership(other, u) in rows.members;
      if u in ParticipantsOf(after, other) {
        assert Membership(other, u) in after.members;
      }
      if Membership(other, u) in after.members {
        assert Membership(other, u).user == u;
      }
    }
    assert ParticipantsOf(after, other) == ParticipantsOf(rows, other);
    RowsKept(rows, request, other);
  }

  function UserPosts(posts: seq<Post>, id: ConversationId): seq<Post> {
    if posts == [] then []
    else
      var last := posts[|posts| - 1];
      UserPosts(posts[..|posts| - 1], id) + if last.conversation == id && last.sender.Some? then [last] else []
  }

  lemma UserPostsAppend(posts: seq<Post>, post: Post, id: ConversationId)
    ensures UserPosts(posts + [post], id) == UserPosts(posts, id) + if post.conversation == id && post.sender.Some? then [post] else []
  {
    assert (posts + [post])[..|posts|] == posts;
  }

  ghost predicate IsDeleted(rows: Rows, id: ConversationId) {
    id in rows.conversations && rows.conversations[id].deletedAt.Some?
  }

  /** One request cannot change a deleted conversation, its members or its user messages, unless it is
      its owner's restore. */
  lemma DeletedIsFrozenOnce(rows: Rows, request: Request, id: ConversationId)
    requires OwnersTakePart(rows) && IsDeleted(rows, id)
    requires !(request.Restore? && request.id == id && request.actor == rows.conversations[id].owner)
    ensures var after := Handle(rows, request).0;
            && GetIncludingDeleted(after, id) == GetIncludingDeleted(rows, id)
            && UserPosts(after.posts, id) == UserPosts(rows.posts, id)
  {
    var after := Handle(rows, request).0;
    if request.id != id {
      OthersUntouched(rows, request, id);
    }
    if after.posts != rows.posts {
      UserPostsAppend(rows.posts, after.posts[|rows.posts|], id);
    }
  }

  ghost predicate RestoredBy(requests: seq<Request>, id: ConversationId, owner: UserId) {
    exists r :: r in requests && r.Restore? && r.id == id && r.actor == owner
  }

  lemma EarlierUnrestored(requests: seq<Request>, id: ConversationId, owner: UserId)
    requires requests != [] && !RestoredBy(requests, id, owner)
    ensures !RestoredBy(requests[..|requests| - 1], id, owner)
    ensures var last := requests[|requests| - 1]; !(last.Restore? && last.id == id && last.actor == owner)
  {
    assert requests[|requests| - 1] in requests;
    assert forall r :: r in requests[..|requests| - 1] ==> r in requests;
  }

  /** Between a delete and its owner's restore, whatever else is requested by whomever, the conversation,
      its participants and its user messages do not change. */
  lemma {:induction false} DeletedIsFrozen(rows: Rows, requests: seq<Request>, id: ConversationId)
    requires OwnersTakePart(rows) && IsDeleted(rows, id)
    requires !RestoredBy(requests, id, rows.conversations[id].owner)
    ensures var after := Serve(rows, requests);
            && OwnersTakePart(after)
            && GetIncludingDeleted(after, id) == GetIncludingDeleted(rows, id)
            && UserPosts(after.posts, id) == UserPosts(rows.posts, id)
  {
    if requests != [] {
      var earlier, last := requests[..|requests| - 1], requests[|requests| - 1];
      EarlierUnrestored(requests, id, rows.conversations[id].owner);
      DeletedIsFrozen(rows, earlier, id);
      HandleKeepsOwners(Serve(rows, earlier), last);
      assert last in requests;
      DeletedIsFrozenOnce(Serve(rows, earlier), last, id);
    }
  }

  /** A delete and the matching restore undo each other: only `updatedAt` remembers them. */
  lemma DeleteThenRestore(rows: Rows, id: ConversationId, deleted: Time, between: seq<Request>, restored: Time)
    requires OwnersTakePart(rows) && Get(rows, id).Some?
    requires !RestoredBy(between, id, Get(rows, id).value.owner)
    ensures var owner := Get(rows, id).value.owner;
            var gone := Serve(Handle(rows, Delete(id, owner, deleted)).0, between);
            var (back, outcome) := Handle(gone, Restore(id, owner, restored));
            && Get(gone, id) == None
            && outcome.Accepted?
            && Get(back, id) == Some(Get(rows, id).value.(updatedAt := restored))
            && UserPosts(back.posts, id) == UserPosts(rows.posts, id)
  {
    var a := Get(rows, id).value;
    var delete := Delete(id, a.owner, deleted);
    var after := Handle(rows, delete).0;
    HandleKeepsOwners(rows, delete);
    ReloadsWhatWasComputed(rows, delete);
    DeletedIsFrozen(after, between, id);
    var gone := Serve(after, between);
    ReloadsWhatWasComputed(gone, Restore(id, a.owner, restored));
  }

  /** Over any run of requests, the owner of every conversation is among its participants. */
  lemma {:induction false} OwnerAlwaysParticipates(requests: seq<Request>)
    ensures OwnersTakePart(Serve(EMPTY, requests))
    ensures forall id :: GetIncludingDeleted(Serve(EMPTY, requests), id).Some? ==>
              var a := GetIncludingDeleted(Serve(EMPTY, requests), id).value; a.owner in a.participants
  {
    var rows := Serve(EMPTY, requests);
    if requests != [] {
      var earlier := requests[..|requests| - 1];
      OwnerAlwaysParticipates(earlier);
      HandleKeepsOwners(Serve(EMPTY, earlier), requests[|requests| - 1]);
    }
    forall id | id in rows.conversations ensures rows.conversations[id].owner in ParticipantsOf(rows, id) {
      assert Membership(id, rows.conversations[id].owner) in rows.members;
    }
  }

  function PostsOf(posts: seq<Post>, id: ConversationId): seq<Post> {
    if posts == [] then []
    else
      var last := posts[|posts| - 1];
      PostsOf(posts[..|posts| - 1], id) + if last.conversation == id then [last] else []
  }

  lemma PostsOfAppend(posts: seq<Post>, post: Post, id: ConversationId)
    ensures PostsOf(posts + [post], id) == PostsOf(posts, id) + if post.conversation == id then [post] else []
  {
    assert (posts + [post])[..|posts|] == posts;
  }

  /** One request on a deleted conversation, other than its owner's restore. */
  lemma DeletedGainsOnce(rows: Rows, request: Request, id: ConversationId)
    requires IsDeleted(rows, id)
    ensures var posts := Handle(rows, request).0.posts;
            PostsOf(posts, id) == PostsOf(rows.posts, id) + if request == PostFromAssistant(id) then [Post(id, None)] else []
  {
    var posts := Handle(rows, request).0.posts;
    if posts != rows.posts {
      PostsOfAppend(rows.posts, posts[|rows.posts|], id);
    }
  }

  /** The assistant's messages to a conversation in a run of requests. */
  function Replies(requests: seq<Request>, id: ConversationId): seq<Post> {
    if requests == [] then []
    else
      Replies(requests[..|requests| - 1], id)
      + if requests[|requests| - 1] == PostFromAssistant(id) then [Post(id, None)] else []
  }

  lemma {:induction false} NoWrites(requests: seq<Request>, id: ConversationId)
    ensures Replies(requests, id) == [] <==> PostFromAssistant(id) !in requests
  {
    if requests != [] {
      NoWrites(requests[..|requests| - 1], id);
      assert requests == requests[..|requests| - 1] + [requests[|requests| - 1]];
    }
  }

  /** Between a delete and its owner's restore the messages are those before and the assistant's since. */
  lemma {:induction false} DeletedGains(rows: Rows, requests: seq<Request>, id: ConversationId)
    requires OwnersTakePart(rows) && IsDeleted(rows, id)
    requires !RestoredBy(requests, id, rows.conversations[id].owner)
    ensures PostsOf(Serve(rows, requests).posts, id)
            == PostsOf(rows.posts, id) + Replies(requests, id)
  {
    if requests != [] {
      var earlier, last := requests[..|requests| - 1], requests[|requests| - 1];
      EarlierUnrestored(requests, id, rows.conversations[id].owner);
      DeletedGains(rows, earlier, id);
      DeletedIsFrozen(rows, earlier, id);
      DeletedGainsOnce(Serve(rows, earlier), last, id);
    }
  }

  /** "No message is added while deleted" is false of the assistant's, whose write does not look at the
      conversation, and only of it: between a delete and its owner's restore, whatever is requested, the
      conversation's messages stay as they are if and only if the assistant does not write. */
  lemma OnlyAssistantPostsWhileDeleted(rows: Rows, requests: seq<Request>, id: ConversationId)
    requires OwnersTakePart(rows) && IsDeleted(rows, id)
    requires !RestoredBy(requests, id, rows.conversations[id].owner)
    ensures PostsOf(Serve(rows, requests).posts, id) == PostsOf(rows.posts, id) <==> PostFromAssistant(id) !in requests
  {
    DeletedGains(rows, requests, id);
    NoWrites(requests, id);
  }

  /** A run that does it: the owner sends a message and deletes the conversation before the reply is
      written. */
  lemma AssistantPostsWhileDeleted(id: ConversationId, owner: UserId) returns (requests: seq<Request>)
    ensures requests == [Create(id, owner, "", 0), PostFromUser(id, owner), Delete(id, owner, 1), PostFromAssistant(id)]
    ensures IsDeleted(Serve(EMPTY, requests[..3]), id) && Serve(EMPTY, requests[..3]).posts == [Post(id, Some(owner))]
    ensures IsDeleted(Serve(EMPTY, requests), id) && Serve(EMPTY, requests).posts == [Post(id, Some(owner)), Post(id, None)]
  {
    var create, send, delete, reply := Create(id, owner, "", 0), PostFromUser(id, owner), Delete(id, owner, 1), PostFromAssistant(id);
    requests := [create, send, delete, reply];
    SentRun(id, owner);
    ServeOne(EMPTY, [create, send], delete);
    ServeOne(EMPTY, [create, send, delete], reply);
    assert [create, send] + [delete] == [create, send, delete] == requests[..3];
    assert [create, send, delete] + [reply] == requests;
    assert [Post(id, Some(owner))] + [Post(id, None)] == [Post(id, Some(owner)), Post(id, None)];
  }

  lemma SentRun(id: ConversationId, owner: UserId)
    ensures Serve(EMPTY, [Create(id, owner, "", 0), PostFromUser(id, owner)])
            == Rows(map[id := Row(owner, "", 0, 0, None)], map[Membership(id, owner) := 0], [Post(id, Some(owner))])
  {
    var create, send := Create(id, owner, "", 0), PostFromUser(id, owner);
    ServeOne(EMPTY, [], create);
    ServeOne(EMPTY, [create], send);
    assert [] + [create] == [create] && [create] + [send] == [create, send];
    var started := Rows(map[id := Row(owner, "", 0, 0, None)], map[Membership(id, owner) := 0], []);
    assert Serve(EMPTY, [create]) == started;
    assert owner in ParticipantsOf(started, id) by {
      assert Membership(id, owner).user == owner;
    }
    assert [] + [Post(id, Some(owner))] == [Post(id, Some(owner))];
  }

  lemma ServeOne(rows: Rows, requests: seq<Request>, last: Request)
    ensures Serve(rows, requests + [last]) == Handle(Serve(rows, requests), last).0
  {
    assert (requests + [last])[..|requests|] == requests;
  }

  /** The aggregate root, changed in place. */
  class Conversation {
    const id: ConversationId
    const owner: UserId
    const createdAt: Time
    var title: string
    var updatedAt: Time
    var deletedAt: Option<Time>
    var participants: set<UserId>

    function View(): Aggregate
      reads this
    {
      Aggregate(id, owner, title, createdAt, updatedAt, deletedAt, participants)
    }

    constructor Start(id: ConversationId, owner: UserId, title: string, now: Time)
      ensures View() == Started(id, owner, title, now)
    {
      this.id := id;
      this.owner := owner;
      this.title := title;
      createdAt := now;
      updatedAt := now;
      deletedAt := None;
      participants := {owner};
    }

    constructor Load(a: Aggregate)
      ensures View() == a
    {
      id := a.id;
      owner := a.owner;
      createdAt := a.createdAt;
      title := a.title;
      updatedAt := a.updatedAt;
      deletedAt := a.deletedAt;
      participants := a.participants;
    }

    method SetTitle(newTitle: string, now: Time)
      modifies this
      ensures View() == old(View()).Renamed(newTitle, now)
    {
      title := newTitle;
      updatedAt := now;
    }

    /** Idempotent: a second delete keeps the first timestamp. */
    method MarkDeleted(now: Time)
      modifies this
      ensures View() == old(View()).Deleted(now)
    {
      if deletedAt.None? {
        deletedAt := Some(now);
        updatedAt := now;
      }
    }

    method Undelete(now: Time)
      modifies this
      ensures View() == old(View()).Restored(now)
    {
      if deletedAt.Some? {
        deletedAt := None;
        updatedAt := now;
      }
    }

    method AddParticipant(user: UserId) returns (isNew: bool)
      modifies this
      ensures isNew <==> user !in old(participants)
      ensures View() == old(View()).(participants := old(participants) + {user})
    {
      isNew := user !in participants;
      participants := participants + {user};
    }

    /** The owner is never removed, and a stranger's removal is told apart from a no-op. */
    method RemoveParticipant(user: UserId) returns (refusal: Option<Refusal>)
      modifies this
      ensures refusal == if user == owner then Some(CannotRemoveOwner)
                         else if user !in old(participants) then Some(NotParticipant) else None
      ensures View() == old(View()).(participants := if refusal.None? then old(participants) - {user} else old(participants))
    {
      if user == owner {
        return Some(CannotRemoveOwner);
      }
      if user !in participants {
        return Some(NotParticipant);
      }
      participants := participants - {user};
      refusal := None;
    }
  }

  /** The use cases over the tables: load an aggregate, change it in place, write its rows back. */
  class ConversationService {
    var rows: Rows

    constructor ()
      ensures rows == EMPTY
    {
      rows := EMPTY;
    }

    /** `id` is the fresh identifier the use case draws. */
    method CreateConversation(id: ConversationId, actor: UserId, title: string, now: Time) returns (outcome: Outcome)
      modifies this
      ensures (rows, outcome) == Handle(old(rows), Create(id, actor, title, now))
    {
      if id in rows.conversations {
        return Refused(ConstraintViolated);
      }
      var conversation := new Conversation.Start(id, actor, title, now);
      rows := rows.(conversations := rows.conversations[id := Row(actor, title, now, now, None)],
                    members := rows.members[Membership(id, actor) := now]);
      outcome := Accepted(conversation.View());
    }

    method RenameConversation(id: ConversationId, actor: UserId, title: string, now: Time) returns (outcome: Outcome)
      modifies this
      ensures (rows, outcome) == Handle(old(rows), Rename(id, actor, title, now))
    {
      var loaded := Get(rows, id);
      if loaded.None? {
        return Refused(NotFound);
      }
      var conversation := new Conversation.Load(loaded.value);
      if conversation.owner != actor {
        return Refused(NotOwner);
      }
      conversation.SetTitle(title, now);
      rows := Update(rows, conversation.View());
      outcome := Accepted(conversation.View());
    }

    method DeleteConversation(id: ConversationId, actor: UserId, now: Time) returns (outcome: Outcome)
      modifies this
      ensures (rows, outcome) == Handle(old(rows), Delete(id, actor, now))
    {
      var loaded := Get(rows, id);
      if loaded.None? {
        return Refused(NotFound);
      }
      var conversation := new Conversation.Load(loaded.value);
      if conversation.owner != actor {
        return Refused(NotOwner);
      }
      conversation.MarkDeleted(now);
      rows := Update(rows, conversation.View());
      outcome := Accepted(conversation.View());
    }

    method RestoreConversation(id: ConversationId, actor: UserId, now: Time) returns (outcome: Outcome)
      modifies this
      ensures (rows, outcome) == Handle(old(rows), Restore(id, actor, now))
    {
      var loaded := GetIncludingDeleted(rows, id);
      if loaded.None? {
        return Refused(NotFound);
      }
      var conversation := new Conversation.Load(loaded.value);
      if conversation.owner != actor {
        return Refused(NotOwner);
      }
      conversation.Undelete(now);
      rows := Update(rows, conversation.View());
      outcome := Accepted(conversation.View());
    }

    method InviteParticipant(id: ConversationId, actor: UserId, invited: Option<UserId>, now: Time) returns (outcome: Outcome)
      modifies this
      ensures (rows, outcome) == Handle(old(rows), Invite(id, actor, invited, now))
    {
      var loaded := Get(rows, id);
      if loaded.None? {
        return Refused(NotFound);
      }
      var conversation := new Conversation.Load(loaded.value);
      if conversation.owner != actor {
        return Refused(NotOwner);
      }
      if invited.None? {
        return Refused(UserNotFound);
      }
      var isNew := conversation.AddParticipant(invited.value);
      if isNew {
        rows := rows.(members := rows.members[Membership(id, invited.value) := now]);
      } else {
        assert loaded.value.participants + {invited.value} == loaded.value.participants;
      }
      outcome := Accepted(conversation.View());
    }

    method RemoveParticipant(id: ConversationId, actor: UserId, user: UserId) returns (outcome: Outcome)
      modifies this
      ensures (rows, outcome) == Handle(old(rows), Remove(id, actor, user))
    {
      var loaded := Get(rows, id);
      if loaded.None? {
        return Refused(NotFound);
      }
      var conversation := new Conversation.Load(loaded.value);
      if conversation.owner != actor && actor != user {
        return Refused(NotOwner);
      }
      var refusal := conversation.RemoveParticipant(user);
      if refusal.Some? {
        return Refused(refusal.value);
      }
      rows := rows.(members := rows.members - {Membership(id, user)});
      outcome := Accepted(conversation.View());
    }
  }
}
