/** Who may change what: the effect and the answer of every request, in terms of the tables alone. */
module ConversationRules {
  import opened Values
  import opened Conversations

  predicate Visible(rows: Rows, id: ConversationId) {
    id in rows.conversations && rows.conversations[id].deletedAt.None?
  }

  /** The request is about a conversation that its use case can find. */
  predicate Finds(rows: Rows, request: Request) {
    if request.Restore? then request.id in rows.conversations else Visible(rows, request.id)
  }

  predicate Owns(rows: Rows, id: ConversationId, user: UserId) {
    id in rows.conversations && rows.conversations[id].owner == user
  }

  // Membership.

  /** The owner, or the member himself, removes a member other than the owner. */
  ghost predicate Leaves(rows: Rows, request: Request, id: ConversationId, user: UserId) {
    && request.Remove? && request.id == id && request.user == user && Visible(rows, id)
    && user in ParticipantsOf(rows, id) && !Owns(rows, id, user)
    && (Owns(rows, request.id, request.actor) || request.actor == user)
  }

  /** The creator of a new conversation, or someone its owner invites. */
  ghost predicate Enters(rows: Rows, request: Request, id: ConversationId, user: UserId) {
    || (request.Create? && request.id == id && request.actor == user && id !in rows.conversations)
    || (request.Invite? && request.id == id && request.invited == Some(user) && Visible(rows, id)
        && Owns(rows, request.id, request.actor) && user !in ParticipantsOf(rows, id))
  }

  lemma MemberIffRow(rows: Rows, id: ConversationId, user: UserId)
    ensures user in ParticipantsOf(rows, id) <==> Membership(id, user) in rows.members
  {
    if Membership(id, user) in rows.members {
      assert Membership(id, user).user == user;
    }
  }

  /** A request makes a user leave or enter a conversation exactly as those two rules say. */
  lemma MembershipChangesIff(rows: Rows, request: Request, id: ConversationId, user: UserId)
    requires OwnersTakePart(rows)
    ensures var before, after := ParticipantsOf(rows, id), ParticipantsOf(Handle(rows, request).0, id);
            && (user in before && user !in after <==> Leaves(rows, request, id, user))
            && (user !in before && user in after <==> Enters(rows, request, id, user))
    ensures Enters(rows, request, id, user) ==>
              var members := Handle(rows, request).0.members;
              Membership(id, user) in members && members[Membership(id, user)] == request.now
  {
    var after := Handle(rows, request).0;
    MemberIffRow(rows, id, user);
    MemberIffRow(after, id, user);
    if request.Invite? && request.invited.Some? {
      MemberIffRow(rows, request.id, request.invited.value);
    }
    if request.Remove? {
      MemberIffRow(rows, request.id, request.user);
    }
  }

  /** Who is a member after a run, told by the requests that made him enter or leave. */
  ghost predicate IsMember(rows: Rows, requests: seq<Request>, id: ConversationId, user: UserId) {
    if requests == [] then user in ParticipantsOf(rows, id)
    else
      var earlier, last := requests[..|requests| - 1], requests[|requests| - 1];
      var found := Serve(rows, earlier);
      Enters(found, last, id, user) || (IsMember(rows, earlier, id, user) && !Leaves(found, last, id, user))
  }

  /** Over every run, those requests alone decide who takes part. */
  lemma {:induction false} MembersAreDecided(rows: Rows, requests: seq<Request>, id: ConversationId, user: UserId)
    requires OwnersTakePart(rows)
    ensures OwnersTakePart(Serve(rows, requests))
    ensures user in ParticipantsOf(Serve(rows, requests), id) <==> IsMember(rows, requests, id, user)
  {
    if requests != [] {
      var earlier, last := requests[..|requests| - 1], requests[|requests| - 1];
      MembersAreDecided(rows, earlier, id, user);
      HandleKeepsOwners(Serve(rows, earlier), last);
      MembershipChangesIff(Serve(rows, earlier), last, id, user);
    }
  }

  // The conversation's row, and its messages.

  /** A stored conversation's row changes by its owner's rename or delete while it is visible, and by his
      restore while it is deleted, and by nothing else; a row appears by a create alone. */
  lemma RowChangesIff(rows: Rows, request: Request, id: ConversationId)
    ensures id in rows.conversations ==>
              var row, after := rows.conversations[id], Handle(rows, request).0.conversations;
              && id in after
              && after[id] ==
                   if request.id != id || request.PostFromAssistant? || request.actor != row.owner then row
                   else if request.Rename? && row.deletedAt.None? then row.(title := request.title, updatedAt := request.now)
                   else if request.Delete? && row.deletedAt.None? then row.(deletedAt := Some(request.now), updatedAt := request.now)
                   else if request.Restore? && row.deletedAt.Some? then row.(deletedAt := None, updatedAt := request.now)
                   else row
    ensures id !in rows.conversations ==>
              var after := Handle(rows, request).0.conversations;
              && (id in after <==> request.Create? && request.id == id)
              && (id in after ==> after[id] == Row(request.actor, request.title, request.now, request.now, None))
  {
  }

  /** A user's message is stored exactly for a participant of a visible conversation. */
  lemma PostsGrowIff(rows: Rows, request: Request)
    ensures Handle(rows, request).0.posts == rows.posts +
              if request.PostFromUser? && Visible(rows, request.id) && request.actor in ParticipantsOf(rows, request.id)
              then [Post(request.id, Some(request.actor))]
              else if request.PostFromAssistant? && request.id in rows.conversations then [Post(request.id, None)]
              else []
  {
    assert rows.posts + [] == rows.posts;
  }

  // Refusals.

  /** Each refusal is given in exactly one situation, the earlier check deciding where two apply. */
  lemma RefusalsTellApart(rows: Rows, request: Request)
    ensures var outcome, found := Handle(rows, request).1, Finds(rows, request);
            var byUse := !request.Create? && !request.PostFromAssistant?;
            && (outcome == Refused(ConstraintViolated) <==>
                  || (request.Create? && request.id in rows.conversations)
                  || (request.PostFromAssistant? && request.id !in rows.conversations))
            && (outcome == Refused(NotFound) <==> byUse && !found)
            && (outcome == Refused(NotOwner) <==>
                  && byUse && !request.PostFromUser? && found && !Owns(rows, request.id, request.actor)
                  && !(request.Remove? && request.actor == request.user))
            && (outcome == Refused(UserNotFound) <==> request.Invite? && found && Owns(rows, request.id, request.actor) && request.invited.None?)
            && (outcome == Refused(CannotRemoveOwner) <==>
                  request.Remove? && found && Owns(rows, request.id, request.user)
                  && (Owns(rows, request.id, request.actor) || request.actor == request.user))
            && (outcome == Refused(NotParticipant) <==>
                  || (request.PostFromUser? && found && request.actor !in ParticipantsOf(rows, request.id))
                  || (request.Remove? && found && !Owns(rows, request.id, request.user)
                      && (Owns(rows, request.id, request.actor) || request.actor == request.user)
                      && request.user !in ParticipantsOf(rows, request.id)))
  {
  }
}
