/** Value objects shared by the messaging modules: identities, roles and the message itself. */
module Values {

  datatype Option<+T> = None | Some(value: T)

  type ConversationId = nat
  type UserId = nat
  type ClientKey = nat

  datatype Role = User | Assistant

  /** One message row. `id` is the bigserial sequence number and the ordering key; `key` is the
      client's idempotency key, absent for assistant messages and for keyless sends. */
  datatype Message = Message(
    id: nat,
    conversation: ConversationId,
    sender: Option<UserId>,
    role: Role,
    content: string,
    key: Option<ClientKey>)

  lemma {:induction false} SubsetSize<T>(a: set<T>, b: set<T>)
    requires a <= b
    ensures |a| <= |b|
  {
    if a != {} {
      var x :| x in a;
      SubsetSize(a - {x}, b - {x});
    }
  }
}
