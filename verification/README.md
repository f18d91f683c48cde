# Real-time delivery of dizzchat: a verified model

dizzchat is a chat backend that runs as several API replicas. A message is stored in Postgres, then published to a
Redis channel; each replica's reader passes what it receives to the sockets connected to it, and a reconnecting client
is sent what it missed from the store. This project models that engine and the code around it, and proves what the
repository's documentation and comments promise of it over every run. Where a promise is false of the code, the code
is modelled as it is and the exact condition is proved.

## What is modelled

- **The delivery engine** (`Buckets`, `ReplicaMachine`, `MessageStore`, `Fanout`, `FanoutSafety`, `Delivery`, `Client`,
  `Broadcasts`, `Locks`, `LateFrames`, `MissedPublishes`, `Orphans`, `SeamWitness`). A transition system in which every
  `await` is a point of interleaving. One replica has its map of live sockets, the registry lock with the join or leave
  that holds it, the subscriber's bookkeeping, what its pub/sub connection is really subscribed to, its inbox, the
  pub/sub lock, and the reader with its snapshot and dead list. The whole system is one store, any number of replicas,
  and any number of sockets, each with its handler's phase and the log of frames its client received. Dropped links,
  failed sends, failed subscribes, unsubscribes and reconnects, and drains are steps. Row ids are allocated at flush
  and rows appear at commit, so ids may commit out of order.
- **The send flow** (`Exchange`, `ExchangeSafety`, `SendGuarantees`, `AckHistory`, `MessageExchange`). Any number of
  concurrent and retried exchanges, each of which may fail at any step, including a commit or a publish that took
  effect although the call raised. The database is asked for its unique constraint and nothing else.
- **Both together** (`EndToEnd`, `EndToEndWitness`): sends and deliveries interleaved over one store, and what clients
  see of idempotence, completeness and order.
- **Paged reads** (`MessageTable`, `Replay`, `History`), against a fixed table and against one that grows between
  pages.
- **The rate limiter** (`RateLimiter`), over real-valued time, with expiring keys and failing Redis calls.
- **The objects as the code has them** (`ConnectionManager`, `Subscriber`, `Registry`, `Session` with `SessionRules`,
  and the classes in `Replay`, `RateLimiter`, `MessageExchange`, `Conversations`, `RefreshTokens`): classes whose
  methods change fields in place and loop as the source does, each proved against the functions the other modules
  reason about.
- **The aggregates** (`Conversations` with `ConversationRules`, `RefreshTokens`, `RotationRace`): the conversation and
  its rows, and refresh-token rotation, over serialized requests; and rotation with the read and the commit of each
  refresh apart.

`dafny verify dfyconfig.toml` checks everything.

## Where a promise had to be made exact

- `SYSTEM_GUIDE.md:444` says that the subscriber repairs itself. A failed read does lead to a reconnect, but an exception
  from a re-subscribe inside the reconnect leaves the reader task for good: `CrashedIffReconnectRaised`, `CrashIsFinal`,
  and the run of `DeafReplica`. From then on no socket of that replica gets a live frame, whatever happens
  (`EndedReaderIsDeaf`), while the store and the other replicas go on (`UnservedClient`).
- "Subscribed if and only if some socket is local" (`conversation_registry.py:6-7`) holds at every steady moment of a run
  if and only if none of its steps is one of six that orphan a subscription (`SubscribedIffRegistered`, predicate
  `Orphans`): an unsubscribe that raises before Redis applied it, a subscribe that raises after, a subscribe that returns
  when its joiner is gone again, a broadcast that drops a last socket, a drain of live sockets, and a reconnect over
  bookkeeping that claims channels for nobody. Four runs show it fail. The bookkeeping set alone misses the first two
  (`BookkeepingIffRegistered`). What always holds is that a registered conversation is subscribed: `ReplicaSafety`.
- A reconnect heals the subscriptions and not what was missed: a publish is queued at a replica exactly if it listens at
  that moment (`HeardIffListening`), and otherwise never reaches its sockets live (`MissedForGood`, `QueueIsLost`).
- "No frame after the leave" is false of a broadcast under way (`FrameAfterLeave`): a closed socket's log grows by at most
  the one packet whose snapshot was taken before the leave (`FramesAfterLeave`).
- "Acked means broadcast and replied to" is false of a keyed retry after a failed publish (`RetryAckedUnsent`), and
  `AckIsComplete` says exactly when it holds, `AckIncompleteIff` by which event or stage of the writing exchange it does not.
- A high-water-mark client loses messages exactly when a frame arrives late (`HighWaterLosesLateFrames`), and a run
  without faults makes it (`HighWaterClientLoses`).
- "No message is added while a conversation is deleted" is true of user messages only (`DeletedIsFrozen`). Between a delete
  and its owner's restore the messages change if and only if the assistant writes (`OnlyAssistantPostsWhileDeleted`), as
  it does when a conversation is deleted between a message and its reply (`AssistantPostsWhileDeleted`).
- "A used refresh token is rejected" holds of refreshes served one after another (`AcceptedAtMostOnce`). Nothing locks the
  row between a refresh's read and its commit: of two refreshes of one token both are granted if and only if the second
  reads before the first commits (`BothGrantedIff`), and the login's chain forks (`RaceForksAChain`).

## Model

| member | source | states |
|---|---|---|
| Delivery.NoGap | src/dizzchat/contexts/messaging/infrastructure/inbound/api/realtime/websocket.py:92-115 | join before replay leaves no gap: in every reachable state, a published committed row above the cursor has reached a serving socket whose backlog is sent and whose queue is drained, although ids commit out of order and rows commit between pages |
| Delivery.FaultFreeReconnect | src/dizzchat/contexts/messaging/infrastructure/inbound/api/realtime/websocket.py:104-115 | in every run without link, read, send or drain faults, every reconnected client ends with exactly the tail of the table above its cursor |
| Delivery.SeenSetRebuildsTail | src/dizzchat/contexts/messaging/infrastructure/inbound/api/realtime/websocket.py:106-112 | the seen-set client sorting by id rebuilds exactly the table above its cursor, whatever happened to other sockets and replicas |
| Delivery.OnlyCommittedRows | src/dizzchat/contexts/messaging/application/services/message_exchange.py:22-26 | whatever a client receives, live or replayed, is a committed row of its own conversation |
| Delivery.AtMostOnceEachWay | src/dizzchat/contexts/messaging/infrastructure/inbound/api/realtime/websocket.py:106-112 | a client gets each message at most once by replay and at most once live, the replayed ones in ascending order |
| Delivery.LiveOrderAgrees | src/dizzchat/contexts/messaging/infrastructure/outbound/redis/redis_conversation_subscriber.py:77-110 | two clients of a conversation, on any replicas, receive the live messages they share in one order, the order of publication |
| Delivery.FaultFreeRunsStayHealthy | src/dizzchat/contexts/messaging/infrastructure/outbound/redis/redis_conversation_subscriber.py:77-93 | without those faults no reader ends or falls back to a reconnect, no link drops and no joined socket stops receiving |
| Client.SeenSetIsSorted | src/dizzchat/contexts/messaging/infrastructure/inbound/api/realtime/websocket.py:106-111 | in any order of arrival, the seen-set view is the ascending list of exactly the received messages above the cursor |
| Client.HighWaterLosesLateFrames | src/dizzchat/contexts/messaging/infrastructure/inbound/api/realtime/websocket.py:106-111 | a high-water-mark client keeps every message above its cursor if and only if no new one arrives after a higher id |
| SeamWitness.HighWaterClientLoses | src/dizzchat/contexts/messaging/infrastructure/inbound/api/realtime/websocket.py:106-111 | a concrete run without faults in which the high-water-mark client drops a replayed message that was overtaken by a live one |
| FanoutSafety.StepKeepsInv | src/dizzchat/contexts/messaging/infrastructure/inbound/api/realtime/websocket.py:62-124 | every step of store, replica, socket or replay keeps the engine's invariant: seam, live coverage since the join, publish order, and agreement between registry and handlers |
| FanoutSafety.Reachable | src/dizzchat/contexts/messaging/infrastructure/inbound/api/realtime/websocket.py:62-124 | that invariant holds after every run of any number of replicas and sockets |
| ReplicaMachine.ReplicaSafety | src/dizzchat/contexts/messaging/infrastructure/inbound/api/realtime/conversation_registry.py:38-59 | over every run of a replica: registered implies subscribed but for a first join in progress whose only socket is the joiner, no empty bucket, and bookkeeping within the real subscriptions while connected |
| ReplicaMachine.ReconnectHeals | src/dizzchat/contexts/messaging/infrastructure/outbound/redis/redis_conversation_subscriber.py:112-119 | a reconnect that goes through re-establishes equality of bookkeeping and subscriptions, so no registered socket is deaf afterwards |
| Broadcasts.BroadcastDropsFailed | src/dizzchat/contexts/messaging/infrastructure/inbound/api/realtime/connection_manager.py:83-98 | over every run, by its events: when a broadcast is done each socket that was in the conversation when its packet was read has been tried exactly once, and exactly those whose send failed since are dropped, from that conversation alone |
| Broadcasts.QueueCanBeDrained | src/dizzchat/contexts/messaging/infrastructure/outbound/redis/redis_conversation_subscriber.py:77-93 | from every reachable state a live reader with a channel can drain its whole queue, dropping nobody who can be sent to |
| Broadcasts.ReadsFollowASubscribe | src/dizzchat/contexts/messaging/infrastructure/outbound/redis/redis_conversation_subscriber.py:77-84 | over every run no read is begun before some subscribe has succeeded |
| Broadcasts.JoinThenLeave | src/dizzchat/contexts/messaging/infrastructure/inbound/api/realtime/conversation_registry.py:38-59 | a first join and a last leave that Redis accepts lead back to the initial state |
| Locks.ConnectionIsExclusive | src/dizzchat/contexts/messaging/infrastructure/outbound/redis/redis_conversation_subscriber.py:61-102 | over every run no read, subscribe, unsubscribe or reconnect begins between the beginning and the end of another touch of the pub/sub connection |
| Locks.RegistryIsExclusive | src/dizzchat/contexts/messaging/infrastructure/inbound/api/realtime/conversation_registry.py:46-59 | over every run no join or leave begins while another waits for its subscribe or unsubscribe |
| MissedPublishes.HeardIffListening | src/dizzchat/contexts/messaging/infrastructure/outbound/redis/redis_message_broadcaster.py:24-25 | in every reachable state a publish is queued at a replica if and only if it is connected and subscribed at that moment |
| MissedPublishes.MissedForGood | src/dizzchat/contexts/messaging/infrastructure/outbound/redis/redis_conversation_subscriber.py:112-119 | in any continuation, reconnects included, no socket of a replica that was not listening to a publish ever gets that message live |
| MissedPublishes.QueueIsLost | src/dizzchat/contexts/messaging/infrastructure/outbound/redis/redis_conversation_subscriber.py:112-119 | what was still queued on the old connection at a reconnect is among what is missed |
| Orphans.SubscribedIffRegistered | src/dizzchat/contexts/messaging/infrastructure/inbound/api/realtime/conversation_registry.py:1-8 | over every run: at each steady moment (linked, with a reader, not reconnecting) exactly the conversations with a local socket are subscribed, the transition in progress aside, if and only if no step of the run is one of the six that orphan a subscription |
| Orphans.StepKeepsExact | src/dizzchat/contexts/messaging/infrastructure/outbound/redis/redis_conversation_subscriber.py:61-75 | step by step: those six, and no other step, part the subscriptions from the local sockets |
| Orphans.DrainLeavesSubscribed | src/dizzchat/contexts/messaging/infrastructure/inbound/api/realtime/connection_manager.py:73-81 | a concrete run, a join and a drain, that ends subscribed and empty, in the bookkeeping too |
| Orphans.RefusedUnsubscribeLeavesSubscribed | src/dizzchat/contexts/messaging/infrastructure/outbound/redis/redis_conversation_subscriber.py:70-75 | a concrete run, a refused unsubscribe, that ends subscribed and empty although the bookkeeping is exact |
| Orphans.RefusedSubscribeLeavesSubscribed | src/dizzchat/contexts/messaging/infrastructure/inbound/api/realtime/conversation_registry.py:49-53 | a concrete run, a subscribe that raises after it took effect, that ends subscribed and empty after the rollback |
| Orphans.DeadSocketLeavesSubscribed | src/dizzchat/contexts/messaging/infrastructure/inbound/api/realtime/connection_manager.py:83-98 | a concrete run, a broadcast whose only send fails, that ends subscribed and empty |
| Orphans.BookkeepingIffRegistered | src/dizzchat/contexts/messaging/infrastructure/inbound/api/realtime/connection_manager.py:73-98 | of the bookkeeping set alone: a step keeps it equal to the registered conversations if and only if it is neither a broadcast that drops a last socket nor a drain of live sockets |
| LateFrames.EndedReaderIsDeaf | src/dizzchat/contexts/messaging/infrastructure/outbound/redis/redis_conversation_subscriber.py:77-93 | in any continuation of a run in which a replica's reader has ended, no socket of the replica, present or still to connect, gets another live frame |
| LateFrames.UnservedClient | src/dizzchat/contexts/messaging/infrastructure/outbound/redis/redis_conversation_subscriber.py:112-119 | a concrete run with a client in its receive loop and a committed, published row it has not got and, the reader having ended, will never get live |
| LateFrames.FramesAfterLeave | src/dizzchat/contexts/messaging/infrastructure/inbound/api/realtime/connection_manager.py:83-98 | in any continuation a closed socket stays closed and its log grows by at most the packet whose snapshot was taken before its leave, and exactly if that packet is sent to it |
| LateFrames.FrameAfterLeave | src/dizzchat/contexts/messaging/infrastructure/inbound/api/realtime/connection_manager.py:83-98 | a concrete run in which a client gets a live frame after its leave has begun |
| ReplicaMachine.CrashedIffReconnectRaised | src/dizzchat/contexts/messaging/infrastructure/outbound/redis/redis_conversation_subscriber.py:77-93 | over every run the reader has ended if and only if an exception came out of a reconnect; no failed read, subscribe, send or unsubscribe ends it |
| ReplicaMachine.CrashIsFinal | src/dizzchat/contexts/messaging/infrastructure/outbound/redis/redis_conversation_subscriber.py:77-93 | an ended reader never reads or reconnects again, in any continuation of the run |
| ReplicaMachine.DeafReplica | src/dizzchat/contexts/messaging/infrastructure/outbound/redis/redis_conversation_subscriber.py:112-119 | a run that ends with a registered socket, an ended reader and no subscription |
| MessageStore.DoKeepsInv | src/dizzchat/contexts/messaging/infrastructure/outbound/persistence/models/message_model.py:25-37 | flush, commit, rollback and publish keep primary-key order, the unique key over open and committed rows, and that only committed rows are published, each once |
| MessageStore.DoGrowsTable | src/dizzchat/contexts/messaging/infrastructure/outbound/persistence/session_scoped_message_writer.py:42-63 | no step withdraws a committed row or a publish |
| ExchangeSafety.StepKeepsInv | src/dizzchat/contexts/messaging/application/services/message_exchange.py:38-67 | every step, successful or failing, of any of the concurrent exchanges keeps the invariant of all of them |
| ExchangeSafety.Reachable | src/dizzchat/contexts/messaging/application/services/message_exchange.py:38-67 | the invariant holds after every schedule of exchanges, retries and failures |
| SendGuarantees.SendsAreIdempotent | src/dizzchat/contexts/messaging/application/services/post_message.py:46-74 | per conversation and client key at most one committed row; each message published at most once and only once committed; no user row answered twice |
| SendGuarantees.AcksAgree | src/dizzchat/contexts/messaging/application/services/post_message.py:59-64 | all acks for a key carry the same message |
| SendGuarantees.AcksAreOwnOrKeyed | src/dizzchat/contexts/messaging/application/services/post_message.py:59-74 | over every run an ack of an earlier row is only for a keyed send, of a row under its key; every keyless ack is of the sender's own message |
| SendGuarantees.RetryWritesNothing | src/dizzchat/contexts/messaging/application/services/post_message.py:59-64 | in any continuation a send that looks up after the commit of a row under its key is acked with that row or fails, and writes nothing |
| SendGuarantees.LoserOfTheRaceFails | src/dizzchat/contexts/messaging/infrastructure/outbound/persistence/models/message_model.py:25-35 | in any continuation, of two sends under one key past their look-ups the second to insert fails and writes nothing |
| SendGuarantees.RacingSend | src/dizzchat/contexts/messaging/application/services/post_message.py:46-51 | a concrete run with such a race |
| SendGuarantees.RepliesFollow | src/dizzchat/contexts/messaging/application/services/message_exchange.py:60-66 | each committed reply answers a committed, already published user row of its conversation with a smaller id |
| SendGuarantees.RepliesAreConserved | src/dizzchat/contexts/messaging/application/services/message_exchange.py:51-67 | per conversation, assistant rows plus exchanges that still owe a reply never exceed user rows |
| SendGuarantees.AckIsComplete | src/dizzchat/contexts/messaging/application/services/message_exchange.py:46-58 | an acked row was broadcast and replied to if and only if its writer got as far as publishing the reply, which a fresh ack always means |
| AckHistory.AckIncompleteIff | src/dizzchat/contexts/messaging/application/services/message_exchange.py:51-67 | over the events of a run: an acked row is incomplete if and only if its writer is between its commit and its reply's publish, or gave up, was rolled back, lost a commit's outcome or a publish, other than a reply's publish that got through |
| SendGuarantees.RetryAckedUnsent | src/dizzchat/contexts/messaging/application/services/message_exchange.py:57-60 | a concrete run in which a keyed retry is acked for a row that was never broadcast |
| SendGuarantees.RowsAreAuthored | src/dizzchat/contexts/messaging/application/services/post_message.py:66-74 | every committed user row was written by some exchange of the run |
| SendGuarantees.RepliesArePublishedAfter | src/dizzchat/contexts/messaging/application/services/message_exchange.py:60-66 | over every run, a published reply stands after the row it answers in the publish order |
| EndToEnd.OneStore | src/dizzchat/contexts/messaging/application/services/message_exchange.py:51-67 | exchanges and deliveries interleaved freely: a joint run is a run of each machine over one store, and no step of an exchange is refused by the engine, so the guarantees of both hold together |
| EndToEnd.FinishedMeansPublished | src/dizzchat/contexts/messaging/application/services/message_exchange.py:51-67 | once every exchange that wrote a row has finished, exactly the committed rows, user and assistant, have been published |
| EndToEnd.ClientsCatchUp | src/dizzchat/contexts/messaging/infrastructure/inbound/api/realtime/websocket.py:104-115 | over any two such runs of one store: under every schedule of sends, retries and send failures, finished exchanges and a drained queue mean that a served client has rebuilt exactly its conversation above its cursor, if the delivery path had no fault |
| EndToEnd.OneMessagePerKey | src/dizzchat/contexts/messaging/infrastructure/outbound/persistence/models/message_model.py:25-35 | on any sockets and replicas, two received messages of one conversation with one client key are the same message |
| EndToEnd.QuestionComesFirst | src/dizzchat/contexts/messaging/application/services/message_exchange.py:60-66 | a client that receives a reply and the message it answers live receives the message first |
| EndToEndWitness.CaughtUpRun | src/dizzchat/contexts/messaging/application/services/message_exchange.py:51-67 | a concrete joint run in which a message is sent and answered and a client that connects afterwards catches up |
| MessageExchange.MessageExchange.Exchange | src/dizzchat/contexts/messaging/application/services/message_exchange.py:38-67 | one call alone on the store: a stranger changes nothing; an ack is of an earlier row if and only if the send has a key that a stored row of the conversation carries, and otherwise of the sender's own message, now stored, broadcast and answered; a fault leaves exactly the rows ahead of it; and the call is a run of the concurrent machine whose last exchange has ended as the call has |
| MessageExchange.MessageExchange.Check | src/dizzchat/contexts/messaging/application/services/post_message.py:59-64 | a key is looked up only if there is one: a duplicate is answered with the stored row under it and nothing written, every other send goes through to the first fault |
| MessageExchange.FaultsInOrder | src/dizzchat/contexts/messaging/application/services/message_exchange.py:51-67 | which faults leave the user row, and its reply, stored, and which broadcast |
| MessageExchange.MessageExchange.Persist | src/dizzchat/contexts/messaging/infrastructure/outbound/persistence/session_scoped_message_writer.py:34-50 | one commit per write: the row is durable unless the commit failed unapplied, and the id is spent either way |
| MessageExchange.MessageExchange.Announce | src/dizzchat/contexts/messaging/application/services/message_exchange.py:60-67 | a committed user row is broadcast before its reply is written |
| MessageExchange.MessageExchange.PersistReply | src/dizzchat/contexts/messaging/application/services/post_message.py:76-89 | the reply is a keyless assistant row in a transaction of its own |
| MessageTable.SelectMembers | src/dizzchat/contexts/messaging/infrastructure/outbound/persistence/repositories/sqlalchemy_message_repository.py:62-88 | a query returns exactly the rows of the conversation between its bounds |
| MessageTable.SelectAscending | src/dizzchat/contexts/messaging/infrastructure/outbound/persistence/repositories/sqlalchemy_message_repository.py:76-88 | and returns them strictly ascending |
| MessageTable.SelectAfterPage | src/dizzchat/contexts/messaging/infrastructure/outbound/persistence/repositories/sqlalchemy_message_repository.py:76-88 | the query above a page's last row is the rest of the query |
| MessageTable.SelectBeforePage | src/dizzchat/contexts/messaging/infrastructure/outbound/persistence/repositories/sqlalchemy_message_repository.py:62-74 | the query below a page's oldest row is the rest of the query |
| MessageTable.InsertKeepsOrder | src/dizzchat/contexts/messaging/infrastructure/outbound/persistence/repositories/sqlalchemy_message_repository.py:46-49 | a row that commits late still takes its place in id order |
| Replay.ReplayMessages.Execute | src/dizzchat/contexts/messaging/application/services/replay_messages.py:21-36 | for every page size and cursor the paging loop terminates with exactly the unpaged query, ascending |
| Replay.GrowingReplay | src/dizzchat/contexts/messaging/application/services/replay_messages.py:21-36 | under any growth between pages the result is strictly ascending, only committed rows above the cursor, and misses none that was there at the start |
| Replay.PageKeepsCover | src/dizzchat/contexts/messaging/application/services/replay_messages.py:26-35 | one page never passes over a committed row that was still to come |
| Replay.PageSplits | src/dizzchat/contexts/messaging/application/services/replay_messages.py:30-35 | a short page is the whole remaining query; a full one is followed by a strictly smaller query |
| Replay.TurnsTaken | src/dizzchat/contexts/messaging/application/services/replay_messages.py:26-35 | over a fixed table the loop is done after exactly as many queries as there are full pages, and one |
| History.PageIsExact | src/dizzchat/contexts/messaging/application/services/get_conversation_history.py:34-39 | the page is the newest rows below the cursor, and flag and cursor say exactly whether and where older rows remain |
| History.WalkIsExact | src/dizzchat/contexts/messaging/application/services/get_conversation_history.py:23-39 | following the cursor terminates with exactly the starting messages newest first, each once, even if larger ids are appended between pages |
| History.WalkUnderGrowth | src/dizzchat/contexts/messaging/application/services/get_conversation_history.py:34-39 | under any growth at all the walk is strictly descending, returns only committed rows and misses no starting message |
| History.OnlyParticipantsAreServed | src/dizzchat/contexts/messaging/application/services/get_conversation_history.py:31-34 | only a participant of a visible conversation is served, a stranger being told apart from a conversation that is not there |
| History.ReadIsWalk | src/dizzchat/contexts/messaging/application/services/get_conversation_history.py:23-39 | through the use case, membership being checked for every page: a reader is given the walk up to the first refused page, and all of it unless it lost the conversation on the way |
| History.ParticipantsReadEverything | src/dizzchat/contexts/messaging/application/services/get_conversation_history.py:23-39 | a participant who stays one reads exactly the starting messages, newest first and each once |
| RateLimiter.ExpiryIsTransparent | src/dizzchat/contexts/messaging/infrastructure/outbound/redis/redis_rate_limiter.py:53-67 | on every trace a key reads, inside its own window, what a counter that never expires would |
| RateLimiter.DecisionIsCount | src/dizzchat/contexts/messaging/infrastructure/outbound/redis/redis_rate_limiter.py:39-51 | an attempt passes exactly when Redis failed or its window's attempts so far do not exceed the limit |
| RateLimiter.AllowedIffPermitted | src/dizzchat/contexts/messaging/infrastructure/outbound/redis/redis_rate_limiter.py:39-67 | for all settings an attempt passes if and only if Redis failed, limit or window is switched off, or a never-expiring count of the window is within the limit |
| RateLimiter.ExactPerWindow | src/dizzchat/contexts/messaging/infrastructure/outbound/redis/redis_rate_limiter.py:20-31 | without failures a user is granted exactly the smaller of attempts and limit in each window |
| RateLimiter.AtMostLimitPerWindow | src/dizzchat/contexts/messaging/infrastructure/outbound/redis/redis_rate_limiter.py:39-51 | with failures at most the limit plus one for each failed call in the window |
| RateLimiter.AtMostTwiceInAnyInterval | src/dizzchat/contexts/messaging/infrastructure/outbound/redis/redis_rate_limiter.py:26-31 | any half-open interval of one window length, aligned or not, grants at most twice the limit plus its failed calls |
| RateLimiter.TwiceIsReached | src/dizzchat/contexts/messaging/infrastructure/outbound/redis/redis_rate_limiter.py:26-31 | for every limit and window length some run reaches that bound |
| RateLimiter.AtMostTwoLiveKeys | src/dizzchat/contexts/messaging/infrastructure/outbound/redis/redis_rate_limiter.py:53-67 | at any instant a user has at most two live keys |
| RateLimiter.NonPositiveWindowRefusesNobody | src/dizzchat/contexts/messaging/infrastructure/outbound/redis/redis_rate_limiter.py:43-57 | a window of zero or negative length never refuses an attempt |
| RateLimiter.RedisRateLimiter.Allow | src/dizzchat/contexts/messaging/infrastructure/outbound/redis/redis_rate_limiter.py:39-51 | the object's decision and the shared counters after it are those of the trace extended by this attempt |
| Buckets.RegisterThenUnregister | src/dizzchat/contexts/messaging/infrastructure/inbound/api/realtime/conversation_registry.py:49-53 | the rollback of a first registration restores the map |
| Buckets.UnregisterOneMore | src/dizzchat/contexts/messaging/infrastructure/inbound/api/realtime/connection_manager.py:97-98 | unregistering the dead one by one is removing them together |
| ConnectionManager.ConnectionManager.Register | src/dizzchat/contexts/messaging/infrastructure/inbound/api/realtime/connection_manager.py:55-60 | reports exactly the 0 to 1 transition |
| ConnectionManager.ConnectionManager.Unregister | src/dizzchat/contexts/messaging/infrastructure/inbound/api/realtime/connection_manager.py:62-71 | reports exactly the 1 to 0 transition |
| ConnectionManager.ConnectionManager.Broadcast | src/dizzchat/contexts/messaging/infrastructure/inbound/api/realtime/connection_manager.py:83-98 | one frame to every healthy socket of the conversation and to no other; exactly the failed sockets are dropped |
| ConnectionManager.ConnectionManager.SendToAll | src/dizzchat/contexts/messaging/infrastructure/inbound/api/realtime/connection_manager.py:89-96 | the send loop reaches each healthy socket of the snapshot once and lists exactly the dead |
| ConnectionManager.ConnectionManager.CloseAll | src/dizzchat/contexts/messaging/infrastructure/inbound/api/realtime/connection_manager.py:73-81 | every socket is closed, dead ones tolerated, and the map emptied |
| Subscriber.RedisConversationSubscriber.Subscribe | src/dizzchat/contexts/messaging/infrastructure/outbound/redis/redis_conversation_subscriber.py:61-68 | bookkeeping gains the channel only on success and stays within the subscriptions |
| Subscriber.RedisConversationSubscriber.Unsubscribe | src/dizzchat/contexts/messaging/infrastructure/outbound/redis/redis_conversation_subscriber.py:70-75 | bookkeeping loses the channel even when Redis refuses |
| Subscriber.RedisConversationSubscriber.Reconnect | src/dizzchat/contexts/messaging/infrastructure/outbound/redis/redis_conversation_subscriber.py:112-119 | succeeds exactly when no needed channel is refused, and then subscriptions equal bookkeeping |
| Subscriber.RedisConversationSubscriber.Run | src/dizzchat/contexts/messaging/infrastructure/outbound/redis/redis_conversation_subscriber.py:77-93 | while there is a channel and up to the first refused reconnect, every healthy socket's log grows by one frame for each read, by index, that brought a message of its conversation, in order and by nothing else; a dead one gets nothing, and only dead ones are dropped; it survives exactly if no reconnect is refused |
| Subscriber.EveryMessageIsHeard | src/dizzchat/contexts/messaging/infrastructure/outbound/redis/redis_conversation_subscriber.py:91-110 | what is delivered to a conversation is, index by index, every message of it that was read |
| Registry.ConversationRegistry.Join | src/dizzchat/contexts/messaging/infrastructure/inbound/api/realtime/conversation_registry.py:38-53 | a refused first subscribe leaves sockets and bookkeeping as they were; otherwise the socket is in and its conversation subscribed |
| Registry.ConversationRegistry.Leave | src/dizzchat/contexts/messaging/infrastructure/inbound/api/realtime/conversation_registry.py:55-59 | the socket is out, and the last one takes the subscription with it, even if Redis refuses |
| Session.OneAnswerPerFrame | src/dizzchat/contexts/messaging/infrastructure/inbound/api/realtime/websocket.py:181-233 | over any script each frame costs one limiter attempt and yields exactly one error, ack, close or answer that could not be sent, and acks are the successful exchanges but for such an unsent one |
| SessionRules.FrameGetsItsAnswer | src/dizzchat/contexts/messaging/infrastructure/inbound/api/realtime/websocket.py:189-233 | which frame gets which answer, by the never-expiring count: over the limit the rate-limit error alone, whatever the frame holds; an ack, of that message, exactly for a permitted, well-formed frame of a valid token whose exchange succeeded; the close exactly for one of an expired token |
| SessionRules.SessionKeepsTheLimit | src/dizzchat/contexts/messaging/infrastructure/inbound/api/realtime/websocket.py:189-193 | over any script, with whatever other sockets of the user have spent, the exchanges of a window are at most the limit plus its failed limiter calls |
| SessionRules.ScriptIsFollowed | src/dizzchat/contexts/messaging/infrastructure/inbound/api/realtime/websocket.py:181-233 | the loop takes its frames in order, each at its charge, until the script is over, the client is gone, or an answer was the close or could not be sent, and stops there |
| Session.AuthOkComesFirst | src/dizzchat/contexts/messaging/infrastructure/inbound/api/realtime/websocket.py:92-115 | auth.ok comes once, before every other frame, and never to a client that is turned away before it |
| Session.ConversationSocket.ReceiveLoop | src/dizzchat/contexts/messaging/infrastructure/inbound/api/realtime/websocket.py:171-233 | the loop sends exactly the frames, spends exactly the attempts and ends with exactly the exit its script prescribes |
| Session.ConversationSocket.ReplayMissed | src/dizzchat/contexts/messaging/infrastructure/inbound/api/realtime/websocket.py:149-168 | the backlog goes out oldest first up to the death of the transport, and not at all without a cursor |
| Session.ConversationSocket.Serve | src/dizzchat/contexts/messaging/infrastructure/inbound/api/realtime/websocket.py:62-124 | on every path, whether the transport is dead before the greeting, dies in the join or later, and whatever the access check does, the connection ends unregistered with the registry's and the limiter's invariants kept, has received exactly its transcript, and was closed with exactly the code its path calls for |
| SessionRules.PathsTellApart | src/dizzchat/contexts/messaging/infrastructure/inbound/api/realtime/websocket.py:78-121 | each way to end is taken in exactly one situation: 4401, 4403 and 1011, an exception out of the handler, a failed backlog, the loop |
| SessionRules.BacklogIsAPrefix | src/dizzchat/contexts/messaging/infrastructure/inbound/api/realtime/websocket.py:162-168 | the backlog rows that go out are its first ones, and all of them exactly if the transport lasts |
| Conversations.ReloadsWhatWasComputed | src/dizzchat/contexts/messaging/infrastructure/outbound/persistence/repositories/sqlalchemy_conversation_repository.py:59-71 | reloading after an accepted request gives exactly the aggregate the use case computed; a refused one stores nothing |
| Conversations.OthersUntouched | src/dizzchat/contexts/messaging/infrastructure/outbound/persistence/repositories/sqlalchemy_conversation_repository.py:105-128 | a request leaves every other conversation as it was |
| Conversations.OwnerAlwaysParticipates | src/dizzchat/contexts/messaging/domain/conversation/conversation.py:88-118 | over every run of requests the owner of each conversation is among its participants |
| ConversationRules.MembershipChangesIff | src/dizzchat/contexts/messaging/application/services/remove_participant.py:26-44 | a request makes a user leave if and only if it is the owner's or his own removal of a member other than the owner, and enter if and only if he creates the conversation or its owner invites him |
| ConversationRules.MembersAreDecided | src/dizzchat/contexts/messaging/application/services/add_participant.py:34-54 | over every run those requests alone decide who takes part |
| ConversationRules.RowChangesIff | src/dizzchat/contexts/messaging/domain/conversation/conversation.py:62-81 | a stored conversation's title, times and deletion change by its owner's rename or delete while visible and his restore while deleted, and by nothing else |
| ConversationRules.PostsGrowIff | src/dizzchat/contexts/messaging/application/services/post_message.py:52-74 | a user's message is stored if and only if he takes part in a visible conversation |
| ConversationRules.RefusalsTellApart | src/dizzchat/contexts/messaging/application/services/remove_participant.py:33-41 | each refusal is given in exactly one situation, the earlier check deciding where two apply |
| Conversations.DeletedIsFrozen | src/dizzchat/contexts/messaging/infrastructure/outbound/persistence/repositories/sqlalchemy_conversation_repository.py:73-81 | whatever is requested between a delete and its owner's restore, the conversation, its participants and its user messages stay as they are |
| Conversations.DeleteThenRestore | src/dizzchat/contexts/messaging/application/services/restore_conversation.py:27-39 | delete and matching restore undo each other but for the modification time, whatever happened in between |
| Conversations.OnlyAssistantPostsWhileDeleted | src/dizzchat/contexts/messaging/application/services/post_message.py:52-89 | whatever is requested between a delete and its owner's restore, the conversation's messages are unchanged if and only if the assistant does not write |
| Conversations.DeletedGains | src/dizzchat/contexts/messaging/application/services/post_message.py:52-89 | between a delete and its owner's restore the conversation's messages are those before and one for each write of the assistant, in order |
| Conversations.AssistantPostsWhileDeleted | src/dizzchat/contexts/messaging/application/services/message_exchange.py:60-66 | a concrete run: the owner sends, deletes the conversation before the reply, and the reply is stored in the deleted conversation |
| Conversations.Conversation.RemoveParticipant | src/dizzchat/contexts/messaging/domain/conversation/conversation.py:108-118 | the owner is refused, a stranger is told apart, and anyone else is exactly removed |
| Conversations.ConversationService.CreateConversation | src/dizzchat/contexts/messaging/application/services/create_conversation.py:24-41 | the object's tables and answer are those of the create request |
| Conversations.ConversationService.DeleteConversation | src/dizzchat/contexts/messaging/application/services/delete_conversation.py:21-32 | those of the delete request, read through the soft-delete filter |
| Conversations.ConversationService.RestoreConversation | src/dizzchat/contexts/messaging/application/services/restore_conversation.py:27-39 | those of the restore request, the only one to read past that filter |
| Conversations.ConversationService.InviteParticipant | src/dizzchat/contexts/messaging/application/services/add_participant.py:34-54 | those of the invite request; an existing member is accepted and nothing written |
| Conversations.ConversationService.RemoveParticipant | src/dizzchat/contexts/messaging/application/services/remove_participant.py:26-44 | those of the removal request: owner or oneself, never the owner |
| RefreshTokens.RotationChains | src/dizzchat/contexts/identity/application/services/refresh_access_token.py:31-51 | over every run of logins and refreshes the stored tokens fall into chains of one user each, whose tip alone is unrevoked and whose other tokens were revoked, while active, as their successor was issued |
| RefreshTokens.TokensAreCounted | src/dizzchat/contexts/identity/application/services/authenticate_user.py:56-68 | there is one chain for each granted login and one token for each granted request |
| RefreshTokens.GrantedIff | src/dizzchat/contexts/identity/application/services/refresh_access_token.py:31-51 | a refresh is granted if and only if its string joins an unexpired tip with a secret of the stored digest and the generated identifier is new; otherwise the store is unchanged |
| RefreshTokens.LoginGrantedIff | src/dizzchat/contexts/identity/application/services/authenticate_user.py:56-68 | a verified login is granted if and only if its identifier is new, and its token is then the user's |
| RefreshTokens.AcceptedAtMostOnce | src/dizzchat/contexts/identity/application/services/refresh_access_token.py:37-45 | of all the refreshes of a run that name one token, at most one is granted |
| RefreshTokens.SpentForever | src/dizzchat/contexts/identity/domain/refresh_token/refresh_token.py:43-46 | a used token stays used, with its first revocation time |
| RefreshTokens.HandedOutTokenWorks | src/dizzchat/contexts/identity/application/services/refresh_access_token.py:50-51 | the string a login or refresh hands out is granted later, to the same user, exactly while its time to live runs, unless it was used meanwhile |
| RefreshTokens.TokenStringsRoundTrip | src/dizzchat/contexts/identity/infrastructure/outbound/security/jwt_token_service.py:49-62 | parsing gives a pair if and only if the pair is well formed and the string is its join, whatever separators the secret contains |
| RotationRace.BothGrantedIff | src/dizzchat/contexts/identity/application/services/refresh_access_token.py:31-51 | with read and commit apart: a second refresh of a token, good but for the first, is granted too if and only if it reads before the first commits |
| RotationRace.AdmittedIff | src/dizzchat/contexts/identity/application/services/refresh_access_token.py:31-47 | over every interleaving a refresh passes its checks if and only if it presents a stored, unexpired token of which no refresh has been committed by its read |
| RotationRace.RevokedIffSpent | src/dizzchat/contexts/identity/domain/refresh_token/refresh_token.py:43-46 | over every interleaving a stored token is revoked if and only if a refresh of it has been committed |
| RotationRace.ReadThenCommitIsServe | src/dizzchat/contexts/identity/application/services/refresh_access_token.py:31-51 | a read whose commit follows at once does to the store what the serialized refresh does |
| RotationRace.RaceForksAChain | src/dizzchat/contexts/identity/application/services/refresh_access_token.py:37-49 | a concrete run of two such refreshes leaves one login with two active tokens |
| RefreshTokens.RefreshToken.Rotate | src/dizzchat/contexts/identity/domain/refresh_token/refresh_token.py:48-66 | an active token is revoked and its successor issued to the same user; an inactive one stays as it is |
| RefreshTokens.TokenService.RefreshAccessToken | src/dizzchat/contexts/identity/application/services/refresh_access_token.py:31-51 | the object's store and answer are those of the refresh request |

## Left out

- FastAPI routers, controllers, schemas, dependency wiring, settings, logging, health, Docker, migrations and scripts: plumbing without a property of this kind.
- JWT encoding, password hashing, SHA-256 and random generation: identifiers and secrets are inputs, the digest is an arbitrary function, token validity is an input of each turn.
- JSON and datetime text of `message_codec.py` and `protocol.py`: a message travels as a value, so a frame that cannot be decoded is not modelled in the engine.
- SQL and Redis themselves: a table in key order with ids at flush and rows at commit, a unique key for which an absent key never collides, one fresh read per statement; pub/sub as one publish order with first-in-first-out inboxes of the current subscribers, emptied by a dropped link.
- `created_at` of messages, title, email and content validation, and the mock responder's text: single-branch facts.
- The listing queries of conversations and participants, and `joined_at` beyond being stored: plain reads.
- Timing: read timeouts, back-off sleeps, the authentication timeout and the drain timeout are steps that may happen at any moment.
- Task cancellation inside a lock, `start` and `stop` of the subscriber, and sockets that join while `close_all` runs: in the engine a drain is one atomic clear; `CloseAll` has the loop.
- The engine's socket log holds message frames only; acks and errors are those of `Session`.
- An awaited subscribe counts as in effect when it returns, as the registry assumes.
- Rate limiting uses one clock, shared by all replicas and Redis, that never runs backwards; without that the window bounds are not claimed.
- Conversation requests take no row lock in the source, so their invariants are stated for requests served one after another; token chains likewise, while `RotationRace` has the interleavings of refreshes.
- RedisRateLimiter.Allow: the outcome of each Redis call is an input, and counters are shared by objects that refer to one `Redis`.
- RotationRace: a read sees committed rows and the later of two writes of a row stands, which is Postgres' default isolation.
- ConversationSocket.Serve: everything that happens to the socket, broadcasts included, is its script of turns, one at a time; interleaving with other sockets is the subject of `Fanout`.
- MessageExchange.Exchange: one call at a time against the store; concurrent calls are the subject of `Exchange`, of which every such call is shown to be a run.
- Conversations.Handle: user posts there are keyless; duplicates are the subject of `Exchange`.
