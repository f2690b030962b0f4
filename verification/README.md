# Verified model of the chat server

The chat server accepts TCP sessions that speak a small framed protocol, hands every message
to one logic worker, keeps users in MySQL with a cache in Redis, and notifies users on other
chat servers through gRPC.  This project models its core in Dafny and proves what the parts
promise, over every input, every way the network cuts a stream, and every interleaving of
threads.  `dafny verify dfyconfig.toml` checks all of it.

How it is organised:

- **Messages.** `Wire` has the frame format with a recursive parser and its inverse.
  `ReadSide` and `WriteSide` are the two halves of a session as values; `MsgNodes`,
  `LogicSystem` and `Session` are the same as objects with their buffers and queues, each
  method tied to the value-level step.  `EndToEnd` joins a peer's sending half, the byte
  stream and a session's reading half; `LogicQueue` is the queue with its condition variable
  as a state machine; `Dispatch` puts any number of sessions in front of it.
- **Pools.** `PoolSpec` is what a pool does under its mutex.  `MySqlPool`, `RedisConPool`,
  `ChatConPool` and `RedisMgr` are the objects.  `PoolMachine` runs a pool with any number of
  borrowers and its checker thread; `PoolTheorems` has ownership, conservation, wakeups and
  deadlock; `Borrowing` derives how many connections each thread of the server holds at once.
- **Users and friends.** `Keys` has the Redis keys, `SharedState` the tables, the cache and
  the operations on them, each with its failures.  `Cache`, `Friends` and `FriendList` state
  what runs keep; `Routing` has the notification handlers and the location-transparency
  results; `Backend` has the same as objects.
- **Small parts.** `UrlCodec`, `Login` (login counter and uid map) and `RoundRobin`.

A mutex-protected section is one step of a state machine.  The socket, MySQL, Redis and the
RPC transport are steps or parameters that may make any partial progress, succeed or fail.

Some promises do not hold of the code; the model keeps the code and says when they do.

- A connection that `reconnect` pushes, in the MySQL and the Redis pool alike, wakes nobody: a
  waiter can sleep beside it until the next check (`ReconnectStrandsAWaiter`). A run strands
  nobody exactly when each such push comes while nobody sleeps or while more waiters are woken
  than connections are idle (`PushStrandsExactlyWhen`).
- The logic worker's stop flag is set without the mutex (`StopCanBeMissed`). The stop is missed
  exactly when its notification comes while the worker is about to wait
  (`StopMissedExactlyWhen`); otherwise the worker leaves with everything handled (`StopSeen`).
- Messages with an id above 2048 are accepted by the sender and refused by the reader, which
  then stops (`LargeIdIsLost`); so what arrives is the accepted messages before the first such
  id (`EndToEndPrefix`).
- The two inserts of `addFriend` are separate statements (`HalfDone`). Friendship is mutual
  exactly when some `addFriend` of the pair has reached its second, or the first has been
  reached in both directions or in neither (`MutualExactlyWhen`).
- If the peer's own queries succeed, the two routes of an approval agree exactly when the
  accepter is no user, or the handler can read the accepter's row and the applicant's row is
  stored with an alias that is read back or empty (`AuthTransparentExactlyWhen`).
- A session that is bound to a user can be lost to notifications (`SecondSessionLost`). It is
  found exactly when, since its last login, no other session logged in as the user and no open
  session of the user closed (`RegisteredExactlyWhen`).
- Text messages differ by route: never the same message id, and the same fields only in a
  message to oneself whose array is missing, or is not empty and has elements of exactly two
  strings (`TextChatRoutesDiffer`, `EmptyTextArray`).
- A search that misses the cache answers without the user it found; after a run from an empty
  cache it answers with a user exactly when Redis answers and the run wrote the key
  (`SearchAnswersExactlyWhen`).

## Model

| member | source | states |
|---|---|---|
| Wire.ShortRoundTrip | src/net/MsgNode.cpp:59-62 | conversion to network order and back is the identity on every 16-bit signed value and every pair of bytes |
| Wire.EncodeLayout | src/net/MsgNode.cpp:55-67 | a frame is the id and the length, each as two bytes with the more significant first, and the body |
| Wire.ParseEncode | src/net/CSession.cpp:81-110 | a frame written by a SendNode in front of any bytes is read back if its id is at most 2048, and stops the reader otherwise |
| Wire.ParseEncodeAll | src/net/MsgNode.cpp:55-67 | a stream of frames is read back as those frames, up to the first refused id |
| Wire.ParseAppend | src/net/CSession.cpp:57-158 | reading is incremental: frames found stay, and only the incomplete rest is read again |
| Wire.ParseMonotone | src/net/CSession.cpp:57-158 | the frames of a prefix of a stream are a prefix of the frames of the stream |
| Wire.ParseAccountsForEveryByte | src/net/CSession.cpp:57-158 | a stream that is not refused is exactly the encoding of its frames followed by less than a frame |
| Wire.ReadableIff | src/net/CSession.cpp:91-96 | a sequence is wholly readable if and only if no id exceeds 2048; otherwise the readable part ends right before such an id |
| ReadSide.Receive | src/net/CSession.cpp:269-291 | a partial read stays within the piece and the buffer, and only a piece of exactly the expected length becomes a header or is posted as a body |
| ReadSide.HeadDoneIs | src/net/CSession.cpp:81-110 | for every header: an id from 2049 to 32767 is refused first, then a length from 2049 to 32767; a negative id is read on, a negative length ends the model; else a body of that length is read |
| ReadSide.ReceiveStands | src/net/CSession.cpp:57-158 | after each partial read the session has posted the frames the parser finds in the bytes read, and stands where the parser stands |
| ReadSide.ChunkingIndependent | src/net/CSession.cpp:261-291 | however a stream is cut into reads, the session's whole state is a function of the bytes read; an empty body is posted by one more empty read |
| ReadSide.PostedIsParsed | src/net/CSession.cpp:110-151 | what was posted is what the parser gives on the bytes read, also after an error |
| WriteSide.SendOk | src/net/CSession.cpp:160-188 | sending keeps the queue bounded, one outstanding write at most and only of the front, and the wire equal to the sent frames plus the started part of the front |
| WriteSide.SendAccepts | src/net/CSession.cpp:160-188 | a message is queued if and only if it has 1 to 2048 bytes and fewer than 1000 are queued, and then goes to the back and is written at once if it is alone; any other changes nothing |
| WriteSide.FinishOk | src/net/CSession.cpp:201-228 | a completed write pops the front and starts the next, and keeps the same invariant |
| WriteSide.WireIsPrefix | src/net/CSession.cpp:160-228 | the bytes sent are a prefix of the encodings of the accepted messages in order, and all of them when the queue is empty |
| EndToEnd.StepOk | src/net/CSession.cpp:57-228 | every step of sender, network and reader keeps the joint invariant |
| EndToEnd.EndToEndPrefix | src/net/CSession.cpp:57-228 | in every interleaving, what the reader posted is a prefix of the accepted messages before the first refused id; when all is delivered it equals them, and it is all accepted messages exactly when no id exceeds 2048 |
| EndToEnd.WritePipeline | src/net/CSession.cpp:160-228 | in every reachable state: at most 1000 queued; of the writes handed to the socket at most one outstanding, and it of the front; one exactly while something is queued, until a write error; and the exact bytes on the wire |
| EndToEnd.BrokenForever | src/net/CSession.cpp:201-228 | after a write error no byte leaves and no write is outstanding, whatever happens later |
| EndToEnd.PipeMoves | src/net/CSession.cpp:160-291 | short of a failure, the pipe can always move until everything is delivered |
| EndToEnd.PipeDelivers | src/net/CSession.cpp:57-291 | from any state of a pipe that has not failed, a run of boundedly many steps without sends or failures delivers everything: what was posted is the accepted messages before the first refused id |
| EndToEnd.LargeIdIsLost | src/net/CSession.cpp:91-96 | a run that delivers everything and loses an accepted message, whose id is 2049 |
| MsgNodes.RecvNode.Fill | src/net/CSession.cpp:144-146 | the node holds the id and exactly the bytes of the body, inside its buffer and followed by a zero |
| MsgNodes.SendNode.constructor | src/net/MsgNode.cpp:55-67 | the buffer holds the encoded frame, followed by a zero |
| LogicSystem.LogicSystem.PostMsgToQue | src/application/LogicSystem.cpp:34-43 | the message is appended, and the producer must notify exactly when the queue was empty |
| LogicSystem.LogicSystem.DealFront | src/application/LogicSystem.cpp:76-117 | the front is popped, and a handler called once with its content if and only if its id is 2001, 2003, 2005, 2008 or 2011 |
| LogicSystem.LogicSystem.Drain | src/application/LogicSystem.cpp:55-74 | the stop loop calls the handlers of all queued messages in order and ends with an empty queue |
| LogicSystem.LogicSystem.DealTurn | src/application/LogicSystem.cpp:45-92 | without a stop one message is dealt with; with one, all, and the worker ends |
| Session.CSession.ReadSome | src/net/CSession.cpp:57-158 | a partial read does what the value-level reader does and never takes a short-transfer branch; a completed body is queued in its own node, no queued node changes, and the sending half stays as it was |
| Session.CSession.HeadRead | src/net/CSession.cpp:73-111 | a short transfer closes the session; else the header checks in order, with their numbers, and a fresh node of the announced length |
| Session.CSession.BodyRead | src/net/CSession.cpp:127-151 | a short transfer closes the session; else the body is copied to the node, posted, and the next header is awaited |
| Session.CSession.ReadFailed | src/net/CSession.cpp:64-70 | a read error ends the reading and posts nothing; the sending half stays as it was |
| Session.CSession.Send | src/net/CSession.cpp:160-199 | both overloads: a node for the message goes to the back exactly if it has 1 to 2048 bytes and fewer than 1000 are queued; the sender's invariant is kept, and the reading half stays as it was |
| Session.CSession.Push | src/net/CSession.cpp:176-187 | the node goes to the back, and a write of the front is handed to the socket when it is alone |
| Session.CSession.WriteSome | src/net/CSession.cpp:183-187 | the socket takes the next bytes of the node it was handed, which is the front node; the sender's invariant is kept, and the reading half stays as it was |
| Session.CSession.HandleWrite | src/net/CSession.cpp:201-228 | the write is over: the front is popped and a write of the next handed out, or with an error nothing at all; the sender's invariant is kept, and the reading half stays as it was |
| Session.ReadBeside | src/net/CSession.cpp:110-151 | a read of one session leaves both halves of every other session on the same queue as they were |
| LogicQueue.StepOk | src/application/LogicSystem.cpp:34-92 | every step of producers, worker and stop keeps the order of messages and a pending wakeup for a sleeping worker with messages |
| LogicQueue.NeverStuck | src/application/LogicSystem.cpp:34-92 | in every reachable state with a waiting message the worker, or a producer that owes it a notification, can take a step that brings the queue nearer to empty |
| LogicQueue.MovesComeNearer | src/application/LogicSystem.cpp:45-92 | each move of the worker lowers the distance to an empty queue |
| LogicQueue.HandledIs | src/application/LogicSystem.cpp:94-117 | the messages that are handled are, in order, those with one of the five registered ids |
| LogicQueue.PostNotifies | src/application/LogicSystem.cpp:34-43 | a posted message goes to the back and owes a notification exactly when the queue was empty |
| LogicQueue.DispatchInOrder | src/application/LogicSystem.cpp:45-92 | posted is processed followed by queued; handlers are called once each, in posting order, for exactly the messages with a registered id |
| LogicQueue.ExitsWithEmptyQueue | src/application/LogicSystem.cpp:55-74 | the worker exits only after it saw the stop flag, with an empty queue and all handlers called |
| LogicQueue.DrainShortens | src/application/LogicSystem.cpp:55-74 | while it drains nobody can post, and each turn shortens the queue |
| LogicQueue.StopCanBeMissed | src/application/LogicSystem.cpp:27-32 | a run in which the worker sleeps after the destructor set the flag and notified |
| LogicQueue.StopMissedExactlyWhen | src/application/LogicSystem.cpp:27-32 | after the stop notification the worker can still fall asleep, by its own steps or in any course of events, if and only if it was about to wait |
| LogicQueue.StopSeen | src/application/LogicSystem.cpp:45-92 | otherwise its own steps, boundedly many, lead it out with an empty queue and every handler called |
| Dispatch.StepOk | src/application/LogicSystem.cpp:34-92 | with any number of sessions, each session's share of the queue's history is what that session posted |
| Dispatch.CallsFollowTheSender | src/net/CSession.cpp:57-228 | from a peer's send to the handlers: the calls for a session are, in order and once each, a prefix of that peer's accepted messages that have a handler and precede a refused id; all of them once delivered and dequeued |
| Dispatch.RequestsAreAllHandled | src/application/LogicSystem.cpp:94-117 | if all accepted messages of a peer have one of the registered ids, then once delivered and dequeued the handlers were called with exactly these, in order |
| PoolSpec.KeptInOrder | src/infra/mysql/MySqlPool.cpp:113-150 | the queue after a check: exactly the connections that are not dead, as often as they were there and in their order |
| PoolSpec.FirstInFirstOut | src/infra/mysql/MySqlPool.cpp:63-93 | in any sequence of requests and returns to an open pool, connections are lent in the order they were idle and then came back, none is lost or made, and a request gets none only if none is idle |
| PoolSpec.StoppedPool | src/infra/mysql/MySqlPool.cpp:63-93 | a stopped pool lends nothing, takes nothing back and notifies nobody |
| PoolMachine.StepMoves | src/infra/mysql/MySqlPool.cpp:63-188 | a step moves connections between idle queue, borrowers and checker, and loses or makes one only where the code drops, destroys or opens one |
| PoolMachine.OwnedStep | src/infra/redis/RedisConPool.cpp:69-209 | no step puts a connection in two places |
| PoolMachine.BalancedStep | src/infra/mysql/MySqlPool.cpp:102-188 | every step keeps live connections and counted failures in balance with the number created |
| PoolMachine.WakefulStep | src/infra/grpc/ChatConPool.cpp:31-59 | no step loses a wakeup, but for counted pushes without notification; nobody sleeps in a stopped pool |
| PoolMachine.WithinDepthStep | src/infra/mysql/MySqlDao.cpp:354-393 | a thread that respects its bound holds less than the bound while it waits |
| PoolTheorems.OnePlace | src/infra/redis/RedisConPool.cpp:69-114 | no connection is twice in the idle queue, with two borrowers, or with a borrower or the checker while idle |
| PoolTheorems.OwnershipAndBalance | src/infra/mysql/MySqlPool.cpp:63-188 | in every run: one place each, never more live connections than created, and before a stop live plus failures equal created, but for the middle of an update |
| PoolTheorems.NoLostWakeup | src/infra/mysql/MySqlPool.cpp:63-132 | in every run without a reconnect push, idle connections beside a sleeper are at most the woken waiters; after close nobody sleeps |
| PoolTheorems.StrandedAtMostSilent | src/infra/mysql/MySqlPool.cpp:166-182 | with such pushes, each strands at most one connection |
| PoolTheorems.PushStrandsExactlyWhen | src/infra/mysql/MySqlPool.cpp:174-178 | a run never strands a waiter if and only if each push by reconnect comes while nobody sleeps or while more waiters are woken than connections are idle |
| PoolTheorems.ReconnectStrandsAWaiter | src/infra/redis/RedisConPool.cpp:127-156 | in either pool with a checker, a run that leaves a waiter asleep beside an idle connection |
| PoolTheorems.NextCheckWakes | src/infra/mysql/MySqlPool.cpp:124-132 | giving a checked connection back wakes a sleeper |
| PoolTheorems.ChatPoolLosesNoWakeup | src/infra/grpc/ChatConPool.cpp:31-59 | the pool without a checker loses no wakeup in any run |
| PoolTheorems.CheckTurn | src/infra/redis/RedisConPool.cpp:165-197 | one turn of the checker alone: a healthy front goes to the back, any other is gone and counted |
| PoolTheorems.NoDeadlock | src/infra/mysql/MySqlDao.cpp:354-393 | if more connections are usable - idle, lent, under test or new - than the sum of each thread's bound less one, then from every reachable state of an open pool in which a thread waits, at most five steps that ask for nothing new and open no connection lend one to a waiter |
| PoolTheorems.NoDeadlockWithReconnect | src/infra/mysql/MySqlPool.cpp:102-188 | if reconnecting works it is enough that more were created: at most seven such steps serve a waiter, however many connections have died |
| PoolTheorems.FoundDeadServesNobody | src/infra/mysql/MySqlPool.cpp:133-150 | a reachable state with a connection found dead and not yet destroyed, from which no waiter is ever served without a reconnection |
| PoolTheorems.ClosedPoolLetsGo | src/infra/mysql/MySqlPool.cpp:63-82 | in a closed pool whoever waits has been woken and leaves without a connection |
| PoolTheorems.TwoConnectionsSuffice | src/infra/mysql/MySqlDao.cpp:354-393 | one thread that may hold two connections and any number that may hold one: with two usable connections a waiter is served within five such steps |
| Borrowing.WorkPeak | src/infra/mysql/MySqlDao.cpp:27-393 | a thread that makes any sequence of database calls ends with no connection and holds at most two at once, and two exactly if it reads a friend list that is not empty |
| Borrowing.WorkFitsDepth | src/infra/mysql/MySqlDao.cpp:27-393 | in every run of the pool, a thread that comes to the next request of its calls is within its bound, if that is the depth of the deepest of them |
| Borrowing.ServerDepths | src/application/ChatServiceImpl.cpp:50-180 | two connections at once are enough for the logic worker and one for a handler of another server's request, whatever they call |
| PoolTheorems.BoundIsTight | src/infra/mysql/MySqlDao.cpp:354-393 | for every vector of bounds, with exactly the sum of bounds less one a run of plain requests ends with everybody asleep and no step possible |
| MySqlPool.MySqlPool.GetConnection | src/infra/mysql/MySqlPool.cpp:63-82 | wait, null after a stop, or the front connection |
| MySqlPool.MySqlPool.ReturnConnection | src/infra/mysql/MySqlPool.cpp:84-93 | to the back with one notification, or dropped after a stop |
| MySqlPool.MySqlPool.CheckIdle | src/infra/mysql/MySqlPool.cpp:113-150 | the queue becomes its connections that were fresh or answered, in order; stale ones that answered get the new time; the rest is counted |
| MySqlPool.MySqlPool.CheckConnection | src/infra/mysql/MySqlPool.cpp:102-164 | a whole pass: a connection stays exactly if it was used less than 5 seconds ago or answers, in order, then the replacements; size and failures conserved; every time of use less than 5 seconds old; no failure left if all reconnections succeed |
| MySqlPool.MySqlPool.Replace | src/infra/mysql/MySqlPool.cpp:152-163 | as many new connections as attempts succeed before the first failure, up to the failures counted |
| ChatConPool.ChatConPool.GetConnection | src/infra/grpc/ChatConPool.cpp:31-48 | wait, null after a stop, or the front stub |
| ChatConPool.ChatConPool.ReturnConnection | src/infra/grpc/ChatConPool.cpp:50-59 | to the back with one notification, or dropped after a stop |
| RedisConPool.RedisConPool.GetConNonBlock | src/infra/redis/RedisConPool.cpp:89-103 | the front context, or null at once where getConnection would wait |
| RedisConPool.RedisConPool.ReturnConnection | src/infra/redis/RedisConPool.cpp:105-114 | only a context that is out comes back, once |
| RedisConPool.RedisConPool.CheckThreadPro | src/infra/redis/RedisConPool.cpp:158-209 | a whole pass: exactly the contexts that answer in order, then the new ones; size and failures conserved; nothing stays out |
| RedisMgr.RedisMgr.Get | src/infra/redis/RedisMgr.cpp:20-47 | the value exactly for a string reply; on every branch the context is returned once |
| RedisMgr.RedisMgr.Set | src/infra/redis/RedisMgr.cpp:49-81 | success exactly for the status OK or ok; on every branch the context is returned once |
| RedisMgr.RedisMgr.HSet | src/infra/redis/RedisMgr.cpp:83-114 | success exactly for an integer reply; on every branch the context is returned once |
| RedisMgr.RedisMgr.HGet | src/infra/redis/RedisMgr.cpp:116-152 | the text of a string or status reply, or the empty string on every failure; on every branch the context is returned once |
| RedisMgr.RedisMgr.HDel | src/infra/redis/RedisMgr.cpp:164-189 | success exactly for a positive count; on every branch the context is returned once |
| Keys.StoiToString | src/application/LogicSystem.cpp:351-351 | a printed uid is read back, so different uids have different texts |
| Keys.FamiliesApart | src/domain/const.h:50-58 | no key belongs to two families, or to one in two ways, whatever follows the prefix |
| SharedState.RowByUid | src/infra/mysql/MySqlDao.cpp:41-64 | a row with that uid, and none exactly when the table has none |
| SharedState.RowByName | src/infra/mysql/MySqlDao.cpp:90-113 | a row with that name, and none exactly when the table has none |
| SharedState.QueryUidIs | src/infra/mysql/MySqlDao.cpp:27-74 | a query by uid answers with the profile of a row with that uid, field by field and with an empty nick replaced, and with nothing exactly when it fails or there is no such row |
| SharedState.QueryNameIs | src/infra/mysql/MySqlDao.cpp:76-123 | the same by name |
| SharedState.SearchReplies | src/application/LogicSystem.cpp:317-435 | a search answers from the cache if it can, with no query; else with 0 alone if the query succeeds and the table has the user, and with 1011 alone if not |
| SharedState.AddFriendIsItsInserts | src/infra/mysql/MySqlDao.cpp:313-352 | addFriend with nothing between its statements is its two inserts, as far as it gets |
| Cache.StepCoherent | src/application/LogicSystem.cpp:255-435 | every lookup, of either server and whichever statements fail, keeps each cache entry equal to a row of the table with that uid or name |
| Cache.RunCoherent | src/application/ChatServiceImpl.cpp:130-180 | so does every run |
| Cache.CachedReadIsDirectRead | src/application/ChatServiceImpl.cpp:130-180 | after any run from an empty cache a read through the cache equals a direct read of the table |
| Cache.ServiceReads | src/application/ChatServiceImpl.cpp:130-180 | the read through the cache: a hit without a query; a miss with the row's profile, cached under the uid and nothing else |
| Cache.DirectReads | src/application/LogicSystem.cpp:255-315 | the direct read: the row's profile whatever is cached, and cached under both keys and no other |
| Cache.SearchesCache | src/application/LogicSystem.cpp:351-433 | a search that misses and finds the user caches them under both keys and no other, as far as the writes succeed |
| Cache.EmptyNameNeverCached | src/application/LogicSystem.cpp:306-312 | no run writes an entry for the empty name |
| Cache.SearchFindsTheUser | src/application/LogicSystem.cpp:317-435 | a search answered from the cache gives the row with that uid, or a row with that name |
| Cache.SearchWarms | src/application/LogicSystem.cpp:351-375 | a miss on an existing user answers with the code alone, and the next search with the user |
| Cache.SearchAnswersExactlyWhen | src/application/LogicSystem.cpp:317-435 | after any run from an empty cache a search answers with a user if and only if Redis answers and the run wrote the key |
| Cache.ReadMakesSearchesHit | src/application/LogicSystem.cpp:296-312 | after a direct read, searches by that uid and by that name find the user from the cache, whatever ran between |
| Friends.FriendRowIsFirstOffer | src/infra/mysql/MySqlDao.cpp:313-352 | a friend row exists exactly if some insert statement offered it, and holds the first alias offered |
| Friends.FriendRowsNeverChange | src/infra/mysql/MySqlDao.cpp:313-352 | no run changes or removes a friend row |
| Friends.MutualExactlyWhen | src/infra/mysql/MySqlDao.cpp:313-352 | between any two statements of any servers, two users are friends of each other or not at all exactly when some addFriend of the pair reached its second insert or the first inserts happened in both directions or in neither |
| Friends.HalfDone | src/infra/mysql/MySqlDao.cpp:313-352 | a run that stops after the first insert leaves the friendship one-sided |
| Friends.SymmetryKept | src/infra/mysql/MySqlDao.cpp:313-352 | whenever no addFriend is half done the relation is symmetric, however statements interleaved |
| Friends.CompletedAddRepairs | src/infra/mysql/MySqlDao.cpp:313-352 | after any failures an addFriend that reaches its second insert, in either direction, makes the pair mutual for good |
| Friends.ApprovalIsFinal | src/infra/mysql/MySqlDao.cpp:125-164 | no run takes an approval back |
| Friends.RequestAndApproval | src/infra/mysql/MySqlDao.cpp:283-311 | asking again changes the alias and not the status; approving keeps the alias and approves only what was asked |
| FriendList.FriendListExact | src/infra/mysql/MySqlDao.cpp:354-393 | the list holds each friend who is a user exactly once, with the profile of the table and the stored alias, and nobody else |
| FriendList.JoinedInOrder | src/infra/mysql/MySqlDao.cpp:354-393 | the list is in the order of the rows, one entry for each row whose user is found, with that row's friend and alias |
| Routing.AddFriendLocationTransparent | src/application/LogicSystem.cpp:437-520 | the recipient of a request gets the same message on either route, with the fields of the request and of the applicant's row |
| Routing.AddNoticeTells | src/application/ChatServiceImpl.cpp:18-48 | the peer rebuilds from the RPC the message the local route sends |
| Routing.AddHandlerTells | src/application/LogicSystem.cpp:437-520 | whatever fails, a notification on either route tells the recipient of the request |
| Routing.AddHandlerFiles | src/application/LogicSystem.cpp:457-457 | the handler files the request of the applicant to the recipient under its alias, with its old status or pending, and changes no other request and no friend row |
| Routing.AddHandlerRoutes | src/application/LogicSystem.cpp:459-518 | the message goes to nobody, to a session here or to the recipient's server, exactly as Redis and the sessions say |
| Routing.AuthHandlerTells | src/application/LogicSystem.cpp:528-617 | whatever fails, a local notification tells the applicant of the approval under the alias read back, and an RPC names both users |
| Routing.AuthHandlerRecords | src/application/LogicSystem.cpp:564-568 | the handler approves the request if it is on file, adds the applicant's row under the request's alias and the accepter's under the alias of the message as far as the inserts get, and changes nothing else |
| Routing.AuthHandlerReplies | src/application/LogicSystem.cpp:538-562 | the accepter is answered with exactly the applicant's uid and table profile and the alias chosen, or with 1011 alone |
| Routing.AuthHandlerRoutes | src/application/LogicSystem.cpp:572-616 | the message goes to nobody, to a session here or to the applicant's server, exactly as Redis and the sessions say |
| Routing.AuthFriendLocationTransparent | src/application/LogicSystem.cpp:528-617 | the applicant gets the same message on either route, whatever any server does before the peer builds it, if the applicant's row is stored, before or by the first insert, and the queries succeed |
| Routing.AuthTransparentExactlyWhen | src/application/ChatServiceImpl.cpp:50-95 | if the peer's queries succeed the routes agree in every course of events exactly when, before the call, the accepter is no user, or the handler's query for the accepter will succeed and the applicant's row be stored with an alias that is read back or empty |
| Routing.AuthTablesKeep | src/application/LogicSystem.cpp:564-571 | the table part of the handler keeps the cache coherent and every user's server, and stores the applicant's row unless the first insert fails |
| Routing.TextChatRoutesDiffer | src/application/LogicSystem.cpp:624-683 | a text message never has the same id on both routes; the remote route throws exactly when an element cannot be read; the array arrives the same exactly when it is missing, or not empty with elements of exactly two strings, and all fields exactly if it is also sent to oneself |
| Routing.EmptyTextArray | src/application/ChatServiceImpl.cpp:114-122 | an empty array arrives as an empty array here and as null from a peer |
| Routing.TextTells | src/application/LogicSystem.cpp:624-683 | what each route of a text message tells, field by field: here 2012 with the uids exchanged, from a peer 2013 with the uids as they are |
| Routing.ProjectedIs | src/application/LogicSystem.cpp:672-681 | the RPC carries, in order, the id and the content of each element as text |
| Backend.Backend.GetUserInfo | src/infra/mysql/MySqlDao.cpp:27-74 | the profile of a row with that uid, field by field and with an empty nick replaced by the name; none exactly if the query fails or there is no such row |
| Backend.Backend.GetUserInfoByName | src/infra/mysql/MySqlDao.cpp:76-123 | the same by name |
| Backend.Backend.AddFriendApplyRow | src/infra/mysql/MySqlDao.cpp:125-164 | the upsert of a request |
| Backend.Backend.AuthFriendApplyRow | src/infra/mysql/MySqlDao.cpp:283-311 | the update of the status |
| Backend.Backend.AddFriendRows | src/infra/mysql/MySqlDao.cpp:313-352 | the two inserts, up to where an exception ends them; true exactly if both ran and one took effect |
| Backend.Backend.GetFriendList | src/infra/mysql/MySqlDao.cpp:354-393 | the loop with its nested queries computes the join |
| Backend.Backend.GetBaseInfo | src/application/LogicSystem.cpp:255-315 | a direct read that fills the cache under both keys and keeps it coherent |
| Backend.Backend.GetUserByUid | src/application/LogicSystem.cpp:317-375 | the search by uid, which keeps the cache coherent whatever the text |
| Backend.Backend.GetUserByName | src/application/LogicSystem.cpp:377-435 | the search by name, which keeps the cache coherent |
| Backend.Backend.ServiceGetBaseInfo | src/application/ChatServiceImpl.cpp:130-180 | the read through the cache, which fills the uid key only and keeps the cache coherent |
| Backend.ChatServer.HandleAddFriend | src/application/LogicSystem.cpp:437-520 | the request is filed and no other changes; the answer is 0; coherence is kept; the message goes where it should, and a local one tells of the request |
| Backend.ChatServer.HandleAuthFriend | src/application/LogicSystem.cpp:528-617 | the request is approved, the friend rows added, and nothing else changes; the answer tells of the applicant; coherence is kept; the message goes where it should, and a local one tells of the approval |
| Backend.ChatServer.ServeAddFriend | src/application/ChatServiceImpl.cpp:18-48 | the peer's half for a request |
| Backend.ChatServer.ServeAuthFriend | src/application/ChatServiceImpl.cpp:50-95 | the peer's half for an approval |
| UrlCodec.UrlEncode | src/common/utils.cpp:20-41 | the loop computes the escapes of all octets in order |
| UrlCodec.UrlDecode | src/common/utils.cpp:43-65 | the loop computes the recursive decoding |
| UrlCodec.DecodeEncode | src/common/utils.cpp:20-65 | decoding undoes encoding for every octet string |
| UrlCodec.EncodeInjective | src/common/utils.cpp:20-41 | different strings have different encodings |
| UrlCodec.EncodeCanonical | src/common/utils.cpp:20-41 | the output has only unreserved octets and upper-case triplets where needed (sections 2.1, 2.3 and 6.2.2.1 of RFC 3986), and is at most three times as long |
| UrlCodec.UnreservedIs | src/common/utils.cpp:20-41 | the octets left as they are: letters, digits, hyphen, period, underscore and tilde (section 2.3 of RFC 3986) |
| UrlCodec.CanonicalIff | src/common/utils.cpp:43-65 | encoding undoes decoding exactly on such texts, and those are exactly the encodings |
| UrlCodec.DecodeIsLenient | src/common/utils.cpp:43-65 | a plus and a percent sign near the end are read too, like the escape of the same octet, in front of any text |
| UrlCodec.LowerCaseDigits | src/common/utils.cpp:8-18 | a triplet reads the same with digits of either case, and is not canonical with one of lower case |
| UrlCodec.OddDigits | src/common/utils.cpp:8-18 | what a letter that is no hexadecimal digit, or anything else, counts as |
| Login.LoginCount | src/application/LogicSystem.cpp:204-225 | in every run the counter is the number of bound sessions plus what wasteful logins added, so it never falls below, and is equal exactly when no login was wasteful |
| Login.ClampNeverTakesEffect | src/net/CSession.cpp:230-259 | closing a bound session always finds a positive counter |
| Login.ClosedForGood | src/net/CSession.cpp:230-259 | a closed session stays closed in every run, and closing it again changes nothing |
| Login.ClosingUnbinds | src/net/CSession.cpp:230-259 | closing leaves the session bound to nobody, unregisters exactly the bound uid, and changes neither map nor counter if there was none |
| Login.CleanLogins | src/application/UserMgr.cpp:17-41 | if each login is of a new positive uid on an unbound session, the map holds exactly the bound sessions and the counter is exact |
| Login.RegisteredExactlyWhen | src/application/UserMgr.cpp:17-41 | after any run a bound session is the one registered for its uid if and only if, since it last logged in with it, no other session has and no open session bound to it has closed |
| Login.SecondSessionLost | src/net/CSession.cpp:253-254 | a run after which a bound, open session is found by nobody |
| Login.LoginBook.LogInUser | src/application/LogicSystem.cpp:204-225 | count, bind and register |
| Login.LoginBook.CloseSession | src/net/CSession.cpp:230-259 | uncount, unregister and mark closed, once |
| Login.UserMgr.GetSession | src/application/UserMgr.cpp:17-26 | the session of the uid, if it has one |
| RoundRobin.AsioIOServicePool.GetIOService | src/net/AsioIOServicePool.cpp:24-33 | the current index, below the size, and the counter moves round |
| RoundRobin.AsioIOServicePool.HandOut | src/net/AsioIOServicePool.cpp:24-33 | call j of any number of calls gets service j modulo the size |
| RoundRobin.ShareIs | src/net/AsioIOServicePool.cpp:24-33 | the exact number of times each service is handed out |
| RoundRobin.Fair | src/net/AsioIOServicePool.cpp:24-33 | two services are handed out equally often, or once apart |

## Left out

- Sockets, gRPC transport, hiredis, the MySQL driver and JSON text: their effects are steps or parameters; a JSON document is a lossless record, and strings with embedded NUL bytes are not modelled.
- Headers whose length is negative: the reader of the model stops there; what the program does is the C++ allocation's failure, not protocol logic.
- Exceptions thrown by handlers or inside `handleWrite`, `ClearSession`, and the destruction of sessions and nodes.
- Prompt stop of the logic worker and the completion of `RedisConPool::close`, which joins the checker while it holds the mutex.
- ChatConPool.ChatConPool.Close: sets the flag only; the program calls it under the mutex from the destructor, and the model covers that use.
- RedisMgr.RedisMgr.HGet: an integer reply is excluded, because it carries no text and the program would copy from a null pointer; the command never gives one.
- Routing.TextChatRoutesDiffer: the members of an array given as a JSON object are visited in some fixed order, numbers are unbounded or kept as their text, and an RPC that fails on its way is not modelled.
- A connection leaked when `setSchema` fails after `connect`, and contexts leaked by a stopped Redis pool: the model counts connections the pool can still reach.
- Name look-ups compare names exactly; the table's collation may be coarser.
- MySQL rows come in the order of the table, and `affected rows` of the status update, which the handlers ignore, is not modelled.
- Login.LoginCount: treats each read and write of the counter as one step and Redis as succeeding; the program does not make them atomic.
- The login handler's token check and reply, the apply list, and the choice of a chat server: no state beyond what is modelled.
- `StatusConPool`, `ConfigMgr`, `Singleton`, `MySqlMgr` forwarding, the reply filling of `ChatGrpcClient`, console output, build files and `main`.
