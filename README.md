# Turnstile waiting room in Dafny

A model of the core of *turnstile*, a ticket-sale waiting room built on
Spring Boot and Redis, together with the common utilities the service is
built on, and proofs about that model.

Users who want to buy seats for an event first join the event's **arrival
queue**, a Redis sorted set ranked by arrival score. Every ten seconds a
**scheduler** computes each open event's free places (its concurrency limit
minus the live **entry tokens**) and admits that many users from the front of
the queue. Each admitted user gets a ten-minute token, which is pushed to
them over their open **server-sent-event connection**. The users still
waiting are told their new rank. A token holder may **lock a seat** for five
minutes and then **pay** for it. A successful payment turns the lock into a
confirmed **reservation** and marks the seat reserved. The seat's effective
status combines the stored status with the lock store: RESERVED beats
LOCKED, and LOCKED beats AVAILABLE.

The common utilities modelled are:
- a fixed-window rate limiter;
- an idempotency cache with expiry;
- the Redis key-prefix serializer of the object template;
- bearer-token extraction (section 2.1 of RFC 6750);
- the JWT authentication filter's decision and its authority parsing;
- client-credentials token issuance and scope granting (sections 3.3 and 4.4 of RFC 6749);
- log-line normalisation;
- masking of personal data;
- client-address resolution behind proxies;
- the access-log filter's decisions;
- the REST client builder's setters;
- page-request clamping;
- enum validation;
- the result-code and error-code tables with the response envelope.

## How the model is built

- **One module per component.** Each Dafny module (one file each) follows
  one component of the source.
- **Classes for mutable components.** A component that updates state in
  place is a `class`: the Redis stores, the in-memory repositories, the
  push registry, the services, the rate limiter, the idempotency cache,
  `Seat`, `Reservation`, the OAuth client and the REST client builder. Its
  methods carry `modifies` clauses and state the whole new state.
- **Values for pure code.** Pure code is functions over datatypes, with
  lemmas about them.
- **Redis.** Redis is a map from key to a value with an expiry instant.
  The clock reading `now` is a parameter of every operation that looks at
  lifetimes.
- **Sorted sets.** A sorted set is the sequence of its entries in rank
  order.
- **Push connections.** An SSE emitter is an opaque handle. What the
  registry sends is recorded as a log of deliveries.
- **Parameters for what the code cannot decide.** These are parameters:
  - random UUIDs and ids;
  - the mock payment's random draw;
  - the clock;
  - whether a push write fails;
  - JWT validation and claim reading;
  - password matching;
  - token signing.
- **Errors.** A Java exception becomes the error half of a `Result`, and a
  nullable reference becomes an `Option`.
- **Shared helper modules.**
  - `JavaText`: the `java.lang.String` and `Character` operations the
    code relies on.
  - `Wrappers`: `Option` and `Result`.
  - `Sets`: cardinality lemmas.
  - `Domain`: the entities and the `eventId:id` composite key.

Source paths below are relative to the repository root.

## Model

| member | source | states |
|---|---|---|
| QueueStore.SameMillisecondArrivalsTie | src/main/java/mingovvv/turnstile/repository/redis/QueueRedisRepository.java:43-47 | with the score computed in doubles, two arrivals in the same millisecond at a current timestamp get equal scores, so their order is lost |
| QueueStore.ScoreOrdersArrivals | src/main/java/mingovvv/turnstile/repository/redis/QueueRedisRepository.java:27-29 | with the score as an exact integer, a later arrival (same or later millisecond, larger sequence number) always scores higher |
| QueueStore.RankOf | src/main/java/mingovvv/turnstile/repository/redis/QueueRedisRepository.java:67-70 | a found rank indexes an entry of the user |
| QueueStore.RankOfMembers | src/main/java/mingovvv/turnstile/repository/redis/QueueRedisRepository.java:67-77 | a user has no rank exactly when they are not a member, and no earlier entry belongs to them |
| QueueStore.RankIsUnique | src/main/java/mingovvv/turnstile/repository/redis/QueueRedisRepository.java:67-70 | in a duplicate-free set the rank of a member is the index of its entry |
| QueueStore.Without | src/main/java/mingovvv/turnstile/repository/redis/QueueRedisRepository.java:56-60 | ZREM of one user keeps exactly the other users' entries |
| QueueStore.WithoutWellFormed | src/main/java/mingovvv/turnstile/repository/redis/QueueRedisRepository.java:56-60 | removing a user keeps the set sorted and duplicate-free and shrinks it by one exactly when the user was a member |
| QueueStore.RankAfterWithout | src/main/java/mingovvv/turnstile/repository/redis/QueueRedisRepository.java:56-70 | after a user leaves, every other user keeps their rank, less one when the leaver was ahead of them |
| QueueStore.InsertByScore | src/main/java/mingovvv/turnstile/repository/redis/QueueRedisRepository.java:47 | inserting by score adds exactly the one entry |
| QueueStore.InsertByScoreSorted | src/main/java/mingovvv/turnstile/repository/redis/QueueRedisRepository.java:47 | inserting by score keeps the set sorted |
| QueueStore.InsertByScoreWithout | src/main/java/mingovvv/turnstile/repository/redis/QueueRedisRepository.java:47-60 | inserting a new user and removing them again gives back the original set |
| QueueStore.AddProperties | src/main/java/mingovvv/turnstile/repository/redis/QueueRedisRepository.java:47 | ZADD keeps the set sorted and duplicate-free, makes the user a member, leaves every other user's entry alone, and replaces any earlier entry of the user |
| QueueStore.ArrivalRanksLast | src/main/java/mingovvv/turnstile/repository/redis/QueueRedisRepository.java:29-47 | a user whose score is at least every other score is placed last, behind everyone already waiting |
| QueueStore.RangeLength | src/main/java/mingovvv/turnstile/repository/redis/QueueRedisRepository.java:88-121 | ZRANGE 0 stop returns stop + 1 entries capped at the size, and all of them for stop = -1 |
| QueueStore.Front | src/main/java/mingovvv/turnstile/repository/redis/QueueRedisRepository.java:88-121 | the first min(count, size) entries for count at least 1, the whole set for count 0 |
| QueueStore.WithoutAll | src/main/java/mingovvv/turnstile/repository/redis/QueueRedisRepository.java:92 | ZREM of several users keeps exactly the other users' entries |
| QueueStore.WithoutPrefix | src/main/java/mingovvv/turnstile/repository/redis/QueueRedisRepository.java:88-92 | removing the users just read from the front of a duplicate-free set leaves exactly the rest of it |
| QueueStore.QueueRedisRepository.constructor | src/main/java/mingovvv/turnstile/repository/redis/QueueRedisRepository.java:20-25 | an empty store: no queues and no counters |
| QueueStore.QueueRedisRepository.Enter | src/main/java/mingovvv/turnstile/repository/redis/QueueRedisRepository.java:33-51 | the event's counter goes up by one and is returned; the user is added with score timestamp * 1_000_000 + that number, is then a member, and every other user's entry is unchanged |
| QueueStore.QueueRedisRepository.Leave | src/main/java/mingovvv/turnstile/repository/redis/QueueRedisRepository.java:56-60 | reports a removal exactly when the user was a member; afterwards the user is not in the queue and nothing else changes |
| QueueStore.QueueRedisRepository.GetPosition | src/main/java/mingovvv/turnstile/repository/redis/QueueRedisRepository.java:67-70 | the 0-based rank, below the queue size and pointing at the user's entry, and absent exactly when the user is not queued |
| QueueStore.QueueRedisRepository.PopFront | src/main/java/mingovvv/turnstile/repository/redis/QueueRedisRepository.java:83-97 | returns the users getTopUsers would have returned, the first min(count, size) in rank order, and leaves the queue holding exactly the rest; an empty read changes nothing |
| QueueStore.QueueRedisRepository.GetTotalWaiting | src/main/java/mingovvv/turnstile/repository/redis/QueueRedisRepository.java:102-106 | the number of members, 0 for an event with no queue |
| QueueStore.QueueRedisRepository.GetTopUsers | src/main/java/mingovvv/turnstile/repository/redis/QueueRedisRepository.java:119-122 | the first min(count, size) members in rank order, without removing them |
| QueueStore.QueueRedisRepository.GetScore | src/main/java/mingovvv/turnstile/repository/redis/QueueRedisRepository.java:111-114 | a score exactly when the user is queued, and it is the score of the user's entry |
| QueueStore.QueueRedisRepository.Clear | src/main/java/mingovvv/turnstile/repository/redis/QueueRedisRepository.java:127-130 | both the queue and the counter of the event are gone, so the size and counter read 0; other events are untouched |
| QueueStore.QueueRedisRepository.IsInQueue | src/main/java/mingovvv/turnstile/repository/redis/QueueRedisRepository.java:75-77 | true exactly when the user is a member of the event's queue |
| TokenStore.TokenKeyInjective | src/main/java/mingovvv/turnstile/repository/redis/TokenRedisRepository.java:128-130 | token keys of different (event, user) pairs differ when event ids contain no colon |
| TokenStore.TokenKeyPerUser | src/main/java/mingovvv/turnstile/repository/redis/TokenRedisRepository.java:128-130 | within one event, different users have different token keys |
| TokenStore.HoldersAfterIssue | src/main/java/mingovvv/turnstile/repository/redis/TokenRedisRepository.java:105-126 | issuing a token adds at most that one key to the keys the event's scan counts |
| TokenStore.IssueKeepsEarlierTokens | src/main/java/mingovvv/turnstile/repository/redis/TokenRedisRepository.java:33-41 | issuing to distinct users one after another, each issue keeps every earlier user's token |
| TokenStore.TokenKeyHasEventPrefix | src/main/java/mingovvv/turnstile/repository/redis/TokenRedisRepository.java:106-130 | every token key of an event matches that event's scan pattern |
| TokenStore.TokenValidForTenMinutes | src/main/java/mingovvv/turnstile/repository/redis/TokenRedisRepository.java:26-41 | an issued token reads back at every moment before ten minutes have passed and never from then on |
| TokenStore.TokenRedisRepository.constructor | src/main/java/mingovvv/turnstile/repository/redis/TokenRedisRepository.java:20-26 | an empty store |
| TokenStore.TokenRedisRepository.IssueToken | src/main/java/mingovvv/turnstile/repository/redis/TokenRedisRepository.java:33-41 | returns the fresh token, stores it under the user's key for 600 seconds, after which it reads back, is valid and has the full lifetime left |
| TokenStore.TokenRedisRepository.GetToken | src/main/java/mingovvv/turnstile/repository/redis/TokenRedisRepository.java:46-50 | a token exactly when the user holds one |
| TokenStore.TokenRedisRepository.IsValidToken | src/main/java/mingovvv/turnstile/repository/redis/TokenRedisRepository.java:55-58 | valid exactly when a token is stored and equals the given one |
| TokenStore.TokenRedisRepository.GetRemainingTtl | src/main/java/mingovvv/turnstile/repository/redis/TokenRedisRepository.java:71-75 | a positive number of seconds exactly when the user holds a token, 0 otherwise |
| TokenStore.TokenRedisRepository.DeleteToken | src/main/java/mingovvv/turnstile/repository/redis/TokenRedisRepository.java:80-83 | reports whether a token was held; afterwards none is and its remaining time reads 0 |
| TokenStore.TokenRedisRepository.ExtendToken | src/main/java/mingovvv/turnstile/repository/redis/TokenRedisRepository.java:88-99 | succeeds exactly when a token is held and changes nothing otherwise; on success the same token stays with its remaining time plus the extra seconds, or is deleted when that total is not positive |
| TokenStore.TokenRedisRepository.TokenHolders | src/main/java/mingovvv/turnstile/repository/redis/TokenRedisRepository.java:105-126 | the key of every user holding a token of the event is among the counted keys |
| TokenStore.TokenRedisRepository.CountByEventId | src/main/java/mingovvv/turnstile/repository/redis/TokenRedisRepository.java:105-126 | the count is the number of live keys matching the event's scan pattern, read as a prefix match (event ids hold no glob metacharacter) |
| TokenStore.PatternsApart | src/main/java/mingovvv/turnstile/repository/redis/TokenRedisRepository.java:105-130 | for event ids without ':', a key matching one event's scan pattern never matches another's |
| TokenStore.IssuedAllTokens | src/main/java/mingovvv/turnstile/repository/redis/TokenRedisRepository.java:33-41 | issuing to distinct users in turn leaves each holding the token issued to them |
| TokenStore.IssuedAllHolders | src/main/java/mingovvv/turnstile/repository/redis/TokenRedisRepository.java:33-126 | issuing to n users adds at most n keys to those the event's scan counts |
| TokenStore.IssuedAllElsewhere | src/main/java/mingovvv/turnstile/repository/redis/TokenRedisRepository.java:33-130 | issuing for one event leaves every key outside its scan pattern as it was |
| TokenStore.IssuedAllOtherEvent | src/main/java/mingovvv/turnstile/repository/redis/TokenRedisRepository.java:33-130 | issuing for one event changes neither the tokens nor the holder count of another, when neither id contains ':' |
| TokenStore.TokenRedisRepository.HasToken | src/main/java/mingovvv/turnstile/repository/redis/TokenRedisRepository.java:63-66 | true exactly when a token is stored for the user |
| SeatLockStore.TryLockStep | src/main/java/mingovvv/turnstile/repository/redis/SeatLockRedisRepository.java:45-61 | an unheld lock is taken (SET with the five-minute lifetime) with SUCCESS; a lock the user holds gives ALREADY_OWNED and one someone else holds gives LOCKED, both changing nothing; afterwards the user holds the lock exactly when the answer is not LOCKED |
| SeatLockStore.UnlockStep | src/main/java/mingovvv/turnstile/repository/redis/SeatLockRedisRepository.java:83-93 | the lock is deleted exactly when the user holds it, and nothing changes otherwise |
| SeatLockStore.LockExcludesOthers | src/main/java/mingovvv/turnstile/repository/redis/SeatLockRedisRepository.java:45-61 | while a lock's five minutes run, another user can neither take it nor release it |
| SeatLockStore.LockLapses | src/main/java/mingovvv/turnstile/repository/redis/SeatLockRedisRepository.java:27-59 | once five minutes have passed since the lock was taken, anyone can take it |
| SeatLockStore.UnlockThenRelock | src/main/java/mingovvv/turnstile/repository/redis/SeatLockRedisRepository.java:45-61 | the holder can release a lock they just took, after which another user can take it |
| SeatLockStore.RelockIsIdempotent | src/main/java/mingovvv/turnstile/repository/redis/SeatLockRedisRepository.java:50-53 | locking again as the holder answers ALREADY_OWNED and does not change the store (in particular does not renew the lifetime) |
| SeatLockStore.SeatLockRedisRepository.constructor | src/main/java/mingovvv/turnstile/repository/redis/SeatLockRedisRepository.java:20-27 | an empty store |
| SeatLockStore.SeatLockRedisRepository.TryLock | src/main/java/mingovvv/turnstile/repository/redis/SeatLockRedisRepository.java:41-73 | the store and answer are those of the atomic script; the user holds the lock afterwards exactly when the answer is not LOCKED; a fresh lock has the full 300 seconds; the seat is locked afterwards either way |
| SeatLockStore.SeatLockRedisRepository.Unlock | src/main/java/mingovvv/turnstile/repository/redis/SeatLockRedisRepository.java:79-105 | succeeds exactly when the user held the lock, and the seat is then unlocked; a failed unlock changes nothing |
| SeatLockStore.SeatLockRedisRepository.GetLockedBy | src/main/java/mingovvv/turnstile/repository/redis/SeatLockRedisRepository.java:110-114 | a holder exactly when the seat is locked |
| SeatLockStore.SeatLockRedisRepository.IsLockedBy | src/main/java/mingovvv/turnstile/repository/redis/SeatLockRedisRepository.java:127-130 | true exactly when the recorded holder is the user, which implies the seat is locked |
| SeatLockStore.SeatLockRedisRepository.GetRemainingTtl | src/main/java/mingovvv/turnstile/repository/redis/SeatLockRedisRepository.java:135-139 | positive exactly when the seat is locked, 0 otherwise |
| SeatLockStore.SeatLockRedisRepository.ForceUnlock | src/main/java/mingovvv/turnstile/repository/redis/SeatLockRedisRepository.java:144-148 | the seat's lock key is deleted whoever held it, and nothing else changes |
| SeatLockStore.SeatLockRedisRepository.GetLockTtlSeconds | src/main/java/mingovvv/turnstile/repository/redis/SeatLockRedisRepository.java:153-155 | the lock lifetime is five minutes |
| SeatLockStore.SeatLockRedisRepository.IsLocked | src/main/java/mingovvv/turnstile/repository/redis/SeatLockRedisRepository.java:119-122 | true exactly when a lock is stored for the seat |
| RedisValues.Get | src/main/java/mingovvv/turnstile/repository/redis/TokenRedisRepository.java:63-66 | GET returns a value exactly when the key is live, and then its stored value |
| RedisValues.Ttl | src/main/java/mingovvv/turnstile/repository/redis/TokenRedisRepository.java:71-75 | TTL is -2 exactly for a missing or expired key; for a live key it is at least one second and reaches the expiry time |
| RedisValues.RemainingSeconds | src/main/java/mingovvv/turnstile/repository/redis/TokenRedisRepository.java:71-75 | the remaining lifetime is positive exactly when the key is live and then ends at its expiry time |
| RedisValues.SetEx | src/main/java/mingovvv/turnstile/repository/redis/TokenRedisRepository.java:33-41 | SET with a lifetime makes the key read the value (nothing for a zero lifetime) and leaves every other key as it reads |
| RedisValues.SetExLiveUntil | src/main/java/mingovvv/turnstile/repository/redis/TokenRedisRepository.java:26-41 | a value set with a lifetime reads back at any later time before the lifetime ends and is gone from then on |
| RedisValues.Del | src/main/java/mingovvv/turnstile/repository/redis/TokenRedisRepository.java:80-83 | DEL reports whether the key was live, leaves it missing and leaves every other key as it reads |
| RedisValues.Expire | src/main/java/mingovvv/turnstile/repository/redis/TokenRedisRepository.java:88-99 | EXPIRE reports whether the key was live and changes nothing otherwise; a positive lifetime keeps the value and sets its TTL to exactly that lifetime, a non-positive one deletes the key; other keys are untouched |
| RedisValues.LiveKeysWithPrefix | src/main/java/mingovvv/turnstile/repository/redis/TokenRedisRepository.java:105-126 | exactly the live keys that start with the prefix: what SCAN with `prefix*` visits when the prefix holds no glob metacharacter |
| SseRegistry.Registered | src/main/java/mingovvv/turnstile/sse/QueueSseEmitterRegistry.java:53 | the key now names the new emitter and no other key is added or dropped |
| SseRegistry.RemovedByKey | src/main/java/mingovvv/turnstile/sse/QueueSseEmitterRegistry.java:38-51 | the teardown callbacks as written drop the key whatever emitter it names |
| SseRegistry.RemovedIfCurrent | src/main/java/mingovvv/turnstile/sse/QueueSseEmitterRegistry.java:38-51 | the intended teardown drops the key only while it still names the callback's own emitter, and otherwise changes nothing |
| SseRegistry.ReplacedEmitterCallbackDropsReplacement | src/main/java/mingovvv/turnstile/sse/QueueSseEmitterRegistry.java:29-53 | after a user reconnects, the completion callback of the replaced emitter, as written, removes the new connection |
| SseRegistry.StaleCallbackKeepsReplacement | src/main/java/mingovvv/turnstile/sse/QueueSseEmitterRegistry.java:38-51 | with the identity check, a callback of a replaced emitter leaves the new connection in place |
| SseRegistry.KeysOfEvent | src/main/java/mingovvv/turnstile/sse/QueueSseEmitterRegistry.java:108-113 | the keys counted for an event are registered keys, and every connection of that event is among them |
| SseRegistry.QueueSseEmitterRegistry.constructor | src/main/java/mingovvv/turnstile/sse/QueueSseEmitterRegistry.java:19-24 | no connections, nothing sent, nothing completed |
| SseRegistry.QueueSseEmitterRegistry.Register | src/main/java/mingovvv/turnstile/sse/QueueSseEmitterRegistry.java:29-57 | a brand-new emitter is returned and stored under event:user; the emitter it replaces, if any, is completed; nothing is sent |
| SseRegistry.QueueSseEmitterRegistry.Send | src/main/java/mingovvv/turnstile/sse/QueueSseEmitterRegistry.java:62-80 | with no connection nothing happens; a failing write drops the connection and records nothing; otherwise exactly one push, named by the event type and carrying the event, is recorded for that emitter |
| SseRegistry.QueueSseEmitterRegistry.Complete | src/main/java/mingovvv/turnstile/sse/QueueSseEmitterRegistry.java:85-96 | the key is dropped and the emitter it named, if any, is completed; nothing is sent |
| SseRegistry.QueueSseEmitterRegistry.OnEmitterDone | src/main/java/mingovvv/turnstile/sse/QueueSseEmitterRegistry.java:38-51 | a finished emitter's callback removes its key only if the key still names that emitter (corrected teardown) |
| SseRegistry.QueueSseEmitterRegistry.GetEmitterCount | src/main/java/mingovvv/turnstile/sse/QueueSseEmitterRegistry.java:101-103 | the number of open connections |
| SseRegistry.QueueSseEmitterRegistry.GetEmitterCountByEventId | src/main/java/mingovvv/turnstile/sse/QueueSseEmitterRegistry.java:108-113 | never more than all connections, and at least one when a user of the event is connected |
| SseRegistry.Pushes | src/main/java/mingovvv/turnstile/sse/QueueSseEmitterRegistry.java:62-80 | a run of sends pushes at most one event per user |
| SseRegistry.PushesReach | src/main/java/mingovvv/turnstile/sse/QueueSseEmitterRegistry.java:62-80 | a run of sends pushes, on their own emitter, the event of every connected reachable user and nothing else |
| SseRegistry.SendExtends | src/main/java/mingovvv/turnstile/sse/QueueSseEmitterRegistry.java:62-80 | one more send of a run with distinct users finds the user's connection as the run started, and adds that user's push or drop only |
| SseRegistry.SendContinuesRun | src/main/java/mingovvv/turnstile/sse/QueueSseEmitterRegistry.java:62-80 | whatever send does for the next user extends the run of pushes and drops by that user |
| QueueService.QueueService.constructor | src/main/java/mingovvv/turnstile/service/QueueService.java:24-29 | the service is wired to the event service, the queue store, the token store and the push registry it is given |
| QueueService.QueueService.GetQueueStatus | src/main/java/mingovvv/turnstile/service/QueueService.java:65-82 | a user can enter exactly when they hold a live token, and is then handed that token; they are waiting exactly when they hold no token but are queued, and then the status carries their 0-based rank (below the queue size), the queue size and an estimate of three seconds per user ahead; otherwise they are not in the queue |
| QueueService.QueueService.EnterQueue | src/main/java/mingovvv/turnstile/service/QueueService.java:37-60 | an unknown or non-open event is refused with the event service's error and nothing changes; a user who already holds a token is let straight in with it; a user already queued is refused with ALREADY_IN_QUEUE; otherwise the user is added with the next arrival score and ends up waiting; the queue only changes when the user ends up in it, and the arrival counters only when the user is added (then only this event's, by one) |
| QueueService.QueueService.LeaveQueue | src/main/java/mingovvv/turnstile/service/QueueService.java:87-93 | succeeds exactly when the user was queued, failing with NOT_IN_QUEUE otherwise; afterwards the user is no longer in that event's queue and the rest of the queue is unchanged |
| QueueService.QueueService.BroadcastQueueUpdate | src/main/java/mingovvv/turnstile/service/QueueService.java:127-145 | the pushes are exactly one QUEUE_UPDATE per user among the first hundred of the queue who is connected and reachable, in queue order, on that user's emitter, carrying their rank, the queue size and three seconds per rank ahead; the connections of unreachable users among them are dropped and no other connection changes |
| QueueService.QueueService.ProcessQueue | src/main/java/mingovvv/turnstile/service/QueueService.java:101-122 | admits the first min(count, size) users (all of them for count 0), removes exactly that prefix from the queue, leaves the arrival counters alone, leaves the tokens as issuing the i-th fresh token to the i-th admitted user in turn, and returns how many were admitted; the set of token holders grows by at most that many; with nobody admitted nothing is pushed, otherwise the pushes are the token grants to the connected admitted users followed by the rank updates of the remaining queue, and exactly the connections that failed on them are dropped |
| QueueService.QueueService.IssueTokens | src/main/java/mingovvv/turnstile/service/QueueService.java:109-116 | the token store ends as issuing the i-th fresh token to the i-th of the distinct users in turn, so each holds their own token, with at most that many new holders; the pushes are exactly one TOKEN_ISSUED per connected reachable user, in order, carrying the token they now hold, and exactly the failing connections are dropped |
| QueueService.QueueService.GrantToken | src/main/java/mingovvv/turnstile/service/QueueService.java:110-115 | stores the token under the user's key with the 600-second lifetime; with no connection nothing else changes; a failing connection is dropped and nothing is pushed; otherwise exactly one TOKEN_ISSUED carrying the token is pushed on the user's emitter |
| QueueService.QueueService.GetTotalWaiting | src/main/java/mingovvv/turnstile/service/QueueService.java:150-152 | the number of users in the event's queue |
| QueueService.QueueService.RankPushesAreUpdates | src/main/java/mingovvv/turnstile/service/QueueService.java:137-143 | every push of a broadcast is a QUEUE_UPDATE telling a queued user the rank the queue gives them now, below one hundred |
| QueueService.QueueService.TokenPushesAreGrants | src/main/java/mingovvv/turnstile/service/QueueService.java:109-116 | once the admitted users hold their tokens, every push of a token run hands a user the token they hold |
| Scheduler.QueueProcessorScheduler.constructor | src/main/java/mingovvv/turnstile/scheduler/QueueProcessorScheduler.java:23-27 | the scheduler is wired to the queue service, the event repository and the token store it is given |
| Scheduler.QueueProcessorScheduler.Occupied | src/main/java/mingovvv/turnstile/scheduler/QueueProcessorScheduler.java:52-53 | the number of live token keys the event's scan counts |
| Scheduler.QueueProcessorScheduler.ProcessEventQueue | src/main/java/mingovvv/turnstile/scheduler/QueueProcessorScheduler.java:48-71 | the free places are the limit minus the live tokens the scan counts; a full event admits nobody and changes neither queues, tokens nor connections; otherwise exactly the first min(free places, queue size) waiting users are admitted and removed from the front, the tokens end as issuing the i-th fresh token to the i-th of them, and the event ends with at most its maximum of token holders if it started within it; no other queue changes |
| Scheduler.QueueProcessorScheduler.ProcessQueue | src/main/java/mingovvv/turnstile/scheduler/QueueProcessorScheduler.java:34-46 | every open event, and no other, gets one pass recorded with its admitted count: each such queue loses exactly that many users off the front and every other queue is unchanged; when no event id contains ':', each open event ends with exactly the tokens its own pass issues, and every event that was within its limit still is |
| Scheduler.Admitted | src/main/java/mingovvv/turnstile/scheduler/QueueProcessorScheduler.java:48-65 | a pass admits a prefix of the queue: nobody when the live tokens reach the limit, otherwise min(limit minus live tokens, queue size) users |
| Scheduler.PassedUnderOtherEvent | src/main/java/mingovvv/turnstile/scheduler/QueueProcessorScheduler.java:39-45 | when no id contains ':', another event's pass leaves an event's queue, tokens and holder count as its own pass left them |
| Scheduler.CoveredStep | src/main/java/mingovvv/turnstile/scheduler/QueueProcessorScheduler.java:35-41 | after one more open event is processed, every open event is still either waiting or recorded, never both |
| Scheduler.QueuesStep | src/main/java/mingovvv/turnstile/scheduler/QueueProcessorScheduler.java:39-41 | a pass that removes its admitted users from its own queue only keeps every queue advanced by the record |
| Scheduler.ProcessedStayPassed | src/main/java/mingovvv/turnstile/scheduler/QueueProcessorScheduler.java:39-45 | another event's pass leaves every already processed event as its own pass left it |
| Scheduler.WaitingKeepTokens | src/main/java/mingovvv/turnstile/scheduler/QueueProcessorScheduler.java:39-45 | an event's pass leaves the live token count of every open event still waiting as it was |
| Scheduler.TokensStep | src/main/java/mingovvv/turnstile/scheduler/QueueProcessorScheduler.java:39-45 | one more event's pass, as processEventQueue states it, keeps the tokens advanced by the record |
| Scheduler.PassKeepsLimits | src/main/java/mingovvv/turnstile/scheduler/QueueProcessorScheduler.java:48-71 | after a pass over the open events, every event that was within its limit still is |
| Scheduler.QueueProcessorScheduler.OpenEvents | src/main/java/mingovvv/turnstile/scheduler/QueueProcessorScheduler.java:35-37 | the open events of the catalog, each filed under its own id, all still to be processed |
| Scheduler.QueueProcessorScheduler.ProcessNext | src/main/java/mingovvv/turnstile/scheduler/QueueProcessorScheduler.java:39-45 | one iteration of the loop: the queues and, when no id contains ':', the tokens stay advanced by the record extended with this event's count |
| TokenService.TokenService.constructor | src/main/java/mingovvv/turnstile/service/TokenService.java:16-18 | the service reads the token store it is given |
| TokenService.TokenService.ValidateToken | src/main/java/mingovvv/turnstile/service/TokenService.java:24-36 | passes exactly when a non-blank token is given and it is the one stored for the user; a missing or blank token is TOKEN_NOT_FOUND, no stored token is TOKEN_EXPIRED, a different one is TOKEN_INVALID, checked in that order, and every failure is a 401 |
| TokenService.TokenService.HasValidToken | src/main/java/mingovvv/turnstile/service/TokenService.java:41-43 | true exactly when a token is stored for the user, which is exactly when time remains on it |
| TokenService.TokenService.DeleteToken | src/main/java/mingovvv/turnstile/service/TokenService.java:48-51 | the user's token key is deleted and nothing else changes, so the user no longer holds a token |
| TokenService.TokenService.GetRemainingTtl | src/main/java/mingovvv/turnstile/service/TokenService.java:56-58 | no time remains exactly when the user holds no token |
| SeatService.SeatService.constructor | src/main/java/mingovvv/turnstile/service/SeatService.java:26-31 | the service is wired to the event service, the seat repository, the lock store and the reservation repository it is given |
| SeatService.SeatService.EffectiveStatus | src/main/java/mingovvv/turnstile/service/SeatService.java:162-174 | RESERVED exactly for a reserved seat; LOCKED exactly for an unreserved seat whose lock is held; AVAILABLE exactly for an unreserved, unlocked seat |
| SeatService.SeatService.View | src/main/java/mingovvv/turnstile/service/SeatService.java:44-45 | the response carries the seat's ids and its effective status |
| SeatService.SeatService.GetSeats | src/main/java/mingovvv/turnstile/service/SeatService.java:37-48 | fails exactly when the event is not open, with the event service's error; otherwise contains the view of every stored seat of the event and only views of that event's seats |
| SeatService.SeatService.GetSeatsBySection | src/main/java/mingovvv/turnstile/service/SeatService.java:53-64 | fails exactly when the event is not open, with the event service's error; otherwise contains the view of every seat of that event and section and only views of such seats |
| SeatService.SeatService.FindSeatOrThrow | src/main/java/mingovvv/turnstile/service/SeatService.java:153-156 | the stored seat exactly when one exists under the event and seat id, otherwise SEAT_NOT_FOUND with the seat id |
| SeatService.SeatService.GetSeat | src/main/java/mingovvv/turnstile/service/SeatService.java:69-73 | the view of the stored seat exactly when it exists, otherwise SEAT_NOT_FOUND |
| SeatService.SeatService.LockableSeat | src/main/java/mingovvv/turnstile/service/SeatService.java:79-85 | the seat may be locked exactly when the event is open, the seat exists, it is not reserved and no reservation names it; the failures are the event error, SEAT_NOT_FOUND and SEAT_ALREADY_RESERVED, checked in that order |
| SeatService.SeatService.LockSeat | src/main/java/mingovvv/turnstile/service/SeatService.java:78-107 | a seat that may not be locked gives its error and leaves the locks alone; otherwise the lock store moves as the atomic lock script says, and SUCCESS answers with the full 300 seconds, ALREADY_OWNED with the time the lock has left, LOCKED with SEAT_ALREADY_LOCKED; the call succeeds exactly when the user holds the lock afterwards |
| SeatService.SeatService.UnlockSeat | src/main/java/mingovvv/turnstile/service/SeatService.java:112-121 | an unknown seat is SEAT_NOT_FOUND with no change; otherwise the lock is released exactly when the user held it, and a failure is SEAT_NOT_LOCKED_BY_USER |
| SeatService.SeatService.ValidateSeatLock | src/main/java/mingovvv/turnstile/service/SeatService.java:126-134 | passes exactly when the user holds the seat's lock; a seat nobody holds is SEAT_LOCK_EXPIRED, one held by someone else SEAT_NOT_LOCKED_BY_USER |
| SeatService.SeatService.ReserveSeat | src/main/java/mingovvv/turnstile/service/SeatService.java:139-148 | succeeds exactly when the seat exists; the seat is then reserved (its effective status RESERVED), no other seat changes, and its lock is removed whoever held it; an unknown seat is SEAT_NOT_FOUND and changes nothing |
| PaymentService.PaymentService.constructor | src/main/java/mingovvv/turnstile/service/PaymentService.java:32-35 | the service works on the services and repositories it is given |
| PaymentService.PaymentService.ProcessPayment | src/main/java/mingovvv/turnstile/service/PaymentService.java:45-115 | checks in order: the caller's own lock, a known seat, no reservation for the seat yet; a rejection records nothing and changes no seat; an accepted payment charges the seat's price and on success stores a SUCCESS payment and a CONFIRMED reservation with the same ids (the reservation table moving as one save), reserves the seat and no other, deletes only that seat's lock key and only the user's token key; on failure it stores a FAILED payment without reservation id, keeps reservations, locks, tokens and seat statuses and reports PAYMENT_FAILED; after a success the seat counts as reserved, so a second success is impossible |
| PaymentService.PaymentService.RecordSuccess | src/main/java/mingovvv/turnstile/service/PaymentService.java:64-98 | the success branch: SUCCESS payment at the seat's price added to the payments, CONFIRMED reservation with the same ids saved under the seat, seat RESERVED and no other seat's status changed, the lock store short of exactly that seat's key, the token store short of exactly the user's token key |
| PaymentService.PaymentService.SaveConfirmed | src/main/java/mingovvv/turnstile/service/PaymentService.java:66-87 | adds exactly the SUCCESS payment to the payments and saves a CONFIRMED reservation with the same ids under the seat, the reservation table moving as one save |
| PaymentService.PaymentService.RecordFailure | src/main/java/mingovvv/turnstile/service/PaymentService.java:99-114 | stores a FAILED payment with no reservation id and no payment time, and reports PAYMENT_FAILED with the payment id |
| PaymentService.PaymentService.GetPayment | src/main/java/mingovvv/turnstile/service/PaymentService.java:120-124 | the stored payment's response when the id exists, otherwise PAYMENT_NOT_FOUND |
| PaymentService.PaymentService.GetUserReservations | src/main/java/mingovvv/turnstile/service/PaymentService.java:129-133 | a response for every stored reservation of the user, and only for that user's |
| PaymentService.PaymentService.GetReservation | src/main/java/mingovvv/turnstile/service/PaymentService.java:138-142 | the stored reservation's response when the id exists, otherwise RESERVATION_NOT_FOUND |
| EventService.EventService.constructor | src/main/java/mingovvv/turnstile/service/EventService.java:23 | the service reads the repository it is given |
| EventService.EventService.GetAllEvents | src/main/java/mingovvv/turnstile/service/EventService.java:28-32 | exactly one response per stored event, each built from a stored event |
| EventService.EventService.FindEventOrThrow | src/main/java/mingovvv/turnstile/service/EventService.java:45-48 | the stored event when the id exists, otherwise EVENT_NOT_FOUND (404) with the id as detail |
| EventService.EventService.GetEvent | src/main/java/mingovvv/turnstile/service/EventService.java:37-40 | the stored event's response when the id exists, otherwise EVENT_NOT_FOUND |
| EventService.EventService.ValidateEventOpen | src/main/java/mingovvv/turnstile/service/EventService.java:53-58 | passes exactly for a stored OPEN event; a missing event gives EVENT_NOT_FOUND, a present non-open one EVENT_NOT_OPEN |
| ReservationRepository.Saved | src/main/java/mingovvv/turnstile/repository/memory/ReservationMemoryRepository.java:24-30 | saving stores the reservation under its id and points its seat key at that id; every other entry of both maps is kept |
| ReservationRepository.Deleted | src/main/java/mingovvv/turnstile/repository/memory/ReservationMemoryRepository.java:66-71 | deleting an unknown id changes nothing; deleting a stored one removes it and the index entry of its seat |
| ReservationRepository.ConsistentIndexIdsStored | src/main/java/mingovvv/turnstile/repository/memory/ReservationMemoryRepository.java:21-22 | when the index and the store agree, every index entry names a stored reservation |
| ReservationRepository.SavedConsistent | src/main/java/mingovvv/turnstile/repository/memory/ReservationMemoryRepository.java:24-30 | saving keeps the index and the store in agreement, provided a re-saved id keeps its seat |
| ReservationRepository.DeletedConsistent | src/main/java/mingovvv/turnstile/repository/memory/ReservationMemoryRepository.java:66-71 | deleting keeps the index and the store in agreement |
| ReservationRepository.ResaveThenDeleteLeavesDanglingEntry | src/main/java/mingovvv/turnstile/repository/memory/ReservationMemoryRepository.java:24-30 | re-saving an id with a different seat and then deleting it leaves the first seat's index entry pointing at no reservation: the agreement depends on a reservation never changing seat |
| ReservationRepository.ReservationMemoryRepository.constructor | src/main/java/mingovvv/turnstile/repository/memory/ReservationMemoryRepository.java:17-22 | empty store and index |
| ReservationRepository.ReservationMemoryRepository.Save | src/main/java/mingovvv/turnstile/repository/memory/ReservationMemoryRepository.java:24-30 | both maps move as saving says, the reservation is returned and is then found by its seat; store and index stay in agreement when the id keeps its seat |
| ReservationRepository.ReservationMemoryRepository.FindById | src/main/java/mingovvv/turnstile/repository/memory/ReservationMemoryRepository.java:32-34 | a reservation exactly when the id is stored, and it is that one |
| ReservationRepository.ReservationMemoryRepository.FindBySeat | src/main/java/mingovvv/turnstile/repository/memory/ReservationMemoryRepository.java:36-43 | a result only for an indexed seat, and then the reservation its id names; with store and index in agreement, found exactly when the seat is indexed, and the reservation found is for that seat |
| ReservationRepository.ReservationMemoryRepository.FindByUserId | src/main/java/mingovvv/turnstile/repository/memory/ReservationMemoryRepository.java:45-49 | exactly the stored reservations of the user |
| ReservationRepository.ReservationMemoryRepository.FindByEventId | src/main/java/mingovvv/turnstile/repository/memory/ReservationMemoryRepository.java:51-55 | exactly the stored reservations of the event |
| ReservationRepository.ReservationMemoryRepository.FindAll | src/main/java/mingovvv/turnstile/repository/memory/ReservationMemoryRepository.java:57-59 | exactly the stored reservations |
| ReservationRepository.ReservationMemoryRepository.DeleteById | src/main/java/mingovvv/turnstile/repository/memory/ReservationMemoryRepository.java:66-71 | from any state, both maps move as deleting says, the id is gone and its seat is free again; store and index that agreed before still agree |
| ReservationRepository.ReservationMemoryRepository.DeleteAll | src/main/java/mingovvv/turnstile/repository/memory/ReservationMemoryRepository.java:73-76 | both maps are empty and the count is 0 |
| ReservationRepository.ReservationMemoryRepository.Count | src/main/java/mingovvv/turnstile/repository/memory/ReservationMemoryRepository.java:78-80 | the number of stored reservations |
| ReservationRepository.ReservationMemoryRepository.ExistsBySeatMeans | src/main/java/mingovvv/turnstile/repository/memory/ReservationMemoryRepository.java:61-64 | in a consistent repository, a seat found in the index has a stored reservation of that seat |
| SeatRepository.SeatMemoryRepository.constructor | src/main/java/mingovvv/turnstile/repository/memory/SeatMemoryRepository.java:19-21 | an empty store |
| SeatRepository.SeatMemoryRepository.Save | src/main/java/mingovvv/turnstile/repository/memory/SeatMemoryRepository.java:23-27 | the seat is stored under its event:seat key, replacing any seat there, is returned, and is then found by its ids |
| SeatRepository.SeatMemoryRepository.FindById | src/main/java/mingovvv/turnstile/repository/memory/SeatMemoryRepository.java:29-32 | a seat exactly when one is stored under the composite key, and it is that seat |
| SeatRepository.SeatMemoryRepository.FindByEventId | src/main/java/mingovvv/turnstile/repository/memory/SeatMemoryRepository.java:34-38 | exactly the stored seats of the event |
| SeatRepository.SeatMemoryRepository.FindByEventIdAndStatus | src/main/java/mingovvv/turnstile/repository/memory/SeatMemoryRepository.java:40-45 | exactly the stored seats of the event with that status |
| SeatRepository.SeatMemoryRepository.FindByEventIdAndSection | src/main/java/mingovvv/turnstile/repository/memory/SeatMemoryRepository.java:47-52 | exactly the stored seats of the event in that section |
| SeatRepository.SeatMemoryRepository.DeleteById | src/main/java/mingovvv/turnstile/repository/memory/SeatMemoryRepository.java:62-64 | only the seat's key is removed |
| SeatRepository.SeatMemoryRepository.DeleteByEventId | src/main/java/mingovvv/turnstile/repository/memory/SeatMemoryRepository.java:66-68 | exactly the seats of the event are removed and every other entry is kept unchanged, so the event has no seats left |
| SeatRepository.SeatMemoryRepository.DeleteAll | src/main/java/mingovvv/turnstile/repository/memory/SeatMemoryRepository.java:70-72 | the store is empty |
| SeatRepository.SeatMemoryRepository.Count | src/main/java/mingovvv/turnstile/repository/memory/SeatMemoryRepository.java:74-76 | the number of stored keys |
| SeatRepository.SeatMemoryRepository.CountByEventId | src/main/java/mingovvv/turnstile/repository/memory/SeatMemoryRepository.java:78-82 | the number of seats the event filter finds, never more than the total count |
| SeatRepository.SeatMemoryRepository.ExistsByIdMeans | src/main/java/mingovvv/turnstile/repository/memory/SeatMemoryRepository.java:58-60 | the key is present exactly when a stored seat has that event and seat id |
| EventRepository.EventMemoryRepository.constructor | src/main/java/mingovvv/turnstile/repository/memory/EventMemoryRepository.java:18 | a new repository is empty |
| EventRepository.EventMemoryRepository.Save | src/main/java/mingovvv/turnstile/repository/memory/EventMemoryRepository.java:20-23 | the event is filed under its id, replacing any earlier one, and is found there afterwards; the count grows by one exactly when the id was new |
| EventRepository.EventMemoryRepository.FindById | src/main/java/mingovvv/turnstile/repository/memory/EventMemoryRepository.java:25-35 | an event is found exactly when the id exists, and it is the stored one |
| EventRepository.EventMemoryRepository.FindAll | src/main/java/mingovvv/turnstile/repository/memory/EventMemoryRepository.java:29-31 | every stored event, and only stored events, is listed, one per id |
| EventRepository.EventMemoryRepository.DeleteById | src/main/java/mingovvv/turnstile/repository/memory/EventMemoryRepository.java:37-39 | removes only that id; every other lookup is unchanged |
| EventRepository.EventMemoryRepository.DeleteAll | src/main/java/mingovvv/turnstile/repository/memory/EventMemoryRepository.java:41-43 | empties the repository, so the count is 0 |
| EventRepository.EventMemoryRepository.Count | src/main/java/mingovvv/turnstile/repository/memory/EventMemoryRepository.java:45-47 | the count is the number of distinct stored ids |
| EventRepository.EventMemoryRepository.ExistsByIdMeans | src/main/java/mingovvv/turnstile/repository/memory/EventMemoryRepository.java:33-35 | the id is present exactly when a stored event has that id |
| PaymentRepository.FindFirstAsWritten | src/main/java/mingovvv/turnstile/repository/memory/PaymentMemoryRepository.java:30-34 | as written: a hit is a stored payment with that reservation id; nothing is found exactly when every payment has a reservation id and none matches; the null-pointer failure happens only if some payment's reservation id is null |
| PaymentRepository.FindFirst | src/main/java/mingovvv/turnstile/repository/memory/PaymentMemoryRepository.java:30-34 | corrected (null-safe comparison): a hit is a payment with that reservation id; nothing is found exactly when no payment has it |
| PaymentRepository.AsWrittenAgreesWithoutNulls | src/main/java/mingovvv/turnstile/repository/memory/PaymentMemoryRepository.java:30-34 | while every stored reservation id is non-null, the code as written and the corrected lookup agree |
| PaymentRepository.FailedPaymentBreaksLookup | src/main/java/mingovvv/turnstile/repository/memory/PaymentMemoryRepository.java:30-34 | a single stored FAILED payment (reservation id null) makes the lookup as written throw, while the corrected one reports nothing found |
| PaymentRepository.SkipUnmatched | src/main/java/mingovvv/turnstile/repository/memory/PaymentMemoryRepository.java:31-33 | `findFirst` passes over payments that do not match |
| PaymentRepository.SkipMatched | src/main/java/mingovvv/turnstile/repository/memory/PaymentMemoryRepository.java:31-33 | the corrected scan passes over payments that do not match |
| PaymentRepository.PaymentMemoryRepository.constructor | src/main/java/mingovvv/turnstile/repository/memory/PaymentMemoryRepository.java:19 | a new repository is empty |
| PaymentRepository.PaymentMemoryRepository.Save | src/main/java/mingovvv/turnstile/repository/memory/PaymentMemoryRepository.java:21-24 | the payment is filed under its id, replacing any earlier one, and is found there afterwards; the count grows by one exactly when the id was new |
| PaymentRepository.PaymentMemoryRepository.FindById | src/main/java/mingovvv/turnstile/repository/memory/PaymentMemoryRepository.java:26-48 | a payment is found exactly when the id exists, and it is the stored one |
| PaymentRepository.PaymentMemoryRepository.FindByReservationIdAsWritten | src/main/java/mingovvv/turnstile/repository/memory/PaymentMemoryRepository.java:30-34 | the as-written scan over the stored payments in some order: a hit matches, a miss means no payment matches and none has a null reservation id, and a failure needs a null one |
| PaymentRepository.PaymentMemoryRepository.FindByReservationId | src/main/java/mingovvv/turnstile/repository/memory/PaymentMemoryRepository.java:30-34 | the corrected scan: a hit is a stored payment for that reservation; a miss means none is stored |
| PaymentRepository.PaymentMemoryRepository.FindByUserId | src/main/java/mingovvv/turnstile/repository/memory/PaymentMemoryRepository.java:36-40 | exactly the stored payments of that user |
| PaymentRepository.PaymentMemoryRepository.FindAll | src/main/java/mingovvv/turnstile/repository/memory/PaymentMemoryRepository.java:42-44 | exactly the stored payments |
| PaymentRepository.PaymentMemoryRepository.DeleteById | src/main/java/mingovvv/turnstile/repository/memory/PaymentMemoryRepository.java:50-52 | removes only that id; every other lookup is unchanged |
| PaymentRepository.PaymentMemoryRepository.DeleteAll | src/main/java/mingovvv/turnstile/repository/memory/PaymentMemoryRepository.java:54-56 | empties the repository, so the count is 0 |
| PaymentRepository.PaymentMemoryRepository.Count | src/main/java/mingovvv/turnstile/repository/memory/PaymentMemoryRepository.java:58-60 | the count is the number of distinct stored ids |
| PaymentRepository.PaymentMemoryRepository.ExistsByIdMeans | src/main/java/mingovvv/turnstile/repository/memory/PaymentMemoryRepository.java:46-48 | the id is present exactly when a stored payment has that id |
| Domain.KeySeparatorAt | src/main/java/mingovvv/turnstile/domain/Seat.java:47-49 | in `eventId:seatId` with a colon-free event id, the first colon sits right after the event id |
| Domain.CompositeKeyInjective | src/main/java/mingovvv/turnstile/domain/Seat.java:47-49 | for colon-free event ids the composite key determines the event id and the seat id |
| Domain.CompositeKeyCollision | src/main/java/mingovvv/turnstile/domain/Seat.java:47-49 | without that condition two different pairs share a key: `a:b`+`c` and `a`+`b:c` |
| Domain.SameEventKeysDiffer | src/main/java/mingovvv/turnstile/domain/Seat.java:47-49 | within one event, different ids give different composite keys |
| Domain.Seat.constructor | src/main/java/mingovvv/turnstile/domain/Seat.java:15-22 | a seat holds exactly the fields it is built with |
| Domain.Seat.Lock | src/main/java/mingovvv/turnstile/domain/Seat.java:24-42 | from any status the seat becomes LOCKED, neither available nor reserved |
| Domain.Seat.Reserve | src/main/java/mingovvv/turnstile/domain/Seat.java:28-42 | from any status the seat becomes RESERVED |
| Domain.Seat.Release | src/main/java/mingovvv/turnstile/domain/Seat.java:32-42 | from any status, a reserved one included, the seat becomes AVAILABLE |
| Domain.Seat.IsAvailable | src/main/java/mingovvv/turnstile/domain/Seat.java:36-38 | an available seat is neither locked nor reserved |
| Domain.Seat.IsReserved | src/main/java/mingovvv/turnstile/domain/Seat.java:40-42 | a reserved seat is neither available nor locked |
| Domain.Reservation.constructor | src/main/java/mingovvv/turnstile/domain/Reservation.java:16-23 | a reservation holds exactly the fields it is built with |
| Domain.Reservation.Cancel | src/main/java/mingovvv/turnstile/domain/Reservation.java:25-31 | the status becomes CANCELLED (no other field changes) and the reservation is no longer confirmed |
| Domain.Reservation.IsConfirmed | src/main/java/mingovvv/turnstile/domain/Reservation.java:29-31 | confirmed exactly when not cancelled |
| Domain.Event.IsOpen | src/main/java/mingovvv/turnstile/domain/Event.java:28-30 | an open event is neither upcoming, closed nor sold out |
| Responses.Waiting | src/main/java/mingovvv/turnstile/dto/response/QueueStatusResponse.java:21-31 | a waiting status cannot enter, carries no token, carries the given rank, size and estimate, and reads as waiting for any rank from 0 up |
| Responses.CanEnter | src/main/java/mingovvv/turnstile/dto/response/QueueStatusResponse.java:33-43 | an admitted status can enter, carries the token and zeroes the rank, size and estimate |
| Responses.NotInQueue | src/main/java/mingovvv/turnstile/dto/response/QueueStatusResponse.java:45-55 | an outsider's status cannot enter, carries no token and has rank -1 with zero size and estimate |
| Responses.QueueStatusDecodes | src/main/java/mingovvv/turnstile/dto/response/QueueStatusResponse.java:15-55 | the three factories are told apart by the status fields alone: canEnter marks an admitted user, rank -1 an outsider and any other rank a waiting user, so a waiting user at rank 0 is never mistaken for an admitted one |
| Responses.LockSucceeded | src/main/java/mingovvv/turnstile/dto/response/SeatLockResponse.java:20-29 | a successful lock names the holder, has no reason and carries the given lifetime |
| Responses.LockAlreadyOwned | src/main/java/mingovvv/turnstile/dto/response/SeatLockResponse.java:31-40 | a repeated lock names the holder, gives the reason ALREADY_OWNED and carries the remaining time |
| Responses.SeatResponseWithStatus | src/main/java/mingovvv/turnstile/dto/response/SeatResponse.java:45-58 | the response copies the seat's ids and price and shows the given status with its description |
| Responses.QueueUpdate | src/main/java/mingovvv/turnstile/sse/QueueSseEvent.java:30-40 | a QUEUE_UPDATE push that cannot enter, carries no token and carries the rank, size and estimate |
| Responses.TokenIssued | src/main/java/mingovvv/turnstile/sse/QueueSseEvent.java:42-52 | a TOKEN_ISSUED push that can enter at rank 0 and carries the token |
| Responses.QueueLeft | src/main/java/mingovvv/turnstile/sse/QueueSseEvent.java:54-61 | a QUEUE_LEFT push with no rank, no entry flag and no token |
| Responses.FactoryEventTypes | src/main/java/mingovvv/turnstile/sse/QueueSseEvent.java:30-61 | every push built by a factory has one of the three types, and the type alone decides whether it lets the user enter and whether it carries a token |
| DataInitializer.SeatIdInjective | src/main/java/mingovvv/turnstile/init/DataInitializer.java:90 | for sections without a dash, the name `section-row-seatNum` determines section, row and seat number |
| DataInitializer.GridKeyInjective | src/main/java/mingovvv/turnstile/init/DataInitializer.java:90-103 | different seats of one event are filed under different repository keys |
| DataInitializer.RowKeysCard | src/main/java/mingovvv/turnstile/init/DataInitializer.java:89-104 | one row of n seats adds exactly n distinct keys |
| DataInitializer.GridKeysCard | src/main/java/mingovvv/turnstile/init/DataInitializer.java:87-106 | a section of rows × seatsPerRow seats adds exactly rows × seatsPerRow distinct keys |
| DataInitializer.GridsDisjoint | src/main/java/mingovvv/turnstile/init/DataInitializer.java:76-90 | sections with different names never share a seat key |
| DataInitializer.Event1 | src/main/java/mingovvv/turnstile/init/DataInitializer.java:46-54 | the first sample event is EVT001, open, for at most 100 concurrent users |
| DataInitializer.Event2 | src/main/java/mingovvv/turnstile/init/DataInitializer.java:58-66 | the second sample event is EVT002, upcoming, for at most 200 concurrent users |
| DataInitializer.DataInitializer.constructor | src/main/java/mingovvv/turnstile/init/DataInitializer.java:27-28 | the initializer holds the two repositories it is given |
| DataInitializer.DataInitializer.Init | src/main/java/mingovvv/turnstile/init/DataInitializer.java:31-42 | start-up saves both events and the three seat sections of EVT001, each seat available at its grade's price, and keeps both repositories consistent |
| DataInitializer.DataInitializer.CreateEvents | src/main/java/mingovvv/turnstile/init/DataInitializer.java:44-70 | afterwards EVT001 and EVT002 are found with exactly the sample data; no other event changes |
| DataInitializer.DataInitializer.CreateSeats | src/main/java/mingovvv/turnstile/init/DataInitializer.java:72-85 | adds exactly the keys of sections A (VIP, 2×5), B (R, 4×5) and C (S, 4×5) of EVT001, all seeded as available |
| DataInitializer.DataInitializer.CreateSectionSeats | src/main/java/mingovvv/turnstile/init/DataInitializer.java:87-106 | adds exactly the grid's keys, each seeded with the event, section, grade, its grade's price and AVAILABLE; other seats stay |
| DataInitializer.DataInitializer.CreateRowSeats | src/main/java/mingovvv/turnstile/init/DataInitializer.java:89-105 | adds exactly the keys of one row, each seeded alike |
| DataInitializer.DataInitializer.CreateSeat | src/main/java/mingovvv/turnstile/init/DataInitializer.java:90-103 | files a new available seat with the built seat id under `eventId:seatId`, changing no other entry |
| DataInitializer.FreshSeedCounts | src/main/java/mingovvv/turnstile/init/DataInitializer.java:72-85 | on an empty repository the seeding leaves exactly 50 seats, all of EVT001 |
| DataInitializer.SeatKeysCard | src/main/java/mingovvv/turnstile/init/DataInitializer.java:75-82 | for any event, its three sections together hold 10 + 20 + 20 = 50 distinct keys |
| Errors.CodesDistinct | src/main/java/mingovvv/turnstile/exception/ErrorCode.java:13-42 | two different error codes never share a code string (E001 … C002) |
| Errors.ConflictAndAuthStatuses | src/main/java/mingovvv/turnstile/exception/ErrorCode.java:17-30 | queue and seat conflicts map to 409, a seat locked by someone else to 403, and every token error to 401 |
| Errors.TurnstileException.Message | src/main/java/mingovvv/turnstile/exception/TurnstileException.java:13-21 | the exception message is the code's message, followed by ` - ` and the detail when one is given |
| Errors.Raise | src/main/java/mingovvv/turnstile/exception/TurnstileException.java:13-16 | the one-argument exception carries its code unchanged and the code's message |
| Errors.RaiseWith | src/main/java/mingovvv/turnstile/exception/TurnstileException.java:18-21 | the two-argument exception carries its code unchanged and a message that starts with the code's message |
| ResultCode.IsSuccessCodes | src/main/java/mingovvv/common/constants/ResultCode.java:86-89 | a code is a success code exactly when it is SUC-000, SUC-001 or SUC-002 |
| ResultCode.SuccessCodesSucceed | src/main/java/mingovvv/common/constants/ResultCode.java:13-17 | every success constant's code counts as success |
| ResultCode.ErrorCodesFail | src/main/java/mingovvv/common/constants/ResultCode.java:27-78 | no error constant's code counts as success |
| ResultCode.CodeOwnerOfCode | src/main/java/mingovvv/common/constants/ResultCode.java:29-78 | every error code leads back to its own constant (the code-to-constant lookup inverts the table) |
| ResultCode.ErrorCodesDistinct | src/main/java/mingovvv/common/constants/ResultCode.java:29-78 | two different error constants never share a code |
| ResultCode.SuccessStatuses | src/main/java/mingovvv/common/constants/ResultCode.java:15-17 | OK, CREATED and NO_CONTENT map to HTTP 200, 201 and 204 |
| BaseResponse.Of | src/main/java/mingovvv/common/model/BaseResponse.java:16-20 | the response flag is true exactly when the code is a success code; code and message are kept and there is no data |
| BaseResponse.WithData | src/main/java/mingovvv/common/model/BaseResponse.java:22-27 | as above, carrying the given data |
| BaseResponse.StatusFollowsCode | src/main/java/mingovvv/common/model/BaseResponse.java:17-23 | both constructors set the flag alike, and it is true exactly for the codes SUC-000, SUC-001 and SUC-002 |
| BaseResponse.Create | src/main/java/mingovvv/common/model/BaseResponseFactory.java:14-40 | a plain payload is wrapped as a successful `SUC-000`/"Success." response |
| BaseResponse.CreateSuccess | src/main/java/mingovvv/common/model/BaseResponseFactory.java:18-44 | a success constant gives a successful response with its code and message and no data |
| BaseResponse.CreateSuccessWith | src/main/java/mingovvv/common/model/BaseResponseFactory.java:22-48 | the same, carrying the data |
| BaseResponse.CreateError | src/main/java/mingovvv/common/model/BaseResponseFactory.java:26-52 | an error constant gives a failed response with its code and message and no data |
| BaseResponse.CreateErrorWith | src/main/java/mingovvv/common/model/BaseResponseFactory.java:30-56 | the same, carrying the data |
| BaseResponse.CreateDetail | src/main/java/mingovvv/common/model/BaseResponseFactory.java:34-36 | a failed response with the error's code whose message starts with the error's message and, for a detail, is `message(detail)` |
| RateLimiter.TruncDiv | src/main/java/mingovvv/common/ratelimit/impl/InMemoryRateLimiter.java:38 | Java's long division: the quotient rounded toward zero, for negative dividends too |
| RateLimiter.Consumed | src/main/java/mingovvv/common/ratelimit/impl/InMemoryRateLimiter.java:26-35 | a call opens a window at the current time when the key has none or its window is at least a window length old, with a count of one; otherwise it stays in the current window and adds one to its count |
| RateLimiter.Verdict | src/main/java/mingovvv/common/ratelimit/impl/InMemoryRateLimiter.java:36-40 | a call is allowed exactly when the count including it is within the maximum; the remaining allowance is never negative and is what is left of the maximum; the reset time is the end of the window in whole epoch seconds |
| RateLimiter.AllowedWithinWindow | src/main/java/mingovvv/common/ratelimit/impl/InMemoryRateLimiter.java:24-42 | calls that all fall inside an open window with count c are allowed at most max - c times (never negative) |
| RateLimiter.FirstWindowBound | src/main/java/mingovvv/common/ratelimit/impl/InMemoryRateLimiter.java:20-42 | a fixed window never lets more than the maximum number of calls through: any run of calls starting from a fresh key and all within one window length of the first is allowed at most that many times |
| RateLimiter.InMemoryRateLimiter.constructor | src/main/java/mingovvv/common/ratelimit/impl/InMemoryRateLimiter.java:12-17 | the limiter keeps its window length and maximum and starts with no windows |
| RateLimiter.InMemoryRateLimiter.TryConsume | src/main/java/mingovvv/common/ratelimit/impl/InMemoryRateLimiter.java:24-42 | only the key's window changes, to the window after this call; the result is allowed exactly when the new count is within the maximum, with a non-negative remaining allowance |
| IdempotencyStore.InMemoryIdempotencyStore.constructor | src/main/java/mingovvv/common/idempotency/impl/InMemoryIdempotencyStore.java:12 | a new store is empty |
| IdempotencyStore.InMemoryIdempotencyStore.Get | src/main/java/mingovvv/common/idempotency/impl/InMemoryIdempotencyStore.java:18-28 | an unknown key gives nothing; an entry that expired before now is purged and gives nothing; a live one (expiry at or after now) is returned unchanged; other keys never change |
| IdempotencyStore.InMemoryIdempotencyStore.PutIfAbsent | src/main/java/mingovvv/common/idempotency/impl/InMemoryIdempotencyStore.java:34-38 | stores the response with expiry now + ttl and reports true exactly when the key was absent; never overwrites, even an expired entry not yet purged |
| IdempotencyStore.PutThenGet | src/main/java/mingovvv/common/idempotency/impl/InMemoryIdempotencyStore.java:18-38 | a response stored under a new key is returned by any `get` within its time to live; a refused store leaves the earlier entry to answer |
| RedisConfig.PrefixStringRedisSerializer.Serialize | src/main/java/mingovvv/common/config/RedisConfig.java:145-152 | a null key stays null; every other key comes out starting with the prefix: unchanged when it already has it, prefixed once otherwise |
| RedisConfig.PrefixStringRedisSerializer.Deserialize | src/main/java/mingovvv/common/config/RedisConfig.java:155-162 | null stays null; a stored key with the prefix loses exactly that prefix; any other key is returned unchanged |
| RedisConfig.SerializeIdempotent | src/main/java/mingovvv/common/config/RedisConfig.java:149-151 | serializing twice is the same as serializing once: the prefix is never doubled |
| RedisConfig.DeserializeSerialize | src/main/java/mingovvv/common/config/RedisConfig.java:145-162 | a key that does not already start with the prefix survives the round trip through Redis |
| RedisConfig.PrefixedKeyLosesPrefix | src/main/java/mingovvv/common/config/RedisConfig.java:149-160 | an application key that itself starts with the prefix comes back from the round trip shortened by the prefix, so it does not survive |
| RedisConfig.SerializeDeserialize | src/main/java/mingovvv/common/config/RedisConfig.java:145-162 | a stored key with exactly one leading prefix is written back unchanged after reading it |
| RedisConfig.QueueKeyRoundTrip | src/main/java/mingovvv/common/config/RedisConfig.java:145-162 | with the prefix turnstile:, the key serializer writes queue:EVT001 as turnstile:queue:EVT001 and reads that back as queue:EVT001 (only the object template uses this serializer; the queue, token and seat-lock stores write their keys unprefixed) |
| RedisConfig.ResolveEndpoint | src/main/java/mingovvv/common/config/RedisConfig.java:109-120 | the masked URL when a URL is configured; otherwise host:port when a host is configured; otherwise unknown |
| RedisConfig.EndpointNamesHostAndPort | src/main/java/mingovvv/common/config/RedisConfig.java:114-118 | for a host without a colon, the endpoint splits at its first colon back into the host and the decimal port |
| JwtTokenProvider.ResolveToken | src/main/java/mingovvv/common/security/JwtTokenProvider.java:192-197 | a token is returned exactly when the header is present and starts with the prefix and one space, and the header is then that prefix, the space and the token |
| JwtTokenProvider.ResolveTokenOfHeader | src/main/java/mingovvv/common/security/JwtTokenProvider.java:192-197 | round trip: the header `prefix token` (the form of section 2.1 of RFC 6750) yields exactly the token |
| JwtTokenProvider.SchemeIsCaseSensitive | src/main/java/mingovvv/common/security/JwtTokenProvider.java:193 | `bearer abc` is not accepted for the prefix `Bearer` |
| JwtTokenProvider.SchemeWithoutSpace | src/main/java/mingovvv/common/security/JwtTokenProvider.java:193 | the bare prefix without the space yields no token |
| JwtAuthenticationFilter.AuthorityDelimiter | src/main/java/mingovvv/common/security/JwtAuthenticationFilter.java:181 | the delimiter is a comma exactly when the string holds one, and a single space otherwise |
| JwtAuthenticationFilter.AuthorityPieces | src/main/java/mingovvv/common/security/JwtAuthenticationFilter.java:176-185 | null or blank gives no pieces; otherwise the pieces between delimiters, trimmed, with empty ones dropped, in order: each non-empty, trimmed and free of the delimiter |
| JwtAuthenticationFilter.ParseAuthorities | src/main/java/mingovvv/common/security/JwtAuthenticationFilter.java:175-188 | parsing succeeds exactly when every piece has text, and then yields the pieces; a piece that survives `trim` but is all whitespace (wider Unicode spaces) makes `SimpleGrantedAuthority` throw, which is `None` |
| JwtAuthenticationFilter.AsciiPieceHasText | src/main/java/mingovvv/common/security/JwtAuthenticationFilter.java:184-186 | a non-empty trimmed piece of an ASCII claim has text |
| JwtAuthenticationFilter.AsciiClaimParses | src/main/java/mingovvv/common/security/JwtAuthenticationFilter.java:175-188 | an ASCII claim always parses: no piece can be left without text |
| JwtAuthenticationFilter.JoinedNotBlank | src/main/java/mingovvv/common/security/JwtAuthenticationFilter.java:176 | a list of authorities whose first is not blank joins into a non-blank string |
| JwtAuthenticationFilter.ParseCommaSeparated | src/main/java/mingovvv/common/security/JwtAuthenticationFilter.java:175-188 | round trip: clean authorities joined with commas split back to exactly that list, and parse to it exactly when each has text (otherwise parsing throws) |
| JwtAuthenticationFilter.ParseSpaceSeparated | src/main/java/mingovvv/common/security/JwtAuthenticationFilter.java:175-188 | round trip: clean scopes joined with spaces (an OAuth scope string) split back to exactly that list, and parse to it exactly when each has text (otherwise parsing throws) |
| JwtAuthenticationFilter.BlankPieceRefused | src/main/java/mingovvv/common/security/JwtAuthenticationFilter.java:183-186 | an authority followed by a comma and an all-whitespace piece that `trim` keeps splits into those two pieces, and parsing throws |
| JwtAuthenticationFilter.IdeographicSpacePieceRefused | src/main/java/mingovvv/common/security/JwtAuthenticationFilter.java:183-186 | the claim `ROLE_A,` followed by U+3000 throws while parsing |
| JwtAuthenticationFilter.GrantedAuthorities | src/main/java/mingovvv/common/security/JwtAuthenticationFilter.java:111-119 | the authorities claim is parsed when it has text; a null or blank one falls back to the scope claim; the parse of the chosen claim may throw (`None`) |
| JwtAuthenticationFilter.PrincipalOf | src/main/java/mingovvv/common/security/JwtAuthenticationFilter.java:106-134 | a principal is built exactly when the chosen claim parses and the username is present and non-empty; it carries the granted authorities, each with text |
| JwtAuthenticationFilter.BlankAuthorityPieceRejected | src/main/java/mingovvv/common/security/JwtAuthenticationFilter.java:106-134 | a token whose authorities claim is `ROLE_A,` followed by U+3000 builds no principal, whatever its username |
| JwtAuthenticationFilter.SecurityContext.constructor | src/main/java/mingovvv/common/security/JwtAuthenticationFilter.java:134 | a fresh security context holds no authentication |
| JwtAuthenticationFilter.InvalidTokenRejection | src/main/java/mingovvv/common/security/JwtAuthenticationFilter.java:146-155 | the rejection is HTTP 401 with a failed `AUTH-003` body and no data |
| JwtAuthenticationFilter.DoFilterInternal | src/main/java/mingovvv/common/security/JwtAuthenticationFilter.java:62-98 | the chain runs exactly when nothing is rejected; no bearer token continues unauthenticated; an invalid token, or one whose claims build no principal (no username, or a claim piece without text, caught at lines 89-93), is rejected with 401 and leaves the context alone; a valid one sets the principal and continues |
| OAuth2TokenService.ScopeSet | src/main/java/mingovvv/common/oauth/service/OAuth2TokenService.java:102-116 | the scopes of a space-separated string (section 3.3 of RFC 6749): every element is non-empty, trimmed and free of spaces |
| OAuth2TokenService.GrantedScopes | src/main/java/mingovvv/common/oauth/service/OAuth2TokenService.java:100-132 | a null or blank request grants all the client's scopes; otherwise the request is granted exactly when its scopes are all the client's, and then exactly those are granted; a refusal names the non-empty set of foreign scopes; what is granted is always within the client's scopes |
| OAuth2TokenService.JoinSet | src/main/java/mingovvv/common/oauth/service/OAuth2TokenService.java:109-131 | `String.join` over a set: the set's elements each once, in some order, joined by the separator |
| OAuth2TokenService.JoinSnoc | src/main/java/mingovvv/common/oauth/service/OAuth2TokenService.java:109-131 | joining one more piece appends the separator and that piece |
| OAuth2TokenService.ScopeSetOfJoin | src/main/java/mingovvv/common/oauth/service/OAuth2TokenService.java:109-131 | round trip: splitting the space-joined granted scopes gives back exactly the granted set |
| OAuth2TokenService.ValidateAndGrantScope | src/main/java/mingovvv/common/oauth/service/OAuth2TokenService.java:100-132 | succeeds exactly when the scope rule grants, and the returned string splits into exactly the granted set; otherwise OAUTH_INVALID_SCOPE with a message starting `Invalid scope: ` |
| OAuth2TokenService.ClientHoldsGrantedScopes | src/main/java/mingovvv/common/oauth/service/OAuth2TokenService.java:119-131 | every granted scope passes the client's own `hasScope` |
| OAuth2TokenService.RequestingOwnScopesGrantsAll | src/main/java/mingovvv/common/oauth/service/OAuth2TokenService.java:108-131 | asking for nothing, or for the client's own scope string, grants the whole scope set |
| OAuth2TokenService.IssueToken | src/main/java/mingovvv/common/oauth/service/OAuth2TokenService.java:44-91 | the checks come in order: grant type other than `client_credentials` (section 4.4.2 of RFC 6749), unknown client, disabled client (before the secret), bad secret, then scopes; a success carries the granted scopes, a Bearer token generated for lifetime seconds × 1000 ms, `expires_in` equal to the lifetime and the issue second |
| OAuth2Client.OAuth2Client.constructor | src/main/java/mingovvv/common/oauth/domain/OAuth2Client.java:96-107 | fields are stored as given, except that a missing lifetime becomes 3600 seconds and a missing enabled flag becomes true |
| OAuth2Client.OAuth2Client.HasScope | src/main/java/mingovvv/common/oauth/domain/OAuth2Client.java:115-120 | false for null or blank scopes; otherwise true exactly when the scope text contains the asked scope as a substring |
| OAuth2Client.OAuth2Client.Disable | src/main/java/mingovvv/common/oauth/domain/OAuth2Client.java:125-127 | the client is disabled; every other field is immutable |
| OAuth2Client.OAuth2Client.Enable | src/main/java/mingovvv/common/oauth/domain/OAuth2Client.java:132-134 | the client is enabled; every other field is immutable |
| OAuth2Client.PrefixOfHeldScopeIsHeld | src/main/java/mingovvv/common/oauth/domain/OAuth2Client.java:119 | any prefix of a held scope counts as held too |
| OAuth2Client.ReadMatchesReadUsers | src/main/java/mingovvv/common/oauth/domain/OAuth2Client.java:119 | a client with `read:users write:users` is reported as holding `read` |
| StringUtil.ReplaceLineBreaksAndTabs | src/main/java/mingovvv/common/utils/StringUtil.java:36-37 | the result contains no tab, line feed or carriage return |
| StringUtil.ReplaceRun | src/main/java/mingovvv/common/utils/StringUtil.java:37 | a whole run of tabs and line breaks becomes exactly one space |
| StringUtil.ReplaceLineBreaksAndTabsOfClean | src/main/java/mingovvv/common/utils/StringUtil.java:37 | text without tabs or line breaks is left unchanged |
| StringUtil.CollapseSpaces | src/main/java/mingovvv/common/utils/StringUtil.java:39-40 | the result has no two spaces in a row, and begins with the input's first character |
| StringUtil.CollapseRun | src/main/java/mingovvv/common/utils/StringUtil.java:40 | a whole run of spaces becomes exactly one space |
| StringUtil.CollapseSpacesOfCollapsed | src/main/java/mingovvv/common/utils/StringUtil.java:40 | text without double spaces is left unchanged |
| StringUtil.CollapseKeepsNoLineBreaks | src/main/java/mingovvv/common/utils/StringUtil.java:37-40 | collapsing spaces introduces no tab or line break |
| StringUtil.StripNewlinesAndTabs | src/main/java/mingovvv/common/utils/StringUtil.java:31-44 | null stays null and the empty string stays empty; any other text comes out as one line with no tab or line break, no double space and no leading or trailing whitespace |
| StringUtil.StripIdempotent | src/main/java/mingovvv/common/utils/StringUtil.java:31-44 | cleaning already cleaned text changes nothing |
| StringUtil.ExampleReplaced | src/main/java/mingovvv/common/utils/StringUtil.java:20-37 | the documented input becomes three spaces, hello, a space, world, three spaces, test after the first step |
| StringUtil.ExampleCollapsed | src/main/java/mingovvv/common/utils/StringUtil.java:20-40 | collapsing then gives a single leading space and single spaces between the words |
| StringUtil.DocumentedExample | src/main/java/mingovvv/common/utils/StringUtil.java:20-44 | the documented input comes out as hello world test |
| MaskingUtil.Email | src/main/java/mingovvv/common/utils/MaskingUtil.java:15-18 | null or blank comes back as is; otherwise the length is kept and a character changes only into '*', and only where the pattern "two characters before, an '@' somewhere after" matches it |
| MaskingUtil.EmailOfSingleLine | src/main/java/mingovvv/common/utils/MaskingUtil.java:15-18 | on one-line text, exactly the characters from index 2 on that precede the last '@' become '*' |
| MaskingUtil.EmailOfAddress | src/main/java/mingovvv/common/utils/MaskingUtil.java:12-18 | `local@domain` becomes the first two characters of `local`, stars for the rest of it, then `@domain` |
| MaskingUtil.EmailExample | src/main/java/mingovvv/common/utils/MaskingUtil.java:13 | `mingo@gmail.com` becomes `mi***@gmail.com` |
| MaskingUtil.MatchAt | src/main/java/mingovvv/common/utils/MaskingUtil.java:28-31 | a phone-pattern match starts with a digit, is non-empty and lies within the text |
| MaskingUtil.Phone | src/main/java/mingovvv/common/utils/MaskingUtil.java:24-32 | null or blank comes back as is; text with a hyphen is rewritten with the hyphenated pattern, other text with the eleven-digit pattern |
| MaskingUtil.ReplaceAllWithoutDigits | src/main/java/mingovvv/common/utils/MaskingUtil.java:28-31 | text without digits holds no match and is left alone |
| MaskingUtil.ContiguousKeepsLength | src/main/java/mingovvv/common/utils/MaskingUtil.java:31 | the eleven-digit rewrite never changes the length |
| MaskingUtil.PhoneWithoutDigits | src/main/java/mingovvv/common/utils/MaskingUtil.java:24-32 | a phone text without digits comes back unchanged |
| MaskingUtil.PhoneHyphenated | src/main/java/mingovvv/common/utils/MaskingUtil.java:27-29 | `a-b-c` with 2–3, 3–4 and 4 digits becomes `a-****-c` |
| MaskingUtil.PhoneContiguous | src/main/java/mingovvv/common/utils/MaskingUtil.java:31 | eleven digits keep the first three and the last four, with four stars between |
| MaskingUtil.PhoneHyphenatedExample | src/main/java/mingovvv/common/utils/MaskingUtil.java:21 | `010-1234-5678` becomes `010-****-5678` |
| MaskingUtil.PhoneContiguousExample | src/main/java/mingovvv/common/utils/MaskingUtil.java:22 | `01012345678` becomes `010****5678` |
| MaskingUtil.Name | src/main/java/mingovvv/common/utils/MaskingUtil.java:37-45 | null or blank comes back as is; otherwise the length and the first character are kept and every other character is kept or becomes '*' |
| MaskingUtil.NameOfSingleLine | src/main/java/mingovvv/common/utils/MaskingUtil.java:37-45 | one character is kept; two become the first plus '*'; three or more keep the first and last and star every middle one |
| MaskingUtil.NameExamples | src/main/java/mingovvv/common/utils/MaskingUtil.java:35 | `홍길동` becomes `홍*동` and `홍길` becomes `홍*` |
| MaskingUtil.MaskExceptLast4 | src/main/java/mingovvv/common/utils/MaskingUtil.java:50-53 | null, blank or shorter than four comes back as is; otherwise the length and the last four characters are kept and every earlier one is '*' |
| MaskingUtil.MaskExceptLast4Idempotent | src/main/java/mingovvv/common/utils/MaskingUtil.java:50-53 | masking twice gives the same as masking once |
| MaskingUtil.MaskUserInfo | src/main/java/mingovvv/common/utils/MaskingUtil.java:79-84 | null or blank gives null; without ':' the whole is `***`; otherwise the user before the first ':' is kept and the password becomes `***` |
| MaskingUtil.MaskUserInfoHidesPassword | src/main/java/mingovvv/common/utils/MaskingUtil.java:79-84 | `user:password` becomes `user:***` whatever the password |
| MaskingUtil.MaskUserInfoIdempotent | src/main/java/mingovvv/common/utils/MaskingUtil.java:79-84 | masking already masked user info changes nothing |
| MaskingUtil.MaskUrlBasicAsWritten | src/main/java/mingovvv/common/utils/MaskingUtil.java:86-92 | as written: no '@' leaves the URL alone; otherwise the result ends with `***@` and the text after the first '@' |
| MaskingUtil.MaskUrlBasic | src/main/java/mingovvv/common/utils/MaskingUtil.java:86-92 | corrected: no '@' leaves the URL alone; otherwise the result is `***@` and the text after the first '@', preceded by nothing or by a scheme ending in `://` before the '@' |
| MaskingUtil.MaskUrlBasicKeepsCredentials | src/main/java/mingovvv/common/utils/MaskingUtil.java:89-91 | when the first `://` comes after the first '@', the code as written keeps everything through that '@' |
| MaskingUtil.MaskUrlBasicWithoutLeadingScheme | src/main/java/mingovvv/common/utils/MaskingUtil.java:89-90 | with no `://` before the '@', the corrected function masks from the very start |
| MaskingUtil.MaskUrlBasicLeaksCredentials | src/main/java/mingovvv/common/utils/MaskingUtil.java:58-92 | for credentials followed by a text holding `://`, the code as written outputs the credentials while the corrected function hides them |
| MaskingUtil.LeakingUrlExample | src/main/java/mingovvv/common/utils/MaskingUtil.java:58-92 | `u:pw@h?next=http://x y` (not a parseable URI, so `redisUrl` falls back to this function) meets the conditions of the leak |
| NetworkUtil.UnknownInAnyCaseIsInvalid | src/main/java/mingovvv/common/utils/NetworkUtil.java:11-37 | a header reading `unknown` in any letter case is not a usable address |
| NetworkUtil.OtherTextIsValid | src/main/java/mingovvv/common/utils/NetworkUtil.java:35-37 | any non-blank value of another length than `unknown` is a usable address |
| NetworkUtil.FirstValidHeader | src/main/java/mingovvv/common/utils/NetworkUtil.java:19-37 | a header value it picks is always usable (has text and is not `unknown`) |
| NetworkUtil.FirstValidHeaderAt | src/main/java/mingovvv/common/utils/NetworkUtil.java:19-24 | the first usable header in the fixed order wins, whatever the later ones hold |
| NetworkUtil.FirstValidHeaderNone | src/main/java/mingovvv/common/utils/NetworkUtil.java:19-25 | no header is picked exactly when none of the five is usable |
| NetworkUtil.ChosenIpIsFirstValid | src/main/java/mingovvv/common/utils/NetworkUtil.java:19-25 | the chain of five `if (!isValidIp(ip))` fall-backs equals "first usable header, else the remote address" |
| NetworkUtil.GetClientIp | src/main/java/mingovvv/common/utils/NetworkUtil.java:16-33 | null request gives `unknown`; a chosen value with text and a comma gives its trimmed part before the first comma; any other chosen value (even null or blank) is returned as is |
| NetworkUtil.ListedAddressIsClean | src/main/java/mingovvv/common/utils/NetworkUtil.java:27-30 | the address taken from a comma list is trimmed, holds no comma and is part of the header value |
| NetworkUtil.GetClientIpAsWritten | src/main/java/mingovvv/common/utils/NetworkUtil.java:28-30 | `ip.split(",")[0]` throws exactly when the value has text and `split` returns no pieces |
| NetworkUtil.AsWrittenAgreesWhenItReturns | src/main/java/mingovvv/common/utils/NetworkUtil.java:16-33 | whenever the code as written returns, it returns what the corrected member returns |
| NetworkUtil.SplitAllEmptyPieces | src/main/java/mingovvv/common/utils/NetworkUtil.java:29 | splitting at a character yields only empty pieces exactly when the text is that character repeated |
| NetworkUtil.AsWrittenThrowsOnCommasOnly | src/main/java/mingovvv/common/utils/NetworkUtil.java:28-30 | for a chosen value with text, the code as written throws exactly when the value consists of commas only |
| NetworkUtil.CommaHeaderThrows | src/main/java/mingovvv/common/utils/NetworkUtil.java:19-30 | `X-Forwarded-For: ,` makes the code as written throw, while the corrected member returns the empty string |
| AccessLogFilter.StartsWithAnyExists | src/main/java/mingovvv/common/filter/AccessLogFilter.java:74 | the recursive prefix scan is true exactly when some listed prefix starts the URI (`anyMatch(uri::startsWith)`) |
| AccessLogFilter.ShouldNotFilter | src/main/java/mingovvv/common/filter/AccessLogFilter.java:48-75 | a request is skipped exactly when its URI starts with one of the five pass prefixes |
| AccessLogFilter.PassPrefixSkipsAnyContinuation | src/main/java/mingovvv/common/filter/AccessLogFilter.java:48-75 | every URI under a pass prefix (actuator, swagger, api docs, well-known, favicon), whatever follows it, is skipped |
| AccessLogFilter.ApiRequestsAreLogged | src/main/java/mingovvv/common/filter/AccessLogFilter.java:48-75 | no URI under `/api` is skipped |
| AccessLogFilter.BuildUriWithQuery | src/main/java/mingovvv/common/filter/AccessLogFilter.java:214-216 | a query string with text is appended after `?`; a null or blank one leaves the URI alone |
| AccessLogFilter.BuildUriWithQuerySplitsBack | src/main/java/mingovvv/common/filter/AccessLogFilter.java:214-216 | for a URI without `?`, the first `?` of the logged URI separates exactly the URI and the query string again |
| AccessLogFilter.SanitizeAndTruncateBody | src/main/java/mingovvv/common/filter/AccessLogFilter.java:237-246 | null gives the empty string; otherwise the cleaned body, cut to 2000 characters plus the truncation mark when longer; the result never holds a line break or tab and is at most 2015 long |
| AccessLogFilter.SanitizeKeepsCleanShortBody | src/main/java/mingovvv/common/filter/AccessLogFilter.java:237-246 | a short body that is already trimmed, single-spaced and free of line breaks is logged unchanged |
| AccessLogFilter.SanitizeIdempotentWhenShort | src/main/java/mingovvv/common/filter/AccessLogFilter.java:237-246 | cleaning an already cleaned (untruncated) body changes nothing |
| AccessLogFilter.MultipartInAnyCase | src/main/java/mingovvv/common/filter/AccessLogFilter.java:262-264 | a content type starting with `multipart/` in any letter case is multipart |
| AccessLogFilter.NotMultipartUnlessM | src/main/java/mingovvv/common/filter/AccessLogFilter.java:262-264 | a content type whose first letter is not m/M is never multipart |
| AccessLogFilter.IsMultipartRequest | src/main/java/mingovvv/common/filter/AccessLogFilter.java:262-264 | a multipart content type is present and at least as long as `multipart/` |
| AccessLogFilter.ChooseBranch | src/main/java/mingovvv/common/filter/AccessLogFilter.java:99-124 | multipart or download logs no bodies; otherwise stream logs only the request body; otherwise both bodies are logged (each an if-and-only-if) |
| AccessLogFilter.ResponseBodyLogOf | src/main/java/mingovvv/common/filter/AccessLogFilter.java:178-196 | `/whoami` in any case gives no response line; otherwise an octet-stream content type skips the body; otherwise the logged body is clean and bounded |
| AccessLogFilter.NextSequence | src/main/java/mingovvv/common/filter/AccessLogFilter.java:139 | the 64-bit increment: one more below the maximum, wrapping to the minimum at it, always within the `long` range |
| AccessLogFilter.AccessLogFilter.constructor | src/main/java/mingovvv/common/filter/AccessLogFilter.java:63 | the request sequence starts at 0 |
| AccessLogFilter.AccessLogFilter.NextRequestId | src/main/java/mingovvv/common/filter/AccessLogFilter.java:139 | `incrementAndGet`: the returned id is the new counter value, larger than the old one unless it wrapped |
| AccessLogFilter.AccessLogFilter.Filter | src/main/java/mingovvv/common/filter/AccessLogFilter.java:92-124 | a skipped URI draws no id and logs nothing; any other request draws exactly one id and logs its URI with query, method, client IP and, unless the basic branch is taken, its cleaned body |
| AccessLogFilter.IdsIncrease | src/main/java/mingovvv/common/filter/AccessLogFilter.java:63-139 | k successive requests receive the ids start+1 … start+k, strictly increasing |
| RestClientBuilder.PutPairsKeys | src/main/java/mingovvv/common/http/config/RestClientBuilder.java:43-51 | putting an even list of pairs adds exactly their keys, and leaves every other key and its value alone |
| RestClientBuilder.LastPairWins | src/main/java/mingovvv/common/http/config/RestClientBuilder.java:47-49 | a key ends with the value of the last pair that names it |
| RestClientBuilder.RestClientBuilder.constructor | src/main/java/mingovvv/common/http/config/RestClientBuilder.java:14-21 | a new builder has no URL, 5000 ms for both timeouts, no interceptors and no headers |
| RestClientBuilder.RestClientBuilder.Url | src/main/java/mingovvv/common/http/config/RestClientBuilder.java:23-26 | sets the base URL only and returns the same builder |
| RestClientBuilder.RestClientBuilder.ConnectionTimeout | src/main/java/mingovvv/common/http/config/RestClientBuilder.java:28-31 | sets the connection timeout only and returns the same builder |
| RestClientBuilder.RestClientBuilder.ReadTimeout | src/main/java/mingovvv/common/http/config/RestClientBuilder.java:33-36 | sets the read timeout only and returns the same builder |
| RestClientBuilder.RestClientBuilder.RequestInterceptors | src/main/java/mingovvv/common/http/config/RestClientBuilder.java:38-41 | replaces the interceptor list (does not append) and returns the same builder |
| RestClientBuilder.RestClientBuilder.Headers | src/main/java/mingovvv/common/http/config/RestClientBuilder.java:43-51 | an odd argument count fails with "Headers must be key-value pairs" and changes nothing; otherwise the headers become the old ones with every pair put in order |
| PageRequestDto.PageRequestOf | src/main/java/mingovvv/common/model/PageRequestDto.java:25-29 | the page request is built exactly when the zero-based page is not negative and the size is at least one, and then carries the given page, size and sort |
| PageRequestDto.NewPageRequestDto | src/main/java/mingovvv/common/model/PageRequestDto.java:8-21 | page and size are always at least 1: values below 1 become 1 and 10, other values are kept |
| PageRequestDto.NewPageRequestDtoIdempotent | src/main/java/mingovvv/common/model/PageRequestDto.java:18-21 | building a request from an already built one changes nothing |
| PageRequestDto.ToPageableSucceeds | src/main/java/mingovvv/common/model/PageRequestDto.java:24-26 | the default conversion never fails and gives the zero-based page, the size and newest-first by `createdAt` |
| PageRequestDto.ToPageableSortedSucceeds | src/main/java/mingovvv/common/model/PageRequestDto.java:28-30 | the conversion with a given sort never fails and keeps that sort |
| EnumValidator.Annotation | src/main/java/mingovvv/common/annotation/ValidEnum.java:23-26 | the annotation keeps its enum constants; `ignoreCase` defaults to false when not given |
| EnumValidator.AnyMatchExists | src/main/java/mingovvv/common/annotation/EnumValidator.java:32-39 | the scan over the constants is true exactly when some constant matches the value |
| EnumValidator.IsValid | src/main/java/mingovvv/common/annotation/EnumValidator.java:18-40 | null or blank values are valid; with no enum constants any other value is invalid; otherwise a value is valid exactly when it equals a constant (ignoring case when the annotation says so) |
| EnumValidator.IgnoreCaseAcceptsMore | src/main/java/mingovvv/common/annotation/EnumValidator.java:34-38 | every value accepted case-sensitively is also accepted when case is ignored |
| EnumValidator.DefaultIsCaseSensitive | src/main/java/mingovvv/common/annotation/ValidEnum.java:26 | under the default annotation, a non-blank value that is not literally one of the constants is refused |

## Left out

- **Concurrency.** Every operation is one sequential step. The model does
  not capture these:
  - `ConcurrentHashMap`, `AtomicLong` and `AtomicInteger`, and the
    `synchronized` window update of the rate limiter;
  - the atomicity of the Lua scripts, which is taken as given;
  - interleavings between the two store calls of `popFront`;
  - several scheduler instances running at once.
- **Floating point.** The queue score as the code computes it is modelled
  only to exhibit the tie it causes (see Findings). The rest of the model
  ranks by the exact integer score.
- **Time, randomness and identifiers.** The clock, `UUID.randomUUID` and
  the mock payment's `random.nextDouble() < 0.8` draw are parameters.
- **Redis.**
  - Keys are strings with an expiry instant; values are strings. Keys
    without a lifetime (TTL -1) never occur in the modelled stores, so that
    case is not modelled.
  - SCAN is taken to visit each matching live key once. Redis may return a
    key twice, which would over-count.
  - A SCAN `MATCH` pattern `prefix*` is read as a plain prefix match. This
    holds only when the prefix has no glob metacharacter (`*`, `?`, `[`,
    `\`), and event ids are taken to have none.
  - Byte encodings of keys and values, and Jackson JSON values, are not
    modelled.
  - Redis orders members with equal ZSET scores by the member string. The
    model keeps equal scores in insertion order. With exact scores, a later
    arrival with a larger counter always scores higher
    (`QueueStore.ScoreOrdersArrivals`); see Findings for the floating-point
    tie.
- **HTTP and I/O plumbing.**
  - Controllers, servlet filters other than those modelled, exception
    handlers and request wrappers are not modelled.
  - From AccessLogFilter: MDC, logging and the body-caching wrappers. The
    download and stream URI regular expressions are boolean inputs.
  - SSE emitter I/O: a write either succeeds or fails, as a parameter.
  - Header names are exact map keys, whereas servlet header lookup ignores
    case.
- **Foreign libraries.** These are not part of this model, and each is
  either a parameter or absent:
  - JWT signing, parsing and validation (jjwt);
  - `PasswordEncoder`;
  - `RestClientBuilder.build` and the HTTP client;
  - Resilience4j;
  - `MaskingUtil.redisUrl`'s `java.net.URI` path, which is a parameter of
    `ResolveEndpoint`;
  - JsonUtil, DateUtil and MDCUtil.
- **Configuration and wiring.** Bean methods, properties classes and
  `pingRedis` are not modelled. Of RedisConfig only the serializer and
  `resolveEndpoint` are modelled.
- **Text.**
  - Strings are sequences of characters, not UTF-16 code units.
  - Case folding covers ASCII letters only.
  - Regular expressions are modelled by their match semantics on the
    patterns used, not by a general regex engine.
- **Integer widths.** These widths are not modelled:
  - the `(int)` casts of the estimated wait and of the free slots;
  - `long` totals;
  - rate-limiter counters.

  Values are unbounded integers; the access-log sequence is the one place
  where the `long` range is modelled.
- **Dead or unused code.**
  - `SeatLockResponse.failed`: never called.
  - `Event.updateStatus`: never called. Events are values.
  - `Payment.success`, `Payment.fail` and `Payment.isSuccess`: payments are
    built in their final state.
  - `EnumValidator.initialize`: only stores the annotation.
  - The `default` branch of `lockSeat`'s switch: `LockResult` has only
    three values.
- **Pure response mappings.** `EventResponseOf`, `PaymentResponseOf`,
  `ReservationResponseOf` and `SeatRepository.SeatMemoryRepository.FindAll`
  copy fields or return the stored values, so they carry no contract.
- **Validation annotations.** `PageRequestDto`'s Spring validation
  annotations are not modelled; only the clamping in its compact
  constructor is.

Weaker contracts:

- SseRegistry.QueueSseEmitterRegistry.GetEmitterCountByEventId: bounds the count (at most all connections, at least one when a user of the event is connected) instead of equating it with the number of that event's users. A key that starts with `eventId:` may also belong to an event whose own id contains a colon.
- TokenStore.TokenRedisRepository.TokenHolders: states only that every holder of the event is counted, not the converse. The scan pattern `token:{eventId}:*` also matches the keys of an event whose id begins with `eventId:`. Event ids are also taken to hold no glob metacharacter (`*`, `?`, `[`, `\`): with one, the pattern matches other keys than those with the prefix `token:{eventId}:`, and the model does not follow it.
- AccessLogFilter.AccessLogFilter.Filter: logs the client address computed by the corrected `NetworkUtil.GetClientIp`. On an `X-Forwarded-For` header made only of commas, the filter as written throws after drawing the request id (see Findings); that throw is not modelled.
- Scheduler.QueueProcessorScheduler.ProcessQueue: the per-event try/catch (QueueProcessorScheduler.java:39-45) is not modelled, because no modelled step of a pass fails and Redis failures are not modelled. The token outcome is stated only when no event id contains ':', since otherwise one event's scan pattern also matches another's token keys.
- QueueService.QueueService.ProcessQueue: states an upper bound on the new token holders, not their exact number, because re-admitting a user who already holds a token does not add a key.
- RedisValues.LiveKeysWithPrefix: a plain prefix match. A Redis SCAN `MATCH` pattern is a glob in which `*`, `?`, `[` and `\` are metacharacters, so `prefix*` matches the keys that start with `prefix` only when `prefix` holds none of them; the prefixes scanned are taken to hold none.
- TokenStore.TokenRedisRepository.CountByEventId: counts the keys `TokenHolders` finds, so it shares that assumption: event ids hold no glob metacharacter.

## Findings

| source | as written | input that shows it | evidently intended | confidence | as-written member | corrected member |
|---|---|---|---|---|---|---|
| src/main/java/mingovvv/turnstile/repository/redis/QueueRedisRepository.java:45 | the score `timestamp * 1_000_000.0 + sequence` is a double, and at current epoch milliseconds neighbouring doubles are 256 apart | two users entering in millisecond 1_700_000_000_000 with sequence numbers 1 and 2 | arrivals in the same millisecond rank in sequence order, as the comment at lines 27-29 says | not executed | QueueStore.SameMillisecondArrivalsTie | QueueStore.ScoreOrdersArrivals |
| src/main/java/mingovvv/turnstile/sse/QueueSseEmitterRegistry.java:38-51 | the completion, timeout and error callbacks remove whatever emitter is stored under their key | a user reconnects: `register` completes the old emitter, and that emitter's completion callback then removes the new one | a callback removes its key only while the key still names its own emitter | not executed | SseRegistry.ReplacedEmitterCallbackDropsReplacement | SseRegistry.StaleCallbackKeepsReplacement |
| src/main/java/mingovvv/turnstile/repository/memory/PaymentMemoryRepository.java:30-34 | `findByReservationId` calls `getReservationId().equals(...)` on every payment, but a FAILED payment is stored with a null reservation id | one FAILED payment stored, then any lookup by reservation id | payments without a reservation id are skipped | not executed | PaymentRepository.FailedPaymentBreaksLookup | PaymentRepository.FindFirst |
| src/main/java/mingovvv/common/utils/NetworkUtil.java:28-30 | `ip.split(",")[0]` on a header made only of commas: `split` drops the trailing empty strings and returns an empty array | request header `X-Forwarded-For: ,` | the part before the first comma (here the empty string), never an exception | not executed | NetworkUtil.CommaHeaderThrows | NetworkUtil.GetClientIp |
| src/main/java/mingovvv/common/utils/MaskingUtil.java:86-92 | the scheme is located with the first `://` anywhere in the URL, even after the '@', and the text up to it is kept | `u:pw@h?next=http://x y` | only a scheme before the '@' is kept, so the credentials are always hidden | not executed | MaskingUtil.MaskUrlBasicLeaksCredentials | MaskingUtil.MaskUrlBasic |
