/**
 * The waiting room: entering and leaving an event's queue, the status a
 * user sees, and the admission step that pops users off the front, gives
 * each an entry token and pushes the news to the open connections.
 */
module QueueService {

  import opened Wrappers
  import opened Errors
  import opened Responses
  import EventService
  import QueueStore
  import TokenStore
  import RedisValues
  import SseRegistry
  import Domain

  /** Seconds of expected wait per position ahead. */
  const AVG_PROCESSING_TIME_PER_USER: int := 3

  /** How many waiting users a broadcast reaches. */
  const BROADCAST_LIMIT: int := 100

  /** The QUEUE_UPDATE for the i-th of `users`: rank i of `total`, three seconds per place ahead. */
  function RankUpdates(eventId: string, users: seq<string>, total: nat): seq<QueueSseEvent>
  {
    seq(|users|, i requires 0 <= i < |users| => QueueUpdate(eventId, users[i], i, total, i * AVG_PROCESSING_TIME_PER_USER))
  }

  /** The TOKEN_ISSUED for the i-th of `users`, carrying `tokens(i)`. */
  function TokenGrants(eventId: string, users: seq<string>, tokens: nat -> string): seq<QueueSseEvent>
  {
    seq(|users|, i requires 0 <= i < |users| => TokenIssued(eventId, users[i], tokens(i)))
  }

  class QueueService {
    const eventService: EventService.EventService
    const queueRepository: QueueStore.QueueRedisRepository
    const tokenRepository: TokenStore.TokenRedisRepository
    const sseRegistry: SseRegistry.QueueSseEmitterRegistry

    constructor (eventService: EventService.EventService, queueRepository: QueueStore.QueueRedisRepository,
                 tokenRepository: TokenStore.TokenRedisRepository, sseRegistry: SseRegistry.QueueSseEmitterRegistry)
      ensures this.eventService == eventService && this.queueRepository == queueRepository
      ensures this.tokenRepository == tokenRepository && this.sseRegistry == sseRegistry
    {
      this.eventService := eventService;
      this.queueRepository := queueRepository;
      this.tokenRepository := tokenRepository;
      this.sseRegistry := sseRegistry;
    }

    /**
     * `getQueueStatus`: a user holding a token may enter; otherwise a
     * queued user sees the 0-based rank, the queue size and three seconds
     * per position ahead; anyone else is not in the queue.
     */
    function GetQueueStatus(eventId: string, userId: string, now: int): (r: QueueStatusResponse)
      reads tokenRepository, queueRepository
      ensures StateOf(r) == CAN_ENTER <==> tokenRepository.HasToken(eventId, userId, now)
      ensures StateOf(r) == WAITING <==> !tokenRepository.HasToken(eventId, userId, now) && queueRepository.IsInQueue(eventId, userId)
      ensures r.canEnter ==> r.token == tokenRepository.GetToken(eventId, userId, now)
      ensures StateOf(r) == WAITING ==>
        Some(r.position as nat) == queueRepository.GetPosition(eventId, userId) &&
        r.position < r.totalWaiting == queueRepository.GetTotalWaiting(eventId) &&
        r.estimatedWaitSeconds == AVG_PROCESSING_TIME_PER_USER * r.position
    {
      match tokenRepository.GetToken(eventId, userId, now)
      case Some(token) => CanEnter(eventId, userId, token)
      case None =>
        match queueRepository.GetPosition(eventId, userId)
        case None => NotInQueue(eventId, userId)
        case Some(position) =>
          var totalWaiting := queueRepository.GetTotalWaiting(eventId);
          Waiting(eventId, userId, position, totalWaiting, position * AVG_PROCESSING_TIME_PER_USER)
    }

    /**
     * `enterQueue`: the event must exist and be open; a token holder is told
     * to enter; a queued user is refused with ALREADY_IN_QUEUE; anyone else
     * joins behind everyone queued before, with the arrival time
     * `timestamp` (milliseconds), and gets the status afterwards.
     */
    method EnterQueue(eventId: string, userId: string, timestamp: int, now: int) returns (r: Result<QueueStatusResponse, TurnstileException>)
      requires queueRepository.Valid()
      modifies queueRepository
      ensures queueRepository.Valid()
      ensures eventService.ValidateEventOpen(eventId).Err? ==>
        r == Err(eventService.ValidateEventOpen(eventId).error) &&
        queueRepository.queues == old(queueRepository.queues) && queueRepository.sequences == old(queueRepository.sequences)
      ensures eventService.ValidateEventOpen(eventId).Ok? && tokenRepository.HasToken(eventId, userId, now) ==>
        r == Ok(CanEnter(eventId, userId, tokenRepository.GetToken(eventId, userId, now).value)) &&
        queueRepository.queues == old(queueRepository.queues) && queueRepository.sequences == old(queueRepository.sequences)
      ensures eventService.ValidateEventOpen(eventId).Ok? && !tokenRepository.HasToken(eventId, userId, now) &&
              old(queueRepository.IsInQueue(eventId, userId)) ==>
        r == Err(RaiseWith(ALREADY_IN_QUEUE, userId)) &&
        queueRepository.queues == old(queueRepository.queues) && queueRepository.sequences == old(queueRepository.sequences)
      ensures eventService.ValidateEventOpen(eventId).Ok? && !tokenRepository.HasToken(eventId, userId, now) &&
              !old(queueRepository.IsInQueue(eventId, userId)) ==>
        queueRepository.queues == old(queueRepository.queues)[eventId :=
          QueueStore.Add(old(queueRepository.Queue(eventId)), userId,
                         QueueStore.Score(timestamp, old(queueRepository.Sequence(eventId)) + 1))] &&
        queueRepository.sequences == old(queueRepository.sequences)[eventId := old(queueRepository.Sequence(eventId)) + 1] &&
        r == Ok(GetQueueStatus(eventId, userId, now)) && StateOf(r.value) == WAITING
      ensures queueRepository.queues != old(queueRepository.queues) ==> queueRepository.IsInQueue(eventId, userId)
    {
      var found := eventService.FindEventOrThrow(eventId);
      if found.Err? {
        return Err(found.error);
      }
      var open := eventService.ValidateEventOpen(eventId);
      if open.Err? {
        return Err(open.error);
      }
      if tokenRepository.HasToken(eventId, userId, now) {
        var token := tokenRepository.GetToken(eventId, userId, now);
        return Ok(CanEnter(eventId, userId, token.value));
      }
      if queueRepository.IsInQueue(eventId, userId) {
        return Err(RaiseWith(ALREADY_IN_QUEUE, userId));
      }
      ghost var queued, last := queueRepository.Queue(eventId), queueRepository.Sequence(eventId);
      var sequence := queueRepository.Enter(eventId, userId, timestamp);
      assert sequence == last + 1;
      assert queueRepository.queues == old(queueRepository.queues)[eventId := QueueStore.Add(queued, userId, QueueStore.Score(timestamp, last + 1))];
      assert queueRepository.IsInQueue(eventId, userId);
      r := Ok(GetQueueStatus(eventId, userId, now));
    }

    /** `leaveQueue`: removes a queued user; anyone else gets NOT_IN_QUEUE. */
    method LeaveQueue(eventId: string, userId: string) returns (r: Result<Unit, TurnstileException>)
      requires queueRepository.Valid()
      modifies queueRepository
      ensures queueRepository.Valid()
      ensures r.Ok? <==> old(queueRepository.IsInQueue(eventId, userId))
      ensures r.Err? ==> r.error == RaiseWith(ErrorCode.NOT_IN_QUEUE, userId)
      ensures queueRepository.queues == old(queueRepository.queues)[eventId := QueueStore.Without(old(queueRepository.Queue(eventId)), userId)]
      ensures !queueRepository.IsInQueue(eventId, userId)
    {
      var removed := queueRepository.Leave(eventId, userId);
      if !removed {
        return Err(RaiseWith(ErrorCode.NOT_IN_QUEUE, userId));
      }
      r := Ok(Unit);
    }

    /** A push that tells a waiting user their current rank. */
    ghost predicate IsRankUpdate(eventId: string, d: SseRegistry.Delivery)
      reads queueRepository
    {
      d.name == QUEUE_UPDATE && d.event.eventId == eventId &&
      queueRepository.GetPosition(eventId, d.event.userId).Some? &&
      var position := queueRepository.GetPosition(eventId, d.event.userId).value;
      d.event == QueueUpdate(eventId, d.event.userId, position, queueRepository.GetTotalWaiting(eventId),
                             position * AVG_PROCESSING_TIME_PER_USER)
    }

    /** A push that hands a user the entry token they now hold. */
    ghost predicate IsTokenGrant(eventId: string, d: SseRegistry.Delivery, now: int)
      reads tokenRepository
    {
      d.name == TOKEN_ISSUED && d.event.eventId == eventId &&
      tokenRepository.GetToken(eventId, d.event.userId, now).Some? &&
      d.event == TokenIssued(eventId, d.event.userId, tokenRepository.GetToken(eventId, d.event.userId, now).value)
    }

    /**
     * `broadcastQueueUpdate`: each of the first hundred waiting users, in
     * rank order, is sent their rank, the queue size and the estimate;
     * those without a connection get nothing, and those whose connection
     * fails on write (`unreachable`) lose it.
     */
    method BroadcastQueueUpdate(eventId: string, unreachable: set<string>)
      requires queueRepository.Valid() && sseRegistry.Valid()
      modifies sseRegistry
      ensures sseRegistry.Valid()
      ensures var users := queueRepository.GetTopUsers(eventId, BROADCAST_LIMIT);
        var events := RankUpdates(eventId, users, queueRepository.GetTotalWaiting(eventId));
        sseRegistry.delivered == old(sseRegistry.delivered) +
                                 SseRegistry.Pushes(old(sseRegistry.emitters), eventId, users, events, unreachable) &&
        sseRegistry.emitters == old(sseRegistry.emitters) - SseRegistry.Dropped(eventId, users, unreachable)
      ensures sseRegistry.nextHandle == old(sseRegistry.nextHandle) && sseRegistry.completed == old(sseRegistry.completed)
      ensures forall k | |old(sseRegistry.delivered)| <= k < |sseRegistry.delivered| ::
                IsRankUpdate(eventId, sseRegistry.delivered[k]) && sseRegistry.delivered[k].event.position.value < BROADCAST_LIMIT
    {
      var totalWaiting := queueRepository.GetTotalWaiting(eventId);
      var waitingUsers := queueRepository.GetTopUsers(eventId, BROADCAST_LIMIT);
      ghost var events := RankUpdates(eventId, waitingUsers, totalWaiting);
      ghost var m0, d0 := sseRegistry.emitters, sseRegistry.delivered;
      var i := 0;
      while i < |waitingUsers|
        invariant 0 <= i <= |waitingUsers|
        invariant sseRegistry.Valid()
        invariant sseRegistry.delivered == d0 + SseRegistry.Pushes(m0, eventId, waitingUsers[..i], events[..i], unreachable)
        invariant sseRegistry.emitters == m0 - SseRegistry.Dropped(eventId, waitingUsers[..i], unreachable)
        invariant sseRegistry.nextHandle == old(sseRegistry.nextHandle) && sseRegistry.completed == old(sseRegistry.completed)
      {
        var userId := waitingUsers[i];
        var position := queueRepository.GetPosition(eventId, userId);
        assert position == Some(i) by {
          var q := queueRepository.Queue(eventId);
          assert q[..|waitingUsers|][i] == q[i];
          QueueStore.RankIsUnique(q, userId, i);
        }
        if position.Some? {
          var estimatedWait := position.value * AVG_PROCESSING_TIME_PER_USER;
          var event := QueueUpdate(eventId, userId, position.value, totalWaiting, estimatedWait);
          assert event == events[i];
          sseRegistry.Send(eventId, userId, event, userId in unreachable);
          SseRegistry.SendContinuesRun(m0, d0, eventId, waitingUsers, events, unreachable, i,
                                       sseRegistry.emitters, sseRegistry.delivered);
        }
        i := i + 1;
      }
      assert waitingUsers[..i] == waitingUsers && events[..i] == events;
      RankPushesAreUpdates(eventId, m0, unreachable);
      forall k | |d0| <= k < |sseRegistry.delivered|
        ensures IsRankUpdate(eventId, sseRegistry.delivered[k]) && sseRegistry.delivered[k].event.position.value < BROADCAST_LIMIT
      {
        assert sseRegistry.delivered[k] == SseRegistry.Pushes(m0, eventId, waitingUsers, events, unreachable)[k - |d0|];
      }
    }

    /** Every push of a broadcast tells its user the rank the queue now gives them, which is below a hundred. */
    lemma RankPushesAreUpdates(eventId: string, m: SseRegistry.Emitters, unreachable: set<string>)
      requires queueRepository.Valid()
      ensures var users := queueRepository.GetTopUsers(eventId, BROADCAST_LIMIT);
        forall d | d in SseRegistry.Pushes(m, eventId, users, RankUpdates(eventId, users, queueRepository.GetTotalWaiting(eventId)), unreachable) ::
          IsRankUpdate(eventId, d) && d.event.position.value < BROADCAST_LIMIT
    {
      var users := queueRepository.GetTopUsers(eventId, BROADCAST_LIMIT);
      var events := RankUpdates(eventId, users, queueRepository.GetTotalWaiting(eventId));
      SseRegistry.PushesReach(m, eventId, users, events, unreachable);
      forall d | d in SseRegistry.Pushes(m, eventId, users, events, unreachable)
        ensures IsRankUpdate(eventId, d) && d.event.position.value < BROADCAST_LIMIT
      {
        var j :| 0 <= j < |users| && Domain.CompositeKey(eventId, users[j]) in m &&
                 users[j] !in unreachable && d == SseRegistry.PushTo(m, eventId, users, events, j);
        var q := queueRepository.Queue(eventId);
        assert q[..|users|][j] == q[j];
        QueueStore.RankIsUnique(q, users[j], j);
      }
    }

    /**
     * `processQueue`: pops up to `count` users off the front, issues each
     * an entry token (`uuid(i)` for the i-th), pushes it to them, then
     * broadcasts the new ranks; nothing is broadcast when nobody was
     * popped. Returns how many were admitted.
     */
    method ProcessQueue(eventId: string, count: int, uuid: nat -> string, unreachable: set<string>, now: int)
      returns (processed: nat)
      requires queueRepository.Valid() && sseRegistry.Valid()
      modifies queueRepository, tokenRepository, sseRegistry
      ensures queueRepository.Valid() && sseRegistry.Valid()
      ensures var admitted := old(queueRepository.GetTopUsers(eventId, count));
        processed == |admitted| &&
        queueRepository.queues == (if processed == 0 then old(queueRepository.queues)
                                   else old(queueRepository.queues)[eventId := old(queueRepository.Queue(eventId))[processed..]]) &&
        queueRepository.sequences == old(queueRepository.sequences) &&
        tokenRepository.store == TokenStore.IssuedAll(old(tokenRepository.store), eventId, admitted, uuid, now) &&
        forall i | 0 <= i < processed :: tokenRepository.GetToken(eventId, admitted[i], now) == Some(uuid(i))
      ensures count >= 1 ==> processed <= count
      ensures |tokenRepository.TokenHolders(eventId, now)| <= |old(tokenRepository.TokenHolders(eventId, now))| + processed
      ensures sseRegistry.nextHandle == old(sseRegistry.nextHandle) && sseRegistry.completed == old(sseRegistry.completed)
      ensures processed == 0 ==> sseRegistry.emitters == old(sseRegistry.emitters) && sseRegistry.delivered == old(sseRegistry.delivered)
      ensures processed > 0 ==>
        var admitted := old(queueRepository.GetTopUsers(eventId, count));
        var waiting := queueRepository.GetTopUsers(eventId, BROADCAST_LIMIT);
        var afterGrants := old(sseRegistry.emitters) - SseRegistry.Dropped(eventId, admitted, unreachable);
        sseRegistry.delivered == old(sseRegistry.delivered) +
          SseRegistry.Pushes(old(sseRegistry.emitters), eventId, admitted, TokenGrants(eventId, admitted, uuid), unreachable) +
          SseRegistry.Pushes(afterGrants, eventId, waiting, RankUpdates(eventId, waiting, queueRepository.GetTotalWaiting(eventId)), unreachable) &&
        sseRegistry.emitters == afterGrants - SseRegistry.Dropped(eventId, waiting, unreachable)
      ensures forall k | |old(sseRegistry.delivered)| <= k < |sseRegistry.delivered| ::
        IsTokenGrant(eventId, sseRegistry.delivered[k], now) || IsRankUpdate(eventId, sseRegistry.delivered[k])
    {
      var users := queueRepository.PopFront(eventId, count);
      if users == [] {
        return 0;
      }
      IssueTokens(eventId, users, uuid, unreachable, now);
      ghost var granted := sseRegistry.delivered;
      BroadcastQueueUpdate(eventId, unreachable);
      assert forall k | |old(sseRegistry.delivered)| <= k < |granted| :: sseRegistry.delivered[k] == granted[k];
      processed := |users|;
    }

    /**
     * The loop of `processQueue` over the admitted users: the i-th gets the
     * token `uuid(i)` and, when connected, a push carrying it.
     */
    method IssueTokens(eventId: string, users: seq<string>, uuid: nat -> string, unreachable: set<string>, now: int)
      requires sseRegistry.Valid()
      requires forall j, k | 0 <= j < k < |users| :: users[j] != users[k]
      modifies tokenRepository, sseRegistry
      ensures sseRegistry.Valid()
      ensures tokenRepository.store == TokenStore.IssuedAll(old(tokenRepository.store), eventId, users, uuid, now)
      ensures forall j | 0 <= j < |users| :: tokenRepository.GetToken(eventId, users[j], now) == Some(uuid(j))
      ensures |tokenRepository.TokenHolders(eventId, now)| <= |old(tokenRepository.TokenHolders(eventId, now))| + |users|
      ensures sseRegistry.delivered == old(sseRegistry.delivered) +
                SseRegistry.Pushes(old(sseRegistry.emitters), eventId, users, TokenGrants(eventId, users, uuid), unreachable)
      ensures sseRegistry.emitters == old(sseRegistry.emitters) - SseRegistry.Dropped(eventId, users, unreachable)
      ensures sseRegistry.nextHandle == old(sseRegistry.nextHandle) && sseRegistry.completed == old(sseRegistry.completed)
      ensures forall k | |old(sseRegistry.delivered)| <= k < |sseRegistry.delivered| :: IsTokenGrant(eventId, sseRegistry.delivered[k], now)
    {
      ghost var store0, m0, d0 := tokenRepository.store, sseRegistry.emitters, sseRegistry.delivered;
      ghost var events := TokenGrants(eventId, users, uuid);
      var i := 0;
      while i < |users|
        invariant 0 <= i <= |users|
        invariant sseRegistry.Valid()
        invariant tokenRepository.store == TokenStore.IssuedAll(store0, eventId, users[..i], uuid, now)
        invariant sseRegistry.delivered == d0 + SseRegistry.Pushes(m0, eventId, users[..i], events[..i], unreachable)
        invariant sseRegistry.emitters == m0 - SseRegistry.Dropped(eventId, users[..i], unreachable)
        invariant sseRegistry.nextHandle == old(sseRegistry.nextHandle) && sseRegistry.completed == old(sseRegistry.completed)
      {
        assert users[..i + 1][..i] == users[..i];
        assert events[i] == TokenIssued(eventId, users[i], uuid(i));
        GrantToken(eventId, users[i], uuid(i), unreachable, now);
        SseRegistry.SendContinuesRun(m0, d0, eventId, users, events, unreachable, i,
                                     sseRegistry.emitters, sseRegistry.delivered);
        i := i + 1;
      }
      assert users[..i] == users && events[..i] == events;
      TokenStore.IssuedAllTokens(store0, eventId, users, uuid, now);
      TokenStore.IssuedAllHolders(store0, eventId, users, uuid, now);
      TokenPushesAreGrants(eventId, users, uuid, m0, unreachable, now);
      forall k | |d0| <= k < |sseRegistry.delivered|
        ensures IsTokenGrant(eventId, sseRegistry.delivered[k], now)
      {
        assert sseRegistry.delivered[k] == SseRegistry.Pushes(m0, eventId, users, events, unreachable)[k - |d0|];
      }
    }

    /** Once the users hold their tokens, every push of a token run hands a user the token they hold. */
    lemma TokenPushesAreGrants(eventId: string, users: seq<string>, uuid: nat -> string, m: SseRegistry.Emitters,
                               unreachable: set<string>, now: int)
      requires forall j | 0 <= j < |users| :: tokenRepository.GetToken(eventId, users[j], now) == Some(uuid(j))
      ensures forall d | d in SseRegistry.Pushes(m, eventId, users, TokenGrants(eventId, users, uuid), unreachable) ::
                IsTokenGrant(eventId, d, now)
    {
      var events := TokenGrants(eventId, users, uuid);
      SseRegistry.PushesReach(m, eventId, users, events, unreachable);
      forall d | d in SseRegistry.Pushes(m, eventId, users, events, unreachable)
        ensures IsTokenGrant(eventId, d, now)
      {
        var j :| 0 <= j < |users| && Domain.CompositeKey(eventId, users[j]) in m &&
                 users[j] !in unreachable && d == SseRegistry.PushTo(m, eventId, users, events, j);
        assert tokenRepository.GetToken(eventId, users[j], now) == Some(uuid(j));
      }
    }

    /**
     * One step of `processQueue`'s loop: issue the token, then push it to the
     * user's connection; a user without one gets nothing, and one whose
     * connection fails on write loses it.
     */
    method GrantToken(eventId: string, userId: string, token: string, unreachable: set<string>, now: int)
      requires sseRegistry.Valid()
      modifies tokenRepository, sseRegistry
      ensures sseRegistry.Valid()
      ensures tokenRepository.store == RedisValues.SetEx(old(tokenRepository.store), TokenStore.TokenKey(eventId, userId),
                                                      token, TokenStore.TOKEN_TTL_SECONDS, now)
      ensures var key := Domain.CompositeKey(eventId, userId);
        if key !in old(sseRegistry.emitters) then
          sseRegistry.emitters == old(sseRegistry.emitters) && sseRegistry.delivered == old(sseRegistry.delivered)
        else if userId in unreachable then
          sseRegistry.emitters == old(sseRegistry.emitters) - {key} && sseRegistry.delivered == old(sseRegistry.delivered)
        else
          sseRegistry.emitters == old(sseRegistry.emitters) &&
          sseRegistry.delivered == old(sseRegistry.delivered) +
                                   [SseRegistry.Delivery(old(sseRegistry.emitters)[key], TOKEN_ISSUED, TokenIssued(eventId, userId, token))]
      ensures sseRegistry.nextHandle == old(sseRegistry.nextHandle) && sseRegistry.completed == old(sseRegistry.completed)
    {
      var issued := tokenRepository.IssueToken(eventId, userId, token, now);
      sseRegistry.Send(eventId, userId, TokenIssued(eventId, userId, issued), userId in unreachable);
    }

    /** `getTotalWaiting`. */
    function GetTotalWaiting(eventId: string): (n: nat)
      reads queueRepository
      ensures n == |QueueStore.Members(queueRepository.Queue(eventId))|
    {
      queueRepository.GetTotalWaiting(eventId)
    }
  }
}
