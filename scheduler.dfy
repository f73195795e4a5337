/**
 * The periodic admission pass: for every open event, admit as many waiting
 * users as there are free places under the event's concurrency limit,
 * counting the live entry tokens as occupied places.
 */
module Scheduler {

  import opened Wrappers
  import opened Domain
  import EventRepository
  import QueueStore
  import RedisValues
  import TokenStore
  import QueueService

  /**
   * Who one event's pass admits, given its queue `q0` and its `holders0`
   * live tokens at the start: the first users of the queue, as many as
   * there are free places, or nobody when there are none.
   */
  function Admitted(event: Event, q0: seq<QueueStore.Entry>, holders0: nat): (admitted: seq<string>)
    ensures |admitted| <= |q0| && admitted == QueueStore.Members(q0[..|admitted|])
    ensures event.maxConcurrentUsers <= holders0 ==> admitted == []
    ensures event.maxConcurrentUsers > holders0 ==>
      |admitted| == if event.maxConcurrentUsers - holders0 < |q0| then event.maxConcurrentUsers - holders0 else |q0|
  {
    var slots := event.maxConcurrentUsers - holders0;
    if slots <= 0 then [] else QueueStore.Members(QueueStore.Front(q0, slots))
  }

  /**
   * What one event's pass leaves behind, seen from that event alone: the
   * `processed` admitted users came off the front of its queue, now `q`;
   * the i-th of them holds `uuid(i)` in the token store `s`; a full event
   * keeps its live tokens, and an event within its limit stays within it.
   */
  ghost predicate PassedEvent(event: Event, q0: seq<QueueStore.Entry>, holders0: nat, processed: nat,
                              uuid: nat -> string, now: int, q: seq<QueueStore.Entry>, s: RedisValues.Store)
  {
    var admitted := Admitted(event, q0, holders0);
    var holders := |RedisValues.LiveKeysWithPrefix(s, TokenStore.EventPrefix(event.eventId), now)|;
    processed == |admitted| && q == q0[processed..] &&
    (forall i | 0 <= i < processed :: RedisValues.Get(s, TokenStore.TokenKey(event.eventId, admitted[i]), now) == Some(uuid(i))) &&
    (event.maxConcurrentUsers <= holders0 ==> holders == holders0) &&
    (holders0 <= event.maxConcurrentUsers ==> holders <= event.maxConcurrentUsers)
  }

  /**
   * Another event's pass leaves an event's outcome as it was, when neither
   * event id contains ':' (otherwise one event's token keys can match the
   * other's scan pattern).
   */
  lemma PassedUnderOtherEvent(event: Event, q0: seq<QueueStore.Entry>, holders0: nat, processed: nat,
                              uuid: nat -> string, now: int, q: seq<QueueStore.Entry>, s: RedisValues.Store,
                              other: string, users: seq<string>, tokens: nat -> string)
    requires ':' !in event.eventId && ':' !in other && other != event.eventId
    requires PassedEvent(event, q0, holders0, processed, uuid, now, q, s)
    ensures PassedEvent(event, q0, holders0, processed, uuid, now, q, TokenStore.IssuedAll(s, other, users, tokens, now))
  {
    TokenStore.IssuedAllOtherEvent(s, other, users, tokens, now, event.eventId);
  }

  /** The live token keys an event's scan counts in the store `s`. */
  function LiveTokenCount(s: RedisValues.Store, eventId: string, now: int): nat
  {
    |RedisValues.LiveKeysWithPrefix(s, TokenStore.EventPrefix(eventId), now)|
  }

  /** No id of the catalog `events` contains ':' (true of every seeded id). */
  ghost predicate IdsWithoutColon(events: map<string, Event>)
  {
    forall id | id in events :: ':' !in id
  }

  /**
   * Which open events of `events` a pass has done: every open event is
   * either still in `remaining` or recorded in `processed`, never both.
   */
  ghost predicate Covered(events: map<string, Event>, processed: map<string, nat>, remaining: set<Event>)
  {
    (forall id | id in events :: events[id].eventId == id) &&
    (forall e | e in remaining :: e.eventId in events && events[e.eventId] == e && e.IsOpen() && e.eventId !in processed) &&
    (forall id | id in processed :: id in events && events[id].IsOpen()) &&
    (forall id | id in events && events[id].IsOpen() && id !in processed :: events[id] in remaining)
  }

  /**
   * The queues a pass leaves, from `queues0` to `queues`: untouched for
   * every event not processed, and short of the admitted users at the
   * front for every processed one.
   */
  ghost predicate QueuesAdvanced(processed: map<string, nat>, queues0: map<string, seq<QueueStore.Entry>>,
                                 queues: map<string, seq<QueueStore.Entry>>)
  {
    (forall id | id !in processed :: QueueStore.QueueOf(queues, id) == QueueStore.QueueOf(queues0, id)) &&
    (forall id | id in processed ::
       processed[id] <= |QueueStore.QueueOf(queues0, id)| &&
       QueueStore.QueueOf(queues, id) == QueueStore.QueueOf(queues0, id)[processed[id]..])
  }

  /**
   * The tokens a pass leaves, from `store0` to `store`, when no id
   * contains ':': each processed event ends as its own pass left it, and
   * every open event not yet processed keeps its live tokens.
   */
  ghost predicate TokensAdvanced(events: map<string, Event>, processed: map<string, nat>,
                                 queues0: map<string, seq<QueueStore.Entry>>, store0: RedisValues.Store,
                                 queues: map<string, seq<QueueStore.Entry>>, store: RedisValues.Store,
                                 uuids: string -> nat -> string, now: int)
    requires forall id | id in processed :: id in events
  {
    (forall id | id in events && events[id].IsOpen() && id !in processed ::
       LiveTokenCount(store, id, now) == LiveTokenCount(store0, id, now)) &&
    (forall id | id in processed ::
       PassedEvent(events[id], QueueStore.QueueOf(queues0, id), LiveTokenCount(store0, id, now), processed[id],
                   uuids(id), now, QueueStore.QueueOf(queues, id), store))
  }

  /** One more event moves from `remaining` to `processed`. */
  lemma CoveredStep(events: map<string, Event>, processed: map<string, nat>, remaining: set<Event>, event: Event, count: nat)
    requires Covered(events, processed, remaining) && event in remaining
    ensures Covered(events, processed[event.eventId := count], remaining - {event})
  {
    forall id | id in events && events[id].IsOpen() && id !in processed[event.eventId := count]
      ensures events[id] in remaining - {event}
    {
      assert events[id] != event;
    }
  }

  /** One more event's pass, which touches only that event's queue, advances the queues by it. */
  lemma QueuesStep(processed: map<string, nat>, queues0: map<string, seq<QueueStore.Entry>>,
                   queues: map<string, seq<QueueStore.Entry>>, id: string, count: nat,
                   queues': map<string, seq<QueueStore.Entry>>)
    requires QueuesAdvanced(processed, queues0, queues) && id !in processed
    requires forall id' | id' != id :: QueueStore.QueueOf(queues', id') == QueueStore.QueueOf(queues, id')
    requires count <= |QueueStore.QueueOf(queues, id)| && QueueStore.QueueOf(queues', id) == QueueStore.QueueOf(queues, id)[count..]
    ensures QueuesAdvanced(processed[id := count], queues0, queues')
  {
  }

  /** Another event's pass leaves every processed event as its own pass left it. */
  lemma ProcessedStayPassed(events: map<string, Event>, processed: map<string, nat>,
                            queues0: map<string, seq<QueueStore.Entry>>, store0: RedisValues.Store,
                            queues: map<string, seq<QueueStore.Entry>>, store: RedisValues.Store,
                            uuids: string -> nat -> string, now: int,
                            id: string, admitted: seq<string>, queues': map<string, seq<QueueStore.Entry>>)
    requires ':' !in id && id !in processed
    requires forall id' | id' in processed :: id' in events && events[id'].eventId == id' && ':' !in id'
    requires forall id' | id' in processed ::
      PassedEvent(events[id'], QueueStore.QueueOf(queues0, id'), LiveTokenCount(store0, id', now), processed[id'],
                  uuids(id'), now, QueueStore.QueueOf(queues, id'), store)
    requires forall id' | id' != id :: QueueStore.QueueOf(queues', id') == QueueStore.QueueOf(queues, id')
    ensures forall id' | id' in processed ::
      PassedEvent(events[id'], QueueStore.QueueOf(queues0, id'), LiveTokenCount(store0, id', now), processed[id'],
                  uuids(id'), now, QueueStore.QueueOf(queues', id'), TokenStore.IssuedAll(store, id, admitted, uuids(id), now))
  {
    forall id' | id' in processed
      ensures PassedEvent(events[id'], QueueStore.QueueOf(queues0, id'), LiveTokenCount(store0, id', now), processed[id'],
                          uuids(id'), now, QueueStore.QueueOf(queues', id'), TokenStore.IssuedAll(store, id, admitted, uuids(id), now))
    {
      PassedUnderOtherEvent(events[id'], QueueStore.QueueOf(queues0, id'), LiveTokenCount(store0, id', now), processed[id'],
                            uuids(id'), now, QueueStore.QueueOf(queues, id'), store, id, admitted, uuids(id));
    }
  }

  /** Another event's pass leaves the live tokens of every event still to do as they were. */
  lemma WaitingKeepTokens(events: map<string, Event>, processed: map<string, nat>, store0: RedisValues.Store,
                          store: RedisValues.Store, now: int, id: string, admitted: seq<string>, tokens: nat -> string)
    requires IdsWithoutColon(events) && id in events
    requires forall id' | id' in events && events[id'].IsOpen() && id' !in processed ::
      LiveTokenCount(store, id', now) == LiveTokenCount(store0, id', now)
    ensures forall id' | id' in events && events[id'].IsOpen() && id' !in processed && id' != id ::
      LiveTokenCount(TokenStore.IssuedAll(store, id, admitted, tokens, now), id', now) == LiveTokenCount(store0, id', now)
  {
    forall id' | id' in events && events[id'].IsOpen() && id' !in processed && id' != id
      ensures LiveTokenCount(TokenStore.IssuedAll(store, id, admitted, tokens, now), id', now) == LiveTokenCount(store0, id', now)
    {
      TokenStore.IssuedAllOtherEvent(store, id, admitted, tokens, now, id');
    }
  }

  /** One more event's pass, as `processEventQueue` states it, advances the tokens by it. */
  lemma TokensStep(events: map<string, Event>, processed: map<string, nat>,
                   queues0: map<string, seq<QueueStore.Entry>>, store0: RedisValues.Store,
                   queues: map<string, seq<QueueStore.Entry>>, store: RedisValues.Store,
                   uuids: string -> nat -> string, now: int,
                   event: Event, count: nat, queues': map<string, seq<QueueStore.Entry>>, store': RedisValues.Store)
    requires IdsWithoutColon(events) && forall id | id in events :: events[id].eventId == id
    requires forall id | id in processed :: id in events
    requires event.eventId in events && events[event.eventId] == event && event.IsOpen() && event.eventId !in processed
    requires TokensAdvanced(events, processed, queues0, store0, queues, store, uuids, now)
    requires QueueStore.QueueOf(queues, event.eventId) == QueueStore.QueueOf(queues0, event.eventId)
    requires forall id | id != event.eventId :: QueueStore.QueueOf(queues', id) == QueueStore.QueueOf(queues, id)
    requires store' == TokenStore.IssuedAll(store, event.eventId,
                                            Admitted(event, QueueStore.QueueOf(queues, event.eventId), LiveTokenCount(store, event.eventId, now)),
                                            uuids(event.eventId), now)
    requires PassedEvent(event, QueueStore.QueueOf(queues, event.eventId), LiveTokenCount(store, event.eventId, now), count,
                         uuids(event.eventId), now, QueueStore.QueueOf(queues', event.eventId), store')
    ensures TokensAdvanced(events, processed[event.eventId := count], queues0, store0, queues', store', uuids, now)
  {
    var id := event.eventId;
    var admitted := Admitted(event, QueueStore.QueueOf(queues, id), LiveTokenCount(store, id, now));
    var processed' := processed[id := count];
    assert LiveTokenCount(store, id, now) == LiveTokenCount(store0, id, now);
    ProcessedStayPassed(events, processed, queues0, store0, queues, store, uuids, now, id, admitted, queues');
    WaitingKeepTokens(events, processed, store0, store, now, id, admitted, uuids(id));
    forall id' | id' in processed'
      ensures PassedEvent(events[id'], QueueStore.QueueOf(queues0, id'), LiveTokenCount(store0, id', now), processed'[id'],
                          uuids(id'), now, QueueStore.QueueOf(queues', id'), store')
    {
      if id' != id {
        assert processed'[id'] == processed[id'];
      }
    }
  }

  /** After a pass, every processed event that was within its limit still is. */
  lemma PassKeepsLimits(events: map<string, Event>, processed: map<string, nat>,
                        queues0: map<string, seq<QueueStore.Entry>>, store0: RedisValues.Store,
                        queues: map<string, seq<QueueStore.Entry>>, store: RedisValues.Store,
                        uuids: string -> nat -> string, now: int)
    requires forall id | id in events :: events[id].eventId == id
    requires forall id | id in processed :: id in events
    requires TokensAdvanced(events, processed, queues0, store0, queues, store, uuids, now)
    ensures forall id | id in processed && LiveTokenCount(store0, id, now) <= events[id].maxConcurrentUsers ::
      LiveTokenCount(store, id, now) <= events[id].maxConcurrentUsers
  {
    forall id | id in processed && LiveTokenCount(store0, id, now) <= events[id].maxConcurrentUsers
      ensures LiveTokenCount(store, id, now) <= events[id].maxConcurrentUsers
    {
      assert PassedEvent(events[id], QueueStore.QueueOf(queues0, id), LiveTokenCount(store0, id, now), processed[id],
                         uuids(id), now, QueueStore.QueueOf(queues, id), store);
    }
  }

  class QueueProcessorScheduler {
    const queueService: QueueService.QueueService
    const eventRepository: EventRepository.EventMemoryRepository
    const tokenRepository: TokenStore.TokenRedisRepository

    constructor (queueService: QueueService.QueueService, eventRepository: EventRepository.EventMemoryRepository,
                 tokenRepository: TokenStore.TokenRedisRepository)
      ensures this.queueService == queueService && this.eventRepository == eventRepository
      ensures this.tokenRepository == tokenRepository
    {
      this.queueService := queueService;
      this.eventRepository := eventRepository;
      this.tokenRepository := tokenRepository;
    }

    /** The token store is the one bean the queue service writes to as well. */
    predicate Wired()
    {
      tokenRepository == queueService.tokenRepository
    }

    /** The live token holders of an event: the places already taken. */
    function Occupied(eventId: string, now: int): (n: nat)
      reads tokenRepository
      ensures n == |tokenRepository.TokenHolders(eventId, now)|
    {
      LiveTokenCount(tokenRepository.store, eventId, now)
    }

    /** The ids of the open events. */
    ghost function OpenIds(): set<string>
      reads eventRepository
    {
      set id | id in eventRepository.store && eventRepository.store[id].IsOpen()
    }

    /** The open events of the catalog, each under its own id and not yet processed. */
    function OpenEvents(): (events: set<Event>)
      requires eventRepository.Valid()
      reads eventRepository
      ensures Covered(eventRepository.store, map[], events)
    {
      set e | e in eventRepository.FindAll() && e.IsOpen()
    }

    /**
     * `processEventQueue`: the free places are the limit minus the live
     * tokens; with none free nothing happens, otherwise the first waiting
     * users, as many as there are free places, are admitted and get their
     * tokens. Either way the live tokens of the event never end above the
     * limit unless they were above it already, and no other event's queue
     * or tokens change.
     */
    method ProcessEventQueue(event: Event, uuid: nat -> string, unreachable: set<string>, now: int)
      returns (processed: nat)
      requires Wired()
      requires queueService.queueRepository.Valid() && queueService.sseRegistry.Valid()
      modifies queueService.queueRepository, queueService.tokenRepository, queueService.sseRegistry
      ensures queueService.queueRepository.Valid() && queueService.sseRegistry.Valid()
      ensures var q0 := QueueStore.QueueOf(old(queueService.queueRepository.queues), event.eventId);
        var holders0 := LiveTokenCount(old(tokenRepository.store), event.eventId, now);
        var admitted := Admitted(event, q0, holders0);
        processed == |admitted| &&
        queueService.queueRepository.queues ==
          (if processed == 0 then old(queueService.queueRepository.queues)
           else old(queueService.queueRepository.queues)[event.eventId := q0[processed..]]) &&
        tokenRepository.store == TokenStore.IssuedAll(old(tokenRepository.store), event.eventId, admitted, uuid, now) &&
        PassedEvent(event, q0, holders0, processed, uuid, now, q0[processed..], tokenRepository.store)
      ensures LiveTokenCount(old(tokenRepository.store), event.eventId, now) >= event.maxConcurrentUsers ==>
        queueService.sseRegistry.delivered == old(queueService.sseRegistry.delivered) &&
        queueService.sseRegistry.emitters == old(queueService.sseRegistry.emitters)
    {
      var eventId := event.eventId;
      var maxConcurrent := event.maxConcurrentUsers;
      var currentTokenCount := tokenRepository.CountByEventId(eventId, now);
      var availableSlots := maxConcurrent - currentTokenCount;
      if availableSlots <= 0 {
        return 0;
      }
      processed := queueService.ProcessQueue(eventId, availableSlots, uuid, unreachable, now);
    }

    /**
     * One step of `processQueue`: the pass of `event`, one of the open events
     * still to do, seen as the advance of the pass record `processed` from
     * the queues `queues0` and tokens `store0` the whole pass started from.
     */
    method ProcessNext(event: Event, uuids: string -> nat -> string, unreachable: set<string>, now: int,
                       ghost processed: map<string, nat>, ghost remaining: set<Event>,
                       ghost queues0: map<string, seq<QueueStore.Entry>>, ghost store0: RedisValues.Store)
      returns (count: nat)
      requires Wired()
      requires queueService.queueRepository.Valid() && queueService.sseRegistry.Valid()
      requires Covered(eventRepository.store, processed, remaining) && event in remaining
      requires QueuesAdvanced(processed, queues0, queueService.queueRepository.queues)
      requires IdsWithoutColon(eventRepository.store) ==>
        TokensAdvanced(eventRepository.store, processed, queues0, store0, queueService.queueRepository.queues, tokenRepository.store, uuids, now)
      modifies queueService.queueRepository, queueService.tokenRepository, queueService.sseRegistry
      ensures queueService.queueRepository.Valid() && queueService.sseRegistry.Valid()
      ensures QueuesAdvanced(processed[event.eventId := count], queues0, queueService.queueRepository.queues)
      ensures IdsWithoutColon(eventRepository.store) ==>
        TokensAdvanced(eventRepository.store, processed[event.eventId := count], queues0, store0,
                       queueService.queueRepository.queues, tokenRepository.store, uuids, now)
    {
      ghost var queues, store := queueService.queueRepository.queues, tokenRepository.store;
      count := ProcessEventQueue(event, uuids(event.eventId), unreachable, now);
      assert count <= |QueueStore.QueueOf(queues, event.eventId)|;
      QueuesStep(processed, queues0, queues, event.eventId, count, queueService.queueRepository.queues);
      if IdsWithoutColon(eventRepository.store) {
        TokensStep(eventRepository.store, processed, queues0, store0, queues, store, uuids, now,
                   event, count, queueService.queueRepository.queues, tokenRepository.store);
      }
    }

    /**
     * `processQueue`: one pass over the open events, in no particular order;
     * event `e` draws its tokens from `uuids(e.eventId)`. Returns, as a
     * record for the proof, how many users each open event admitted: one
     * entry per open event and no other. The queues advance by that record
     * (`QueuesAdvanced`: other queues are untouched, each open event loses
     * its admitted users off the front); when no event id contains ':' the
     * tokens advance by it too (`TokensAdvanced`: each open event ends
     * exactly as its own pass leaves it), so an event within its limit
     * stays within it.
     */
    method ProcessQueue(uuids: string -> nat -> string, unreachable: set<string>, now: int)
      returns (ghost processed: map<string, nat>)
      requires Wired() && eventRepository.Valid()
      requires queueService.queueRepository.Valid() && queueService.sseRegistry.Valid()
      modifies queueService.queueRepository, queueService.tokenRepository, queueService.sseRegistry
      ensures queueService.queueRepository.Valid() && queueService.sseRegistry.Valid()
      ensures processed.Keys == OpenIds()
      ensures QueuesAdvanced(processed, old(queueService.queueRepository.queues), queueService.queueRepository.queues)
      ensures IdsWithoutColon(eventRepository.store) ==>
        TokensAdvanced(eventRepository.store, processed, old(queueService.queueRepository.queues), old(tokenRepository.store),
                       queueService.queueRepository.queues, tokenRepository.store, uuids, now)
      ensures IdsWithoutColon(eventRepository.store) ==> forall id | id in processed && old(Occupied(id, now)) <= eventRepository.store[id].maxConcurrentUsers ::
        Occupied(id, now) <= eventRepository.store[id].maxConcurrentUsers
    {
      var remaining := OpenEvents();
      ghost var queues0, store0 := queueService.queueRepository.queues, tokenRepository.store;
      processed := map[];
      while remaining != {}
        invariant queueService.queueRepository.Valid() && queueService.sseRegistry.Valid()
        invariant Covered(eventRepository.store, processed, remaining)
        invariant QueuesAdvanced(processed, queues0, queueService.queueRepository.queues)
        invariant IdsWithoutColon(eventRepository.store) ==>
          TokensAdvanced(eventRepository.store, processed, queues0, store0, queueService.queueRepository.queues, tokenRepository.store, uuids, now)
        decreases remaining
      {
        var event :| event in remaining;
        var count := ProcessNext(event, uuids, unreachable, now, processed, remaining, queues0, store0);
        CoveredStep(eventRepository.store, processed, remaining, event, count);
        processed := processed[event.eventId := count];
        remaining := remaining - {event};
      }
      if IdsWithoutColon(eventRepository.store) {
        PassKeepsLimits(eventRepository.store, processed, queues0, store0, queueService.queueRepository.queues,
                        tokenRepository.store, uuids, now);
      }
    }
  }
}
