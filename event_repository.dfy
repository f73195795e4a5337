/** The in-memory event catalog: events keyed by their id. */
module EventRepository {

  import opened Wrappers
  import opened Domain
  import Sets

  class EventMemoryRepository {
    var store: map<string, Event>

    /** Each event is stored under its own id. */
    ghost predicate Valid()
      reads this
    {
      forall id | id in store :: store[id].eventId == id
    }

    constructor ()
      ensures Valid() && store == map[]
    {
      store := map[];
    }

    /** `save`: stores the event under its id, replacing any earlier one. */
    method Save(event: Event) returns (saved: Event)
      requires Valid()
      modifies this
      ensures Valid()
      ensures saved == event
      ensures store == old(store)[event.eventId := event]
      ensures FindById(event.eventId) == Some(event)
      ensures Count() == old(Count()) + (if old(ExistsById(event.eventId)) then 0 else 1)
    {
      store := store[event.eventId := event];
      saved := event;
    }

    /** `findById`. */
    function FindById(eventId: string): (found: Option<Event>)
      reads this
      ensures found.Some? <==> ExistsById(eventId)
      ensures found.Some? ==> found.value == store[eventId]
    {
      if eventId in store then Some(store[eventId]) else None
    }

    /** `findAll`: the stored events, in no particular order. */
    function FindAll(): (events: set<Event>)
      requires Valid()
      reads this
      ensures forall e | e in events :: FindById(e.eventId) == Some(e)
      ensures forall id | id in store :: store[id] in events
      ensures |events| == Count()
    {
      var keys := store.Keys;
      assert forall k, k' | k in keys && k' in keys && store[k] == store[k'] :: k == store[k].eventId == k';
      Sets.InjectiveImageCard(store, keys);
      assert store.Values == Sets.Image(store, keys);
      store.Values
    }

    /** `existsById`. */
    predicate ExistsById(eventId: string)
      reads this
    {
      eventId in store
    }

    /** An id exists exactly when some stored event carries it. */
    lemma ExistsByIdMeans(eventId: string)
      requires Valid()
      ensures ExistsById(eventId) <==> exists e | e in store.Values :: e.eventId == eventId
    {
      if eventId in store {
        assert store[eventId] in store.Values;
      }
    }

    /** `deleteById`: removes that id and nothing else. */
    method DeleteById(eventId: string)
      requires Valid()
      modifies this
      ensures Valid()
      ensures store == old(store) - {eventId}
      ensures !ExistsById(eventId)
      ensures forall id :: id != eventId ==> FindById(id) == old(FindById(id))
    {
      store := store - {eventId};
    }

    method DeleteAll()
      modifies this
      ensures Valid() && store == map[] && Count() == 0
    {
      store := map[];
    }

    /** `count`: the number of distinct ids. */
    function Count(): (n: nat)
      reads this
      ensures n == |store.Keys|
    {
      |store|
    }
  }
}
