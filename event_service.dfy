/** Event lookups and the "open for booking" check the other services start with. */
module EventService {

  import opened Wrappers
  import opened Domain
  import opened Errors
  import opened Responses
  import EventRepository
  import Sets

  class EventService {
    const eventRepository: EventRepository.EventMemoryRepository

    constructor (eventRepository: EventRepository.EventMemoryRepository)
      ensures this.eventRepository == eventRepository
    {
      this.eventRepository := eventRepository;
    }

    /** `getAllEvents`: one response per stored event. */
    function GetAllEvents(): (events: set<EventResponse>)
      requires eventRepository.Valid()
      reads eventRepository
      ensures forall id | id in eventRepository.store :: EventResponseOf(eventRepository.store[id]) in events
      ensures forall r | r in events :: eventRepository.FindById(r.eventId).Some? &&
                                         EventResponseOf(eventRepository.FindById(r.eventId).value) == r
      ensures |events| == eventRepository.Count()
    {
      var stored := eventRepository.FindAll();
      Sets.InjectiveMappedCard(stored, EventResponseOf);
      Sets.Mapped(stored, EventResponseOf)
    }

    /** `findEventOrThrow`: the stored event, or EVENT_NOT_FOUND naming the id. */
    function FindEventOrThrow(eventId: string): (r: Result<Event, TurnstileException>)
      reads eventRepository
      ensures r.Ok? <==> eventRepository.ExistsById(eventId)
      ensures r.Ok? ==> r.value == eventRepository.store[eventId]
      ensures r.Err? ==> r.error == RaiseWith(EVENT_NOT_FOUND, eventId) && r.error.errorCode.HttpStatus() == 404
    {
      match eventRepository.FindById(eventId)
      case Some(event) => Ok(event)
      case None => Err(RaiseWith(EVENT_NOT_FOUND, eventId))
    }

    /** `getEvent`. */
    function GetEvent(eventId: string): (r: Result<EventResponse, TurnstileException>)
      reads eventRepository
      ensures r.Ok? <==> eventRepository.ExistsById(eventId)
      ensures r.Ok? ==> r.value == EventResponseOf(eventRepository.store[eventId])
      ensures r.Err? ==> r.error.errorCode == EVENT_NOT_FOUND
    {
      match FindEventOrThrow(eventId)
      case Ok(event) => Ok(EventResponseOf(event))
      case Err(e) => Err(e)
    }

    /**
     * `validateEventOpen`: passes only for a stored OPEN event; a missing
     * event is reported before a closed one.
     */
    function ValidateEventOpen(eventId: string): (r: Result<Unit, TurnstileException>)
      reads eventRepository
      ensures r.Ok? <==> eventRepository.ExistsById(eventId) && eventRepository.store[eventId].IsOpen()
      ensures !eventRepository.ExistsById(eventId) ==> r == Err(RaiseWith(EVENT_NOT_FOUND, eventId))
      ensures eventRepository.ExistsById(eventId) && !eventRepository.store[eventId].IsOpen() ==>
        r == Err(RaiseWith(EVENT_NOT_OPEN, eventId))
    {
      match FindEventOrThrow(eventId)
      case Err(e) => Err(e)
      case Ok(event) => if !event.IsOpen() then Err(RaiseWith(EVENT_NOT_OPEN, eventId)) else Ok(Unit)
    }
  }
}
