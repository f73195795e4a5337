/**
 * What the turnstile reports back: queue status, seat-lock and seat
 * responses, the push events sent to waiting users, and the plain
 * responses built from events, payments and reservations.
 */
module Responses {

  import opened Wrappers
  import opened Domain

  // ------------------------------------------------------------ queue status

  datatype QueueStatusResponse = QueueStatusResponse(
    eventId: string,
    userId: string,
    position: int,
    totalWaiting: int,
    estimatedWaitSeconds: int,
    canEnter: bool,
    token: Option<string>)

  /** The three situations a queue status can describe. */
  datatype QueueState = CAN_ENTER | WAITING | NOT_IN_QUEUE

  /** `waiting`: a queued user's rank, queue size and estimate. */
  function Waiting(eventId: string, userId: string, position: int, totalWaiting: int, estimatedWaitSeconds: int): (r: QueueStatusResponse)
    ensures !r.canEnter && r.token.None?
    ensures r.position == position && r.totalWaiting == totalWaiting && r.estimatedWaitSeconds == estimatedWaitSeconds
    ensures position >= 0 ==> StateOf(r) == WAITING
  {
    QueueStatusResponse(eventId, userId, position, totalWaiting, estimatedWaitSeconds, false, None)
  }

  /** `canEnter`: the user holds an entry token. */
  function CanEnter(eventId: string, userId: string, token: string): (r: QueueStatusResponse)
    ensures r.canEnter && r.token == Some(token)
    ensures r.position == 0 && r.totalWaiting == 0 && r.estimatedWaitSeconds == 0
    ensures StateOf(r) == CAN_ENTER
  {
    QueueStatusResponse(eventId, userId, 0, 0, 0, true, Some(token))
  }

  /** `notInQueue`: position -1 marks a user who is neither admitted nor queued. */
  function NotInQueue(eventId: string, userId: string): (r: QueueStatusResponse)
    ensures !r.canEnter && r.token.None? && r.position == -1
    ensures r.totalWaiting == 0 && r.estimatedWaitSeconds == 0
    ensures StateOf(r) == NOT_IN_QUEUE
  {
    QueueStatusResponse(eventId, userId, -1, 0, 0, false, None)
  }

  /** How a client reads a status: `canEnter` first, then the sign of the position. */
  function StateOf(r: QueueStatusResponse): QueueState
  {
    if r.canEnter then CAN_ENTER
    else if r.position >= 0 then WAITING
    else NOT_IN_QUEUE
  }

  /** The client's reading recovers every factory's situation, and a token appears only with CAN_ENTER. */
  lemma QueueStatusDecodes(eventId: string, userId: string, rank: nat, total: int, eta: int, token: string)
    ensures StateOf(Waiting(eventId, userId, rank, total, eta)) == WAITING
    ensures StateOf(CanEnter(eventId, userId, token)) == CAN_ENTER
    ensures StateOf(NotInQueue(eventId, userId)) == NOT_IN_QUEUE
    ensures Waiting(eventId, userId, rank, total, eta) != NotInQueue(eventId, userId)
  {
  }

  // ---------------------------------------------------------------- seat lock

  datatype SeatLockResponse = SeatLockResponse(
    eventId: string,
    seatId: string,
    userId: Option<string>,
    locked: bool,
    expiresInSeconds: int,
    reason: Option<string>)

  function LockSucceeded(eventId: string, seatId: string, userId: string, expiresInSeconds: int): (r: SeatLockResponse)
    ensures r.locked && r.userId == Some(userId) && r.reason.None? && r.expiresInSeconds == expiresInSeconds
  {
    SeatLockResponse(eventId, seatId, Some(userId), true, expiresInSeconds, None)
  }

  function LockAlreadyOwned(eventId: string, seatId: string, userId: string, remainingSeconds: int): (r: SeatLockResponse)
    ensures r.locked && r.userId == Some(userId) && r.reason == Some("ALREADY_OWNED")
    ensures r.expiresInSeconds == remainingSeconds
  {
    SeatLockResponse(eventId, seatId, Some(userId), true, remainingSeconds, Some("ALREADY_OWNED"))
  }

  // --------------------------------------------------------------------- seats

  datatype SeatResponse = SeatResponse(
    seatId: string,
    eventId: string,
    section: string,
    rowNum: int,
    seatNum: int,
    grade: SeatGrade,
    gradeDescription: string,
    price: int,
    status: SeatStatus,
    statusDescription: string)

  /** `SeatResponse.from(seat, overrideStatus)`: the seat's fields with the given status. */
  function SeatResponseWithStatus(seat: Seat, status: SeatStatus): (r: SeatResponse)
    reads seat
    ensures r.seatId == seat.seatId && r.eventId == seat.eventId && r.price == seat.price
    ensures r.status == status && r.statusDescription == status.Description()
  {
    SeatResponse(seat.seatId, seat.eventId, seat.section, seat.rowNum, seat.seatNum,
                 seat.grade, seat.grade.Description(), seat.price, status, status.Description())
  }

  // -------------------------------------------------------------- push events

  const QUEUE_UPDATE: string := "QUEUE_UPDATE"
  const TOKEN_ISSUED: string := "TOKEN_ISSUED"
  const QUEUE_LEFT: string := "QUEUE_LEFT"

  datatype QueueSseEvent = QueueSseEvent(
    eventType: string,
    eventId: string,
    userId: string,
    position: Option<int>,
    totalWaiting: Option<int>,
    estimatedWaitSeconds: Option<int>,
    canEnter: Option<bool>,
    token: Option<string>,
    message: Option<string>)

  function QueueUpdate(eventId: string, userId: string, position: int, totalWaiting: int, estimatedWaitSeconds: int): (ev: QueueSseEvent)
    ensures ev.eventType == QUEUE_UPDATE && ev.canEnter == Some(false) && ev.token.None?
    ensures ev.position == Some(position) && ev.totalWaiting == Some(totalWaiting)
    ensures ev.estimatedWaitSeconds == Some(estimatedWaitSeconds)
  {
    QueueSseEvent(QUEUE_UPDATE, eventId, userId, Some(position), Some(totalWaiting), Some(estimatedWaitSeconds),
                  Some(false), None, None)
  }

  function TokenIssued(eventId: string, userId: string, token: string): (ev: QueueSseEvent)
    ensures ev.eventType == TOKEN_ISSUED && ev.canEnter == Some(true) && ev.position == Some(0)
    ensures ev.token == Some(token)
  {
    QueueSseEvent(TOKEN_ISSUED, eventId, userId, Some(0), None, None, Some(true), Some(token),
                  Some("입장 가능합니다. 좌석을 선택해주세요."))
  }

  function QueueLeft(eventId: string, userId: string): (ev: QueueSseEvent)
    ensures ev.eventType == QUEUE_LEFT && ev.position.None? && ev.canEnter.None? && ev.token.None?
  {
    QueueSseEvent(QUEUE_LEFT, eventId, userId, None, None, None, None, None, Some("대기열에서 이탈하였습니다."))
  }

  ghost predicate IsFactoryEvent(ev: QueueSseEvent)
  {
    (exists p: int, t: int, w: int :: ev == QueueUpdate(ev.eventId, ev.userId, p, t, w)) ||
    (exists tok: string :: ev == TokenIssued(ev.eventId, ev.userId, tok)) ||
    ev == QueueLeft(ev.eventId, ev.userId)
  }

  /**
   * Every event a factory builds has one of the three types, and the type
   * alone tells whether the user may enter and whether a token is carried.
   */
  lemma {:induction false} FactoryEventTypes(ev: QueueSseEvent)
    requires IsFactoryEvent(ev)
    ensures ev.eventType in {QUEUE_UPDATE, TOKEN_ISSUED, QUEUE_LEFT}
    ensures ev.canEnter == Some(true) <==> ev.eventType == TOKEN_ISSUED
    ensures ev.token.Some? <==> ev.eventType == TOKEN_ISSUED
  {
    if exists p: int, t: int, w: int :: ev == QueueUpdate(ev.eventId, ev.userId, p, t, w) {
      var p, t, w :| ev == QueueUpdate(ev.eventId, ev.userId, p, t, w);
      assert ev.eventType == QUEUE_UPDATE != TOKEN_ISSUED;
    } else if exists tok: string :: ev == TokenIssued(ev.eventId, ev.userId, tok) {
      var tok :| ev == TokenIssued(ev.eventId, ev.userId, tok);
    } else {
      assert ev.eventType == QUEUE_LEFT != TOKEN_ISSUED;
    }
  }

  // --------------------------------------------------- events, payments, reservations

  datatype EventResponse = EventResponse(
    eventId: string,
    name: string,
    venue: string,
    eventDate: DateTime,
    status: EventStatus,
    statusDescription: string,
    maxConcurrentUsers: int)

  function EventResponseOf(e: Event): EventResponse
  {
    EventResponse(e.eventId, e.name, e.venue, e.eventDate, e.status, e.status.Description(), e.maxConcurrentUsers)
  }

  datatype PaymentResponse = PaymentResponse(
    paymentId: string,
    reservationId: Option<string>,
    userId: string,
    amount: int,
    status: PaymentStatus,
    statusDescription: string,
    paidAt: Option<DateTime>)

  function PaymentResponseOf(p: Payment): PaymentResponse
  {
    PaymentResponse(p.paymentId, p.reservationId, p.userId, p.amount, p.status, p.status.Description(), p.paidAt)
  }

  datatype ReservationResponse = ReservationResponse(
    reservationId: string,
    eventId: string,
    seatId: string,
    userId: string,
    paymentId: string,
    amount: int,
    status: ReservationStatus,
    statusDescription: string,
    confirmedAt: DateTime)

  function ReservationResponseOf(r: Reservation): ReservationResponse
    reads r
  {
    ReservationResponse(r.reservationId, r.eventId, r.seatId, r.userId, r.paymentId, r.amount,
                        r.status, r.status.Description(), r.confirmedAt)
  }
}
