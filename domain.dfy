/**
 * The ticketing domain: the status and grade enumerations, events and
 * payments (values), and seats and reservations (objects whose status is
 * assigned in place).
 */
module Domain {

  import opened Wrappers
  import JavaText

  /** `LocalDateTime`, as a plain value supplied by the caller's clock. */
  datatype DateTime = DateTime(year: int, month: int, day: int, hour: int, minute: int, second: int)

  datatype EventStatus = UPCOMING | OPEN | CLOSED | SOLD_OUT
  {
    function Description(): string
    {
      match this
      case UPCOMING => "예정"
      case OPEN => "예매 진행중"
      case CLOSED => "예매 종료"
      case SOLD_OUT => "매진"
    }
  }

  datatype PaymentStatus = PENDING | SUCCESS | FAILED
  {
    function Description(): string
    {
      match this
      case PENDING => "결제 대기"
      case SUCCESS => "결제 성공"
      case FAILED => "결제 실패"
    }
  }

  datatype ReservationStatus = CONFIRMED | CANCELLED
  {
    function Description(): string
    {
      match this
      case CONFIRMED => "예약 확정"
      case CANCELLED => "예약 취소"
    }
  }

  datatype SeatStatus = AVAILABLE | LOCKED | RESERVED
  {
    function Description(): string
    {
      match this
      case AVAILABLE => "선택 가능"
      case LOCKED => "선점 중"
      case RESERVED => "예약 완료"
    }
  }

  datatype SeatGrade = VIP | R | S | A
  {
    function Description(): string
    {
      match this
      case VIP => "VIP석"
      case R => "R석"
      case S => "S석"
      case A => "A석"
    }

    function DefaultPrice(): int
    {
      match this
      case VIP => 200_000
      case R => 150_000
      case S => 100_000
      case A => 70_000
    }
  }

  datatype Event = Event(
    eventId: string,
    name: string,
    venue: string,
    eventDate: DateTime,
    maxConcurrentUsers: int,
    status: EventStatus,
    createdAt: DateTime)
  {
    predicate IsOpen()
      ensures IsOpen() ==> status != UPCOMING && status != CLOSED && status != SOLD_OUT
    {
      status == OPEN
    }
  }

  /** A payment attempt; the reservation id is null (None) for a failed attempt. */
  datatype Payment = Payment(
    paymentId: string,
    userId: string,
    reservationId: Option<string>,
    amount: int,
    status: PaymentStatus,
    paidAt: Option<DateTime>)

  /** The key `eventId:seatId` under which seats and seat reservations are indexed. */
  function CompositeKey(eventId: string, seatId: string): string
  {
    eventId + ":" + seatId
  }

  /**
   * The composite key determines the (event, seat) pair when event ids
   * contain no ':' (true of every seeded id); without that, ("a:b", "c") and
   * ("a", "b:c") share a key.
   */
  lemma KeySeparatorAt(e: string, s: string)
    requires ':' !in e
    ensures JavaText.IndexOfChar(CompositeKey(e, s), ':') == |e|
  {
    var k := CompositeKey(e, s);
    assert k[..|e|] == e && k[|e|] == ':';
  }

  lemma {:induction false} CompositeKeyInjective(e1: string, s1: string, e2: string, s2: string)
    requires ':' !in e1 && ':' !in e2
    requires CompositeKey(e1, s1) == CompositeKey(e2, s2)
    ensures e1 == e2 && s1 == s2
  {
    var k := CompositeKey(e1, s1);
    KeySeparatorAt(e1, s1);
    KeySeparatorAt(e2, s2);
    assert e1 == k[..|e1|] == e2;
    assert s1 == k[|e1| + 1..] == s2;
  }

  /** Within one event, different second parts give different keys, whatever the event id. */
  lemma SameEventKeysDiffer(e: string, s1: string, s2: string)
    requires s1 != s2
    ensures CompositeKey(e, s1) != CompositeKey(e, s2)
  {
    assert s1 == CompositeKey(e, s1)[|e| + 1..];
    assert s2 == CompositeKey(e, s2)[|e| + 1..];
  }

  lemma CompositeKeyCollision()
    ensures CompositeKey("a:b", "c") == CompositeKey("a", "b:c")
  {
  }

  /** A seat of an event. Only its status changes after construction. */
  class Seat {
    const seatId: string
    const eventId: string
    const section: string
    const rowNum: int
    const seatNum: int
    const grade: SeatGrade
    const price: int
    var status: SeatStatus

    constructor (seatId: string, eventId: string, section: string, rowNum: int, seatNum: int,
                 grade: SeatGrade, price: int, status: SeatStatus)
      ensures this.seatId == seatId && this.eventId == eventId && this.section == section
      ensures this.rowNum == rowNum && this.seatNum == seatNum
      ensures this.grade == grade && this.price == price && this.status == status
    {
      this.seatId := seatId;
      this.eventId := eventId;
      this.section := section;
      this.rowNum := rowNum;
      this.seatNum := seatNum;
      this.grade := grade;
      this.price := price;
      this.status := status;
    }

    predicate IsAvailable()
      reads this
      ensures IsAvailable() ==> status != LOCKED && status != RESERVED
    {
      status == AVAILABLE
    }

    predicate IsReserved()
      reads this
      ensures IsReserved() ==> status != AVAILABLE && status != LOCKED
    {
      status == RESERVED
    }

    /** `getCompositeKey`. */
    function Key(): string
    {
      CompositeKey(eventId, seatId)
    }

    method Lock()
      modifies this
      ensures status == LOCKED && !IsAvailable() && !IsReserved()
    {
      status := LOCKED;
    }

    method Reserve()
      modifies this
      ensures status == RESERVED && IsReserved() && !IsAvailable()
    {
      status := RESERVED;
    }

    /** No guard: a reserved seat is made available again too. */
    method Release()
      modifies this
      ensures status == AVAILABLE && IsAvailable() && !IsReserved()
      ensures old(IsReserved()) ==> !IsReserved()
    {
      status := AVAILABLE;
    }
  }

  /** A confirmed purchase of one seat. Only its status changes after construction. */
  class Reservation {
    const reservationId: string
    const eventId: string
    const seatId: string
    const userId: string
    const paymentId: string
    const amount: int
    var status: ReservationStatus
    const confirmedAt: DateTime

    constructor (reservationId: string, eventId: string, seatId: string, userId: string,
                 paymentId: string, amount: int, status: ReservationStatus, confirmedAt: DateTime)
      ensures this.reservationId == reservationId && this.eventId == eventId && this.seatId == seatId
      ensures this.userId == userId && this.paymentId == paymentId && this.amount == amount
      ensures this.status == status && this.confirmedAt == confirmedAt
    {
      this.reservationId := reservationId;
      this.eventId := eventId;
      this.seatId := seatId;
      this.userId := userId;
      this.paymentId := paymentId;
      this.amount := amount;
      this.status := status;
      this.confirmedAt := confirmedAt;
    }

    predicate IsConfirmed()
      reads this
      ensures IsConfirmed() <==> status != CANCELLED
    {
      status == CONFIRMED
    }

    /** `getSeatCompositeKey`. */
    function SeatKey(): string
    {
      CompositeKey(eventId, seatId)
    }

    /** Only the status changes; every other field is immutable. */
    method Cancel()
      modifies this
      ensures status == CANCELLED && !IsConfirmed()
    {
      status := CANCELLED;
    }
  }
}
