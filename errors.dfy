/**
 * The turnstile's error table and the exception that carries one of its
 * entries. Each code has an HTTP status, a short code string and a message.
 */
module Errors {

  import opened Wrappers

  datatype ErrorCode =
    | EVENT_NOT_FOUND | EVENT_NOT_OPEN
    | ALREADY_IN_QUEUE | NOT_IN_QUEUE | QUEUE_ENTRY_FAILED
    | TOKEN_NOT_FOUND | TOKEN_EXPIRED | TOKEN_INVALID
    | SEAT_NOT_FOUND | SEAT_ALREADY_LOCKED | SEAT_ALREADY_RESERVED | SEAT_NOT_LOCKED_BY_USER | SEAT_LOCK_EXPIRED
    | PAYMENT_FAILED | PAYMENT_NOT_FOUND
    | RESERVATION_NOT_FOUND
    | INVALID_REQUEST | INTERNAL_ERROR
  {
    /** The numeric value of the Spring `HttpStatus` the entry names. */
    function HttpStatus(): int
    {
      match this
      case EVENT_NOT_FOUND => 404
      case EVENT_NOT_OPEN => 400
      case ALREADY_IN_QUEUE => 409
      case NOT_IN_QUEUE => 400
      case QUEUE_ENTRY_FAILED => 500
      case TOKEN_NOT_FOUND => 401
      case TOKEN_EXPIRED => 401
      case TOKEN_INVALID => 401
      case SEAT_NOT_FOUND => 404
      case SEAT_ALREADY_LOCKED => 409
      case SEAT_ALREADY_RESERVED => 409
      case SEAT_NOT_LOCKED_BY_USER => 403
      case SEAT_LOCK_EXPIRED => 400
      case PAYMENT_FAILED => 400
      case PAYMENT_NOT_FOUND => 404
      case RESERVATION_NOT_FOUND => 404
      case INVALID_REQUEST => 400
      case INTERNAL_ERROR => 500
    }

    function Code(): string
    {
      match this
      case EVENT_NOT_FOUND => "E001"
      case EVENT_NOT_OPEN => "E002"
      case ALREADY_IN_QUEUE => "Q001"
      case NOT_IN_QUEUE => "Q002"
      case QUEUE_ENTRY_FAILED => "Q003"
      case TOKEN_NOT_FOUND => "T001"
      case TOKEN_EXPIRED => "T002"
      case TOKEN_INVALID => "T003"
      case SEAT_NOT_FOUND => "S001"
      case SEAT_ALREADY_LOCKED => "S002"
      case SEAT_ALREADY_RESERVED => "S003"
      case SEAT_NOT_LOCKED_BY_USER => "S004"
      case SEAT_LOCK_EXPIRED => "S005"
      case PAYMENT_FAILED => "P001"
      case PAYMENT_NOT_FOUND => "P002"
      case RESERVATION_NOT_FOUND => "R001"
      case INVALID_REQUEST => "C001"
      case INTERNAL_ERROR => "C002"
    }

    function Message(): string
    {
      match this
      case EVENT_NOT_FOUND => "이벤트를 찾을 수 없습니다."
      case EVENT_NOT_OPEN => "예매가 진행 중인 이벤트가 아닙니다."
      case ALREADY_IN_QUEUE => "이미 대기열에 등록되어 있습니다."
      case NOT_IN_QUEUE => "대기열에 등록되어 있지 않습니다."
      case QUEUE_ENTRY_FAILED => "대기열 진입에 실패했습니다."
      case TOKEN_NOT_FOUND => "입장 토큰이 없습니다."
      case TOKEN_EXPIRED => "입장 토큰이 만료되었습니다."
      case TOKEN_INVALID => "유효하지 않은 입장 토큰입니다."
      case SEAT_NOT_FOUND => "좌석을 찾을 수 없습니다."
      case SEAT_ALREADY_LOCKED => "이미 다른 사용자가 선점한 좌석입니다."
      case SEAT_ALREADY_RESERVED => "이미 예약 완료된 좌석입니다."
      case SEAT_NOT_LOCKED_BY_USER => "본인이 선점한 좌석이 아닙니다."
      case SEAT_LOCK_EXPIRED => "좌석 선점 시간이 만료되었습니다."
      case PAYMENT_FAILED => "결제에 실패했습니다."
      case PAYMENT_NOT_FOUND => "결제 정보를 찾을 수 없습니다."
      case RESERVATION_NOT_FOUND => "예약 정보를 찾을 수 없습니다."
      case INVALID_REQUEST => "잘못된 요청입니다."
      case INTERNAL_ERROR => "서버 내부 오류가 발생했습니다."
    }
  }

  /** Different entries have different code strings. */
  lemma CodesDistinct(a: ErrorCode, b: ErrorCode)
    requires a != b
    ensures a.Code() != b.Code()
  {
  }

  /** The HTTP statuses the queue, token and seat protocols rely on. */
  lemma ConflictAndAuthStatuses()
    ensures ALREADY_IN_QUEUE.HttpStatus() == 409
    ensures SEAT_ALREADY_LOCKED.HttpStatus() == 409 && SEAT_ALREADY_RESERVED.HttpStatus() == 409
    ensures SEAT_NOT_LOCKED_BY_USER.HttpStatus() == 403
    ensures TOKEN_NOT_FOUND.HttpStatus() == 401 && TOKEN_EXPIRED.HttpStatus() == 401 && TOKEN_INVALID.HttpStatus() == 401
  {
  }

  /**
   * `TurnstileException`: an error code and, for the two-argument
   * constructor, the additional message appended to the code's message.
   */
  datatype TurnstileException = TurnstileException(errorCode: ErrorCode, detail: Option<string>)
  {
    function Message(): (m: string)
      ensures detail.None? ==> m == errorCode.Message()
      ensures detail.Some? ==> m == errorCode.Message() + " - " + detail.value
    {
      match detail
      case None => errorCode.Message()
      case Some(d) => errorCode.Message() + " - " + d
    }
  }

  /** `new TurnstileException(code)`. */
  function Raise(code: ErrorCode): (e: TurnstileException)
    ensures e.errorCode == code && e.Message() == code.Message()
  {
    TurnstileException(code, None)
  }

  /** `new TurnstileException(code, additionalMessage)`. */
  function RaiseWith(code: ErrorCode, additionalMessage: string): (e: TurnstileException)
    ensures e.errorCode == code
    ensures e.Message() == code.Message() + " - " + additionalMessage
    ensures StartsWithMessage(e.Message(), code)
  {
    var e := TurnstileException(code, Some(additionalMessage));
    assert e.Message()[..|code.Message()|] == code.Message();
    e
  }

  /** The message of every exception begins with its code's message. */
  predicate StartsWithMessage(m: string, code: ErrorCode)
  {
    |code.Message()| <= |m| && m[..|code.Message()|] == code.Message()
  }
}
