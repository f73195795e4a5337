/**
 * The shared result-code tables: three success entries and the error
 * entries every API response may carry, each with a code string, a message
 * and an HTTP status.
 */
module ResultCode {

  import opened Wrappers

  datatype Success = OK | CREATED | NO_CONTENT
  {
    function Code(): string
    {
      match this
      case OK => "SUC-000"
      case CREATED => "SUC-001"
      case NO_CONTENT => "SUC-002"
    }

    function Message(): string
    {
      match this
      case OK => "Success."
      case CREATED => "Resource created successfully."
      case NO_CONTENT => "Processed successfully, no content."
    }

    function HttpStatus(): int
    {
      match this
      case OK => 200
      case CREATED => 201
      case NO_CONTENT => 204
    }
  }

  datatype Error =
    | AUTH_REQUIRED | AUTH_TOKEN_EXPIRED | AUTH_TOKEN_INVALID | AUTH_LOGIN_FAILED
    | OAUTH_UNSUPPORTED_GRANT_TYPE | OAUTH_INVALID_CLIENT | OAUTH_CLIENT_DISABLED | OAUTH_INVALID_SCOPE
    | ACCESS_DENIED | ACCESS_IP_NOT_ALLOWED
    | REQ_INVALID | REQ_MISSING_PARAMETER | REQ_INVALID_PARAMETER | REQ_INVALID_FORMAT
    | REQ_METHOD_NOT_ALLOWED | REQ_UNSUPPORTED_MEDIA_TYPE | REQ_RATE_LIMITED
    | RSC_NOT_FOUND | RSC_ALREADY_EXISTS
    | BIZ_RULE_VIOLATION
    | API_CALL_FAILED | API_TIMEOUT | API_SERVICE_UNAVAILABLE
    | DB_ERROR
    | FILE_SIZE_EXCEEDED | FILE_EXTENSION_NOT_ALLOWED
    | SEC_ENCRYPTION_ERROR
    | SYS_INTERNAL_ERROR | SYS_MAINTENANCE
  {
    function Code(): string
    {
      match this
      case AUTH_REQUIRED => "AUTH-001"
      case AUTH_TOKEN_EXPIRED => "AUTH-002"
      case AUTH_TOKEN_INVALID => "AUTH-003"
      case AUTH_LOGIN_FAILED => "AUTH-004"
      case OAUTH_UNSUPPORTED_GRANT_TYPE => "OAUTH-001"
      case OAUTH_INVALID_CLIENT => "OAUTH-002"
      case OAUTH_CLIENT_DISABLED => "OAUTH-003"
      case OAUTH_INVALID_SCOPE => "OAUTH-004"
      case ACCESS_DENIED => "ACCESS-001"
      case ACCESS_IP_NOT_ALLOWED => "ACCESS-002"
      case REQ_INVALID => "REQ-001"
      case REQ_MISSING_PARAMETER => "REQ-002"
      case REQ_INVALID_PARAMETER => "REQ-003"
      case REQ_INVALID_FORMAT => "REQ-004"
      case REQ_METHOD_NOT_ALLOWED => "REQ-006"
      case REQ_UNSUPPORTED_MEDIA_TYPE => "REQ-007"
      case REQ_RATE_LIMITED => "REQ-008"
      case RSC_NOT_FOUND => "RSC-001"
      case RSC_ALREADY_EXISTS => "RSC-003"
      case BIZ_RULE_VIOLATION => "BIZ-001"
      case API_CALL_FAILED => "API-001"
      case API_TIMEOUT => "API-002"
      case API_SERVICE_UNAVAILABLE => "API-003"
      case DB_ERROR => "DB-001"
      case FILE_SIZE_EXCEEDED => "FILE-003"
      case FILE_EXTENSION_NOT_ALLOWED => "FILE-004"
      case SEC_ENCRYPTION_ERROR => "SEC-001"
      case SYS_INTERNAL_ERROR => "SYS-001"
      case SYS_MAINTENANCE => "SYS-002"
    }

    function Message(): string
    {
      match this
      case AUTH_REQUIRED => "Authentication is required."
      case AUTH_TOKEN_EXPIRED => "Token has expired."
      case AUTH_TOKEN_INVALID => "Invalid token."
      case AUTH_LOGIN_FAILED => "Login failed. Check your ID or password."
      case OAUTH_UNSUPPORTED_GRANT_TYPE => "Unsupported grant_type."
      case OAUTH_INVALID_CLIENT => "Invalid client_id or client_secret."
      case OAUTH_CLIENT_DISABLED => "Client is disabled."
      case OAUTH_INVALID_SCOPE => "Invalid scope."
      case ACCESS_DENIED => "Access denied."
      case ACCESS_IP_NOT_ALLOWED => "Access denied from this IP address."
      case REQ_INVALID => "Invalid request."
      case REQ_MISSING_PARAMETER => "Missing parameter."
      case REQ_INVALID_PARAMETER => "Invalid parameter."
      case REQ_INVALID_FORMAT => "Invalid format."
      case REQ_METHOD_NOT_ALLOWED => "Method not allowed."
      case REQ_UNSUPPORTED_MEDIA_TYPE => "Unsupported media type."
      case REQ_RATE_LIMITED => "Too many requests."
      case RSC_NOT_FOUND => "Resource not found."
      case RSC_ALREADY_EXISTS => "Resource already exists."
      case BIZ_RULE_VIOLATION => "Business rule violation."
      case API_CALL_FAILED => "External API call failed."
      case API_TIMEOUT => "External API timeout."
      case API_SERVICE_UNAVAILABLE => "External service unavailable."
      case DB_ERROR => "Database error."
      case FILE_SIZE_EXCEEDED => "File size exceeded maximum limit."
      case FILE_EXTENSION_NOT_ALLOWED => "File extension not allowed."
      case SEC_ENCRYPTION_ERROR => "Encryption failed."
      case SYS_INTERNAL_ERROR => "Internal server error."
      case SYS_MAINTENANCE => "System maintenance."
    }

    /** The numeric value of the Spring `HttpStatus` the entry names. */
    function HttpStatus(): int
    {
      match this
      case AUTH_REQUIRED | AUTH_TOKEN_EXPIRED | AUTH_TOKEN_INVALID | AUTH_LOGIN_FAILED => 401
      case OAUTH_UNSUPPORTED_GRANT_TYPE => 400
      case OAUTH_INVALID_CLIENT => 401
      case OAUTH_CLIENT_DISABLED => 403
      case OAUTH_INVALID_SCOPE => 400
      case ACCESS_DENIED | ACCESS_IP_NOT_ALLOWED => 403
      case REQ_INVALID | REQ_MISSING_PARAMETER | REQ_INVALID_PARAMETER | REQ_INVALID_FORMAT => 400
      case REQ_METHOD_NOT_ALLOWED => 405
      case REQ_UNSUPPORTED_MEDIA_TYPE => 415
      case REQ_RATE_LIMITED => 429
      case RSC_NOT_FOUND => 404
      case RSC_ALREADY_EXISTS => 409
      case BIZ_RULE_VIOLATION => 400
      case API_CALL_FAILED => 500
      case API_TIMEOUT => 504
      case API_SERVICE_UNAVAILABLE => 503
      case DB_ERROR => 500
      case FILE_SIZE_EXCEEDED => 413
      case FILE_EXTENSION_NOT_ALLOWED => 400
      case SEC_ENCRYPTION_ERROR => 500
      case SYS_INTERNAL_ERROR => 500
      case SYS_MAINTENANCE => 503
    }
  }

  /** The success entries, in declaration order (`Success.values()`). */
  const SUCCESS_VALUES: seq<Success> := [OK, CREATED, NO_CONTENT]

  /** `isSuccess`: some success entry has exactly this code. */
  predicate IsSuccess(code: string)
  {
    exists i | 0 <= i < |SUCCESS_VALUES| :: SUCCESS_VALUES[i].Code() == code
  }

  /** A code is a success code exactly when it is one of the three SUC codes. */
  lemma IsSuccessCodes(code: string)
    ensures IsSuccess(code) <==> code in {"SUC-000", "SUC-001", "SUC-002"}
  {
    if code in {"SUC-000", "SUC-001", "SUC-002"} {
      var i := if code == "SUC-000" then 0 else if code == "SUC-001" then 1 else 2;
      assert SUCCESS_VALUES[i].Code() == code;
    }
  }

  /** Every success entry is recognised by its own code. */
  lemma SuccessCodesSucceed(s: Success)
    ensures IsSuccess(s.Code())
  {
    var i := match s case OK => 0 case CREATED => 1 case NO_CONTENT => 2;
    assert SUCCESS_VALUES[i] == s;
  }

  /** No error entry's code is a success code. */
  lemma ErrorCodesFail(e: Error)
    ensures !IsSuccess(e.Code())
  {
    IsSuccessCodes(e.Code());
  }

  /**
   * The entry whose code has the same first two and last characters as `c`,
   * if any. These three characters already tell all error codes apart, so
   * this is an inverse of `Error.Code`.
   */
  ghost function CodeOwner(c: string): Option<Error>
  {
    if |c| < 2 then None
    else if c[0] == 'A' && c[1] == 'U' && c[|c| - 1] == '1' then Some(AUTH_REQUIRED)
    else if c[0] == 'A' && c[1] == 'U' && c[|c| - 1] == '2' then Some(AUTH_TOKEN_EXPIRED)
    else if c[0] == 'A' && c[1] == 'U' && c[|c| - 1] == '3' then Some(AUTH_TOKEN_INVALID)
    else if c[0] == 'A' && c[1] == 'U' && c[|c| - 1] == '4' then Some(AUTH_LOGIN_FAILED)
    else if c[0] == 'O' && c[1] == 'A' && c[|c| - 1] == '1' then Some(OAUTH_UNSUPPORTED_GRANT_TYPE)
    else if c[0] == 'O' && c[1] == 'A' && c[|c| - 1] == '2' then Some(OAUTH_INVALID_CLIENT)
    else if c[0] == 'O' && c[1] == 'A' && c[|c| - 1] == '3' then Some(OAUTH_CLIENT_DISABLED)
    else if c[0] == 'O' && c[1] == 'A' && c[|c| - 1] == '4' then Some(OAUTH_INVALID_SCOPE)
    else if c[0] == 'A' && c[1] == 'C' && c[|c| - 1] == '1' then Some(ACCESS_DENIED)
    else if c[0] == 'A' && c[1] == 'C' && c[|c| - 1] == '2' then Some(ACCESS_IP_NOT_ALLOWED)
    else if c[0] == 'R' && c[1] == 'E' && c[|c| - 1] == '1' then Some(REQ_INVALID)
    else if c[0] == 'R' && c[1] == 'E' && c[|c| - 1] == '2' then Some(REQ_MISSING_PARAMETER)
    else if c[0] == 'R' && c[1] == 'E' && c[|c| - 1] == '3' then Some(REQ_INVALID_PARAMETER)
    else if c[0] == 'R' && c[1] == 'E' && c[|c| - 1] == '4' then Some(REQ_INVALID_FORMAT)
    else if c[0] == 'R' && c[1] == 'E' && c[|c| - 1] == '6' then Some(REQ_METHOD_NOT_ALLOWED)
    else if c[0] == 'R' && c[1] == 'E' && c[|c| - 1] == '7' then Some(REQ_UNSUPPORTED_MEDIA_TYPE)
    else if c[0] == 'R' && c[1] == 'E' && c[|c| - 1] == '8' then Some(REQ_RATE_LIMITED)
    else if c[0] == 'R' && c[1] == 'S' && c[|c| - 1] == '1' then Some(RSC_NOT_FOUND)
    else if c[0] == 'R' && c[1] == 'S' && c[|c| - 1] == '3' then Some(RSC_ALREADY_EXISTS)
    else if c[0] == 'B' && c[1] == 'I' && c[|c| - 1] == '1' then Some(BIZ_RULE_VIOLATION)
    else if c[0] == 'A' && c[1] == 'P' && c[|c| - 1] == '1' then Some(API_CALL_FAILED)
    else if c[0] == 'A' && c[1] == 'P' && c[|c| - 1] == '2' then Some(API_TIMEOUT)
    else if c[0] == 'A' && c[1] == 'P' && c[|c| - 1] == '3' then Some(API_SERVICE_UNAVAILABLE)
    else if c[0] == 'D' && c[1] == 'B' && c[|c| - 1] == '1' then Some(DB_ERROR)
    else if c[0] == 'F' && c[1] == 'I' && c[|c| - 1] == '3' then Some(FILE_SIZE_EXCEEDED)
    else if c[0] == 'F' && c[1] == 'I' && c[|c| - 1] == '4' then Some(FILE_EXTENSION_NOT_ALLOWED)
    else if c[0] == 'S' && c[1] == 'E' && c[|c| - 1] == '1' then Some(SEC_ENCRYPTION_ERROR)
    else if c[0] == 'S' && c[1] == 'Y' && c[|c| - 1] == '1' then Some(SYS_INTERNAL_ERROR)
    else if c[0] == 'S' && c[1] == 'Y' && c[|c| - 1] == '2' then Some(SYS_MAINTENANCE)
    else None
  }

  /** Each error entry is the owner of its own code. */
  lemma CodeOwnerOfCode(e: Error)
    ensures CodeOwner(e.Code()) == Some(e)
  {
    if e.AUTH_REQUIRED? || e.AUTH_TOKEN_EXPIRED? || e.AUTH_TOKEN_INVALID? || e.AUTH_LOGIN_FAILED? || e.OAUTH_UNSUPPORTED_GRANT_TYPE? || e.OAUTH_INVALID_CLIENT? || e.OAUTH_CLIENT_DISABLED? || e.OAUTH_INVALID_SCOPE? { CodeOwnerOfCodeA(e); }
    else if e.ACCESS_DENIED? || e.ACCESS_IP_NOT_ALLOWED? || e.REQ_INVALID? || e.REQ_MISSING_PARAMETER? || e.REQ_INVALID_PARAMETER? || e.REQ_INVALID_FORMAT? || e.REQ_METHOD_NOT_ALLOWED? { CodeOwnerOfCodeB(e); }
    else if e.REQ_UNSUPPORTED_MEDIA_TYPE? || e.REQ_RATE_LIMITED? || e.RSC_NOT_FOUND? || e.RSC_ALREADY_EXISTS? || e.BIZ_RULE_VIOLATION? || e.API_CALL_FAILED? || e.API_TIMEOUT? { CodeOwnerOfCodeC(e); }
    else { CodeOwnerOfCodeD(e); }
  }

  /** The round trip, proved a quarter of the entries at a time. */
  lemma CodeOwnerOfCodeA(e: Error)
    requires e.AUTH_REQUIRED? || e.AUTH_TOKEN_EXPIRED? || e.AUTH_TOKEN_INVALID? || e.AUTH_LOGIN_FAILED? || e.OAUTH_UNSUPPORTED_GRANT_TYPE? || e.OAUTH_INVALID_CLIENT? || e.OAUTH_CLIENT_DISABLED? || e.OAUTH_INVALID_SCOPE?
    ensures CodeOwner(e.Code()) == Some(e)
  {
    var c := e.Code();
    match e
    case AUTH_REQUIRED => assert c[0] == 'A' && c[1] == 'U' && c[|c| - 1] == '1';
    case AUTH_TOKEN_EXPIRED => assert c[0] == 'A' && c[1] == 'U' && c[|c| - 1] == '2';
    case AUTH_TOKEN_INVALID => assert c[0] == 'A' && c[1] == 'U' && c[|c| - 1] == '3';
    case AUTH_LOGIN_FAILED => assert c[0] == 'A' && c[1] == 'U' && c[|c| - 1] == '4';
    case OAUTH_UNSUPPORTED_GRANT_TYPE => assert c[0] == 'O' && c[1] == 'A' && c[|c| - 1] == '1';
    case OAUTH_INVALID_CLIENT => assert c[0] == 'O' && c[1] == 'A' && c[|c| - 1] == '2';
    case OAUTH_CLIENT_DISABLED => assert c[0] == 'O' && c[1] == 'A' && c[|c| - 1] == '3';
    case OAUTH_INVALID_SCOPE => assert c[0] == 'O' && c[1] == 'A' && c[|c| - 1] == '4';
  }

  lemma CodeOwnerOfCodeB(e: Error)
    requires e.ACCESS_DENIED? || e.ACCESS_IP_NOT_ALLOWED? || e.REQ_INVALID? || e.REQ_MISSING_PARAMETER? || e.REQ_INVALID_PARAMETER? || e.REQ_INVALID_FORMAT? || e.REQ_METHOD_NOT_ALLOWED?
    ensures CodeOwner(e.Code()) == Some(e)
  {
    var c := e.Code();
    match e
    case ACCESS_DENIED => assert c[0] == 'A' && c[1] == 'C' && c[|c| - 1] == '1';
    case ACCESS_IP_NOT_ALLOWED => assert c[0] == 'A' && c[1] == 'C' && c[|c| - 1] == '2';
    case REQ_INVALID => assert c[0] == 'R' && c[1] == 'E' && c[|c| - 1] == '1';
    case REQ_MISSING_PARAMETER => assert c[0] == 'R' && c[1] == 'E' && c[|c| - 1] == '2';
    case REQ_INVALID_PARAMETER => assert c[0] == 'R' && c[1] == 'E' && c[|c| - 1] == '3';
    case REQ_INVALID_FORMAT => assert c[0] == 'R' && c[1] == 'E' && c[|c| - 1] == '4';
    case REQ_METHOD_NOT_ALLOWED => assert c[0] == 'R' && c[1] == 'E' && c[|c| - 1] == '6';
  }

  lemma CodeOwnerOfCodeC(e: Error)
    requires e.REQ_UNSUPPORTED_MEDIA_TYPE? || e.REQ_RATE_LIMITED? || e.RSC_NOT_FOUND? || e.RSC_ALREADY_EXISTS? || e.BIZ_RULE_VIOLATION? || e.API_CALL_FAILED? || e.API_TIMEOUT?
    ensures CodeOwner(e.Code()) == Some(e)
  {
    var c := e.Code();
    match e
    case REQ_UNSUPPORTED_MEDIA_TYPE => assert c[0] == 'R' && c[1] == 'E' && c[|c| - 1] == '7';
    case REQ_RATE_LIMITED => assert c[0] == 'R' && c[1] == 'E' && c[|c| - 1] == '8';
    case RSC_NOT_FOUND => assert c[0] == 'R' && c[1] == 'S' && c[|c| - 1] == '1';
    case RSC_ALREADY_EXISTS => assert c[0] == 'R' && c[1] == 'S' && c[|c| - 1] == '3';
    case BIZ_RULE_VIOLATION => assert c[0] == 'B' && c[1] == 'I' && c[|c| - 1] == '1';
    case API_CALL_FAILED => assert c[0] == 'A' && c[1] == 'P' && c[|c| - 1] == '1';
    case API_TIMEOUT => assert c[0] == 'A' && c[1] == 'P' && c[|c| - 1] == '2';
  }

  lemma CodeOwnerOfCodeD(e: Error)
    requires e.API_SERVICE_UNAVAILABLE? || e.DB_ERROR? || e.FILE_SIZE_EXCEEDED? || e.FILE_EXTENSION_NOT_ALLOWED? || e.SEC_ENCRYPTION_ERROR? || e.SYS_INTERNAL_ERROR? || e.SYS_MAINTENANCE?
    ensures CodeOwner(e.Code()) == Some(e)
  {
    var c := e.Code();
    match e
    case API_SERVICE_UNAVAILABLE => assert c[0] == 'A' && c[1] == 'P' && c[|c| - 1] == '3';
    case DB_ERROR => assert c[0] == 'D' && c[1] == 'B' && c[|c| - 1] == '1';
    case FILE_SIZE_EXCEEDED => assert c[0] == 'F' && c[1] == 'I' && c[|c| - 1] == '3';
    case FILE_EXTENSION_NOT_ALLOWED => assert c[0] == 'F' && c[1] == 'I' && c[|c| - 1] == '4';
    case SEC_ENCRYPTION_ERROR => assert c[0] == 'S' && c[1] == 'E' && c[|c| - 1] == '1';
    case SYS_INTERNAL_ERROR => assert c[0] == 'S' && c[1] == 'Y' && c[|c| - 1] == '1';
    case SYS_MAINTENANCE => assert c[0] == 'S' && c[1] == 'Y' && c[|c| - 1] == '2';
  }

  /** Different error entries have different code strings. */
  lemma ErrorCodesDistinct(a: Error, b: Error)
    requires a != b
    ensures a.Code() != b.Code()
  {
    CodeOwnerOfCode(a);
    CodeOwnerOfCode(b);
  }

  /** The success entries carry 200, 201 and 204. */
  lemma SuccessStatuses()
    ensures OK.HttpStatus() == 200 && CREATED.HttpStatus() == 201 && NO_CONTENT.HttpStatus() == 204
  {
  }
}
