/** The error-response policy (internal/errors/handler.go): every failure is
    answered with a fixed status code, and how much is revealed (the error
    text, the requested resource, the request id) depends on the error mode
    and the environment of the configuration. Writing the JSON and logging are
    not modelled. */
module ErrorHandler {
  import opened Wrappers
  import opened Config

  /** The JSON body of an error; an empty `requestId` or `details` is
      omitted from the output. */
  datatype ErrorResponse = ErrorResponse(code: int, status: string, message: string, requestId: string, details: string)

  const SecureMode: string := "secure"

  /** The four client-error handlers hide everything in secure mode or in
      production. */
  predicate Guarded(cfg: Config) {
    cfg.security.errorMode == SecureMode || IsProduction(cfg)
  }

  /** The server-error handlers show details only in development with a
      non-secure mode. */
  predicate Verbose(cfg: Config) {
    IsDevelopment(cfg) && cfg.security.errorMode != SecureMode
  }

  /** `getRequestID`: suppressed only in production with the secure mode. */
  function GetRequestId(cfg: Config, requestId: string): (r: string)
    ensures IsProduction(cfg) && cfg.security.errorMode == SecureMode ==> r == ""
    ensures !(IsProduction(cfg) && cfg.security.errorMode == SecureMode) ==> r == requestId
  {
    if IsProduction(cfg) && cfg.security.errorMode == SecureMode then "" else requestId
  }

  /** The shape shared by the authentication, authorization, validation and
      not-found handlers: a generic message when guarded, otherwise a more
      specific one with the raw request id and the details. */
  function ClientError(cfg: Config, code: int, status: string, guardedMessage: string, openMessage: string,
                       details: string, requestId: string): (r: ErrorResponse)
    ensures r.code == code && r.status == status
    ensures Guarded(cfg) ==> r.message == guardedMessage && r.details == "" && r.requestId == GetRequestId(cfg, requestId)
    ensures !Guarded(cfg) ==> r.message == openMessage && r.details == details && r.requestId == requestId
  {
    if Guarded(cfg) then ErrorResponse(code, status, guardedMessage, GetRequestId(cfg, requestId), "")
    else ErrorResponse(code, status, openMessage, requestId, details)
  }

  /** The shape shared by the internal and database handlers. */
  function ServerError(cfg: Config, message: string, err: string, requestId: string): (r: ErrorResponse)
    ensures r.code == 500 && r.message == message && r.requestId == GetRequestId(cfg, requestId)
    ensures r.details == (if Verbose(cfg) then err else "")
  {
    ErrorResponse(500, "Internal Server Error", message, GetRequestId(cfg, requestId),
                  if Verbose(cfg) then err else "")
  }

  function HandleAuthError(cfg: Config, err: string, requestId: string): (r: ErrorResponse)
    ensures r.code == 401 && r.status == "Unauthorized"
    ensures Guarded(cfg) ==> r.message == "Authentication required" && r.details == "" && r.requestId == GetRequestId(cfg, requestId)
    ensures !Guarded(cfg) ==> r.message == "Authentication failed" && r.details == err && r.requestId == requestId
  {
    ClientError(cfg, 401, "Unauthorized", "Authentication required", "Authentication failed", err, requestId)
  }

  function HandleAuthorizationError(cfg: Config, err: string, requestId: string): (r: ErrorResponse)
    ensures r.code == 403 && r.status == "Forbidden"
    ensures Guarded(cfg) ==> r.message == "Access denied" && r.details == "" && r.requestId == GetRequestId(cfg, requestId)
    ensures !Guarded(cfg) ==> r.message == "Permission denied" && r.details == err && r.requestId == requestId
  {
    ClientError(cfg, 403, "Forbidden", "Access denied", "Permission denied", err, requestId)
  }

  function HandleValidationError(cfg: Config, err: string, requestId: string): (r: ErrorResponse)
    ensures r.code == 400 && r.status == "Bad Request"
    ensures Guarded(cfg) ==> r.message == "Invalid request" && r.details == "" && r.requestId == GetRequestId(cfg, requestId)
    ensures !Guarded(cfg) ==> r.message == "Invalid request parameters" && r.details == err && r.requestId == requestId
  {
    ClientError(cfg, 400, "Bad Request", "Invalid request", "Invalid request parameters", err, requestId)
  }

  /** Not-found names the resource only when not guarded, and never carries
      details. */
  function HandleNotFoundError(cfg: Config, resource: string, requestId: string): (r: ErrorResponse)
    ensures r.code == 404 && r.status == "Not Found" && r.details == ""
    ensures Guarded(cfg) ==> r.message == "Resource not found" && r.requestId == GetRequestId(cfg, requestId)
    ensures !Guarded(cfg) ==> r.message == "Resource not found: " + resource && r.requestId == requestId
  {
    ClientError(cfg, 404, "Not Found", "Resource not found", "Resource not found: " + resource, "", requestId)
  }

  function HandleInternalError(cfg: Config, err: string, requestId: string): (r: ErrorResponse)
    ensures r.code == 500 && r.status == "Internal Server Error" && r.message == "An internal error occurred"
    ensures r.requestId == GetRequestId(cfg, requestId)
    ensures Verbose(cfg) ==> r.details == err
    ensures !Verbose(cfg) ==> r.details == ""
  {
    ServerError(cfg, "An internal error occurred", err, requestId)
  }

  function HandleDatabaseError(cfg: Config, err: string, requestId: string): (r: ErrorResponse)
    ensures r.code == 500 && r.status == "Internal Server Error" && r.message == "Database operation failed"
    ensures r.requestId == GetRequestId(cfg, requestId)
    ensures Verbose(cfg) ==> r.details == err
    ensures !Verbose(cfg) ==> r.details == ""
  {
    ServerError(cfg, "Database operation failed", err, requestId)
  }

  /** Rate limiting never carries details. */
  function HandleRateLimitError(cfg: Config, requestId: string): (r: ErrorResponse)
    ensures r.code == 429 && r.details == ""
  {
    ErrorResponse(429, "Too Many Requests", "Rate limit exceeded", GetRequestId(cfg, requestId), "")
  }

  /** A failing external service: the service name and the error appear only
      when verbose. */
  function HandleServiceError(cfg: Config, service: string, err: string, requestId: string): (r: ErrorResponse)
    ensures r.code == 502 && r.requestId == GetRequestId(cfg, requestId)
    ensures !Verbose(cfg) ==> r.message == "External service unavailable" && r.details == ""
    ensures Verbose(cfg) ==> r.message == "Service unavailable: " + service && r.details == err
  {
    var base := ErrorResponse(502, "Bad Gateway", "External service unavailable", GetRequestId(cfg, requestId), "");
    if Verbose(cfg) then base.(message := "Service unavailable: " + service, details := err) else base
  }

  /** The failures the handlers answer, with the text each one may reveal. */
  datatype Failure =
    | Authentication(err: string)
    | Authorization(err: string)
    | Validation(err: string)
    | Internal(err: string)
    | NotFound(resource: string)
    | RateLimit
    | Database(err: string)
    | Service(service: string, err: string)

  /** The handler for each failure. */
  function Respond(cfg: Config, f: Failure, requestId: string): ErrorResponse {
    match f
    case Authentication(e) => HandleAuthError(cfg, e, requestId)
    case Authorization(e) => HandleAuthorizationError(cfg, e, requestId)
    case Validation(e) => HandleValidationError(cfg, e, requestId)
    case Internal(e) => HandleInternalError(cfg, e, requestId)
    case NotFound(r) => HandleNotFoundError(cfg, r, requestId)
    case RateLimit => HandleRateLimitError(cfg, requestId)
    case Database(e) => HandleDatabaseError(cfg, e, requestId)
    case Service(s, e) => HandleServiceError(cfg, s, e, requestId)
  }

  /** The status code of each failure, independent of every setting. */
  function StatusCode(f: Failure): int {
    match f
    case Authentication(_) => 401
    case Authorization(_) => 403
    case Validation(_) => 400
    case Internal(_) => 500
    case NotFound(_) => 404
    case RateLimit => 429
    case Database(_) => 500
    case Service(_, _) => 502
  }

  /** The same failure with every caller-supplied text blanked. */
  function Redacted(f: Failure): Failure {
    match f
    case Authentication(_) => Authentication("")
    case Authorization(_) => Authorization("")
    case Validation(_) => Validation("")
    case Internal(_) => Internal("")
    case NotFound(_) => NotFound("")
    case RateLimit => RateLimit
    case Database(_) => Database("")
    case Service(_, _) => Service("", "")
  }

  /** The status code never depends on the configuration. */
  lemma StatusCodeFixed(cfg: Config, f: Failure, requestId: string)
    ensures Respond(cfg, f, requestId).code == StatusCode(f)
  {
  }

  /** Guarded mode implies the server errors are quiet too. */
  lemma GuardedIsQuiet(cfg: Config)
    requires Guarded(cfg)
    ensures !Verbose(cfg)
  {
  }

  /** Secure mode or production leaks nothing: the response is the one for the
      redacted failure, so no error text, resource or service name can be
      read from it, and it carries no details. */
  lemma GuardedRevealsNothing(cfg: Config, f: Failure, requestId: string)
    requires Guarded(cfg)
    ensures Respond(cfg, f, requestId) == Respond(cfg, Redacted(f), requestId)
    ensures Respond(cfg, f, requestId).details == ""
  {
    GuardedIsQuiet(cfg);
  }

  /** Outside development, or in secure mode, the server errors carry no
      details; production with secure mode also drops the request id. */
  lemma QuietServerErrors(cfg: Config, f: Failure, requestId: string)
    requires !Verbose(cfg)
    requires f.Internal? || f.Database? || f.Service? || f.RateLimit?
    ensures Respond(cfg, f, requestId).details == ""
    ensures IsProduction(cfg) && cfg.security.errorMode == SecureMode ==> Respond(cfg, f, requestId).requestId == ""
  {
  }

  /** `getClientIP`: X-Forwarded-For, then X-Real-IP, then the socket
      address, skipping empty headers. */
  function GetClientIp(forwardedFor: string, realIp: string, remoteAddr: string): (r: string)
    ensures r in {forwardedFor, realIp, remoteAddr}
    ensures forwardedFor != "" ==> r == forwardedFor
    ensures forwardedFor == "" && realIp != "" ==> r == realIp
    ensures forwardedFor == "" && realIp == "" ==> r == remoteAddr
  {
    if forwardedFor != "" then forwardedFor
    else if realIp != "" then realIp
    else remoteAddr
  }

  // ----- StandardError -----

  /** A `StandardError`, whose cause is any Go error: a plain one, known by
      its text, or another `StandardError`. */
  datatype StandardError = StandardError(kind: string, message: string, cause: Option<Cause>)
  datatype Cause = Plain(text: string) | Standard(inner: StandardError)

  /** `Error()`: the message, followed by ": " and the cause's text when
      there is a cause. */
  function ErrorText(e: StandardError): (r: string)
    ensures e.message <= r
    ensures e.cause.None? <==> r == e.message
    decreases e, 1
  {
    match e.cause
    case None => e.message
    case Some(c) => e.message + ": " + CauseText(c)
  }

  function CauseText(c: Cause): string
    decreases c, 0
  {
    match c
    case Plain(t) => t
    case Standard(inner) => ErrorText(inner)
  }

  /** `Unwrap`. */
  function Unwrap(e: StandardError): (r: Option<Cause>)
    ensures r == e.cause
  {
    e.cause
  }

  /** `WithCause`: a new error of the same type and message with the given
      cause; the receiver is a value and stays as it was. */
  function WithCause(e: StandardError, cause: Cause): (r: StandardError)
    ensures r.kind == e.kind && r.message == e.message
    ensures Unwrap(r) == Some(cause)
  {
    StandardError(e.kind, e.message, Some(cause))
  }

  /** Wrapping and unwrapping: the cause put in is the cause taken out, and
      the text is the message followed by the cause's text. */
  lemma WithCauseRoundTrip(e: StandardError, cause: Cause)
    ensures Unwrap(WithCause(e, cause)) == Some(cause)
    ensures ErrorText(WithCause(e, cause)) == e.message + ": " + CauseText(cause)
    ensures WithCause(e, cause).(cause := e.cause) == e
  {
  }

  /** Every message along a chain of causes appears in the text, outermost
      first. */
  lemma ChainTextHasInnerText(e: StandardError, inner: StandardError)
    requires e.cause == Some(Standard(inner))
    ensures ErrorText(e) == e.message + ": " + ErrorText(inner)
    ensures inner.message <= ErrorText(e)[|e.message| + 2..]
  {
  }

  const ErrInvalidAuthHeader: StandardError := StandardError("INVALID_AUTH_HEADER", "Invalid authorization header format", None)
  const ErrMissingAuthHeader: StandardError := StandardError("MISSING_AUTH_HEADER", "Missing authorization header", None)
  const ErrUserNotFound: StandardError := StandardError("USER_NOT_FOUND", "User not found", None)
  const ErrInvalidToken: StandardError := StandardError("INVALID_TOKEN", "Invalid token", None)

  /** The predefined errors have no cause, so their text is their message. */
  lemma PredefinedTexts()
    ensures ErrorText(ErrInvalidAuthHeader) == "Invalid authorization header format"
    ensures ErrorText(ErrMissingAuthHeader) == "Missing authorization header"
    ensures ErrorText(ErrUserNotFound) == "User not found"
    ensures ErrorText(ErrInvalidToken) == "Invalid token"
  {
  }
}
