/**
 * The Express error handler of server/src/middleware/errorHandler.js: an
 * ordered chain of tests that maps an error object to an HTTP status and a
 * domain code. The first test that matches decides.
 */
module ErrorHandler {
  import opened Common
  import opened ApiResponse

  /**
   * The fields of a thrown error that the handler consults. `status` and
   * `statusCode` are optional properties that libraries attach to errors.
   */
  datatype JsError = JsError(name: string, message: string, status: Option<int>, statusCode: Option<int>)

  /** The kinds of errors the chain tells apart, in the order it tests them. */
  datatype Kind = Validation | Unauthenticated | BadToken | ExpiredToken | Missing | Other

  function KindOf(err: JsError): (k: Kind)
    ensures k == Validation <==> err.name == "ValidationError"
    ensures k == Unauthenticated <==>
      err.name != "ValidationError" && (err.name == "UnauthorizedError" || err.message == "Unauthorized")
    ensures k == BadToken <==> err.name == "JsonWebTokenError" && err.message != "Unauthorized"
    ensures k == ExpiredToken <==> err.name == "TokenExpiredError" && err.message != "Unauthorized"
    ensures k == Missing <==>
      err.name !in {"ValidationError", "UnauthorizedError", "JsonWebTokenError", "TokenExpiredError"}
      && err.message != "Unauthorized" && err.status == Some(404)
    ensures k == Other <==>
      err.name !in {"ValidationError", "UnauthorizedError", "JsonWebTokenError", "TokenExpiredError"}
      && err.message != "Unauthorized" && err.status != Some(404)
  {
    if err.name == "ValidationError" then Validation
    else if err.name == "UnauthorizedError" || err.message == "Unauthorized" then Unauthenticated
    else if err.name == "JsonWebTokenError" then BadToken
    else if err.name == "TokenExpiredError" then ExpiredToken
    else if err.status == Some(404) then Missing
    else Other
  }

  /** `err.status || err.statusCode || 500`: a missing or zero status falls through. */
  function FallbackStatus(err: JsError): (s: int)
    ensures s != 0
    ensures s == 500 || s == err.status.GetOr(0) || s == err.statusCode.GetOr(0)
    ensures err.status.Some? && err.status.value != 0 ==> s == err.status.value
    ensures (err.status.None? || err.status.value == 0) && err.statusCode.Some? && err.statusCode.value != 0 ==>
      s == err.statusCode.value
    ensures (err.status.None? || err.status.value == 0) && (err.statusCode.None? || err.statusCode.value == 0) ==>
      s == 500
  {
    if err.status.Some? && err.status.value != 0 then err.status.value
    else if err.statusCode.Some? && err.statusCode.value != 0 then err.statusCode.value
    else 500
  }

  /**
   * The response the handler is evidently meant to send (the source calls
   * builders of the class `ApiResponse`; see `HandleAsWritten` for what it
   * does instead). `production` is `NODE_ENV === 'production'`.
   */
  function Handle(err: JsError, production: bool): (r: Reply<()>)
    ensures Consistent(r) && r.body.data.None?
    ensures KindOf(err) == Validation ==> r.httpStatus == 400 && r.body.code == "VALIDATION_ERROR" && r.body.msg == err.message
    ensures KindOf(err) == Unauthenticated ==> r.httpStatus == 401 && r.body.code == "UNAUTHORIZED"
    ensures KindOf(err) == BadToken ==> r.httpStatus == 401 && r.body.code == "INVALID_TOKEN"
    ensures KindOf(err) == ExpiredToken ==> r.httpStatus == 401 && r.body.code == "TOKEN_EXPIRED"
    ensures KindOf(err) == Missing ==> r.httpStatus == 404 && r.body.code == "NOT_FOUND"
    ensures KindOf(err) == Other ==>
      r.httpStatus == FallbackStatus(err) && r.body.code == "INTERNAL_ERROR"
      && r.body.msg == (if production then "Internal server error" else err.message)
  {
    match KindOf(err)
    case Validation => Reply(400, ValidationError(Some(err.message), Some("VALIDATION_ERROR")))
    case Unauthenticated => Reply(401, Unauthorized(Some("Authentication required"), Some("UNAUTHORIZED")))
    case BadToken => Reply(401, Unauthorized(Some("Invalid token"), Some("INVALID_TOKEN")))
    case ExpiredToken => Reply(401, Unauthorized(Some("Token expired"), Some("TOKEN_EXPIRED")))
    case Missing => Reply(404, NotFound(Some("Resource not found"), Some("NOT_FOUND")))
    case Other =>
      var status := FallbackStatus(err);
      var message := if production then "Internal server error" else err.message;
      Reply(status, ApiResponse.Error(Some(message), Some("INTERNAL_ERROR"), Some(status)))
  }

  /**
   * Errors that a library raises with an HTTP status do not override the
   * chain: a ValidationError that carries status 500 is still a 400, and a
   * token error with status 404 is still a 401.
   */
  lemma EarlierRuleWins(message: string, status: Option<int>, statusCode: Option<int>, production: bool)
    ensures Handle(JsError("ValidationError", message, status, statusCode), production).httpStatus == 400
    ensures Handle(JsError("JsonWebTokenError", message, status, statusCode), production).httpStatus == 401
    ensures Handle(JsError("TokenExpiredError", message, status, statusCode), production).httpStatus == 401
  {
  }

  /** In production no error other than a validation error leaks its message to the client. */
  lemma ProductionHidesMessages(err: JsError)
    requires KindOf(err) != Validation
    ensures Handle(err, true).body.msg in
      {"Authentication required", "Invalid token", "Token expired", "Resource not found", "Internal server error"}
  {
  }

  // ---- The handler as written ----

  /**
   * Either a response is sent, or the handler itself throws after it has
   * already set the status line to `status`.
   */
  datatype Outcome = Sent(reply: Reply<()>) | Threw(error: JsError, status: int)

  /**
   * errorHandler.js:1 binds `ApiResponse` to the whole exports object of
   * response.js, `{ApiResponse, sendSuccess, sendError}`. None of
   * `validationError`, `unauthorized`, `notFound` or `error` is a property
   * of that object, so whichever branch is taken calls `undefined` and
   * throws a TypeError. `res.status(...)` is evaluated before the builder
   * call, so the intended status is set but no JSON body is written.
   */
  function HandleAsWritten(err: JsError, production: bool): (o: Outcome)
    ensures o.Threw? && o.error.name == "TypeError"
    ensures o.status == Handle(err, production).httpStatus
  {
    var (member, status) :=
      match KindOf(err)
      case Validation => ("validationError", 400)
      case Unauthenticated => ("unauthorized", 401)
      case BadToken => ("unauthorized", 401)
      case ExpiredToken => ("unauthorized", 401)
      case Missing => ("notFound", 404)
      case Other => ("error", FallbackStatus(err));
    Threw(JsError("TypeError", "ApiResponse." + member + " is not a function", None, None), status)
  }

  /**
   * A validation error shows the gap: the status line is the intended 400,
   * but the handler throws instead of sending the `VALIDATION_ERROR`
   * envelope, and what reaches the client is whatever Express's own final
   * handler makes of the TypeError.
   */
  lemma AsWrittenLosesEnvelope(message: string)
    ensures HandleAsWritten(JsError("ValidationError", message, None, None), false).Threw?
    ensures HandleAsWritten(JsError("ValidationError", message, None, None), false).status == 400
    ensures Handle(JsError("ValidationError", message, None, None), false).body.code == "VALIDATION_ERROR"
  {
  }
}
