/**
 * The uniform JSON envelope `{status, msg, data, code}` of server/src/utils/response.js
 * and the two helpers every controller answers through.
 *
 * A JavaScript default parameter applies when the argument is `undefined`;
 * here an omitted argument is `None`. `data: null` is `None` as well.
 */
module ApiResponse {
  import opened Common

  datatype Body<D> = Body(status: int, msg: string, data: Option<D>, code: string)

  /** What `res.status(httpStatus).json(body)` puts on the wire. */
  datatype Reply<D> = Reply(httpStatus: int, body: Body<D>)

  /** `ApiResponse.success(data = null, msg = 'Success', code = '0')` */
  function Success<D>(data: Option<D>, msg: Option<string>, code: Option<string>): (b: Body<D>)
    ensures b.status == 200 && b.data == data
    ensures b.msg == msg.GetOr("Success") && b.code == code.GetOr("0")
  {
    Body(200, msg.GetOr("Success"), data, code.GetOr("0"))
  }

  /** `ApiResponse.error(msg = 'Error', code = '-1', status = 400)` */
  function Error<D>(msg: Option<string>, code: Option<string>, status: Option<int>): (b: Body<D>)
    ensures b.data.None? && b.status == status.GetOr(400)
    ensures b.msg == msg.GetOr("Error") && b.code == code.GetOr("-1")
  {
    Body(status.GetOr(400), msg.GetOr("Error"), None, code.GetOr("-1"))
  }

  /** `ApiResponse.unauthorized(msg = 'Unauthorized', code = 'UNAUTHORIZED')` */
  function Unauthorized<D>(msg: Option<string>, code: Option<string>): (b: Body<D>)
    ensures b.status == 401 && b.data.None?
    ensures b.msg == msg.GetOr("Unauthorized") && b.code == code.GetOr("UNAUTHORIZED")
  {
    Body(401, msg.GetOr("Unauthorized"), None, code.GetOr("UNAUTHORIZED"))
  }

  /** `ApiResponse.forbidden(msg = 'Forbidden', code = 'FORBIDDEN')` */
  function Forbidden<D>(msg: Option<string>, code: Option<string>): (b: Body<D>)
    ensures b.status == 403 && b.data.None?
    ensures b.msg == msg.GetOr("Forbidden") && b.code == code.GetOr("FORBIDDEN")
  {
    Body(403, msg.GetOr("Forbidden"), None, code.GetOr("FORBIDDEN"))
  }

  /** `ApiResponse.notFound(msg = 'Not Found', code = 'NOT_FOUND')` */
  function NotFound<D>(msg: Option<string>, code: Option<string>): (b: Body<D>)
    ensures b.status == 404 && b.data.None?
    ensures b.msg == msg.GetOr("Not Found") && b.code == code.GetOr("NOT_FOUND")
  {
    Body(404, msg.GetOr("Not Found"), None, code.GetOr("NOT_FOUND"))
  }

  /** `ApiResponse.validationError(msg = 'Validation Error', code = 'VALIDATION_ERROR')` */
  function ValidationError<D>(msg: Option<string>, code: Option<string>): (b: Body<D>)
    ensures b.status == 400 && b.data.None?
    ensures b.msg == msg.GetOr("Validation Error") && b.code == code.GetOr("VALIDATION_ERROR")
  {
    Body(400, msg.GetOr("Validation Error"), None, code.GetOr("VALIDATION_ERROR"))
  }

  /** `sendSuccess(res, data = null, msg = 'Success', code = '0')` */
  function SendSuccess<D>(data: Option<D>, msg: Option<string>, code: Option<string>): (r: Reply<D>)
    ensures r.httpStatus == r.body.status == 200
    ensures r.body == Success(data, msg, code)
  {
    Reply(200, Success(data, msg, code))
  }

  /** `sendError(res, msg = 'Error', statusCode = 400, code = '-1')` */
  function SendError<D>(msg: Option<string>, statusCode: Option<int>, code: Option<string>): (r: Reply<D>)
    ensures r.httpStatus == r.body.status == statusCode.GetOr(400)
    ensures r.body.msg == msg.GetOr("Error") && r.body.data.None?
    ensures r.body == Error(msg, code, statusCode)
  {
    Reply(statusCode.GetOr(400), Error(msg, code, statusCode))
  }

  /** The call shape every controller uses: `sendError(res, msg, status)`. */
  function Fail<D>(msg: string, status: int): Reply<D> {
    SendError(Some(msg), Some(status), None)
  }

  /** `sendSuccess(res, data, msg)` with the default code. */
  function Ok<D>(data: Option<D>, msg: Option<string>): Reply<D> {
    SendSuccess(data, msg, None)
  }

  /** A reply is consistent when the HTTP status is the status in its envelope. */
  predicate Consistent<D>(r: Reply<D>) {
    r.httpStatus == r.body.status
  }

  /**
   * Whatever a controller answers through the helpers, the HTTP status
   * equals the envelope's `status`, a failure carries `data: null` and
   * code '-1', and a success carries code '0'.
   */
  lemma SendersAreConsistent<D>(data: Option<D>, msg: Option<string>, status: Option<int>)
    ensures Consistent(SendSuccess(data, msg, None)) && SendSuccess(data, msg, None).body.code == "0"
    ensures Consistent(SendError<D>(msg, status, None))
    ensures SendError<D>(msg, status, None).body.code == "-1"
    ensures SendError<D>(msg, status, None).body.data.None?
  {
  }
}
