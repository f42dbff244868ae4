/**
 * The `authenticate` middleware of server/src/middleware/auth.js: accept an
 * `Authorization: Bearer <token>` header (the scheme of section 2.1 of
 * RFC 6750, matched case-sensitively with exactly one space), verify the
 * token, and hand the four signed claims on as `req.user`.
 */
module AuthMiddleware {
  import opened Common
  import opened ApiResponse
  import opened Identity

  const BearerPrefix: string := "Bearer "

  /** Either `next()` runs with `req.user` set, or a 401 is sent. */
  datatype AuthOutcome = Authenticated(user: Claims) | Denied(reply: Reply<()>)

  predicate StartsWithBearer(header: string) {
    |header| >= |BearerPrefix| && header[..|BearerPrefix|] == BearerPrefix
  }

  /** `authHeader.substring(7)` after the prefix test; `None` when the test fails. */
  function BearerToken(header: Option<string>): (t: Option<string>)
    ensures t.Some? <==> header.Some? && StartsWithBearer(header.value)
    ensures t.Some? ==> header.value == BearerPrefix + t.value
  {
    if header.Some? && StartsWithBearer(header.value) then
      assert header.value == header.value[..7] + header.value[7..];
      Some(header.value[7..])
    else None
  }

  /** The token is recovered exactly from a header built with the prefix. */
  lemma {:induction false} BearerRoundTrip(token: string)
    ensures BearerToken(Some(BearerPrefix + token)) == Some(token)
  {
    var h := BearerPrefix + token;
    assert h[..7] == BearerPrefix;
    assert h[7..] == token;
  }

  /** The scheme name is matched case-sensitively: a lower-case `bearer` is refused. */
  lemma SchemeIsCaseSensitive(token: string)
    ensures BearerToken(Some("bearer " + token)).None?
  {
    assert ("bearer " + token)[0] == 'b';
  }

  /**
   * `authenticate`. `verify` is `verifyToken`; a failure's message is sent
   * back with 401, or "Invalid token" when the message is empty.
   */
  function Authenticate(header: Option<string>, verify: string -> Verified): (o: AuthOutcome)
    ensures BearerToken(header).None? ==> o == Denied(Fail("No token provided", 401))
    ensures BearerToken(header).Some? ==>
      match verify(BearerToken(header).value)
      case Verified(p) => o == Authenticated(Claims(p.id, p.email, p.username, p.level))
      case Failed(m) => o == Denied(Fail(if m == "" then "Invalid token" else m, 401))
    ensures o.Denied? ==> o.reply.httpStatus == 401 && Consistent(o.reply)
  {
    match BearerToken(header)
    case None => Denied(Fail("No token provided", 401))
    case Some(token) =>
      match verify(token)
      case Verified(p) => Authenticated(Claims(p.id, p.email, p.username, p.level))
      case Failed(m) => Denied(Fail(if m == "" then "Invalid token" else m, 401))
  }

  /** Only a header carrying the prefix ever reaches `next()`, with the remainder as the verified token. */
  lemma AuthenticatedOnlyWithBearer(header: Option<string>, verify: string -> Verified)
    requires Authenticate(header, verify).Authenticated?
    ensures header.Some? && StartsWithBearer(header.value)
    ensures verify(header.value[7..]).Verified?
  {
  }
}
