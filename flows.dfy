/** What the two authentication services share: the collaborators they call (the user
    repository, `UserProfilePort`, the fingerprint and JWT services, the digests), the
    random identifiers a call draws, and the effect a call has on the refresh cookie. */
module Flows {
  import opened Java
  import opened Servlet
  import opened HashUtils
  import opened Jwt
  import opened HttpCookies
  import opened Repository

  /** The user row as the services read it: its id, its phone (`username`) and the
      names of its roles. */
  datatype User = User(id: Long, username: string, roles: set<string>)

  /** The services' collaborators and configuration. `findByPhone` and `findById` are
      the user repository; `tokenVersion` is `UserProfilePort.currentTokenVersion`;
      `maxSession` is the session cap the non-rotating login reads. */
  datatype Deps = Deps(
    props: JwtProperties,
    maxSession: int,
    hmacSecret: string,
    hmac: HmacSha256,
    sha256: Sha256,
    sign: Signer,
    parse: JwsParser,
    findByPhone: string -> Option<User>,
    findById: Long -> Option<User>,
    tokenVersion: Long -> Long)

  /** The values of the `UUID.randomUUID()` calls of one request: the new refresh `jti`,
      the new family id, and the `jti` `issueAccess` draws for the access token. */
  datatype Randomness = Randomness(jti: string, familyId: string, accessJti: string)

  /** What a call does to the `Set-Cookie` header. */
  datatype CookieOp = NoCookie | WriteCookie(value: string, maxAge: int) | ClearCookie

  /** The result of one call: what it returns or throws, the table it leaves, and its
      cookie effect. */
  datatype Outcome<R> = Outcome(result: Checked<R>, rows: Table, cookie: CookieOp)

  /** The response headers after the cookie effect: `writeRefreshCookie` replaces every
      `Set-Cookie` value, `clearRefreshCookie` appends one. */
  function ApplyCookie(props: CookieProps, h: Headers, op: CookieOp): Headers
  {
    match op
    case NoCookie => h
    case WriteCookie(value, maxAge) => h[SET_COOKIE := [RefreshCookieHeader(props, value, maxAge)]]
    case ClearCookie => h[SET_COOKIE := HeaderValues(h, SET_COOKIE) + [ClearCookieHeader(props)]]
  }

  /** The refresh token the request's cookie carries, as `CookieHeader.read` finds it. */
  function PresentedToken(d: Deps, req: HttpRequest): Option<string>
  {
    CookieValue(req.cookies, d.props.cookie.refreshName)
  }

  /** The request presents a non-blank refresh cookie that verifies to the claims `c`,
      of type refresh and carrying a user id and a version: every check before the
      table is consulted passes. */
  predicate PresentedRefresh(d: Deps, req: HttpRequest, now: Instant, c: Claims)
  {
    var token := PresentedToken(d, req);
    token.Some? && !IsBlank(token.value) && Verify(d.props, d.parse, token.value, now) == Returns(Verified(c))
    && c.typ == Some(TYP_REFRESH) && c.uid.Some? && c.ver.Some?
  }

  /** Writing the cookie leaves exactly one `Set-Cookie` value; clearing keeps the earlier
      ones and appends the clearing one; headers of other names are untouched. */
  lemma ApplyCookieEffect(props: CookieProps, h: Headers, op: CookieOp, name: string)
    ensures op.WriteCookie? ==> HeaderValues(ApplyCookie(props, h, op), SET_COOKIE) == [RefreshCookieHeader(props, op.value, op.maxAge)]
    ensures op.ClearCookie? ==>
      HeaderValues(ApplyCookie(props, h, op), SET_COOKIE) == HeaderValues(h, SET_COOKIE) + [ClearCookieHeader(props)]
    ensures name != SET_COOKIE ==> HeaderValues(ApplyCookie(props, h, op), name) == HeaderValues(h, name)
  {
  }
}
