/** `JWTService`: the claim sets of the access and refresh tokens, their expiry
    arithmetic, and the checks the configured parser applies. The registered claims
    follow section 4.1 of RFC 7519. NumericDate values (`iat`, `exp`) are whole
    seconds. Signing and parsing of the JWS compact form (RFC 7515, with HS256 of
    section 3.2 of RFC 7518) are parameters. */
module Jwt {
  import opened Java
  import opened Servlet

  /** A claim set. Each claim may be absent. `uid` and `ver` are JSON numbers read
      back as `long`s, and `roles` is a JSON array. */
  datatype Claims = Claims(
    typ: Option<string>,
    uid: Option<Long>,
    roles: Option<set<string>>,
    fid: Option<string>,
    ver: Option<Long>,
    iss: Option<string>,
    aud: Option<string>,
    sub: Option<string>,
    jti: Option<string>,
    iat: Option<int>,
    exp: Option<int>)

  const TYP_ACCESS: string := "access"
  const TYP_REFRESH: string := "refresh"

  /** Signs a claim set with the configured HMAC key and returns the compact JWS. */
  type Signer = Claims -> string

  /** A parsed compact JWS: its claim set, and whether its HS256 signature checks
      out under the configured key. */
  datatype Jws = Jws(claims: Claims, signatureValid: bool)

  /** Splits and decodes a compact JWS; `None` when the text is not one. */
  type JwsParser = string -> Option<Jws>

  /** `CLOCK_SKEW_MILLIS`. */
  const CLOCK_SKEW_MILLIS: int := 2000

  /** The parser's clock skew: the constant goes to `setAllowedClockSkewSeconds`,
      which reads it as seconds. */
  const ALLOWED_SKEW_MILLIS: int := CLOCK_SKEW_MILLIS * MILLIS_PER_SECOND

  /** A `Date` stored as a NumericDate: its milliseconds divided by 1000, truncated. */
  function NumericDate(millis: int): int
  {
    JavaDiv(millis, MILLIS_PER_SECOND)
  }

  /** `now + accessExpMin * 60_000L` in `long` arithmetic. */
  function AccessExpiryMillis(props: JwtProperties, now: Instant): int
  {
    WrapLong(now + WrapLong(props.accessExpMin * 60_000))
  }

  /** `now + refreshExpDays * 24L * 60L * 60L * 1000L` in `long` arithmetic. */
  function RefreshExpiryMillis(props: JwtProperties, now: Instant): int
  {
    WrapLong(now + WrapLong(props.refreshExpDays * 86_400_000))
  }

  /** The claims `issueAccess` signs. */
  function AccessClaims(props: JwtProperties, userId: Long, subject: Option<string>, roles: set<string>,
                        tokenVersion: Long, jti: string, now: Instant): Claims
  {
    Claims(Some(TYP_ACCESS), Some(userId), Some(roles), None, Some(tokenVersion),
           props.issuer, props.audience, subject, Some(jti),
           Some(NumericDate(now)), Some(NumericDate(AccessExpiryMillis(props, now))))
  }

  /** The claims `issueRefresh` signs; the subject is the user id in decimal. */
  function RefreshClaims(props: JwtProperties, userId: Long, familyId: string, jti: string,
                         tokenVersion: Long, now: Instant): Claims
  {
    Claims(Some(TYP_REFRESH), Some(userId), None, Some(familyId), Some(tokenVersion),
           props.issuer, props.audience, Some(LongToString(userId)), Some(jti),
           Some(NumericDate(now)), Some(NumericDate(RefreshExpiryMillis(props, now))))
  }

  /** `issueAccess`; the random `jti` is a parameter. */
  function IssueAccess(sign: Signer, props: JwtProperties, userId: Long, subject: Option<string>,
                       roles: set<string>, tokenVersion: Long, jti: string, now: Instant): string
  {
    sign(AccessClaims(props, userId, subject, roles, tokenVersion, jti, now))
  }

  /** `issueRefresh`. */
  function IssueRefresh(sign: Signer, props: JwtProperties, userId: Long, familyId: string,
                        jti: string, tokenVersion: Long, now: Instant): string
  {
    sign(RefreshClaims(props, userId, familyId, jti, tokenVersion, now))
  }

  /** Why the parser rejects a token; each is a `JwtException`. */
  datatype JwtError = Malformed | SignatureInvalid | Expired | MissingIssuer | IncorrectIssuer

  datatype Verification = Verified(claims: Claims) | Rejected(error: JwtError)

  /** The checks of the configured parser on a parsed token, in the library's order: the
      signature, then expiry with the skew `CLOCK_SKEW_MILLIS` read as milliseconds, as its
      name says, then the required issuer (none when the configured issuer is `null`). The
      audience is not checked. `CheckJwsAsWritten` is the check the code configures. */
  function CheckJws(props: JwtProperties, j: Jws, now: Instant): Verification
  {
    if !j.signatureValid then Rejected(SignatureInvalid)
    else if j.claims.exp.Some? && now - CLOCK_SKEW_MILLIS > j.claims.exp.value * MILLIS_PER_SECOND then Rejected(Expired)
    else if props.issuer.Some? && j.claims.iss.None? then Rejected(MissingIssuer)
    else if props.issuer.Some? && j.claims.iss != props.issuer then Rejected(IncorrectIssuer)
    else Verified(j.claims)
  }

  /** `verify`: `parseClaimsJws` of the configured parser. A blank token is refused
      with an `IllegalArgumentException` before any parsing. */
  function Verify(props: JwtProperties, parse: JwsParser, token: string, now: Instant): Checked<Verification>
  {
    if IsBlank(token) then Throws(IllegalArgument("JWT String argument cannot be null or empty."))
    else match parse(token)
      case None => Returns(Rejected(Malformed))
      case Some(j) => Returns(CheckJws(props, j, now))
  }

  /** `isExpired`: `true` on any `JwtException`; otherwise whether the expiry is before
      `now`. A missing `exp` makes `exp.before` throw; the blank-token exception is not a
      `JwtException` and escapes. */
  function IsExpired(props: JwtProperties, parse: JwsParser, token: string, now: Instant): Checked<bool>
  {
    match Verify(props, parse, token, now)
    case Throws(e) => Throws(e)
    case Returns(Rejected(_)) => Returns(true)
    case Returns(Verified(c)) =>
      if c.exp.None? then Throws(NullPointer) else Returns(c.exp.value * MILLIS_PER_SECOND < now)
  }

  /** The issuer requirement holds. */
  predicate IssuerAccepted(props: JwtProperties, c: Claims)
  {
    props.issuer.None? || c.iss == props.issuer
  }

  /** A correctly signed token from the right issuer is accepted exactly until two
      seconds after its expiry. */
  lemma SkewTolerance(props: JwtProperties, c: Claims, now: Instant)
    requires IssuerAccepted(props, c) && c.exp.Some?
    ensures CheckJws(props, Jws(c, true), now).Verified?
        <==> now <= c.exp.value * MILLIS_PER_SECOND + 2000
    ensures CheckJws(props, Jws(c, true), now).Verified? ==> CheckJws(props, Jws(c, true), now).claims == c
  {
  }

  /** A token is accepted only with a valid signature, and then only if its expiry (when
      present) is within the skew and the issuer requirement holds. */
  lemma AcceptedMeansChecked(props: JwtProperties, j: Jws, now: Instant)
    ensures CheckJws(props, j, now).Verified? <==>
      j.signatureValid && IssuerAccepted(props, j.claims)
      && (j.claims.exp.Some? ==> now - CLOCK_SKEW_MILLIS <= j.claims.exp.value * MILLIS_PER_SECOND)
  {
  }

  /** The audience claim plays no part in acceptance. */
  lemma AudienceIgnored(props: JwtProperties, j: Jws, aud: Option<string>, now: Instant)
    ensures CheckJws(props, j.(claims := j.claims.(aud := aud)), now).Verified? == CheckJws(props, j, now).Verified?
    ensures props.audience != aud && j.signatureValid && IssuerAccepted(props, j.claims) && j.claims.exp.None? ==>
      CheckJws(props, j.(claims := j.claims.(aud := aud)), now).Verified?
  {
  }

  /** On a token that parses with a valid signature, from the right issuer and with an
      expiry, `isExpired` answers `exp < now`, whether or not the parser itself rejects the
      token as expired. */
  lemma IsExpiredOnSignedToken(props: JwtProperties, parse: JwsParser, token: string, now: Instant)
    requires !IsBlank(token) && parse(token).Some? && parse(token).value.signatureValid
    requires IssuerAccepted(props, parse(token).value.claims) && parse(token).value.claims.exp.Some?
    ensures IsExpired(props, parse, token, now) == Returns(parse(token).value.claims.exp.value * MILLIS_PER_SECOND < now)
  {
  }

  /** Any failure to parse or to check makes `isExpired` answer `true`. */
  lemma RejectedTokensAreExpired(props: JwtProperties, parse: JwsParser, token: string, now: Instant)
    requires Verify(props, parse, token, now).Returns? && Verify(props, parse, token, now).value.Rejected?
    ensures IsExpired(props, parse, token, now) == Returns(true)
  {
  }

  /** Truncating a NumericDate commutes with adding whole seconds, for non-negative instants. */
  lemma NumericDatePlusSeconds(millis: int, seconds: int)
    requires millis >= 0 && millis + seconds * MILLIS_PER_SECOND >= 0
    ensures NumericDate(millis + seconds * MILLIS_PER_SECOND) == NumericDate(millis) + seconds
  {
    var q, r := millis / MILLIS_PER_SECOND, millis % MILLIS_PER_SECOND;
    assert millis == q * MILLIS_PER_SECOND + r;
    assert millis + seconds * MILLIS_PER_SECOND == (q + seconds) * MILLIS_PER_SECOND + r;
  }

  /** The access token: typed `access`, with the user id, the roles and the version as given,
      issuer and audience from the configuration, and an expiry `accessExpMin` minutes after
      its issue time when the arithmetic stays in range. */
  lemma AccessClaimsShape(props: JwtProperties, userId: Long, subject: Option<string>, roles: set<string>,
                          tokenVersion: Long, jti: string, now: Instant)
    requires now >= 0 && InLong(props.accessExpMin * 60_000) && InLong(now + props.accessExpMin * 60_000)
    requires now + props.accessExpMin * 60_000 >= 0
    ensures var c := AccessClaims(props, userId, subject, roles, tokenVersion, jti, now);
      && c.typ == Some("access") && c.typ != Some(TYP_REFRESH)
      && c.uid == Some(userId) && c.roles == Some(roles) && c.ver == Some(tokenVersion) && c.fid.None?
      && c.iss == props.issuer && c.aud == props.audience && c.sub == subject && c.jti == Some(jti)
      && c.iat == Some(NumericDate(now))
      && c.exp == Some(c.iat.value + props.accessExpMin * 60)
  {
    NumericDatePlusSeconds(now, props.accessExpMin * 60);
  }

  /** The refresh token: typed `refresh`, with the user id, family, `jti` and version as
      given, the decimal user id as subject, and an expiry `refreshExpDays` days after its
      issue time when the arithmetic stays in range. */
  lemma RefreshClaimsShape(props: JwtProperties, userId: Long, familyId: string, jti: string,
                           tokenVersion: Long, now: Instant)
    requires now >= 0 && InLong(props.refreshExpDays * 86_400_000) && InLong(now + props.refreshExpDays * 86_400_000)
    requires now + props.refreshExpDays * 86_400_000 >= 0
    ensures var c := RefreshClaims(props, userId, familyId, jti, tokenVersion, now);
      && c.typ == Some("refresh") && c.uid == Some(userId) && c.fid == Some(familyId)
      && c.ver == Some(tokenVersion) && c.roles.None?
      && c.iss == props.issuer && c.aud == props.audience && c.sub == Some(LongToString(userId))
      && c.jti == Some(jti) && c.iat == Some(NumericDate(now))
      && c.exp == Some(c.iat.value + props.refreshExpDays * 86_400)
  {
    NumericDatePlusSeconds(now, props.refreshExpDays * 86_400);
  }

  /** A refresh token the service issued, parsed back by a parser that recovers what the
      signer signed, is accepted from its issue time for its whole lifetime plus the skew,
      and yields its own claims. */
  lemma IssuedRefreshVerifies(sign: Signer, parse: JwsParser, props: JwtProperties, userId: Long,
                              familyId: string, jti: string, tokenVersion: Long, now: Instant, later: Instant)
    requires var c := RefreshClaims(props, userId, familyId, jti, tokenVersion, now);
      parse(sign(c)) == Some(Jws(c, true)) && !IsBlank(sign(c))
    requires now >= 0 && InLong(props.refreshExpDays * 86_400_000) && InLong(now + props.refreshExpDays * 86_400_000)
    requires now <= later <= now + props.refreshExpDays * 86_400_000
    ensures Verify(props, parse, IssueRefresh(sign, props, userId, familyId, jti, tokenVersion, now), later)
         == Returns(Verified(RefreshClaims(props, userId, familyId, jti, tokenVersion, now)))
  {
    var c := RefreshClaims(props, userId, familyId, jti, tokenVersion, now);
    var e := now + props.refreshExpDays * 86_400_000;
    assert c.exp == Some(NumericDate(e));
    assert NumericDate(e) * MILLIS_PER_SECOND > e - MILLIS_PER_SECOND;
  }

  // ---------------------------------------------------------------------------
  // The skew as written

  /** The parser check as the code configures it: the constant goes to
      `setAllowedClockSkewSeconds`, so the skew is `ALLOWED_SKEW_MILLIS`, 2000 seconds. */
  function CheckJwsAsWritten(props: JwtProperties, j: Jws, now: Instant): Verification
  {
    if !j.signatureValid then Rejected(SignatureInvalid)
    else if j.claims.exp.Some? && now - ALLOWED_SKEW_MILLIS > j.claims.exp.value * MILLIS_PER_SECOND then Rejected(Expired)
    else if props.issuer.Some? && j.claims.iss.None? then Rejected(MissingIssuer)
    else if props.issuer.Some? && j.claims.iss != props.issuer then Rejected(IncorrectIssuer)
    else Verified(j.claims)
  }

  /** As written, a correctly signed token from the right issuer is accepted until 2000
      seconds after its expiry: one that expired a thousand seconds ago passes, and the
      corrected check rejects it. */
  lemma SkewAcceptsLongExpiredToken(props: JwtProperties, c: Claims, e: int)
    requires IssuerAccepted(props, c) && c.exp == Some(e)
    ensures forall now :: CheckJwsAsWritten(props, Jws(c, true), now).Verified? <==> now <= e * MILLIS_PER_SECOND + 2_000_000
    ensures CheckJwsAsWritten(props, Jws(c, true), e * MILLIS_PER_SECOND + 1_000_000).Verified?
    ensures CheckJws(props, Jws(c, true), e * MILLIS_PER_SECOND + 1_000_000) == Rejected(Expired)
  {
  }

  /** The correction only narrows acceptance: a token the corrected check accepts, the written
      one accepts with the same claims, and the two differ only on the expiry. */
  lemma CorrectedSkewOnlyNarrows(props: JwtProperties, j: Jws, now: Instant)
    ensures CheckJws(props, j, now).Verified? ==> CheckJwsAsWritten(props, j, now) == CheckJws(props, j, now)
    ensures CheckJws(props, j, now) != CheckJwsAsWritten(props, j, now) ==> CheckJws(props, j, now) == Rejected(Expired)
  {
  }
}
