/** `AuthServiceImpl`: the non-rotating login and refresh. A login reuses the live
    refresh row of the device or creates one (revoking the user's oldest session when
    the cap is reached); a refresh checks the presented token against the table and the
    device and only touches its row. Each flow is a specification function over the
    table, and `AuthServiceImpl` carries it out step by step on the store. */
module NonRotating {
  import opened Java
  import opened Servlet
  import opened Responses
  import opened HashUtils
  import opened Jwt
  import opened Tokens
  import opened Repository
  import opened Fingerprint
  import opened HttpCookies
  import opened Flows

  const MSG_UNAUTHORIZED: string := "Unauthorized"
  const SECONDS_PER_DAY: int := 86_400

  /** `refreshLifetime()` in seconds: `Duration.ofDays` multiplies exactly and throws
      when the seconds leave the `long` range. */
  function RefreshLifetimeSeconds(props: JwtProperties): (r: Checked<int>)
    ensures r.Returns? <==> InLong(props.refreshExpDays * SECONDS_PER_DAY)
    ensures r.Returns? ==> r.value == props.refreshExpDays * SECONDS_PER_DAY
  {
    MultiplyExact(props.refreshExpDays, SECONDS_PER_DAY)
  }

  /** `refreshCookieMaxAgeSeconds`: the lifetime in seconds, which must also fit an `int`. */
  function RefreshCookieMaxAgeSeconds(props: JwtProperties): (r: Checked<int>)
    ensures r.Returns? <==> InInt(props.refreshExpDays * SECONDS_PER_DAY)
    ensures r.Returns? ==> r.value == props.refreshExpDays * SECONDS_PER_DAY
    ensures !InLong(props.refreshExpDays * SECONDS_PER_DAY) ==> r == Throws(Arithmetic("long overflow"))
    ensures InLong(props.refreshExpDays * SECONDS_PER_DAY) && !InInt(props.refreshExpDays * SECONDS_PER_DAY) ==>
      r == Throws(Arithmetic("integer overflow"))
  {
    match RefreshLifetimeSeconds(props)
    case Throws(e) => Throws(e)
    case Returns(seconds) => ToIntExact(seconds)
  }

  /** The 401 every failed check of a refresh answers. */
  function Unauthorized401(): Response<string>
  {
    Fail(401, MSG_UNAUTHORIZED, Unauthorized)
  }

  /** The table after `revokeOldestActiveRefreshToken`, `victim` being the first row of
      `findActiveOldestFirst`. */
  function RevokeOldest(t: Table, victim: Option<string>): Table
  {
    if victim.Some? && victim.value in t then t[victim.value := t[victim.value].(status := Revoked)] else t
  }

  /** The cap of the new-session path: at `maxSession` ACTIVE rows or more, the oldest goes. */
  function CapSessions(d: Deps, t: Table, userId: int, victim: Option<string>): Table
  {
    if CountActiveByUser(t, userId) >= d.maxSession then RevokeOldest(t, victim) else t
  }

  /** The row `persistAndIssueRefresh` saves. */
  function NewRow(jti: string, userId: Long, familyId: string, hash: string, fp: string,
                  req: HttpRequest, expiresAt: Instant, now: Instant): RefreshToken
  {
    RefreshToken(jti, userId, familyId, Some(hash), Some(fp), Active, expiresAt, req.userAgent, None, Some(now), now)
  }

  /** `persistAndIssueRefresh`: the raw refresh JWT and the table with its row saved. */
  function Persisted(d: Deps, t: Table, req: HttpRequest, jti: string, familyId: string,
                     userId: Long, ver: Long, fp: string, now: Instant): Checked<(string, Table)>
  {
    var raw := IssueRefresh(d.sign, d.props, userId, familyId, jti, ver, now);
    match RefreshLifetimeSeconds(d.props)
    case Throws(e) => Throws(e)
    case Returns(seconds) =>
      match Sha256Hex(d.sha256, raw)
      case Throws(e) => Throws(e)
      case Returns(hash) => Returns((raw, t[jti := NewRow(jti, userId, familyId, hash, fp, req, PlusSeconds(now, seconds), now)]))
  }

  /** The reuse path of a login: the row is touched, takes the request's user agent and
      is saved; the refresh JWT is issued again with its `jti` and family. */
  function ReuseSession(d: Deps, t: Table, row: RefreshToken, req: HttpRequest, ver: Long, now: Instant): (string, Table)
  {
    (IssueRefresh(d.sign, d.props, row.userId, row.familyId, row.jti, ver, now),
     t[row.jti := Touch(row, now).(userAgent := req.userAgent)])
  }

  /** The row found for the device, expired while still ACTIVE, is marked REVOKED before a
      new session is made. The code leaves it ACTIVE (see `LoginAsWritten`). */
  function RetireStale(t: Table, found: Option<RefreshToken>): Table
  {
    if found.Some? then t[found.value.jti := found.value.(status := Revoked)] else t
  }

  /** The end of a login, inside its transaction: any exception rolls the table back to
      `t` and sets no cookie; otherwise the cookie is written and the access token returned. */
  function Commit(d: Deps, t: Table, access: string, issued: Checked<(string, Table)>): Outcome<Response<string>>
  {
    match issued
    case Throws(e) => Outcome(Throws(e), t, NoCookie)
    case Returns((raw, t1)) =>
      match RefreshCookieMaxAgeSeconds(d.props)
      case Throws(e) => Outcome(Throws(e), t, NoCookie)
      case Returns(maxAge) => Outcome(Returns(Ok(access)), t1, WriteCookie(raw, maxAge))
  }

  /** `handleLogin`. A found row is reused only when it has not expired. Otherwise a new
      session is made; with `retireStale` the expired row is revoked first, as the
      one-row-per-device design intends, and without it the row stays ACTIVE, as the code
      has it. */
  function LoginFlow(d: Deps, t: Table, phone: string, req: HttpRequest, now: Instant, rnd: Randomness,
                     victim: Option<string>, retireStale: bool): Outcome<Response<string>>
  {
    match d.findByPhone(phone)
    case None => Outcome(Returns(Fail(404, "User not found", NotFound)), t, NoCookie)
    case Some(user) =>
      match UserScopedFingerprint(d.hmac, d.hmacSecret, req, user.id)
      case Throws(e) => Outcome(Throws(e), t, NoCookie)
      case Returns(fp) =>
        match FindActiveByUserAndDevice(t, user.id, fp)
        case Throws(e) => Outcome(Throws(e), t, NoCookie)
        case Returns(found) =>
          var ver := d.tokenVersion(user.id);
          var access := IssueAccess(d.sign, d.props, user.id, Some(user.username), user.roles, ver, rnd.accessJti, now);
          if found.Some? && !Tokens.IsExpired(found.value, now) then
            Commit(d, t, access, Returns(ReuseSession(d, t, found.value, req, ver, now)))
          else
            var t0 := if retireStale then RetireStale(t, found) else t;
            Commit(d, t, access, Persisted(d, CapSessions(d, t0, user.id, victim), req,
                                           rnd.jti, rnd.familyId, user.id, ver, fp, now))
  }

  /** `handleLogin`, with the stale row of the device revoked before a new one is made. */
  function Login(d: Deps, t: Table, phone: string, req: HttpRequest, now: Instant, rnd: Randomness,
                 victim: Option<string>): Outcome<Response<string>>
  {
    LoginFlow(d, t, phone, req, now, rnd, victim, true)
  }

  /** `handleLogin` exactly as written: a stale ACTIVE row of the device is left ACTIVE. */
  function LoginAsWritten(d: Deps, t: Table, phone: string, req: HttpRequest, now: Instant, rnd: Randomness,
                          victim: Option<string>): Outcome<Response<string>>
  {
    LoginFlow(d, t, phone, req, now, rnd, victim, false)
  }

  /** The table the session cap of `Login` counts on: the stale device row retired, when
      the login takes the new-session path; the table itself otherwise. */
  function BeforeCap(d: Deps, t: Table, phone: string, req: HttpRequest, now: Instant): Table
  {
    match d.findByPhone(phone)
    case None => t
    case Some(user) =>
      match UserScopedFingerprint(d.hmac, d.hmacSecret, req, user.id)
      case Throws(_) => t
      case Returns(fp) =>
        match FindActiveByUserAndDevice(t, user.id, fp)
        case Throws(_) => t
        case Returns(found) => if found.Some? && !Tokens.IsExpired(found.value, now) then t else RetireStale(t, found)
  }

  /** `victim` is an admissible first row of `findActiveOldestFirst` for the user the phone
      names, in the table the cap counts on. */
  predicate VictimChosen(d: Deps, t: Table, phone: string, req: HttpRequest, now: Instant, victim: Option<string>)
  {
    d.findByPhone(phone).Some? ==> IsFirstOldest(BeforeCap(d, t, phone, req, now), d.findByPhone(phone).value.id, victim)
  }

  /** `revokeFamilyAndClearCookie`. */
  function Compromised(t: Table, familyId: Option<string>): Outcome<Response<string>>
  {
    Outcome(Returns(Unauthorized401()), RevokedFamily(t, familyId), ClearCookie)
  }

  /** The checks of `handleRefreshToken` once the claims are read: version, row, device,
      then the user. The touch is saved at once: the flow is not transactional. */
  function RefreshWithClaims(d: Deps, t: Table, req: HttpRequest, now: Instant, rnd: Randomness,
                             token: string, c: Claims): Outcome<Response<string>>
    requires c.uid.Some? && c.ver.Some?
  {
    var userId := c.uid.value;
    var ver := c.ver.value;
    if ver != d.tokenVersion(userId) then Compromised(t, c.fid)
    else match FindByJti(t, c.jti)
      case None => Compromised(t, c.fid)
      case Some(row) =>
        if row.status != Active || Tokens.IsExpired(row, now) then Compromised(t, c.fid)
        else match UserScopedFingerprint(d.hmac, d.hmacSecret, req, userId)
          case Throws(e) => Outcome(Throws(e), t, NoCookie)
          case Returns(fp) =>
            if Some(fp) != row.deviceFp then Compromised(t, c.fid)
            else
              var t1 := t[row.jti := Touch(row, now)];
              match d.findById(userId)
              case None => Compromised(t1, c.fid)
              case Some(user) =>
                var access := IssueAccess(d.sign, d.props, userId, Some(user.username), user.roles, ver, rnd.accessJti, now);
                match RefreshCookieMaxAgeSeconds(d.props)
                case Throws(e) => Outcome(Throws(e), t1, NoCookie)
                case Returns(maxAge) => Outcome(Returns(Ok(access)), t1, WriteCookie(token, maxAge))
  }

  /** `handleRefreshToken`. */
  function Refresh(d: Deps, t: Table, req: HttpRequest, now: Instant, rnd: Randomness): Outcome<Response<string>>
  {
    var token := PresentedToken(d, req);
    if token.None? || IsBlank(token.value) then Outcome(Returns(Fail(404, "Invalid refreshToken", NotFound)), t, NoCookie)
    else match Verify(d.props, d.parse, token.value, now)
      case Throws(_) => Outcome(Returns(Unauthorized401()), t, NoCookie)
      case Returns(Rejected(_)) => Outcome(Returns(Unauthorized401()), t, NoCookie)
      case Returns(Verified(c)) =>
        if c.typ != Some(TYP_REFRESH) then Outcome(Returns(Unauthorized401()), t, NoCookie)
        else if c.uid.None? || c.ver.None? then Outcome(Throws(NullPointer), t, NoCookie)
        else RefreshWithClaims(d, t, req, now, rnd, token.value, c)
  }

  class AuthServiceImpl {
    const deps: Deps
    const repository: RefreshTokenStore

    constructor (deps: Deps, repository: RefreshTokenStore)
      ensures this.deps == deps && this.repository == repository
    {
      this.deps := deps;
      this.repository := repository;
    }

    /** `revokeOldestActiveRefreshToken`: the first row of `findActiveOldestFirst`, if any,
        is set to REVOKED and saved. */
    method RevokeOldestActiveRefreshToken(userId: int) returns (victim: Option<string>)
      requires repository.Valid()
      modifies repository
      ensures IsFirstOldest(old(repository.rows), userId, victim)
      ensures repository.rows == RevokeOldest(old(repository.rows), victim)
      ensures repository.Valid()
    {
      victim := repository.FindActiveOldestFirst(userId);
      if victim.Some? {
        var old_ := repository.rows[victim.value];
        repository.Save(old_.(status := Revoked));
      }
    }

    /** `persistAndIssueRefresh`. */
    method PersistAndIssueRefresh(request: HttpRequest, jti: string, familyId: string, userId: Long,
                                  tokenVersion: Long, deviceFp: string, now: Instant) returns (r: Checked<string>)
      requires repository.Valid()
      modifies repository
      ensures var p := Persisted(deps, old(repository.rows), request, jti, familyId,
                                                          userId, tokenVersion, deviceFp, now);
        (p.Throws? ==> r == Throws(p.exception) && repository.rows == old(repository.rows))
        && (p.Returns? ==> r == Returns(p.value.0) && repository.rows == p.value.1)
      ensures repository.Valid()
    {
      var rawRefresh := IssueRefresh(deps.sign, deps.props, userId, familyId, jti, tokenVersion, now);
      var lifetime := RefreshLifetimeSeconds(deps.props);
      if lifetime.Throws? {
        return Throws(lifetime.exception);
      }
      var expiresAt := PlusSeconds(now, lifetime.value);
      var hash := Sha256Hex(deps.sha256, rawRefresh);
      if hash.Throws? {
        return Throws(hash.exception);
      }
      repository.Save(NewRow(jti, userId, familyId, hash.value, deviceFp, request, expiresAt, now));
      return Returns(rawRefresh);
    }

    /** `handleLogin`, with the stale device row revoked before a new session is made
        (`LoginAsWritten` is the code without that step). The returned `victim` is the row
        the cap revoked, when it did. The transaction is the snapshot of the table restored
        when an exception escapes. */
    method HandleLogin(phone: string, request: HttpRequest, res: HttpResponse, now: Instant, rnd: Randomness)
      returns (r: Checked<Response<string>>, ghost victim: Option<string>)
      requires repository.Valid()
      modifies repository, res
      ensures VictimChosen(deps, old(repository.rows), phone, request, now, victim)
      ensures var o := Login(deps, old(repository.rows), phone, request, now, rnd, victim);
        r == o.result && repository.rows == o.rows
        && res.headers == ApplyCookie(deps.props.cookie, old(res.headers), o.cookie)
      ensures repository.Valid()
    {
      var snapshot := repository.rows;
      victim := None;
      var optUser := deps.findByPhone(phone);
      if optUser.None? {
        return Returns(Fail(404, "User not found", NotFound)), victim;
      }
      var user := optUser.value;
      victim := SomeOldest(snapshot, user.id);
      var fp := UserScopedFingerprint(deps.hmac, deps.hmacSecret, request, user.id);
      if fp.Throws? {
        return Throws(fp.exception), victim;
      }
      var optActive := FindActiveByUserAndDevice(repository.rows, user.id, fp.value);
      if optActive.Throws? {
        return Throws(optActive.exception), victim;
      }
      var tokenVersion := deps.tokenVersion(user.id);
      var access := IssueAccess(deps.sign, deps.props, user.id, Some(user.username), user.roles, tokenVersion, rnd.accessJti, now);
      var rawRefresh: string;
      if optActive.value.Some? && !Tokens.IsExpired(optActive.value.value, now) {
        var rt := optActive.value.value;
        rt := Touch(rt, now).(userAgent := request.userAgent);
        repository.Save(rt);
        rawRefresh := IssueRefresh(deps.sign, deps.props, rt.userId, rt.familyId, rt.jti, tokenVersion, now);
      } else {
        var issued;
        issued, victim := NewSession(request, user.id, fp.value, optActive.value, tokenVersion, now, rnd);
        if issued.Throws? {
          repository.Restore(snapshot);
          return Throws(issued.exception), victim;
        }
        rawRefresh := issued.value;
      }
      var maxAge := RefreshCookieMaxAgeSeconds(deps.props);
      if maxAge.Throws? {
        repository.Restore(snapshot);
        return Throws(maxAge.exception), victim;
      }
      WriteRefreshCookie(deps.props.cookie, res, rawRefresh, maxAge.value);
      return Returns(Ok(access)), victim;
    }

    /** The new-session branch of `handleLogin`: the stale device row, if any, is revoked,
        then the cap applied and the new row persisted. `victim` is the row the cap revoked,
        when it did. */
    method NewSession(request: HttpRequest, userId: Long, fp: string, found: Option<RefreshToken>,
                      tokenVersion: Long, now: Instant, rnd: Randomness) returns (r: Checked<string>, ghost victim: Option<string>)
      requires repository.Valid() && FindActiveByUserAndDevice(repository.rows, userId, fp) == Returns(found)
      modifies repository
      ensures IsFirstOldest(RetireStale(old(repository.rows), found), userId, victim)
      ensures var p := Persisted(deps, CapSessions(deps, RetireStale(old(repository.rows), found), userId, victim), request,
                                 rnd.jti, rnd.familyId, userId, tokenVersion, fp, now);
        (p.Throws? ==> r == Throws(p.exception)) && (p.Returns? ==> r == Returns(p.value.0) && repository.rows == p.value.1)
      ensures repository.Valid()
    {
      if found.Some? {
        FoundRowIsStored(repository.rows, userId, fp);
        repository.Save(found.value.(status := Revoked));
      }
      victim := SomeOldest(repository.rows, userId);
      var activeCount := CountActiveByUser(repository.rows, userId);
      if activeCount >= deps.maxSession {
        victim := RevokeOldestActiveRefreshToken(userId);
      }
      r := PersistAndIssueRefresh(request, rnd.jti, rnd.familyId, userId, tokenVersion, fp, now);
    }

    /** `revokeFamilyAndClearCookie`. */
    method RevokeFamilyAndClearCookie(response: HttpResponse, familyId: Option<string>) returns (r: Response<string>)
      requires repository.Valid()
      modifies repository, response
      ensures var o := Compromised(old(repository.rows), familyId);
        Returns(r) == o.result && repository.rows == o.rows
        && response.headers == ApplyCookie(deps.props.cookie, old(response.headers), o.cookie)
      ensures repository.Valid()
    {
      repository.RevokeFamily(familyId);
      ClearRefreshCookie(deps.props.cookie, response);
      return Unauthorized401();
    }

    /** `handleRefreshToken`. */
    method HandleRefreshToken(request: HttpRequest, response: HttpResponse, now: Instant, rnd: Randomness)
      returns (r: Checked<Response<string>>)
      requires repository.Valid()
      modifies repository, response
      ensures var o := Refresh(deps, old(repository.rows), request, now, rnd);
        r == o.result && repository.rows == o.rows
        && response.headers == ApplyCookie(deps.props.cookie, old(response.headers), o.cookie)
      ensures repository.Valid()
    {
      var refreshToken := Read(request, deps.props.cookie.refreshName);
      if refreshToken.None? || IsBlank(refreshToken.value) {
        return Returns(Fail(404, "Invalid refreshToken", NotFound));
      }
      var verified := Verify(deps.props, deps.parse, refreshToken.value, now);
      if verified.Throws? || verified.value.Rejected? {
        return Returns(Unauthorized401());
      }
      var claims := verified.value.claims;
      if claims.typ != Some(TYP_REFRESH) {
        return Returns(Unauthorized401());
      }
      var jti := claims.jti;
      if claims.uid.None? {
        return Throws(NullPointer);
      }
      var userId := claims.uid.value;
      var familyId := claims.fid;
      if claims.ver.None? {
        return Throws(NullPointer);
      }
      var verFromToken := claims.ver.value;
      var currentVersion := deps.tokenVersion(userId);
      if verFromToken != currentVersion {
        var fail := RevokeFamilyAndClearCookie(response, familyId);
        return Returns(fail);
      }
      var currentRT := FindByJti(repository.rows, jti);
      if currentRT.None? || currentRT.value.status != Active || Tokens.IsExpired(currentRT.value, now) {
        var fail := RevokeFamilyAndClearCookie(response, familyId);
        return Returns(fail);
      }
      var deviceFp := UserScopedFingerprint(deps.hmac, deps.hmacSecret, request, userId);
      if deviceFp.Throws? {
        return Throws(deviceFp.exception);
      }
      if Some(deviceFp.value) != currentRT.value.deviceFp {
        var fail := RevokeFamilyAndClearCookie(response, familyId);
        return Returns(fail);
      }
      repository.Save(Touch(currentRT.value, now));
      var optUser := deps.findById(userId);
      if optUser.None? {
        var fail := RevokeFamilyAndClearCookie(response, familyId);
        return Returns(fail);
      }
      var user := optUser.value;
      var newAccess := IssueAccess(deps.sign, deps.props, userId, Some(user.username), user.roles, verFromToken, rnd.accessJti, now);
      var maxAge := RefreshCookieMaxAgeSeconds(deps.props);
      if maxAge.Throws? {
        return Throws(maxAge.exception);
      }
      WriteRefreshCookie(deps.props.cookie, response, refreshToken.value, maxAge.value);
      return Returns(Ok(newAccess));
    }
  }

  // ---------------------------------------------------------------------------
  // Properties of the login

  /** The login of `phone` takes the new-session path: the user exists, the
      fingerprint is computed and the device has no live row. */
  predicate TakesNewSessionPath(d: Deps, t: Table, phone: string, req: HttpRequest, now: Instant, user: User, fp: string)
  {
    d.findByPhone(phone) == Some(user) && UserScopedFingerprint(d.hmac, d.hmacSecret, req, user.id) == Returns(fp)
    && FindActiveByUserAndDevice(t, user.id, fp).Returns?
    && (FindActiveByUserAndDevice(t, user.id, fp).value.None?
        || Tokens.IsExpired(FindActiveByUserAndDevice(t, user.id, fp).value.value, now))
  }

  /** An unknown phone answers 404 and changes nothing; an exception rolls the table back
      and sets no cookie; the cookie is written exactly when the login succeeds. */
  lemma LoginFailuresChangeNothing(d: Deps, t: Table, phone: string, req: HttpRequest, now: Instant,
                                   rnd: Randomness, victim: Option<string>)
    ensures d.findByPhone(phone).None? ==>
      Login(d, t, phone, req, now, rnd, victim) == Outcome(Returns(Fail(404, "User not found", NotFound)), t, NoCookie)
    ensures var o := Login(d, t, phone, req, now, rnd, victim);
      (o.result.Throws? ==> o.rows == t && o.cookie == NoCookie)
      && (o.cookie.WriteCookie? <==> o.result.Returns? && o.result.value.success)
      && !o.cookie.ClearCookie?
  {
    match d.findByPhone(phone)
    case None =>
    case Some(user) =>
      match UserScopedFingerprint(d.hmac, d.hmacSecret, req, user.id)
      case Throws(_) =>
      case Returns(fp) =>
        match FindActiveByUserAndDevice(t, user.id, fp)
        case Throws(_) =>
        case Returns(found) =>
          var ver := d.tokenVersion(user.id);
          var access := IssueAccess(d.sign, d.props, user.id, Some(user.username), user.roles, ver, rnd.accessJti, now);
          if found.Some? && !Tokens.IsExpired(found.value, now) {
            CommitEffect(d, t, access, Returns(ReuseSession(d, t, found.value, req, ver, now)));
          } else {
            CommitEffect(d, t, access, Persisted(d, CapSessions(d, RetireStale(t, found), user.id, victim), req,
                                                 rnd.jti, rnd.familyId, user.id, ver, fp, now));
          }
  }

  /** The end of a login keeps the table built by the issuing step, or rolls back to `t`. */
  lemma CommitEffect(d: Deps, t: Table, access: string, issued: Checked<(string, Table)>)
    ensures var o := Commit(d, t, access, issued);
      (o.result.Throws? ==> o.rows == t && o.cookie == NoCookie)
      && (o.result.Returns? ==> issued.Returns? && o.rows == issued.value.1 && o.result.value == Ok(access)
                                && o.cookie == WriteCookie(issued.value.0, RefreshCookieMaxAgeSeconds(d.props).value))
  {
  }

  /** With a live ACTIVE row for the device, a login changes that row alone: it is touched
      and takes the request's user agent; no row is added, and the refresh JWT is issued
      again with the row's `jti` and family. */
  lemma LoginReusesLiveRow(d: Deps, t: Table, phone: string, req: HttpRequest, now: Instant, rnd: Randomness,
                           victim: Option<string>, user: User, fp: string, k: string)
    requires KeyedByJti(t)
    requires d.findByPhone(phone) == Some(user)
    requires UserScopedFingerprint(d.hmac, d.hmacSecret, req, user.id) == Returns(fp)
    requires k in t && ActiveDeviceKeys(t, user.id, fp) == {k} && !Tokens.IsExpired(t[k], now)
    requires RefreshCookieMaxAgeSeconds(d.props).Returns?
    ensures var o := Login(d, t, phone, req, now, rnd, victim);
      o.rows == t[k := Touch(t[k], now).(userAgent := req.userAgent)] && o.rows.Keys == t.Keys
    ensures var o := Login(d, t, phone, req, now, rnd, victim);
      var ver := d.tokenVersion(user.id);
      o.result == Returns(Ok(IssueAccess(d.sign, d.props, user.id, Some(user.username), user.roles, ver, rnd.accessJti, now)))
      && o.cookie == WriteCookie(d.sign(RefreshClaims(d.props, user.id, t[k].familyId, k, ver, now)),
                                 RefreshCookieMaxAgeSeconds(d.props).value)
  {
    var f := FindActiveByUserAndDevice(t, user.id, fp);
    assert f == Returns(Some(t[k])) by {
      assert TheOnly(ActiveDeviceKeys(t, user.id, fp)) == k;
    }
    assert t[k].jti == k && t[k].userId == user.id;
  }

  /** On the new-session path one ACTIVE row is inserted under the fresh `jti`: the new
      family, the computed fingerprint, the hash of the new refresh JWT, an expiry
      `refreshExpDays` days ahead, and `createdAt = lastUsedAt = now`. Besides it only the
      stale device row and the cap's victim may have been revoked. The cookie carries the
      new refresh JWT. */
  lemma LoginCreatesSession(d: Deps, t: Table, phone: string, req: HttpRequest, now: Instant, rnd: Randomness,
                            victim: Option<string>, user: User, fp: string)
    requires TakesNewSessionPath(d, t, phone, req, now, user, fp)
    requires Login(d, t, phone, req, now, rnd, victim).result.Returns?
    ensures var o := Login(d, t, phone, req, now, rnd, victim);
      var raw := d.sign(RefreshClaims(d.props, user.id, rnd.familyId, rnd.jti, d.tokenVersion(user.id), now));
      && rnd.jti in o.rows
      && o.rows == CapSessions(d, BeforeCap(d, t, phone, req, now), user.id, victim)[rnd.jti := o.rows[rnd.jti]]
      && o.rows[rnd.jti] == RefreshToken(rnd.jti, user.id, rnd.familyId, Some(Sha256Hex(d.sha256, raw).value), Some(fp),
                                         Active, now + d.props.refreshExpDays * 86_400_000, req.userAgent, None, Some(now), now)
      && o.cookie == WriteCookie(raw, d.props.refreshExpDays * SECONDS_PER_DAY)
      && o.result == Returns(Ok(IssueAccess(d.sign, d.props, user.id, Some(user.username), user.roles,
                                            d.tokenVersion(user.id), rnd.accessJti, now)))
  {
  }

  /** The cap, for `maxSession >= 1` and a fresh `jti`. The stale device row, when there
      is one, is revoked first, which lowers the count by one. A user then at the cap or
      above keeps that count, the victim alone being revoked besides; below it the count
      grows by one. */
  lemma LoginSessionCap(d: Deps, t: Table, phone: string, req: HttpRequest, now: Instant, rnd: Randomness,
                        victim: Option<string>, user: User, fp: string)
    requires KeyedByJti(t)
    requires TakesNewSessionPath(d, t, phone, req, now, user, fp)
    requires Login(d, t, phone, req, now, rnd, victim).result.Returns?
    requires d.maxSession >= 1 && rnd.jti !in t && VictimChosen(d, t, phone, req, now, victim)
    ensures CountActiveByUser(BeforeCap(d, t, phone, req, now), user.id)
         == CountActiveByUser(t, user.id) - |ActiveDeviceKeys(t, user.id, fp)|
    ensures var c := CountActiveByUser(BeforeCap(d, t, phone, req, now), user.id);
      var c' := CountActiveByUser(Login(d, t, phone, req, now, rnd, victim).rows, user.id);
      (c >= d.maxSession ==> c' == c) && (c < d.maxSession ==> c' == c + 1)
    ensures var t0 := BeforeCap(d, t, phone, req, now);
      CountActiveByUser(t0, user.id) >= d.maxSession ==>
      var o := Login(d, t, phone, req, now, rnd, victim);
      victim.Some? && o.rows[victim.value] == t0[victim.value].(status := Revoked)
      && forall k :: k in t0 && k != victim.value ==> o.rows[k] == t0[k]
  {
    var o := Login(d, t, phone, req, now, rnd, victim);
    LoginCreatesSession(d, t, phone, req, now, rnd, victim, user, fp);
    var found := FindActiveByUserAndDevice(t, user.id, fp).value;
    var t0 := BeforeCap(d, t, phone, req, now);
    assert t0 == RetireStale(t, found);
    RetireStaleCount(t, user.id, fp, found);
    var row := o.rows[rnd.jti];
    assert o.rows == CapSessions(d, t0, user.id, victim)[rnd.jti := row] && row.userId == user.id && row.status == Active;
    CapThenInsert(d, t0, user.id, victim, rnd.jti, row);
  }

  /** Retiring the row the device lookup found lowers the user's ACTIVE count by the number
      of the device's ACTIVE rows. */
  lemma RetireStaleCount(t: Table, userId: int, fp: string, found: Option<RefreshToken>)
    requires KeyedByJti(t) && FindActiveByUserAndDevice(t, userId, fp) == Returns(found)
    ensures RetireStale(t, found).Keys == t.Keys && KeyedByJti(RetireStale(t, found))
    ensures CountActiveByUser(RetireStale(t, found), userId) == CountActiveByUser(t, userId) - |ActiveDeviceKeys(t, userId, fp)|
  {
    var a := ActiveKeys(t, userId);
    if found.Some? {
      FoundRowIsStored(t, userId, fp);
      var s := found.value.jti;
      RevokeRowShrinks(t, s);
      assert s in a;
      assert ActiveKeys(RetireStale(t, found), userId) == a - {s};
    }
  }

  /** The cap followed by the insertion of one ACTIVE row of the user under a new key: at
      the cap the count stays, below it it grows by one, and at the cap only the victim is
      revoked besides. */
  lemma CapThenInsert(d: Deps, t0: Table, userId: int, victim: Option<string>, k: string, row: RefreshToken)
    requires d.maxSession >= 1 && IsFirstOldest(t0, userId, victim) && k !in t0
    requires row.userId == userId && row.status == Active
    ensures var c := CountActiveByUser(t0, userId);
      var c' := CountActiveByUser(CapSessions(d, t0, userId, victim)[k := row], userId);
      (c >= d.maxSession ==> c' == c) && (c < d.maxSession ==> c' == c + 1)
    ensures CountActiveByUser(t0, userId) >= d.maxSession ==>
      var t2 := CapSessions(d, t0, userId, victim)[k := row];
      victim.Some? && t2[victim.value] == t0[victim.value].(status := Revoked)
      && forall j :: j in t0 && j != victim.value ==> t2[j] == t0[j]
  {
    var t1 := CapSessions(d, t0, userId, victim);
    var a0 := ActiveKeys(t0, userId);
    if CountActiveByUser(t0, userId) >= d.maxSession {
      var v := victim.value;
      RevokeRowShrinks(t0, v);
      assert ActiveKeys(t1, userId) == a0 - {v};
      assert |a0 - {v}| == |a0| - 1;
    }
    assert t1.Keys == t0.Keys;
    InsertRowGrows(t1, k, row);
    assert ActiveKeys(t1[k := row], userId) == ActiveKeys(t1, userId) + {k};
  }

  /** Revoking a row removes it from every ACTIVE query and changes no other. */
  lemma RevokeRowShrinks(t: Table, k: string)
    requires k in t
    ensures forall u :: ActiveKeys(t[k := t[k].(status := Revoked)], u) == ActiveKeys(t, u) - {k}
    ensures forall u, f :: ActiveDeviceKeys(t[k := t[k].(status := Revoked)], u, f) == ActiveDeviceKeys(t, u, f) - {k}
  {
  }

  /** A row under a new key joins exactly the ACTIVE queries it matches. */
  lemma InsertRowGrows(t: Table, k: string, row: RefreshToken)
    requires k !in t
    ensures forall u ::
      ActiveKeys(t[k := row], u) == ActiveKeys(t, u) + (if row.userId == u && row.status == Active then {k} else {})
    ensures forall u, f ::
      ActiveDeviceKeys(t[k := row], u, f)
        == ActiveDeviceKeys(t, u, f) + (if row.userId == u && row.deviceFp == Some(f) && row.status == Active then {k} else {})
  {
  }

  // ---------------------------------------------------------------------------
  // Properties of the refresh

  /** Every check after the claims passes: the version is current, the token's `jti` names
      a live row bound to the request's device, the user exists and the Max-Age fits. */
  predicate RefreshAccepted(d: Deps, t: Table, req: HttpRequest, now: Instant, c: Claims)
    requires c.uid.Some?
  {
    c.ver == Some(d.tokenVersion(c.uid.value))
    && c.jti.Some? && c.jti.value in t && Tokens.IsActive(t[c.jti.value], now)
    && UserScopedFingerprint(d.hmac, d.hmacSecret, req, c.uid.value).Returns?
    && t[c.jti.value].deviceFp == Some(UserScopedFingerprint(d.hmac, d.hmacSecret, req, c.uid.value).value)
    && d.findById(c.uid.value).Some?
    && RefreshCookieMaxAgeSeconds(d.props).Returns?
  }

  /** A missing or blank cookie answers 404, a token that does not verify or is not a
      refresh token answers 401, and neither changes the table or the cookie. */
  lemma RefreshEarlyFailuresChangeNothing(d: Deps, t: Table, req: HttpRequest, now: Instant, rnd: Randomness)
    ensures PresentedToken(d, req).None? || IsBlank(PresentedToken(d, req).value) ==>
      Refresh(d, t, req, now, rnd) == Outcome(Returns(Fail(404, "Invalid refreshToken", NotFound)), t, NoCookie)
    ensures PresentedToken(d, req).Some? && !IsBlank(PresentedToken(d, req).value) ==>
      var v := Verify(d.props, d.parse, PresentedToken(d, req).value, now);
      (v.Throws? || v.value.Rejected? || v.value.claims.typ != Some(TYP_REFRESH)) ==>
        Refresh(d, t, req, now, rnd) == Outcome(Returns(Unauthorized401()), t, NoCookie)
  {
  }

  /** In check order, a stale version, a missing or inactive row, and a row bound to
      another device each revoke the claimed family, clear the cookie and answer 401; so
      does an unknown user, after the row was touched. */
  lemma RefreshCompromiseRevokesFamily(d: Deps, t: Table, req: HttpRequest, now: Instant, rnd: Randomness, c: Claims)
    requires PresentedRefresh(d, req, now, c)
    ensures c.ver.value != d.tokenVersion(c.uid.value) ==> Refresh(d, t, req, now, rnd) == Compromised(t, c.fid)
    ensures c.ver.value == d.tokenVersion(c.uid.value) && (FindByJti(t, c.jti).None? || !Tokens.IsActive(FindByJti(t, c.jti).value, now)) ==>
      Refresh(d, t, req, now, rnd) == Compromised(t, c.fid)
    ensures c.ver.value == d.tokenVersion(c.uid.value) && FindByJti(t, c.jti).Some? && Tokens.IsActive(FindByJti(t, c.jti).value, now)
            && UserScopedFingerprint(d.hmac, d.hmacSecret, req, c.uid.value).Returns?
            && FindByJti(t, c.jti).value.deviceFp != Some(UserScopedFingerprint(d.hmac, d.hmacSecret, req, c.uid.value).value) ==>
      Refresh(d, t, req, now, rnd) == Compromised(t, c.fid)
    ensures c.ver.value == d.tokenVersion(c.uid.value) && FindByJti(t, c.jti).Some? && Tokens.IsActive(FindByJti(t, c.jti).value, now)
            && UserScopedFingerprint(d.hmac, d.hmacSecret, req, c.uid.value).Returns?
            && FindByJti(t, c.jti).value.deviceFp == Some(UserScopedFingerprint(d.hmac, d.hmacSecret, req, c.uid.value).value)
            && d.findById(c.uid.value).None? ==>
      var row := FindByJti(t, c.jti).value;
      Refresh(d, t, req, now, rnd) == Compromised(t[row.jti := Touch(row, now)], c.fid)
  {
  }

  /** A refresh succeeds exactly when the presented token passes every check. */
  lemma RefreshSucceedsExactly(d: Deps, t: Table, req: HttpRequest, now: Instant, rnd: Randomness)
    ensures var o := Refresh(d, t, req, now, rnd);
      (o.result.Returns? && o.result.value.success) <==> exists c :: PresentedRefresh(d, req, now, c) && RefreshAccepted(d, t, req, now, c)
  {
    var o := Refresh(d, t, req, now, rnd);
    var token := PresentedToken(d, req);
    if token.Some? && !IsBlank(token.value) {
      var v := Verify(d.props, d.parse, token.value, now);
      if v.Returns? && v.value.Verified? && v.value.claims.typ == Some(TYP_REFRESH)
         && v.value.claims.uid.Some? && v.value.claims.ver.Some? {
        var c := v.value.claims;
        assert PresentedRefresh(d, req, now, c);
        assert o == RefreshWithClaims(d, t, req, now, rnd, token.value, c);
        RefreshWithClaimsSucceeds(d, t, req, now, rnd, token.value, c);
        forall c' | PresentedRefresh(d, req, now, c')
          ensures c' == c
        {
        }
      } else {
        forall c' ensures !PresentedRefresh(d, req, now, c') {
        }
      }
    } else {
      forall c' ensures !PresentedRefresh(d, req, now, c') {
      }
    }
  }

  /** Once the claims are read, the refresh succeeds exactly when every later check passes. */
  lemma RefreshWithClaimsSucceeds(d: Deps, t: Table, req: HttpRequest, now: Instant, rnd: Randomness, token: string, c: Claims)
    requires c.uid.Some? && c.ver.Some?
    ensures var o := RefreshWithClaims(d, t, req, now, rnd, token, c);
      (o.result.Returns? && o.result.value.success) <==> RefreshAccepted(d, t, req, now, c)
  {
    var userId := c.uid.value;
    if c.ver.value == d.tokenVersion(userId) && c.jti.Some? && c.jti.value in t {
      var row := t[c.jti.value];
      assert FindByJti(t, c.jti) == Some(row);
      if row.status == Active && !Tokens.IsExpired(row, now) {
        var fp := UserScopedFingerprint(d.hmac, d.hmacSecret, req, userId);
        if fp.Returns? && Some(fp.value) == row.deviceFp {
          var t1 := t[row.jti := Touch(row, now)];
          if d.findById(userId).Some? {
          }
        }
      }
    }
  }

  /** A successful refresh adds no row and keeps its row ACTIVE, changing only its last
      use; the new access token carries the presented token's user and version, and the
      cookie is written again with the same refresh token. */
  lemma RefreshSuccessOnlyTouches(d: Deps, t: Table, req: HttpRequest, now: Instant, rnd: Randomness, c: Claims)
    requires KeyedByJti(t)
    requires PresentedRefresh(d, req, now, c) && RefreshAccepted(d, t, req, now, c)
    ensures var o := Refresh(d, t, req, now, rnd);
      var k := c.jti.value;
      o.rows == t[k := Touch(t[k], now)] && o.rows.Keys == t.Keys && Tokens.IsActive(o.rows[k], now)
    ensures var o := Refresh(d, t, req, now, rnd);
      var user := d.findById(c.uid.value).value;
      var access := AccessClaims(d.props, c.uid.value, Some(user.username), user.roles, c.ver.value, rnd.accessJti, now);
      o.result == Returns(Ok(d.sign(access))) && access.ver == c.ver && access.uid == c.uid
      && o.cookie == WriteCookie(PresentedToken(d, req).value, RefreshCookieMaxAgeSeconds(d.props).value)
  {
    assert t[c.jti.value].jti == c.jti.value;
  }

  /** A refresh never adds or removes a row, keeps the key invariant, and changes a status
      only to REVOKED: it never reactivates a row. */
  lemma RefreshNeverAddsOrReactivates(d: Deps, t: Table, req: HttpRequest, now: Instant, rnd: Randomness)
    requires KeyedByJti(t)
    ensures Conserves(t, Refresh(d, t, req, now, rnd).rows)
  {
    var token := PresentedToken(d, req);
    if token.Some? && !IsBlank(token.value) {
      var v := Verify(d.props, d.parse, token.value, now);
      if v.Returns? && v.value.Verified? && v.value.claims.typ == Some(TYP_REFRESH)
         && v.value.claims.uid.Some? && v.value.claims.ver.Some? {
        RefreshWithClaimsConserves(d, t, req, now, rnd, token.value, v.value.claims);
      }
    }
  }

  /** `t'` has the keys of `t`, keeps the key invariant, and differs from `t` in status
      only by rows that became REVOKED. */
  predicate Conserves(t: Table, t': Table)
  {
    t'.Keys == t.Keys && KeyedByJti(t')
    && forall k :: k in t ==> t'[k].status == t[k].status || t'[k].status == Revoked
  }

  lemma CompromisedConserves(t: Table, familyId: Option<string>)
    requires KeyedByJti(t)
    ensures Conserves(t, Compromised(t, familyId).rows)
  {
    RevokedFamilyExact(t, familyId);
    RevokedFamilyDisables(t, familyId, 0);
  }

  lemma ConservesTransitive(t: Table, t1: Table, t2: Table)
    requires Conserves(t, t1) && Conserves(t1, t2)
    ensures Conserves(t, t2)
  {
    forall k | k in t
      ensures t2[k].status == t[k].status || t2[k].status == Revoked
    {
      assert k in t1;
    }
  }

  lemma RefreshWithClaimsConserves(d: Deps, t: Table, req: HttpRequest, now: Instant, rnd: Randomness, token: string, c: Claims)
    requires c.uid.Some? && c.ver.Some? && KeyedByJti(t)
    ensures Conserves(t, RefreshWithClaims(d, t, req, now, rnd, token, c).rows)
  {
    var o := RefreshWithClaims(d, t, req, now, rnd, token, c);
    var userId := c.uid.value;
    CompromisedConserves(t, c.fid);
    if c.ver.value != d.tokenVersion(userId) || FindByJti(t, c.jti).None? {
      assert o.rows == Compromised(t, c.fid).rows;
    } else {
      var row := FindByJti(t, c.jti).value;
      if row.status != Active || Tokens.IsExpired(row, now) {
        assert o.rows == Compromised(t, c.fid).rows;
      } else {
        var fp := UserScopedFingerprint(d.hmac, d.hmacSecret, req, userId);
        if fp.Throws? {
          assert o.rows == t;
        } else if Some(fp.value) != row.deviceFp {
          assert o.rows == Compromised(t, c.fid).rows;
        } else {
          var t1 := t[row.jti := Touch(row, now)];
          assert row.jti == c.jti.value;
          assert Conserves(t, t1);
          CompromisedConserves(t1, c.fid);
          if d.findById(userId).None? {
            assert o.rows == Compromised(t1, c.fid).rows;
            ConservesTransitive(t, t1, o.rows);
          } else {
            assert o.rows == t1;
          }
        }
      }
    }
  }

  // ---------------------------------------------------------------------------
  // One ACTIVE row per device

  /** The single-result query never sees two ACTIVE rows of one user and device. */
  ghost predicate OneActivePerDevice(t: Table)
  {
    forall u, fp :: |ActiveDeviceKeys(t, u, fp)| <= 1
  }

  /** Under that invariant `findActiveByUserAndDevice` never throws. */
  lemma OneActivePerDeviceLookupReturns(t: Table, userId: int, fp: string)
    requires OneActivePerDevice(t)
    ensures FindActiveByUserAndDevice(t, userId, fp).Returns?
  {
    assert |ActiveDeviceKeys(t, userId, fp)| <= 1;
  }

  /** The row a single-result lookup returns is stored under its own `jti`, the one key matching. */
  lemma FoundRowIsStored(t: Table, userId: int, fp: string)
    requires KeyedByJti(t)
    requires FindActiveByUserAndDevice(t, userId, fp).Returns? && FindActiveByUserAndDevice(t, userId, fp).value.Some?
    ensures var row := FindActiveByUserAndDevice(t, userId, fp).value.value;
      row.jti in t && t[row.jti] == row && ActiveDeviceKeys(t, userId, fp) == {row.jti}
  {
    var ks := ActiveDeviceKeys(t, userId, fp);
    var row := FindActiveByUserAndDevice(t, userId, fp).value.value;
    var j :| j in t && t[j] == row;
    assert j in ks;
    SingletonUnique(ks);
    assert ks == {j};
  }

  /** As written, a login from a device whose row expired while still ACTIVE leaves that
      row ACTIVE and inserts a second one for the same device (when the cap does not
      intervene); the next login from the device then throws from the single-result query
      and changes nothing. */
  lemma StaleDeviceRowStaysActive(d: Deps, t: Table, phone: string, req: HttpRequest, now: Instant, rnd: Randomness,
                                  victim: Option<string>, user: User, fp: string, k: string,
                                  now2: Instant, rnd2: Randomness, victim2: Option<string>)
    requires d.findByPhone(phone) == Some(user)
    requires UserScopedFingerprint(d.hmac, d.hmacSecret, req, user.id) == Returns(fp)
    requires k in t && ActiveDeviceKeys(t, user.id, fp) == {k} && Tokens.IsExpired(t[k], now)
    requires CountActiveByUser(t, user.id) < d.maxSession && rnd.jti !in t
    requires LoginAsWritten(d, t, phone, req, now, rnd, victim).result.Returns?
    ensures var t1 := LoginAsWritten(d, t, phone, req, now, rnd, victim).rows;
      ActiveDeviceKeys(t1, user.id, fp) == {k, rnd.jti} && |ActiveDeviceKeys(t1, user.id, fp)| == 2
    ensures var t1 := LoginAsWritten(d, t, phone, req, now, rnd, victim).rows;
      LoginAsWritten(d, t1, phone, req, now2, rnd2, victim2) == Outcome(Throws(IncorrectResultSize(1, 2)), t1, NoCookie)
  {
    assert TheOnly(ActiveDeviceKeys(t, user.id, fp)) == k;
    var found := Some(t[k]);
    assert FindActiveByUserAndDevice(t, user.id, fp) == Returns(found);
    var ver := d.tokenVersion(user.id);
    var access := IssueAccess(d.sign, d.props, user.id, Some(user.username), user.roles, ver, rnd.accessJti, now);
    var issued := Persisted(d, CapSessions(d, t, user.id, victim), req, rnd.jti, rnd.familyId, user.id, ver, fp, now);
    var o := LoginAsWritten(d, t, phone, req, now, rnd, victim);
    assert o == Commit(d, t, access, issued);
    CommitEffect(d, t, access, issued);
    var row := o.rows[rnd.jti];
    assert o.rows == t[rnd.jti := row] && row.userId == user.id && row.deviceFp == Some(fp) && row.status == Active;
    InsertRowGrows(t, rnd.jti, row);
    assert ActiveDeviceKeys(o.rows, user.id, fp) == {k} + {rnd.jti};
    assert k != rnd.jti;
  }

  /** With the stale row revoked first, a login keeps at most one ACTIVE row per user and
      device, and the key invariant, for a fresh `jti`. */
  lemma LoginKeepsOneActivePerDevice(d: Deps, t: Table, phone: string, req: HttpRequest, now: Instant,
                                             rnd: Randomness, victim: Option<string>)
    requires KeyedByJti(t) && OneActivePerDevice(t) && rnd.jti !in t
    ensures OneActivePerDevice(Login(d, t, phone, req, now, rnd, victim).rows)
    ensures KeyedByJti(Login(d, t, phone, req, now, rnd, victim).rows)
  {
    var o := Login(d, t, phone, req, now, rnd, victim);
    match d.findByPhone(phone)
    case None =>
    case Some(user) =>
      match UserScopedFingerprint(d.hmac, d.hmacSecret, req, user.id)
      case Throws(_) =>
      case Returns(fp) =>
        match FindActiveByUserAndDevice(t, user.id, fp)
        case Throws(_) =>
        case Returns(found) =>
          var ver := d.tokenVersion(user.id);
          var access := IssueAccess(d.sign, d.props, user.id, Some(user.username), user.roles, ver, rnd.accessJti, now);
          if found.Some? {
            FoundRowIsStored(t, user.id, fp);
          }
          if found.Some? && !Tokens.IsExpired(found.value, now) {
            var issued := Returns(ReuseSession(d, t, found.value, req, ver, now));
            assert o == Commit(d, t, access, issued);
            CommitEffect(d, t, access, issued);
            if o.result.Returns? {
              TouchKeepsDeviceQueries(t, found.value, now, req.userAgent);
            }
          } else {
            var t1 := CapSessions(d, RetireStale(t, found), user.id, victim);
            StaleAndCapShrink(d, t, user.id, fp, found, victim);
            var issued := Persisted(d, t1, req, rnd.jti, rnd.familyId, user.id, ver, fp, now);
            assert o == Commit(d, t, access, issued);
            CommitEffect(d, t, access, issued);
            if o.result.Returns? {
              var row := o.rows[rnd.jti];
              assert o.rows == t1[rnd.jti := row] && row.userId == user.id && row.deviceFp == Some(fp) && row.jti == rnd.jti;
              InsertKeepsOne(t, t1, rnd.jti, row, user.id, fp);
            }
          }
  }

  /** Touching a stored row and setting its user agent changes no ACTIVE query and keeps
      the key invariant. */
  lemma TouchKeepsDeviceQueries(t: Table, row: RefreshToken, now: Instant, userAgent: Option<string>)
    requires KeyedByJti(t) && row.jti in t && t[row.jti] == row
    ensures var t1 := t[row.jti := Touch(row, now).(userAgent := userAgent)];
      KeyedByJti(t1) && forall u, f :: ActiveDeviceKeys(t1, u, f) == ActiveDeviceKeys(t, u, f)
  {
  }

  /** Revoking the stale device row and then applying the cap leaves the device without an
      ACTIVE row and only shrinks every other device's. */
  lemma StaleAndCapShrink(d: Deps, t: Table, userId: int, fp: string, found: Option<RefreshToken>, victim: Option<string>)
    requires KeyedByJti(t)
    requires FindActiveByUserAndDevice(t, userId, fp) == Returns(found)
    ensures var t1 := CapSessions(d, RetireStale(t, found), userId, victim);
      t1.Keys == t.Keys && KeyedByJti(t1) && ActiveDeviceKeys(t1, userId, fp) == {}
      && forall u, f :: ActiveDeviceKeys(t1, u, f) <= ActiveDeviceKeys(t, u, f)
  {
    var t0 := RetireStale(t, found);
    if found.Some? {
      FoundRowIsStored(t, userId, fp);
      RevokeRowShrinks(t, found.value.jti);
    }
    assert ActiveDeviceKeys(t0, userId, fp) == {};
    assert forall u, f :: ActiveDeviceKeys(t0, u, f) <= ActiveDeviceKeys(t, u, f);
    if victim.Some? && victim.value in t0 {
      RevokeRowShrinks(t0, victim.value);
    }
  }

  /** A new ACTIVE row for a device without one keeps at most one per device. */
  lemma InsertKeepsOne(t: Table, t1: Table, k: string, row: RefreshToken, userId: int, fp: string)
    requires OneActivePerDevice(t) && k !in t1
    requires ActiveDeviceKeys(t1, userId, fp) == {} && forall u, f :: ActiveDeviceKeys(t1, u, f) <= ActiveDeviceKeys(t, u, f)
    requires row.userId == userId && row.deviceFp == Some(fp)
    ensures OneActivePerDevice(t1[k := row])
  {
    InsertRowGrows(t1, k, row);
    var t2 := t1[k := row];
    forall u, f
      ensures |ActiveDeviceKeys(t2, u, f)| <= 1
    {
      if u == userId && f == fp {
        assert ActiveDeviceKeys(t2, u, f) <= {k};
        SubsetCard(ActiveDeviceKeys(t2, u, f), {k});
      } else {
        assert ActiveDeviceKeys(t2, u, f) <= ActiveDeviceKeys(t, u, f);
        SubsetCard(ActiveDeviceKeys(t2, u, f), ActiveDeviceKeys(t, u, f));
      }
    }
  }

  /** The correction changes only the stale case: without an expired ACTIVE row for the
      device both logins agree. */
  lemma LoginAgreesWithWrittenOtherwise(d: Deps, t: Table, phone: string, req: HttpRequest, now: Instant,
                                     rnd: Randomness, victim: Option<string>)
    requires forall user, fp ::
      d.findByPhone(phone) == Some(user) && UserScopedFingerprint(d.hmac, d.hmacSecret, req, user.id) == Returns(fp)
      ==> ActiveDeviceKeys(t, user.id, fp) == {}
    ensures Login(d, t, phone, req, now, rnd, victim) == LoginAsWritten(d, t, phone, req, now, rnd, victim)
  {
  }
}
