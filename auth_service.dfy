/** `AuthService`: the rotating variant. Every login opens a new family with one ACTIVE
    row; every refresh marks the presented row USED and inserts its successor in the same
    family, so presenting a rotated token again finds a USED row and revokes the family.
    No step is transactional: each `save` stands on its own. */
module Rotating {
  import opened Java
  import opened Servlet
  import opened Responses
  import opened Jwt
  import opened Tokens
  import opened Repository
  import opened HttpCookies
  import opened Flows

  /** Spring's `ResponseEntity`: a status code and an optional body. */
  datatype ResponseEntity = ResponseEntity(status: int, body: Option<Response<string>>)

  /** `ResponseEntity.status(401).build()`. */
  const EMPTY_401: ResponseEntity := ResponseEntity(401, None)

  /** `refreshExpDays * 24L * 60L * 60L`, in `long` arithmetic. */
  function LifetimeSeconds(props: JwtProperties): int
  {
    WrapLong(props.refreshExpDays * 86_400)
  }

  /** `(int) (refreshExpDays * 24L * 60L * 60L)`: the cookie Max-Age, truncated to an `int`
      without any range check. */
  function MaxAge(props: JwtProperties): int
  {
    WrapInt(LifetimeSeconds(props))
  }

  /** A fresh ACTIVE row as both flows build it: no hash, no fingerprint, no use recorded. */
  function FreshRow(jti: string, userId: Long, familyId: string, props: JwtProperties, userAgent: Option<string>,
                    now: Instant): RefreshToken
  {
    RefreshToken(jti, userId, familyId, None, None, Active, PlusSeconds(now, LifetimeSeconds(props)), userAgent, None, None, now)
  }

  /** `handleLogin`. The user id comes from `UserProfilePort.findUserIdByPhone`, which looks
      the phone (the user's `username`) up again and throws `NoSuchElementException` when
      that finds nobody. */
  function Login(d: Deps, t: Table, phone: string, req: HttpRequest, now: Instant, rnd: Randomness): Outcome<Response<string>>
  {
    match d.findByPhone(phone)
    case None => Outcome(Returns(Fail(404, "User not found", NotFound)), t, NoCookie)
    case Some(user) =>
      match d.findByPhone(user.username)
      case None => Outcome(Throws(NoSuchElement), t, NoCookie)
      case Some(profile) =>
        var userId := profile.id;
        var ver := d.tokenVersion(userId);
        var t1 := t[rnd.jti := FreshRow(rnd.jti, userId, rnd.familyId, d.props, req.userAgent, now)];
        var access := IssueAccess(d.sign, d.props, userId, Some(user.username), user.roles, ver, rnd.accessJti, now);
        var refresh := IssueRefresh(d.sign, d.props, userId, rnd.familyId, rnd.jti, ver, now);
        Outcome(Returns(Ok(access)), t1, WriteCookie(refresh, MaxAge(d.props)))
  }

  /** The presented row marked USED at `now`, with the request's user agent. */
  function Rotated(row: RefreshToken, req: HttpRequest, now: Instant): RefreshToken
  {
    row.(status := Used, rotatedAt := Some(now), userAgent := req.userAgent)
  }

  /** `handleRefresh` once the claims are read. Neither the version nor the device is
      checked. A token without `fid` makes the successor violate `FAMILY_ID NOT NULL`,
      after the presented row was already saved as USED. */
  function RefreshWithClaims(d: Deps, t: Table, req: HttpRequest, now: Instant, rnd: Randomness, c: Claims): Outcome<ResponseEntity>
    requires c.uid.Some? && c.ver.Some?
  {
    var userId := c.uid.value;
    var version := c.ver.value;
    match FindByJti(t, c.jti)
    case None => Outcome(Returns(EMPTY_401), RevokedFamily(t, c.fid), ClearCookie)
    case Some(row) =>
      if row.status != Active || Tokens.IsExpired(row, now) then
        Outcome(Returns(EMPTY_401), RevokedFamily(t, c.fid), ClearCookie)
      else
        var t1 := t[row.jti := Rotated(row, req, now)];
        if c.fid.None? then Outcome(Throws(ConstraintViolation("FAMILY_ID")), t1, NoCookie)
        else
          var t2 := t1[rnd.jti := FreshRow(rnd.jti, userId, c.fid.value, d.props, None, now)];
          var access := IssueAccess(d.sign, d.props, userId, Some(LongToString(userId)), {}, version, rnd.accessJti, now);
          var refresh := IssueRefresh(d.sign, d.props, userId, c.fid.value, rnd.jti, version, now);
          Outcome(Returns(ResponseEntity(200, Some(Ok(access)))), t2, WriteCookie(refresh, MaxAge(d.props)))
  }

  /** `handleRefresh`. */
  function Refresh(d: Deps, t: Table, req: HttpRequest, now: Instant, rnd: Randomness): Outcome<ResponseEntity>
  {
    var token := PresentedToken(d, req);
    if token.None? || IsBlank(token.value) then Outcome(Returns(EMPTY_401), t, NoCookie)
    else match Verify(d.props, d.parse, token.value, now)
      case Throws(_) => Outcome(Returns(EMPTY_401), t, NoCookie)
      case Returns(Rejected(_)) => Outcome(Returns(EMPTY_401), t, NoCookie)
      case Returns(Verified(c)) =>
        if c.typ != Some(TYP_REFRESH) then Outcome(Returns(EMPTY_401), t, NoCookie)
        else if c.uid.None? || c.ver.None? then Outcome(Throws(NullPointer), t, NoCookie)
        else RefreshWithClaims(d, t, req, now, rnd, c)
  }

  class AuthService {
    const deps: Deps
    const repository: RefreshTokenStore

    constructor (deps: Deps, repository: RefreshTokenStore)
      ensures this.deps == deps && this.repository == repository
    {
      this.deps := deps;
      this.repository := repository;
    }

    /** `handleLogin`. */
    method HandleLogin(phone: string, request: HttpRequest, res: HttpResponse, now: Instant, rnd: Randomness)
      returns (r: Checked<Response<string>>)
      requires repository.Valid()
      modifies repository, res
      ensures var o := Login(deps, old(repository.rows), phone, request, now, rnd);
        r == o.result && repository.rows == o.rows
        && res.headers == ApplyCookie(deps.props.cookie, old(res.headers), o.cookie)
      ensures repository.Valid()
    {
      var optUser := deps.findByPhone(phone);
      if optUser.None? {
        return Returns(Fail(404, "User not found", NotFound));
      }
      var user := optUser.value;
      var profile := deps.findByPhone(user.username);
      if profile.None? {
        return Throws(NoSuchElement);
      }
      var userId := profile.value.id;
      var tokenVersion := deps.tokenVersion(userId);
      repository.Save(FreshRow(rnd.jti, userId, rnd.familyId, deps.props, request.userAgent, now));
      var access := IssueAccess(deps.sign, deps.props, userId, Some(user.username), user.roles, tokenVersion, rnd.accessJti, now);
      var refresh := IssueRefresh(deps.sign, deps.props, userId, rnd.familyId, rnd.jti, tokenVersion, now);
      var maxAge := MaxAge(deps.props);
      WriteRefreshCookie(deps.props.cookie, res, refresh, maxAge);
      return Returns(Ok(access));
    }

    /** `handleRefresh`. */
    method HandleRefresh(req: HttpRequest, res: HttpResponse, now: Instant, rnd: Randomness)
      returns (r: Checked<ResponseEntity>)
      requires repository.Valid()
      modifies repository, res
      ensures var o := Refresh(deps, old(repository.rows), req, now, rnd);
        r == o.result && repository.rows == o.rows
        && res.headers == ApplyCookie(deps.props.cookie, old(res.headers), o.cookie)
      ensures repository.Valid()
    {
      var read := Read(req, deps.props.cookie.refreshName);
      if read.None? || IsBlank(read.value) {
        return Returns(EMPTY_401);
      }
      var verified := Verify(deps.props, deps.parse, read.value, now);
      if verified.Throws? || verified.value.Rejected? {
        return Returns(EMPTY_401);
      }
      var claims := verified.value.claims;
      if claims.typ != Some(TYP_REFRESH) {
        return Returns(EMPTY_401);
      }
      var jti := claims.jti;
      if claims.uid.None? {
        return Throws(NullPointer);
      }
      var userId := claims.uid.value;
      var familyId := claims.fid;
      if claims.ver.None? {
        return Throws(NullPointer);
      }
      var version := claims.ver.value;
      var current := FindByJti(repository.rows, jti);
      if current.None? || current.value.status != Active || Tokens.IsExpired(current.value, now) {
        repository.RevokeFamily(familyId);
        ClearRefreshCookie(deps.props.cookie, res);
        return Returns(EMPTY_401);
      }
      repository.Save(Rotated(current.value, req, now));
      if familyId.None? {
        return Throws(ConstraintViolation("FAMILY_ID"));
      }
      repository.Save(FreshRow(rnd.jti, userId, familyId.value, deps.props, None, now));
      var access := IssueAccess(deps.sign, deps.props, userId, Some(LongToString(userId)), {}, version, rnd.accessJti, now);
      var maxAge := MaxAge(deps.props);
      var newRefresh := IssueRefresh(deps.sign, deps.props, userId, familyId.value, rnd.jti, version, now);
      WriteRefreshCookie(deps.props.cookie, res, newRefresh, maxAge);
      return Returns(ResponseEntity(200, Some(Ok(access))));
    }
  }

  // ---------------------------------------------------------------------------
  // Properties

  /** The keys of a family's ACTIVE rows. */
  function ActiveFamilyKeys(t: Table, familyId: string): set<string>
  {
    set k | k in t && t[k].familyId == familyId && t[k].status == Active
  }

  /** An unknown phone answers 404 and changes nothing; so does a failing second lookup,
      which throws. */
  lemma LoginUnknownPhoneChangesNothing(d: Deps, t: Table, phone: string, req: HttpRequest, now: Instant, rnd: Randomness)
    ensures d.findByPhone(phone).None? ==>
      Login(d, t, phone, req, now, rnd) == Outcome(Returns(Fail(404, "User not found", NotFound)), t, NoCookie)
    ensures d.findByPhone(phone).Some? && d.findByPhone(d.findByPhone(phone).value.username).None? ==>
      Login(d, t, phone, req, now, rnd) == Outcome(Throws(NoSuchElement), t, NoCookie)
  {
  }

  /** A login inserts exactly one row, under the fresh `jti`, and changes no other: ACTIVE,
      in the new family, without fingerprint or hash, created at `now` and expiring
      `refreshExpDays` days later. With a family id no row had, the family is that row. */
  lemma LoginInsertsOneRow(d: Deps, t: Table, phone: string, req: HttpRequest, now: Instant, rnd: Randomness,
                           user: User, profile: User)
    requires d.findByPhone(phone) == Some(user) && d.findByPhone(user.username) == Some(profile)
    requires rnd.jti !in t
    ensures var o := Login(d, t, phone, req, now, rnd);
      o.rows.Keys == t.Keys + {rnd.jti} && |o.rows| == |t| + 1
      && (forall k :: k in t ==> o.rows[k] == t[k])
      && (KeyedByJti(t) ==> KeyedByJti(o.rows))
    ensures var row := Login(d, t, phone, req, now, rnd).rows[rnd.jti];
      row.jti == rnd.jti && row.userId == profile.id && row.familyId == rnd.familyId && row.status == Active
      && row.tokenHash.None? && row.deviceFp.None? && row.userAgent == req.userAgent
      && row.createdAt == now && row.lastUsedAt.None? && row.rotatedAt.None?
      && (InLong(d.props.refreshExpDays * 86_400) ==> row.expiresAt == now + d.props.refreshExpDays * 86_400_000)
    ensures (forall k :: k in t ==> t[k].familyId != rnd.familyId) ==>
      FamilyKeys(Login(d, t, phone, req, now, rnd).rows, Some(rnd.familyId)) == {rnd.jti}
    ensures Login(d, t, phone, req, now, rnd).cookie
      == WriteCookie(d.sign(RefreshClaims(d.props, profile.id, rnd.familyId, rnd.jti, d.tokenVersion(profile.id), now)), MaxAge(d.props))
  {
    var o := Login(d, t, phone, req, now, rnd);
    assert o.rows == t[rnd.jti := o.rows[rnd.jti]];
  }

  /** A missing or blank cookie, a token that does not verify, and a token that is not a
      refresh token each answer an empty 401 and change nothing. */
  lemma RefreshEarlyFailuresChangeNothing(d: Deps, t: Table, req: HttpRequest, now: Instant, rnd: Randomness)
    ensures PresentedToken(d, req).None? || IsBlank(PresentedToken(d, req).value) ==>
      Refresh(d, t, req, now, rnd) == Outcome(Returns(EMPTY_401), t, NoCookie)
    ensures PresentedToken(d, req).Some? && !IsBlank(PresentedToken(d, req).value) ==>
      var v := Verify(d.props, d.parse, PresentedToken(d, req).value, now);
      (v.Throws? || v.value.Rejected? || v.value.claims.typ != Some(TYP_REFRESH)) ==>
        Refresh(d, t, req, now, rnd) == Outcome(Returns(EMPTY_401), t, NoCookie)
  {
  }

  /** A token whose row is missing, not ACTIVE or expired revokes the claimed family, clears
      the cookie and answers an empty 401; afterwards no row of that family is active. */
  lemma RejectedRowRevokesFamily(d: Deps, t: Table, req: HttpRequest, now: Instant, rnd: Randomness, c: Claims)
    requires PresentedRefresh(d, req, now, c)
    requires FindByJti(t, c.jti).None? || !Tokens.IsActive(FindByJti(t, c.jti).value, now)
    ensures Refresh(d, t, req, now, rnd) == Outcome(Returns(EMPTY_401), RevokedFamily(t, c.fid), ClearCookie)
    ensures forall k :: k in Refresh(d, t, req, now, rnd).rows && Some(t[k].familyId) == c.fid ==>
      Refresh(d, t, req, now, rnd).rows[k].status == Revoked
  {
  }

  /** The conditions of a rotation: a presented refresh token with a family, whose `jti`
      names a live row, and a successor `jti` not yet in the table. */
  predicate RotationApplies(d: Deps, t: Table, req: HttpRequest, now: Instant, rnd: Randomness, c: Claims)
  {
    PresentedRefresh(d, req, now, c) && c.fid.Some?
    && c.jti.Some? && c.jti.value in t && Tokens.IsActive(t[c.jti.value], now)
    && rnd.jti !in t
  }

  /** A rotation marks the presented row USED at `now` and inserts one ACTIVE successor with
      the claimed user and family and a fresh `jti`. No other row changes, a status only
      moves from ACTIVE to USED, and when the row belongs to the claimed family that
      family keeps its number of ACTIVE rows. */
  lemma RefreshRotates(d: Deps, t: Table, req: HttpRequest, now: Instant, rnd: Randomness, c: Claims)
    requires KeyedByJti(t) && RotationApplies(d, t, req, now, rnd, c)
    ensures var o := Refresh(d, t, req, now, rnd);
      var k := c.jti.value;
      o.rows.Keys == t.Keys + {rnd.jti} && KeyedByJti(o.rows)
      && o.rows[k] == t[k].(status := Used, rotatedAt := Some(now), userAgent := req.userAgent)
      && (forall j :: j in t && j != k ==> o.rows[j] == t[j])
      && o.rows[rnd.jti].status == Active && o.rows[rnd.jti].userId == c.uid.value
      && o.rows[rnd.jti].familyId == c.fid.value && o.rows[rnd.jti].jti == rnd.jti
    ensures var o := Refresh(d, t, req, now, rnd);
      forall j :: j in t ==> o.rows[j].status == t[j].status || (t[j].status == Active && o.rows[j].status == Used)
    ensures t[c.jti.value].familyId == c.fid.value ==>
      |ActiveFamilyKeys(Refresh(d, t, req, now, rnd).rows, c.fid.value)| == |ActiveFamilyKeys(t, c.fid.value)|
  {
    var o := Refresh(d, t, req, now, rnd);
    var k := c.jti.value;
    var row := t[k];
    assert row.jti == k;
    assert FindByJti(t, c.jti) == Some(row);
    var t1 := t[k := Rotated(row, req, now)];
    assert o.rows == t1[rnd.jti := FreshRow(rnd.jti, c.uid.value, c.fid.value, d.props, None, now)];
    if row.familyId == c.fid.value {
      var fid := c.fid.value;
      var a := ActiveFamilyKeys(t, fid);
      assert k in a;
      assert ActiveFamilyKeys(t1, fid) == a - {k};
      assert ActiveFamilyKeys(o.rows, fid) == (a - {k}) + {rnd.jti};
      assert rnd.jti !in a - {k};
      assert |a - {k}| == |a| - 1;
    }
  }

  /** The successor tokens carry the presented token's version: the access token has the
      decimal user id as subject and no roles, the refresh token the claimed family and
      the successor's `jti`; the cookie takes the new refresh token. */
  lemma RotatedTokensCarryVersion(d: Deps, t: Table, req: HttpRequest, now: Instant, rnd: Randomness, c: Claims)
    requires KeyedByJti(t) && RotationApplies(d, t, req, now, rnd, c)
    ensures var o := Refresh(d, t, req, now, rnd);
      var a := AccessClaims(d.props, c.uid.value, Some(LongToString(c.uid.value)), {}, c.ver.value, rnd.accessJti, now);
      o.result == Returns(ResponseEntity(200, Some(Ok(d.sign(a)))))
      && a.ver == c.ver && a.uid == c.uid && a.roles == Some({}) && a.typ == Some(TYP_ACCESS)
    ensures var o := Refresh(d, t, req, now, rnd);
      var r := RefreshClaims(d.props, c.uid.value, c.fid.value, rnd.jti, c.ver.value, now);
      o.cookie == WriteCookie(d.sign(r), MaxAge(d.props))
      && r.ver == c.ver && r.fid == c.fid && r.jti == Some(rnd.jti) && r.typ == Some(TYP_REFRESH)
  {
    assert t[c.jti.value].jti == c.jti.value;
  }

  /** Presenting a token again after it was rotated finds its row USED: the whole family,
      the successor included, is revoked, the cookie cleared, and the answer an empty 401. */
  lemma ReplayRevokesFamily(d: Deps, t: Table, req: HttpRequest, now: Instant, rnd: Randomness, c: Claims,
                            now2: Instant, rnd2: Randomness)
    requires KeyedByJti(t) && RotationApplies(d, t, req, now, rnd, c)
    requires PresentedRefresh(d, req, now2, c)
    ensures var t2 := Refresh(d, t, req, now, rnd).rows;
      Refresh(d, t2, req, now2, rnd2) == Outcome(Returns(EMPTY_401), RevokedFamily(t2, c.fid), ClearCookie)
    ensures var t2 := Refresh(d, t, req, now, rnd).rows;
      RevokedFamily(t2, c.fid)[rnd.jti].status == Revoked
  {
    RefreshRotates(d, t, req, now, rnd, c);
    var t2 := Refresh(d, t, req, now, rnd).rows;
    assert FindByJti(t2, c.jti) == Some(t2[c.jti.value]);
    assert t2[c.jti.value].status == Used;
  }

  /** The rotating refresh never consults the user's current token version or the
      device: a token of an old version, presented from any device, rotates alike. */
  lemma RefreshIgnoresVersionAndDevice(d: Deps, t: Table, req: HttpRequest, now: Instant, rnd: Randomness,
                                       tokenVersion: Long -> Long, deviceId: Option<string>)
    ensures Refresh(d.(tokenVersion := tokenVersion), t, req, now, rnd) == Refresh(d, t, req, now, rnd)
    ensures Refresh(d, t, req.(deviceId := deviceId), now, rnd).result == Refresh(d, t, req, now, rnd).result
  {
  }

  /** The cookie Max-Age is `refreshExpDays * 86400` while that fits an `int`; beyond, the
      cast wraps, so from 24856 days on it is negative. */
  lemma MaxAgeTruncates(props: JwtProperties)
    ensures InInt(props.refreshExpDays * 86_400) ==> MaxAge(props) == props.refreshExpDays * 86_400
    ensures props.refreshExpDays == 24_856 ==> MaxAge(props) == 24_856 * 86_400 - 0x1_0000_0000 && MaxAge(props) < 0
  {
  }
}
