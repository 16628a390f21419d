/** `DeviceFingerPrService`: a device fingerprint scoped to one user, the HMAC-SHA256
    hex digest of `deviceId:userId:userAgent`. */
module Fingerprint {
  import opened Java
  import opened Servlet
  import opened HashUtils

  const NO_USER_AGENT: string := "NA"

  /** `normalizeUa`. */
  function NormalizeUa(ua: Option<string>): string
  {
    match ua
    case None => NO_USER_AGENT
    case Some(u) => ToLowerCase(u)
  }

  /** The string that is hashed. */
  function FingerprintInput(deviceId: string, userId: int, ua: string): string
  {
    deviceId + ":" + LongToString(userId) + ":" + ua
  }

  /** `userScopedFingerprint`. The call `hmacSha256Hex(hmacSecret, data)` passes the
      secret as the message and the device string as the key, and is modelled so. */
  function UserScopedFingerprint(hmac: HmacSha256, hmacSecret: string, req: HttpRequest, userId: int): Checked<string>
  {
    if req.deviceId.None? || IsBlank(req.deviceId.value) then
      Throws(IllegalArgument("Missing X-Device-Id header"))
    else
      HmacSha256Hex(hmac, hmacSecret, FingerprintInput(req.deviceId.value, userId, NormalizeUa(req.userAgent)))
  }

  /** A missing, empty or white-space-only device id is refused; any other does not trip
      the guard, and the fingerprint is then the MAC the device string keys. */
  lemma MissingDeviceIdRefused(hmac: HmacSha256, hmacSecret: string, req: HttpRequest, userId: int)
    ensures UserScopedFingerprint(hmac, hmacSecret, req, userId) == Throws(IllegalArgument("Missing X-Device-Id header"))
        <==> req.deviceId.None? || IsBlank(req.deviceId.value)
    ensures req.deviceId.Some? && !IsBlank(req.deviceId.value) ==>
      UserScopedFingerprint(hmac, hmacSecret, req, userId)
        == HmacSha256Hex(hmac, hmacSecret, FingerprintInput(req.deviceId.value, userId, NormalizeUa(req.userAgent)))
  {
    var r := UserScopedFingerprint(hmac, hmacSecret, req, userId);
    if req.deviceId.Some? && !IsBlank(req.deviceId.value) && r.Throws? {
      assert r.exception == Runtime("HMAC calc failed");
    }
  }

  /** Without a user agent the input ends in "NA"; with one, its ASCII letters are lower-cased,
      so normalising twice is normalising once. */
  lemma NormalizeUaShape(ua: Option<string>)
    ensures ua.None? ==> NormalizeUa(ua) == "NA"
    ensures ua.Some? ==>
      |NormalizeUa(ua)| == |ua.value| && forall i :: 0 <= i < |ua.value| ==> NormalizeUa(ua)[i] == LowerChar(ua.value[i])
    ensures ua.Some? ==> NormalizeUa(Some(NormalizeUa(ua))) == NormalizeUa(ua)
  {
    if ua.Some? {
      ToLowerCaseIdempotent(ua.value);
    }
  }

  /** The same device id, user, secret and user agent up to ASCII case give the same fingerprint. */
  lemma FingerprintDeterministic(hmac: HmacSha256, hmacSecret: string, r1: HttpRequest, r2: HttpRequest, userId: int)
    requires r1.deviceId == r2.deviceId
    requires r1.userAgent.None? <==> r2.userAgent.None?
    requires r1.userAgent.Some? ==> ToLowerCase(r1.userAgent.value) == ToLowerCase(r2.userAgent.value)
    ensures UserScopedFingerprint(hmac, hmacSecret, r1, userId) == UserScopedFingerprint(hmac, hmacSecret, r2, userId)
  {
  }

  /** A fingerprint that is computed has 64 lower-case hex digits, so it fits `DEVICE_FP`. */
  lemma FingerprintIsHex(hmac: HmacSha256, hmacSecret: string, req: HttpRequest, userId: int)
    requires UserScopedFingerprint(hmac, hmacSecret, req, userId).Returns?
    ensures |UserScopedFingerprint(hmac, hmacSecret, req, userId).value| == 64
    ensures IsHex(UserScopedFingerprint(hmac, hmacSecret, req, userId).value)
  {
  }

  /** For device ids without ':', the hashed string determines the device id, the user id
      and the normalised user agent: distinct users of one device hash distinct strings. */
  lemma FingerprintInputInjective(d1: string, u1: int, a1: string, d2: string, u2: int, a2: string)
    requires ':' !in d1 && ':' !in d2
    requires FingerprintInput(d1, u1, a1) == FingerprintInput(d2, u2, a2)
    ensures d1 == d2 && u1 == u2 && a1 == a2
  {
    var s := FingerprintInput(d1, u1, a1);
    var n1, n2 := LongToString(u1), LongToString(u2);
    FirstColon(d1, n1 + ":" + a1);
    FirstColon(d2, n2 + ":" + a2);
    assert d1 + ":" + n1 + ":" + a1 == d1 + ":" + (n1 + ":" + a1);
    assert d2 + ":" + n2 + ":" + a2 == d2 + ":" + (n2 + ":" + a2);
    assert d1 == d2;
    assert n1 + ":" + a1 == n2 + ":" + a2 by {
      assert s[|d1| + 1..] == n1 + ":" + a1;
      assert s[|d2| + 1..] == n2 + ":" + a2;
    }
    FirstColon(n1, a1);
    FirstColon(n2, a2);
    LongToStringInjective(u1, u2);
  }

  /** Splitting at the first ':' recovers the part before it. */
  lemma FirstColon(x: string, rest: string)
    requires ':' !in x
    ensures |x| < |x + ":" + rest| && (x + ":" + rest)[|x|] == ':'
    ensures forall i :: 0 <= i < |x| ==> (x + ":" + rest)[i] != ':'
    ensures (x + ":" + rest)[..|x|] == x && (x + ":" + rest)[|x| + 1..] == rest
  {
  }
}
