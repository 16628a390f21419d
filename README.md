# my-taxi authentication core, modelled in Dafny

This project models the token lifecycle and session security of the my-taxi
backend. The backend hands out a short-lived access JWT and a long-lived refresh JWT.
The refresh JWT travels in an `HttpOnly` cookie. Each refresh JWT has a server-side
row in `REFRESH_TOKENS`, keyed by its `jti`. The row carries a family id, a status
(ACTIVE, USED, REVOKED), an expiry and, in one variant, a device fingerprint.

The repository has two services on this table, and both are modelled:

- `AuthServiceImpl` (module `NonRotating`) does not rotate tokens. A login reuses the
  device's live row, or creates a new family, first revoking the user's oldest
  session when the cap `maxSession` is reached. A refresh checks the token version,
  the row, the device fingerprint and the user. It only touches the row and
  re-sends the same refresh token. On any mismatch it revokes the family and clears
  the cookie.
- `AuthService` (module `Rotating`) rotates. Every login opens a new family. Every
  refresh marks the presented row USED and inserts an ACTIVE successor in the same
  family. So a rotated token presented again finds a USED row, and the family is
  revoked.

Around them sit further models:

- the row entity and its time predicates (`Tokens`);
- the repository queries over the table (`Repository`);
- the JWT claim sets, the expiry arithmetic and the parser's checks (`Jwt`);
- the `Set-Cookie` serialisation and cookie lookup (`HttpCookies`);
- the hex digests (`HashUtils`) and the user-scoped device fingerprint (`Fingerprint`);
- the `Response` envelope (`Responses`);
- the `UserSession` and `UserBruteForceGuard` entities (`Sessions`, `BruteForce`).

Each service flow is a specification function. It maps the table, the request, the
clock reading and the random UUIDs to an `Outcome`: what the call returns or throws,
the table it leaves, and its cookie effect. Each service class then carries the flow
out step by step on a `RefreshTokenStore`, and its method's `ensures` ties the new
store and response headers to that function. The lemmas are stated about these
functions.

Java semantics are written out:

- exceptions are `Checked<T>`, and `null` is `Option<T>`;
- `short`, `int` and `long` wrap-around is explicit (`WrapShort`, `WrapInt`, `WrapLong`);
- `Math.multiplyExact` and `Math.toIntExact` throw;
- Java integer division truncates (`JavaDiv`);
- a `Date` stored as a JWT NumericDate loses its milliseconds;
- `String.isBlank` uses `Character.isWhitespace`.

The inputs that are not computed are parameters. These are the cryptography (JWS
signing and parsing, SHA-256, HMAC-SHA256), the user repository, the clock (`now`)
and `UUID.randomUUID()` (`Randomness`).

Two places in the code evidently differ from the design: the JWT parser's clock skew
and the non-rotating login's handling of an expired device row. For each, the model
keeps the code as written (`Jwt.CheckJwsAsWritten`, `NonRotating.LoginAsWritten`) with a
lemma that exhibits the discrepancy. The rest of the model uses the corrected
definition (`Jwt.CheckJws`, `NonRotating.Login`), whose intended property is proved
(see "## Findings"). Everything else follows the code, including these points:

- The second-tier brute-force lock needs a count of at least `2 * threshold - 1`
  before the failure. The count reset at the threshold keeps that out of reach from any
  state whose count is below the threshold (`BruteForce.FailureKeepsBelowThreshold`,
  `BruteForce.OnlyFirstTierBelowThreshold`).
- The fingerprint passes the HMAC secret as the message and the device string as the
  key.
- The rotating refresh checks neither the token version nor the device. It takes the
  version from the presented token.
- The rotating login looks the user up a second time by the user's `username`
  (`UserProfilePort.findUserIdByPhone`), and throws when that finds nobody.

## Model

| member | source | states |
|---|---|---|
| Java.WrapShort | src/main/java/my/taxi/entities/auth/UserBruteForceGuard.java:81 | the `short` result of `strike++` lies in the short range, equals the exact value when that fits, and differs from it by a multiple of 2^16 |
| Java.WrapInt | src/main/java/my/taxi/service/AuthService.java:76 | an `(int)` cast or `int` product lies in the int range, is exact when the value fits, else differs by a multiple of 2^32 |
| Java.WrapLong | src/main/java/my/taxi/security/JWTService.java:71 | `long` arithmetic lies in the long range, is exact when the value fits, else differs by a multiple of 2^64 |
| Java.MultiplyExact | src/main/java/my/taxi/service/impl/AuthServiceImpl.java:334-336 | `Duration.ofDays` returns the exact product exactly when it fits a `long`, and otherwise throws `ArithmeticException("long overflow")` |
| Java.ToIntExact | src/main/java/my/taxi/service/impl/AuthServiceImpl.java:318-321 | `Math.toIntExact` returns its argument exactly when it fits an `int`, and otherwise throws `ArithmeticException("integer overflow")` |
| Java.ToLowerCase | src/main/java/my/taxi/security/DeviceFingerPrService.java:29 | lower-casing keeps the length and maps each character through the ASCII lower-case map |
| Java.ToLowerCaseIdempotent | src/main/java/my/taxi/security/DeviceFingerPrService.java:29 | lower-casing twice is lower-casing once |
| Java.NatToString | src/main/java/my/taxi/security/JWTService.java:68 | the decimal rendering of a non-negative number is a non-empty string of digits |
| Java.LongToString | src/main/java/my/taxi/security/JWTService.java:68 | `String.valueOf(long)` is non-empty and contains no ':' |
| Java.NatToStringRoundTrip | src/main/java/my/taxi/security/JWTService.java:68 | reading the decimal digits back gives the number |
| Java.LongToStringInjective | src/main/java/my/taxi/security/DeviceFingerPrService.java:23 | two numbers with the same decimal rendering are equal |
| Responses.Ok | src/main/java/my/taxi/base/Response.java:40-46 | `ok(data)` is a well-formed success with that result, status OK and no id |
| Responses.OkWithId | src/main/java/my/taxi/base/Response.java:48-55 | `ok(id, data)` is a well-formed success that keeps the id |
| Responses.Fail | src/main/java/my/taxi/base/Response.java:57-63 | `fail(code, message, status)` is a well-formed failure whose error holds exactly that code and message, with that status |
| Responses.FailWith | src/main/java/my/taxi/base/Response.java:65-73 | `fail(code, error, status)` keeps the error's message and details and replaces its code |
| Responses.FailWithMessageOnly | src/main/java/my/taxi/base/Response.java:57-73 | both failure factories agree on an error with a message and no details |
| Servlet.HttpResponse.SetHeader | src/main/java/my/taxi/security/web/HttpCookieUtil.java:24 | `setHeader` replaces every earlier value of the header by the one given |
| Servlet.HttpResponse.AddHeader | src/main/java/my/taxi/security/web/HttpCookieUtil.java:33 | `addHeader` appends the value to the header's earlier values |
| HashUtils.Unsigned | src/main/java/my/taxi/utils/HashUtils.java:42 | `%02x` formats a byte as its unsigned value, below 256 and congruent to the byte mod 256 |
| HashUtils.HexByte | src/main/java/my/taxi/utils/HashUtils.java:42 | each byte becomes exactly two lower-case hex digits |
| HashUtils.ToHex | src/main/java/my/taxi/utils/HashUtils.java:40-44 | the loop builds the concatenation of the bytes' two-digit codes, of length twice the array's |
| HashUtils.HexLength | src/main/java/my/taxi/utils/HashUtils.java:41 | the hex string has two characters per byte |
| HashUtils.HexAt | src/main/java/my/taxi/utils/HashUtils.java:42 | byte i sits at positions 2i and 2i+1 |
| HashUtils.HexIsLowerCaseHex | src/main/java/my/taxi/utils/HashUtils.java:42 | every output character is one of 0-9a-f |
| HashUtils.HexValue | src/main/java/my/taxi/utils/HashUtils.java:42 | a hex digit's value is below 16 and indexes that digit |
| HashUtils.FromHex | src/main/java/my/taxi/utils/HashUtils.java:40-44 | decoding a hex string gives half as many bytes |
| HashUtils.HexRoundTrip | src/main/java/my/taxi/utils/HashUtils.java:40-44 | decoding `toHex`'s output gives back the bytes |
| HashUtils.HexInjective | src/main/java/my/taxi/utils/HashUtils.java:40-44 | distinct byte arrays have distinct hex strings |
| HashUtils.Sha256Hex | src/main/java/my/taxi/utils/HashUtils.java:31-38 | it throws `RuntimeException("SHA-256 failed")` exactly when the digest fails; otherwise it is 64 hex digits decoding to the digest |
| HashUtils.HmacSha256Hex | src/main/java/my/taxi/utils/HashUtils.java:19-29 | it throws `RuntimeException("HMAC calc failed")` exactly when the MAC fails; otherwise it is 64 hex digits decoding to the MAC of `data` under `key` |
| HttpCookies.CookieToStringIsSetCookieString | src/main/java/my/taxi/security/web/HttpCookieUtil.java:36-44 | the serialised cookie is the set-cookie-string of RFC 6265: `name=value` then Path, Max-Age, HttpOnly, Secure and an optional SameSite |
| HttpCookies.SameSiteExactlyWhenConfigured | src/main/java/my/taxi/security/web/HttpCookieUtil.java:42 | a SameSite attribute appears exactly when one is configured, and it carries the configured value |
| HttpCookies.RefreshCookie | src/main/java/my/taxi/security/web/HttpCookieUtil.java:18-22 | the refresh cookie has the configured name, the value, path `/`, the given Max-Age, and is HttpOnly and Secure |
| HttpCookies.ClearCookieHeaderContents | src/main/java/my/taxi/security/web/HttpCookieUtil.java:27-34 | clearing writes the configured name with an empty value, `Path=/`, `Max-Age=0`, HttpOnly, Secure and the configured SameSite |
| HttpCookies.WriteRefreshCookie | src/main/java/my/taxi/security/web/HttpCookieUtil.java:17-25 | `Set-Cookie` afterwards holds exactly the one refresh cookie; other headers are unchanged |
| HttpCookies.ClearRefreshCookie | src/main/java/my/taxi/security/web/HttpCookieUtil.java:27-34 | the clearing cookie is appended to the earlier `Set-Cookie` values; other headers are unchanged |
| HttpCookies.FirstNamed | src/main/java/my/taxi/security/web/CookieHeader.java:19 | the index found is the first cookie with the name, or the end when none has it |
| HttpCookies.EarlierCookieWins | src/main/java/my/taxi/security/web/CookieHeader.java:19 | the first cookie of a name hides every later one |
| HttpCookies.Read | src/main/java/my/taxi/security/web/CookieHeader.java:16-21 | `read` returns null without cookies or without a match, else the first matching cookie's value |
| Fingerprint.MissingDeviceIdRefused | src/main/java/my/taxi/security/DeviceFingerPrService.java:17-25 | the fingerprint throws `IllegalArgumentException("Missing X-Device-Id header")` exactly when the device id is missing or blank; otherwise it is the HMAC of `deviceId:userId:ua` |
| Fingerprint.NormalizeUaShape | src/main/java/my/taxi/security/DeviceFingerPrService.java:27-31 | a missing user agent becomes "NA"; a present one is lower-cased character by character; normalising is idempotent |
| Fingerprint.FingerprintDeterministic | src/main/java/my/taxi/security/DeviceFingerPrService.java:17-25 | requests with the same device id and the same user agent up to case give the same fingerprint |
| Fingerprint.FingerprintIsHex | src/main/java/my/taxi/security/DeviceFingerPrService.java:24 | a computed fingerprint is 64 lower-case hex digits, within the `DEVICE_FP` column width |
| Fingerprint.FingerprintInputInjective | src/main/java/my/taxi/security/DeviceFingerPrService.java:23 | for device ids without ':', the hashed string determines device id, user id and user agent: the fingerprint is user-scoped |
| Jwt.SkewTolerance | src/main/java/my/taxi/security/JWTService.java:20-34 | with the skew as intended, a signed token from the right issuer is accepted exactly until 2 s after its expiry, and then yields its own claims |
| Jwt.AcceptedMeansChecked | src/main/java/my/taxi/security/JWTService.java:28-34 | the parser accepts exactly when the signature is valid, the issuer requirement holds and the expiry is within the skew |
| Jwt.AudienceIgnored | src/main/java/my/taxi/security/JWTService.java:28-34 | the audience claim plays no part in acceptance |
| Jwt.IsExpiredOnSignedToken | src/main/java/my/taxi/security/JWTService.java:80-87 | on a properly signed token from the issuer, `isExpired` answers `exp < now` |
| Jwt.RejectedTokensAreExpired | src/main/java/my/taxi/security/JWTService.java:84-86 | every `JwtException` makes `isExpired` answer true |
| Jwt.NumericDatePlusSeconds | src/main/java/my/taxi/security/JWTService.java:50-51 | truncating to whole seconds commutes with adding whole seconds |
| Jwt.AccessClaimsShape | src/main/java/my/taxi/security/JWTService.java:36-54 | the access token is typed `access` and carries the uid, roles, version, issuer, audience, subject and jti given; it expires `accessExpMin` minutes after its issue time |
| Jwt.RefreshClaimsShape | src/main/java/my/taxi/security/JWTService.java:56-74 | the refresh token is typed `refresh` and carries the uid, family, version and jti, with the decimal uid as subject; it expires `refreshExpDays` days after its issue time |
| Jwt.IssuedRefreshVerifies | src/main/java/my/taxi/security/JWTService.java:56-78 | an issued refresh token verifies to its own claims throughout its lifetime |
| Jwt.SkewAcceptsLongExpiredToken | src/main/java/my/taxi/security/JWTService.java:32 | as written, a signed token is accepted until 2000 s after its expiry, so one expired 1000 s ago passes; the corrected check rejects it |
| Jwt.CorrectedSkewOnlyNarrows | src/main/java/my/taxi/security/JWTService.java:20-32 | the corrected check accepts nothing the written one rejects, and the two differ only by an expiry rejection |
| Tokens.ExpiryBoundary | src/main/java/my/taxi/entities/auth/RefreshToken.java:72-78 | a row is expired strictly after `expiresAt`, and is active exactly while ACTIVE and not past its expiry |
| Tokens.InactiveUnlessActiveStatus | src/main/java/my/taxi/entities/auth/RefreshToken.java:76-78 | a USED or REVOKED row is never active |
| Tokens.TouchChangesOnlyLastUse | src/main/java/my/taxi/entities/auth/RefreshToken.java:80-82 | `touch` sets `lastUsedAt` and leaves every other field, hence activity, unchanged |
| Sessions.UserSession.constructor | src/main/java/my/taxi/entities/auth/UserSession.java:96-109 | a new session is unrevoked, with no revocation time or reason |
| Sessions.UserSession.Revoke | src/main/java/my/taxi/entities/auth/UserSession.java:111-115 | `revoke` sets the flag and records the time and reason, keeping the expiry |
| Sessions.ActiveExactly | src/main/java/my/taxi/entities/auth/UserSession.java:117-119 | `isActive` is true exactly when unrevoked and strictly before expiry; it throws only when unrevoked without an expiry |
| Sessions.BoundaryDiffersFromRefreshToken | src/main/java/my/taxi/entities/auth/UserSession.java:117-119 | at its expiry instant a session is inactive, while a refresh row is not yet expired at its own |
| Sessions.RevokedIsInactive | src/main/java/my/taxi/entities/auth/UserSession.java:111-119 | a revoked session is inactive at every time |
| Sessions.RevokeAgainOverwrites | src/main/java/my/taxi/entities/auth/UserSession.java:111-115 | revoking twice keeps the later time and reason |
| BruteForce.UserBruteForceGuard.constructor | src/main/java/my/taxi/entities/auth/UserBruteForceGuard.java:20 | the no-argument constructor leaves every field zero or null |
| BruteForce.UserBruteForceGuard.RegistrationSuccess | src/main/java/my/taxi/entities/auth/UserBruteForceGuard.java:70-74 | success clears the count, the window and the lock |
| BruteForce.UserBruteForceGuard.RegisterFailure | src/main/java/my/taxi/entities/auth/UserBruteForceGuard.java:76-91 | the state after a failure is `Failure(old state, now)`: window step, count, then the lock at the threshold |
| BruteForce.UserBruteForceGuard.Defaults | src/main/java/my/taxi/entities/auth/UserBruteForceGuard.java:93-101 | the state after `@PrePersist` is `WithDefaults(old state)` |
| BruteForce.LockLasts | src/main/java/my/taxi/entities/auth/UserBruteForceGuard.java:66-68 | a lock set at t for s seconds holds exactly before t + s |
| BruteForce.SuccessClears | src/main/java/my/taxi/entities/auth/UserBruteForceGuard.java:70-74 | after a success nothing is locked and the next failure opens a new window |
| BruteForce.FailureOpensFreshWindow | src/main/java/my/taxi/entities/auth/UserBruteForceGuard.java:78-80 | with no open window a failure opens one at now with count 1 |
| BruteForce.FailureInsideWindowCounts | src/main/java/my/taxi/entities/auth/UserBruteForceGuard.java:78-81 | inside the window, its last instant included, a failure adds one to the count |
| BruteForce.ReachingThresholdLocks | src/main/java/my/taxi/entities/auth/UserBruteForceGuard.java:83-90 | reaching the threshold sets the lock for lock1Sec or lock2Sec and clears count and window |
| BruteForce.FailureKeepsBelowThreshold | src/main/java/my/taxi/entities/auth/UserBruteForceGuard.java:76-91 | a count below a positive threshold stays below it, even when the short count wraps |
| BruteForce.OnlyFirstTierBelowThreshold | src/main/java/my/taxi/entities/auth/UserBruteForceGuard.java:83-86 | from such a state every lock is the first-tier lock |
| BruteForce.SecondTierNeedsHighCount | src/main/java/my/taxi/entities/auth/UserBruteForceGuard.java:83-86 | the second tier needs an open window and a prior count of at least 2*threshold - 1 |
| BruteForce.ThresholdFailuresLock | src/main/java/my/taxi/entities/auth/UserBruteForceGuard.java:76-91 | threshold failures inside one window lock for lock1Sec from the last one and clear count and window |
| BruteForce.FailuresBuildUp | src/main/java/my/taxi/entities/auth/UserBruteForceGuard.java:78-81 | the first k < threshold failures leave the window at the first failure and the count at k |
| BruteForce.RepeatedLockoutsStayFirstTier | src/main/java/my/taxi/entities/auth/UserBruteForceGuard.java:83-90 | fourteen failures with threshold 7 give two first-tier locks, never the second tier |
| BruteForce.FailuresAppend | src/main/java/my/taxi/entities/auth/UserBruteForceGuard.java:76-91 | two runs of failures compose as their concatenation |
| BruteForce.DefaultsNormalise | src/main/java/my/taxi/entities/auth/UserBruteForceGuard.java:93-101 | defaults replace exactly the non-positive settings by 7, 600, 900 and 86400, clamp the counters at 0, and keep the rest |
| BruteForce.DefaultsIdempotent | src/main/java/my/taxi/entities/auth/UserBruteForceGuard.java:93-101 | applying defaults twice is applying them once |
| Repository.FindActiveByUserAndDevice | src/main/java/my/taxi/repository/RefreshTokenRepository.java:22-27 | the query returns empty exactly without a match; it returns the one matching stored row (ACTIVE, of the user and fingerprint) exactly with one match; it throws exactly with several |
| Repository.SomeOldest | src/main/java/my/taxi/repository/RefreshTokenRepository.java:35-40 | there is always an admissible first row of `findActiveOldestFirst`: none exactly when the user has no ACTIVE row, else one with the smallest `coalesce(lastUsedAt, createdAt)` |
| Repository.SmallestExists | src/main/java/my/taxi/repository/RefreshTokenRepository.java:38 | every non-empty set of rows has one with the smallest sort key |
| Repository.FindByJtiExact | src/main/java/my/taxi/repository/RefreshTokenRepository.java:18 | `findByJti` finds a row exactly when one has that jti, and then it is that row; a null id finds nothing |
| Repository.RevokedFamilyExact | src/main/java/my/taxi/service/impl/AuthServiceImpl.java:396-400 | revoking a family sets REVOKED on exactly its rows and changes nothing else; a null family changes nothing |
| Repository.RevokedFamilyIdempotent | src/main/java/my/taxi/service/impl/AuthServiceImpl.java:396-400 | revoking a family twice is revoking it once |
| Repository.RevokedFamilyDisables | src/main/java/my/taxi/service/impl/AuthServiceImpl.java:396-400 | afterwards no row of the family is active at any time, and rows stay keyed by jti |
| Repository.RevokedFamilyOnlyDeactivates | src/main/java/my/taxi/service/impl/AuthServiceImpl.java:396-400 | revocation only shrinks a user's ACTIVE rows and their count |
| Repository.RefreshTokenStore.Save | src/main/java/my/taxi/service/impl/AuthServiceImpl.java:299 | `save` inserts or overwrites the row under its jti and keeps the table keyed by jti |
| Repository.RefreshTokenStore.Restore | src/main/java/my/taxi/service/impl/AuthServiceImpl.java:107 | a rolled-back transaction leaves the table as it was at the start |
| Repository.RefreshTokenStore.FindActiveOldestFirst | src/main/java/my/taxi/repository/RefreshTokenRepository.java:35-40 | the first page of size one is an admissible oldest ACTIVE row of the user, or none when there is none |
| Repository.RefreshTokenStore.RevokeFamily | src/main/java/my/taxi/service/AuthService.java:133-137 | the loop over `findByFamilyId` leaves exactly `RevokedFamily(old table, family)` |
| NonRotating.RefreshLifetimeSeconds | src/main/java/my/taxi/service/impl/AuthServiceImpl.java:334-336 | the lifetime is `refreshExpDays * 86400` seconds exactly when that fits a long, and otherwise throws |
| NonRotating.RefreshCookieMaxAgeSeconds | src/main/java/my/taxi/service/impl/AuthServiceImpl.java:318-321 | the Max-Age is `refreshExpDays * 86400` exactly when that fits an int; "long overflow" beyond the long range, "integer overflow" between |
| NonRotating.AuthServiceImpl.RevokeOldestActiveRefreshToken | src/main/java/my/taxi/service/impl/AuthServiceImpl.java:355-363 | the revoked row is an admissible first row of `findActiveOldestFirst`; exactly that row becomes REVOKED |
| NonRotating.AuthServiceImpl.PersistAndIssueRefresh | src/main/java/my/taxi/service/impl/AuthServiceImpl.java:276-301 | returns the raw refresh JWT and saves its row as `Persisted` defines; on an exception nothing is saved |
| NonRotating.AuthServiceImpl.NewSession | src/main/java/my/taxi/service/impl/AuthServiceImpl.java:138-148 | the new-session branch: the stale device row is revoked, the victim is an admissible oldest ACTIVE row of what remains, and the table is that of the cap followed by `persistAndIssueRefresh` |
| NonRotating.AuthServiceImpl.HandleLogin | src/main/java/my/taxi/service/impl/AuthServiceImpl.java:106-153 | result, table and `Set-Cookie` are those of the corrected `Login` for the row the cap revoked; an exception rolls the table back |
| NonRotating.AuthServiceImpl.RevokeFamilyAndClearCookie | src/main/java/my/taxi/service/impl/AuthServiceImpl.java:379-383 | the family is revoked, the clearing cookie appended, and the 401 Unauthorized returned |
| NonRotating.AuthServiceImpl.HandleRefreshToken | src/main/java/my/taxi/service/impl/AuthServiceImpl.java:175-228 | result, table and `Set-Cookie` are those of `Refresh` |
| NonRotating.LoginFailuresChangeNothing | src/main/java/my/taxi/service/impl/AuthServiceImpl.java:106-153 | an unknown phone answers 404 and changes nothing; every exception leaves the table and cookie untouched; the cookie is written exactly on success and never cleared |
| NonRotating.CommitEffect | src/main/java/my/taxi/service/impl/AuthServiceImpl.java:151-152 | the end of a login rolls back on any exception, and otherwise keeps the issued table and writes the refresh cookie with the Max-Age |
| NonRotating.LoginReusesLiveRow | src/main/java/my/taxi/service/impl/AuthServiceImpl.java:129-137 | with one live row for the device, the login only touches it and takes the request's user agent; it re-issues that row's jti and family |
| NonRotating.LoginCreatesSession | src/main/java/my/taxi/service/impl/AuthServiceImpl.java:138-148 | without a live row, the login retires the stale device row, applies the cap and adds one new row: ACTIVE, with the fingerprint, the SHA-256 of the raw token, the lifetime and `lastUsedAt` = now; the cookie carries the raw token |
| NonRotating.LoginSessionCap | src/main/java/my/taxi/service/impl/AuthServiceImpl.java:139-143 | retiring the stale device row first lowers the ACTIVE count by the device's ACTIVE rows; then a new session at the cap keeps the count (only the oldest row is revoked), and below the cap it raises the count by one |
| NonRotating.RetireStaleCount | src/main/java/my/taxi/service/impl/AuthServiceImpl.java:129-138 | retiring the found device row lowers the user's ACTIVE count by the device's number of ACTIVE rows |
| NonRotating.CapThenInsert | src/main/java/my/taxi/service/impl/AuthServiceImpl.java:139-148 | the cap, then one new ACTIVE row: at the cap the count stays and only the victim is revoked; below it the count grows by one |
| NonRotating.RevokeRowShrinks | src/main/java/my/taxi/service/impl/AuthServiceImpl.java:360-361 | revoking a row removes it from every ACTIVE query and from nothing else |
| NonRotating.InsertRowGrows | src/main/java/my/taxi/service/impl/AuthServiceImpl.java:299 | inserting a row adds it to exactly the ACTIVE queries it matches |
| NonRotating.RefreshEarlyFailuresChangeNothing | src/main/java/my/taxi/service/impl/AuthServiceImpl.java:177-190 | a missing cookie answers 404; a token that fails verification or is not a refresh token answers 401; none changes the table or the cookie |
| NonRotating.RefreshCompromiseRevokesFamily | src/main/java/my/taxi/service/impl/AuthServiceImpl.java:197-219 | a version mismatch, a missing or inactive row, a fingerprint mismatch and a vanished user each revoke the family, clear the cookie and answer 401 |
| NonRotating.RefreshSucceedsExactly | src/main/java/my/taxi/service/impl/AuthServiceImpl.java:175-228 | a refresh succeeds exactly when the token verifies as a refresh token and passes every check: version, live row, device, user, Max-Age |
| NonRotating.RefreshWithClaimsSucceeds | src/main/java/my/taxi/service/impl/AuthServiceImpl.java:197-227 | the checks after the claims succeed exactly when `RefreshAccepted` holds |
| NonRotating.RefreshSuccessOnlyTouches | src/main/java/my/taxi/service/impl/AuthServiceImpl.java:212-227 | a successful refresh only touches its row, which stays active; the new access token carries the token's version; the same refresh token goes back in the cookie |
| NonRotating.RefreshNeverAddsOrReactivates | src/main/java/my/taxi/service/impl/AuthServiceImpl.java:175-228 | a refresh never adds a row, never reactivates one, and changes a row only by a touch or a revocation |
| NonRotating.CompromisedConserves | src/main/java/my/taxi/service/impl/AuthServiceImpl.java:379-383 | a family revocation is such a change |
| NonRotating.ConservesTransitive | src/main/java/my/taxi/service/impl/AuthServiceImpl.java:213-219 | a touch followed by a revocation is such a change |
| NonRotating.RefreshWithClaimsConserves | src/main/java/my/taxi/service/impl/AuthServiceImpl.java:197-227 | the checks after the claims make only such changes |
| NonRotating.OneActivePerDeviceLookupReturns | src/main/java/my/taxi/repository/RefreshTokenRepository.java:22-27 | with at most one ACTIVE row per user and device, the device lookup never throws |
| NonRotating.FoundRowIsStored | src/main/java/my/taxi/repository/RefreshTokenRepository.java:22-27 | the row the device lookup finds is the one stored under its jti, and the only match |
| NonRotating.StaleDeviceRowStaysActive | src/main/java/my/taxi/service/impl/AuthServiceImpl.java:129-148 | as written: an expired but ACTIVE device row stays ACTIVE beside the new one, so the next login from that device throws `IncorrectResultSize(1, 2)` |
| NonRotating.LoginKeepsOneActivePerDevice | src/main/java/my/taxi/service/impl/AuthServiceImpl.java:129-148 | the corrected login keeps at most one ACTIVE row per user and device, and the table keyed by jti |
| NonRotating.TouchKeepsDeviceQueries | src/main/java/my/taxi/service/impl/AuthServiceImpl.java:132-134 | a touch with a new user agent leaves every device query as it was |
| NonRotating.StaleAndCapShrink | src/main/java/my/taxi/service/impl/AuthServiceImpl.java:139-143 | retiring the stale row and capping leave no ACTIVE row for the device and shrink every device query |
| NonRotating.InsertKeepsOne | src/main/java/my/taxi/service/impl/AuthServiceImpl.java:145-148 | inserting the device's new row into a table without one keeps one row per device |
| NonRotating.LoginAgreesWithWrittenOtherwise | src/main/java/my/taxi/service/impl/AuthServiceImpl.java:106-153 | without an ACTIVE row for the device, the corrected login does what the written one does |
| Rotating.AuthService.HandleLogin | src/main/java/my/taxi/service/AuthService.java:46-79 | result, table and `Set-Cookie` are those of `Login` |
| Rotating.AuthService.HandleRefresh | src/main/java/my/taxi/service/AuthService.java:81-131 | result, table and `Set-Cookie` are those of `Refresh` |
| Rotating.LoginUnknownPhoneChangesNothing | src/main/java/my/taxi/service/AuthService.java:48-51 | an unknown phone answers 404 and a failed second lookup throws `NoSuchElementException`; neither changes the table or the cookie |
| Rotating.LoginInsertsOneRow | src/main/java/my/taxi/service/AuthService.java:51-78 | a login inserts exactly one row, a new family of its own: ACTIVE, with no hash or fingerprint, expiring `refreshExpDays` days on; the cookie carries the refresh token of that jti and family |
| Rotating.RefreshEarlyFailuresChangeNothing | src/main/java/my/taxi/service/AuthService.java:82-95 | a missing cookie, a failed verification or a non-refresh token answers an empty 401 and changes nothing |
| Rotating.RejectedRowRevokesFamily | src/main/java/my/taxi/service/AuthService.java:101-106 | a missing, non-ACTIVE or expired row revokes the claimed family, clears the cookie and answers an empty 401 |
| Rotating.RefreshRotates | src/main/java/my/taxi/service/AuthService.java:108-124 | the presented row becomes USED at now, and one ACTIVE successor is added with the user, family and a fresh jti; nothing else changes; statuses only move ACTIVE to USED; the family keeps its ACTIVE count |
| Rotating.RotatedTokensCarryVersion | src/main/java/my/taxi/service/AuthService.java:126-130 | the new access token has the decimal uid as subject, no roles and the presented version; the new refresh token carries family, version and successor jti; 200 with the access token |
| Rotating.ReplayRevokesFamily | src/main/java/my/taxi/service/AuthService.java:101-111 | presenting a rotated token again revokes the whole family, successor included, clears the cookie and answers 401 |
| Rotating.RefreshIgnoresVersionAndDevice | src/main/java/my/taxi/service/AuthService.java:81-131 | the rotating refresh depends neither on the user's current token version nor on the device id |
| Rotating.MaxAgeTruncates | src/main/java/my/taxi/service/AuthService.java:76 | the Max-Age is `refreshExpDays * 86400` while that fits an int; at 24856 days the cast wraps to a negative value |
| Flows.ApplyCookieEffect | src/main/java/my/taxi/security/web/HttpCookieUtil.java:17-34 | writing leaves exactly one `Set-Cookie` value, clearing appends one, other headers are untouched |

## Left out

- Instants are milliseconds in unbounded integers. `Instant`'s range limit and its `DateTimeException` are not modelled.
- The JWT `nbf` claim is not modelled.
- The claims a token might carry with the wrong JSON type (the `ClassCastException` of `claims.get`) are not modelled.
- The `NullPointerException` of `Map.of` on a `null` user id is not modelled.
- Signing, key decoding, JWS parsing, SHA-256, HMAC and UTF-8 are parameters, not computed.
- `toLowerCase` lower-cases ASCII letters only. Locale and non-ASCII case mappings are not modelled.
- Cookie name and value validation by `jakarta.servlet.http.Cookie` is not modelled.
- Concurrency is not modelled. Each flow is one atomic step. The only transaction modelled is the non-rotating login's rollback.
- Each flow reads the clock once. The separate `Instant.now()` calls the code makes are not modelled.
- Rows are values in a map. JPA entity identity and aliasing between loaded entities are not modelled.
- NonRotating.AuthServiceImpl.HandleLogin: among several rows tied for the smallest `coalesce(lastUsedAt, createdAt)`, the model allows any as the one the cap revokes, because the query leaves their order open.
- The user's roles are a parameter of the user record. `getRoles` on a `null` role set is not modelled.
- The login never checks a password. The model follows the code and does not either.
- `maxSession` is a plain parameter of the configuration.
- `UserProfilePort.currentTokenVersion` is an abstract function from user id to version. Its repository lookup, with 0 when the user is missing, is not computed.
- `UserSession`'s other columns (user, session id, refresh-token id, address, user agent, platform) are not modelled.
- `UserBruteForceGuard`'s user, scope, last IP and last user agent are not modelled. No method changes them.
- `failedAttempts` and `lastFailedAt` are kept, but no guard method updates them.

## Findings

| source | as written | input that shows it | evidently intended | confidence | as-written member | corrected member |
|---|---|---|---|---|---|---|
| src/main/java/my/taxi/security/JWTService.java:20 | the millisecond constant `CLOCK_SKEW_MILLIS = 2000` is passed to `setAllowedClockSkewSeconds` (line 32), allowing 2000 s of skew | a signed refresh token whose `exp` passed 1000 s ago is accepted | a skew of 2000 ms | not executed | Jwt.SkewAcceptsLongExpiredToken | Jwt.SkewTolerance |
| src/main/java/my/taxi/service/impl/AuthServiceImpl.java:129-148 | a login that finds the device's row ACTIVE but expired creates a new row and leaves the old one ACTIVE | a login whose device row has expired, followed by a second login from the same device: `findActiveByUserAndDevice` matches two rows and throws | the stale row is retired, keeping one ACTIVE row per user and device | not executed | NonRotating.StaleDeviceRowStaysActive | NonRotating.LoginKeepsOneActivePerDevice |
