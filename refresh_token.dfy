/** `RefreshToken`: one row of `REFRESH_TOKENS`, the server-side record of one
    refresh JWT, and its time predicates. */
module Tokens {
  import opened Java

  datatype TokenStatus = Active | Used | Revoked

  /** The row. `jti` is the primary key. The columns declared `nullable = false`
      (`USER_ID`, `FAMILY_ID`, `STATUS`, `EXPIRES_AT`, `CREATED_AT`) are never `null`
      in a stored row. */
  datatype RefreshToken = RefreshToken(
    jti: string,
    userId: Long,
    familyId: string,
    tokenHash: Option<string>,
    deviceFp: Option<string>,
    status: TokenStatus,
    expiresAt: Instant,
    userAgent: Option<string>,
    rotatedAt: Option<Instant>,
    lastUsedAt: Option<Instant>,
    createdAt: Instant)

  /** `isExpired`: `now` is strictly after `expiresAt`. */
  predicate IsExpired(t: RefreshToken, now: Instant)
  {
    now > t.expiresAt
  }

  /** `isActive`. */
  predicate IsActive(t: RefreshToken, now: Instant)
  {
    t.status == Active && !IsExpired(t, now)
  }

  /** `touch`: records the use at `now`. */
  function Touch(t: RefreshToken, now: Instant): RefreshToken
  {
    t.(lastUsedAt := Some(now))
  }

  /** A row is still valid on its last instant and expired from the next one on, and an
      ACTIVE row that expired is not active. */
  lemma ExpiryBoundary(t: RefreshToken)
    ensures !IsExpired(t, t.expiresAt) && IsExpired(t, t.expiresAt + 1)
    ensures t.status == Active ==> (IsActive(t, t.expiresAt) && !IsActive(t, t.expiresAt + 1))
    ensures forall now :: IsActive(t, now) <==> t.status == Active && now <= t.expiresAt
  {
  }

  /** Only an ACTIVE row can be active, at any time. */
  lemma InactiveUnlessActiveStatus(t: RefreshToken, now: Instant)
    requires t.status != Active
    ensures !IsActive(t, now)
  {
  }

  /** `touch` changes `lastUsedAt` alone: the status, the expiry and with them activity
      are as before. */
  lemma TouchChangesOnlyLastUse(t: RefreshToken, now: Instant, at: Instant)
    ensures Touch(t, now).lastUsedAt == Some(now)
    ensures Touch(t, now).(lastUsedAt := t.lastUsedAt) == t
    ensures IsActive(Touch(t, now), at) == IsActive(t, at)
  {
  }
}
