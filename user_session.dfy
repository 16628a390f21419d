/** `UserSession`: a login session with an expiry and a one-way revocation flag. The
    other columns (user, session id, refresh-token id, address, user agent, platform)
    are stored only and play no part here. */
module Sessions {
  import opened Java
  import Tokens

  datatype SessionState = SessionState(
    revoked: bool,
    revokedAt: Option<Instant>,
    revokeReason: Option<string>,
    expiresAt: Option<Instant>)

  /** The state `revoke(reason)` leaves at time `now`. */
  function RevokedAt(s: SessionState, reason: Option<string>, now: Instant): SessionState
  {
    s.(revoked := true, revokedAt := Some(now), revokeReason := reason)
  }

  /** `isActive`: `!revoked && now.isBefore(expiresAt)`. When the session is not revoked and
      has no expiry, `isBefore(null)` throws. */
  function Active(s: SessionState, now: Instant): Checked<bool>
  {
    if s.revoked then Returns(false)
    else if s.expiresAt.None? then Throws(NullPointer)
    else Returns(now < s.expiresAt.value)
  }

  class UserSession {
    var revoked: bool
    var revokedAt: Option<Instant>
    var revokeReason: Option<string>
    var expiresAt: Option<Instant>

    constructor (expiresAt0: Option<Instant>)
      ensures State() == SessionState(false, None, None, expiresAt0)
    {
      revoked, revokedAt, revokeReason, expiresAt := false, None, None, expiresAt0;
    }

    function State(): SessionState
      reads this
    {
      SessionState(revoked, revokedAt, revokeReason, expiresAt)
    }

    function IsActive(now: Instant): Checked<bool>
      reads this
    {
      Active(State(), now)
    }

    method Revoke(reason: Option<string>, now: Instant)
      modifies this
      ensures State() == RevokedAt(old(State()), reason, now)
    {
      revoked := true;
      revokedAt := Some(now);
      revokeReason := reason;
    }
  }

  /** A session answers `true` exactly when it is not revoked and `now` is strictly before
      its expiry; it throws only when unrevoked and without expiry. */
  lemma ActiveExactly(s: SessionState, now: Instant)
    ensures Active(s, now) == Returns(true) <==> !s.revoked && s.expiresAt.Some? && now < s.expiresAt.value
    ensures Active(s, now).Throws? <==> !s.revoked && s.expiresAt.None?
  {
  }

  /** At its expiry instant a session is already inactive, whereas a refresh-token row is
      not yet expired at its own: the two boundaries differ. */
  lemma BoundaryDiffersFromRefreshToken(s: SessionState, t: Tokens.RefreshToken)
    requires !s.revoked && s.expiresAt == Some(t.expiresAt)
    ensures Active(s, t.expiresAt) == Returns(false)
    ensures !Tokens.IsExpired(t, t.expiresAt)
  {
  }

  /** Once revoked, a session is inactive whatever the time, and revoking records the
      time and the reason. */
  lemma RevokedIsInactive(s: SessionState, reason: Option<string>, at: Instant, now: Instant)
    ensures Active(RevokedAt(s, reason, at), now) == Returns(false)
    ensures RevokedAt(s, reason, at).revokedAt == Some(at) && RevokedAt(s, reason, at).revokeReason == reason
    ensures RevokedAt(s, reason, at).expiresAt == s.expiresAt
  {
  }

  /** Revoking again keeps the session revoked but records the later time and reason. */
  lemma RevokeAgainOverwrites(s: SessionState, r1: Option<string>, t1: Instant, r2: Option<string>, t2: Instant)
    ensures RevokedAt(RevokedAt(s, r1, t1), r2, t2) == RevokedAt(s, r2, t2)
    ensures RevokedAt(RevokedAt(s, r1, t1), r2, t2).revoked
  {
  }
}
