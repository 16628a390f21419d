/** `UserBruteForceGuard`: a per-user counter of failed attempts that opens a
    time window on the first failure and locks the user out once the failures in
    the window reach a threshold, for `lock1Sec` or, when the count reaches twice
    the threshold, for `lock2Sec`. */
module BruteForce {
  import opened Java

  /** The fields the guard's methods read or write. `failedAttempts` and
      `lastFailedAt` belong to the row but no method of the guard updates them. */
  datatype GuardState = GuardState(
    failedAttempts: Int,
    windowsStartedAt: Option<Instant>,
    lastFailedAt: Option<Instant>,
    lockedUntil: Option<Instant>,
    strike: Short,
    threshold: Int,
    windowSec: Int,
    lock1Sec: Long,
    lock2Sec: Long)

  const DEFAULT_THRESHOLD: Int := 7
  const DEFAULT_WINDOW_SEC: Int := 600
  const DEFAULT_LOCK1_SEC: Long := 900
  const DEFAULT_LOCK2_SEC: Long := 86400

  /** `isLockedNow`: a lock is set and has not run out yet. */
  predicate LockedAt(s: GuardState, now: Instant)
  {
    s.lockedUntil.Some? && now < s.lockedUntil.value
  }

  /** The failure opens a new window: none is open, or the open one ended before `now`. */
  predicate OpensWindow(s: GuardState, now: Instant)
  {
    s.windowsStartedAt.None? || now > PlusSeconds(s.windowsStartedAt.value, s.windowSec)
  }

  /** The `short` strike count after the window step of `registerFailure`. */
  function Counted(s: GuardState, now: Instant): Short
  {
    if OpensWindow(s, now) then 1 else WrapShort(s.strike + 1)
  }

  /** The lock duration chosen once the count reaches the threshold; `threshold * 2`
      is `int` arithmetic. */
  function LockSeconds(s: GuardState, counted: Short): Long
  {
    if counted >= WrapInt(s.threshold * 2) then s.lock2Sec else s.lock1Sec
  }

  /** The state `registerFailure` leaves at time `now`. */
  function Failure(s: GuardState, now: Instant): GuardState
  {
    var counted := Counted(s, now);
    if counted >= s.threshold then
      s.(lockedUntil := Some(PlusSeconds(now, LockSeconds(s, counted))), strike := 0, windowsStartedAt := None)
    else if OpensWindow(s, now) then
      s.(windowsStartedAt := Some(now), strike := counted)
    else
      s.(strike := counted)
  }

  /** A run of failures at the given instants, in order. */
  function Failures(s: GuardState, times: seq<Instant>): GuardState
  {
    if times == [] then s else Failure(Failures(s, times[..|times| - 1]), times[|times| - 1])
  }

  /** The state `registrationSuccess` leaves. */
  function Success(s: GuardState): GuardState
  {
    s.(strike := 0, windowsStartedAt := None, lockedUntil := None)
  }

  /** The state the `@PrePersist` hook `defaults` leaves. */
  function WithDefaults(s: GuardState): GuardState
  {
    s.(threshold := if s.threshold <= 0 then DEFAULT_THRESHOLD else s.threshold,
       windowSec := if s.windowSec <= 0 then DEFAULT_WINDOW_SEC else s.windowSec,
       lock1Sec := if s.lock1Sec <= 0 then DEFAULT_LOCK1_SEC else s.lock1Sec,
       lock2Sec := if s.lock2Sec <= 0 then DEFAULT_LOCK2_SEC else s.lock2Sec,
       strike := if s.strike < 0 then 0 else s.strike,
       failedAttempts := if s.failedAttempts < 0 then 0 else s.failedAttempts)
  }

  /** The count stays below a positive threshold: every failure either stays under it
      or triggers the lock, which resets the count to zero. */
  predicate BelowThreshold(s: GuardState)
  {
    0 < s.threshold && s.strike < s.threshold
  }

  class UserBruteForceGuard {
    var failedAttempts: Int
    var windowsStartedAt: Option<Instant>
    var lastFailedAt: Option<Instant>
    var lockedUntil: Option<Instant>
    var strike: Short
    var threshold: Int
    var windowSec: Int
    var lock1Sec: Long
    var lock2Sec: Long

    /** The no-argument constructor: every field zero or `null`. */
    constructor ()
      ensures State() == GuardState(0, None, None, None, 0, 0, 0, 0, 0)
    {
      failedAttempts, windowsStartedAt, lastFailedAt, lockedUntil := 0, None, None, None;
      strike, threshold, windowSec, lock1Sec, lock2Sec := 0, 0, 0, 0, 0;
    }

    function State(): GuardState
      reads this
    {
      GuardState(failedAttempts, windowsStartedAt, lastFailedAt, lockedUntil,
                 strike, threshold, windowSec, lock1Sec, lock2Sec)
    }

    predicate IsLockedNow(now: Instant)
      reads this
    {
      LockedAt(State(), now)
    }

    method RegistrationSuccess()
      modifies this
      ensures State() == Success(old(State()))
    {
      strike := 0;
      windowsStartedAt := None;
      lockedUntil := None;
    }

    method RegisterFailure(now: Instant)
      modifies this
      ensures State() == Failure(old(State()), now)
    {
      if windowsStartedAt.None? || now > PlusSeconds(windowsStartedAt.value, windowSec) {
        windowsStartedAt := Some(now);
        strike := 1;
      } else {
        strike := WrapShort(strike + 1);
      }
      if strike >= threshold {
        var sever := strike >= WrapInt(threshold * 2);
        var lock := if sever then lock2Sec else lock1Sec;
        lockedUntil := Some(PlusSeconds(now, lock));
        strike := 0;
        windowsStartedAt := None;
      }
    }

    method Defaults()
      modifies this
      ensures State() == WithDefaults(old(State()))
    {
      if threshold <= 0 { threshold := DEFAULT_THRESHOLD; }
      if windowSec <= 0 { windowSec := DEFAULT_WINDOW_SEC; }
      if lock1Sec <= 0 { lock1Sec := DEFAULT_LOCK1_SEC; }
      if lock2Sec <= 0 { lock2Sec := DEFAULT_LOCK2_SEC; }
      if strike < 0 { strike := 0; }
      if failedAttempts < 0 { failedAttempts := 0; }
    }
  }

  /** A lock set at `t` for `sec` seconds holds strictly before `t + sec` and not from then on. */
  lemma LockLasts(s: GuardState, t: Instant, sec: int, now: Instant)
    requires s.lockedUntil == Some(PlusSeconds(t, sec))
    ensures LockedAt(s, now) <==> now < t + sec * MILLIS_PER_SECOND
  {
  }

  /** After a success nothing is locked, whatever the time, and the next failure opens a new window. */
  lemma SuccessClears(s: GuardState, now: Instant, later: Instant)
    ensures !LockedAt(Success(s), now)
    ensures OpensWindow(Success(s), later)
    ensures Success(s).failedAttempts == s.failedAttempts && Success(s).lastFailedAt == s.lastFailedAt
  {
  }

  /** With no open window, a failure opens one at `now` with a count of one. */
  lemma FailureOpensFreshWindow(s: GuardState, now: Instant)
    requires OpensWindow(s, now) && s.threshold > 1
    ensures Failure(s, now) == s.(windowsStartedAt := Some(now), strike := 1)
  {
  }

  /** Inside the window, up to and including its last instant, a failure adds one to the count. */
  lemma FailureInsideWindowCounts(s: GuardState, now: Instant)
    requires s.windowsStartedAt.Some? && now <= PlusSeconds(s.windowsStartedAt.value, s.windowSec)
    requires s.strike + 1 < s.threshold && InShort(s.strike + 1)
    ensures Failure(s, now) == s.(strike := s.strike + 1)
  {
  }

  /** Reaching the threshold sets the lock and clears both the count and the window. */
  lemma ReachingThresholdLocks(s: GuardState, now: Instant)
    requires Counted(s, now) >= s.threshold
    ensures Failure(s, now).strike == 0 && Failure(s, now).windowsStartedAt.None?
    ensures Failure(s, now).lockedUntil.Some?
    ensures Failure(s, now).lockedUntil.value == now + s.lock1Sec * MILLIS_PER_SECOND
         || Failure(s, now).lockedUntil.value == now + s.lock2Sec * MILLIS_PER_SECOND
  {
  }

  /** A `registerFailure` keeps a count that is below a positive threshold below it.
      This holds even when the `short` count wraps. */
  lemma FailureKeepsBelowThreshold(s: GuardState, now: Instant)
    requires BelowThreshold(s)
    ensures BelowThreshold(Failure(s, now))
  {
  }

  /** While the count is below a positive threshold, every lock a failure sets is the
      first-tier lock. */
  lemma OnlyFirstTierBelowThreshold(s: GuardState, now: Instant)
    requires BelowThreshold(s)
    requires Counted(s, now) >= s.threshold
    ensures LockSeconds(s, Counted(s, now)) == s.lock1Sec
    ensures Failure(s, now).lockedUntil == Some(PlusSeconds(now, s.lock1Sec))
  {
    var c := Counted(s, now);
    if OpensWindow(s, now) {
      assert c == 1 && s.threshold == 1;
    } else {
      assert c == s.strike + 1 == s.threshold;
    }
    assert WrapInt(s.threshold * 2) == s.threshold * 2;
  }

  /** The second-tier lock needs the count to be at least `2 * threshold - 1` before the
      failure, inside an open window. */
  lemma SecondTierNeedsHighCount(s: GuardState, now: Instant)
    requires 0 < s.threshold && InInt(2 * s.threshold)
    requires Counted(s, now) >= s.threshold
    requires Counted(s, now) >= WrapInt(s.threshold * 2)
    ensures !OpensWindow(s, now)
    ensures s.strike >= 2 * s.threshold - 1
  {
  }

  /** `threshold` failures inside one window, from a state with no window and no count,
      lock exactly once, for `lock1Sec` from the last failure, and leave the count and the
      window cleared. An existing lock does not stop the count. */
  lemma {:induction false} ThresholdFailuresLock(s: GuardState, times: seq<Instant>)
    requires s.windowsStartedAt.None? && s.strike == 0
    requires 1 <= s.threshold <= SHORT_MAX && |times| == s.threshold
    requires forall k :: 0 <= k < |times| ==> times[k] <= PlusSeconds(times[0], s.windowSec)
    ensures Failures(s, times) == s.(lockedUntil := Some(PlusSeconds(times[|times| - 1], s.lock1Sec)))
  {
    var n := |times|;
    if n == 1 {
      assert times[..0] == [];
    } else {
      FailuresBuildUp(s, times, n - 1);
      var before := Failures(s, times[..n - 1]);
      assert before == s.(windowsStartedAt := Some(times[0]), strike := n - 1);
      assert times[..n][..n - 1] == times[..n - 1];
      assert Counted(before, times[n - 1]) == n;
      assert WrapInt(s.threshold * 2) == s.threshold * 2;
    }
  }

  /** The first `k` failures of such a run, `k` below the threshold, leave the window
      opened at the first failure and the count at `k`. */
  lemma {:induction false} FailuresBuildUp(s: GuardState, times: seq<Instant>, k: nat)
    requires s.windowsStartedAt.None? && s.strike == 0
    requires 1 <= s.threshold <= SHORT_MAX && |times| == s.threshold
    requires forall j :: 0 <= j < |times| ==> times[j] <= PlusSeconds(times[0], s.windowSec)
    requires 1 <= k < s.threshold
    ensures Failures(s, times[..k]) == s.(windowsStartedAt := Some(times[0]), strike := k)
  {
    assert times[..k][..k - 1] == times[..k - 1];
    if k == 1 {
      assert times[..0] == [];
    } else {
      FailuresBuildUp(s, times, k - 1);
    }
  }

  /** Fourteen failures in one window with threshold 7 still give two first-tier locks:
      each lock resets the count before it can reach twice the threshold. */
  lemma RepeatedLockoutsStayFirstTier(s: GuardState, times: seq<Instant>)
    requires s.windowsStartedAt.None? && s.strike == 0 && s.threshold == DEFAULT_THRESHOLD
    requires |times| == 2 * DEFAULT_THRESHOLD
    requires forall k :: 0 <= k < DEFAULT_THRESHOLD ==> times[k] <= PlusSeconds(times[0], s.windowSec)
    requires forall k :: DEFAULT_THRESHOLD <= k < |times| ==> times[k] <= PlusSeconds(times[DEFAULT_THRESHOLD], s.windowSec)
    ensures Failures(s, times) == s.(lockedUntil := Some(PlusSeconds(times[|times| - 1], s.lock1Sec)))
  {
    var first, second := times[..DEFAULT_THRESHOLD], times[DEFAULT_THRESHOLD..];
    ThresholdFailuresLock(s, first);
    var mid := Failures(s, first);
    ThresholdFailuresLock(mid, second);
    FailuresAppend(s, first, second);
    assert first + second == times;
  }

  /** Running two batches of failures is running their concatenation. */
  lemma {:induction false} FailuresAppend(s: GuardState, xs: seq<Instant>, ys: seq<Instant>)
    ensures Failures(Failures(s, xs), ys) == Failures(s, xs + ys)
  {
    if ys != [] {
      var n := |ys|;
      FailuresAppend(s, xs, ys[..n - 1]);
      assert (xs + ys)[..|xs + ys| - 1] == xs + ys[..n - 1];
    } else {
      assert xs + ys == xs;
    }
  }

  /** `defaults` makes every configuration field positive and the counters non-negative,
      replaces a non-positive field by its default, and keeps every positive one. */
  lemma DefaultsNormalise(s: GuardState)
    ensures var d := WithDefaults(s);
      && d.threshold > 0 && d.windowSec > 0 && d.lock1Sec > 0 && d.lock2Sec > 0
      && d.strike >= 0 && d.failedAttempts >= 0
      && (s.threshold > 0 ==> d.threshold == s.threshold)
      && (s.threshold <= 0 ==> d.threshold == 7)
      && (s.windowSec > 0 ==> d.windowSec == s.windowSec)
      && (s.windowSec <= 0 ==> d.windowSec == 600)
      && (s.lock1Sec > 0 ==> d.lock1Sec == s.lock1Sec)
      && (s.lock1Sec <= 0 ==> d.lock1Sec == 900)
      && (s.lock2Sec > 0 ==> d.lock2Sec == s.lock2Sec)
      && (s.lock2Sec <= 0 ==> d.lock2Sec == 86400)
      && d.lockedUntil == s.lockedUntil && d.windowsStartedAt == s.windowsStartedAt
      && d.lastFailedAt == s.lastFailedAt
  {
  }

  /** Applying the defaults twice is applying them once, and a state with a count below
      its threshold satisfies the invariant once defaults are applied. */
  lemma DefaultsIdempotent(s: GuardState)
    ensures WithDefaults(WithDefaults(s)) == WithDefaults(s)
    ensures 0 <= s.strike < WithDefaults(s).threshold ==> BelowThreshold(WithDefaults(s))
  {
  }
}
