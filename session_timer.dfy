/**
 * `SessionTimerService`: a warning one minute before the session expires and a logout when
 * it expires. The two `setTimeout` handles are modelled as pending deadlines, absolute clock
 * readings in milliseconds; the clock is an explicit `now` parameter and the passing of time
 * is `FireDue`.
 */
module SessionTimer {
  import opened Wrappers

  /** How long before expiry the warning is shown. */
  const WarningLeadMs := 60000

  /** The deadlines one call of `start` arms. */
  datatype Deadlines = Deadlines(warningAt: Option<int>, logoutAt: Option<int>)

  /** The largest delay `setTimeout` honours: a delay is converted to a signed 32-bit
      integer (Web IDL `long`), and a negative result becomes 0. */
  const MaxDelayMs := 2147483647
  const TwoTo32 := 4294967296

  /** The Web IDL conversion of an integer to `long`: wrap-around modulo 2^32 into the
      signed range. */
  function ToInt32(x: int): (r: int)
    ensures -MaxDelayMs - 1 <= r <= MaxDelayMs
    ensures (x - r) % TwoTo32 == 0
    ensures -MaxDelayMs - 1 <= x <= MaxDelayMs ==> r == x
  {
    var m := x % TwoTo32;
    if m > MaxDelayMs then m - TwoTo32 else m
  }

  /** The delay after which a `setTimeout(f, d)` fires: the wrapped delay, or 0 when that
      is negative. A delay of up to about 24.8 days is kept; a longer one wraps. */
  function EffectiveDelay(d: int): (e: int)
    ensures 0 <= e <= MaxDelayMs
    ensures 0 <= d <= MaxDelayMs ==> e == d
    ensures MaxDelayMs < d < TwoTo32 ==> e == 0
    ensures TwoTo32 <= d <= TwoTo32 + MaxDelayMs ==> e == d - TwoTo32
  {
    var w := ToInt32(d);
    if w < 0 then 0 else w
  }

  /** A warning is only ever pending together with a logout. */
  predicate Armed(d: Deadlines) {
    d.warningAt.Some? ==> d.logoutAt.Some?
  }

  /** The warning comes strictly before the logout. */
  predicate Ordered(d: Deadlines) {
    d.warningAt.Some? ==> d.logoutAt.Some? && d.warningAt.value < d.logoutAt.value
  }

  /** What `start(expirationTimeMs, onExpire)` arms at clock reading `now`: nothing when the
      expiry is not in the future; otherwise the logout after the remaining time, and the
      warning after the remaining time less one minute when that is positive, each delay as
      `setTimeout` takes it. For a remaining time that fits the delay, the logout is after
      exactly that time and any warning comes first. */
  function Schedule(expirationTimeMs: int, now: int): (s: Deadlines)
    ensures s.logoutAt.Some? <==> expirationTimeMs - now > 0
    ensures s.logoutAt.Some? ==> s.logoutAt.value - now == EffectiveDelay(expirationTimeMs - now)
    ensures s.warningAt.Some? <==> expirationTimeMs - now - WarningLeadMs > 0
    ensures s.warningAt.Some? ==> s.warningAt.value - now == EffectiveDelay(expirationTimeMs - now - WarningLeadMs)
    ensures Armed(s)
    ensures expirationTimeMs - now <= MaxDelayMs ==>
              Ordered(s) && (s.logoutAt.Some? ==> s.logoutAt.value == expirationTimeMs)
  {
    var expiresInMs := expirationTimeMs - now;
    if expiresInMs <= 0 then Deadlines(None, None)
    else
      var warningTime := expiresInMs - WarningLeadMs;
      Deadlines(if warningTime > 0 then Some(now + EffectiveDelay(warningTime)) else None,
                Some(now + EffectiveDelay(expiresInMs)))
  }

  /** A session of 30 days is past the delay limit: both timers fire at once, so the
      logout follows the login immediately. */
  lemma ThirtyDaySessionEndsAtOnce(now: int)
    ensures Schedule(now + 2592000000, now) == Deadlines(Some(now), Some(now))
  {
    assert EffectiveDelay(2592000000) == 0;
    assert EffectiveDelay(2592000000 - WarningLeadMs) == 0;
  }

  /** Just past the limit, the logout fires at once while the warning is still pending
      almost 25 days later: the order of the two is reversed. */
  lemma JustPastTheLimitReversesOrder(now: int)
    ensures var s := Schedule(now + MaxDelayMs + 1001, now);
            s.logoutAt == Some(now) && s.warningAt == Some(now + MaxDelayMs + 1001 - WarningLeadMs)
            && !Ordered(s)
  {
    assert ToInt32(MaxDelayMs + 1001) == MaxDelayMs + 1001 - TwoTo32;
    assert EffectiveDelay(MaxDelayMs + 1001) == 0;
    assert EffectiveDelay(MaxDelayMs + 1001 - WarningLeadMs) == MaxDelayMs + 1001 - WarningLeadMs;
  }

  class SessionTimerService {
    var warningAt: Option<int>
    var logoutAt: Option<int>

    predicate Valid()
      reads this
    {
      Armed(Deadlines(warningAt, logoutAt))
    }

    predicate Idle()
      reads this
    {
      warningAt.None? && logoutAt.None?
    }

    constructor()
      ensures Idle() && Valid()
    {
      warningAt := None;
      logoutAt := None;
    }

    /** `stop()`: clears both deadlines; calling it again changes nothing. */
    method Stop()
      modifies this
      ensures Idle() && Valid()
    {
      if warningAt.Some? {
        warningAt := None;
      }
      if logoutAt.Some? {
        logoutAt := None;
      }
    }

    /** `start(expirationTimeMs, onExpire)`: stops first, so the new deadlines replace any
        earlier ones and depend only on the arguments. */
    method Start(expirationTimeMs: int, now: int)
      modifies this
      ensures Deadlines(warningAt, logoutAt) == Schedule(expirationTimeMs, now)
      ensures Valid()
    {
      Stop();
      var expiresInMs := expirationTimeMs - now;
      if expiresInMs <= 0 {
        return;
      }
      var warningTime := expiresInMs - WarningLeadMs;
      if warningTime > 0 {
        warningAt := Some(now + EffectiveDelay(warningTime));
      }
      logoutAt := Some(now + EffectiveDelay(expiresInMs));
    }

    /** The timers whose deadline has passed by `now` fire once and are no longer pending:
        `warned` when the warning snackbar is shown, `expired` when `onExpire` runs. When
        the logout fires before the warning (a delay past the limit), the warning stays
        pending until `onExpire` stops the timer. */
    method FireDue(now: int) returns (warned: bool, expired: bool)
      requires Valid()
      modifies this
      ensures warned <==> old(warningAt).Some? && old(warningAt).value <= now
      ensures expired <==> old(logoutAt).Some? && old(logoutAt).value <= now
      ensures warningAt == (if warned then None else old(warningAt))
      ensures logoutAt == (if expired then None else old(logoutAt))
      ensures expired && Ordered(Deadlines(old(warningAt), old(logoutAt))) ==> old(warningAt).None? || warned
      ensures !expired ==> Valid()
    {
      warned := false;
      expired := false;
      if warningAt.Some? && warningAt.value <= now {
        warned := true;
        warningAt := None;
      }
      if logoutAt.Some? && logoutAt.value <= now {
        expired := true;
        logoutAt := None;
      }
    }
  }

  /** `onExpire` is never invoked when `start` is called with an expiry that is not in the
      future, however much time passes. */
  method StartedInThePast(timer: SessionTimerService, expirationTimeMs: int, now: int, later: int)
    returns (expired: bool)
    requires expirationTimeMs <= now
    modifies timer
    ensures !expired && timer.Idle()
  {
    timer.Start(expirationTimeMs, now);
    var warned;
    warned, expired := timer.FireDue(later);
  }
}
