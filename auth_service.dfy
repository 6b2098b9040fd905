/**
 * `AuthService`: the token predicates, the one-shot "session expired" notification flag,
 * and the login/logout/startup sequences that store the token and drive the session timer.
 *
 * `localStorage['token']` is the `token` field. Unlike `Utility.decodeToken`, this service
 * hands the payload segment to `atob` without the base64url alphabet change.
 */
module Auth {
  import opened Js
  import opened Wrappers
  import opened Utility
  import opened SessionTimer

  /** `JSON.parse(atob(token.split('.')[1]))`. Without a '.', `atob(undefined)` decodes the
      nine-letter text "undefined", which is not base64, so it throws as well. */
  function Payload(token: string, decode: Decoder): Option<Claims> {
    match SecondSegment(token)
    case None => None
    case Some(seg) => decode(seg)
  }

  /** `payload.exp * 1000`: the expiry in milliseconds, NaN when `exp` is absent or not numeric. */
  function ExpiryMs(c: Claims): JsNumber {
    TimesThousand(ToNumber(c.exp))
  }

  /** `isTokenExpired(token)` at clock reading `now`. */
  function IsTokenExpired(token: string, decode: Decoder, now: int): bool {
    match Payload(token, decode)
    case None => true
    case Some(c) =>
      match ExpiryMs(c)
      case NaN => false
      case Finite(e) => now > e
  }

  /** `getTokenExpiration(token)`; None when decoding throws (the source does not catch it). */
  function GetTokenExpiration(token: string, decode: Decoder): (r: Option<JsNumber>)
    ensures r.None? <==> Payload(token, decode).None?
  {
    match Payload(token, decode)
    case None => None
    case Some(c) => Some(ExpiryMs(c))
  }

  /** `isTokenValid(token)` at clock reading `now`. */
  function IsTokenValid(token: Option<string>, decode: Decoder, now: int): bool {
    if token.None? || token.value == "" then false
    else
      match Payload(token.value, decode)
      case None => false
      case Some(c) =>
        if !Truthy(c.exp) then false
        else
          match ExpiryMs(c)
          case NaN => false
          case Finite(e) => e > now
  }

  /** Expiry is strict and decoding failures count as expired: the token is expired exactly
      when it cannot be decoded or its numeric expiry lies before `now`. */
  lemma IsTokenExpiredSpec(token: string, decode: Decoder, now: int)
    ensures Payload(token, decode).None? ==> IsTokenExpired(token, decode, now)
    ensures forall c | Payload(token, decode) == Some(c) && ExpiryMs(c).Finite? ::
              IsTokenExpired(token, decode, now) <==> now > ExpiryMs(c).value
    ensures forall c | Payload(token, decode) == Some(c) && ExpiryMs(c).NaN? ::
              !IsTokenExpired(token, decode, now)
  {
  }

  /** A decodable payload without `exp` counts as not expired (NaN compares false), yet it is
      not valid. */
  lemma MissingExpiry(token: string, decode: Decoder, now: int)
    requires Payload(token, decode).Some? && Payload(token, decode).value.exp == Undefined
    ensures !IsTokenExpired(token, decode, now)
    ensures !IsTokenValid(Some(token), decode, now)
  {
  }

  /** `isTokenValid` is false for an absent or empty token, an undecodable payload or a falsy
      `exp`, and otherwise holds exactly when the expiry lies after `now`. */
  lemma IsTokenValidSpec(token: Option<string>, decode: Decoder, now: int)
    ensures token.None? || token == Some("") ==> !IsTokenValid(token, decode, now)
    ensures token.Some? && Payload(token.value, decode).None? ==> !IsTokenValid(token, decode, now)
    ensures (token.Some? && Payload(token.value, decode).Some? && !Truthy(Payload(token.value, decode).value.exp))
            ==> !IsTokenValid(token, decode, now)
    ensures IsTokenValid(token, decode, now) <==>
              token.Some? && token.value != "" && Payload(token.value, decode).Some?
              && Truthy(Payload(token.value, decode).value.exp)
              && ExpiryMs(Payload(token.value, decode).value).Finite?
              && ExpiryMs(Payload(token.value, decode).value).value > now
  {
  }

  /** A token is never both valid and expired; exactly at the expiry instant it is neither. */
  lemma ValidAndExpiredExclusive(token: string, decode: Decoder, now: int)
    ensures !(IsTokenValid(Some(token), decode, now) && IsTokenExpired(token, decode, now))
    ensures Payload(token, decode).Some? && ExpiryMs(Payload(token, decode).value) == Finite(now)
            ==> !IsTokenValid(Some(token), decode, now) && !IsTokenExpired(token, decode, now)
  {
  }

  /** Away from the expiry instant, and for a numeric truthy `exp`, valid and not expired
      coincide. */
  lemma ValidIffNotExpired(token: string, decode: Decoder, now: int)
    requires token != ""
    requires Payload(token, decode).Some?
    requires Truthy(Payload(token, decode).value.exp)
    requires ExpiryMs(Payload(token, decode).value).Finite?
    requires ExpiryMs(Payload(token, decode).value).value != now
    ensures IsTokenValid(Some(token), decode, now) <==> !IsTokenExpired(token, decode, now)
  {
  }

  /** Time only moves a token towards expiry. */
  lemma ExpiryMonotone(token: string, decode: Decoder, now: int, later: int)
    requires now <= later
    ensures IsTokenExpired(token, decode, now) && Payload(token, decode).Some? ==> IsTokenExpired(token, decode, later)
    ensures IsTokenValid(Some(token), decode, later) ==> IsTokenValid(Some(token), decode, now)
  {
  }

  /** `atob` rejects the base64url letters '-' and '_'. */
  ghost predicate RejectsUrlAlphabet(decode: Decoder) {
    forall s: string :: '-' in s || '_' in s ==> decode(s).None?
  }

  /** Because this service skips the alphabet change, a token whose payload segment uses the
      base64url letters is treated as expired and invalid, whatever its claims; the same
      token may decode via `Utility.decodeToken`. */
  lemma UrlSafePayloadCountsAsExpired(token: string, decode: Decoder, now: int)
    requires RejectsUrlAlphabet(decode)
    requires SecondSegment(token).Some? && ('-' in SecondSegment(token).value || '_' in SecondSegment(token).value)
    ensures IsTokenExpired(token, decode, now)
    ensures !IsTokenValid(Some(token), decode, now)
    ensures DecodeToken(token, decode) == decode(Base64UrlToBase64(SecondSegment(token).value))
  {
  }

  /** `if (expiration)`: a time value is truthy when it is a non-zero number. */
  predicate TruthyNumber(n: JsNumber) {
    n.Finite? && n.value != 0
  }

  class AuthService {
    const decode: Decoder
    const timer: SessionTimerService
    /** `localStorage.getItem('token')` */
    var token: Option<string>
    var sessionExpiredNotified: bool

    predicate Valid()
      reads this, timer
    {
      timer.Valid()
    }

    constructor(decode: Decoder, timer: SessionTimerService, stored: Option<string>)
      requires timer.Valid()
      ensures this.decode == decode && this.timer == timer
      ensures token == stored && !sessionExpiredNotified
      ensures Valid()
    {
      this.decode := decode;
      this.timer := timer;
      token := stored;
      sessionExpiredNotified := false;
    }

    /** `getToken()` */
    method GetToken() returns (t: Option<string>)
      ensures t == token
    {
      t := token;
    }

    /** `canNotifySessionExpired()`: true on the first call after a logout, false afterwards. */
    method CanNotifySessionExpired() returns (can: bool)
      modifies this
      ensures can == !old(sessionExpiredNotified)
      ensures sessionExpiredNotified
      ensures token == old(token)
    {
      if sessionExpiredNotified {
        return false;
      }
      sessionExpiredNotified := true;
      return true;
    }

    /** `handleLogout()`: forgets the token, re-arms the notification and stops the timer. */
    method HandleLogout()
      modifies this, timer
      ensures token.None? && !sessionExpiredNotified && timer.Idle()
      ensures Valid()
    {
      sessionExpiredNotified := false;
      token := None;
      timer.Stop();
    }

    /** `logout()`: `handleLogout()` followed by navigation to the login page. */
    method Logout()
      modifies this, timer
      ensures token.None? && !sessionExpiredNotified && timer.Idle()
      ensures Valid()
    {
      HandleLogout();
    }

    /** Arms the timer at `expiration` when that value is truthy; the shared tail of
        `handleLogin` and `initSessionFromStorage`. */
    method StartIfTruthy(expiration: JsNumber, now: int)
      requires Valid()
      modifies timer
      ensures TruthyNumber(expiration) ==>
                SessionTimer.Deadlines(timer.warningAt, timer.logoutAt) == Schedule(expiration.value, now)
      ensures !TruthyNumber(expiration) ==>
                timer.warningAt == old(timer.warningAt) && timer.logoutAt == old(timer.logoutAt)
      ensures Valid()
    {
      if TruthyNumber(expiration) {
        timer.Start(expiration.value, now);
      }
    }

    /** `handleLogin(token)`: stores the token, then arms the timer at its expiry when that
        is truthy. `threw` is the exception of an undecodable token, raised after storing. */
    method HandleLogin(t: string, now: int) returns (threw: bool)
      requires Valid()
      modifies this, timer
      ensures token == Some(t) && sessionExpiredNotified == old(sessionExpiredNotified)
      ensures threw <==> GetTokenExpiration(t, decode).None?
      ensures !threw && TruthyNumber(GetTokenExpiration(t, decode).value) ==>
                SessionTimer.Deadlines(timer.warningAt, timer.logoutAt)
                == Schedule(GetTokenExpiration(t, decode).value.value, now)
      ensures threw || !TruthyNumber(GetTokenExpiration(t, decode).value) ==>
                timer.warningAt == old(timer.warningAt) && timer.logoutAt == old(timer.logoutAt)
      ensures Valid()
    {
      token := Some(t);
      var expiration := GetTokenExpiration(t, decode);
      if expiration.None? {
        return true;
      }
      StartIfTruthy(expiration.value, now);
      return false;
    }

    /** `initSessionFromStorage()`: re-arms the timer for a stored, non-empty token. */
    method InitSessionFromStorage(now: int) returns (threw: bool)
      requires Valid()
      modifies timer
      ensures threw <==> token.Some? && token.value != "" && GetTokenExpiration(token.value, decode).None?
      ensures token.Some? && token.value != "" && !threw && TruthyNumber(GetTokenExpiration(token.value, decode).value)
              ==> SessionTimer.Deadlines(timer.warningAt, timer.logoutAt)
                  == Schedule(GetTokenExpiration(token.value, decode).value.value, now)
      ensures token.None? || token.value == "" || threw || !TruthyNumber(GetTokenExpiration(token.value, decode).value)
              ==> timer.warningAt == old(timer.warningAt) && timer.logoutAt == old(timer.logoutAt)
      ensures Valid()
    {
      if token.None? || token.value == "" {
        return false;
      }
      var expiration := GetTokenExpiration(token.value, decode);
      if expiration.None? {
        return true;
      }
      StartIfTruthy(expiration.value, now);
      return false;
    }

    /** `getTimeLeft()`: 0 without a token, else the expiry less `now` (negative once expired,
        NaN without a numeric `exp`). None when decoding throws. */
    method GetTimeLeft(now: int) returns (r: Option<JsNumber>)
      ensures token.None? || token.value == "" ==> r == Some(Finite(0))
      ensures token.Some? && token.value != "" ==>
                (r.None? <==> Payload(token.value, decode).None?)
      ensures token.Some? && token.value != "" && r.Some? ==>
                (r.value.Finite? <==> ExpiryMs(Payload(token.value, decode).value).Finite?)
      ensures token.Some? && token.value != "" && r.Some? && r.value.Finite? ==>
                r.value.value + now == ExpiryMs(Payload(token.value, decode).value).value
    {
      if token.None? || token.value == "" {
        return Some(Finite(0));
      }
      var expiration := GetTokenExpiration(token.value, decode);
      if expiration.None? {
        return None;
      }
      match expiration.value
      case NaN => r := Some(NaN);
      case Finite(e) => r := Some(Finite(e - now));
    }

    /** Time passes to `now`: the warning shows, and the logout callback armed by
        `handleLogin`/`initSessionFromStorage` runs `handleLogout()` and navigates to login. */
    method Tick(now: int) returns (warned: bool, loggedOut: bool)
      requires Valid()
      modifies this, timer
      ensures warned <==> old(timer.warningAt).Some? && old(timer.warningAt).value <= now
      ensures loggedOut <==> old(timer.logoutAt).Some? && old(timer.logoutAt).value <= now
      ensures loggedOut ==> token.None? && !sessionExpiredNotified && timer.Idle()
      ensures !loggedOut ==> token == old(token) && sessionExpiredNotified == old(sessionExpiredNotified)
      ensures !loggedOut ==> timer.logoutAt == old(timer.logoutAt)
                             && timer.warningAt == (if warned then None else old(timer.warningAt))
      ensures Valid()
    {
      warned, loggedOut := timer.FireDue(now);
      if loggedOut {
        HandleLogout();
      }
    }
  }
}
