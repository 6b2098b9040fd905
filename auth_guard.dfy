/**
 * `AuthGuard`: lets navigation into the dashboard proceed only with a stored, unexpired
 * token, and logs the user out otherwise.
 */
module AuthGuard {
  import opened Wrappers
  import opened Utility
  import opened Auth

  /** The guard's decision about the stored token at clock reading `now`. */
  predicate Allows(token: Option<string>, decode: Decoder, now: int) {
    token.Some? && token.value != "" && !IsTokenExpired(token.value, decode, now)
  }

  /** `AuthGuard()`: on deny the session is logged out; on allow nothing changes. */
  method CanActivate(auth: AuthService, now: int) returns (allowed: bool)
    requires auth.Valid()
    modifies auth, auth.timer
    ensures allowed <==> Allows(old(auth.token), auth.decode, now)
    ensures !allowed ==> auth.token.None? && !auth.sessionExpiredNotified && auth.timer.Idle()
    ensures allowed ==> auth.token == old(auth.token)
                        && auth.sessionExpiredNotified == old(auth.sessionExpiredNotified)
                        && auth.timer.warningAt == old(auth.timer.warningAt)
                        && auth.timer.logoutAt == old(auth.timer.logoutAt)
    ensures auth.Valid()
  {
    var token := auth.token;
    if token.None? || token.value == "" || IsTokenExpired(token.value, auth.decode, now) {
      auth.Logout();
      return false;
    }
    return true;
  }
}
