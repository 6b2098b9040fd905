/**
 * `BaseComponent`: the dashboard shell. Creating it runs the startup session sequence: an
 * invalid stored token is logged out first, then the session timer is re-armed from storage.
 */
module Base {
  import opened Js
  import opened Wrappers
  import opened Auth
  import opened SessionTimer

  class BaseComponent {
    const auth: AuthService

    /** The constructor's session sequence at clock reading `now`. */
    constructor(auth: AuthService, now: nat)
      requires auth.Valid()
      modifies auth, auth.timer
      ensures this.auth == auth && auth.Valid()
      ensures !IsTokenValid(old(auth.token), auth.decode, now) ==>
                auth.token.None? && !auth.sessionExpiredNotified && auth.timer.Idle()
      ensures IsTokenValid(old(auth.token), auth.decode, now) ==>
                auth.token == old(auth.token)
                && auth.sessionExpiredNotified == old(auth.sessionExpiredNotified)
                && Deadlines(auth.timer.warningAt, auth.timer.logoutAt)
                   == Schedule(GetTokenExpiration(auth.token.value, auth.decode).value.value, now)
    {
      this.auth := auth;
      new;
      var token := auth.token;
      if !IsTokenValid(token, auth.decode, now) {
        auth.HandleLogout();
      }
      var threw := auth.InitSessionFromStorage(now);
    }

    /** `logout()` delegates to the service. */
    method Logout()
      requires auth.Valid()
      modifies auth, auth.timer
      ensures auth.token.None? && !auth.sessionExpiredNotified && auth.timer.Idle()
      ensures auth.Valid()
    {
      auth.Logout();
    }
  }
}
