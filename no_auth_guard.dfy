/**
 * `NoAuthGuard`: keeps a signed-in user away from the login pages. It only reads the stored
 * token; it never clears it.
 */
module NoAuthGuard {
  import opened Js
  import opened Wrappers
  import opened Utility
  import opened Auth
  import AuthGuard

  /** The guard's decision about the stored token at clock reading `now`. */
  predicate Allows(token: Option<string>, decode: Decoder, now: int) {
    !(token.Some? && token.value != "" && !IsTokenExpired(token.value, decode, now))
  }

  /** `NoAuthGuard()`: denies exactly when a live token is stored. It changes no state. */
  method CanActivate(auth: AuthService, now: int) returns (allowed: bool)
    ensures allowed <==> Allows(auth.token, auth.decode, now)
  {
    var token := auth.token;
    if token.Some? && token.value != "" && !IsTokenExpired(token.value, auth.decode, now) {
      return false;
    }
    return true;
  }

  /** With the same stored token and clock, exactly one of the two guards allows navigation. */
  lemma GuardsComplementary(token: Option<string>, decode: Decoder, now: int)
    ensures AuthGuard.Allows(token, decode, now) != Allows(token, decode, now)
  {
  }

  /** An absent, empty, undecodable or expired token lets the user through. */
  lemma AllowsWithoutLiveToken(token: Option<string>, decode: Decoder, now: int)
    ensures token.None? || token == Some("") ==> Allows(token, decode, now)
    ensures token.Some? && Payload(token.value, decode).None? ==> Allows(token, decode, now)
    ensures token.Some? && IsTokenExpired(token.value, decode, now) ==> Allows(token, decode, now)
  {
  }

  /** The guard asks `isTokenExpired`, not `isTokenValid`: a decodable token without `exp`
      counts as a live session here although it is not valid. */
  lemma TokenWithoutExpiryCountsAsLive(token: string, decode: Decoder, now: int)
    requires token != ""
    requires Payload(token, decode).Some? && Payload(token, decode).value.exp == Undefined
    ensures !Allows(Some(token), decode, now)
    ensures !IsTokenValid(Some(token), decode, now)
  {
    MissingExpiry(token, decode, now);
  }
}
