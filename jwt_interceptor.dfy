/**
 * `jwtInterceptor`: public endpoints pass through untouched; every other request carries
 * the stored token as a bearer header, and a 401 answer ends the session.
 *
 * The backend's answer to the forwarded request is a parameter; navigation and the snackbar
 * are reported as results rather than performed.
 */
module JwtInterceptor {
  import opened Js
  import opened Wrappers
  import opened Auth

  datatype Request = Request(url: string, headers: map<string, string>)

  /** The backend's answer: success, or an HTTP error with its status. */
  datatype Response = Ok | HttpError(status: int)

  /** The request's endpoint is public: a literal substring test on the URL. */
  predicate IsPublicUrl(url: string) {
    Includes(url, "/auth/login") || Includes(url, "/user/save")
  }

  /** The request handed to the next handler: public requests and requests without a
      token unchanged, all others with `Authorization: Bearer <token>` added. */
  function PrepareRequest(req: Request, token: Option<string>): (r: Request)
    ensures r.url == req.url
    ensures IsPublicUrl(req.url) || token.None? || token.value == "" ==> r == req
    ensures !IsPublicUrl(req.url) && token.Some? && token.value != "" ==>
              r.headers == req.headers["Authorization" := "Bearer " + token.value]
  {
    if IsPublicUrl(req.url) then req
    else if token.Some? && token.value != "" then
      Request(req.url, req.headers["Authorization" := "Bearer " + token.value])
    else req
  }

  /** The bearer header is added exactly when it is sent to a non-public URL with a token. */
  lemma BearerHeaderIff(req: Request, token: Option<string>)
    requires "Authorization" !in req.headers
    ensures "Authorization" in PrepareRequest(req, token).headers <==>
              !IsPublicUrl(req.url) && token.Some? && token.value != ""
  {
  }

  /** The user-registration endpoint of the core user service is not matched by the
      `'/user/save'` test, so it is not public; the dashboard user service's is. */
  lemma PublicUrlExamples()
    ensures !IsPublicUrl(CoreUserSaveUrl)
    ensures IsPublicUrl(DashboardBase + "/user/save")
    ensures IsPublicUrl(DashboardBase + "/auth/login")
  {
    IncludesSuffix(DashboardBase, "/user/save");
    IncludesSuffix(DashboardBase, "/auth/login");
    CoreUserSaveUrlNotUserSave();
    CoreUserSaveUrlNotAuthLogin();
  }

  /** A text ending with the pattern includes it. */
  lemma IncludesSuffix(prefix: string, sub: string)
    ensures Includes(prefix + sub, sub)
  {
    assert sub <= (prefix + sub)[|prefix|..];
    IncludesIff(prefix + sub, sub);
  }

  /** A text that differs from the pattern at some position, or is shorter than it, does not
      start with it. */
  lemma MismatchAt(s: string, i: nat, sub: string, k: nat)
    requires i <= |s| && k < |sub| && (i + k >= |s| || s[i + k] != sub[k])
    ensures !(sub <= s[i..])
  {
    if i + k < |s| {
      assert s[i..][k] == s[i + k];
    }
  }

  const DashboardBase := "http://localhost:8080"
  const CoreUserSaveUrl := "http://localhost:8082/api/users/save"

  /** Where the slashes of the core user-registration URL are. */
  lemma CoreUserSaveUrlSlashes(i: int)
    requires 0 <= i < |CoreUserSaveUrl| && CoreUserSaveUrl[i] == '/'
    ensures i == 5 || i == 6 || i == 21 || i == 25 || i == 31
  {
  }

  /** The characters of the core user-registration URL that rule the patterns out. */
  lemma CoreUserSaveUrlChars()
    ensures |CoreUserSaveUrl| == 36
    ensures CoreUserSaveUrl[6] == '/' && CoreUserSaveUrl[7] == 'l' && CoreUserSaveUrl[22] == 'a'
    ensures CoreUserSaveUrl[23] == 'p' && CoreUserSaveUrl[26] == 'u' && CoreUserSaveUrl[30] == 's'
    ensures CoreUserSaveUrl[32] == 's'
  {
  }

  lemma CoreUserSaveUrlNotUserSave()
    ensures !Includes(CoreUserSaveUrl, "/user/save")
  {
    var url := CoreUserSaveUrl;
    forall i | 0 <= i < |url| && url[i] == '/' ensures !("/user/save" <= url[i..]) {
      CoreUserSaveUrlSlashes(i);
      CoreUserSaveUrlChars();
      if i == 5 { MismatchAt(url, 5, "/user/save", 1); }
      else if i == 6 { MismatchAt(url, 6, "/user/save", 1); }
      else if i == 21 { MismatchAt(url, 21, "/user/save", 1); }
      else if i == 25 { MismatchAt(url, 25, "/user/save", 5); }
      else { MismatchAt(url, 31, "/user/save", 5); }
    }
    NotIncludedWithoutFirstChar(url, "/user/save");
  }

  lemma CoreUserSaveUrlNotAuthLogin()
    ensures !Includes(CoreUserSaveUrl, "/auth/login")
  {
    var url := CoreUserSaveUrl;
    forall i | 0 <= i < |url| && url[i] == '/' ensures !("/auth/login" <= url[i..]) {
      CoreUserSaveUrlSlashes(i);
      CoreUserSaveUrlChars();
      if i == 5 { MismatchAt(url, 5, "/auth/login", 1); }
      else if i == 6 { MismatchAt(url, 6, "/auth/login", 1); }
      else if i == 21 { MismatchAt(url, 21, "/auth/login", 2); }
      else if i == 25 { MismatchAt(url, 25, "/auth/login", 1); }
      else { MismatchAt(url, 31, "/auth/login", 1); }
    }
    NotIncludedWithoutFirstChar(url, "/auth/login");
  }

  /** A text whose every occurrence of the pattern's first character starts a mismatch does
      not contain the pattern. */
  lemma {:induction false} NotIncludedWithoutFirstChar(s: string, sub: string)
    requires sub != []
    requires forall i | 0 <= i < |s| && s[i] == sub[0] :: !(sub <= s[i..])
    ensures !Includes(s, sub)
    decreases |s|
  {
    if s != [] {
      assert s[1..][0..] == s[1..];
      forall i | 0 <= i < |s[1..]| && s[1..][i] == sub[0] ensures !(sub <= s[1..][i..]) {
        assert s[1..][i..] == s[i + 1..];
      }
      NotIncludedWithoutFirstChar(s[1..], sub);
      assert s[0..] == s;
    }
  }

  /** What the interceptor does with one request. */
  datatype Outcome = Outcome(forwarded: Request, rethrown: Option<int>, sessionEnded: bool, notified: bool)

  /** `jwtInterceptor(req, next)` where `next` answers `response`. */
  method Intercept(auth: AuthService, req: Request, response: Response) returns (o: Outcome)
    requires auth.Valid()
    modifies auth, auth.timer
    ensures o.forwarded == PrepareRequest(req, old(auth.token))
    ensures o.rethrown == (if response.HttpError? then Some(response.status) else None)
    ensures o.sessionEnded <==> !IsPublicUrl(req.url) && response == HttpError(401)
    ensures o.notified <==> o.sessionEnded
    ensures o.sessionEnded ==> auth.token.None? && auth.sessionExpiredNotified && auth.timer.Idle()
    ensures !o.sessionEnded ==> auth.token == old(auth.token)
                                && auth.sessionExpiredNotified == old(auth.sessionExpiredNotified)
                                && auth.timer.warningAt == old(auth.timer.warningAt)
                                && auth.timer.logoutAt == old(auth.timer.logoutAt)
    ensures auth.Valid()
  {
    var rethrown := if response.HttpError? then Some(response.status) else None;
    if IsPublicUrl(req.url) {
      return Outcome(req, rethrown, false, false);
    }
    var token := auth.GetToken();
    var authReq := req;
    if token.Some? && token.value != "" {
      authReq := Request(req.url, req.headers["Authorization" := "Bearer " + token.value]);
    }
    var ended, notified := false, false;
    if response.HttpError? && response.status == 401 {
      auth.Logout();
      ended := true;
      notified := auth.CanNotifySessionExpired();
    }
    return Outcome(authReq, rethrown, ended, notified);
  }
}
