/**
 * `UpdatePasswordComponent`: the form that changes the signed-in user's password. Its
 * checks run in a fixed order (form validity, blank passwords, unchanged password, a user id
 * from the token) before the update is requested, and both a missing user id and a
 * successful update end the session.
 *
 * The encryption of the passwords with the server's public key is not modelled: the request
 * carries the passwords as the form holds them. Navigation and the snackbar are reported as
 * results rather than performed.
 */
module UpdatePassword {
  import opened Js
  import opened Wrappers
  import opened Utility
  import opened Auth

  /** The two controls; None is the `null` a reset leaves. */
  datatype PasswordForm = PasswordForm(currentPassword: Option<string>, newPassword: Option<string>)

  /** `resolveUserId()`: no id without a token or when decoding throws; otherwise
      `Number(userId ?? id ?? sub)` when it is finite. */
  function ResolveUserId(token: Option<string>, decode: Decoder): (r: Option<int>)
    ensures token.None? || token.value == "" ==> r.None?
    ensures token.Some? && token.value != "" && DecodeToken(token.value, decode).None? ==> r.None?
    ensures r.Some? ==> exists c :: (DecodeToken(token.value, decode) == Some(c)
                                     && ToNumber(Coalesce(Coalesce(c.userId, c.id), c.sub)) == Finite(r.value))
  {
    if token.None? || token.value == "" then None
    else
      match DecodeToken(token.value, decode)
      case None => None
      case Some(c) =>
        var candidate := ToNumber(Coalesce(Coalesce(c.userId, c.id), c.sub));
        if candidate.Finite? then Some(candidate.value) else None
  }

  /** The claims are read in the order `userId`, `id`, `sub`: the first one present decides,
      even when it is not a number. */
  lemma ResolveUserIdOrder(token: string, decode: Decoder, c: Claims)
    requires token != "" && DecodeToken(token, decode) == Some(c)
    ensures !Nullish(c.userId) ==>
              ResolveUserId(Some(token), decode) == (if ToNumber(c.userId).Finite? then Some(ToNumber(c.userId).value) else None)
    ensures Nullish(c.userId) && !Nullish(c.id) ==>
              ResolveUserId(Some(token), decode) == (if ToNumber(c.id).Finite? then Some(ToNumber(c.id).value) else None)
    ensures Nullish(c.userId) && Nullish(c.id) ==>
              ResolveUserId(Some(token), decode) == (if ToNumber(c.sub).Finite? then Some(ToNumber(c.sub).value) else None)
  {
  }

  /** Why `submit()` stops, or that it goes on to request the update. */
  datatype Check = FormInvalid | PasswordsRequired | SameAsCurrent | Passed

  /** `(value ?? '').trim() === ''` */
  predicate Blank(value: Option<string>) {
    Trim(value.GetOr("")) == ""
  }

  /** The checks of `submit()` before the user id, in their order. */
  function Validate(formValid: bool, f: PasswordForm): (c: Check)
    ensures c == Passed <==> formValid && !Blank(f.currentPassword) && !Blank(f.newPassword)
                             && f.currentPassword != f.newPassword
  {
    if !formValid then FormInvalid
    else if Blank(f.currentPassword) || Blank(f.newPassword) then PasswordsRequired
    else if f.currentPassword == f.newPassword then SameAsCurrent
    else Passed
  }

  /** A password made only of whitespace counts as missing; the passwords are compared
      untrimmed, so two that differ only in surrounding whitespace pass; and a blank password
      is reported as missing even when both are equal. */
  lemma ValidateCases(formValid: bool, f: PasswordForm)
    ensures formValid && f.currentPassword.Some? && AllWhitespace(f.currentPassword.value) ==>
              Validate(formValid, f) == PasswordsRequired
    ensures formValid && f.newPassword.None? ==> Validate(formValid, f) == PasswordsRequired
    ensures Validate(true, PasswordForm(Some("abcd"), Some(" abcd"))) == Passed
    ensures (formValid && f.currentPassword == f.newPassword && !Blank(f.currentPassword)) ==>
              Validate(formValid, f) == SameAsCurrent
  {
    if f.currentPassword.Some? {
      TrimEmptyIff(f.currentPassword.value);
    }
    assert Trim("") == "";
    TrimEmptyIff("abcd");
    TrimEmptyIff(" abcd");
    assert !AllWhitespace("abcd") by { assert !IsWhitespace("abcd"[0]); }
    assert !AllWhitespace(" abcd") by { assert !IsWhitespace(" abcd"[1]); }
  }

  /** What one `submit()` call does. */
  datatype Outcome =
    | Rejected(check: Check)
    /** `handleInvalidSession()`: the session ended and the user is sent to the login page. */
    | InvalidSession
    /** The update request with the passwords (`?? ''`) and the user id. */
    | UpdateRequested(currentPassword: string, newPassword: string, userId: int)

  class UpdatePasswordComponent {
    const auth: AuthService
    /** `Utility.decodeToken`'s foreign decoding step. */
    const decode: Decoder
    var form: PasswordForm
    var touched: bool
    /** The `sameAsCurrent` error set on the new-password control. */
    var sameAsCurrentError: bool
    var submitting: bool
    /** The cached user id. */
    var userId: Option<int>

    predicate Valid()
      reads this, auth, auth.timer
    {
      auth.Valid()
    }

    /** The form starts empty and the user id is resolved from the stored token. */
    constructor(auth: AuthService, decode: Decoder)
      requires auth.Valid()
      ensures this.auth == auth && this.decode == decode
      ensures form == PasswordForm(Some(""), Some("")) && !touched && !sameAsCurrentError && !submitting
      ensures userId == ResolveUserId(auth.token, decode)
      ensures Valid()
    {
      this.auth := auth;
      this.decode := decode;
      form := PasswordForm(Some(""), Some(""));
      touched := false;
      sameAsCurrentError := false;
      submitting := false;
      var token := auth.GetToken();
      userId := ResolveUserId(token, decode);
    }

    /** `ensureUserId()`: the cached id when there is one, otherwise a fresh resolution that
        is cached. An id once resolved, even 0, is never resolved again. */
    method EnsureUserId() returns (id: Option<int>)
      modifies this`userId
      ensures old(userId).Some? ==> id == old(userId)
      ensures old(userId).None? ==> id == ResolveUserId(auth.token, decode)
      ensures userId == id
      ensures form == old(form) && touched == old(touched) && submitting == old(submitting)
      ensures sameAsCurrentError == old(sameAsCurrentError)
    {
      if userId.Some? {
        return userId;
      }
      var token := auth.GetToken();
      userId := ResolveUserId(token, decode);
      id := userId;
    }

    /** `submit()` with the validity of the form's validators. */
    method Submit(formValid: bool) returns (o: Outcome)
      requires Valid()
      modifies this, auth, auth.timer
      ensures Validate(formValid, old(form)) != Passed ==> o == Rejected(Validate(formValid, old(form)))
      ensures Validate(formValid, old(form)) == Passed ==> o.InvalidSession? || o.UpdateRequested?
      ensures !formValid ==> touched
      ensures formValid ==> touched == old(touched)
      ensures sameAsCurrentError <==> old(sameAsCurrentError) || Validate(formValid, old(form)) == SameAsCurrent
      ensures o.InvalidSession? <==> Validate(formValid, old(form)) == Passed && (userId.None? || userId == Some(0))
      ensures o.InvalidSession? ==> auth.token.None? && auth.timer.Idle() && !auth.sessionExpiredNotified
      ensures !o.InvalidSession? ==> auth.token == old(auth.token)
                                     && auth.sessionExpiredNotified == old(auth.sessionExpiredNotified)
                                     && auth.timer.warningAt == old(auth.timer.warningAt)
                                     && auth.timer.logoutAt == old(auth.timer.logoutAt)
      ensures o.UpdateRequested? ==>
                o == UpdateRequested(old(form).currentPassword.GetOr(""), old(form).newPassword.GetOr(""), userId.value)
                && userId.value != 0 && submitting
      ensures !o.UpdateRequested? ==> submitting == old(submitting)
      ensures Validate(formValid, old(form)) == Passed ==>
                userId == (if old(userId).Some? then old(userId) else ResolveUserId(old(auth.token), decode))
      ensures Validate(formValid, old(form)) != Passed ==> userId == old(userId)
      ensures form == old(form)
      ensures Valid()
    {
      var check := Validate(formValid, form);
      if check == FormInvalid {
        touched := true;
        return Rejected(check);
      }
      if check == PasswordsRequired {
        return Rejected(check);
      }
      if check == SameAsCurrent {
        sameAsCurrentError := true;
        return Rejected(check);
      }
      var id := EnsureUserId();
      if id.None? || id.value == 0 {
        auth.HandleLogout();
        return InvalidSession;
      }
      submitting := true;
      o := UpdateRequested(form.currentPassword.GetOr(""), form.newPassword.GetOr(""), id.value);
    }

    /** The update succeeded: the form is reset to nulls and the session ends (the user
        signs in again with the new password). */
    method OnUpdateSuccess()
      requires Valid()
      modifies this, auth, auth.timer
      ensures form == PasswordForm(None, None) && !touched && !sameAsCurrentError && !submitting
      ensures auth.token.None? && auth.timer.Idle() && !auth.sessionExpiredNotified
      ensures userId == old(userId)
      ensures Valid()
    {
      form := PasswordForm(None, None);
      touched := false;
      sameAsCurrentError := false;
      auth.HandleLogout();
      submitting := false;
    }

    /** The update failed: the server's message when it sent a non-empty one, otherwise the
        generic one. */
    method OnUpdateError(serverMessage: Option<string>) returns (message: string)
      modifies this`submitting
      ensures serverMessage.Some? && serverMessage.value != "" ==> message == serverMessage.value
      ensures !(serverMessage.Some? && serverMessage.value != "") ==> message == "No pudimos actualizar la contraseña."
      ensures !submitting && form == old(form) && userId == old(userId)
    {
      message := if serverMessage.Some? && serverMessage.value != "" then serverMessage.value
                 else "No pudimos actualizar la contraseña.";
      submitting := false;
    }
  }
}
