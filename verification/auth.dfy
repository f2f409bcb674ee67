/**
 The sign-in / sign-up form's submit handler (`handleAuth`): it resets the
 form's feedback, validates the sign-up fields, and calls the authentication
 backend only when validation passes. The backend's answer is an input:
 `None` for success, `Some(message)` for a reported error.
 */
module AuthForm {
  import opened Wrappers
  import opened Text

  const FirstNameRequired: string := "First name should be filled"
  const EmailRequired: string := "Email should be filled"
  const PasswordRequired: string := "Password should be filled"
  const ConfirmRequired: string := "Confirm password should be filled"
  const ConfirmationSent: string := "Check your email for the confirmation link!"

  /** The field keys of `fieldErrors`. */
  const FirstNameKey: string := "firstName"
  const EmailKey: string := "email"
  const PasswordKey: string := "password"
  const ConfirmKey: string := "confirmPassword"

  /** What the user typed, and which mode the form is in. */
  datatype Form = Form(isSignUp: bool, firstName: string, email: string, password: string, confirmPassword: string)

  /** The feedback the form shows after a submission. */
  datatype View = View(loading: bool, error: string, mismatch: bool, fieldErrors: map<string, string>)

  /** The backend call a submission makes, if any. */
  datatype Call =
    | NoCall
    | SignUpCall(email: string, password: string, name: string)
    | SignInCall(email: string, password: string)

  /** The form's final feedback, the call made, and whether `onAuthSuccess` was invoked. */
  datatype Submission = Submission(view: View, call: Call, authenticated: bool)

  /** The per-field "should be filled" messages for the blank sign-up fields. */
  function FieldErrors(f: Form): (m: map<string, string>)
    ensures FirstNameKey in m <==> IsBlank(f.firstName)
    ensures EmailKey in m <==> IsBlank(f.email)
    ensures PasswordKey in m <==> IsBlank(f.password)
    ensures ConfirmKey in m <==> IsBlank(f.confirmPassword)
    ensures forall k :: k in m ==> k in {FirstNameKey, EmailKey, PasswordKey, ConfirmKey}
    ensures FirstNameKey in m ==> m[FirstNameKey] == FirstNameRequired
    ensures EmailKey in m ==> m[EmailKey] == EmailRequired
    ensures PasswordKey in m ==> m[PasswordKey] == PasswordRequired
    ensures ConfirmKey in m ==> m[ConfirmKey] == ConfirmRequired
    ensures m == map[] <==> !IsBlank(f.firstName) && !IsBlank(f.email) && !IsBlank(f.password) && !IsBlank(f.confirmPassword)
  {
    var m0: map<string, string> := map[];
    var m1 := if IsBlank(f.firstName) then m0[FirstNameKey := FirstNameRequired] else m0;
    var m2 := if IsBlank(f.email) then m1[EmailKey := EmailRequired] else m1;
    var m3 := if IsBlank(f.password) then m2[PasswordKey := PasswordRequired] else m2;
    var m4 := if IsBlank(f.confirmPassword) then m3[ConfirmKey := ConfirmRequired] else m3;
    assert IsBlank(f.firstName) ==> FirstNameKey in m4;
    m4
  }

  /** Both passwords are filled in and differ (compared untrimmed). */
  predicate VisibleMismatch(f: Form) {
    f.password != f.confirmPassword && !IsBlank(f.password) && !IsBlank(f.confirmPassword)
  }

  /** Every sign-up field is filled in and the two passwords are identical. */
  predicate ReadyToSignUp(f: Form) {
    && !IsBlank(f.firstName) && !IsBlank(f.email) && !IsBlank(f.password) && !IsBlank(f.confirmPassword)
    && f.password == f.confirmPassword
  }

  /** `handleAuth`, given the backend's reply to the call it makes (ignored when none is made). */
  function HandleAuth(f: Form, reply: Option<string>): (r: Submission)
    // which call is made
    ensures r.call.SignUpCall? <==> f.isSignUp && ReadyToSignUp(f)
    ensures r.call.SignInCall? <==> !f.isSignUp
    ensures r.call.SignUpCall? ==> r.call == SignUpCall(f.email, f.password, f.firstName)
    ensures r.call.SignInCall? ==> r.call == SignInCall(f.email, f.password)
    // what the form shows afterwards
    ensures !r.view.loading
    ensures r.view.fieldErrors == (if f.isSignUp then FieldErrors(f) else map[])
    ensures r.view.mismatch <==> f.isSignUp && f.password != f.confirmPassword && !IsBlank(f.password) && !IsBlank(f.confirmPassword)
    ensures r.call.NoCall? ==> r.view.error == ""
    ensures !r.call.NoCall? && reply.Some? ==> r.view.error == reply.value && !r.authenticated
    ensures r.call.SignUpCall? && reply.None? ==> r.view.error == ConfirmationSent
    ensures r.call.SignInCall? && reply.None? ==> r.view.error == ""
    // only a successful sign-in reaches `onAuthSuccess`
    ensures r.authenticated <==> !f.isSignUp && reply.None?
  {
    if f.isSignUp then
      var errors := FieldErrors(f);
      var mismatch := VisibleMismatch(f);
      if errors != map[] then
        Submission(View(false, "", mismatch, errors), NoCall, false)
      else if f.password != f.confirmPassword then
        Submission(View(false, "", true, errors), NoCall, false)
      else
        var call := SignUpCall(f.email, f.password, f.firstName);
        match reply
        case Some(message) => Submission(View(false, message, false, errors), call, false)
        case None => Submission(View(false, ConfirmationSent, false, errors), call, false)
    else
      var call := SignInCall(f.email, f.password);
      match reply
      case Some(message) => Submission(View(false, message, false, map[]), call, false)
      case None => Submission(View(false, "", false, map[]), call, true)
  }

  /**
   A sign-up request reaches the backend exactly when the form shows neither a
   field error nor a password mismatch.
   */
  lemma SignUpCallIffClean(f: Form, reply: Option<string>)
    requires f.isSignUp
    ensures var r := HandleAuth(f, reply);
      r.call.SignUpCall? <==> r.view.fieldErrors == map[] && !r.view.mismatch
  {
  }

  /** Passwords are compared untrimmed: a trailing space alone blocks sign-up and shows the mismatch. */
  lemma PasswordsComparedUntrimmed(reply: Option<string>)
    ensures var r := HandleAuth(Form(true, "Ada", "ada@example.org", "secret", "secret "), reply);
      r.call == NoCall && r.view.mismatch && r.view.fieldErrors == map[]
  {
    var f := Form(true, "Ada", "ada@example.org", "secret", "secret ");
    assert f.password != f.confirmPassword by {
      assert |f.password| != |f.confirmPassword|;
    }
    assert !IsWhitespace(f.firstName[0]) && !IsWhitespace(f.email[0]);
    assert !IsWhitespace(f.password[0]) && !IsWhitespace(f.confirmPassword[0]);
  }

  /** Two different all-blank passwords show only the "should be filled" messages, no mismatch. */
  lemma BlankPasswordsHideMismatch(reply: Option<string>)
    ensures var r := HandleAuth(Form(true, "Ada", "ada@example.org", " ", "  "), reply);
      && r.call == NoCall && !r.view.mismatch
      && r.view.fieldErrors == map[PasswordKey := PasswordRequired, ConfirmKey := ConfirmRequired]
  {
    var f := Form(true, "Ada", "ada@example.org", " ", "  ");
    assert !IsWhitespace(f.firstName[0]) && !IsWhitespace(f.email[0]);
    var m := HandleAuth(f, reply).view.fieldErrors;
    assert m.Keys == {PasswordKey, ConfirmKey};
  }
}
