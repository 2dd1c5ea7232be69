/**
 * The reset-password page: the form, its ordered validation with one error
 * message, the strength indicator of the new password, the outcome messages
 * of the request, and the handlers that edit and clear the form.
 */
module ResetPassword {
  import opened Js

  datatype Form = Form(username: string, newPassword: string, confirmPassword: string)

  datatype Field = Username | NewPassword | ConfirmPassword

  // ---------------------------------------------------------------------------
  // validation

  const UsernameRequired := "Username is required"
  const NewPasswordRequired := "New password is required"
  const TooShort := "Password must be at least 6 characters long"
  const ConfirmRequired := "Please confirm the password"
  const Mismatch := "Passwords do not match"

  /** The message of the first check the form fails, in the order username, new password, length, confirmation, match. */
  function FirstFailure(f: Form): (r: Option<string>)
    ensures f.username == "" ==> r == Some(UsernameRequired)
    ensures f.username != "" && f.newPassword == "" ==> r == Some(NewPasswordRequired)
    ensures f.username != "" && f.newPassword != "" && Length(f.newPassword) < 6 ==> r == Some(TooShort)
    ensures f.username != "" && Length(f.newPassword) >= 6 && f.confirmPassword == "" ==> r == Some(ConfirmRequired)
    ensures f.username != "" && Length(f.newPassword) >= 6 && f.confirmPassword != "" && f.newPassword != f.confirmPassword ==> r == Some(Mismatch)
  {
    if f.username == "" then Some(UsernameRequired)
    else if f.newPassword == "" then Some(NewPasswordRequired)
    else if Length(f.newPassword) < 6 then Some(TooShort)
    else if f.confirmPassword == "" then Some(ConfirmRequired)
    else if f.newPassword != f.confirmPassword then Some(Mismatch)
    else None
  }

  /** A form passes exactly when it names a user and carries a confirmed password of at least 6 UTF-16 code units. */
  lemma ValidIff(f: Form)
    ensures FirstFailure(f).None? <==>
      f.username != "" && Length(f.newPassword) >= 6 && f.confirmPassword != "" && f.newPassword == f.confirmPassword
  {
  }

  /** Three characters outside the Basic Multilingual Plane are six code units, enough for the length check. */
  lemma ThreeSurrogatePairsAreLongEnough(user: string, password: string)
    requires user != "" && |password| == 3
    requires forall k :: 0 <= k < 3 ==> password[k] as int >= 0x10000
    ensures FirstFailure(Form(user, password, password)).None?
  {
    assert Length(password) == 6;
  }

  // ---------------------------------------------------------------------------
  // strength indicator

  const Weak := "Weak (minimum 6 characters)"
  const Fair := "Fair"
  const Good := "Good"
  const Strong := "Strong"

  /** The caption under the bar: the four conditional parts rendered one after the other. */
  function StrengthCaption(length: nat): (r: string)
    ensures r in {Weak, Fair, Good, Strong}
  {
    var r := (if length < 6 then Weak else "")
      + (if 6 <= length < 8 then Fair else "")
      + (if 8 <= length < 12 then Good else "")
      + (if length >= 12 then Strong else "");
    assert length < 6 ==> r == Weak + "" + "" + "" == Weak;
    assert 6 <= length < 8 ==> r == "" + Fair + "" + "" == Fair;
    assert 8 <= length < 12 ==> r == "" + "" + Good + "" == Good;
    assert length >= 12 ==> r == "" + "" + "" + Strong == Strong;
    r
  }

  /** The colour of the bar. */
  function StrengthColor(length: nat): (r: string)
    ensures r in {"#f44336", "#ff9800", "#ffa726", "#2e7d32"}
  {
    if length >= 6 then
      if length >= 8 then
        if length >= 12 then "#2e7d32" else "#ffa726"
      else "#ff9800"
    else "#f44336"
  }

  /** The four bands split the lengths: exactly one caption is shown, and the colour follows the same bands. */
  lemma StrengthBands(length: nat)
    ensures length < 6 ==> StrengthCaption(length) == Weak && StrengthColor(length) == "#f44336"
    ensures 6 <= length < 8 ==> StrengthCaption(length) == Fair && StrengthColor(length) == "#ff9800"
    ensures 8 <= length < 12 ==> StrengthCaption(length) == Good && StrengthColor(length) == "#ffa726"
    ensures length >= 12 ==> StrengthCaption(length) == Strong && StrengthColor(length) == "#2e7d32"
  {
  }

  /** A password the form accepts is never captioned weak. */
  lemma AcceptedPasswordIsNotWeak(f: Form)
    requires FirstFailure(f).None?
    ensures StrengthCaption(Length(f.newPassword)) != Weak
  {
    StrengthBands(Length(f.newPassword));
  }

  // ---------------------------------------------------------------------------
  // submit

  /** `loading || !newPassword || !confirmPassword`. */
  predicate SubmitDisabled(loading: bool, f: Form) {
    loading || f.newPassword == "" || f.confirmPassword == ""
  }

  /** A form that would pass validation can be submitted whenever no request is running. */
  lemma ValidFormIsSubmittable(f: Form)
    requires FirstFailure(f).None?
    ensures !SubmitDisabled(false, f)
  {
  }

  /** How the reset request ended. */
  datatype Reply =
    | Done
    | HttpError(status: int, message: Option<string>, statusText: Option<string>)
    | NoResponse
    | Failed(message: Option<string>)

  const ResetDone := "Your password has been reset successfully. You can now use your new password to login."

  /** The error the page shows for a failed request. */
  function ReplyError(reply: Reply, username: string): (r: string)
    requires !reply.Done?
    ensures r != ""
    ensures reply.HttpError? && reply.status == 401 ==> r == "Unauthorized. Please login again."
    ensures reply.HttpError? && reply.status == 404 ==> r == "User \"" + username + "\" not found."
  {
    match reply
    case HttpError(status, message, statusText) =>
      if status == 401 then "Unauthorized. Please login again."
      else if status == 403 then "You do not have permission to reset passwords."
      else if status == 404 then "User \"" + username + "\" not found."
      else if Present(message) then message.value
      else if Present(statusText) then statusText.value
      else "Failed to reset password"
    case NoResponse => "No response from server. Please check if backend is running."
    case Failed(message) => if Present(message) then message.value else "An unexpected error occurred."
  }

  /** The claims of the session token the page reads the user from. */
  datatype Token = NoToken | Decoded(sub: Option<string>, username: Option<string>) | Undecodable

  /** The page's form and message state. */
  class ResetPasswordPage {
    var form: Form
    var error: Option<string>
    var success: Option<string>
    var loading: bool

    constructor()
      ensures form == Form("", "", "") && error == None && success == None && !loading
    {
      form := Form("", "", "");
      error := None;
      success := None;
      loading := false;
    }

    /** On mount: the user name from the token's `sub`, else its `username`, else empty; an unreadable token shows an error. */
    method Mount(token: Token)
      modifies this
      ensures token.Decoded? ==> form == old(form).(username := if Present(token.sub) then token.sub.value else if Present(token.username) then token.username.value else "")
      ensures token.Decoded? ==> error == old(error)
      ensures token.NoToken? ==> form == old(form) && error == old(error)
      ensures token.Undecodable? ==> form == old(form) && error == Some("Unable to get current user information")
      ensures success == old(success) && loading == old(loading)
    {
      match token
      case NoToken =>
      case Decoded(sub, username) =>
        var name := if Present(sub) then sub.value else if Present(username) then username.value else "";
        form := form.(username := name);
      case Undecodable =>
        error := Some("Unable to get current user information");
    }

    /** `handleInputChange(field, value)`: that field takes the value and both messages are cleared. */
    method HandleInputChange(field: Field, value: string)
      modifies this
      ensures field == Username ==> form == old(form).(username := value)
      ensures field == NewPassword ==> form == old(form).(newPassword := value)
      ensures field == ConfirmPassword ==> form == old(form).(confirmPassword := value)
      ensures error == None && success == None && loading == old(loading)
    {
      match field {
        case Username => form := form.(username := value);
        case NewPassword => form := form.(newPassword := value);
        case ConfirmPassword => form := form.(confirmPassword := value);
      }
      error := None;
      success := None;
    }

    /** `validateForm`: true when every check passes; otherwise the first failing check's message is the error. */
    method ValidateForm() returns (ok: bool)
      modifies this
      ensures ok <==> FirstFailure(form).None?
      ensures !ok ==> error == FirstFailure(form)
      ensures ok ==> error == old(error)
      ensures form == old(form) && success == old(success) && loading == old(loading)
    {
      if form.username == "" {
        error := Some(UsernameRequired);
        return false;
      }
      if form.newPassword == "" {
        error := Some(NewPasswordRequired);
        return false;
      }
      if Length(form.newPassword) < 6 {
        error := Some(TooShort);
        return false;
      }
      if form.confirmPassword == "" {
        error := Some(ConfirmRequired);
        return false;
      }
      if form.newPassword != form.confirmPassword {
        error := Some(Mismatch);
        return false;
      }
      return true;
    }

    /** `handleResetPassword` with the request's reply: nothing is sent unless the form passes. */
    method HandleResetPassword(reply: Reply) returns (sent: bool)
      modifies this
      ensures sent <==> FirstFailure(old(form)).None?
      ensures !sent ==> error == FirstFailure(old(form)) && success == None
      ensures sent && reply.Done? ==> error == None && success == Some(ResetDone)
      ensures sent && !reply.Done? ==> error == Some(ReplyError(reply, form.username)) && success == None
      ensures form == old(form)
      ensures sent ==> !loading
      ensures !sent ==> loading == old(loading)
    {
      error := None;
      success := None;
      var ok := ValidateForm();
      if !ok {
        return false;
      }
      loading := true;
      if reply.Done? {
        success := Some(ResetDone);
      } else {
        error := Some(ReplyError(reply, form.username));
      }
      loading := false;
      return true;
    }

    /** The timer three seconds after a reset: both password fields and the success message are cleared. */
    method AfterResetDelay()
      modifies this
      ensures form == old(form).(newPassword := "", confirmPassword := "")
      ensures success == None && error == old(error) && loading == old(loading)
    {
      form := form.(newPassword := "", confirmPassword := "");
      success := None;
    }

    /** `handleClear`: both password fields emptied, the user name kept, both messages cleared. */
    method HandleClear()
      modifies this
      ensures form == Form(old(form.username), "", "")
      ensures error == None && success == None && loading == old(loading)
      ensures SubmitDisabled(loading, form)
    {
      form := form.(newPassword := "", confirmPassword := "");
      error := None;
      success := None;
    }
  }
}
