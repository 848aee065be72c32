/**
 * The sign-up modal: six fields checked before anything is sent, the email
 * written to storage for the OTP step, then the register call; a success
 * opens the OTP modal and clears the form, a failure shows the server's
 * message or a fallback.
 */
module Signup {
  import opened Wrappers
  import opened Text
  import opened Forms
  import opened AuthService
  import VerifyOtp

  datatype SignupForm = SignupForm(
    firstname: string, lastname: string, email: string,
    phoneno: string, password: string, rePassword: string)

  const EmptyForm := SignupForm("", "", "", "", "", "")

  const FailedMessage := "Signup failed. Please try again."
  const MismatchMessage := "Passwords do not match"

  const FirstNameRules := FieldRules("First name is required", [MinLength(2, "First name must be at least 2 characters")])
  const LastNameRules := FieldRules("Last name is required", [MinLength(2, "Last name must be at least 2 characters")])
  const EmailRules := FieldRules("Email is required", [Pattern(EmailAddress, "Invalid email address")])
  const PhoneRules := FieldRules("Phone number is required", [Pattern(TenDigits, "Please enter a valid 10-digit phone number")])
  const PasswordRules := FieldRules("Password is required", [MinLength(6, "Password must be at least 6 characters")])

  /** The confirmation must equal the password as currently typed. */
  function ConfirmRules(password: string): FieldRules {
    FieldRules("Please confirm your password", [SameAs(password, MismatchMessage)])
  }

  /** The message under each field, None where the field is accepted. */
  datatype SignupErrors = SignupErrors(
    firstname: Option<string>, lastname: Option<string>, email: Option<string>,
    phoneno: Option<string>, password: Option<string>, rePassword: Option<string>)

  predicate NoErrors(e: SignupErrors) {
    e.firstname.None? && e.lastname.None? && e.email.None? &&
    e.phoneno.None? && e.password.None? && e.rePassword.None?
  }

  function Errors(form: SignupForm): (e: SignupErrors)
    ensures e.firstname.None? <==> |form.firstname| >= 2
    ensures form.firstname == "" ==> e.firstname == Some("First name is required")
    ensures 0 < |form.firstname| < 2 ==> e.firstname == Some("First name must be at least 2 characters")
    ensures e.lastname.None? <==> |form.lastname| >= 2
    ensures form.lastname == "" ==> e.lastname == Some("Last name is required")
    ensures 0 < |form.lastname| < 2 ==> e.lastname == Some("Last name must be at least 2 characters")
    ensures e.email.None? <==> IsEmailAddress(form.email)
    ensures form.email == "" ==> e.email == Some("Email is required")
    ensures form.email != "" && !IsEmailAddress(form.email) ==> e.email == Some("Invalid email address")
    ensures e.phoneno.None? <==> |form.phoneno| == 10 && AllDigits(form.phoneno)
    ensures form.phoneno == "" ==> e.phoneno == Some("Phone number is required")
    ensures form.phoneno != "" && !(|form.phoneno| == 10 && AllDigits(form.phoneno)) ==>
      e.phoneno == Some("Please enter a valid 10-digit phone number")
    ensures e.password.None? <==> |form.password| >= 6
    ensures form.password == "" ==> e.password == Some("Password is required")
    ensures 0 < |form.password| < 6 ==> e.password == Some("Password must be at least 6 characters")
    ensures e.rePassword.None? <==> form.rePassword != "" && form.rePassword == form.password
    ensures form.rePassword == "" ==> e.rePassword == Some("Please confirm your password")
    ensures form.rePassword != "" && form.rePassword != form.password ==> e.rePassword == Some(MismatchMessage)
  {
    SignupErrors(
      Validate(FirstNameRules, form.firstname),
      Validate(LastNameRules, form.lastname),
      Validate(EmailRules, form.email),
      Validate(PhoneRules, form.phoneno),
      Validate(PasswordRules, form.password),
      Validate(ConfirmRules(form.password), form.rePassword))
  }

  /** The body of the register call. */
  function Credentials(form: SignupForm): RegisterCredentials {
    RegisterCredentials(form.email, form.password, None)
  }

  /**
   * The email written before the register call is what the OTP modal opened
   * from this one (which passes no email of its own) verifies the code for,
   * whatever the call came back with.
   */
  lemma EmailHandedToOtp(storage: map<string, string>, email: string, outcome: Outcome)
    ensures GetItem(AfterCall(storage[EmailKey := email], outcome), EmailKey) == Some(email)
    ensures VerifyOtp.EmailToSend(None, AfterCall(storage[EmailKey := email], outcome)) == email
  {
    if outcome.Succeeded? {
      TokensKeepOtherKeys(storage[EmailKey := email], outcome.response, EmailKey);
    }
  }

  class SignupModal {
    var show: bool
    var showVerifyOtp: bool
    var form: SignupForm
    var error: Option<string>

    constructor (show: bool)
      ensures this.show == show && !showVerifyOtp && form == EmptyForm && error.None?
    {
      this.show := show;
      showVerifyOtp := false;
      form := EmptyForm;
      error := None;
    }

    /** The close button and the backdrop. */
    method Close()
      modifies this
      ensures !show && showVerifyOtp == old(showVerifyOtp) && form == old(form) && error == old(error)
    {
      show := false;
    }

    /**
     * The Sign Up button. Nothing happens while a call is pending (the button
     * is disabled) or while a field is rejected; otherwise the email is
     * stored, the register call made, and its outcome shown.
     */
    method Submit(store: TokenStore, pending: bool, outcome: Outcome) returns (sent: Option<RegisterCredentials>)
      modifies this, store
      ensures show == old(show)
      ensures pending || !NoErrors(Errors(old(form))) ==>
        && sent.None? && store.items == old(store.items)
        && form == old(form) && showVerifyOtp == old(showVerifyOtp) && error == old(error)
      ensures !pending && NoErrors(Errors(old(form))) ==>
        && sent == Some(Credentials(old(form)))
        && store.items == AfterCall(old(store.items)[EmailKey := old(form.email)], outcome)
      ensures sent.Some? && outcome.Succeeded? ==> showVerifyOtp && form == EmptyForm && error.None?
      ensures sent.Some? && outcome.Failed? ==>
        && error == Some(ErrorText(outcome.error, FailedMessage))
        && form == old(form) && showVerifyOtp == old(showVerifyOtp)
    {
      sent := None;
      if pending || !NoErrors(Errors(form)) {
        return;
      }
      store.SetItem(EmailKey, form.email);
      var request := Credentials(form);
      var result := store.Register(request, outcome);
      sent := Some(request);
      if result.Succeeded? {
        showVerifyOtp := true;
        form := EmptyForm;
        error := None;
      } else {
        error := Some(ErrorText(result.error, FailedMessage));
      }
    }
  }
}
