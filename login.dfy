/**
 * The sign-in modal: an email and a password field, a close button, and a
 * "Signup" link that renders the sign-up modal in its place.
 */
module Login {
  import opened Wrappers
  import opened Forms

  datatype LoginForm = LoginForm(email: string, password: string)

  const EmailRules := FieldRules("Email is required", [Pattern(EmailAddress, "Invalid email address")])
  const PasswordRules := FieldRules("Password is required", [MinLength(6, "Password must be at least 6 characters")])

  datatype LoginErrors = LoginErrors(email: Option<string>, password: Option<string>)

  function Errors(form: LoginForm): (e: LoginErrors)
    ensures form.email == "" ==> e.email == Some("Email is required")
    ensures form.email != "" && !IsEmailAddress(form.email) ==> e.email == Some("Invalid email address")
    ensures e.email.None? <==> IsEmailAddress(form.email)
    ensures form.password == "" ==> e.password == Some("Password is required")
    ensures 0 < |form.password| < 6 ==> e.password == Some("Password must be at least 6 characters")
    ensures e.password.None? <==> |form.password| >= 6
  {
    LoginErrors(Validate(EmailRules, form.email), Validate(PasswordRules, form.password))
  }

  /** The modal's own state: whether it is open (owned by its parent) and whether sign-up was asked for. */
  datatype LoginModal = LoginModal(show: bool, signUp: bool)

  /** A freshly mounted modal has not opened the sign-up form. */
  function Mount(show: bool): (m: LoginModal)
    ensures m.show == show && !SignupRendered(m)
  {
    LoginModal(show, false)
  }

  /** The "Signup" link. */
  function OpenSignup(m: LoginModal): (r: LoginModal)
    ensures SignupRendered(r) && r.show == m.show
  {
    m.(signUp := true)
  }

  /** The sign-up modal's own close, wired to the flag that renders it. */
  function CloseSignup(m: LoginModal): (r: LoginModal)
    ensures !SignupRendered(r) && r.show == m.show
  {
    m.(signUp := false)
  }

  /** The close button and the backdrop. */
  function Close(m: LoginModal): (r: LoginModal)
    ensures !r.show && r.signUp == m.signUp
  {
    m.(show := false)
  }

  /** The sign-up modal is in the tree exactly while the flag is set. */
  predicate SignupRendered(m: LoginModal) {
    m.signUp
  }

  /** Opening and then closing sign-up comes back to where it started when it was closed. */
  lemma SignupRoundTrip(m: LoginModal)
    requires !SignupRendered(m)
    ensures CloseSignup(OpenSignup(m)) == m
  {
  }
}
