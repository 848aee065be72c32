/**
 * The contact form: name, email, subject and message, all required, the email
 * matching the address pattern. A submission that passes is acknowledged and
 * the form goes back to its defaults; the button is disabled while it runs.
 */
module Contact {
  import opened Wrappers
  import opened Forms

  datatype ContactForm = ContactForm(name: string, email: string, subject: string, message: string)

  const Defaults := ContactForm("", "", "", "")

  const NameRules := FieldRules("Name is required", [])
  const EmailRules := FieldRules("Email is required", [Pattern(EmailAddress, "Invalid email address")])
  const SubjectRules := FieldRules("Subject is required", [])
  const MessageRules := FieldRules("Message is required", [])

  datatype ContactErrors = ContactErrors(name: Option<string>, email: Option<string>, subject: Option<string>, message: Option<string>)

  function Errors(form: ContactForm): (e: ContactErrors)
    ensures e.name.None? <==> form.name != ""
    ensures e.subject.None? <==> form.subject != ""
    ensures e.message.None? <==> form.message != ""
    ensures e.email.None? <==> IsEmailAddress(form.email)
    ensures form.email == "" ==> e.email == Some("Email is required")
    ensures form.email != "" && !IsEmailAddress(form.email) ==> e.email == Some("Invalid email address")
  {
    ContactErrors(
      Validate(NameRules, form.name),
      Validate(EmailRules, form.email),
      Validate(SubjectRules, form.subject),
      Validate(MessageRules, form.message))
  }

  predicate Accepted(form: ContactForm) {
    var e := Errors(form);
    e.name.None? && e.email.None? && e.subject.None? && e.message.None?
  }

  /** The submit button is disabled while a submission is in flight. */
  predicate SubmitDisabled(submitting: bool) {
    submitting
  }

  /**
   * The form after pressing Send: unchanged when the button is disabled or a
   * field is rejected, back to the defaults once an accepted message is sent.
   */
  function AfterSubmit(form: ContactForm, submitting: bool): (r: ContactForm)
    ensures r == form || r == Defaults
    ensures r == Defaults <==> form == Defaults || (!SubmitDisabled(submitting) && Accepted(form))
  {
    if SubmitDisabled(submitting) || !Accepted(form) then form else Defaults
  }

  /** The defaults are rejected: pressing Send again right after a reset changes nothing. */
  lemma DefaultsRejected()
    ensures !Accepted(Defaults)
    ensures Errors(Defaults) == ContactErrors(Some("Name is required"), Some("Email is required"),
                                              Some("Subject is required"), Some("Message is required"))
  {
  }

  /** Sending twice leaves the form where sending once did. */
  lemma SubmitIdempotent(form: ContactForm, submitting: bool)
    ensures AfterSubmit(AfterSubmit(form, submitting), submitting) == AfterSubmit(form, submitting)
  {
    DefaultsRejected();
  }
}
