/**
 * The field validation the forms delegate to react-hook-form: a `required`
 * message, then the field's other rules in the library's fixed order
 * (minLength, pattern, validate). A field's error is the message of the first
 * rule that fails; an empty value fails `required` and nothing else is tried.
 * Also the two regular expressions the forms use.
 */
module Forms {
  import opened Wrappers
  import opened Text

  /** The shapes the forms' `pattern` rules test. */
  datatype Shape =
    | EmailAddress  // /^[A-Z0-9._%+-]+@[A-Z0-9.-]+\.[A-Z]{2,}$/i
    | TenDigits     // /^\d{10}$/

  /** One rule after `required`. */
  datatype Check =
    | MinLength(min: nat, message: string)
    | Pattern(shape: Shape, message: string)
    | SameAs(other: string, message: string)  // `validate: v => v === other || message`

  /** A field's rules: the `required` message and the other rules in evaluation order. */
  datatype FieldRules = FieldRules(requiredMessage: string, checks: seq<Check>)

  predicate Matches(shape: Shape, value: string) {
    match shape
    case EmailAddress => IsEmailAddress(value)
    case TenDigits => |value| == 10 && AllDigits(value)
  }

  predicate Passes(c: Check, value: string) {
    match c
    case MinLength(min, _) => |value| >= min
    case Pattern(shape, _) => Matches(shape, value)
    case SameAs(other, _) => value == other
  }

  /** The message of the first failing rule, if any. */
  function FirstFailure(checks: seq<Check>, value: string): (r: Option<string>)
    ensures r.None? <==> forall i | 0 <= i < |checks| :: Passes(checks[i], value)
    ensures r.Some? ==> exists i | 0 <= i < |checks| ::
      !Passes(checks[i], value) && r.value == checks[i].message
  {
    if checks == [] then None
    else if !Passes(checks[0], value) then Some(checks[0].message)
    else
      var r := FirstFailure(checks[1..], value);
      assert forall i | 1 <= i < |checks| :: checks[i] == checks[1..][i - 1];
      r
  }

  /** The error message shown under a field, or None when the value is accepted. */
  function Validate(rules: FieldRules, value: string): (error: Option<string>)
    ensures error.None? <==> value != "" && forall i | 0 <= i < |rules.checks| :: Passes(rules.checks[i], value)
    ensures value == "" ==> error == Some(rules.requiredMessage)
  {
    if value == "" then Some(rules.requiredMessage) else FirstFailure(rules.checks, value)
  }

  // ---------------------------------------------------------------------
  // The email pattern. Signup and Login write it as
  // /^[A-Z0-9._%+-]+@[A-Z0-9.-]+\.[A-Z]{2,}$/i and Contact as
  // /^[a-zA-Z0-9._%+-]+@[a-zA-Z0-9.-]+\.[a-zA-Z]{2,}$/; on ASCII they accept
  // the same strings.

  predicate LocalChar(c: char) {
    IsAsciiLetter(c) || IsDigit(c) || c in "._%+-"
  }

  predicate DomainChar(c: char) {
    IsAsciiLetter(c) || IsDigit(c) || c == '.' || c == '-'
  }

  /**
   * `s` splits as local "@" domain "." tld at the given '@' and '.' indices,
   * with a non-empty local part, a non-empty domain and a tld of two or
   * more letters.
   */
  predicate EmailSplitAt(s: string, at: int, dot: int) {
    && 1 <= at && at + 2 <= dot && dot + 3 <= |s|
    && s[at] == '@' && s[dot] == '.'
    && (forall i | 0 <= i < at :: LocalChar(s[i]))
    && (forall i | at < i < dot :: DomainChar(s[i]))
    && (forall i | dot < i < |s| :: IsAsciiLetter(s[i]))
  }

  /** The regular expression matches `s`: some split exists. */
  predicate IsEmailAddress(s: string) {
    exists at, dot | 0 <= at < |s| && 0 <= dot < |s| :: EmailSplitAt(s, at, dot)
  }

  /**
   * How a matcher decides the pattern without backtracking: no character
   * before the '@' nor in the tld can be '@' or '.' respectively, so the only
   * candidate split is at the first '@' and the last '.'.
   */
  predicate EmailByScan(s: string) {
    EmailSplitAt(s, FirstIndexOf(s, '@'), LastIndexOf(s, '.'))
  }

  lemma EmailByScanIsPattern(s: string)
    ensures EmailByScan(s) <==> IsEmailAddress(s)
  {
    var at, dot := FirstIndexOf(s, '@'), LastIndexOf(s, '.');
    if EmailByScan(s) {
      assert 0 <= at < |s| && 0 <= dot < |s| && EmailSplitAt(s, at, dot);
    }
    if IsEmailAddress(s) {
      var a, d :| 0 <= a < |s| && 0 <= d < |s| && EmailSplitAt(s, a, d);
      assert forall i | 0 <= i < a :: s[i] != '@';
      assert forall i | d < i < |s| :: s[i] != '.';
    }
  }

  lemma EmailAccepted()
    ensures IsEmailAddress("a@b.com")
  {
    assert EmailSplitAt("a@b.com", 1, 3);
  }

  lemma EmailRejectsShortTld()
    ensures !IsEmailAddress("a@b.c")
  {
    EmailByScanIsPattern("a@b.c");
    assert FirstIndexOf("a@b.c", '@') == 1;
  }

  lemma EmailRejectsMissingAt()
    ensures !IsEmailAddress("ab.com")
  {
    EmailByScanIsPattern("ab.com");
    assert FirstIndexOf("ab.com", '@') == 6;
  }

  lemma EmailRejectsEmptyDomain()
    ensures !IsEmailAddress("a@.com")
  {
    var s := "a@.com";
    EmailByScanIsPattern(s);
    assert s[2] == '.' && s[3] != '.' && s[4] != '.' && s[5] != '.';
    assert FirstIndexOf(s, '@') == 1 && LastIndexOf(s, '.') == 2;
  }

  /** An accepted address holds exactly one '@'. */
  lemma EmailHasOneAt(s: string, i: int)
    requires IsEmailAddress(s) && 0 <= i < |s| && s[i] == '@'
    ensures i == FirstIndexOf(s, '@')
  {
    EmailByScanIsPattern(s);
    var at, dot := FirstIndexOf(s, '@'), LastIndexOf(s, '.');
    assert forall j | at < j < dot :: s[j] != '@';
    assert forall j | dot < j < |s| :: s[j] != '@';
  }
}
