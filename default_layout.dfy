/**
 * The page frame: the navigation bar shows the user's initials when logged in
 * and a "Login" link otherwise; the link opens the sign-in modal.
 */
module DefaultLayout {
  import opened Text

  /** `s.charAt(0)`: the first character, or "" for an empty string. */
  function FirstChar(s: string): (r: string)
    ensures |r| <= 1
    ensures r == "" <==> s == ""
    ensures r != "" ==> r[0] == s[0]
  {
    if s == "" then "" else [s[0]]
  }

  /** `getInitials`: the two first letters, upper-cased. */
  function Initials(firstName: string, lastName: string): (r: string)
    ensures |r| == |FirstChar(firstName)| + |FirstChar(lastName)| && |r| <= 2
    ensures firstName != "" ==> r[0] == UpperChar(firstName[0])
    ensures lastName != "" ==> r[|r| - 1] == UpperChar(lastName[0])
    ensures firstName == "" && lastName == "" ==> r == ""
  {
    ToUpper(FirstChar(firstName) + FirstChar(lastName))
  }

  lemma InitialsExamples()
    ensures Initials("John", "Doe") == "JD"
    ensures Initials("ada", "") == "A"
  {
    assert Initials("John", "Doe")[0] == 'J' && Initials("John", "Doe")[1] == 'D';
    assert Initials("ada", "")[0] == 'A';
  }

  /** Upper-casing the initials again changes nothing. */
  lemma InitialsAreUpperCase(firstName: string, lastName: string)
    ensures ToUpper(Initials(firstName, lastName)) == Initials(firstName, lastName)
  {
    var r := Initials(firstName, lastName);
    forall i | 0 <= i < |r| ensures UpperChar(r[i]) == r[i] {
      var c := (FirstChar(firstName) + FirstChar(lastName))[i];
      if 'a' <= c <= 'z' {
        assert UpperChar(c) as int == c as int - 32;
      }
    }
  }

  /** What the right end of the navigation bar shows. */
  datatype Account = Avatar(initials: string) | LoginLink

  datatype User = User(isLoggedIn: bool, firstName: string, lastName: string)

  const MockUser := User(false, "John", "Doe")

  function AccountArea(user: User): (a: Account)
    ensures a.Avatar? <==> user.isLoggedIn
    ensures a.Avatar? ==> a.initials == Initials(user.firstName, user.lastName)
  {
    if user.isLoggedIn then Avatar(Initials(user.firstName, user.lastName)) else LoginLink
  }

  /** The layout's one piece of state: whether the sign-in modal is open. */
  datatype Layout = Layout(show: bool)

  const InitialLayout := Layout(false)

  /** `handleOpenLogin`, the "Login" link's handler. */
  function OpenLogin(l: Layout): (r: Layout)
    ensures LoginRendered(r)
  {
    Layout(true)
  }

  /** The sign-in modal's close, wired to the layout's flag. */
  function CloseLogin(l: Layout): (r: Layout)
    ensures !LoginRendered(r)
  {
    Layout(false)
  }

  /** The sign-in modal is in the tree exactly while the flag is set. */
  predicate LoginRendered(l: Layout) {
    l.show
  }

  /** The page starts with the modal closed; the link opens it and closing returns to the start. */
  lemma LoginModalFlow()
    ensures !LoginRendered(InitialLayout)
    ensures CloseLogin(OpenLogin(InitialLayout)) == InitialLayout
    ensures AccountArea(MockUser) == LoginLink
  {
  }
}
