/**
 * The submit handler of the two account-creation pages: a password-length gate
 * in front of the sign-up call, and the chain that turns the message of a
 * failed sign-up into the text shown on the form. Both pages carry the same
 * handler, so one model serves both.
 */
module SignupPage {
  import opened Wrappers
  import opened Strings

  const PasswordTooShort := "Password must be at least 6 characters"
  const AlreadyExists := "Username or email already exists"
  const InvalidCredentials := "Invalid email or password"
  const AuthenticationFailed := "Authentication failed"

  /** How the awaited `signUp` call ended: normally, or by throwing an error whose `message` may be missing. */
  datatype SignUpOutcome = Succeeded | Threw(message: Option<string>)

  /** The message shown for an error thrown by `signUp`; `None` is a missing `message`. */
  function ErrorMessage(message: Option<string>): (r: string)
    ensures r != ""
  {
    match message
    case None => AuthenticationFailed
    case Some(m) =>
      if Contains(m, "duplicate key") then AlreadyExists
      else if Contains(m, "already exists") then m
      else if Contains(m, "already taken") then m
      else if Contains(m, "Invalid login credentials") then InvalidCredentials
      else if Contains(m, "Invalid email") then InvalidCredentials
      else if Contains(m, "Password") then m
      else if m != "" then m
      else AuthenticationFailed
  }

  /** What one submit does: the values passed to `setError`, in order, and whether `signUp` was called. */
  datatype Submit = Submit(errorUpdates: seq<string>, calledSignUp: bool)

  /** `handleSubmit`; `outcome` is what `signUp` does when it is called. */
  function HandleSubmit(password: string, outcome: SignUpOutcome): (r: Submit)
    ensures |r.errorUpdates| > 0 && r.errorUpdates[0] == ""
    ensures r.calledSignUp <==> Utf16Length(password) >= 6
    ensures Utf16Length(password) < 6 ==> r.errorUpdates == ["", PasswordTooShort]
    ensures Utf16Length(password) >= 6 && outcome.Succeeded? ==> r.errorUpdates == [""]
    ensures Utf16Length(password) >= 6 && outcome.Threw? ==> r.errorUpdates == ["", ErrorMessage(outcome.message)]
  {
    if Utf16Length(password) < 6 then Submit(["", PasswordTooShort], false)
    else match outcome
      case Succeeded => Submit([""], true)
      case Threw(message) => Submit(["", ErrorMessage(message)], true)
  }

  /** The error left on the form after a submit. */
  function ShownError(s: Submit): string
    requires |s.errorUpdates| > 0
  {
    s.errorUpdates[|s.errorUpdates| - 1]
  }

  /** A message mentioning a duplicate key is reported as an existing account, whatever else it says. */
  lemma DuplicateKeyWins(m: string)
    requires Contains(m, "duplicate key")
    ensures ErrorMessage(Some(m)) == AlreadyExists
  {
  }

  /** Either credential text (matched case-sensitively) is reported as bad credentials unless an earlier rule fires. */
  lemma InvalidCredentialsRule(m: string)
    requires !Contains(m, "duplicate key") && !Contains(m, "already exists") && !Contains(m, "already taken")
    requires Contains(m, "Invalid login credentials") || Contains(m, "Invalid email")
    ensures ErrorMessage(Some(m)) == InvalidCredentials
  {
  }

  /** A non-empty message that hits no rewriting rule is shown unchanged; a missing or empty one gives the generic text. */
  lemma PassThroughRule(m: string)
    requires !Contains(m, "duplicate key") && !Contains(m, "Invalid login credentials") && !Contains(m, "Invalid email")
    ensures m != "" ==> ErrorMessage(Some(m)) == m
    ensures m == "" ==> ErrorMessage(Some(m)) == AuthenticationFailed
    ensures ErrorMessage(None) == AuthenticationFailed
  {
  }

  /** The shown error is always the message itself or one of the three fixed texts. */
  lemma ErrorMessageRange(message: Option<string>)
    ensures var r := ErrorMessage(message);
      (message.Some? && r == message.value) || r == AlreadyExists || r == InvalidCredentials || r == AuthenticationFailed
  {
  }

  /** A short password is refused on the page itself: signUp is never called and the length error is shown. */
  lemma ShortPasswordNeverCallsSignUp(password: string, outcome: SignUpOutcome)
    requires Utf16Length(password) < 6
    ensures !HandleSubmit(password, outcome).calledSignUp
    ensures ShownError(HandleSubmit(password, outcome)) == PasswordTooShort
  {
  }

  /**
   * The length gate counts UTF-16 code units: three emoji outside the Basic
   * Multilingual Plane are six units, long enough to reach `signUp`.
   */
  lemma AstralPasswordReachesSignUp()
    ensures |"\U{1F600}\U{1F600}\U{1F600}"| == 3
    ensures HandleSubmit("\U{1F600}\U{1F600}\U{1F600}", Succeeded).calledSignUp
  {
    var p := "\U{1F600}\U{1F600}\U{1F600}";
    assert p[..2][..1] == p[..1] && p[..1][..0] == [];
    assert Utf16Length(p[..1]) == 2;
    assert Utf16Length(p[..2]) == 4;
  }

  /** A submit that succeeds leaves no error, even when an earlier submit had shown one. */
  lemma SuccessClearsError(password: string)
    requires Utf16Length(password) >= 6
    ensures ShownError(HandleSubmit(password, Succeeded)) == ""
  {
  }
}
