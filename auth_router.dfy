/**
 * The sign-up and sign-in endpoints of the backend: input validation, and the
 * classification of what the authentication service and the profile table
 * report into an HTTP status and a detail message. The service calls are not
 * made here: their outcomes are inputs.
 */
module AuthRouter {
  import opened Strings

  const PasswordTooShort := "Password must be at least 6 characters"
  const UsernameLength := "Username must be 3-20 characters"
  const EmailExists := "This email address already exists"
  const UsernameTaken := "This username is already taken"
  const ProfileFailedPrefix := "Failed to create profile: "
  const InvalidEmail := "Invalid email format"
  const PasswordWeak := "Password is too weak"
  const SignupFailed := "Signup failed. Please try again"
  const SignupSucceeded := "User created successfully"
  const InvalidCredentials := "Invalid email or password"

  /** How `supabase.auth.sign_up` ended: it raised with a message, or answered without or with a user. */
  datatype AuthSignUp = AuthRaised(message: string) | NoUser | CreatedUser(userId: string)

  /** How the insert into `profiles` ended. */
  datatype ProfileInsert = Inserted | InsertRaised(message: string)

  /** How `supabase.auth.sign_in_with_password` ended. */
  datatype AuthSignIn = SignInRaised | NoSession | Session(accessToken: string)

  /** The endpoint's answer: a success body, or an `HTTPException` with its status and detail. */
  datatype Response = Success(message: string) | HttpError(status: int, detail: string)

  /** The message of the `HTTPException` raised for an error from the profile insert. */
  function ProfileErrorDetail(message: string): (r: string)
    ensures r == UsernameTaken <==> Contains(message, "duplicate key") || Contains(message, "profiles_username_key")
    ensures r != UsernameTaken ==> Contains(r, message)
  {
    if Contains(message, "duplicate key") || Contains(message, "profiles_username_key") then UsernameTaken
    else
      var r := ProfileFailedPrefix + message;
      assert r[0] != UsernameTaken[0];
      assert message <= r[|ProfileFailedPrefix|..];
      r
  }

  /** The detail for an exception from the sign-up call, matched on its lower-cased text in priority order. */
  function ClassifySignUpError(message: string): (r: string)
    ensures r == EmailExists || r == InvalidEmail || r == PasswordWeak || r == SignupFailed
  {
    var e := Lower(message);
    if Contains(e, "user already registered") || Contains(e, "already been registered") then EmailExists
    else if Contains(e, "invalid email") then InvalidEmail
    else if Contains(e, "password") && (Contains(e, "weak") || Contains(e, "short")) then PasswordWeak
    else SignupFailed
  }

  /** `sign_up`: validation, the sign-up call, the profile insert, and error classification. */
  function SignUp(password: string, username: string, auth: AuthSignUp, insert: ProfileInsert): (r: Response)
    ensures r.HttpError? ==> r.status == 400
    ensures r.Success? <==> |password| >= 6 && 3 <= |username| <= 20 && auth.CreatedUser? && insert.Inserted?
    ensures |password| >= 6 && 3 <= |username| <= 20 && auth.AuthRaised? ==>
              r == HttpError(400, ClassifySignUpError(auth.message))
  {
    if |password| < 6 then HttpError(400, PasswordTooShort)
    else if |username| < 3 || |username| > 20 then HttpError(400, UsernameLength)
    else match auth
      case AuthRaised(m) => HttpError(400, ClassifySignUpError(m))
      case NoUser => HttpError(400, EmailExists)
      case CreatedUser(_) =>
        match insert
        case Inserted => Success(SignupSucceeded)
        case InsertRaised(m) => HttpError(400, ProfileErrorDetail(m))
  }

  /** `sign_in`: every failure, raised or a missing session, becomes the same 401. */
  function SignIn(auth: AuthSignIn): (r: Response)
    ensures auth.Session? ==> r == Success(auth.accessToken)
    ensures !auth.Session? ==> r == HttpError(401, InvalidCredentials)
  {
    match auth
    case Session(token) => Success(token)
    case _ => HttpError(401, InvalidCredentials)
  }

  /** A short password is refused before the username, or either service, is looked at. */
  lemma ShortPasswordFirst(password: string, username: string, auth: AuthSignUp, insert: ProfileInsert)
    requires |password| < 6
    ensures SignUp(password, username, auth, insert) == HttpError(400, PasswordTooShort)
  {
  }

  /** With an acceptable password, a username of fewer than 3 or more than 20 characters is refused before any service call. */
  lemma UsernameOutOfRange(password: string, username: string, auth: AuthSignUp, insert: ProfileInsert)
    requires |password| >= 6 && (|username| < 3 || |username| > 20)
    ensures SignUp(password, username, auth, insert) == HttpError(400, UsernameLength)
  {
  }

  /** Valid input whose sign-up answer has no user reports an existing address. */
  lemma NoUserMeansEmailExists(password: string, username: string, insert: ProfileInsert)
    requires |password| >= 6 && 3 <= |username| <= 20
    ensures SignUp(password, username, NoUser, insert) == HttpError(400, EmailExists)
  {
  }

  /**
   * The exceptions raised inside the try block pass through unchanged: a profile
   * error is never re-classified, even when its text would match a rule of the
   * outer classifier.
   */
  lemma ProfileErrorsNotReclassified(password: string, username: string, id: string, m: string)
    requires |password| >= 6 && 3 <= |username| <= 20
    ensures SignUp(password, username, CreatedUser(id), InsertRaised(m)) ==
      if Contains(m, "duplicate key") || Contains(m, "profiles_username_key") then HttpError(400, UsernameTaken)
      else HttpError(400, ProfileFailedPrefix + m)
  {
  }

  /** Upper- or lower-case letters in the service's message do not change the classification. */
  lemma ClassificationIgnoresCase(m1: string, m2: string)
    requires Lower(m1) == Lower(m2)
    ensures ClassifySignUpError(m1) == ClassifySignUpError(m2)
  {
  }

  /** The classifier's rules in priority order: each fires only when all earlier ones do not. */
  lemma ClassificationPriority(m: string)
    ensures var e := Lower(m);
      var registered := Contains(e, "user already registered") || Contains(e, "already been registered");
      var badEmail := Contains(e, "invalid email");
      var weak := Contains(e, "password") && (Contains(e, "weak") || Contains(e, "short"));
      && (ClassifySignUpError(m) == EmailExists <==> registered)
      && (ClassifySignUpError(m) == InvalidEmail <==> !registered && badEmail)
      && (ClassifySignUpError(m) == PasswordWeak <==> !registered && !badEmail && weak)
      && (ClassifySignUpError(m) == SignupFailed <==> !registered && !badEmail && !weak)
  {
  }

  /** A profile whose insert failed on a duplicate key is reported as a taken username. */
  lemma DuplicateUsernameReported(m: string)
    requires Contains(m, "duplicate key") || Contains(m, "profiles_username_key")
    ensures ProfileErrorDetail(m) == UsernameTaken
  {
  }

  /** Any other insert failure carries the service's message after a fixed prefix. */
  lemma OtherProfileErrorKeepsMessage(m: string)
    requires !Contains(m, "duplicate key") && !Contains(m, "profiles_username_key")
    ensures var d := ProfileErrorDetail(m);
      |d| == |ProfileFailedPrefix| + |m| && d[..|ProfileFailedPrefix|] == ProfileFailedPrefix && d[|ProfileFailedPrefix|..] == m
  {
  }
}
