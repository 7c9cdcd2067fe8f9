/** The sign-in / sign-up form: field validation before any request, the
    message shown for a failed request, and the mode toggle. */
module LoginForm {
  import opened Common
  import opened Text
  import opened Users

  datatype Field = EmailField | PasswordField | NameField

  const EmailRequired := "Email is required"
  const EmailInvalid := "Enter a valid email"
  const PasswordRequired := "Password is required"
  const PasswordTooShort := "Password must be at least 6 characters"
  const NameRequired := "Name is required"
  const MinPasswordLength := 6

  const NetworkError := "Network error: Unable to connect to server. Please check if the backend is running."
  const AlreadyRegistered := "This email is already registered. Please sign in instead."
  const InvalidInput := "Invalid input. Please check your details."
  const RegistrationFailed := "Registration failed. Please try again."
  const ServerError := "Server error. Please try again later."
  const LoginFailed := "Login failed. Please check your credentials."
  /** The sign-in form's own fallback for a 400; the route's message
      reads "Email and password required". */
  const CredentialsRequired := "Email and password are required"

  // ---------------------------------------------------------------------
  // /^\S+@\S+\.\S+$/

  /** What the pattern accepts: no whitespace anywhere, an `@` after at
      least one character, and a later `.` with at least one character
      between them and at least one after it. */
  ghost predicate EmailShape(s: string) {
    && HasNoSpace(s)
    && exists i, j :: 1 <= i && i + 2 <= j <= |s| - 2 && s[i] == '@' && s[j] == '.'
  }

  /** The first position at or after `k` holding `c`. */
  function FirstCharFrom(s: string, c: char, k: nat): (r: Option<nat>)
    requires k <= |s|
    ensures r.Some? ==> k <= r.value < |s| && s[r.value] == c
    ensures r.Some? ==> forall m :: k <= m < r.value ==> s[m] != c
    ensures r.None? ==> forall m :: k <= m < |s| ==> s[m] != c
    decreases |s| - k
  {
    if k == |s| then None
    else if s[k] == c then Some(k)
    else FirstCharFrom(s, c, k + 1)
  }

  /** The last position before `n` holding `c`. */
  function LastCharBefore(s: string, c: char, n: nat): (r: Option<nat>)
    requires n <= |s|
    ensures r.Some? ==> r.value < n && s[r.value] == c
    ensures r.Some? ==> forall m :: r.value < m < n ==> s[m] != c
    ensures r.None? ==> forall m :: 0 <= m < n ==> s[m] != c
  {
    if n == 0 then None
    else if s[n - 1] == c then Some(n - 1)
    else LastCharBefore(s, c, n - 1)
  }

  /** The pattern test, decided by the earliest usable `@` and the latest
      usable `.`. */
  function LooksLikeEmail(s: string): bool {
    && HasNoSpace(s)
    && |s| >= 5
    && match (FirstCharFrom(s, '@', 1), LastCharBefore(s, '.', |s| - 1))
       case (Some(i), Some(j)) => i + 2 <= j
       case _ => false
  }

  /** The decision procedure accepts exactly the strings of the pattern's
      shape. */
  lemma LooksLikeEmailIsShape(s: string)
    ensures LooksLikeEmail(s) <==> EmailShape(s)
  {
    if LooksLikeEmail(s) {
      var i := FirstCharFrom(s, '@', 1).value;
      var j := LastCharBefore(s, '.', |s| - 1).value;
      assert 1 <= i && i + 2 <= j <= |s| - 2 && s[i] == '@' && s[j] == '.';
    }
    if EmailShape(s) {
      var i0, j0 :| 1 <= i0 && i0 + 2 <= j0 <= |s| - 2 && s[i0] == '@' && s[j0] == '.';
      var at := FirstCharFrom(s, '@', 1);
      var dot := LastCharBefore(s, '.', |s| - 1);
      assert at.Some? && at.value <= i0;
      assert dot.Some? && dot.value >= j0;
    }
  }

  // ---------------------------------------------------------------------
  // Error messages

  /** A failed request as the client sees it: no response at all, or a
      status with the body's `error` ("" when absent). */
  datatype RequestError = NoResponse | Answered(status: nat, error: string)

  /** `err.response?.data?.error || fallback`. */
  function ErrorOr(error: string, fallback: string): string {
    if error != "" then error else fallback
  }

  /** The message the form shows for a failed request. */
  function ErrorMessage(isSignUp: bool, f: RequestError): (m: string)
    ensures f.NoResponse? ==> m == NetworkError
    ensures f.Answered? && isSignUp && f.status == 409 ==> m == AlreadyRegistered
    ensures f.Answered? && !isSignUp && f.status == 401 ==> m == InvalidCredentials
    ensures f.Answered? && !isSignUp && f.status == 500 ==> m == ServerError
    ensures f.Answered? && f.error != "" && (isSignUp ==> f.status != 409) && (!isSignUp ==> f.status != 401 && f.status != 500) ==>
      m == f.error
    ensures f.Answered? && f.error == "" && f.status == 400 ==> m == if isSignUp then InvalidInput else CredentialsRequired
    ensures f.Answered? && f.error == "" && f.status != 400 && (isSignUp ==> f.status != 409) && (!isSignUp ==> f.status != 401 && f.status != 500) ==>
      m == if isSignUp then RegistrationFailed else LoginFailed
    ensures m != ""
  {
    match f
    case NoResponse => NetworkError
    case Answered(status, error) =>
      if isSignUp then
        if status == 409 then AlreadyRegistered
        else if status == 400 then ErrorOr(error, InvalidInput)
        else ErrorOr(error, RegistrationFailed)
      else
        if status == 401 then InvalidCredentials
        else if status == 400 then ErrorOr(error, CredentialsRequired)
        else if status == 500 then ServerError
        else ErrorOr(error, LoginFailed)
  }

  /** Whatever the login route refuses, the sign-in form shows the route's
      own message: the shared 401 text, or the 400 text. */
  lemma SignInShowsLoginError(users: seq<User>, email: string, password: string, now: Time)
    requires Login(users, email, password, now).Failure?
    ensures var r := Login(users, email, password, now);
      ErrorMessage(false, Answered(r.status, r.error)) == r.error
  {
  }

  // ---------------------------------------------------------------------
  // The form

  /** What a valid submit sends: sign-up registers, then logs in. */
  datatype AuthRequest =
    | SignIn(email: string, password: string)
    | RegisterThenSignIn(email: string, password: string, name: string)

  class LoginFormState {
    var isSignUp: bool
    var email: string
    var password: string
    var name: string
    var error: string
    var fieldErrors: map<Field, string>

    constructor (initialEmail: string)
      ensures !isSignUp && email == initialEmail && password == "" && name == ""
      ensures error == "" && fieldErrors == map[]
    {
      isSignUp := false;
      email := initialEmail;
      password := "";
      name := "";
      error := "";
      fieldErrors := map[];
    }

    /** `submit`: the error is cleared, the field errors are rebuilt one
        field at a time, and a request goes out only when there are none. */
    method Submit() returns (request: Option<AuthRequest>)
      modifies this
      ensures error == ""
      ensures EmailField in fieldErrors <==> email == "" || !LooksLikeEmail(email)
      ensures EmailField in fieldErrors ==> fieldErrors[EmailField] == if email == "" then EmailRequired else EmailInvalid
      ensures PasswordField in fieldErrors <==> |password| < MinPasswordLength
      ensures PasswordField in fieldErrors ==>
        fieldErrors[PasswordField] == if password == "" then PasswordRequired else PasswordTooShort
      ensures NameField in fieldErrors <==> isSignUp && name == ""
      ensures NameField in fieldErrors ==> fieldErrors[NameField] == NameRequired
      ensures request.Some? <==> fieldErrors == map[]
      ensures request.Some? ==>
        request.value == if isSignUp then RegisterThenSignIn(email, password, name) else SignIn(email, password)
      ensures isSignUp == old(isSignUp) && email == old(email) && password == old(password) && name == old(name)
    {
      error := "";
      var errs: map<Field, string> := map[];
      if email == "" {
        errs := errs[EmailField := EmailRequired];
      } else if !LooksLikeEmail(email) {
        errs := errs[EmailField := EmailInvalid];
      }
      if password == "" {
        errs := errs[PasswordField := PasswordRequired];
      } else if |password| < MinPasswordLength {
        errs := errs[PasswordField := PasswordTooShort];
      }
      if isSignUp && name == "" {
        errs := errs[NameField := NameRequired];
      }
      fieldErrors := errs;
      if |errs| > 0 {
        return None;
      }
      assert EmailField !in errs && PasswordField !in errs && NameField !in errs;
      assert errs == map[];
      request := Some(if isSignUp then RegisterThenSignIn(email, password, name) else SignIn(email, password));
    }

    /** The `catch` of `submit`: show the message for the failure. */
    method Failed(f: RequestError)
      modifies this
      ensures error == ErrorMessage(isSignUp, f)
      ensures isSignUp == old(isSignUp) && fieldErrors == old(fieldErrors)
      ensures email == old(email) && password == old(password) && name == old(name)
    {
      var message := ErrorMessage(isSignUp, f);
      error := message;
    }

    /** The sign-in / sign-up toggle: switches mode and clears both the
        error and the field errors. */
    method ToggleMode()
      modifies this
      ensures isSignUp == !old(isSignUp) && error == "" && fieldErrors == map[]
      ensures email == old(email) && password == old(password) && name == old(name)
    {
      isSignUp := !isSignUp;
      error := "";
      fieldErrors := map[];
    }
  }

  /** A form that passes validation never trips the routes' missing
      credentials check: the login and register routes get both fields. */
  lemma ValidFormHasCredentials(email: string, password: string)
    requires email != "" && LooksLikeEmail(email) && |password| >= MinPasswordLength
    ensures forall users: seq<User>, now: Time :: Login(users, email, password, now) != Failure(400, MissingCredentials)
  {
  }
}
