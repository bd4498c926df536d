/**
 * `AuthViewModel`: the `(loading, error)` state the sign-in screen observes, driven
 * through each authentication operation, and the mapping from a failure to the
 * message shown. The outcome of the Firebase call is a parameter.
 */
module AuthViewModel {
  import opened Wrappers
  import Text

  /** The exception an authentication call ends with. */
  datatype AuthException =
    | ProviderError(code: string, message: Option<string>)   // a FirebaseAuthException with its error code
    | OtherError(message: Option<string>)                    // any other exception

  /** The fixed message of each provider error code the view model recognises. */
  const KnownMessages: map<string, string> := map[
    "ERROR_INVALID_EMAIL" := "Invalid email address",
    "ERROR_WRONG_PASSWORD" := "Wrong password",
    "ERROR_USER_NOT_FOUND" := "No account found with this email",
    "ERROR_EMAIL_ALREADY_IN_USE" := "Email already in use",
    "ERROR_WEAK_PASSWORD" := "Password is too weak",
    "ERROR_USER_DISABLED" := "Account disabled",
    "ERROR_TOO_MANY_REQUESTS" := "Too many attempts. Try again later"]

  const ProviderFallback: string := "Authentication failed"
  const GenericFallback: string := "An error occurred. Please try again."
  const ResetNotice: string := "Password reset email sent. Check your inbox."

  /** `getErrorMessage(exception)`. */
  function ErrorMessage(e: AuthException): (m: string)
    ensures e.ProviderError? && e.code in KnownMessages ==> m == KnownMessages[e.code]
    ensures e.ProviderError? && e.code !in KnownMessages ==> m == e.message.GetOr(ProviderFallback)
    ensures e.OtherError? ==> m == e.message.GetOr(GenericFallback)
  {
    match e
    case ProviderError(code, message) =>
      if code == "ERROR_INVALID_EMAIL" then "Invalid email address"
      else if code == "ERROR_WRONG_PASSWORD" then "Wrong password"
      else if code == "ERROR_USER_NOT_FOUND" then "No account found with this email"
      else if code == "ERROR_EMAIL_ALREADY_IN_USE" then "Email already in use"
      else if code == "ERROR_WEAK_PASSWORD" then "Password is too weak"
      else if code == "ERROR_USER_DISABLED" then "Account disabled"
      else if code == "ERROR_TOO_MANY_REQUESTS" then "Too many attempts. Try again later"
      else message.GetOr(ProviderFallback)
    case OtherError(message) => message.GetOr(GenericFallback)
  }

  /** No code's message is the reset notice or a fallback. */
  lemma KnownMessagesReserved(a: string)
    requires a in KnownMessages
    ensures KnownMessages[a] != ResetNotice
    ensures KnownMessages[a] != ProviderFallback && KnownMessages[a] != GenericFallback
  {
  }

  /** Without an exception message, every failure maps to a message that is not the reset notice. */
  lemma SilentFailureIsNotResetNotice(e: AuthException)
    requires e.message.None?
    ensures ErrorMessage(e) != ResetNotice
    ensures ErrorMessage(e) != ""
  {
    if e.ProviderError? && e.code in KnownMessages {
      KnownMessagesReserved(e.code);
    }
  }

  /** The four operations the view model launches, with the arguments the screen passes. */
  datatype Operation =
    | SignIn(email: string, password: string)
    | SignUp(email: string, password: string, username: string)
    | GoogleSignIn(idToken: string)
    | ResetPassword(email: string)

  /** True when `s` has no whitespace at either end. */
  predicate Trimmed(s: string) {
    s == [] || (!Text.IsWhitespace(s[0]) && !Text.IsWhitespace(s[|s| - 1]))
  }

  /**
   * The arguments that reach the repository: the email trimmed, the username
   * trimmed on sign-up, the password and the Google token as given.
   */
  function RepositoryCall(op: Operation): (r: Operation)
    ensures r.SignIn? == op.SignIn? && r.SignUp? == op.SignUp? && r.GoogleSignIn? == op.GoogleSignIn?
    ensures !op.GoogleSignIn? ==> Trimmed(r.email) && (r.email == [] <==> Text.IsBlank(op.email))
    ensures op.SignIn? || op.SignUp? ==> r.password == op.password
    ensures op.SignUp? ==> Trimmed(r.username) && (r.username == [] <==> Text.IsBlank(op.username))
    ensures op.GoogleSignIn? ==> r == op
    ensures op.SignIn? ==> r == SignIn(Text.Trim(op.email), op.password)
    ensures op.SignUp? ==> r == SignUp(Text.Trim(op.email), op.password, Text.Trim(op.username))
    ensures op.ResetPassword? ==> r == ResetPassword(Text.Trim(op.email))
  {
    match op
    case SignIn(email, password) => SignIn(Text.Trim(email), password)
    case SignUp(email, password, username) => SignUp(Text.Trim(email), password, Text.Trim(username))
    case GoogleSignIn(_) => op
    case ResetPassword(email) => ResetPassword(Text.Trim(email))
  }

  /** Trimming the arguments twice is trimming them once. */
  lemma RepositoryCallIdempotent(op: Operation)
    ensures RepositoryCall(RepositoryCall(op)) == RepositoryCall(op)
  {
    match op
    case SignIn(email, _) => Text.TrimOfTrimmed(Text.Trim(email));
    case SignUp(email, _, username) =>
      Text.TrimOfTrimmed(Text.Trim(email));
      Text.TrimOfTrimmed(Text.Trim(username));
    case GoogleSignIn(_) =>
    case ResetPassword(email) => Text.TrimOfTrimmed(Text.Trim(email));
  }

  /** The two state flows the screen collects. */
  datatype AuthState = AuthState(loading: bool, error: Option<string>)

  const Initial: AuthState := AuthState(false, None)

  /**
   * The states one operation passes through, in order: `error` cleared, `loading`
   * set, then the `error` the operation ends with (for a failure or a successful
   * reset), and `loading` cleared in the `finally` block. `outcome` is the
   * exception the repository call threw, if any.
   */
  function Run(state: AuthState, op: Operation, outcome: Option<AuthException>): (trace: seq<AuthState>)
    ensures 3 <= |trace| <= 4
    ensures trace[0] == state.(error := None)
    ensures trace[1] == AuthState(true, None)
    ensures forall i :: 1 <= i < |trace| - 1 ==> trace[i].loading
    ensures !trace[|trace| - 1].loading
    ensures outcome.Some? ==> trace[|trace| - 1].error == Some(ErrorMessage(outcome.value))
    ensures outcome.None? && op.ResetPassword? ==> trace[|trace| - 1].error == Some(ResetNotice)
    ensures outcome.None? && !op.ResetPassword? ==> trace[|trace| - 1].error == None
  {
    var cleared := state.(error := None);
    var started := AuthState(true, None);
    var error :=
      match outcome
      case Some(e) => Some(ErrorMessage(e))
      case None => if op.ResetPassword? then Some(ResetNotice) else None;
    if error.None? then [cleared, started, AuthState(false, None)]
    else [cleared, started, AuthState(true, error), AuthState(false, error)]
  }

  /** The state an operation leaves behind. */
  function After(state: AuthState, op: Operation, outcome: Option<AuthException>): AuthState {
    var trace := Run(state, op, outcome);
    trace[|trace| - 1]
  }

  /** What an operation leaves behind does not depend on the state it started from. */
  lemma RunForgetsState(s1: AuthState, s2: AuthState, op: Operation, outcome: Option<AuthException>)
    ensures After(s1, op, outcome) == After(s2, op, outcome)
  {
  }

  /** Sign-in, sign-up and Google sign-in with the same outcome end in the same state. */
  lemma SignInKindsAgree(state: AuthState, a: Operation, b: Operation, outcome: Option<AuthException>)
    requires !a.ResetPassword? && !b.ResetPassword?
    ensures After(state, a, outcome) == After(state, b, outcome)
  {
  }

  /** `clearError()`: `error` becomes null, nothing else changes. */
  function ClearError(state: AuthState): (r: AuthState)
    ensures r.error.None?
    ensures r.loading == state.loading
  {
    state.(error := None)
  }

  /** Clearing the error after any operation returns to the initial state. */
  lemma ClearAfterRun(state: AuthState, op: Operation, outcome: Option<AuthException>)
    ensures ClearError(After(state, op, outcome)) == Initial
  {
  }
}
