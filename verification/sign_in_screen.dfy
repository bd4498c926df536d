/**
 * The form logic of `SignInScreen`: the remembered form state, which controls are
 * shown and enabled, and what each user action does to the form and which
 * callback it fires. Loading state and the error text come from the view model.
 */
module SignInScreen {
  import opened Wrappers
  import Text
  import AuthViewModel

  /** The five `remember`ed variables of the screen. */
  datatype Form = Form(email: string, password: string, signUpMode: bool, username: string, showResetPassword: bool)

  const InitialForm: Form := Form("", "", false, "", false)

  /** The user's actions: tab clicks, typing, and button clicks. */
  datatype Action =
    | SelectSignIn
    | SelectSignUp
    | EditEmail(email: string)
    | EditPassword(password: string)
    | EditUsername(username: string)
    | ForgotPassword
    | BackToSignIn
    | SendReset
    | Primary

  /** The callback an action fires, if any. */
  datatype Effect =
    | NoEffect
    | CallSignIn(email: string, password: string)
    | CallSignUp(email: string, password: string, username: string)
    | CallReset(email: string)

  /** The username field exists only in sign-up mode. */
  predicate UsernameVisible(f: Form) {
    f.signUpMode
  }

  /**
   * The error line above the form: the view model's `errorMessage` when it is
   * non-null, nothing otherwise.
   */
  function ErrorText(errorMessage: Option<string>): Option<string> {
    if errorMessage.Some? then Some(errorMessage.value) else None
  }

  /**
   * What the error line shows once an operation has finished: the mapped message
   * after a failure, the reset notice after a successful reset, and nothing after
   * a successful sign-in or sign-up. While the call is in flight it shows nothing.
   */
  lemma ErrorTextAfterRun(state: AuthViewModel.AuthState, op: AuthViewModel.Operation, outcome: Option<AuthViewModel.AuthException>)
    ensures var line := ErrorText(AuthViewModel.After(state, op, outcome).error);
            && (outcome.Some? ==> line == Some(AuthViewModel.ErrorMessage(outcome.value)))
            && (outcome.None? && op.ResetPassword? ==> line == Some(AuthViewModel.ResetNotice))
            && (outcome.None? && !op.ResetPassword? ==> line.None?)
    ensures ErrorText(AuthViewModel.Run(state, op, outcome)[1].error).None?
  {
  }

  /**
   * "Forgot Password?" is offered in sign-in mode while the reset panel is hidden,
   * so only next to the primary button and never with the username field.
   */
  predicate ForgotVisible(f: Form) {
    !f.signUpMode && !f.showResetPassword
  }

  /**
   * The reset panel ("Send Reset Email", "Back to Sign In") replaces the primary
   * button: exactly one of the two is shown.
   */
  predicate ResetPanelVisible(f: Form) {
    f.showResetPassword
  }

  predicate PrimaryVisible(f: Form) {
    !f.showResetPassword
  }

  /**
   * The primary button's `enabled`: not loading, email and password filled, and a
   * username when signing up; "filled" means something is left after trimming.
   */
  function PrimaryEnabled(f: Form, loading: bool): (enabled: bool)
    ensures enabled <==>
              && !loading
              && Text.Trim(f.email) != [] && Text.Trim(f.password) != []
              && (f.signUpMode ==> Text.Trim(f.username) != [])
  {
    !loading && !Text.IsBlank(f.email) && !Text.IsBlank(f.password) && (!f.signUpMode || !Text.IsBlank(f.username))
  }

  /** The reset button's `enabled`: not loading and an email that does not trim to nothing. */
  function ResetEnabled(f: Form, loading: bool): (enabled: bool)
    ensures enabled <==> !loading && Text.Trim(f.email) != []
  {
    !loading && !Text.IsBlank(f.email)
  }

  /** Whether an action can happen at all: its control is shown and enabled. */
  predicate Offered(f: Form, loading: bool, a: Action) {
    match a
    case SelectSignIn => true
    case SelectSignUp => true
    case EditEmail(_) => !loading
    case EditPassword(_) => !loading
    case EditUsername(_) => UsernameVisible(f) && !loading
    case ForgotPassword => ForgotVisible(f)
    case BackToSignIn => ResetPanelVisible(f)
    case SendReset => ResetPanelVisible(f) && ResetEnabled(f, loading)
    case Primary => PrimaryVisible(f) && PrimaryEnabled(f, loading)
  }

  /** The form after an action and the callback it fires. An action that is not offered does nothing. */
  datatype Outcome = Outcome(form: Form, effect: Effect)

  function Step(f: Form, loading: bool, a: Action): (r: Outcome)
    ensures !Offered(f, loading, a) ==> r == Outcome(f, NoEffect)
    ensures a.SelectSignIn? || a.SelectSignUp? ==>
              && r.form.signUpMode == a.SelectSignUp?
              && r.form.email == "" && r.form.password == "" && r.form.username == ""
              && r.form.showResetPassword == f.showResetPassword
              && r.effect == NoEffect
    ensures a.Primary? && Offered(f, loading, a) ==>
              && r.form == f
              && r.effect == (if f.signUpMode then CallSignUp(f.email, f.password, f.username) else CallSignIn(f.email, f.password))
    ensures a.SendReset? && Offered(f, loading, a) ==>
              r == Outcome(f.(showResetPassword := false), CallReset(f.email))
    ensures r.effect != NoEffect ==> a.Primary? || a.SendReset?
  {
    if !Offered(f, loading, a) then Outcome(f, NoEffect)
    else match a
      case SelectSignIn => Outcome(f.(signUpMode := false, email := "", password := "", username := ""), NoEffect)
      case SelectSignUp => Outcome(f.(signUpMode := true, email := "", password := "", username := ""), NoEffect)
      case EditEmail(s) => Outcome(f.(email := s), NoEffect)
      case EditPassword(s) => Outcome(f.(password := s), NoEffect)
      case EditUsername(s) => Outcome(f.(username := s), NoEffect)
      case ForgotPassword => Outcome(f.(showResetPassword := true), NoEffect)
      case BackToSignIn => Outcome(f.(showResetPassword := false), NoEffect)
      case SendReset =>
        if !Text.IsBlank(f.email) then Outcome(f.(showResetPassword := false), CallReset(f.email))
        else Outcome(f, NoEffect)
      case Primary =>
        if f.signUpMode then Outcome(f, CallSignUp(f.email, f.password, f.username))
        else Outcome(f, CallSignIn(f.email, f.password))
  }

  /** After switching tabs neither button can be pressed: the fields are empty again. */
  lemma ModeSwitchDisablesButtons(f: Form, loading: bool, a: Action, l: bool)
    requires a.SelectSignIn? || a.SelectSignUp?
    ensures !PrimaryEnabled(Step(f, loading, a).form, l)
    ensures !ResetEnabled(Step(f, loading, a).form, l)
  {
    assert Text.IsBlank("");
  }

  /** Every callback the screen fires carries the fields its button required to be filled. */
  lemma CallsCarryFilledFields(f: Form, loading: bool, a: Action)
    ensures match Step(f, loading, a).effect
            case NoEffect => true
            case CallSignIn(e, p) => !f.signUpMode && !Text.IsBlank(e) && !Text.IsBlank(p)
            case CallSignUp(e, p, u) => f.signUpMode && !Text.IsBlank(e) && !Text.IsBlank(p) && !Text.IsBlank(u)
            case CallReset(e) => !Text.IsBlank(e)
  {
  }

  /** While the view model is loading no callback fires. */
  lemma NothingFiresWhileLoading(f: Form, a: Action)
    ensures Step(f, true, a).effect == NoEffect
  {
  }

  /** Opening the reset panel and going back restores the form exactly. */
  lemma ForgotThenBack(f: Form, loading: bool)
    requires ForgotVisible(f)
    ensures var panel := Step(f, loading, ForgotPassword).form;
            ResetPanelVisible(panel) && Step(panel, loading, BackToSignIn).form == f
  {
  }
}
