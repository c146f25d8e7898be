/**
 * The registration form: its three field checks, and the submission that
 * builds the new user's details and hands them to `Auth.Register` only when
 * the checks pass and a user type has been chosen.
 */
module RegisterForm {
  import opened Common
  import opened Time
  import opened Types
  import Storage
  import Auth

  /** The form's fields; the transport method defaults to walking. */
  datatype FormData = FormData(
    email: string,
    password: string,
    confirmPassword: string,
    name: string,
    phone: string,
    neighborhood: string,
    transportMethod: TransportMethod)

  /** One message per checked field; the empty text means no error. */
  datatype FormErrors = FormErrors(password: string, confirmPassword: string, email: string)

  datatype Validation = Validation(ok: bool, errors: FormErrors)

  const MinPasswordLength: int := 6
  const ShortPassword: string := "Password must be at least 6 characters"
  const PasswordMismatch: string := "Passwords do not match"
  const InvalidEmail: string := "Please enter a valid email"

  /**
   * `validateForm`: each check sets its own message independently of the
   * others, and the form is valid exactly when no message is set.
   */
  function ValidateForm(form: FormData): (r: Validation)
    ensures r.errors.password != "" <==> |form.password| < MinPasswordLength
    ensures r.errors.confirmPassword != "" <==> form.password != form.confirmPassword
    ensures r.errors.email != "" <==> '@' !in form.email
    ensures r.ok <==> r.errors == FormErrors("", "", "")
    ensures r.ok <==> |form.password| >= MinPasswordLength && form.password == form.confirmPassword && '@' in form.email
  {
    ContainsChar(form.email, '@');
    var errors := FormErrors(
      if |form.password| < MinPasswordLength then ShortPassword else "",
      if form.password != form.confirmPassword then PasswordMismatch else "",
      if !Contains(form.email, "@") then InvalidEmail else "");
    Validation(errors.password == "" && errors.confirmPassword == "" && errors.email == "", errors)
  }

  /** All three problems at once are all reported at once. */
  lemma ValidateFormReportsEveryProblem()
    ensures ValidateForm(FormData("nobody", "abc", "abd", "", "", "", Walking)).errors ==
            FormErrors(ShortPassword, PasswordMismatch, InvalidEmail)
  {
    ContainsChar("nobody", '@');
  }

  /** The details sent for registration; only a hero's carry a transport method. */
  function Draft(form: FormData, kind: UserType): (d: Storage.UserDraft)
    ensures d.kind == kind && d.email == form.email && d.password == form.password
    ensures d.name == form.name && d.phone == form.phone && d.neighborhood == form.neighborhood
    ensures d.transportMethod.Some? <==> kind == HeroType
    ensures d.transportMethod.Some? ==> d.transportMethod.value == form.transportMethod
  {
    Storage.UserDraft(kind, form.email, form.password, form.name, form.phone, form.neighborhood,
                      if kind == HeroType then Some(form.transportMethod) else None)
  }

  /** What a submission does: stops with the form's messages, or registers and reports where it leads. */
  datatype Submission =
    | Stopped(errors: FormErrors)
    | Submitted(errors: FormErrors, draft: Storage.UserDraft, result: Auth.AuthStep, redirect: Option<string>)

  /** The page a successful registration opens. */
  function Dashboard(kind: UserType): string
  {
    match kind
    case HeroType => "/hero/dashboard"
    case RequesterType => "/requester/dashboard"
  }

  /**
   * `handleSubmit`: registration runs only when the form is valid and a user
   * type is chosen; a successful one leads to that type's dashboard, a failed
   * one stays on the page.
   */
  function HandleSubmit(form: FormData, userType: Option<UserType>, state: Auth.AuthState, store: Storage.Store,
                        freshId: string, now: Timestamp): (r: Submission)
    ensures r.errors == ValidateForm(form).errors
    ensures r.Submitted? <==> ValidateForm(form).ok && userType.Some?
    ensures r.Submitted? ==>
              && r.draft == Draft(form, userType.value)
              && r.result == Auth.Register(state, store, r.draft, freshId, now)
              && (r.redirect.Some? <==> r.result.ok)
              && (r.redirect.Some? ==> r.redirect.value == Dashboard(userType.value))
  {
    var v := ValidateForm(form);
    if !v.ok || userType.None? then Stopped(v.errors)
    else
      var draft := Draft(form, userType.value);
      var result := Auth.Register(state, store, draft, freshId, now);
      Submitted(v.errors, draft, result, if result.ok then Some(Dashboard(userType.value)) else None)
  }

  /**
   * A user registered through the form has a password of at least six
   * characters, the chosen type, and, for a hero, the chosen transport method.
   */
  lemma SubmittedUserWellFormed(form: FormData, userType: Option<UserType>, state: Auth.AuthState, store: Storage.Store,
                                freshId: string, now: Timestamp)
    ensures var r := HandleSubmit(form, userType, state, store, freshId, now);
            r.Submitted? && r.result.ok ==>
              && |r.draft.password| >= MinPasswordLength
              && r.result.state.user.Some?
              && r.result.state.user.value.Kind() == userType.value
              && (r.result.state.user.value.Hero? ==> r.result.state.user.value.transportMethod == Some(form.transportMethod))
  {
  }
}
