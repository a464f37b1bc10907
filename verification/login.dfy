/** The login page: a form of email, password and "remember me"; a submit
    that succeeds exactly when both text fields are filled in, writes the
    session cookie and navigates to the dashboard. */
module Login {
  import opened Common
  import opened Text
  import Session

  datatype LoginForm = LoginForm(email: string, password: string, rememberMe: bool)

  /** `isLoading` is true while a submission is in flight. */
  datatype LoginPage = LoginPage(isLoading: bool, form: LoginForm)

  const Initial: LoginPage := LoginPage(false, LoginForm("", "", false))

  const DashboardPath: string := "/dashboard"

  /** The text inputs, by their `name` attribute. */
  datatype TextField = Email | Password

  /** `handleChange`: the input named `field` takes `value`; nothing else
      changes. */
  function HandleChange(p: LoginPage, field: TextField, value: string): (r: LoginPage)
    ensures r.isLoading == p.isLoading && r.form.rememberMe == p.form.rememberMe
    ensures r.form.email == (if field == Email then value else p.form.email)
    ensures r.form.password == (if field == Password then value else p.form.password)
  {
    match field
    case Email => p.(form := p.form.(email := value))
    case Password => p.(form := p.form.(password := value))
  }

  /** `handleCheckboxChange`: only `rememberMe` changes. */
  function HandleCheckboxChange(p: LoginPage, checked: bool): (r: LoginPage)
    ensures r.form.rememberMe == checked
    ensures r.form.email == p.form.email && r.form.password == p.form.password
    ensures r.isLoading == p.isLoading
  {
    p.(form := p.form.(rememberMe := checked))
  }

  const SecondsPerDay: nat := 60 * 60 * 24

  /** The session cookie lives thirty days with "remember me", one day
      without. */
  function MaxAge(rememberMe: bool): (seconds: nat)
    ensures seconds == (if rememberMe then 30 else 1) * SecondsPerDay
  {
    if rememberMe then 60 * 60 * 24 * 30 else 60 * 60 * 24
  }

  /** The string written to `document.cookie` on success. */
  function SessionCookie(rememberMe: bool): string {
    Session.LoginFlag + "; path=/; max-age=" + Decimal(MaxAge(rememberMe))
  }

  /** The submit button is enabled only while no submission is in flight. */
  predicate SubmitEnabled(p: LoginPage) {
    !p.isLoading
  }

  /** The credentials are accepted when both are non-empty strings. */
  predicate Accepted(form: LoginForm) {
    form.email != "" && form.password != ""
  }

  /** What a completed submission produced: the page, the cookie written
      (if any), the path navigated to (if any) and the toast raised. */
  datatype Outcome = Outcome(page: LoginPage, cookie: Option<string>, redirect: Option<string>, toast: Toast)

  /** The first half of `handleSubmit`, before the simulated delay. */
  function BeginSubmit(p: LoginPage): (r: LoginPage)
    ensures r.isLoading && r.form == p.form
  {
    p.(isLoading := true)
  }

  /** The second half of `handleSubmit`, after the simulated delay, on page
      state `p`. The handler closed over the form as it was when submitted,
      `submitted`, and decides on that, not on edits made while waiting. A
      success writes the session cookie, navigates to the dashboard and
      raises an informational toast; a failure writes nothing, navigates
      nowhere and raises a destructive toast. Loading ends either way and
      the form on the page is kept. */
  function FinishSubmit(p: LoginPage, submitted: LoginForm): (r: Outcome)
    ensures !r.page.isLoading && r.page.form == p.form
    ensures r.cookie.Some? <==> submitted.email != "" && submitted.password != ""
    ensures r.cookie.Some? ==> r.cookie.value == SessionCookie(submitted.rememberMe)
    ensures r.redirect.Some? <==> r.cookie.Some?
    ensures r.redirect.Some? ==> r.redirect.value == DashboardPath
    ensures r.toast.destructive <==> r.cookie.None?
    ensures r.toast.title == if r.cookie.Some? then "Login successful" else "Login failed"
  {
    var done := p.(isLoading := false);
    if Accepted(submitted) then
      Outcome(done, Some(SessionCookie(submitted.rememberMe)), Some(DashboardPath),
              Info("Login successful", "Welcome to your Strata Manager dashboard."))
    else
      Outcome(done, None, None,
              Error("Login failed", "Please check your credentials and try again."))
  }

  /** The whole handler, for a submission nothing interrupts. */
  function Submit(p: LoginPage): (r: Outcome)
    ensures !r.page.isLoading && r.page.form == p.form
    ensures r.cookie.Some? <==> p.form.email != "" && p.form.password != ""
    ensures r.cookie.Some? ==> r.cookie.value == SessionCookie(p.form.rememberMe)
    ensures r.redirect == (if r.cookie.Some? then Some(DashboardPath) else None)
    ensures r.toast.destructive <==> r.cookie.None?
  {
    FinishSubmit(BeginSubmit(p), p.form)
  }

  /** Typing into the form while a submission waits changes the form shown
      but not what the submission decides. */
  lemma EditsWhileWaitingIgnored(p: LoginPage, field: TextField, value: string)
    ensures var r := FinishSubmit(HandleChange(BeginSubmit(p), field, value), p.form);
      && r.cookie == Submit(p).cookie && r.redirect == Submit(p).redirect
      && r.page.form == HandleChange(p, field, value).form
  {
  }

  /** While a submission is in flight no second one can start; once it
      completes the button is enabled again. */
  lemma NoSubmitWhileInFlight(p: LoginPage)
    ensures !SubmitEnabled(BeginSubmit(p))
    ensures SubmitEnabled(Submit(p).page)
  {
  }

  /** The cookie written on success: `isLoggedIn=true`, a root path and a
      max-age of 2592000 seconds with "remember me", 86400 without. */
  lemma SessionCookieText(rememberMe: bool)
    ensures SessionCookie(rememberMe)
         == "isLoggedIn=true" + "; path=/; max-age=" + (if rememberMe then "2592000" else "86400")
  {
    ThirtyDaysDigits();
    OneDayDigits();
  }

  lemma ThirtyDaysDigits()
    ensures Decimal(2592000) == "2592000"
  {
    assert Decimal(259) == "259";
    assert Decimal(25920) == "25920";
  }

  lemma OneDayDigits()
    ensures Decimal(86400) == "86400"
  {
    assert Decimal(864) == "864";
  }

  /** The `name=value` pair a browser stores from a write to
      `document.cookie`: the text before the first `;`. */
  function StoredPair(write: string): string {
    Split(write, ';')[0]
  }

  /** The pair stored from the session cookie is the flag the guard looks
      for. */
  lemma SessionCookieStoresFlag(rememberMe: bool)
    ensures StoredPair(SessionCookie(rememberMe)) == Session.LoginFlag
  {
    var flag := Session.LoginFlag;
    var c := SessionCookie(rememberMe);
    Session.FlagAdmits();
    assert c[|flag|] == ';';
    var k := IndexOf(c, ';');
    assert c[..|flag|] == flag;
    assert k == |flag|;
  }

  /** A successful login admits the visitor on the next protected page,
      whatever other cookies the browser holds. */
  lemma LoginAdmitsVisitor(p: LoginPage, before: seq<string>, after: seq<string>)
    requires Accepted(p.form)
    requires Session.NoSemicolon(before) && Session.NoSemicolon(after)
    ensures Submit(p).cookie.Some?
    ensures Session.IsLoggedIn(Session.DocumentCookie(before + [StoredPair(Submit(p).cookie.value)] + after))
  {
    SessionCookieStoresFlag(p.form.rememberMe);
    Session.FlagPairAdmits(before, after);
  }
}
