/** The app shell's initial authentication check and its page routing. */
module Routing {

  /** The five screens the shell can show. */
  datatype View = AuthView | EmailVerificationView | DashboardView | SavedArticlesView | PreferencesView

  datatype Shell = Shell(loggedIn: bool, page: string)

  /** The authentication check on start-up: an authenticated session lands on the
      dashboard, anything else on the home page logged out. */
  function InitialShell(authenticated: bool): (s: Shell)
    ensures s.loggedIn == authenticated
    ensures authenticated ==> s.page == "dashboard"
    ensures !authenticated ==> s.page == "home"
  {
    if authenticated then Shell(true, "dashboard") else Shell(false, "home")
  }

  /** `renderPage`: every (logged-in flag, page) pair yields exactly one view. Logged out,
      only "verify-email" leaves the sign-in screen; logged in, only "saved" and
      "preferences" leave the dashboard. */
  function RenderPage(loggedIn: bool, page: string): (v: View)
    ensures v == EmailVerificationView <==> !loggedIn && page == "verify-email"
    ensures v == AuthView <==> !loggedIn && page != "verify-email"
    ensures v == SavedArticlesView <==> loggedIn && page == "saved"
    ensures v == PreferencesView <==> loggedIn && page == "preferences"
    ensures v == DashboardView <==> loggedIn && page != "saved" && page != "preferences"
  {
    if !loggedIn then
      if page == "verify-email" then EmailVerificationView else AuthView
    else if page == "home" then DashboardView
    else if page == "saved" then SavedArticlesView
    else if page == "preferences" then PreferencesView
    else if page == "dashboard" then DashboardView
    else DashboardView
  }

  /** The first screen after start-up: the dashboard when authenticated, the sign-in screen otherwise. */
  lemma InitialView(authenticated: bool)
    ensures var s := InitialShell(authenticated);
            RenderPage(s.loggedIn, s.page) == if authenticated then DashboardView else AuthView
  {
  }
}
