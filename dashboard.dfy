/**
 * The dashboard entry page (app/dashboard/page.tsx): an effect that sends
 * the visitor to the sign-in page or to the dashboard of their role, and a
 * render that shows a spinner while the session loads and nothing otherwise.
 * The session is the `useAuth` state: the user's client-side role, whether
 * the visitor is authenticated, and whether loading is still going on.
 */
module Dashboard {
  import opened Wrappers

  const AuthPath := "/auth"
  const TeacherPath := "/dashboard/teacher"
  const StudentPath := "/dashboard/student"

  /** The path the effect pushes, if any; `role` is the user's role when there is a user. */
  function Redirect(role: Option<string>, isAuthenticated: bool, loading: bool): (target: Option<string>)
    ensures !loading && !isAuthenticated ==> target == Some(AuthPath)
    ensures isAuthenticated && role.Some? ==> target == Some(if role.value == "teacher" then TeacherPath else StudentPath)
    ensures target.None? <==> (loading || isAuthenticated) && !(isAuthenticated && role.Some?)
    ensures target.Some? ==> target.value in {AuthPath, TeacherPath, StudentPath}
  {
    if !loading && !isAuthenticated then Some(AuthPath)
    else if role.Some? && isAuthenticated then Some(if role.value == "teacher" then TeacherPath else StudentPath)
    else None
  }

  datatype Screen = Spinner | Blank

  /** The render: the spinner while loading, else `null`. */
  function Render(loading: bool): (s: Screen)
    ensures s == Spinner <==> loading
  {
    if loading then Spinner else Blank
  }

  /**
   * Only the exact role "teacher" reaches the teacher dashboard: any other
   * authenticated role, the server's upper-case "TEACHER" included, goes to
   * the student dashboard.
   */
  lemma OnlyTeacherRole(role: string, loading: bool)
    ensures Redirect(Some(role), true, loading) == Some(TeacherPath) <==> role == "teacher"
    ensures Redirect(Some("TEACHER"), true, loading) == Some(StudentPath)
  {
  }

  /** While loading with no user nothing happens but the spinner; a signed-in visitor is never sent to sign in. */
  lemma LoadingWaits(isAuthenticated: bool, role: Option<string>)
    ensures Redirect(None, isAuthenticated, true).None? && Render(true) == Spinner
    ensures isAuthenticated ==> Redirect(role, isAuthenticated, true) != Some(AuthPath)
    ensures isAuthenticated ==> Redirect(role, isAuthenticated, false) != Some(AuthPath)
  {
  }

  /** Once loaded, a visitor always goes somewhere unless authenticated without a user object yet. */
  lemma LoadedRedirects(role: Option<string>, isAuthenticated: bool)
    ensures Redirect(role, isAuthenticated, false).None? <==> isAuthenticated && role.None?
    ensures Render(false) == Blank
  {
  }
}
