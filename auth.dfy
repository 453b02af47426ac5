/**
 * The route guards of app/lib/api/auth.ts. Reading the `auth_token` cookie,
 * verifying the JWT and the user lookup are parameters; only the decisions
 * made on their results are modelled.
 */
module Auth {
  import opened Wrappers
  import opened ApiErrors

  datatype Role = STUDENT | TEACHER | ADMIN

  datatype AuthUser = AuthUser(id: string, email: string, name: string, role: Role)

  /** The result of `prisma.user.findUnique`, where a failing query throws. */
  datatype Lookup = Found(user: AuthUser) | NotFound | QueryFailed

  /**
   * `getCurrentUser`: `cookie` is the token cookie's value, `verify` gives the
   * token's user id or `None` when verification throws. Every failure,
   * a thrown one included, ends as `None`.
   */
  function CurrentUser(cookie: Option<string>, verify: string -> Option<string>, findUser: string -> Lookup): (r: Option<AuthUser>)
    ensures (cookie.None? || cookie.value == "") ==> r.None?
    ensures cookie.Some? && cookie.value != "" && verify(cookie.value).None? ==> r.None?
    ensures r.Some? ==> cookie.Some? && verify(cookie.value).Some? && findUser(verify(cookie.value).value) == Found(r.value)
    ensures cookie.Some? && cookie.value != "" && verify(cookie.value).Some? && findUser(verify(cookie.value).value).Found?
      ==> r == Some(findUser(verify(cookie.value).value).user)
  {
    if cookie.None? || cookie.value == "" then None
    else
      match verify(cookie.value)
      case None => None
      case Some(userId) =>
        match findUser(userId)
        case Found(u) => Some(u)
        case NotFound => None
        case QueryFailed => None
  }

  /** `requireAuth`: 401 exactly when there is no current user. */
  function RequireAuth(current: Option<AuthUser>): (r: Outcome<AuthUser>)
    ensures r.Ok? <==> current.Some?
    ensures r.Ok? ==> r.value == current.value
    ensures r.Throws? ==> r.error == ApiError(401, "Authentication required", None)
  {
    if current.None? then Fail(401, "Authentication required") else Ok(current.value)
  }

  /** `requireRole`: the 401 check first, then 403 for a role outside the list. */
  function RequireRole(roles: seq<Role>, current: Option<AuthUser>): (r: Outcome<AuthUser>)
    ensures current.None? ==> r == RequireAuth(current)
    ensures current.Some? && current.value.role !in roles ==> r.Throws? && r.error == ApiError(403, "Insufficient permissions", None)
    ensures r.Ok? <==> current.Some? && current.value.role in roles
    ensures r.Ok? ==> r.value == current.value
  {
    var a := RequireAuth(current);
    if a.Throws? then a
    else if a.value.role !in roles then Fail(403, "Insufficient permissions")
    else a
  }

  function RequireTeacher(current: Option<AuthUser>): Outcome<AuthUser> {
    RequireRole([TEACHER, ADMIN], current)
  }

  function RequireStudent(current: Option<AuthUser>): Outcome<AuthUser> {
    RequireRole([STUDENT], current)
  }

  /** `requireTeacher` admits teachers and admins, and answers 403 to a student. */
  lemma RequireTeacherAdmits(current: Option<AuthUser>)
    ensures RequireTeacher(current).Ok? <==> current.Some? && current.value.role in {TEACHER, ADMIN}
    ensures current.Some? && current.value.role == STUDENT ==> RequireTeacher(current).error.statusCode == 403
  {
  }

  /** `requireStudent` admits students only: an admin is refused with 403. */
  lemma RequireStudentAdmits(current: Option<AuthUser>)
    ensures RequireStudent(current).Ok? <==> current.Some? && current.value.role == STUDENT
    ensures current.Some? && current.value.role == ADMIN ==> RequireStudent(current).error.statusCode == 403
  {
  }
}
