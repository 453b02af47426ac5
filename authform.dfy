/**
 * The sign-in / sign-up form of app/components/auth/AuthForm.tsx: its two
 * client-side schemas, the mode switch and the bookkeeping around a submit.
 * The form fields always hold strings (they start as ""), so no field is
 * ever absent.
 */
module AuthForm {
  import Text
  import opened Wrappers
  import opened ApiErrors
  import Validation

  datatype LoginValues = LoginValues(email: string, password: string, role: string)

  datatype RegisterValues = RegisterValues(name: string, email: string, password: string, confirmPassword: string, role: string)

  const Roles := ["student", "teacher"]

  /** zod's issue for a string shorter than `min`, or none. */
  function MinIssue(field: string, s: string, min: nat, msg: string): (r: seq<Issue>)
    ensures r == [] <==> |s| >= min
  {
    if |s| < min then [Issue([field], msg)] else []
  }

  function EmailIssue(isEmail: string -> bool, s: string): (r: seq<Issue>)
    ensures r == [] <==> isEmail(s)
  {
    if isEmail(s) then [] else [Issue(["email"], "Invalid email address")]
  }

  function RoleIssue(role: string): (r: seq<Issue>)
    ensures r == [] <==> role in Roles
  {
    if role in Roles then [] else [Issue(["role"], Validation.EnumMessage)]
  }

  /** The client `loginSchema`: a valid email, a password of at least 6 characters and a known role. */
  function LoginSchema(isEmail: string -> bool, v: LoginValues): (r: Outcome<LoginValues>)
    ensures r.Ok? <==> isEmail(v.email) && |v.password| >= 6 && v.role in Roles
    ensures r.Ok? ==> r.value == v
  {
    Validation.Parse(EmailIssue(isEmail, v.email) + MinIssue("password", v.password, 6, "Password must be at least 6 characters") + RoleIssue(v.role), v)
  }

  /**
   * The client `registerSchema` with the password minimum as a parameter:
   * the field checks, then the password-match refinement, which zod runs
   * unless an unknown role aborted the parse.
   */
  function RegisterSchemaWith(isEmail: string -> bool, v: RegisterValues, minPassword: nat): (r: Outcome<RegisterValues>)
    ensures r.Ok? <==> |v.name| >= 2 && isEmail(v.email) && |v.password| >= minPassword && v.role in Roles && v.password == v.confirmPassword
    ensures r.Ok? ==> r.value == v
    ensures v.role in Roles && v.password != v.confirmPassword ==>
      r.Throws? && r.error.ZodError? && |r.error.issues| > 0 && r.error.issues[|r.error.issues| - 1] == Issue(["confirmPassword"], "Passwords don't match")
  {
    var issues :=
      MinIssue("name", v.name, 2, "Name must be at least 2 characters")
      + EmailIssue(isEmail, v.email)
      + MinIssue("password", v.password, minPassword, "Password must be at least " + Text.NatToString(minPassword) + " characters")
      + RoleIssue(v.role);
    if v.role in Roles && v.password != v.confirmPassword then
      Throws(ZodError(issues + [Issue(["confirmPassword"], "Passwords don't match")]))
    else Validation.Parse(issues, v)
  }

  /** The form's `registerSchema` as written: passwords of 6 characters pass. */
  function RegisterSchemaAsWritten(isEmail: string -> bool, v: RegisterValues): (r: Outcome<RegisterValues>)
    ensures r.Ok? <==> |v.name| >= 2 && isEmail(v.email) && |v.password| >= 6 && v.role in Roles && v.password == v.confirmPassword
  {
    RegisterSchemaWith(isEmail, v, 6)
  }

  /** The corrected registration schema, with the server's minimum of 8. */
  function RegisterSchema(isEmail: string -> bool, v: RegisterValues): (r: Outcome<RegisterValues>)
    ensures r.Ok? <==> |v.name| >= 2 && isEmail(v.email) && |v.password| >= 8 && v.role in Roles && v.password == v.confirmPassword
  {
    RegisterSchemaWith(isEmail, v, 8)
  }

  /**
   * The body `api.auth.register` posts for the form's values
   * (app/lib/api/client.ts:148-149): every field as typed, the role in the
   * form's lower case. The form's own `onRegister` registers locally and
   * posts nothing, so this is the payload the two schemas disagree about
   * once a client sends it.
   */
  function PostedBody(v: RegisterValues): Validation.RegisterBody {
    Validation.RegisterBody(Some(v.name), Some(v.email), Some(v.password), Some(v.role), None, None, None, None)
  }

  /** The server's spelling of a client role: the fix the role mismatch calls for. */
  function ServerRole(role: string): (r: string)
    ensures role == "teacher" <==> r == "TEACHER"
    ensures r in ["STUDENT", "TEACHER"]
  {
    if role == "teacher" then "TEACHER" else "STUDENT"
  }

  /** The intended body: the posted one, with the role in the server's spelling. */
  function IntendedBody(v: RegisterValues): (b: Validation.RegisterBody)
    ensures b == PostedBody(v).(role := Some(ServerRole(v.role)))
    ensures v.role in Roles ==> (b.role == Some("TEACHER") <==> v.role == "teacher")
  {
    PostedBody(v).(role := Some(ServerRole(v.role)))
  }

  /**
   * As written, the form accepts the six-character password "abcdef". The
   * server refuses the posted body with the 8-character password issue among
   * its issues, and still refuses it once the role is spelled its way.
   */
  lemma ClientServerGap(f: Validation.Formats)
    requires f.isEmail("a@b.co")
    ensures var v := RegisterValues("Ann", "a@b.co", "abcdef", "abcdef", "student");
      && RegisterSchemaAsWritten(f.isEmail, v).Ok?
      && Validation.Register(f, PostedBody(v)).Throws?
      && Issue(["password"], "Password must be at least 8 characters") in Validation.Register(f, PostedBody(v)).error.issues
      && Validation.Register(f, IntendedBody(v)).Throws?
  {
  }

  /**
   * As written, the form's role enum is lower case and the server's is upper
   * case, so every registration the form accepts is refused by the server
   * when posted as typed, with an issue on the role.
   */
  lemma RoleCaseGap(f: Validation.Formats, v: RegisterValues)
    requires RegisterSchemaAsWritten(f.isEmail, v).Ok?
    ensures Validation.Register(f, PostedBody(v)).Throws?
    ensures Issue(["role"], Validation.EnumMessage) in Validation.Register(f, PostedBody(v)).error.issues
  {
  }

  /**
   * With both fixes, the server's minimum of 8 in the form and the role sent
   * in the server's spelling, every registration the form lets through
   * passes the server's schema, keeping the name, email and password.
   */
  lemma ClientImpliesServer(f: Validation.Formats, v: RegisterValues)
    requires RegisterSchema(f.isEmail, v).Ok?
    ensures Validation.Register(f, IntendedBody(v)).Ok?
    ensures var r := Validation.Register(f, IntendedBody(v)).value;
      r.name == v.name && r.email == v.email && r.password == v.password && r.role == ServerRole(v.role)
  {
  }

  /** How `onLogin` / `onRegister` ended. */
  datatype CallResult = Resolved | RejectedWithError(message: string) | RejectedWithValue

  /** The message a failed call leaves: the Error's own message, or the mode's fallback. */
  function FailureMessage(result: CallResult, isLoginForm: bool): (r: Option<string>)
    ensures result.Resolved? <==> r.None?
    ensures result.RejectedWithError? ==> r == Some(result.message)
    ensures result.RejectedWithValue? ==> r == Some(if isLoginForm then "Login failed" else "Registration failed")
  {
    match result
    case Resolved => None
    case RejectedWithError(m) => Some(m)
    case RejectedWithValue => Some(if isLoginForm then "Login failed" else "Registration failed")
  }

  class Form {
    var isLogin: bool
    var showPassword: bool
    var showConfirmPassword: bool
    var isLoading: bool
    var error: string

    /** The form opens in login mode, with no error; the role field starts as "student". */
    constructor()
      ensures isLogin && !showPassword && !showConfirmPassword && !isLoading && error == ""
    {
      isLogin := true;
      showPassword := false;
      showConfirmPassword := false;
      isLoading := false;
      error := "";
    }

    /** The switch button below the form. */
    method ToggleMode()
      modifies this
      ensures isLogin == !old(isLogin)
      ensures showPassword == old(showPassword) && showConfirmPassword == old(showConfirmPassword)
      ensures isLoading == old(isLoading) && error == old(error)
    {
      isLogin := !isLogin;
    }

    method ToggleShowPassword()
      modifies this
      ensures showPassword == !old(showPassword)
      ensures isLogin == old(isLogin) && showConfirmPassword == old(showConfirmPassword)
      ensures isLoading == old(isLoading) && error == old(error)
    {
      showPassword := !showPassword;
    }

    method ToggleShowConfirmPassword()
      modifies this
      ensures showConfirmPassword == !old(showConfirmPassword)
      ensures isLogin == old(isLogin) && showPassword == old(showPassword)
      ensures isLoading == old(isLoading) && error == old(error)
    {
      showConfirmPassword := !showConfirmPassword;
    }

    /**
     * `handleLogin` / `handleRegister`, reached only with values the schema
     * accepted. `loadingAtCall` and `errorAtCall` are the state while the call
     * is outstanding; afterwards loading is off and a failure's message is shown.
     */
    method HandleSubmit(isLoginForm: bool, result: CallResult) returns (loadingAtCall: bool, errorAtCall: string)
      modifies this
      ensures loadingAtCall && errorAtCall == ""
      ensures !isLoading
      ensures error == FailureMessage(result, isLoginForm).GetOr("")
      ensures isLogin == old(isLogin) && showPassword == old(showPassword) && showConfirmPassword == old(showConfirmPassword)
    {
      isLoading := true;
      error := "";
      loadingAtCall, errorAtCall := isLoading, error;
      var failure := FailureMessage(result, isLoginForm);
      if failure.Some? {
        error := failure.value;
      }
      isLoading := false;
    }

    /** A login submit: the schema first; only accepted values reach `onLogin`. */
    method SubmitLogin(isEmail: string -> bool, v: LoginValues, result: CallResult) returns (called: bool)
      modifies this
      ensures called <==> LoginSchema(isEmail, v).Ok?
      ensures !called ==> isLoading == old(isLoading) && error == old(error)
      ensures called ==> !isLoading && error == FailureMessage(result, true).GetOr("")
      ensures isLogin == old(isLogin) && showPassword == old(showPassword) && showConfirmPassword == old(showConfirmPassword)
    {
      if LoginSchema(isEmail, v).Throws? {
        return false;
      }
      var _, _ := HandleSubmit(true, result);
      called := true;
    }

    /** A registration submit: the form's schema as written first; only accepted values reach `onRegister`. */
    method SubmitRegister(isEmail: string -> bool, v: RegisterValues, result: CallResult) returns (called: bool)
      modifies this
      ensures called <==> RegisterSchemaAsWritten(isEmail, v).Ok?
      ensures !called ==> isLoading == old(isLoading) && error == old(error)
      ensures called ==> !isLoading && error == FailureMessage(result, false).GetOr("")
      ensures isLogin == old(isLogin) && showPassword == old(showPassword) && showConfirmPassword == old(showConfirmPassword)
    {
      if RegisterSchemaAsWritten(isEmail, v).Throws? {
        return false;
      }
      var _, _ := HandleSubmit(false, result);
      called := true;
    }

    /**
     * The registration submit with the corrected schema: only values whose
     * intended body the server's register schema also accepts reach `onRegister`.
     */
    method SubmitRegisterCorrected(f: Validation.Formats, v: RegisterValues, result: CallResult) returns (called: bool)
      modifies this
      ensures called <==> RegisterSchema(f.isEmail, v).Ok?
      ensures called ==> Validation.Register(f, IntendedBody(v)).Ok?
      ensures !called ==> isLoading == old(isLoading) && error == old(error)
      ensures called ==> !isLoading && error == FailureMessage(result, false).GetOr("")
      ensures isLogin == old(isLogin) && showPassword == old(showPassword) && showConfirmPassword == old(showConfirmPassword)
    {
      if RegisterSchema(f.isEmail, v).Throws? {
        return false;
      }
      ClientImpliesServer(f, v);
      var _, _ := HandleSubmit(false, result);
      called := true;
    }
  }
}
