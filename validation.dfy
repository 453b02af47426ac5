/**
 * The request schemas of app/lib/api/validation.ts. A request body is given
 * field by field as `Option`s (an absent field is `None`); a schema either
 * accepts it, giving the parsed value with its defaults filled in, or throws
 * a ZodError listing one issue per failing check, in field order. The email,
 * datetime and cuid formats are parameters.
 */
module Validation {
  import Text
  import opened Wrappers
  import opened ApiErrors

  /** zod's string formats. */
  datatype Formats = Formats(isEmail: string -> bool, isDatetime: string -> bool, isCuid: string -> bool)

  const Required := "Required"

  function StrMinMessage(n: nat): string { "String must contain at least " + Text.NatToString(n) + " character(s)" }
  function NumMinMessage(n: int): string { "Number must be greater than or equal to " + Text.IntToString(n) }
  function NumMaxMessage(n: int): string { "Number must be less than or equal to " + Text.IntToString(n) }
  const EnumMessage := "Invalid enum value"

  /** A field that must be present when `required`. */
  predicate Present<T>(v: Option<T>, required: bool) { v.None? ==> !required }

  /** A string field with a minimum length. */
  function StrField(path: seq<string>, v: Option<string>, required: bool, min: nat, msg: string): (r: seq<Issue>)
    ensures r == [] <==> Present(v, required) && (v.Some? ==> |v.value| >= min)
    ensures forall k :: 0 <= k < |r| ==> r[k].path == path
  {
    if v.None? then (if required then [Issue(path, Required)] else [])
    else if |v.value| < min then [Issue(path, msg)]
    else []
  }

  /** A string field in a format. */
  function FormatField(path: seq<string>, v: Option<string>, required: bool, ok: string -> bool, msg: string): (r: seq<Issue>)
    ensures r == [] <==> Present(v, required) && (v.Some? ==> ok(v.value))
  {
    if v.None? then (if required then [Issue(path, Required)] else [])
    else if !ok(v.value) then [Issue(path, msg)]
    else []
  }

  /** A string field restricted to the values of an enum. */
  function EnumField(path: seq<string>, v: Option<string>, required: bool, allowed: seq<string>): (r: seq<Issue>)
    ensures r == [] <==> Present(v, required) && (v.Some? ==> v.value in allowed)
  {
    if v.None? then (if required then [Issue(path, Required)] else [])
    else if v.value !in allowed then [Issue(path, EnumMessage)]
    else []
  }

  /** A number field with optional bounds; a value below the minimum carries `minMsg`. */
  function NumField(path: seq<string>, v: Option<int>, required: bool, lo: Option<int>, minMsg: string, hi: Option<int>): (r: seq<Issue>)
    ensures r == [] <==> Present(v, required) && (v.Some? ==> (lo.Some? ==> v.value >= lo.value) && (hi.Some? ==> v.value <= hi.value))
  {
    if v.None? then (if required then [Issue(path, Required)] else [])
    else
      (if lo.Some? && v.value < lo.value then [Issue(path, minMsg)] else [])
      + (if hi.Some? && v.value > hi.value then [Issue(path, NumMaxMessage(hi.value))] else [])
  }

  /** The outcome of a schema: the parsed value, or a ZodError with the issues found. */
  function Parse<T>(issues: seq<Issue>, value: T): (r: Outcome<T>)
    ensures r.Ok? <==> issues == []
    ensures r.Ok? ==> r.value == value
    ensures r.Throws? ==> r.error == ZodError(issues)
  {
    if issues == [] then Ok(value) else Throws(ZodError(issues))
  }

  // ---------------------------------------------------------------- auth

  datatype RegisterBody = RegisterBody(
    name: Option<string>, email: Option<string>, password: Option<string>, role: Option<string>,
    branch: Option<string>, division: Option<string>, year: Option<string>, rollNumber: Option<string>)

  datatype Registration = Registration(
    name: string, email: string, password: string, role: string,
    branch: Option<string>, division: Option<string>, year: Option<string>, rollNumber: Option<string>)

  /** The server's registration rule. */
  predicate RegisterAccepts(f: Formats, b: RegisterBody) {
    b.name.Some? && |b.name.value| >= 2
    && b.email.Some? && f.isEmail(b.email.value)
    && b.password.Some? && |b.password.value| >= 8
    && (b.role.None? || b.role.value == "STUDENT" || b.role.value == "TEACHER")
  }

  /** `registerSchema`. */
  function Register(f: Formats, b: RegisterBody): (r: Outcome<Registration>)
    ensures r.Ok? <==> RegisterAccepts(f, b)
    ensures r.Ok? ==> r.value.name == b.name.value && r.value.email == b.email.value && r.value.password == b.password.value
    ensures r.Ok? ==> r.value.role == b.role.GetOr("STUDENT")
    ensures r.Ok? ==> r.value.branch == b.branch && r.value.division == b.division && r.value.year == b.year && r.value.rollNumber == b.rollNumber
    ensures r.Throws? ==> r.error.ZodError? && |r.error.issues| > 0
  {
    var issues :=
      StrField(["name"], b.name, true, 2, "Name must be at least 2 characters")
      + FormatField(["email"], b.email, true, f.isEmail, "Invalid email address")
      + StrField(["password"], b.password, true, 8, "Password must be at least 8 characters")
      + EnumField(["role"], b.role, false, ["STUDENT", "TEACHER"]);
    Parse(issues, Registration(b.name.GetOr(""), b.email.GetOr(""), b.password.GetOr(""), b.role.GetOr("STUDENT"),
                               b.branch, b.division, b.year, b.rollNumber))
  }

  /** A seven-character password is refused, and ADMIN cannot be chosen at registration. */
  lemma RegisterRefuses(f: Formats, b: RegisterBody)
    ensures b.password.Some? && |b.password.value| < 8 ==> Register(f, b).Throws?
    ensures b.role == Some("ADMIN") ==> Register(f, b).Throws?
  {
  }

  datatype LoginBody = LoginBody(email: Option<string>, password: Option<string>)

  /** `loginSchema`: a valid email and any non-empty password. */
  function Login(f: Formats, b: LoginBody): (r: Outcome<(string, string)>)
    ensures r.Ok? <==> b.email.Some? && f.isEmail(b.email.value) && b.password.Some? && b.password.value != ""
    ensures r.Ok? ==> r.value == (b.email.value, b.password.value)
  {
    var issues :=
      FormatField(["email"], b.email, true, f.isEmail, "Invalid email address")
      + StrField(["password"], b.password, true, 1, "Password is required");
    Parse(issues, (b.email.GetOr(""), b.password.GetOr("")))
  }

  // ------------------------------------------------------------ questions

  const QuestionTypes := ["MCQ", "SHORT_ANSWER", "ESSAY", "TRUE_FALSE", "MULTIPLE_SELECT"]
  const Difficulties := ["easy", "medium", "hard"]

  datatype QuestionBody = QuestionBody(
    title: Option<string>, kind: Option<string>, question: Option<string>, options: Option<seq<string>>,
    correctAnswer: Option<string>, points: Option<int>, tags: Option<seq<string>>, subject: Option<string>,
    difficulty: Option<string>)

  datatype Question = Question(
    title: string, kind: string, question: string, options: Option<seq<string>>, correctAnswer: Option<string>,
    points: int, tags: seq<string>, subject: Option<string>, difficulty: string)

  /** The issues of the question fields, each checked only when present unless `whole`. */
  function QuestionIssues(b: QuestionBody, whole: bool): (r: seq<Issue>)
    ensures r == [] <==>
      Present(b.title, whole) && (b.title.Some? ==> b.title.value != "")
      && Present(b.kind, whole) && (b.kind.Some? ==> b.kind.value in QuestionTypes)
      && Present(b.question, whole) && (b.question.Some? ==> b.question.value != "")
      && (b.points.Some? ==> b.points.value >= 0)
      && (b.difficulty.Some? ==> b.difficulty.value in Difficulties)
  {
    StrField(["title"], b.title, whole, 1, "Title is required")
    + EnumField(["type"], b.kind, whole, QuestionTypes)
    + StrField(["question"], b.question, whole, 1, "Question text is required")
    + NumField(["points"], b.points, false, Some(0), NumMinMessage(0), None)
    + EnumField(["difficulty"], b.difficulty, false, Difficulties)
  }

  /** `createQuestionSchema`: points default to 1, tags to [] and difficulty to "medium". */
  function CreateQuestion(b: QuestionBody): (r: Outcome<Question>)
    ensures r.Ok? <==> QuestionIssues(b, true) == []
    ensures r.Ok? ==> r.value.points == b.points.GetOr(1) && r.value.points >= 0
    ensures r.Ok? ==> r.value.tags == b.tags.GetOr([]) && r.value.difficulty == b.difficulty.GetOr("medium")
    ensures r.Ok? ==> r.value.kind in QuestionTypes && r.value.title != "" && r.value.question != ""
    ensures r.Ok? ==> r.value.options == b.options && r.value.correctAnswer == b.correctAnswer && r.value.subject == b.subject
  {
    Parse(QuestionIssues(b, true),
      Question(b.title.GetOr(""), b.kind.GetOr(""), b.question.GetOr(""), b.options, b.correctAnswer,
               b.points.GetOr(1), b.tags.GetOr([]), b.subject, b.difficulty.GetOr("medium")))
  }

  /**
   * `updateQuestionSchema`, the partial schema: every field may be absent,
   * present ones are checked as before, and no default is filled in.
   */
  function UpdateQuestion(b: QuestionBody): (r: Outcome<QuestionBody>)
    ensures r.Ok? <==> QuestionIssues(b, false) == []
    ensures r.Ok? ==> r.value == b
  {
    Parse(QuestionIssues(b, false), b)
  }

  /** The empty update is accepted and fills in nothing. */
  lemma EmptyQuestionUpdate()
    ensures UpdateQuestion(QuestionBody(None, None, None, None, None, None, None, None, None)).Ok?
    ensures UpdateQuestion(QuestionBody(None, None, None, None, None, None, None, None, None)).value.points.None?
  {
  }

  // ---------------------------------------------------------------- exams

  datatype SettingsBody = SettingsBody(
    shuffleQuestions: Option<bool>, shuffleOptions: Option<bool>, showResultsImmediately: Option<bool>,
    allowReview: Option<bool>, preventTabSwitching: Option<bool>, requireWebcam: Option<bool>,
    enableScreenMonitoring: Option<bool>, lockdownBrowser: Option<bool>, maxTabSwitchWarnings: Option<int>,
    enableFullscreenMode: Option<bool>, disableDevTools: Option<bool>)

  datatype Settings = Settings(
    shuffleQuestions: bool, shuffleOptions: bool, showResultsImmediately: bool, allowReview: bool,
    preventTabSwitching: bool, requireWebcam: bool, enableScreenMonitoring: bool, lockdownBrowser: bool,
    maxTabSwitchWarnings: int, enableFullscreenMode: bool, disableDevTools: bool)

  const NoSettings := SettingsBody(None, None, None, None, None, None, None, None, None, None, None)

  datatype ExamBody = ExamBody(
    title: Option<string>, description: Option<string>, duration: Option<int>,
    startTime: Option<string>, endTime: Option<string>, maxAttempts: Option<int>,
    passingScore: Option<int>, questionIds: Option<seq<string>>, settings: Option<SettingsBody>)

  datatype Exam = Exam(
    title: string, description: string, duration: int, startTime: Option<string>, endTime: Option<string>,
    maxAttempts: int, passingScore: Option<int>, questionIds: seq<string>, settings: Settings)

  /** The settings with zod's defaults for the absent fields. */
  function SettingsWithDefaults(s: SettingsBody): (r: Settings)
    ensures s == NoSettings ==> r.requireWebcam && !r.enableFullscreenMode && r.maxTabSwitchWarnings == 3
    ensures s == NoSettings ==> r.allowReview && r.preventTabSwitching && r.enableScreenMonitoring
    ensures s == NoSettings ==> !r.shuffleQuestions && !r.shuffleOptions && !r.showResultsImmediately && !r.lockdownBrowser && !r.disableDevTools
    ensures s.requireWebcam.Some? ==> r.requireWebcam == s.requireWebcam.value
    ensures s.enableFullscreenMode.Some? ==> r.enableFullscreenMode == s.enableFullscreenMode.value
    ensures s.maxTabSwitchWarnings.Some? ==> r.maxTabSwitchWarnings == s.maxTabSwitchWarnings.value
  {
    Settings(
      s.shuffleQuestions.GetOr(false), s.shuffleOptions.GetOr(false), s.showResultsImmediately.GetOr(false),
      s.allowReview.GetOr(true), s.preventTabSwitching.GetOr(true), s.requireWebcam.GetOr(true),
      s.enableScreenMonitoring.GetOr(true), s.lockdownBrowser.GetOr(false), s.maxTabSwitchWarnings.GetOr(3),
      s.enableFullscreenMode.GetOr(false), s.disableDevTools.GetOr(false))
  }

  function WarningsIssues(v: Option<int>): (r: seq<Issue>)
    ensures r == [] <==> (v.Some? ==> 1 <= v.value <= 10)
  {
    NumField(["settings", "maxTabSwitchWarnings"], v, false, Some(1), NumMinMessage(1), Some(10))
  }

  /** The issues of the timing fields shared by the create and update schemas. */
  function TimeIssues(f: Formats, b: ExamBody): (r: seq<Issue>)
    ensures r == [] <==> (b.startTime.Some? ==> f.isDatetime(b.startTime.value)) && (b.endTime.Some? ==> f.isDatetime(b.endTime.value))
  {
    FormatField(["startTime"], b.startTime, false, f.isDatetime, "Invalid datetime")
    + FormatField(["endTime"], b.endTime, false, f.isDatetime, "Invalid datetime")
  }

  /** The create rule: what `createExamSchema` demands of a body. */
  predicate CreateExamAccepts(f: Formats, b: ExamBody) {
    b.title.Some? && b.title.value != ""
    && b.duration.Some? && b.duration.value >= 1
    && (b.startTime.Some? ==> f.isDatetime(b.startTime.value))
    && (b.endTime.Some? ==> f.isDatetime(b.endTime.value))
    && (b.maxAttempts.Some? ==> b.maxAttempts.value >= 1)
    && (b.passingScore.Some? ==> 0 <= b.passingScore.value <= 100)
    && b.questionIds.Some? && |b.questionIds.value| >= 1
    && b.settings.Some?
    && (b.settings.value.maxTabSwitchWarnings.Some? ==> 1 <= b.settings.value.maxTabSwitchWarnings.value <= 10)
  }

  function CreateExamIssues(f: Formats, b: ExamBody): (r: seq<Issue>)
    ensures r == [] <==> CreateExamAccepts(f, b)
  {
    var front :=
      StrField(["title"], b.title, true, 1, "Title is required")
      + NumField(["duration"], b.duration, true, Some(1), "Duration must be at least 1 minute", None)
      + TimeIssues(f, b);
    var back :=
      NumField(["maxAttempts"], b.maxAttempts, false, Some(1), NumMinMessage(1), None)
      + NumField(["passingScore"], b.passingScore, false, Some(0), NumMinMessage(0), Some(100))
      + (if b.questionIds.None? then [Issue(["questionIds"], Required)]
         else if |b.questionIds.value| < 1 then [Issue(["questionIds"], "At least one question is required")]
         else [])
      + (if b.settings.None? then [Issue(["settings"], Required)] else WarningsIssues(b.settings.value.maxTabSwitchWarnings));
    front + back
  }

  /** The parsed exam, defaults filled in; also the value a refinement sees when only non-fatal checks failed. */
  function ExamValue(b: ExamBody): Exam {
    var s := if b.settings.Some? then b.settings.value else NoSettings;
    Exam(b.title.GetOr(""), b.description.GetOr(""), b.duration.GetOr(0), b.startTime, b.endTime,
         b.maxAttempts.GetOr(1), b.passingScore, b.questionIds.GetOr([]), SettingsWithDefaults(s))
  }

  /** `createExamSchema`: description defaults to "", maxAttempts to 1, and the settings to their defaults. */
  function CreateExam(f: Formats, b: ExamBody): (r: Outcome<Exam>)
    ensures r.Ok? <==> CreateExamAccepts(f, b)
    ensures r.Ok? ==> r.value.title == b.title.value && r.value.description == b.description.GetOr("")
    ensures r.Ok? ==> r.value.duration == b.duration.value >= 1 && r.value.maxAttempts == b.maxAttempts.GetOr(1) >= 1
    ensures r.Ok? ==> r.value.questionIds == b.questionIds.value && r.value.settings == SettingsWithDefaults(b.settings.value)
    ensures r.Ok? ==> 1 <= r.value.settings.maxTabSwitchWarnings <= 10
    ensures r.Throws? ==> r.error == ZodError(CreateExamIssues(f, b))
  {
    Parse(CreateExamIssues(f, b), ExamValue(b))
  }

  /**
   * A missing field or a value outside its enum aborts zod's parse; the
   * other failed checks only mark it dirty, and a refinement still runs.
   */
  predicate Aborted(issues: seq<Issue>) {
    exists k :: 0 <= k < |issues| && (issues[k].message == Required || issues[k].message == EnumMessage)
  }

  const BothMessage := "Cannot enable both webcam requirement and fullscreen mode at the same time"

  /** Whether the parsed settings have the webcam requirement and forced fullscreen together. */
  predicate BothOn(s: Settings) { s.requireWebcam && s.enableFullscreenMode }

  /**
   * `createExamSchemaWithChecks`: the create schema, then the webcam/fullscreen
   * refinement on its value unless the parse aborted; the refinement's issue
   * is reported on `settings` after the field issues.
   */
  function CreateExamWithChecks(f: Formats, b: ExamBody): (r: Outcome<Exam>)
    ensures r.Ok? <==> CreateExamAccepts(f, b) && !BothOn(SettingsWithDefaults(b.settings.value))
    ensures r.Ok? ==> r == CreateExam(f, b)
    ensures r.Throws? ==> r.error.ZodError? && |r.error.issues| > 0
    ensures CreateExamAccepts(f, b) && r.Throws? ==> r.error == ZodError([Issue(["settings"], BothMessage)])
  {
    var issues := CreateExamIssues(f, b);
    if Aborted(issues) then CreateExam(f, b)
    else if BothOn(ExamValue(b).settings) then Throws(ZodError(issues + [Issue(["settings"], BothMessage)]))
    else CreateExam(f, b)
  }

  /**
   * A body the create schema accepts is refused by the refinement exactly
   * when its settings turn fullscreen on and do not turn the webcam off:
   * the webcam requirement defaults to on.
   */
  lemma RefinementRejects(f: Formats, b: ExamBody)
    requires CreateExamAccepts(f, b)
    ensures CreateExamWithChecks(f, b).Throws? <==>
      b.settings.value.enableFullscreenMode == Some(true) && b.settings.value.requireWebcam != Some(false)
  {
  }

  /** With the default settings the refinement passes. */
  lemma DefaultSettingsPass(f: Formats, b: ExamBody)
    requires CreateExamAccepts(f, b) && b.settings == Some(NoSettings)
    ensures CreateExamWithChecks(f, b).Ok?
    ensures CreateExamWithChecks(f, b).value.settings.requireWebcam
  {
  }

  const ExamStatuses := ["DRAFT", "PUBLISHED", "ONGOING", "COMPLETED", "ARCHIVED"]

  /** The update rule: every field optional, present ones checked. */
  predicate UpdateExamAccepts(f: Formats, b: ExamBody, status: Option<string>) {
    (b.title.Some? ==> b.title.value != "")
    && (b.duration.Some? ==> b.duration.value >= 1)
    && (b.startTime.Some? ==> f.isDatetime(b.startTime.value))
    && (b.endTime.Some? ==> f.isDatetime(b.endTime.value))
    && (b.maxAttempts.Some? ==> b.maxAttempts.value >= 1)
    && (status.Some? ==> status.value in ExamStatuses)
    && (b.passingScore.Some? ==> 0 <= b.passingScore.value <= 100)
    && (b.settings.Some? && b.settings.value.maxTabSwitchWarnings.Some? ==> 1 <= b.settings.value.maxTabSwitchWarnings.value <= 10)
  }

  /**
   * `updateExamSchema`; the body's `questionIds` is not part of this schema
   * and is dropped, and `status` is given beside the body.
   */
  function UpdateExam(f: Formats, b: ExamBody, status: Option<string>): (r: Outcome<(ExamBody, Option<string>)>)
    ensures r.Ok? <==> UpdateExamAccepts(f, b, status)
    ensures r.Ok? ==> r.value == (b.(questionIds := None), status)
  {
    var issues :=
      StrField(["title"], b.title, false, 1, StrMinMessage(1))
      + NumField(["duration"], b.duration, false, Some(1), NumMinMessage(1), None)
      + TimeIssues(f, b)
      + NumField(["maxAttempts"], b.maxAttempts, false, Some(1), NumMinMessage(1), None)
      + EnumField(["status"], status, false, ExamStatuses)
      + NumField(["passingScore"], b.passingScore, false, Some(0), NumMinMessage(0), Some(100))
      + (if b.settings.Some? then WarningsIssues(b.settings.value.maxTabSwitchWarnings) else []);
    Parse(issues, (b.(questionIds := None), status))
  }

  /**
   * `updateExamSchemaWithChecks`: refused when the given settings set both
   * flags to true explicitly; the check's issue has no path.
   */
  function UpdateExamWithChecks(f: Formats, b: ExamBody, status: Option<string>): (r: Outcome<(ExamBody, Option<string>)>)
    ensures r.Ok? <==>
      (UpdateExamAccepts(f, b, status)
       && !(b.settings.Some? && b.settings.value.requireWebcam == Some(true) && b.settings.value.enableFullscreenMode == Some(true)))
    ensures r.Ok? ==> r == UpdateExam(f, b, status)
  {
    var base := UpdateExam(f, b, status);
    var both := b.settings.Some? && b.settings.value.requireWebcam == Some(true) && b.settings.value.enableFullscreenMode == Some(true);
    if base.Throws? && Aborted(base.error.issues) then base
    else if both then Throws(ZodError((if base.Throws? then base.error.issues else []) + [Issue([], BothMessage)]))
    else base
  }

  /**
   * Unlike the create check, an update that turns fullscreen on without
   * mentioning the webcam passes, though the stored exam may require it.
   */
  lemma UpdateNeedsBothExplicit(f: Formats, b: ExamBody)
    requires UpdateExamAccepts(f, b, None)
    requires b.settings == Some(NoSettings.(enableFullscreenMode := Some(true)))
    ensures UpdateExamWithChecks(f, b, None).Ok?
  {
  }

  // ------------------------------------------------------------- attempts

  /** `startAttemptSchema`. */
  function StartAttempt(f: Formats, examId: Option<string>): (r: Outcome<string>)
    ensures r.Ok? <==> examId.Some? && f.isCuid(examId.value)
    ensures r.Ok? ==> r.value == examId.value
  {
    Parse(FormatField(["examId"], examId, true, f.isCuid, "Invalid cuid"), examId.GetOr(""))
  }

  datatype AnswerValue = Text(s: string) | Number(n: int) | Choices(items: seq<string>)

  datatype AnswerBody = AnswerBody(questionId: Option<string>, answer: Option<AnswerValue>, timeSpent: Option<int>, flaggedForReview: Option<bool>)

  datatype Answer = Answer(questionId: string, answer: AnswerValue, timeSpent: Option<int>, flaggedForReview: bool)

  /** What `submitAnswerSchema` demands of one answer. */
  predicate AnswerAccepts(f: Formats, b: AnswerBody) {
    b.questionId.Some? && f.isCuid(b.questionId.value) && b.answer.Some? && (b.timeSpent.Some? ==> b.timeSpent.value >= 0)
  }

  function AnswerIssues(f: Formats, prefix: seq<string>, b: AnswerBody): (r: seq<Issue>)
    ensures r == [] <==> AnswerAccepts(f, b)
  {
    FormatField(prefix + ["questionId"], b.questionId, true, f.isCuid, "Invalid cuid")
    + (if b.answer.None? then [Issue(prefix + ["answer"], Required)] else [])
    + NumField(prefix + ["timeSpent"], b.timeSpent, false, Some(0), NumMinMessage(0), None)
  }

  function AnswerValueOf(b: AnswerBody): Answer {
    Answer(b.questionId.GetOr(""), b.answer.GetOr(Text("")), b.timeSpent, b.flaggedForReview.GetOr(false))
  }

  /** `submitAnswerSchema`: `flaggedForReview` defaults to false. */
  function SubmitAnswer(f: Formats, b: AnswerBody): (r: Outcome<Answer>)
    ensures r.Ok? <==> AnswerAccepts(f, b)
    ensures r.Ok? ==> r.value.questionId == b.questionId.value && r.value.answer == b.answer.value
    ensures r.Ok? ==> r.value.flaggedForReview == b.flaggedForReview.GetOr(false)
  {
    Parse(AnswerIssues(f, [], b), AnswerValueOf(b))
  }

  /** The issues of each item of a list, in order; `issuesAt(k, x)` are those of item `k`. */
  function Indexed<T>(items: seq<T>, issuesAt: (nat, T) -> seq<Issue>): (r: seq<Issue>)
    ensures r == [] <==> forall k :: 0 <= k < |items| ==> issuesAt(k, items[k]) == []
    decreases |items|
  {
    if items == [] then []
    else
      var last := |items| - 1;
      var init := items[..last];
      assert forall k :: 0 <= k < last ==> init[k] == items[k];
      Indexed(init, issuesAt) + issuesAt(last, items[last])
  }

  /** The issues of each answer, with the answer's index in the path. */
  function AnswersIssues(f: Formats, answers: seq<AnswerBody>): (r: seq<Issue>)
    ensures r == [] <==> forall k :: 0 <= k < |answers| ==> AnswerAccepts(f, answers[k])
  {
    Indexed(answers, (k: nat, a: AnswerBody) => AnswerIssues(f, ["answers", Text.NatToString(k)], a))
  }

  /** `submitExamSchema`: the attempt id and every answer must pass. */
  function SubmitExam(f: Formats, attemptId: Option<string>, answers: Option<seq<AnswerBody>>): (r: Outcome<(string, seq<Answer>)>)
    ensures r.Ok? <==>
      (attemptId.Some? && f.isCuid(attemptId.value) && answers.Some?
       && forall k :: 0 <= k < |answers.value| ==> SubmitAnswer(f, answers.value[k]).Ok?)
    ensures r.Ok? ==>
      (|r.value.1| == |answers.value|
       && forall k :: 0 <= k < |answers.value| ==> r.value.1[k] == SubmitAnswer(f, answers.value[k]).value)
  {
    var list := answers.GetOr([]);
    var issues :=
      FormatField(["attemptId"], attemptId, true, f.isCuid, "Invalid cuid")
      + (if answers.None? then [Issue(["answers"], Required)] else AnswersIssues(f, list));
    Parse(issues, (attemptId.GetOr(""), seq(|list|, k requires 0 <= k < |list| => AnswerValueOf(list[k]))))
  }

  // ----------------------------------------------------------- monitoring

  const EventTypes := [
    "TAB_SWITCH", "WINDOW_BLUR", "COPY_PASTE", "RIGHT_CLICK", "FULLSCREEN_EXIT", "SUSPICIOUS_BEHAVIOR",
    "MULTIPLE_FACES", "NO_FACE_DETECTED", "FACE_CHANGED", "WEBCAM_DISABLED", "WEBCAM_ENABLED",
    "EXAM_STARTED", "EXAM_PAUSED", "EXAM_RESUMED", "EXAM_SUBMITTED", "UNAUTHORIZED_DEVICE", "NETWORK_ISSUE"]
  const Severities := ["LOW", "MEDIUM", "HIGH", "CRITICAL"]

  datatype EventBody = EventBody(examId: Option<string>, attemptId: Option<string>, kind: Option<string>,
                                 severity: Option<string>, description: Option<string>)

  datatype MonitoringEvent = MonitoringEvent(examId: string, attemptId: Option<string>, kind: string,
                                             severity: string, description: string)

  /** `monitoringEventSchema`: severity defaults to LOW. */
  function MonitoringEventOf(f: Formats, b: EventBody): (r: Outcome<MonitoringEvent>)
    ensures r.Ok? <==>
      (b.examId.Some? && f.isCuid(b.examId.value)
       && (b.attemptId.Some? ==> f.isCuid(b.attemptId.value))
       && b.kind.Some? && b.kind.value in EventTypes
       && (b.severity.Some? ==> b.severity.value in Severities)
       && b.description.Some?)
    ensures r.Ok? ==> r.value.severity == b.severity.GetOr("LOW") && r.value.severity in Severities
    ensures r.Ok? ==> r.value.kind == b.kind.value && r.value.description == b.description.value
  {
    var issues :=
      FormatField(["examId"], b.examId, true, f.isCuid, "Invalid cuid")
      + FormatField(["attemptId"], b.attemptId, false, f.isCuid, "Invalid cuid")
      + EnumField(["type"], b.kind, true, EventTypes)
      + EnumField(["severity"], b.severity, false, Severities)
      + StrField(["description"], b.description, true, 0, "");
    Parse(issues, MonitoringEvent(b.examId.GetOr(""), b.attemptId, b.kind.GetOr(""), b.severity.GetOr("LOW"), b.description.GetOr("")))
  }

  /** The issues of the student ids, with each id's index in the path. */
  function IdsIssues(f: Formats, ids: seq<string>): (r: seq<Issue>)
    ensures r == [] <==> forall k :: 0 <= k < |ids| ==> f.isCuid(ids[k])
    decreases |ids|
  {
    if ids == [] then []
    else
      var last := |ids| - 1;
      IdsIssues(f, ids[..last]) + (if f.isCuid(ids[last]) then [] else [Issue(["studentIds", Text.NatToString(last)], "Invalid cuid")])
  }

  /** `enrollStudentSchema`: at least one id, every one a cuid. */
  function EnrollStudents(f: Formats, studentIds: Option<seq<string>>): (r: Outcome<seq<string>>)
    ensures r.Ok? <==> studentIds.Some? && |studentIds.value| >= 1 && forall k :: 0 <= k < |studentIds.value| ==> f.isCuid(studentIds.value[k])
    ensures r.Ok? ==> r.value == studentIds.value
  {
    var ids := studentIds.GetOr([]);
    var issues :=
      if studentIds.None? then [Issue(["studentIds"], Required)]
      else IdsIssues(f, ids) + (if |ids| < 1 then [Issue(["studentIds"], "At least one student is required")] else []);
    Parse(issues, ids)
  }

  // -------------------------------------------------------------- grading

  const GradeStatuses := ["GRADED", "NEEDS_REVIEW", "FLAGGED"]

  /** `gradeSubmissionSchema`: score ≥ 0, status defaults to GRADED. */
  function GradeSubmission(score: Option<int>, feedback: Option<string>, status: Option<string>): (r: Outcome<(int, Option<string>, string)>)
    ensures r.Ok? <==> score.Some? && score.value >= 0 && (status.Some? ==> status.value in GradeStatuses)
    ensures r.Ok? ==> r.value == (score.value, feedback, status.GetOr("GRADED"))
  {
    var issues :=
      NumField(["score"], score, true, Some(0), NumMinMessage(0), None)
      + EnumField(["status"], status, false, GradeStatuses);
    Parse(issues, (score.GetOr(0), feedback, status.GetOr("GRADED")))
  }
}
