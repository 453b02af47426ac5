/**
 * The demo data of app/lib/demoData.ts, used when the app runs without a
 * backend: four users, three exams, one graded result, three submissions and
 * five monitoring events, with the projections and lookups the pages call.
 * Dates are kept as their ISO text; `Date.now()` is the parameter `now`.
 * Long question texts are written as concatenations of shorter literals,
 * which denote the same strings and keep the proofs about the quizzes small.
 */
module DemoData {
  import Collections
  import opened Wrappers

  datatype DemoRole = Teacher | Student

  datatype DemoUser = DemoUser(id: string, name: string, email: string, role: DemoRole, createdAt: string)

  /** A question as the teacher sees it; `correctAnswer` indexes `options`. */
  datatype DemoQuestion = DemoQuestion(
    id: string, question: string, options: seq<string>, correctAnswer: int, points: int)

  datatype DemoExam = DemoExam(
    id: string, title: string, description: string, duration: int, totalQuestions: int,
    status: string, createdBy: string, createdAt: string, questions: seq<DemoQuestion>)

  datatype GivenAnswer = GivenAnswer(questionId: string, selectedAnswer: int, isCorrect: bool)

  datatype StudentResult = StudentResult(
    examId: string, studentId: string, score: int, totalQuestions: int, percentage: int,
    completedAt: string, timeSpent: int, answers: seq<GivenAnswer>)

  datatype Submission = Submission(
    id: string, examId: string, studentId: string, startedAt: string, submittedAt: string,
    score: int, total: int, percentage: int, flaggedActivities: int, webcamSnapshots: int)

  /** The payload fields an event may carry; `None` is a field the literal leaves out. */
  datatype EventPayload = EventPayload(
    studentId: string, examId: string, questionIndex: Option<int>, webcamActive: Option<bool>,
    description: Option<string>, severity: Option<string>, timestamp: int)

  datatype MonitoringEvent = MonitoringEvent(kind: string, payload: EventPayload)

  /** `demoUsers`. */
  function Users(): seq<DemoUser> {
    [ DemoUser("demo_teacher_456", "Dr. Sarah Wilson", "teacher@demo.com", Teacher, "2024-09-10"),
      DemoUser("demo_student_123", "Alex Johnson", "student@demo.com", Student, "2024-09-11"),
      DemoUser("demo_student_789", "Priya Patel", "priya@student.demo", Student, "2024-09-12"),
      DemoUser("demo_student_321", "Liam Chen", "liam@student.demo", Student, "2024-09-12") ]
  }

  /** Long question texts are concatenations of shorter literals, which keeps the data lemmas cheap to verify. */
  function JavaScriptQuiz(): DemoExam {
    DemoExam("exam_1", "JavaScript Fundamentals Quiz",
      "Test your knowledge of JavaScript basics including variables, functions, and data types.",
      30, 10, "active", "demo_teacher_456", "2024-09-15", [
      DemoQuestion("q1", "Which of the " + "following is used " + "to declare a " + "variable in " + "JavaScript?",
        ["var", "let", "const", "All of the above"], 3, 1),
      DemoQuestion("q2", "What does the '===' " + "operator do in " + "JavaScript?",
        ["Assignment", "Equality comparison", "Strict equality comparison", "Not equal"], 2, 1),
      DemoQuestion("q3", "Which method is " + "used to add an " + "element to the end " + "of an array?",
        ["push()", "pop()", "shift()", "unshift()"], 0, 1),
      DemoQuestion("q4", "What is the correct " + "way to create a " + "function in " + "JavaScript?",
        ["function myFunction() {}", "create myFunction() {}", "def myFunction() {}", "func myFunction() {}"], 0, 1),
      DemoQuestion("q5", "Which of the " + "following is NOT a " + "JavaScript data " + "type?",
        ["String", "Boolean", "Integer", "Object"], 2, 1),
      DemoQuestion("q6", "How do you write a " + "comment in " + "JavaScript?",
        ["<!-- comment -->", "// comment", "# comment", "/* comment */"], 1, 1),
      DemoQuestion("q7", "What will 'typeof " + "null' return in " + "JavaScript?",
        ["null", "undefined", "object", "boolean"], 2, 1),
      DemoQuestion("q8", "Which method " + "converts a string " + "to lowercase?",
        ["toLowerCase()", "toLower()", "lower()", "downCase()"], 0, 1),
      DemoQuestion("q9", "What does the " + "'length' property " + "return for arrays?",
        ["The last index", "The number of elements", "The first element", "The array type"], 1, 1),
      DemoQuestion("q10", "How do you access " + "the first element " + "of an array named " + "'arr'?",
        ["arr[1]", "arr[0]", "arr.first()", "arr.get(0)"], 1, 1)])
  }

  function ReactQuiz(): DemoExam {
    DemoExam("exam_2", "React Components & Hooks",
      "Advanced quiz on React components, hooks, and state management.",
      45, 8, "active", "demo_teacher_456", "2024-09-18", [
      DemoQuestion("q1", "Which hook is used " + "for state " + "management in " + "functional " + "components?",
        ["useEffect", "useState", "useContext", "useReducer"], 1, 2),
      DemoQuestion("q2", "What is the purpose " + "of useEffect hook?",
        ["State management", "Side effects", "Context creation", "Component styling"], 1, 2),
      DemoQuestion("q3", "How do you pass " + "data from parent to " + "child component?",
        ["State", "Props", "Context", "Refs"], 1, 2),
      DemoQuestion("q4", "What does JSX stand " + "for?",
        ["JavaScript XML", "JavaScript Extension", "Java Syntax Extension", "JavaScript Syntax"], 0, 1),
      DemoQuestion("q5", "Which method is " + "called after a " + "component is " + "mounted?",
        ["componentDidMount", "componentWillMount", "componentDidUpdate", "componentWillUnmount"], 0, 2),
      DemoQuestion("q6", "What is the virtual " + "DOM?",
        ["A copy of the real DOM", "A JavaScript representation of the DOM", "A faster version of DOM", "All of the above"], 3, 2),
      DemoQuestion("q7", "How do you handle " + "events in React?",
        ["onClick={handleClick}", "onclick='handleClick()'", "onEvent={handleClick}", "@click={handleClick}"], 0, 1),
      DemoQuestion("q8", "What is " + "React.Fragment used " + "for?",
        ["Creating components", "Grouping elements without extra DOM nodes", "Styling components", "Managing state"], 1, 2)])
  }

  function AlgebraQuiz(): DemoExam {
    DemoExam("exam_3", "Mathematics - Algebra Basics",
      "Fundamental algebra concepts including equations, variables, and basic operations.",
      60, 12, "active", "demo_teacher_456", "2024-09-20", [
      DemoQuestion("q1", "Solve for x: 2x + 5 " + "= 15",
        ["x = 5", "x = 10", "x = 7.5", "x = 20"], 0, 1),
      DemoQuestion("q2", "What is the value " + "of x² when x = 4?",
        ["8", "12", "16", "20"], 2, 1),
      DemoQuestion("q3", "Simplify: 3x + 2x - " + "x",
        ["4x", "5x", "6x", "2x"], 0, 1),
      DemoQuestion("q4", "If y = 3x + 2 and x " + "= 4, what is y?",
        ["10", "12", "14", "16"], 2, 1),
      DemoQuestion("q5", "Factor: x² - 4",
        ["(x-2)(x-2)", "(x+2)(x+2)", "(x-2)(x+2)", "Cannot be factored"], 2, 2),
      DemoQuestion("q6", "What is the slope " + "of the line y = 2x " + "+ 3?",
        ["2", "3", "2x", "5"], 0, 1),
      DemoQuestion("q7", "Solve: 3x - 7 = 2x " + "+ 5",
        ["x = 12", "x = 2", "x = -2", "x = 6"], 0, 2),
      DemoQuestion("q8", "What is the " + "y-intercept of y = " + "-x + 4?",
        ["1", "-1", "4", "-4"], 2, 1),
      DemoQuestion("q9", "Expand: (x + 3)(x + " + "2)",
        ["x² + 5x + 6", "x² + 6x + 5", "x² + 5x + 5", "x² + 6x + 6"], 0, 2),
      DemoQuestion("q10", "If 2x + y = 10 and " + "x = 3, what is y?",
        ["2", "4", "6", "8"], 1, 1),
      DemoQuestion("q11", "Solve for x: x/3 + " + "2 = 5",
        ["x = 9", "x = 3", "x = 6", "x = 15"], 0, 2),
      DemoQuestion("q12", "What is the value " + "of |−8|?",
        ["-8", "8", "0", "16"], 1, 1)])
  }

  /** `demoExams`. */
  function Exams(): seq<DemoExam> {
    [JavaScriptQuiz(), ReactQuiz(), AlgebraQuiz()]
  }

  /** `demoStudentResults`. */
  function Results(): seq<StudentResult> {
    [ StudentResult("exam_1", "demo_student_123", 8, 10, 80, "2024-09-16", 25, [
        GivenAnswer("q1", 3, true), GivenAnswer("q2", 2, true), GivenAnswer("q3", 0, true),
        GivenAnswer("q4", 0, true), GivenAnswer("q5", 1, false), GivenAnswer("q6", 1, true),
        GivenAnswer("q7", 2, true), GivenAnswer("q8", 0, true), GivenAnswer("q9", 0, false),
        GivenAnswer("q10", 1, true)]) ]
  }

  /** `demoSubmissions`. */
  function Submissions(): seq<Submission> {
    [ Submission("sub_1", "exam_1", "demo_student_123", "2024-09-16T10:00:00Z", "2024-09-16T10:25:00Z", 8, 10, 80, 2, 3),
      Submission("sub_2", "exam_1", "demo_student_789", "2024-09-16T10:05:00Z", "2024-09-16T10:31:00Z", 9, 10, 90, 0, 4),
      Submission("sub_3", "exam_2", "demo_student_321", "2024-09-18T09:00:00Z", "2024-09-18T09:38:00Z", 11, 16, 69, 1, 0) ]
  }

  /** `demoMonitoringEvents`, whose timestamps are taken relative to the load time `now`. */
  function MonitoringEvents(now: int): seq<MonitoringEvent> {
    [ MonitoringEvent("heartbeat", EventPayload("demo_student_123", "exam_1", Some(2), Some(true), None, None, now - 15000)),
      MonitoringEvent("question", EventPayload("demo_student_123", "exam_1", Some(3), None, None, None, now - 12000)),
      MonitoringEvent("violation", EventPayload("demo_student_789", "exam_1", None, None,
        Some("Tab switch detected"), Some("medium"), now - 11000)),
      MonitoringEvent("heartbeat", EventPayload("demo_student_789", "exam_1", Some(4), Some(true), None, None, now - 8000)),
      MonitoringEvent("webcam", EventPayload("demo_student_321", "exam_2", None, Some(false), None, None, now - 6000)) ]
  }

  /** A question with four options whose answer is one of them. */
  predicate WellKeyed(q: DemoQuestion) {
    |q.options| == 4 && 0 <= q.correctAnswer < |q.options|
  }

  /** Every question of `e` is well keyed. */
  predicate AllWellKeyed(e: DemoExam) {
    forall j :: 0 <= j < |e.questions| ==> WellKeyed(e.questions[j])
  }

  /** An exam announces as many questions as it has, and each has four options with the key among them. */
  predicate WellFormed(e: DemoExam) {
    e.totalQuestions == |e.questions| && AllWellKeyed(e)
  }

  lemma JavaScriptQuizFirstHalf()
    ensures |JavaScriptQuiz().questions| == 10
    ensures forall j :: 0 <= j < 5 ==> WellKeyed(JavaScriptQuiz().questions[j])
  {
  }

  lemma JavaScriptQuizSecondHalf()
    ensures |JavaScriptQuiz().questions| == 10
    ensures forall j :: 5 <= j < 10 ==> WellKeyed(JavaScriptQuiz().questions[j])
  {
  }

  /** The JavaScript quiz announces its 10 questions, each with four options and the key among them. */
  lemma JavaScriptQuizKeyed()
    ensures WellFormed(JavaScriptQuiz())
  {
    JavaScriptQuizFirstHalf();
    JavaScriptQuizSecondHalf();
  }

  /** The React quiz announces its 8 questions, each with four options and the key among them. */
  lemma ReactQuizKeyed()
    ensures WellFormed(ReactQuiz())
  {
  }

  /** The algebra quiz announces its 12 questions, each with four options and the key among them. */
  lemma AlgebraQuizKeyed()
    ensures WellFormed(AlgebraQuiz())
  {
  }

  /** The answers marked correct. */
  function MarkedCorrect(): GivenAnswer -> bool {
    (a: GivenAnswer) => a.isCorrect
  }

  /** The number of answers marked correct. */
  function CountCorrect(answers: seq<GivenAnswer>): (n: nat)
    ensures n == |Collections.Filter(answers, MarkedCorrect())|
    ensures n <= |answers|
  {
    if answers == [] then 0
    else (if answers[0].isCorrect then 1 else 0) + CountCorrect(answers[1..])
  }

  /** An answer is to question `q` and its mark says whether it picked the key. */
  predicate Agrees(a: GivenAnswer, q: DemoQuestion) {
    a.questionId == q.id && a.isCorrect == (a.selectedAnswer == q.correctAnswer)
  }

  /**
   * A result agrees with an exam's key: the answers follow the questions, each
   * mark says whether the selected option is that question's key, the score
   * counts the marks and the percentage is the score over the question count.
   */
  predicate GradedAgainst(r: StudentResult, exam: DemoExam) {
    && r.examId == exam.id
    && r.totalQuestions == |exam.questions| == |r.answers|
    && (forall k :: 0 <= k < |r.answers| ==> Agrees(r.answers[k], exam.questions[k]))
    && r.score == CountCorrect(r.answers)
    && r.percentage * r.totalQuestions == r.score * 100
  }

  /** The demo result is the JavaScript quiz graded: 8 of 10 correct, 80 percent. */
  lemma DemoResultGraded()
    ensures GradedAgainst(Results()[0], JavaScriptQuiz())
    ensures Results()[0].score == 8 && Results()[0].totalQuestions == 10
  {
    ResultMarksFirstHalf();
    ResultMarksSecondHalf();
    ResultScore();
  }

  lemma ResultMarksFirstHalf()
    ensures |Results()[0].answers| == |JavaScriptQuiz().questions| == 10
    ensures forall k :: 0 <= k < 5 ==> Agrees(Results()[0].answers[k], JavaScriptQuiz().questions[k])
  {
  }

  lemma ResultMarksSecondHalf()
    ensures |Results()[0].answers| == |JavaScriptQuiz().questions| == 10
    ensures forall k :: 5 <= k < 10 ==> Agrees(Results()[0].answers[k], JavaScriptQuiz().questions[k])
  {
  }

  lemma ResultScore()
    ensures CountCorrect(Results()[0].answers) == 8
  {
  }

  /** A question with its answer removed, as students receive it. */
  datatype StudentQuestion = StudentQuestion(id: string, question: string, options: seq<string>, points: int)

  datatype StudentExam = StudentExam(
    id: string, title: string, description: string, duration: int, totalQuestions: int,
    status: string, createdBy: string, createdAt: string, questions: seq<StudentQuestion>)

  /** What `getDemoExamsForRole` returns: the exams themselves, or their student projection. */
  datatype ExamsView = Full(full: seq<DemoExam>) | Limited(limited: seq<StudentExam>)

  function HideAnswer(q: DemoQuestion): StudentQuestion {
    StudentQuestion(q.id, q.question, q.options, q.points)
  }

  function HideAnswers(e: DemoExam): StudentExam {
    StudentExam(e.id, e.title, e.description, e.duration, e.totalQuestions, e.status, e.createdBy, e.createdAt,
      seq(|e.questions|, i requires 0 <= i < |e.questions| => HideAnswer(e.questions[i])))
  }

  /** `demoExams.map(...)` hiding the answers, exam by exam in order. */
  function StudentView(exams: seq<DemoExam>): (r: seq<StudentExam>)
    ensures |r| == |exams|
    ensures forall k :: 0 <= k < |exams| ==> SameButAnswers(r[k], exams[k])
  {
    seq(|exams|, k requires 0 <= k < |exams| => HideAnswers(exams[k]))
  }

  /** The choice `getDemoExamsForRole` makes over the exam list `exams`. */
  function ViewFor(role: DemoRole, exams: seq<DemoExam>): (r: ExamsView)
    ensures role == Teacher ==> r == Full(exams)
    ensures role == Student ==> r.Limited? && |r.limited| == |exams|
    ensures role == Student ==> forall k :: 0 <= k < |exams| ==> SameButAnswers(r.limited[k], exams[k])
  {
    if role == Teacher then Full(exams) else Limited(StudentView(exams))
  }

  /** `getDemoExamsForRole`. */
  function ExamsForRole(role: DemoRole): ExamsView {
    ViewFor(role, Exams())
  }

  /** A student exam carries every field of `e` and of each of its questions, in order, except the answer. */
  predicate SameButAnswers(s: StudentExam, e: DemoExam) {
    && s.id == e.id && s.title == e.title && s.description == e.description && s.duration == e.duration
    && s.totalQuestions == e.totalQuestions && s.status == e.status && s.createdBy == e.createdBy
    && s.createdAt == e.createdAt
    && |s.questions| == |e.questions|
    && forall j :: 0 <= j < |s.questions| ==>
         s.questions[j].id == e.questions[j].id && s.questions[j].question == e.questions[j].question
         && s.questions[j].options == e.questions[j].options && s.questions[j].points == e.questions[j].points
  }

  /** Putting the answers back into a student exam. */
  function WithAnswers(s: StudentExam, key: seq<int>): (e: DemoExam)
    requires |key| == |s.questions|
  {
    DemoExam(s.id, s.title, s.description, s.duration, s.totalQuestions, s.status, s.createdBy, s.createdAt,
      seq(|s.questions|, i requires 0 <= i < |s.questions| =>
        DemoQuestion(s.questions[i].id, s.questions[i].question, s.questions[i].options, key[i], s.questions[i].points)))
  }

  /** The answer key of an exam, question by question. */
  function Key(e: DemoExam): (key: seq<int>)
    ensures |key| == |e.questions|
  {
    seq(|e.questions|, i requires 0 <= i < |e.questions| => e.questions[i].correctAnswer)
  }

  /** The answers are all a student exam lacks: with the key of `e` put back it is `e` again. */
  lemma RestoreAnswers(s: StudentExam, e: DemoExam)
    requires SameButAnswers(s, e)
    ensures WithAnswers(s, Key(e)) == e
  {
    var w := WithAnswers(s, Key(e));
    assert w.questions == e.questions by {
      forall j | 0 <= j < |e.questions| ensures w.questions[j] == e.questions[j] { }
    }
  }

  /** `demoUsers.find(u => u.id === id)`. */
  function FindUser(users: seq<DemoUser>, id: string): (r: Option<DemoUser>)
    ensures r.None? <==> forall u :: u in users ==> u.id != id
    ensures r.Some? ==> exists k :: (0 <= k < |users| && users[k] == r.value && r.value.id == id
      && forall j :: 0 <= j < k ==> users[j].id != id)
  {
    if users == [] then None
    else if users[0].id == id then Some(users[0])
    else
      var t := FindUser(users[1..], id);
      if t.Some? then
        var k :| 0 <= k < |users| - 1 && users[1..][k] == t.value && t.value.id == id
          && forall j :: 0 <= j < k ==> users[1..][j].id != id;
        assert users[k + 1] == t.value;
        t
      else t
  }

  /** `getDemoUser`. */
  function UserById(id: string): (r: Option<DemoUser>)
    ensures r.None? <==> forall u :: u in Users() ==> u.id != id
    ensures r.Some? ==> r.value in Users() && r.value.id == id
  {
    FindUser(Users(), id)
  }

  /** `getDemoStudentResults`: the results of that student, in their order. */
  function StudentResults(studentId: string): (r: seq<StudentResult>)
    ensures Collections.Subsequence(r, Results())
    ensures forall x :: x in r <==> x in Results() && x.studentId == studentId
    ensures forall x :: multiset(r)[x] == if x.studentId == studentId then multiset(Results())[x] else 0
  {
    var keep := (x: StudentResult) => x.studentId == studentId;
    assert forall x :: multiset(Collections.Filter(Results(), keep))[x] == if keep(x) then multiset(Results())[x] else 0 by {
      forall x { Collections.FilterCount(Results(), keep, x); }
    }
    Collections.Filter(Results(), keep)
  }

  /** `getDemoSubmissionsByExam`: the submissions for that exam, in their order. */
  function SubmissionsByExam(examId: string): (r: seq<Submission>)
    ensures Collections.Subsequence(r, Submissions())
    ensures forall x :: x in r <==> x in Submissions() && x.examId == examId
    ensures forall x :: multiset(r)[x] == if x.examId == examId then multiset(Submissions())[x] else 0
  {
    var keep := (x: Submission) => x.examId == examId;
    assert forall x :: multiset(Collections.Filter(Submissions(), keep))[x] == if keep(x) then multiset(Submissions())[x] else 0 by {
      forall x { Collections.FilterCount(Submissions(), keep, x); }
    }
    Collections.Filter(Submissions(), keep)
  }

  /** The filter of `listDemoStudents` over any user list. */
  function StudentsIn(users: seq<DemoUser>): (r: seq<DemoUser>)
    ensures Collections.Subsequence(r, users)
    ensures forall x :: x in r <==> x in users && x.role == Student
    ensures forall x :: multiset(r)[x] == if x.role == Student then multiset(users)[x] else 0
  {
    var keep := (x: DemoUser) => x.role == Student;
    assert forall x :: multiset(Collections.Filter(users, keep))[x] == if keep(x) then multiset(users)[x] else 0 by {
      forall x { Collections.FilterCount(users, keep, x); }
    }
    Collections.Filter(users, keep)
  }

  /** `listDemoStudents`: the student users, in their order. */
  function Students(): (r: seq<DemoUser>)
    ensures Collections.Subsequence(r, Users())
    ensures forall x :: x in r <==> x in Users() && x.role == Student
    ensures forall x :: multiset(r)[x] == if x.role == Student then multiset(Users())[x] else 0
  {
    StudentsIn(Users())
  }

  /** The events `listDemoMonitoringEvents` keeps: all for an absent or empty id, else that exam's. */
  predicate Listed(examId: Option<string>, e: MonitoringEvent) {
    examId.None? || examId.value == "" || e.payload.examId == examId.value
  }

  /** The filter of `listDemoMonitoringEvents` over any event list. */
  function EventsFor(events: seq<MonitoringEvent>, examId: Option<string>): (r: seq<MonitoringEvent>)
    ensures examId.None? || examId.value == "" ==> r == events
    ensures Collections.Subsequence(r, events)
    ensures forall x :: x in r <==> x in events && Listed(examId, x)
    ensures forall x :: multiset(r)[x] == if Listed(examId, x) then multiset(events)[x] else 0
  {
    var keep := (e: MonitoringEvent) => Listed(examId, e);
    assert forall x :: multiset(Collections.Filter(events, keep))[x] == if keep(x) then multiset(events)[x] else 0 by {
      forall x { Collections.FilterCount(events, keep, x); }
    }
    if examId.None? || examId.value == "" then
      Collections.FilterAll(events, keep);
      Collections.Filter(events, keep)
    else
      Collections.Filter(events, keep)
  }

  /** `listDemoMonitoringEvents`: every event for an absent or empty id, else that exam's events in order. */
  function MonitoringEventsFor(examId: Option<string>, now: int): (r: seq<MonitoringEvent>)
    ensures examId.None? || examId.value == "" ==> r == MonitoringEvents(now)
    ensures Collections.Subsequence(r, MonitoringEvents(now))
    ensures forall x :: x in r <==> x in MonitoringEvents(now) && Listed(examId, x)
  {
    EventsFor(MonitoringEvents(now), examId)
  }
}
