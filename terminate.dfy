/**
 * The teacher's "terminate exam" action (app/api/attempts/terminate/exam/route.ts).
 * The database is a class whose tables are fields: exams, users and attempts
 * keyed by id, and the monitoring events and the audit log in insertion order.
 * A successful termination ends the student's in-progress attempt with score 0.
 * It then appends one monitoring event and one audit entry. The current user,
 * the request body, the clock and the request headers are parameters.
 */
module Terminate {
  import opened Wrappers
  import opened ApiErrors
  import opened Auth
  import opened Records

  datatype ExamRow = ExamRow(id: string, title: string, createdById: string)

  /** The `select` of the student: id, name and email. */
  datatype StudentRow = StudentRow(id: string, name: string, email: string)

  datatype AttemptRow = AttemptRow(
    id: string, examId: string, studentId: string, status: AttemptStatus, score: Option<int>, endTime: Option<int>)

  datatype EventRow = EventRow(
    examId: string, studentId: string, attemptId: string, kind: string, severity: string,
    description: string, metadata: map<string, string>)

  datatype AuditRow = AuditRow(
    userId: string, action: string, entity: string, entityId: string, changes: map<string, string>,
    ipAddress: string, userAgent: string)

  /** The request body's two fields; an empty string is as absent as a missing one. */
  datatype TerminateBody = TerminateBody(studentId: Option<string>, examId: Option<string>)

  /** What a successful termination answers. */
  datatype Terminated = Terminated(
    message: string, id: string, status: AttemptStatus, endTime: Option<int>, student: StudentRow,
    examId: string, examTitle: string)

  predicate Given(p: Option<string>) { p.Some? && p.value != "" }

  /** The rows `findFirst` may select: in progress, for that exam and that student. */
  predicate Active(a: AttemptRow, examId: string, studentId: string) {
    a.examId == examId && a.studentId == studentId && a.status == IN_PROGRESS
  }

  /** The attempt after termination. */
  function Ended(a: AttemptRow, now: int): (e: AttemptRow)
    ensures e.status == TERMINATED && e.score == Some(0) && e.endTime == Some(now)
    ensures e.id == a.id && e.examId == a.examId && e.studentId == a.studentId
  {
    a.(status := TERMINATED, score := Some(0), endTime := Some(now))
  }

  /** A terminated attempt is never selected again, whatever exam and student are asked for. */
  lemma EndedNotActive(a: AttemptRow, now: int, examId: string, studentId: string)
    ensures !Active(Ended(a, now), examId, studentId)
  {
  }

  /** Terminating is a transition out of IN_PROGRESS only: no other attempt status can be ended by the route. */
  lemma OnlyFromInProgress(a: AttemptRow, examId: string, studentId: string)
    requires Active(a, examId, studentId)
    ensures a.status == IN_PROGRESS && a.status != Ended(a, 0).status
  {
  }

  /** `x-forwarded-for || x-real-ip || 'unknown'`, the whole header without splitting at commas. */
  function IpAddress(forwardedFor: Option<string>, realIp: Option<string>): (ip: string)
    ensures ip != ""
    ensures Header(forwardedFor) != "" ==> ip == forwardedFor.value
    ensures Header(forwardedFor) == "" && Header(realIp) != "" ==> ip == realIp.value
  {
    if Header(forwardedFor) != "" then Header(forwardedFor)
    else if Header(realIp) != "" then Header(realIp)
    else "unknown"
  }

  function TerminationEvent(user: AuthUser, a: AttemptRow): EventRow {
    EventRow(a.examId, a.studentId, a.id, "EXAM_SUBMITTED", "HIGH", "Exam terminated by teacher: " + user.name,
             map["terminatedBy" := user.id, "terminatedByName" := user.name, "reason" := "Teacher terminated exam"])
  }

  function TerminationAudit(user: AuthUser, a: AttemptRow, ip: string, userAgent: string): AuditRow {
    AuditRow(user.id, "TERMINATE_EXAM", "Attempt", a.id,
             map["attemptId" := a.id, "studentId" := a.studentId, "examId" := a.examId,
                 "previousStatus" := AttemptStatusName(IN_PROGRESS), "newStatus" := AttemptStatusName(TERMINATED),
                 "terminatedBy" := user.name],
             ip, userAgent)
  }

  const MissingMessage := "studentId and examId are required"
  const NotFoundMessage := "No active attempt found for this student and exam"
  const ForbiddenMessage := "You can only terminate attempts for your own exams"

  class Database {
    var exams: map<string, ExamRow>
    var users: map<string, StudentRow>
    var attempts: map<string, AttemptRow>
    var events: seq<EventRow>
    var auditLog: seq<AuditRow>

    /** Rows are stored under their ids, and every attempt's exam and student exist. */
    ghost predicate Valid()
      reads this
    {
      (forall id :: id in exams ==> exams[id].id == id)
      && (forall id :: id in users ==> users[id].id == id)
      && forall id :: id in attempts ==>
           attempts[id].id == id && attempts[id].examId in exams && attempts[id].studentId in users
    }

    constructor (exams: map<string, ExamRow>, users: map<string, StudentRow>)
      requires forall id :: id in exams ==> exams[id].id == id
      requires forall id :: id in users ==> users[id].id == id
      ensures Valid()
      ensures this.exams == exams && this.users == users && attempts == map[] && events == [] && auditLog == []
    {
      this.exams := exams;
      this.users := users;
      attempts := map[];
      events := [];
      auditLog := [];
    }

    /** Whether some attempt of that student in that exam is in progress. */
    predicate HasActive(examId: string, studentId: string)
      reads this
    {
      exists id :: id in attempts && Active(attempts[id], examId, studentId)
    }

    /**
     * `POST /api/attempts/terminate/exam`. `body` is the parsed JSON or what
     * parsing threw, `now` is `new Date()`, and the three headers feed the audit entry.
     */
    method Terminate(current: Option<AuthUser>, body: Outcome<TerminateBody>, now: int,
                     forwardedFor: Option<string>, realIp: Option<string>, userAgent: Option<string>)
      returns (r: Response<Terminated>)
      requires Valid()
      modifies this
      ensures Valid()
      ensures exams == old(exams) && users == old(users)
      ensures !r.Success() ==> attempts == old(attempts) && events == old(events) && auditLog == old(auditLog)
      ensures current.None? ==> r == ErrorBody(401, "Authentication required", None)
      ensures current.Some? && current.value.role == STUDENT ==> r == ErrorBody(403, "Insufficient permissions", None)
      ensures RequireTeacher(current).Ok? && body.Ok? && !(Given(body.value.studentId) && Given(body.value.examId))
        ==> r == ErrorBody(400, MissingMessage, None)
      ensures RequireTeacher(current).Ok? && body.Ok? && Given(body.value.studentId) && Given(body.value.examId)
        && !old(HasActive(body.value.examId.value, body.value.studentId.value))
        ==> r == ErrorBody(404, NotFoundMessage, None)
      ensures RequireTeacher(current).Ok? && body.Ok? && Given(body.value.studentId) && Given(body.value.examId) ==>
        forall id :: id in old(attempts) && Active(old(attempts)[id], body.value.examId.value, body.value.studentId.value)
          && old(exams)[old(attempts)[id].examId].createdById != current.value.id
          ==> r == ErrorBody(403, ForbiddenMessage, None)
      ensures r.Success() ==>
        RequireTeacher(current).Ok? && body.Ok? && Given(body.value.studentId) && Given(body.value.examId)
        && var id := r.data.id;
           id in old(attempts)
           && Active(old(attempts)[id], body.value.examId.value, body.value.studentId.value)
           && old(exams)[old(attempts)[id].examId].createdById == current.value.id
           && attempts == old(attempts)[id := Ended(old(attempts)[id], now)]
           && events == old(events) + [TerminationEvent(current.value, old(attempts)[id])]
           && auditLog == old(auditLog)
              + [TerminationAudit(current.value, old(attempts)[id], IpAddress(forwardedFor, realIp), UserAgent(userAgent))]
           && r.status == 200 && r.data.status == TERMINATED && r.data.endTime == Some(now)
           && r.data.student == old(users)[old(attempts)[id].studentId]
           && r.data.examId == old(attempts)[id].examId
      ensures RequireTeacher(current).Ok? && body.Ok? && Given(body.value.studentId) && Given(body.value.examId)
        && (exists id :: id in old(attempts) && Active(old(attempts)[id], body.value.examId.value, body.value.studentId.value)
              && old(exams)[old(attempts)[id].examId].createdById == current.value.id)
        ==> r.Success()
    {
      var auth := RequireTeacher(current);
      if auth.Throws? {
        r := ErrorHandler(auth.error);
        return;
      }
      var user := auth.value;
      if body.Throws? {
        r := ErrorHandler(body.error);
        return;
      }
      var studentId := body.value.studentId;
      var examId := body.value.examId;
      if !Given(studentId) || !Given(examId) {
        r := ErrorHandler(ApiError(400, MissingMessage, None));
        return;
      }
      if !HasActive(examId.value, studentId.value) {
        r := ErrorHandler(ApiError(404, NotFoundMessage, None));
        return;
      }
      var id :| id in attempts && Active(attempts[id], examId.value, studentId.value);
      var attempt := attempts[id];
      var exam := exams[attempt.examId];
      if exam.createdById != user.id {
        r := ErrorHandler(ApiError(403, ForbiddenMessage, None));
        return;
      }
      var student := users[attempt.studentId];
      var terminated := EndAttempt(user, id, now, IpAddress(forwardedFor, realIp), UserAgent(userAgent));
      r := SuccessResponse(
        Terminated("Exam terminated successfully", terminated.id, terminated.status, terminated.endTime,
                   student, exam.id, exam.title),
        None);
    }

    /** The update, the monitoring event and the audit entry of a successful termination. */
    method EndAttempt(user: AuthUser, id: string, now: int, ip: string, userAgent: string) returns (terminated: AttemptRow)
      requires Valid() && id in attempts
      modifies this
      ensures Valid()
      ensures exams == old(exams) && users == old(users)
      ensures terminated == Ended(old(attempts)[id], now)
      ensures attempts == old(attempts)[id := terminated]
      ensures events == old(events) + [TerminationEvent(user, old(attempts)[id])]
      ensures auditLog == old(auditLog) + [TerminationAudit(user, old(attempts)[id], ip, userAgent)]
    {
      var attempt := attempts[id];
      terminated := Ended(attempt, now);
      attempts := attempts[id := terminated];
      events := events + [TerminationEvent(user, attempt)];
      auditLog := auditLog + [TerminationAudit(user, attempt, ip, userAgent)];
    }
  }

  /** All in-progress attempts of one student in one exam belong to the same exam, so the creator check does not depend on which one is selected. */
  lemma SameExamForAllCandidates(attempts: map<string, AttemptRow>, examId: string, studentId: string, i: string, j: string)
    requires i in attempts && j in attempts && Active(attempts[i], examId, studentId) && Active(attempts[j], examId, studentId)
    ensures attempts[i].examId == attempts[j].examId
  {
  }

  /** The audit entry records the IN_PROGRESS to TERMINATED transition for that attempt. */
  lemma AuditRecordsTransition(user: AuthUser, a: AttemptRow, ip: string, userAgent: string)
    ensures var e := TerminationAudit(user, a, ip, userAgent);
      e.action == "TERMINATE_EXAM" && e.entity == "Attempt" && e.entityId == a.id
      && e.changes["previousStatus"] == "IN_PROGRESS" && e.changes["newStatus"] == "TERMINATED"
      && e.changes["attemptId"] == a.id && e.userId == user.id
  {
  }

  /** The monitoring event is a HIGH-severity EXAM_SUBMITTED event of that attempt, naming the teacher. */
  lemma EventRecordsTermination(user: AuthUser, a: AttemptRow)
    ensures var e := TerminationEvent(user, a);
      e.kind == "EXAM_SUBMITTED" && e.severity == "HIGH" && e.attemptId == a.id && e.examId == a.examId
      && e.studentId == a.studentId && e.metadata["terminatedBy"] == user.id
  {
  }
}
