/**
 * The exam list and exam creation route (app/api/exams/route.ts). GET pages
 * through the exams the caller may see, newest first. Teachers and admins see
 * the exams they created, students the exams they are enrolled in, and a
 * status parameter narrows the list. POST creates a DRAFT exam from a
 * validated body once every listed question exists. The exam, enrollment and
 * question tables are parameters. The rate limiter's verdict and the database
 * error text are parameters too.
 */
module ExamsRoute {
  import Text
  import opened Wrappers
  import opened ApiErrors
  import opened Auth
  import opened Records
  import Collections
  import Sorting
  import Validation

  datatype ExamRow = ExamRow(id: string, title: string, createdById: string, status: ExamStatus, createdAt: int)

  datatype Enrollment = Enrollment(examId: string, studentId: string)

  // ---------------------------------------------------------------------- GET

  predicate Given(p: Option<string>) { p.Some? && p.value != "" }

  /** `searchParams.get(name) || fallback`. */
  function ParamOr(p: Option<string>, fallback: string): string {
    if Given(p) then p.value else fallback
  }

  /**
   * The filter: a teacher or admin sees the exams they created and anyone
   * else the exams they are enrolled in; a given status must match.
   */
  predicate Shown(user: AuthUser, status: Option<string>, enrollments: seq<Enrollment>, e: ExamRow) {
    (if user.role == TEACHER || user.role == ADMIN then e.createdById == user.id
     else Enrollment(e.id, user.id) in enrollments)
    && (Given(status) ==> ExamStatusName(e.status) == status.value)
  }

  function CreatedKey(e: ExamRow): Sorting.Key { [Sorting.Num(e.createdAt)] }

  /** The exams the filter keeps, in table order. */
  function Kept(user: AuthUser, status: Option<string>, exams: seq<ExamRow>, enrollments: seq<Enrollment>): seq<ExamRow> {
    Collections.Filter(exams, (e: ExamRow) => Shown(user, status, enrollments, e))
  }

  /** Every exam the caller may see, newest first. */
  function Visible(user: AuthUser, status: Option<string>, exams: seq<ExamRow>, enrollments: seq<Enrollment>): seq<ExamRow> {
    Sorting.SortBy(CreatedKey, true, Kept(user, status, exams, enrollments))
  }

  /** The sorted list holds the kept rows, newest first. */
  lemma VisibleRows(user: AuthUser, status: Option<string>, exams: seq<ExamRow>, enrollments: seq<Enrollment>)
    ensures var all := Visible(user, status, exams, enrollments);
      |all| == |Kept(user, status, exams, enrollments)| && Sorting.Sorted(CreatedKey, true, all)
      && forall k :: 0 <= k < |all| ==> all[k] in exams && Shown(user, status, enrollments, all[k])
  {
    var kept := Kept(user, status, exams, enrollments);
    var all := Visible(user, status, exams, enrollments);
    forall k | 0 <= k < |all| ensures all[k] in exams && Shown(user, status, enrollments, all[k]) {
      assert all[k] in multiset(all);
      assert all[k] in multiset(kept);
      var j :| 0 <= j < |kept| && kept[j] == all[k];
    }
  }

  /** `skip` then `take` on a list. */
  function Window<T>(s: seq<T>, skip: nat, take: nat): (r: seq<T>)
    ensures |r| <= take
    ensures var lo := if skip <= |s| then skip else |s|;
      |r| == (if lo + take <= |s| then take else |s| - lo)
      && forall k :: 0 <= k < |r| ==> r[k] == s[lo + k]
  {
    var lo := if skip <= |s| then skip else |s|;
    var hi := if lo + take <= |s| then lo + take else |s|;
    s[lo..hi]
  }

  /** `Math.ceil(total / limit)`; `None` for a zero limit, where JavaScript gets Infinity or NaN and JSON writes null. */
  function TotalPages(total: nat, limit: int): (r: Option<int>)
    ensures r.None? <==> limit == 0
    ensures limit > 0 ==> (r.value - 1) * limit < total <= r.value * limit
    ensures limit < 0 ==> r.value * limit <= total < (r.value - 1) * limit
  {
    if limit == 0 then None
    else if limit > 0 then
      var q := (total + limit - 1) / limit;
      CeilPositive(total, limit);
      Some(q)
    else
      var q := -(total / -limit);
      CeilNegative(total, -limit);
      Some(q)
  }

  lemma CeilPositive(total: nat, limit: int)
    requires limit > 0
    ensures var q := (total + limit - 1) / limit; (q - 1) * limit < total <= q * limit
  {
    var q := (total + limit - 1) / limit;
    var m := (total + limit - 1) % limit;
    assert total + limit - 1 == q * limit + m && 0 <= m < limit;
    assert (q - 1) * limit == q * limit - limit;
  }

  lemma CeilNegative(total: nat, m: int)
    requires m > 0
    ensures var q := -(total / m); q * -m <= total < (q - 1) * -m
  {
    var d := total / m;
    assert total == d * m + total % m && 0 <= total % m < m;
    assert (-d) * -m == d * m;
    assert (-d - 1) * -m == d * m + m;
  }

  /** The page: `parseInt` of the parameter, or 1 (`parseInt('1')`) when absent. */
  function Page(pageParam: Option<string>): Option<int> {
    if Given(pageParam) then Text.ParseInt(pageParam.value) else Some(1)
  }

  /** The limit: `parseInt` of the parameter, or 20 (`parseInt('20')`) when absent. */
  function Limit(limitParam: Option<string>): Option<int> {
    if Given(limitParam) then Text.ParseInt(limitParam.value) else Some(20)
  }

  /** The page and limit read `p || fallback`: a given parameter, or the fallback text, through `parseInt`. */
  lemma PagingReadsFallback(pageParam: Option<string>, limitParam: Option<string>)
    ensures Page(pageParam) == Text.ParseInt(ParamOr(pageParam, "1"))
    ensures Limit(limitParam) == Text.ParseInt(ParamOr(limitParam, "20"))
  {
    ParsesDigits("1", 1);
    ParsesDigits("20", 20);
  }

  /** `parseInt` of a digit string. */
  lemma ParsesDigits(s: string, n: nat)
    requires s == Text.NatToString(n)
    ensures Text.ParseInt(s) == Some(n)
  {
    Text.ParseIntOfNat(n);
  }

  /**
   * Whether the database accepts the query: numbers for page and limit, no
   * negative skip or take, a known status. A negative take, which Prisma reads
   * as counting back from the end of the list, is treated as refused here.
   */
  predicate Accepted(pageParam: Option<string>, limitParam: Option<string>, status: Option<string>) {
    Page(pageParam).Some? && Limit(limitParam).Some?
    && (Page(pageParam).value - 1) * Limit(limitParam).value >= 0 && Limit(limitParam).value >= 0
    && (Given(status) ==> status.value in Validation.ExamStatuses)
  }

  datatype ExamPage = ExamPage(exams: seq<ExamRow>, page: int, limit: int, total: nat, totalPages: Option<int>)

  /**
   * `GET /api/exams`. `dbError` is what the database throws for a query it
   * refuses: a page or limit that is not a number, a negative skip or take,
   * or a status outside the enum.
   */
  function List(current: Option<AuthUser>, status: Option<string>, pageParam: Option<string>, limitParam: Option<string>,
                exams: seq<ExamRow>, enrollments: seq<Enrollment>, dbError: string): (r: Response<ExamPage>)
    ensures current.None? ==> r == ErrorBody(401, "Authentication required", None)
    ensures r.Success() <==> current.Some? && Accepted(pageParam, limitParam, status)
    ensures !r.Success() && current.Some? ==> r == ErrorBody(500, dbError, None)
    ensures r.Success() ==>
      var page := Page(pageParam).value;
      var limit := Limit(limitParam).value;
      var all := Visible(current.value, status, exams, enrollments);
      r.status == 200 && r.data.page == page && r.data.limit == limit
      && r.data.total == |all| && r.data.totalPages == TotalPages(|all|, limit)
      && r.data.exams == Window(all, (page - 1) * limit, limit)
  {
    if current.None? then ErrorHandler(ApiError(401, "Authentication required", None))
    else if !Accepted(pageParam, limitParam, status) then ErrorHandler(PlainError(dbError))
    else
      var page := Page(pageParam).value;
      var limit := Limit(limitParam).value;
      var all := Visible(current.value, status, exams, enrollments);
      SuccessResponse(ExamPage(Window(all, (page - 1) * limit, limit), page, limit, |all|, TotalPages(|all|, limit)), None)
  }

  /** A window of a sorted list is sorted. */
  lemma WindowSorted(s: seq<ExamRow>, skip: nat, take: nat)
    requires Sorting.Sorted(CreatedKey, true, s)
    ensures Sorting.Sorted(CreatedKey, true, Window(s, skip, take))
  {
    var w := Window(s, skip, take);
    var lo := if skip <= |s| then skip else |s|;
    forall i, j | 0 <= i < j < |w| ensures !Sorting.Before(CreatedKey, true, w[j], w[i]) {
      assert w[i] == s[lo + i] && w[j] == s[lo + j];
    }
  }

  /**
   * What a page holds: only exams the caller may see, of the asked status,
   * newest first, never more than the limit, and the total counts them all.
   * Teachers and admins see only their own exams; others only enrolled ones.
   */
  lemma ListedExams(current: Option<AuthUser>, status: Option<string>, pageParam: Option<string>, limitParam: Option<string>,
                    exams: seq<ExamRow>, enrollments: seq<Enrollment>, dbError: string)
    requires List(current, status, pageParam, limitParam, exams, enrollments, dbError).Success()
    ensures var r := List(current, status, pageParam, limitParam, exams, enrollments, dbError);
      var user := current.value;
      |r.data.exams| <= r.data.limit
      && Sorting.Sorted(CreatedKey, true, r.data.exams)
      && (forall k :: 0 <= k < |r.data.exams| ==>
            r.data.exams[k] in exams && Shown(user, status, enrollments, r.data.exams[k]))
      && (user.role != STUDENT ==> forall k :: 0 <= k < |r.data.exams| ==> r.data.exams[k].createdById == user.id)
      && (user.role == STUDENT ==> forall k :: 0 <= k < |r.data.exams| ==> Enrollment(r.data.exams[k].id, user.id) in enrollments)
      && r.data.total == |Kept(user, status, exams, enrollments)|
  {
    var r := List(current, status, pageParam, limitParam, exams, enrollments, dbError);
    var user := current.value;
    var all := Visible(user, status, exams, enrollments);
    VisibleRows(user, status, exams, enrollments);
    var page := Page(pageParam).value;
    var limit := Limit(limitParam).value;
    WindowSorted(all, (page - 1) * limit, limit);
  }

  /** Consecutive pages never overlap and leave nothing out: page p starts where page p - 1 ends. */
  lemma PagesTile(all: seq<ExamRow>, page: int, limit: int)
    requires page >= 2 && limit >= 0
    ensures var prev := Window(all, (page - 2) * limit, limit);
      var here := Window(all, (page - 1) * limit, limit);
      |prev| < limit ==> here == []
    ensures (page - 1) * limit == (page - 2) * limit + limit
  {
  }

  /** The last page is the first one that reaches the total: earlier pages are full, later ones empty. */
  lemma LastPageReachesTotal(total: nat, limit: int)
    requires limit > 0 && total > 0
    ensures var n := TotalPages(total, limit).value;
      n >= 1 && (n - 1) * limit < total && total <= n * limit
  {
  }

  // --------------------------------------------------------------------- POST

  datatype ExamQuestion = ExamQuestion(questionId: string, order: nat, randomizeOptions: bool)

  datatype CreatedExam = CreatedExam(
    id: string, title: string, description: string, duration: int, startTime: Option<string>, endTime: Option<string>,
    maxAttempts: int, passingScore: Option<int>, status: ExamStatus, settings: Validation.Settings,
    createdById: string, examQuestions: seq<ExamQuestion>)

  /** The body of a POST answer: the created exam, or the "not found" object sent with status 400. */
  datatype CreateAnswer = QuestionsMissing(error: string) | Created(exam: CreatedExam)

  /** How many rows `findMany({ where: { id: { in: ids } } })` returns from a table with ids `known`. */
  function FoundCount(known: set<string>, ids: seq<string>): nat {
    |known * (set x | x in ids)|
  }

  /** The count check passes exactly when the ids are distinct and all exist. */
  lemma FoundCountMatches(known: set<string>, ids: seq<string>)
    ensures FoundCount(known, ids) == |ids| <==> Collections.NoDuplicates(ids) && forall k :: 0 <= k < |ids| ==> ids[k] in known
  {
    var s := set x | x in ids;
    DistinctCount(ids);
    SubsetSize(known * s, s);
    if FoundCount(known, ids) == |ids| {
      SubsetCount(known * s, s);
      assert known * s == s;
      forall k | 0 <= k < |ids| ensures ids[k] in known {
        assert ids[k] in s;
      }
    }
    if Collections.NoDuplicates(ids) && forall k :: 0 <= k < |ids| ==> ids[k] in known {
      forall x | x in s ensures x in known {
        var k :| 0 <= k < |ids| && ids[k] == x;
      }
      assert known * s == s;
    }
  }

  /** A list has as many distinct elements as entries exactly when it has no duplicates. */
  lemma {:induction false} DistinctCount(ids: seq<string>)
    ensures |set x | x in ids| <= |ids|
    ensures |set x | x in ids| == |ids| <==> Collections.NoDuplicates(ids)
  {
    if ids != [] {
      var rest := ids[1..];
      DistinctCount(rest);
      var s := set x | x in ids;
      var t := set x | x in rest;
      assert s == {ids[0]} + t;
      if ids[0] in rest {
        assert s == t;
        var j :| 0 <= j < |rest| && rest[j] == ids[0];
        assert ids[0] == ids[j + 1];
      } else {
        assert |s| == |t| + 1;
        if Collections.NoDuplicates(rest) {
          forall i, j | 0 <= i < j < |ids| ensures ids[i] != ids[j] {
            if i > 0 {
              assert ids[i] == rest[i - 1] && ids[j] == rest[j - 1];
            } else {
              assert ids[j] == rest[j - 1];
            }
          }
        } else {
          var i, j :| 0 <= i < j < |rest| && rest[i] == rest[j];
          assert ids[i + 1] == ids[j + 1];
        }
      }
    }
  }

  /** A subset is no larger than its superset. */
  lemma {:induction false} SubsetSize(a: set<string>, b: set<string>)
    requires a <= b
    ensures |a| <= |b|
    decreases |a|
  {
    if a != {} {
      var x :| x in a;
      SubsetSize(a - {x}, b - {x});
    }
  }

  /** A subset as large as its superset is the whole superset. */
  lemma SubsetCount(a: set<string>, b: set<string>)
    requires a <= b && |a| == |b|
    ensures a == b
  {
    if a != b {
      var x :| x in b && x !in a;
      SubsetSize(a, b - {x});
    }
  }

  /** The exam rows `prisma.exam.create` writes: DRAFT, by the caller, the questions in order. */
  function NewExam(id: string, user: AuthUser, data: Validation.Exam): (e: CreatedExam)
    ensures e.status == DRAFT && e.createdById == user.id && |e.examQuestions| == |data.questionIds|
    ensures forall k :: 0 <= k < |data.questionIds| ==>
      e.examQuestions[k] == ExamQuestion(data.questionIds[k], k, data.settings.shuffleOptions)
  {
    var qs := data.questionIds;
    CreatedExam(id, data.title, data.description, data.duration, data.startTime, data.endTime, data.maxAttempts,
                data.passingScore, DRAFT, data.settings, user.id,
                seq(|qs|, k requires 0 <= k < |qs| => ExamQuestion(qs[k], k, data.settings.shuffleOptions)))
  }

  /**
   * The POST steps with the schema as a parameter: the rate limit first,
   * then `requireTeacher`, the body schema, and the question count check.
   * `known` is the set of question ids in the database and `newId` the new exam's id.
   */
  function CreateWith(schema: Validation.ExamBody -> Outcome<Validation.Exam>, limited: Outcome<()>,
                      current: Option<AuthUser>, body: Outcome<Validation.ExamBody>, known: set<string>, newId: string)
    : (r: Response<CreateAnswer>)
    ensures limited.Throws? ==> r == ErrorHandler(limited.error)
    ensures limited.Ok? ==> (RequireTeacher(current).Throws? ==> r == ErrorHandler(RequireTeacher(current).error))
    ensures r.Success() ==>
      limited.Ok? && RequireTeacher(current).Ok? && ValidateRequest(body, schema).Ok?
    ensures r.Success() && r.data.Created? ==>
      var data := ValidateRequest(body, schema).value;
      r.status == 201 && FoundCount(known, data.questionIds) == |data.questionIds|
      && r.data.exam == NewExam(newId, current.value, data)
    ensures r.Success() && r.data.QuestionsMissing? ==>
      r.status == 400 && r.data.error == "Some questions not found"
      && FoundCount(known, ValidateRequest(body, schema).value.questionIds) != |ValidateRequest(body, schema).value.questionIds|
    ensures limited.Ok? && RequireTeacher(current).Ok? && ValidateRequest(body, schema).Ok? ==> r.Success()
    ensures limited.Ok? && RequireTeacher(current).Ok? && ValidateRequest(body, schema).Throws? ==>
      r == ErrorHandler(ValidateRequest(body, schema).error)
    ensures limited.Ok? && RequireTeacher(current).Ok? && body.Ok? && schema(body.value).Throws? && schema(body.value).error.ZodError?
      ==> r == ErrorBody(400, "Validation error", Some(schema(body.value).error.issues))
  {
    if limited.Throws? then ErrorHandler(limited.error)
    else
      var auth := RequireTeacher(current);
      if auth.Throws? then ErrorHandler(auth.error)
      else
        var parsed := ValidateRequest(body, schema);
        if parsed.Throws? then ErrorHandler(parsed.error)
        else
          var data := parsed.value;
          if FoundCount(known, data.questionIds) != |data.questionIds| then
            SuccessResponse(QuestionsMissing("Some questions not found"), Some(400))
          else SuccessResponse(Created(NewExam(newId, auth.value, data)), Some(201))
  }

  /** `POST /api/exams` as written: the body is checked by `createExamSchema`. */
  function Create(f: Validation.Formats, limited: Outcome<()>, current: Option<AuthUser>,
                  body: Outcome<Validation.ExamBody>, known: set<string>, newId: string): (r: Response<CreateAnswer>)
    ensures r.Success() && r.data.Created? ==>
      body.Ok? && Validation.CreateExamAccepts(f, body.value) && r.data.exam.status == DRAFT
  {
    CreateWith(b => Validation.CreateExam(f, b), limited, current, body, known, newId)
  }

  /** POST with the refined schema `createExamSchemaWithChecks`. */
  function CreateChecked(f: Validation.Formats, limited: Outcome<()>, current: Option<AuthUser>,
                         body: Outcome<Validation.ExamBody>, known: set<string>, newId: string): (r: Response<CreateAnswer>)
    ensures r.Success() && r.data.Created? ==>
      body.Ok? && Validation.CreateExamAccepts(f, body.value) && !Validation.BothOn(r.data.exam.settings)
  {
    CreateWith(b => Validation.CreateExamWithChecks(f, b), limited, current, body, known, newId)
  }

  /** A body that asks for both the webcam and fullscreen mode, with one existing question. */
  function BothOnBody(): Validation.ExamBody {
    Validation.ExamBody(Some("Quiz"), None, Some(30), None, None, None, None, Some(["q1"]),
      Some(Validation.NoSettings.(requireWebcam := Some(true), enableFullscreenMode := Some(true))))
  }

  /**
   * The route as written creates an exam with the webcam requirement and
   * fullscreen mode both on, which the refined schema refuses.
   */
  lemma CreateAcceptsBothOn(f: Validation.Formats, teacher: AuthUser)
    requires teacher.role == TEACHER
    ensures var r := Create(f, Ok(()), Some(teacher), Ok(BothOnBody()), {"q1"}, "e1");
      r.Success() && r.data.Created? && Validation.BothOn(r.data.exam.settings)
    ensures var r := CreateChecked(f, Ok(()), Some(teacher), Ok(BothOnBody()), {"q1"}, "e1");
      r == ErrorBody(400, "Validation error", Some([Issue(["settings"], Validation.BothMessage)]))
  {
    var b := BothOnBody();
    assert Validation.CreateExamAccepts(f, b);
    assert (set x | x in ["q1"]) == {"q1"};
    assert FoundCount({"q1"}, ["q1"]) == 1;
  }

  /** A repeated question id fails the count check even when the question exists. */
  lemma DuplicateIdsRefused(known: set<string>, id: string)
    requires id in known
    ensures FoundCount(known, [id, id]) == 1 != |[id, id]|
  {
    assert (set x | x in [id, id]) == {id};
    assert known * {id} == {id};
  }
}
