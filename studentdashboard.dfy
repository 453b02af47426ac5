/**
 * `GET /api/student/dashboard` (app/api/student/dashboard/route.ts): the
 * student's exams split into those open now and those still to come, the
 * last submitted attempts with their percentages, and the summary counts.
 *
 * The two database reads are modelled by their `where` and `take` over the
 * table rows, which arrive in the order the query asks for (`startTime`
 * ascending, `endTime` descending). `toISOString` is the parameter `iso`.
 */
module StudentDashboard {
  import opened Wrappers
  import Collections
  import Sorting
  import Records
  import Auth
  import ApiErrors
  import StudentPage
  import Numbers

  const CompletedAttemptsLimit := 10

  /** An exam row with the ids of the students enrolled in it; times are milliseconds. */
  datatype DbExam = DbExam(
    id: string, title: string, description: Option<string>, createdById: string, duration: int,
    startTime: Option<int>, endTime: Option<int>, maxAttempts: int,
    settings: Option<StudentPage.PartialSettings>, status: Records.ExamStatus, createdAt: int,
    enrolledStudentIds: seq<string>)

  datatype DbSubmission = DbSubmission(score: Option<real>, totalPoints: Option<real>)

  datatype DbAttempt = DbAttempt(
    id: string, examId: string, examTitle: string, studentId: string, startTime: int, endTime: Option<int>,
    score: Option<real>, status: Records.AttemptStatus, submission: Option<DbSubmission>)

  datatype SerializedAttempt = SerializedAttempt(
    id: string, examId: string, examTitle: string, studentId: string, startTime: string,
    endTime: Option<string>, score: Option<real>, status: string)

  datatype Stats = Stats(totalExams: int, completedExams: int, averageScore: real, upcomingExams: int)

  datatype Dashboard = Dashboard(
    availableExams: seq<StudentPage.ApiExam>, upcomingExams: seq<StudentPage.ApiExam>,
    completedAttempts: seq<SerializedAttempt>, stats: Stats)

  /** The exam query's `where`: enrolled, and published, ongoing or completed. */
  predicate Listed(e: DbExam, studentId: string) {
    studentId in e.enrolledStudentIds && e.status in {Records.PUBLISHED, Records.ONGOING, Records.COMPLETED}
  }

  function ListedTest(studentId: string): DbExam -> bool {
    e => Listed(e, studentId)
  }

  /** The attempt query's `where`: the student's own submitted attempts. */
  predicate Counted(a: DbAttempt, studentId: string) {
    a.studentId == studentId && a.status == Records.SUBMITTED
  }

  function CountedTest(studentId: string): DbAttempt -> bool {
    a => Counted(a, studentId)
  }

  /** The attempt query: the first `CompletedAttemptsLimit` matching rows. */
  function RecentAttempts(rows: seq<DbAttempt>, studentId: string): (r: seq<DbAttempt>)
    ensures |r| <= CompletedAttemptsLimit
    ensures forall k :: 0 <= k < |r| ==> r[k] in rows && Counted(r[k], studentId)
    ensures |r| <= |Collections.Filter(rows, CountedTest(studentId))|
    ensures r == Collections.Filter(rows, CountedTest(studentId))[..|r|]
    ensures |r| == CompletedAttemptsLimit || r == Collections.Filter(rows, CountedTest(studentId))
  {
    var all := Collections.Filter(rows, CountedTest(studentId));
    if |all| <= CompletedAttemptsLimit then all else all[..CompletedAttemptsLimit]
  }

  /** The `availableExams` filter. */
  predicate Available(e: DbExam, now: int) {
    if e.status !in {Records.PUBLISHED, Records.ONGOING} then false
    else if e.startTime.Some? && e.startTime.value > now then false
    else if e.endTime.Some? && e.endTime.value < now then false
    else true
  }

  function AvailableTest(now: int): DbExam -> bool {
    e => Available(e, now)
  }

  /** The `upcomingExams` filter. */
  predicate Upcoming(e: DbExam, now: int) {
    e.startTime.Some? && e.startTime.value > now
  }

  function UpcomingTest(now: int): DbExam -> bool {
    e => Upcoming(e, now)
  }

  /** The comparator `(a.startTime?.getTime() ?? 0) - (b.startTime?.getTime() ?? 0)`. */
  function StartKey(e: DbExam): Sorting.Key {
    [Sorting.Num(e.startTime.GetOr(0))]
  }

  /** The exams not yet started, earliest first. */
  function UpcomingExams(exams: seq<DbExam>, now: int): (r: seq<DbExam>)
    ensures multiset(r) == multiset(Collections.Filter(exams, UpcomingTest(now)))
    ensures forall e :: e in r <==> e in exams && Upcoming(e, now)
    ensures forall k :: 0 <= k < |r| ==> r[k].startTime.Some? && r[k].startTime.value > now
    ensures forall i, j :: 0 <= i < j < |r| ==> r[i].startTime.value <= r[j].startTime.value
  {
    var r := Sorting.SortBy(StartKey, false, Collections.Filter(exams, UpcomingTest(now)));
    SortedUpcoming(exams, now, r);
    r
  }

  /** Any rearrangement of the upcoming exams sorted by `StartKey` holds exactly them, earliest first. */
  lemma SortedUpcoming(exams: seq<DbExam>, now: int, r: seq<DbExam>)
    requires multiset(r) == multiset(Collections.Filter(exams, UpcomingTest(now)))
    requires Sorting.Sorted(StartKey, false, r)
    ensures forall e :: e in r <==> e in exams && Upcoming(e, now)
    ensures forall k :: 0 <= k < |r| ==> r[k].startTime.Some? && r[k].startTime.value > now
    ensures forall i, j :: 0 <= i < j < |r| ==> r[i].startTime.value <= r[j].startTime.value
  {
    var f := Collections.Filter(exams, UpcomingTest(now));
    SameMembers(r, f);
    assert forall k :: 0 <= k < |r| ==> r[k] in f;
    StartsInOrder(r, now);
  }

  lemma SameMembers<T>(a: seq<T>, b: seq<T>)
    requires multiset(a) == multiset(b)
    ensures forall x :: x in a <==> x in b
  {
    forall x ensures x in a <==> x in b {
      assert x in a <==> x in multiset(a);
      assert x in b <==> x in multiset(b);
    }
  }

  /** A list sorted by `StartKey` whose exams all have a start time lists them by start time. */
  lemma StartsInOrder(r: seq<DbExam>, now: int)
    requires Sorting.Sorted(StartKey, false, r)
    requires forall k :: 0 <= k < |r| ==> r[k].startTime.Some? && r[k].startTime.value > now
    ensures forall i, j :: 0 <= i < j < |r| ==> r[i].startTime.value <= r[j].startTime.value
  {
    forall i, j | 0 <= i < j < |r| ensures r[i].startTime.value <= r[j].startTime.value {
      assert !Sorting.Before(StartKey, false, r[j], r[i]);
      var a, b := r[j].startTime.value, r[i].startTime.value;
      assert StartKey(r[j]) == [Sorting.Num(a)] && StartKey(r[i]) == [Sorting.Num(b)];
      assert !Sorting.KeyLt([Sorting.Num(a)], [Sorting.Num(b)]);
    }
  }

  /** `serializeExam`. */
  function SerializeExam(e: DbExam, iso: int -> string): (r: StudentPage.ApiExam)
    ensures r.description == e.description.GetOr("")
    ensures r.status == Records.LowerExamStatus(e.status)
    ensures r.teacherId == e.createdById
    ensures r.startTime.Some? <==> e.startTime.Some?
    ensures r.endTime.Some? <==> e.endTime.Some?
  {
    StudentPage.ApiExam(
      e.id, e.title, e.description.GetOr(""), e.createdById, e.duration,
      if e.startTime.Some? then Some(iso(e.startTime.value)) else None,
      if e.endTime.Some? then Some(iso(e.endTime.value)) else None,
      e.maxAttempts, e.settings, Records.LowerExamStatus(e.status), iso(e.createdAt))
  }

  function SerializeExams(es: seq<DbExam>, iso: int -> string): (r: seq<StudentPage.ApiExam>)
    ensures |r| == |es| && forall k :: 0 <= k < |es| ==> r[k] == SerializeExam(es[k], iso)
  {
    seq(|es|, k requires 0 <= k < |es| => SerializeExam(es[k], iso))
  }

  /** The score shown for an attempt: the submission's score, else the attempt's, as a percentage when a positive total is known. */
  function Percentage(a: DbAttempt): (r: Option<real>)
    ensures r.None? <==> (a.submission.None? || a.submission.value.score.None?) && a.score.None?
    ensures a.submission.Some? && a.submission.value.score.Some? && a.submission.value.totalPoints.Some?
            && a.submission.value.totalPoints.value > 0.0
            ==> r == Some(Numbers.Fixed2(a.submission.value.score.value / a.submission.value.totalPoints.value * 100.0))
    ensures a.submission.Some? && a.submission.value.score.Some?
            && !(a.submission.value.totalPoints.Some? && a.submission.value.totalPoints.value > 0.0)
            ==> r == Some(Numbers.Fixed2(a.submission.value.score.value))
    ensures a.submission.Some? && a.submission.value.score.None? && a.score.Some?
            && a.submission.value.totalPoints.Some? && a.submission.value.totalPoints.value > 0.0
            ==> r == Some(Numbers.Fixed2(a.score.value / a.submission.value.totalPoints.value * 100.0))
    ensures a.submission.Some? && a.submission.value.score.None? && a.score.Some?
            && !(a.submission.value.totalPoints.Some? && a.submission.value.totalPoints.value > 0.0)
            ==> r == Some(Numbers.Fixed2(a.score.value))
    ensures a.submission.None? && a.score.Some? ==> r == Some(Numbers.Fixed2(a.score.value))
  {
    var totalPoints := if a.submission.Some? then a.submission.value.totalPoints else None;
    var rawScore := if a.submission.Some? && a.submission.value.score.Some? then a.submission.value.score else a.score;
    match rawScore
    case None => None
    case Some(raw) =>
      if totalPoints.Some? && totalPoints.value > 0.0 then Some(Numbers.Fixed2(raw / totalPoints.value * 100.0))
      else Some(Numbers.Fixed2(raw))
  }

  function SerializeAttempt(a: DbAttempt, iso: int -> string): (r: SerializedAttempt)
    ensures r.score == Percentage(a)
    ensures r.status == Records.LowerAttemptStatus(a.status)
    ensures r.id == a.id && r.examId == a.examId && r.examTitle == a.examTitle
  {
    SerializedAttempt(a.id, a.examId, a.examTitle, a.studentId, iso(a.startTime),
                      if a.endTime.Some? then Some(iso(a.endTime.value)) else None,
                      Percentage(a), Records.LowerAttemptStatus(a.status))
  }

  function SerializeAttempts(as_: seq<DbAttempt>, iso: int -> string): (r: seq<SerializedAttempt>)
    ensures |r| == |as_| && forall k :: 0 <= k < |as_| ==> r[k] == SerializeAttempt(as_[k], iso)
  {
    seq(|as_|, k requires 0 <= k < |as_| => SerializeAttempt(as_[k], iso))
  }

  /** `reduce((sum, attempt) => sum + (attempt.score ?? 0), 0)`. */
  function ScoreSum(cs: seq<SerializedAttempt>): real
    decreases |cs|
  {
    if cs == [] then 0.0 else ScoreSum(cs[..|cs| - 1]) + cs[|cs| - 1].score.GetOr(0.0)
  }

  /** The mean before rounding: 0 for no attempts. */
  function MeanScore(cs: seq<SerializedAttempt>): real {
    if |cs| > 0 then ScoreSum(cs) / (|cs| as real) else 0.0
  }

  /** Scores between `lo` and `hi` (a missing one counting as 0) sum to between `n·lo` and `n·hi`. */
  lemma {:induction false} ScoreSumBounds(cs: seq<SerializedAttempt>, lo: real, hi: real)
    requires forall k :: 0 <= k < |cs| ==> lo <= cs[k].score.GetOr(0.0) <= hi
    ensures (|cs| as real) * lo <= ScoreSum(cs) <= (|cs| as real) * hi
    decreases |cs|
  {
    if cs != [] {
      ScoreSumBounds(cs[..|cs| - 1], lo, hi);
    }
  }

  /** With every shown score between 0 and 100, so is the mean. */
  lemma MeanScoreIsPercentage(cs: seq<SerializedAttempt>)
    requires forall k :: 0 <= k < |cs| ==> 0.0 <= cs[k].score.GetOr(0.0) <= 100.0
    ensures 0.0 <= MeanScore(cs) <= 100.0
  {
    if |cs| > 0 {
      ScoreSumBounds(cs, 0.0, 100.0);
      var n := |cs| as real;
      assert ScoreSum(cs) / n <= 100.0 by {
        assert ScoreSum(cs) <= n * 100.0;
      }
    }
  }

  function ComputeStats(exams: seq<DbExam>, completed: seq<SerializedAttempt>, upcoming: seq<DbExam>): (r: Stats)
    ensures r.totalExams == |exams| && r.completedExams == |completed| && r.upcomingExams == |upcoming|
    ensures completed == [] ==> r.averageScore == 0.0
    ensures completed != [] ==> r.averageScore == Numbers.Fixed2(MeanScore(completed))
  {
    Stats(|exams|, |completed|, if |completed| > 0 then Numbers.Fixed2(MeanScore(completed)) else 0.0, |upcoming|)
  }

  /** With every shown score a percentage, so is the average. */
  lemma AverageIsPercentage(exams: seq<DbExam>, completed: seq<SerializedAttempt>, upcoming: seq<DbExam>)
    requires forall k :: 0 <= k < |completed| ==> 0.0 <= completed[k].score.GetOr(0.0) <= 100.0
    ensures 0.0 <= ComputeStats(exams, completed, upcoming).averageScore <= 100.0
  {
    if completed != [] {
      MeanScoreIsPercentage(completed);
      Numbers.Fixed2Within(MeanScore(completed), 100);
    }
  }

  /** `AverageIsPercentage`, stated for any list of shown attempts. */
  lemma Percentages(exams: seq<DbExam>, completed: seq<SerializedAttempt>, upcoming: seq<DbExam>)
    ensures (forall k :: 0 <= k < |completed| ==> 0.0 <= completed[k].score.GetOr(0.0) <= 100.0)
      ==> 0.0 <= ComputeStats(exams, completed, upcoming).averageScore <= 100.0
  {
    if forall k :: 0 <= k < |completed| ==> 0.0 <= completed[k].score.GetOr(0.0) <= 100.0 {
      AverageIsPercentage(exams, completed, upcoming);
    }
  }

  /** A submission scoring between 0 and its positive total shows a percentage between 0 and 100. */
  lemma PercentageBounded(a: DbAttempt)
    requires a.submission.Some? && a.submission.value.score.Some? && a.submission.value.totalPoints.Some?
    requires 0.0 <= a.submission.value.score.value <= a.submission.value.totalPoints.value
    requires a.submission.value.totalPoints.value > 0.0
    ensures Percentage(a).Some? && 0.0 <= Percentage(a).value <= 100.0
  {
    var score, total := a.submission.value.score.value, a.submission.value.totalPoints.value;
    assert score / total <= 1.0;
    Numbers.Fixed2Within(score / total * 100.0, 100);
  }

  /** The body computed after the guard, from the rows of the two tables. */
  function Build(studentId: string, examRows: seq<DbExam>, attemptRows: seq<DbAttempt>, now: int,
                 iso: int -> string): (r: Dashboard)
    ensures var exams := Collections.Filter(examRows, ListedTest(studentId));
      && r.availableExams == SerializeExams(Collections.Filter(exams, AvailableTest(now)), iso)
      && r.upcomingExams == SerializeExams(UpcomingExams(exams, now), iso)
      && r.stats.totalExams == |exams|
    ensures r.completedAttempts == SerializeAttempts(RecentAttempts(attemptRows, studentId), iso)
    ensures r.stats.completedExams == |r.completedAttempts| <= CompletedAttemptsLimit
    ensures r.stats.upcomingExams == |r.upcomingExams|
    ensures r.completedAttempts == [] ==> r.stats.averageScore == 0.0
    ensures r.completedAttempts != [] ==> r.stats.averageScore == Numbers.Fixed2(MeanScore(r.completedAttempts))
    ensures (forall k :: 0 <= k < |r.completedAttempts| ==> 0.0 <= r.completedAttempts[k].score.GetOr(0.0) <= 100.0)
      ==> 0.0 <= r.stats.averageScore <= 100.0
  {
    var exams := Collections.Filter(examRows, ListedTest(studentId));
    var upcoming := UpcomingExams(exams, now);
    var completed := SerializeAttempts(RecentAttempts(attemptRows, studentId), iso);
    Percentages(exams, completed, upcoming);
    Dashboard(SerializeExams(Collections.Filter(exams, AvailableTest(now)), iso), SerializeExams(upcoming, iso),
              completed, ComputeStats(exams, completed, upcoming))
  }

  /** `GET`: a student gets the dashboard; anyone else gets the guard's error. */
  function Get(current: Option<Auth.AuthUser>, examRows: seq<DbExam>, attemptRows: seq<DbAttempt>, now: int,
               iso: int -> string): (r: ApiErrors.Response<Dashboard>)
    ensures r.Success() <==> current.Some? && current.value.role == Auth.STUDENT
    ensures r.Success() ==> r.status == 200 && r.data == Build(current.value.id, examRows, attemptRows, now, iso)
    ensures !r.Success() ==> r == ApiErrors.ErrorHandler(Auth.RequireStudent(current).error)
  {
    Auth.RequireStudentAdmits(current);
    match Auth.RequireStudent(current)
    case Throws(e) => ApiErrors.ErrorHandler(e)
    case Ok(user) =>
      ApiErrors.SuccessResponse(Build(user.id, examRows, attemptRows, now, iso), None)
  }

  /** `toISOString` can be read back by the page's date parser. */
  ghost predicate IsoReadable(iso: int -> string, parse: string -> Option<int>) {
    forall t :: iso(t) != "" && parse(iso(t)) == Some(t)
  }

  lemma ReadIso(iso: int -> string, parse: string -> Option<int>, t: int)
    requires IsoReadable(iso, parse)
    ensures iso(t) != "" && parse(iso(t)) == Some(t)
  {
  }

  /** The route's availability filter is exactly the page's `canStartExam` on the exam it sends. */
  lemma AvailableIsCanStart(e: DbExam, now: int, iso: int -> string, parse: string -> Option<int>)
    requires IsoReadable(iso, parse)
    ensures Available(e, now) <==> StudentPage.CanStartExam(StudentPage.ParseExam(SerializeExam(e, iso), parse), now)
  {
    var p := StudentPage.ParseExam(SerializeExam(e, iso), parse);
    assert p.startTime == e.startTime by {
      if e.startTime.Some? { ReadIso(iso, parse, e.startTime.value); }
    }
    assert p.endTime == e.endTime by {
      if e.endTime.Some? { ReadIso(iso, parse, e.endTime.value); }
    }
  }

  /** No exam is both open now and still to come. */
  lemma AvailableNotUpcoming(exams: seq<DbExam>, now: int)
    ensures forall e :: e in Collections.Filter(exams, AvailableTest(now)) ==> e !in UpcomingExams(exams, now)
  {
  }

  /** Neither are the exams sent in the two lists: a sent exam carries its start time. */
  lemma SentListsDisjoint(exams: seq<DbExam>, now: int, iso: int -> string, parse: string -> Option<int>)
    requires IsoReadable(iso, parse)
    ensures var available := SerializeExams(Collections.Filter(exams, AvailableTest(now)), iso);
      var upcoming := SerializeExams(UpcomingExams(exams, now), iso);
      forall i, j :: 0 <= i < |available| && 0 <= j < |upcoming| ==> available[i] != upcoming[j]
  {
    var av := Collections.Filter(exams, AvailableTest(now));
    var up := UpcomingExams(exams, now);
    forall i, j | 0 <= i < |av| && 0 <= j < |up| ensures SerializeExam(av[i], iso) != SerializeExam(up[j], iso) {
      assert up[j] in up;
      var t := up[j].startTime.value;
      ReadIso(iso, parse, t);
      if av[i].startTime.Some? {
        ReadIso(iso, parse, av[i].startTime.value);
      }
    }
  }

  /** A completed exam whose start time lies ahead is listed as upcoming, though it will never open. */
  lemma CompletedCanBeUpcoming(e: DbExam, now: int)
    requires e.status == Records.COMPLETED && e.startTime.Some? && e.startTime.value > now
    ensures e in UpcomingExams([e], now)
    ensures forall later :: later >= now ==> !Available(e, later)
  {
    assert UpcomingTest(now)(e);
    assert e in [e];
  }

  /** Draft and archived exams reach none of the lists. */
  lemma HiddenStatuses(examRows: seq<DbExam>, studentId: string, e: DbExam)
    requires e.status in {Records.DRAFT, Records.ARCHIVED}
    ensures e !in Collections.Filter(examRows, ListedTest(studentId))
  {
  }
}
