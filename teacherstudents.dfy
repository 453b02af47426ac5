/**
 * `GET /api/teacher/students` (app/api/teacher/students/route.ts): the
 * students enrolled in the teacher's exams, one record per student with the
 * name split in two, the credits and GPA of their submitted attempts, and the
 * exams they are enrolled in; and the distinct titles of the teacher's exams.
 *
 * The database reads are modelled by their `where` and `distinct` over the
 * table rows. The GPA is computed on exact reals.
 */
module TeacherStudents {
  import Text
  import opened Wrappers
  import Collections
  import Records
  import Auth
  import ApiErrors
  import Numbers

  datatype StudentUser = StudentUser(id: string, name: string, email: string, createdAt: int)

  /** An enrollment row with its student and the id, title and creator of its exam. */
  datatype Enrollment = Enrollment(
    studentId: string, student: StudentUser, examId: string, examTitle: string, examCreatedById: string, enrolledAt: int)

  datatype Submission = Submission(score: Option<real>, totalPoints: Option<real>)

  datatype Attempt = Attempt(
    studentId: string, examCreatedById: string, status: Records.AttemptStatus, score: Option<real>,
    submission: Option<Submission>)

  datatype ExamRow = ExamRow(id: string, title: string, createdById: string)

  datatype AcademicInfo = AcademicInfo(
    gpa: real, totalCredits: int, completedCredits: int, semester: string, year: int, major: string)

  datatype StudentRecord = StudentRecord(
    id: string, studentId: string, firstName: string, lastName: string, name: string, email: string,
    phone: string, enrollmentDate: int, status: string, academicStatus: string, className: string,
    enrolledClasses: seq<string>, academicInfo: AcademicInfo, createdAt: int)

  datatype StudentList = StudentList(students: seq<StudentRecord>, classes: seq<string>)

  /** `name.split(' ')[0] || name`. */
  function FirstName(name: string): string {
    var p := Text.Split(name, ' ')[0];
    if p != "" then p else name
  }

  /** `name.split(' ').slice(1).join(' ') || ''`. */
  function LastName(name: string): string {
    Text.Join(Text.Split(name, ' ')[1..], " ")
  }

  /**
   * A name with no space is all first name. Otherwise the name is its first
   * piece, a space and the last name: the last name is the rest after the
   * first space, and the first name is the first piece unless that is empty.
   */
  lemma NameParts(name: string)
    ensures ' ' !in name ==> FirstName(name) == name && LastName(name) == ""
    ensures ' ' in name ==> (var p := Text.Split(name, ' ')[0];
      && name == p + " " + LastName(name)
      && FirstName(name) == (if p != "" then p else name))
  {
    var parts := Text.Split(name, ' ');
    if ' ' !in name {
      Text.SplitWithoutSeparator(name, ' ');
      assert parts[1..] == [];
    } else {
      Text.JoinSplit(name, ' ');
      assert Text.Join(parts, [' ']) == parts[0] + [' '] + Text.Join(parts[1..], [' ']);
    }
  }

  /** The attempts counted: submitted and with a submission. */
  predicate Completed(a: Attempt) {
    a.status == Records.SUBMITTED && a.submission.Some?
  }

  function CompletedTest(): Attempt -> bool {
    a => Completed(a)
  }

  /** An attempt's score on the 4-point scale; a missing total counts as 100, a missing score as 0. */
  function GradePoints(a: Attempt): (r: real)
    ensures (a.submission.Some? && a.submission.value.totalPoints.Some? && a.submission.value.totalPoints.value <= 0.0) ==> r == 0.0
  {
    var totalPoints := if a.submission.Some? && a.submission.value.totalPoints.Some? then a.submission.value.totalPoints.value else 100.0;
    var score := if a.submission.Some? && a.submission.value.score.Some? then a.submission.value.score.value
                 else a.score.GetOr(0.0);
    if totalPoints > 0.0 then score / totalPoints * 4.0 else 0.0
  }

  function GradeSum(as_: seq<Attempt>): real
    decreases |as_|
  {
    if as_ == [] then 0.0 else GradeSum(as_[..|as_| - 1]) + GradePoints(as_[|as_| - 1])
  }

  /** `avgGpa`: the mean grade of the completed attempts, 0 without any. */
  function AverageGpa(completed: seq<Attempt>): real {
    if |completed| > 0 then GradeSum(completed) / (|completed| as real) else 0.0
  }

  /** Grades between 0 and 4 sum to between 0 and 4 per attempt. */
  lemma {:induction false} GradeSumBounds(as_: seq<Attempt>)
    requires forall k :: 0 <= k < |as_| ==> 0.0 <= GradePoints(as_[k]) <= 4.0
    ensures 0.0 <= GradeSum(as_) <= 4.0 * (|as_| as real)
    decreases |as_|
  {
    if as_ != [] {
      GradeSumBounds(as_[..|as_| - 1]);
    }
  }

  /** With each attempt's grade on the 4-point scale, so is the average, and the GPA shown. */
  lemma GpaOnScale(completed: seq<Attempt>)
    requires forall k :: 0 <= k < |completed| ==> 0.0 <= GradePoints(completed[k]) <= 4.0
    ensures 0.0 <= AverageGpa(completed) <= 4.0
    ensures 0.0 <= Numbers.Fixed2(AverageGpa(completed)) <= 4.0
  {
    if |completed| > 0 {
      GradeSumBounds(completed);
      var n := |completed| as real;
      assert GradeSum(completed) / n <= 4.0 by {
        assert GradeSum(completed) <= 4.0 * n;
      }
    }
    Numbers.Fixed2Within(AverageGpa(completed), 4);
  }

  /** `GpaOnScale`, stated for any list of completed attempts. */
  lemma GpaScale(completed: seq<Attempt>)
    ensures (forall k :: 0 <= k < |completed| ==> 0.0 <= GradePoints(completed[k]) <= 4.0)
      ==> 0.0 <= Numbers.Fixed2(AverageGpa(completed)) <= 4.0
  {
    if forall k :: 0 <= k < |completed| ==> 0.0 <= GradePoints(completed[k]) <= 4.0 {
      GpaOnScale(completed);
    }
  }

  /** The attempts query for one enrollment: that student's attempts at the teacher's exams. */
  predicate OwnAttempt(a: Attempt, studentId: string, teacherId: string) {
    a.studentId == studentId && a.examCreatedById == teacherId
  }

  function OwnAttemptTest(studentId: string, teacherId: string): Attempt -> bool {
    a => OwnAttempt(a, studentId, teacherId)
  }

  /** The record built for one enrollment. */
  function Record(e: Enrollment, attempts: seq<Attempt>, teacherId: string): (r: StudentRecord)
    ensures var completed := Collections.Filter(Collections.Filter(attempts, OwnAttemptTest(e.studentId, teacherId)), CompletedTest());
      && r.academicInfo.completedCredits == 3 * |completed|
      && (completed == [] ==> r.academicInfo.gpa == 0.0 && r.academicStatus == "regular")
      && (r.academicStatus == "honors" <==> AverageGpa(completed) >= 3.5)
      && r.academicInfo.gpa == Numbers.Fixed2(AverageGpa(completed))
      && ((forall k :: 0 <= k < |completed| ==> 0.0 <= GradePoints(completed[k]) <= 4.0) ==> 0.0 <= r.academicInfo.gpa <= 4.0)
    ensures r.id == e.student.id && r.firstName == FirstName(e.student.name) && r.lastName == LastName(e.student.name)
    ensures r.enrolledClasses == [e.examId] && r.className == e.examTitle
  {
    var own := Collections.Filter(attempts, OwnAttemptTest(e.studentId, teacherId));
    var completed := Collections.Filter(own, CompletedTest());
    var avgGpa := AverageGpa(completed);
    Numbers.Fixed2Zero();
    GpaScale(completed);
    StudentRecord(
      e.student.id, e.student.id, FirstName(e.student.name), LastName(e.student.name), e.student.name,
      e.student.email, "", e.enrolledAt, "active", if avgGpa >= 3.5 then "honors" else "regular", e.examTitle,
      [e.examId], AcademicInfo(Numbers.Fixed2(avgGpa), 0, |completed| * 3, "Current", 1, "Unknown"),
      e.student.createdAt)
  }

  function RecordOf(attempts: seq<Attempt>, teacherId: string): Enrollment -> StudentRecord {
    e => Record(e, attempts, teacherId)
  }

  /** `enrollments.map(...)`: one record per enrollment. */
  function StudentRecords(es: seq<Enrollment>, attempts: seq<Attempt>, teacherId: string): (r: seq<StudentRecord>)
    ensures |r| == |es| && forall k :: 0 <= k < |es| ==> r[k] == Record(es[k], attempts, teacherId)
  {
    Collections.MapSeq(es, RecordOf(attempts, teacherId))
  }

  function Ids(rs: seq<StudentRecord>): (r: seq<string>)
    ensures |r| == |rs| && forall k :: 0 <= k < |rs| ==> r[k] == rs[k].id
  {
    seq(|rs|, k requires 0 <= k < |rs| => rs[k].id)
  }

  function StudentIds(es: seq<Enrollment>): (r: seq<string>)
    ensures |r| == |es| && forall k :: 0 <= k < |es| ==> r[k] == es[k].studentId
  {
    seq(|es|, k requires 0 <= k < |es| => es[k].studentId)
  }

  /** The enrollment query: the teacher's exams' enrollments, the first one per student. */
  function TeacherEnrollments(rows: seq<Enrollment>, teacherId: string): (r: seq<Enrollment>)
    ensures forall k :: 0 <= k < |r| ==> r[k] in rows && r[k].examCreatedById == teacherId
    ensures StudentIds(r) == Collections.Dedupe(StudentIds(Collections.Filter(rows, OfTeacherTest(teacherId))))
  {
    FirstPerStudent(Collections.Filter(rows, OfTeacherTest(teacherId)))
  }

  predicate OfTeacher(e: Enrollment, teacherId: string) { e.examCreatedById == teacherId }

  function OfTeacherTest(teacherId: string): Enrollment -> bool {
    e => OfTeacher(e, teacherId)
  }

  /** `distinct: ['studentId']`: each student's first row. */
  function FirstPerStudent(rows: seq<Enrollment>): (r: seq<Enrollment>)
    ensures forall k :: 0 <= k < |r| ==> r[k] in rows
    ensures StudentIds(r) == Collections.Dedupe(StudentIds(rows))
    decreases |rows|
  {
    if rows == [] then []
    else
      var init := rows[..|rows| - 1];
      var x := rows[|rows| - 1];
      var d := FirstPerStudent(init);
      assert StudentIds(rows) == StudentIds(init) + [x.studentId];
      Collections.DedupeAppend(StudentIds(init), x.studentId);
      if x.studentId in StudentIds(init) then d
      else
        assert StudentIds(d + [x]) == StudentIds(d) + [x.studentId];
        d + [x]
  }

  /** The id of `acc.find(s => s.id === id)`, or -1. */
  function IndexById(acc: seq<StudentRecord>, id: string): (k: int)
    ensures -1 <= k < |acc|
    ensures k == -1 <==> id !in Ids(acc)
    ensures k >= 0 ==> acc[k].id == id
    decreases |acc|
  {
    if acc == [] then -1
    else if acc[0].id == id then 0
    else
      var k := IndexById(acc[1..], id);
      assert Ids(acc[1..]) == Ids(acc)[1..];
      if k == -1 then -1 else k + 1
  }

  /** One turn of the `reduce`: a new id is pushed, a known one unites its enrolled classes. */
  function MergeStep(acc: seq<StudentRecord>, st: StudentRecord): seq<StudentRecord> {
    var k := IndexById(acc, st.id);
    if k == -1 then acc + [st]
    else acc[k := acc[k].(enrolledClasses := Collections.Dedupe(acc[k].enrolledClasses + st.enrolledClasses))]
  }

  /** The enrolled classes of every record with the id `id`, one after another. */
  function ClassesOf(ss: seq<StudentRecord>, id: string): seq<string>
    decreases |ss|
  {
    if ss == [] then [] else ClassesOf(ss[..|ss| - 1], id) + (if ss[|ss| - 1].id == id then ss[|ss| - 1].enrolledClasses else [])
  }

  /** A record with its class list cleared, to compare the other fields. */
  function Bare(s: StudentRecord): StudentRecord { s.(enrolledClasses := []) }

  /**
   * What the accumulator `acc` of the `reduce` over `ss` satisfies: one
   * record per id, in the order the ids first appear; each record is the first
   * one with its id, and its enrolled classes are those of all records with it.
   */
  ghost predicate MergedFrom(ss: seq<StudentRecord>, acc: seq<StudentRecord>) {
    && Ids(acc) == Collections.Dedupe(Ids(ss))
    && FirstFields(ss, acc)
    && AllClasses(ss, acc)
  }

  ghost predicate FirstFields(ss: seq<StudentRecord>, acc: seq<StudentRecord>) {
    forall k :: 0 <= k < |acc| ==> acc[k].id in Ids(ss) && Bare(acc[k]) == Bare(ss[Collections.FirstIndex(Ids(ss), acc[k].id)])
  }

  ghost predicate AllClasses(ss: seq<StudentRecord>, acc: seq<StudentRecord>) {
    forall k :: 0 <= k < |acc| ==> SameClasses(acc[k].enrolledClasses, ClassesOf(ss, acc[k].id))
  }

  ghost predicate SameClasses(a: seq<string>, b: seq<string>) {
    forall x :: x in a <==> x in b
  }

  lemma {:induction false} ClassesOfAbsent(ss: seq<StudentRecord>, id: string)
    requires id !in Ids(ss)
    ensures ClassesOf(ss, id) == []
    decreases |ss|
  {
    if ss != [] {
      assert Ids(ss[..|ss| - 1]) == Ids(ss)[..|ss| - 1];
      ClassesOfAbsent(ss[..|ss| - 1], id);
    }
  }

  lemma ClassesOfAppend(ss: seq<StudentRecord>, st: StudentRecord, id: string)
    ensures ClassesOf(ss + [st], id) == ClassesOf(ss, id) + (if st.id == id then st.enrolledClasses else [])
  {
    assert (ss + [st])[..|ss|] == ss;
  }

  /** A turn of the `reduce` keeps the accumulator merged from the records seen so far. */
  lemma MergeStepKeeps(ss: seq<StudentRecord>, acc: seq<StudentRecord>, st: StudentRecord)
    requires MergedFrom(ss, acc)
    ensures MergedFrom(ss + [st], MergeStep(acc, st))
  {
    var ss' := ss + [st];
    assert Ids(ss') == Ids(ss) + [st.id];
    Collections.DedupeAppend(Ids(ss), st.id);
    MergeStepIds(acc, st);
    if st.id in Ids(ss) {
      MergeKnownFields(ss, acc, st);
      MergeKnownClasses(ss, acc, st);
    } else {
      MergeNewFields(ss, acc, st);
      MergeNewClasses(ss, acc, st);
    }
  }

  /** A turn keeps the ids of the accumulator and appends a new one. */
  lemma MergeStepIds(acc: seq<StudentRecord>, st: StudentRecord)
    ensures Ids(MergeStep(acc, st)) == if st.id in Ids(acc) then Ids(acc) else Ids(acc) + [st.id]
  {
    var k := IndexById(acc, st.id);
    if k != -1 {
      var r := MergeStep(acc, st);
      assert forall j :: 0 <= j < |r| ==> r[j].id == acc[j].id;
    }
  }

  lemma MergeNewFields(ss: seq<StudentRecord>, acc: seq<StudentRecord>, st: StudentRecord)
    requires FirstFields(ss, acc) && st.id !in Ids(ss) && Ids(acc) == Collections.Dedupe(Ids(ss))
    ensures FirstFields(ss + [st], MergeStep(acc, st))
  {
    var ss' := ss + [st];
    assert Ids(ss') == Ids(ss) + [st.id];
    assert st.id !in Ids(acc);
    var r := acc + [st];
    assert MergeStep(acc, st) == r;
    forall k | 0 <= k < |r| ensures r[k].id in Ids(ss') && Bare(r[k]) == Bare(ss'[Collections.FirstIndex(Ids(ss'), r[k].id)]) {
      if k < |acc| {
        assert r[k] == acc[k];
        Collections.FirstIndexAppend(Ids(ss), st.id, acc[k].id);
      } else {
        assert Collections.FirstIndex(Ids(ss'), st.id) == |ss|;
      }
    }
  }

  lemma MergeNewClasses(ss: seq<StudentRecord>, acc: seq<StudentRecord>, st: StudentRecord)
    requires AllClasses(ss, acc) && st.id !in Ids(ss) && Ids(acc) == Collections.Dedupe(Ids(ss))
    ensures AllClasses(ss + [st], MergeStep(acc, st))
  {
    assert st.id !in Ids(acc);
    var r := acc + [st];
    assert MergeStep(acc, st) == r;
    forall k | 0 <= k < |r| ensures SameClasses(r[k].enrolledClasses, ClassesOf(ss + [st], r[k].id)) {
      ClassesOfAppend(ss, st, r[k].id);
      if k < |acc| {
        assert r[k] == acc[k] && acc[k].id in Ids(acc);
      } else {
        ClassesOfAbsent(ss, st.id);
      }
    }
  }

  lemma MergeKnownFields(ss: seq<StudentRecord>, acc: seq<StudentRecord>, st: StudentRecord)
    requires FirstFields(ss, acc) && st.id in Ids(ss) && Ids(acc) == Collections.Dedupe(Ids(ss))
    ensures FirstFields(ss + [st], MergeStep(acc, st))
  {
    var ss' := ss + [st];
    assert Ids(ss') == Ids(ss) + [st.id];
    assert st.id in Ids(acc);
    var k := IndexById(acc, st.id);
    var r := MergeStep(acc, st);
    assert r == acc[k := acc[k].(enrolledClasses := Collections.Dedupe(acc[k].enrolledClasses + st.enrolledClasses))];
    forall j | 0 <= j < |r| ensures r[j].id in Ids(ss') && Bare(r[j]) == Bare(ss'[Collections.FirstIndex(Ids(ss'), r[j].id)]) {
      assert r[j].id == acc[j].id && Bare(r[j]) == Bare(acc[j]);
      Collections.FirstIndexAppend(Ids(ss), st.id, acc[j].id);
      assert ss'[Collections.FirstIndex(Ids(ss), acc[j].id)] == ss[Collections.FirstIndex(Ids(ss), acc[j].id)];
    }
  }

  lemma MergeKnownClasses(ss: seq<StudentRecord>, acc: seq<StudentRecord>, st: StudentRecord)
    requires AllClasses(ss, acc) && st.id in Ids(ss) && Ids(acc) == Collections.Dedupe(Ids(ss))
    ensures AllClasses(ss + [st], MergeStep(acc, st))
  {
    assert st.id in Ids(acc);
    var k := IndexById(acc, st.id);
    var r := MergeStep(acc, st);
    assert r == acc[k := acc[k].(enrolledClasses := Collections.Dedupe(acc[k].enrolledClasses + st.enrolledClasses))];
    forall j | 0 <= j < |r| ensures SameClasses(r[j].enrolledClasses, ClassesOf(ss + [st], r[j].id)) {
      ClassesOfAppend(ss, st, r[j].id);
      assert r[j].id == acc[j].id;
      if j != k {
        assert Ids(acc)[j] != Ids(acc)[k];
        assert r[j] == acc[j];
      }
    }
  }

  /** The `reduce` as a function of the records. */
  function Merged(ss: seq<StudentRecord>): seq<StudentRecord>
    decreases |ss|
  {
    if ss == [] then [] else MergeStep(Merged(ss[..|ss| - 1]), ss[|ss| - 1])
  }

  /** The `reduce` leaves one record per id, in first-appearance order, each the first with its id and carrying the classes of all. */
  lemma {:induction false} MergedMerges(ss: seq<StudentRecord>)
    ensures MergedFrom(ss, Merged(ss))
    decreases |ss|
  {
    if ss != [] {
      var init := ss[..|ss| - 1];
      assert init + [ss[|ss| - 1]] == ss;
      MergedMerges(init);
      MergeStepKeeps(init, Merged(init), ss[|ss| - 1]);
    }
  }

  /** A record whose id is not in the accumulator is pushed at its end. */
  lemma MergeStepNew(acc: seq<StudentRecord>, st: StudentRecord)
    requires st.id !in Ids(acc)
    ensures MergeStep(acc, st) == acc + [st]
  {
  }

  /** Records with distinct ids go through the `reduce` unchanged. */
  lemma {:induction false} MergedOfDistinct(ss: seq<StudentRecord>)
    requires Collections.NoDuplicates(Ids(ss))
    ensures Merged(ss) == ss
    decreases |ss|
  {
    if ss != [] {
      var init := ss[..|ss| - 1];
      assert Ids(init) == Ids(ss)[..|ss| - 1];
      MergedOfDistinct(init);
      var last := ss[|ss| - 1];
      assert Ids(ss)[|ss| - 1] == last.id;
      assert last.id !in Ids(init);
      assert init + [last] == ss;
      MergeStepNew(init, last);
    }
  }

  /** `studentsData.reduce(...)`, pushing new records and updating the found one in place. */
  method UniqueStudents(data: seq<StudentRecord>) returns (acc: seq<StudentRecord>)
    ensures acc == Merged(data)
  {
    acc := [];
    for i := 0 to |data|
      invariant acc == Merged(data[..i])
    {
      var student := data[i];
      assert data[..i + 1][..i] == data[..i];
      var k := IndexById(acc, student.id);
      if k == -1 {
        acc := acc + [student];
      } else {
        var existing := acc[k];
        acc := acc[k := existing.(enrolledClasses := Collections.Dedupe(existing.enrolledClasses + student.enrolledClasses))];
      }
    }
    assert data[..|data|] == data;
  }

  function OwnExam(teacherId: string): ExamRow -> bool {
    (e: ExamRow) => e.createdById == teacherId
  }

  /** The titles of the teacher's exams, in the order of the rows. */
  function OwnTitles(exams: seq<ExamRow>, teacherId: string): (r: seq<string>)
    ensures var own := Collections.Filter(exams, OwnExam(teacherId));
      |r| == |own| && forall k :: 0 <= k < |own| ==> r[k] == own[k].title
  {
    var own := Collections.Filter(exams, OwnExam(teacherId));
    seq(|own|, k requires 0 <= k < |own| => own[k].title)
  }

  /** `distinct: ['title']` over the teacher's exams, mapped to the titles. */
  function ClassTitles(exams: seq<ExamRow>, teacherId: string): (r: seq<string>)
    ensures Collections.NoDuplicates(r)
    ensures forall k :: 0 <= k < |exams| && exams[k].createdById == teacherId ==> exams[k].title in r
    ensures forall k :: 0 <= k < |r| ==> exists e :: e in exams && e.createdById == teacherId && e.title == r[k]
  {
    var own := Collections.Filter(exams, OwnExam(teacherId));
    var titles := OwnTitles(exams, teacherId);
    var r := Collections.Dedupe(titles);
    forall k | 0 <= k < |exams| && exams[k].createdById == teacherId ensures exams[k].title in r {
      assert OwnExam(teacherId)(exams[k]);
      var j :| 0 <= j < |own| && own[j] == exams[k];
      assert titles[j] == exams[k].title;
    }
    forall k | 0 <= k < |r| ensures exists e :: e in exams && e.createdById == teacherId && e.title == r[k] {
      assert r[k] in titles;
      var j :| 0 <= j < |titles| && titles[j] == r[k];
      assert own[j] in exams;
      assert OwnExam(teacherId)(own[j]);
    }
    r
  }

  /** The titles come in the order the teacher's exams first show them. */
  lemma ClassTitlesOrder(exams: seq<ExamRow>, teacherId: string)
    ensures var r, titles := ClassTitles(exams, teacherId), OwnTitles(exams, teacherId);
      forall i, j :: 0 <= i < j < |r| ==>
        r[i] in titles && r[j] in titles && Collections.FirstIndex(titles, r[i]) < Collections.FirstIndex(titles, r[j])
  {
    Collections.DedupeOrder(OwnTitles(exams, teacherId));
  }

  /** `GET`: teachers and admins get their students and exam titles; anyone else the guard's error. */
  method Get(current: Option<Auth.AuthUser>, enrollments: seq<Enrollment>, attempts: seq<Attempt>, exams: seq<ExamRow>)
    returns (r: ApiErrors.Response<StudentList>)
    ensures r.Success() <==> Auth.RequireTeacher(current).Ok?
    ensures !r.Success() ==> r == ApiErrors.ErrorHandler(Auth.RequireTeacher(current).error)
    ensures r.Success() ==> (var teacherId := current.value.id;
      && r.status == 200
      && r.data.students == Merged(StudentRecords(TeacherEnrollments(enrollments, teacherId), attempts, teacherId))
      && Collections.NoDuplicates(Ids(r.data.students))
      && r.data.classes == ClassTitles(exams, teacherId))
  {
    match Auth.RequireTeacher(current)
    case Throws(e) =>
      r := ApiErrors.ErrorHandler(e);
    case Ok(user) =>
      var data := StudentRecords(TeacherEnrollments(enrollments, user.id), attempts, user.id);
      var students := UniqueStudents(data);
      MergedMerges(data);
      r := ApiErrors.SuccessResponse(StudentList(students, ClassTitles(exams, user.id)), None);
  }
}
