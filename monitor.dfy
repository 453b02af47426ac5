/**
 * The teacher's live monitoring view (app/dashboard/teacher/monitor/page.tsx):
 * one record per (exam, student) pair, updated by the events the server
 * forwards, seeded from the server's active-student lists, and trimmed by the
 * student-left and student-inactive notices. Times are integers (the page
 * wraps them in `Date` objects); the id of a new flagged activity, built from
 * `Date.now()` and `Math.random()`, is a parameter.
 */
module Monitor {
  import Text
  import Collections
  import opened Wrappers

  /** Most flagged activities a record keeps. */
  const MaxActivities := 50

  datatype ActivityType = TabSwitch | WindowBlur | CopyPaste | RightClick | FullscreenExit | SuspiciousBehavior

  datatype FlaggedActivity = FlaggedActivity(id: string, kind: ActivityType, timestamp: int, description: string, severity: string)

  /** `MonitoringData`, the page's record of one student on one exam. */
  datatype Record = Record(
    studentId: string,
    examId: string,
    attemptId: string,
    isActive: bool,
    lastActivity: int,
    webcamEnabled: bool,
    currentQuestion: int,
    flaggedActivities: seq<FlaggedActivity>,
    warningsCount: int)

  /**
   * The payload fields the reducer reads. `questionIndex` may be absent;
   * `webcamActive` is the value after `!!`.
   */
  datatype Payload = Payload(
    examId: string,
    studentId: string,
    timestamp: int,
    questionIndex: Option<int>,
    webcamActive: bool,
    description: string,
    severity: string)

  /** A forwarded event; "" is a missing type. */
  datatype Event = Event(eventType: string, payload: Option<Payload>)

  /** An element of an active-student list from the server. */
  datatype ActiveStudent = ActiveStudent(studentId: string, examId: string, lastActivity: int)

  /**
   * `inferActivityType`: the first of these case-insensitive tests that
   * matches decides.
   */
  function InferActivityType(desc: string): (t: ActivityType)
    ensures t == CopyPaste <==> Text.ContainsIgnoreCase(desc, "copy") || Text.ContainsIgnoreCase(desc, "paste")
    ensures t == FullscreenExit <==>
      (Text.ContainsIgnoreCase(desc, "fullscreen") && !Text.ContainsIgnoreCase(desc, "copy") && !Text.ContainsIgnoreCase(desc, "paste"))
    ensures t == RightClick <==>
      !Text.ContainsIgnoreCase(desc, "copy") && !Text.ContainsIgnoreCase(desc, "paste") && !Text.ContainsIgnoreCase(desc, "fullscreen")
      && Text.ContainsIgnoreCase(desc, "right-click")
    ensures t == TabSwitch <==>
      !Text.ContainsIgnoreCase(desc, "copy") && !Text.ContainsIgnoreCase(desc, "paste") && !Text.ContainsIgnoreCase(desc, "fullscreen")
      && !Text.ContainsIgnoreCase(desc, "right-click")
      && (Text.ContainsIgnoreCase(desc, "blur") || Text.ContainsIgnoreCase(desc, "focus") || Text.ContainsIgnoreCase(desc, "switch"))
    ensures t == SuspiciousBehavior <==>
      !Text.ContainsIgnoreCase(desc, "copy") && !Text.ContainsIgnoreCase(desc, "paste") && !Text.ContainsIgnoreCase(desc, "fullscreen")
      && !Text.ContainsIgnoreCase(desc, "right-click")
      && !Text.ContainsIgnoreCase(desc, "blur") && !Text.ContainsIgnoreCase(desc, "focus") && !Text.ContainsIgnoreCase(desc, "switch")
    ensures t != WindowBlur
  {
    if Text.ContainsIgnoreCase(desc, "copy") || Text.ContainsIgnoreCase(desc, "paste") then CopyPaste
    else if Text.ContainsIgnoreCase(desc, "fullscreen") then FullscreenExit
    else if Text.ContainsIgnoreCase(desc, "right-click") then RightClick
    else if Text.ContainsIgnoreCase(desc, "blur") || Text.ContainsIgnoreCase(desc, "focus") || Text.ContainsIgnoreCase(desc, "switch") then TabSwitch
    else SuspiciousBehavior
  }

  /** A description that mentions none of the words is suspicious behaviour. */
  lemma InferFallback(desc: string)
    requires !Text.ContainsIgnoreCase(desc, "copy") && !Text.ContainsIgnoreCase(desc, "paste")
    requires !Text.ContainsIgnoreCase(desc, "fullscreen") && !Text.ContainsIgnoreCase(desc, "right-click")
    requires !Text.ContainsIgnoreCase(desc, "blur") && !Text.ContainsIgnoreCase(desc, "focus") && !Text.ContainsIgnoreCase(desc, "switch")
    ensures InferActivityType(desc) == SuspiciousBehavior
  {
  }

  /**
   * A description that begins with "copy" is a copy-paste, whatever focus,
   * switch or fullscreen words follow: the copy test runs first.
   */
  lemma InferFirstMatchWins(desc: string)
    requires Text.StartsWith(desc, "copy")
    ensures InferActivityType(desc) == CopyPaste
  {
    var l := Text.Lower(desc);
    assert Text.Lower("copy") == "copy" by {
      var c := Text.Lower("copy");
      assert c[0] == 'c' && c[1] == 'o' && c[2] == 'p' && c[3] == 'y';
    }
    assert l[..4] == "copy" by {
      Text.LowerChars(desc);
      assert forall i :: 0 <= i < 4 ==> l[i] == Text.LowerChar(desc[i]) == desc[i];
    }
    assert Text.OccursAt(l, Text.Lower("copy"), 0);
  }

  /** Position of the record for a pair, or -1. */
  function FindPair(list: seq<Record>, examId: string, studentId: string): (r: int)
    ensures -1 <= r < |list|
    ensures r >= 0 ==> list[r].examId == examId && list[r].studentId == studentId
    ensures r == -1 <==> forall j :: 0 <= j < |list| ==> !(list[j].examId == examId && list[j].studentId == studentId)
  {
    if list == [] then -1
    else if list[|list| - 1].examId == examId && list[|list| - 1].studentId == studentId then |list| - 1
    else FindPair(list[..|list| - 1], examId, studentId)
  }

  /** With unique pairs, a position holding the pair is the pair's index. */
  lemma PairAt(list: seq<Record>, examId: string, studentId: string, k: int)
    requires UniquePairs(list) && 0 <= k < |list|
    requires list[k].examId == examId && list[k].studentId == studentId
    ensures FindPair(list, examId, studentId) == k
  {
  }

  /** No two records share an (exam, student) pair. */
  predicate UniquePairs(list: seq<Record>) {
    forall i, j :: 0 <= i < j < |list| ==> !(list[i].examId == list[j].examId && list[i].studentId == list[j].studentId)
  }

  /** The record a pair starts with. */
  function NewRecord(examId: string, studentId: string, ts: int): (r: Record)
    ensures r.isActive && !r.webcamEnabled && r.currentQuestion == 1 && r.flaggedActivities == [] && r.warningsCount == 0
    ensures r.attemptId == examId + "-" + studentId
  {
    Record(studentId, examId, examId + "-" + studentId, true, ts, false, 1, [], 0)
  }

  function Take<T>(s: seq<T>, n: nat): (r: seq<T>)
    ensures |r| <= n && |r| <= |s| && r == s[..|r|]
    ensures |s| <= n ==> r == s
    ensures |s| > n ==> |r| == n
  {
    if |s| <= n then s else s[..n]
  }

  /** A violation: the new activity goes first, at most 50 are kept, and one more warning. */
  function Flag(rec: Record, activity: FlaggedActivity): (r: Record)
    ensures r == rec.(flaggedActivities := r.flaggedActivities, warningsCount := rec.warningsCount + 1)
    ensures |r.flaggedActivities| == (if |rec.flaggedActivities| < MaxActivities then |rec.flaggedActivities| + 1 else MaxActivities)
    ensures r.flaggedActivities[0] == activity
    ensures r.flaggedActivities[1..] == rec.flaggedActivities[..|r.flaggedActivities| - 1]
  {
    var fs := Take([activity] + rec.flaggedActivities, MaxActivities);
    assert fs == ([activity] + rec.flaggedActivities)[..|fs|];
    rec.(flaggedActivities := fs, warningsCount := rec.warningsCount + 1)
  }

  /** The change an event of a given type makes to its record, after lastActivity is set. */
  function UpdateRecord(rec: Record, eventType: string, p: Payload, activityId: string): (r: Record)
    ensures r.studentId == rec.studentId && r.examId == rec.examId && r.attemptId == rec.attemptId
    ensures r.lastActivity == rec.lastActivity
    ensures eventType == "heartbeat" || eventType == "question" ==> r.currentQuestion == p.questionIndex.GetOr(0) + 1
    ensures eventType == "heartbeat" ==> r.isActive && r.webcamEnabled == p.webcamActive
    ensures eventType == "webcam" ==> r.webcamEnabled == p.webcamActive
    ensures eventType == "violation" ==>
      r == Flag(rec, FlaggedActivity(activityId, InferActivityType(p.description), p.timestamp, p.description, p.severity))
    ensures eventType != "violation" ==> r.warningsCount == rec.warningsCount && r.flaggedActivities == rec.flaggedActivities
    ensures eventType != "heartbeat" && eventType != "question" && eventType != "webcam" && eventType != "violation" ==> r == rec
  {
    if eventType == "heartbeat" then
      rec.(currentQuestion := p.questionIndex.GetOr(0) + 1, webcamEnabled := p.webcamActive, isActive := true)
    else if eventType == "question" then
      rec.(currentQuestion := p.questionIndex.GetOr(0) + 1)
    else if eventType == "webcam" then
      rec.(webcamEnabled := p.webcamActive)
    else if eventType == "violation" then
      Flag(rec, FlaggedActivity(activityId, InferActivityType(p.description), p.timestamp, p.description, p.severity))
    else rec
  }

  /** The list after `handleIncomingEvent`; an event without type or payload changes nothing. */
  function ApplyEvent(list: seq<Record>, ev: Event, activityId: string): (r: seq<Record>)
    ensures ev.eventType == "" || ev.payload.None? ==> r == list
  {
    if ev.eventType == "" || ev.payload.None? then list
    else
      var p := ev.payload.value;
      var idx := FindPair(list, p.examId, p.studentId);
      var base := if idx == -1 then list + [NewRecord(p.examId, p.studentId, p.timestamp)] else list;
      var i := if idx == -1 then |list| else idx;
      base[i := UpdateRecord(base[i].(lastActivity := p.timestamp), ev.eventType, p, activityId)]
  }

  /**
   * An event touches only its own pair's record: other records keep their
   * contents and order, a new pair is appended at the end, and pairs stay unique.
   */
  lemma ApplyEventFrame(list: seq<Record>, ev: Event, activityId: string)
    requires UniquePairs(list) && ev.eventType != "" && ev.payload.Some?
    ensures var p := ev.payload.value;
      var r := ApplyEvent(list, ev, activityId);
      var idx := FindPair(list, p.examId, p.studentId);
      UniquePairs(r)
      && (idx == -1 ==> |r| == |list| + 1 && r[..|list|] == list)
      && (idx != -1 ==> |r| == |list| && forall j :: 0 <= j < |list| && j != idx ==> r[j] == list[j])
      && FindPair(r, p.examId, p.studentId) == (if idx == -1 then |list| else idx)
  {
    var p := ev.payload.value;
    var r := ApplyEvent(list, ev, activityId);
    var idx := FindPair(list, p.examId, p.studentId);
    if idx == -1 {
      assert r[..|list|] == list;
      PairAt(r, p.examId, p.studentId, |list|);
    } else {
      PairAt(r, p.examId, p.studentId, idx);
    }
  }

  /** The pair's record after the event: a new one starts from the defaults. */
  lemma ApplyEventRecord(list: seq<Record>, ev: Event, activityId: string)
    requires UniquePairs(list) && ev.eventType != "" && ev.payload.Some?
    ensures var p := ev.payload.value;
      var r := ApplyEvent(list, ev, activityId);
      var idx := FindPair(list, p.examId, p.studentId);
      var before := if idx == -1 then NewRecord(p.examId, p.studentId, p.timestamp) else list[idx];
      r[if idx == -1 then |list| else idx] == UpdateRecord(before.(lastActivity := p.timestamp), ev.eventType, p, activityId)
  {
  }

  /** The active-list merge, one student after another: unknown pairs are appended. */
  function MergeActive(list: seq<Record>, students: seq<ActiveStudent>): (r: seq<Record>)
    ensures |r| >= |list| && r[..|list|] == list
    ensures UniquePairs(list) ==> UniquePairs(r)
    ensures forall k :: 0 <= k < |students| ==> FindPair(r, students[k].examId, students[k].studentId) != -1
  {
    if students == [] then list
    else
      var m := MergeActive(list, students[..|students| - 1]);
      var s := students[|students| - 1];
      var r := if FindPair(m, s.examId, s.studentId) != -1 then m
        else m + [NewRecord(s.examId, s.studentId, s.lastActivity)];
      assert r[..|m|] == m;
      assert r[..|list|] == m[..|list|];
      forall k | 0 <= k < |students| ensures FindPair(r, students[k].examId, students[k].studentId) != -1 {
        if k < |students| - 1 {
          var prev := students[..|students| - 1];
          assert prev[k] == students[k];
          var j := FindPair(m, students[k].examId, students[k].studentId);
          assert r[j] == m[j];
        } else {
          if FindPair(m, s.examId, s.studentId) == -1 { assert r[|m|].examId == s.examId && r[|m|].studentId == s.studentId; }
        }
      }
      r
  }

  /** Merging appends a record only for a pair that was not there before. */
  lemma {:induction false} MergeAppendsAbsent(list: seq<Record>, students: seq<ActiveStudent>, k: int)
    requires |list| <= k < |MergeActive(list, students)|
    ensures FindPair(list, MergeActive(list, students)[k].examId, MergeActive(list, students)[k].studentId) == -1
  {
    var prev := students[..|students| - 1];
    var m := MergeActive(list, prev);
    var s := students[|students| - 1];
    var r := MergeActive(list, students);
    if k < |m| {
      assert r[..|m|] == m;
      assert r[k] == m[k];
      MergeAppendsAbsent(list, prev, k);
    } else {
      assert FindPair(m, s.examId, s.studentId) == -1;
      assert forall i :: 0 <= i < |list| ==> list[i] == m[i];
    }
  }

  /** Every appended record is the starting record of a listed student. */
  lemma {:induction false} MergeAppendsListed(list: seq<Record>, students: seq<ActiveStudent>, k: int)
    requires |list| <= k < |MergeActive(list, students)|
    ensures exists j :: (0 <= j < |students| &&
      MergeActive(list, students)[k] == NewRecord(students[j].examId, students[j].studentId, students[j].lastActivity))
  {
    var prev := students[..|students| - 1];
    var m := MergeActive(list, prev);
    var s := students[|students| - 1];
    var r := MergeActive(list, students);
    if k < |m| {
      assert r[..|m|] == m;
      assert r[k] == m[k];
      MergeAppendsListed(list, prev, k);
      var j :| 0 <= j < |prev| && m[k] == NewRecord(prev[j].examId, prev[j].studentId, prev[j].lastActivity);
      assert prev[j] == students[j];
    } else {
      assert students[|students| - 1] == s;
    }
  }

  /** Merging never changes a record that is already there. */
  lemma MergeKeepsExisting(list: seq<Record>, students: seq<ActiveStudent>, j: int)
    requires 0 <= j < |list|
    ensures MergeActive(list, students)[j] == list[j]
  {
    var r := MergeActive(list, students);
    assert r[..|list|][j] == list[j];
  }

  /** The student-left handler: every record of that student goes, in every exam. */
  function StudentLeft(list: seq<Record>, studentId: string): (r: seq<Record>)
    ensures forall k :: 0 <= k < |r| ==> r[k].studentId != studentId
    ensures forall x :: x in r <==> x in list && x.studentId != studentId
    ensures |r| <= |list|
    ensures r == Collections.Filter(list, OtherStudent(studentId))
  {
    if list == [] then []
    else
      var rest := StudentLeft(list[1..], studentId);
      var r := if list[0].studentId == studentId then rest else [list[0]] + rest;
      assert r == Collections.Filter(list, OtherStudent(studentId));
      r
  }

  /** The records after the first of a list with unique pairs have unique pairs. */
  lemma UniqueTail(list: seq<Record>)
    requires UniquePairs(list) && list != []
    ensures UniquePairs(list[1..])
  {
    forall i, j | 0 <= i < j < |list| - 1
      ensures !(list[1..][i].examId == list[1..][j].examId && list[1..][i].studentId == list[1..][j].studentId)
    {
      assert list[1..][i] == list[i + 1] && list[1..][j] == list[j + 1];
    }
  }

  /** A record whose pair no record of `rest` has can go in front of it. */
  lemma UniqueCons(x: Record, rest: seq<Record>)
    requires UniquePairs(rest)
    requires forall j :: 0 <= j < |rest| ==> !(rest[j].examId == x.examId && rest[j].studentId == x.studentId)
    ensures UniquePairs([x] + rest)
  {
    var r := [x] + rest;
    forall i, j | 0 <= i < j < |r|
      ensures !(r[i].examId == r[j].examId && r[i].studentId == r[j].studentId)
    {
      assert r[j] == rest[j - 1];
      if i > 0 { assert r[i] == rest[i - 1]; }
    }
  }

  /** Dropping records keeps the remaining pairs unique. */
  lemma {:induction false} StudentLeftKeepsUnique(list: seq<Record>, studentId: string)
    requires UniquePairs(list)
    ensures UniquePairs(StudentLeft(list, studentId))
  {
    if list != [] {
      var rest := StudentLeft(list[1..], studentId);
      UniqueTail(list);
      StudentLeftKeepsUnique(list[1..], studentId);
      if list[0].studentId != studentId {
        forall j | 0 <= j < |rest|
          ensures !(rest[j].examId == list[0].examId && rest[j].studentId == list[0].studentId)
        {
          assert rest[j] in list[1..];
          var m :| 0 <= m < |list[1..]| && list[1..][m] == rest[j];
          assert list[m + 1] == rest[j];
        }
        UniqueCons(list[0], rest);
      }
    }
  }

  /** The student-inactive handler: only that student's records, and only isActive, change. */
  function StudentInactive(list: seq<Record>, studentId: string): (r: seq<Record>)
    ensures |r| == |list|
    ensures forall k :: 0 <= k < |list| ==> r[k] == if list[k].studentId == studentId then list[k].(isActive := false) else list[k]
  {
    if list == [] then []
    else [if list[0].studentId == studentId then list[0].(isActive := false) else list[0]] + StudentInactive(list[1..], studentId)
  }

  /** The records a student-left notice keeps. */
  function OtherStudent(studentId: string): Record -> bool {
    (x: Record) => x.studentId != studentId
  }

  /** The predicates behind the dashboard figures. */
  function Active(): Record -> bool {
    (x: Record) => x.isActive
  }

  function Webcam(): Record -> bool {
    (x: Record) => x.webcamEnabled
  }

  function HighRisk(): Record -> bool {
    (x: Record) => x.warningsCount >= 2
  }

  /** The "Active Students" figure. */
  function CountActive(list: seq<Record>): (n: nat)
    ensures n <= |list|
    ensures n == |Collections.Filter(list, Active())|
  {
    if list == [] then 0 else (if list[0].isActive then 1 else 0) + CountActive(list[1..])
  }

  /** The "Total Violations" figure: every record's kept activities. */
  function TotalFlagged(list: seq<Record>): (n: nat)
    ensures forall k :: 0 <= k < |list| ==> |list[k].flaggedActivities| <= n
    ensures n == 0 <==> forall k :: 0 <= k < |list| ==> list[k].flaggedActivities == []
    ensures |list| == 1 ==> n == |list[0].flaggedActivities|
  {
    if list == [] then 0 else |list[0].flaggedActivities| + TotalFlagged(list[1..])
  }

  /** `reduce((acc, s) => acc + s.flaggedActivities.length, acc)`, folding from the left. */
  function ReduceFlagged(acc: int, list: seq<Record>): int
    decreases |list|
  {
    if list == [] then acc else ReduceFlagged(acc + |list[0].flaggedActivities|, list[1..])
  }

  /** Folding from any start adds the total to it. */
  lemma {:induction false} ReduceFlaggedFrom(acc: int, list: seq<Record>)
    ensures ReduceFlagged(acc, list) == acc + TotalFlagged(list)
    decreases |list|
  {
    if list != [] { ReduceFlaggedFrom(acc + |list[0].flaggedActivities|, list[1..]); }
  }

  /** The figure is the page's `reduce` from 0. */
  lemma TotalFlaggedIsReduce(list: seq<Record>)
    ensures TotalFlagged(list) == ReduceFlagged(0, list)
  {
    ReduceFlaggedFrom(0, list);
  }

  /** The total over two lists is the sum of their totals. */
  lemma {:induction false} TotalFlaggedAppend(a: seq<Record>, b: seq<Record>)
    ensures TotalFlagged(a + b) == TotalFlagged(a) + TotalFlagged(b)
  {
    if a == [] {
      assert a + b == b;
    } else {
      assert (a + b)[0] == a[0];
      assert (a + b)[1..] == a[1..] + b;
      TotalFlaggedAppend(a[1..], b);
    }
  }

  /** The "Webcam Active" figure. */
  function CountWebcam(list: seq<Record>): (n: nat)
    ensures n <= |list|
    ensures n == |Collections.Filter(list, Webcam())|
  {
    if list == [] then 0 else (if list[0].webcamEnabled then 1 else 0) + CountWebcam(list[1..])
  }

  /** The "High Risk" figure: records with two warnings or more. */
  function CountHighRisk(list: seq<Record>): (n: nat)
    ensures n <= |list|
    ensures n == |Collections.Filter(list, HighRisk())|
  {
    if list == [] then 0 else (if list[0].warningsCount >= 2 then 1 else 0) + CountHighRisk(list[1..])
  }

  /** After a student-inactive notice none of that student's records counts as active. */
  lemma {:induction false} InactiveLowersActive(list: seq<Record>, studentId: string)
    ensures CountActive(StudentInactive(list, studentId)) <= CountActive(list)
    ensures forall k :: 0 <= k < |list| ==> !StudentInactive(list, studentId)[k].isActive || list[k].studentId != studentId
  {
    if list != [] {
      InactiveLowersActive(list[1..], studentId);
      assert StudentInactive(list, studentId)[1..] == StudentInactive(list[1..], studentId);
    }
  }

  class Dashboard {
    /** `activeStudents`, the page state. */
    var students: seq<Record>

    ghost predicate Valid()
      reads this
    {
      UniquePairs(students)
    }

    constructor()
      ensures Valid() && students == []
    {
      students := [];
    }

    /** `handleIncomingEvent`. */
    method HandleIncomingEvent(ev: Event, activityId: string)
      requires Valid()
      modifies this
      ensures Valid()
      ensures students == ApplyEvent(old(students), ev, activityId)
    {
      if ev.eventType == "" || ev.payload.None? {
        return;
      }
      var p := ev.payload.value;
      var list := students;
      var idx := FindPair(list, p.examId, p.studentId);
      if idx == -1 {
        list := list + [NewRecord(p.examId, p.studentId, p.timestamp)];
        idx := |list| - 1;
      }
      var rec := list[idx].(lastActivity := p.timestamp);
      rec := UpdateRecord(rec, ev.eventType, p, activityId);
      list := list[idx := rec];
      ApplyEventFrame(students, ev, activityId);
      students := list;
    }

    /** The active-students subscription: append a record for every pair not yet shown. */
    method OnActiveStudents(list: seq<ActiveStudent>)
      requires Valid()
      modifies this
      ensures Valid()
      ensures students == MergeActive(old(students), list)
    {
      var next := students;
      var i := 0;
      while i < |list|
        invariant 0 <= i <= |list|
        invariant next == MergeActive(old(students), list[..i])
      {
        var s := list[i];
        assert list[..i + 1][..i] == list[..i];
        var known := FindPair(next, s.examId, s.studentId) != -1;
        if !known {
          next := next + [NewRecord(s.examId, s.studentId, s.lastActivity)];
        }
        i := i + 1;
      }
      assert list[..i] == list;
      students := next;
    }

    method OnStudentLeft(studentId: string)
      requires Valid()
      modifies this
      ensures students == StudentLeft(old(students), studentId)
      ensures Valid()
    {
      StudentLeftKeepsUnique(students, studentId);
      students := StudentLeft(students, studentId);
    }

    method OnStudentInactive(studentId: string)
      requires Valid()
      modifies this
      ensures students == StudentInactive(old(students), studentId)
      ensures Valid()
    {
      students := StudentInactive(students, studentId);
    }
  }
}
