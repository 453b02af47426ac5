/**
 * The presence registry of the real-time server (server.ts): for every exam,
 * the students seen on it and the time of their last activity, with the
 * socket handlers that update it and the periodic inactivity sweep.
 *
 * A JavaScript `Map` keeps its keys in insertion order, and the lists sent to
 * teachers follow that order, so the nested map is modelled as ordered
 * association lists. `Date.now()` is a parameter; the socket transport (rooms,
 * `emit`) is modelled by the list of emissions a handler makes.
 */
module Presence {
  import opened Wrappers

  /** The inactivity threshold INACTIVE_AFTER_MS. */
  const InactiveAfterMs := 30000

  datatype Seen = Seen(studentId: string, lastActivity: int)

  /** One exam key of the outer map with its inner map. */
  datatype ExamEntry = ExamEntry(examId: string, students: seq<Seen>)

  /** An element of the lists `getActiveStudents` returns. */
  datatype Row = Row(studentId: string, examId: string, lastActivity: int)

  datatype Role = Student | Teacher | OtherRole

  datatype Event =
    | ActiveStudents(list: seq<Row>)
    | StudentJoined(studentId: string, examId: string, timestamp: int)
    | StudentLeft(studentId: string, examId: string, timestamp: int)
    | StudentInactive(studentId: string, examId: string, timestamp: int)
    | Monitoring(payload: MonitoringPayload)

  /** Where an event goes: the "teachers" room, a named room, or back to the caller. */
  datatype Emission = ToTeachers(event: Event) | ToRoom(room: string, event: Event) | ToSocket(event: Event)

  /** The payload fields the server reads; "" is an absent id, `None` an absent timestamp. */
  datatype MonitoringPayload = MonitoringPayload(eventType: string, examId: string, studentId: string, timestamp: Option<int>)

  datatype JoinPayload = JoinPayload(role: Role, examId: string, studentId: string)

  /** The per-socket memory used on disconnect. */
  datatype SocketMeta = SocketMeta(role: Role, examId: string, studentId: string)

  /** Position of a student in an inner map, or -1. */
  function StudentIndex(ps: seq<Seen>, s: string): (r: int)
    ensures -1 <= r < |ps|
    ensures r >= 0 ==> ps[r].studentId == s
    ensures r == -1 <==> forall j :: 0 <= j < |ps| ==> ps[j].studentId != s
  {
    if ps == [] then -1
    else if ps[|ps| - 1].studentId == s then |ps| - 1
    else StudentIndex(ps[..|ps| - 1], s)
  }

  /** Position of an exam in the outer map, or -1. */
  function ExamIndex(reg: seq<ExamEntry>, e: string): (r: int)
    ensures -1 <= r < |reg|
    ensures r >= 0 ==> reg[r].examId == e
    ensures r == -1 <==> forall j :: 0 <= j < |reg| ==> reg[j].examId != e
  {
    if reg == [] then -1
    else if reg[|reg| - 1].examId == e then |reg| - 1
    else ExamIndex(reg[..|reg| - 1], e)
  }

  predicate DistinctStudents(ps: seq<Seen>) {
    forall i, j :: 0 <= i < j < |ps| ==> ps[i].studentId != ps[j].studentId
  }

  predicate DistinctExams(reg: seq<ExamEntry>) {
    forall i, j :: 0 <= i < j < |reg| ==> reg[i].examId != reg[j].examId
  }

  /** Keys are unique at both levels and no exam keeps an empty inner map. */
  predicate ValidRegistry(reg: seq<ExamEntry>) {
    DistinctExams(reg)
    && (forall i :: 0 <= i < |reg| ==> reg[i].students != [] && DistinctStudents(reg[i].students))
  }

  /** The inner map of an exam; an unknown exam reads as an empty map. */
  function StudentsOf(reg: seq<ExamEntry>, e: string): seq<Seen> {
    var k := ExamIndex(reg, e);
    if k == -1 then [] else reg[k].students
  }

  /** `m.get(studentId)?.lastActivity`. */
  function LastOf(ps: seq<Seen>, s: string): Option<int> {
    var k := StudentIndex(ps, s);
    if k == -1 then None else Some(ps[k].lastActivity)
  }

  /** `m.set(studentId, { lastActivity: ts })`: in place when present, else appended. */
  function SetSeen(ps: seq<Seen>, s: string, ts: int): (r: seq<Seen>)
    requires DistinctStudents(ps)
    ensures DistinctStudents(r) && r != []
    ensures LastOf(r, s) == Some(ts)
    ensures forall s' :: s' != s ==> LastOf(r, s') == LastOf(ps, s')
  {
    var k := StudentIndex(ps, s);
    var r := if k == -1 then ps + [Seen(s, ts)] else ps[k := Seen(s, ts)];
    assert forall j :: 0 <= j < |ps| && j != k ==> r[j] == ps[j];
    StudentAt(r, s, if k == -1 then |ps| else k);
    forall s' | s' != s ensures LastOf(r, s') == LastOf(ps, s') {
      var i := StudentIndex(ps, s');
      if i != -1 { StudentAt(r, s', i); }
    }
    r
  }

  /** In a map with distinct keys, a position holding the key is the key's index. */
  lemma StudentAt(ps: seq<Seen>, s: string, k: int)
    requires DistinctStudents(ps)
    requires 0 <= k < |ps| && ps[k].studentId == s
    ensures StudentIndex(ps, s) == k
  {
  }

  /** The registry after `touchStudent(e, s, ts)`. */
  function Touch(reg: seq<ExamEntry>, e: string, s: string, ts: int): (r: seq<ExamEntry>)
    requires ValidRegistry(reg)
    ensures ValidRegistry(r)
  {
    var k := ExamIndex(reg, e);
    if k == -1 then
      reg + [ExamEntry(e, [Seen(s, ts)])]
    else
      reg[k := ExamEntry(e, SetSeen(reg[k].students, s, ts))]
  }

  /** In an outer map with distinct keys, a position holding the key is the key's index. */
  lemma ExamAt(reg: seq<ExamEntry>, e: string, k: int)
    requires DistinctExams(reg)
    requires 0 <= k < |reg| && reg[k].examId == e
    ensures ExamIndex(reg, e) == k
  {
  }

  /** Lookups in the touched registry, one exam at a time. */
  lemma TouchLookup(reg: seq<ExamEntry>, e: string, s: string, ts: int, e': string)
    requires ValidRegistry(reg)
    ensures var r := Touch(reg, e, s, ts);
      if e' == e then
        LastOf(StudentsOf(r, e), s) == Some(ts)
        && forall s' :: s' != s ==> LastOf(StudentsOf(r, e), s') == LastOf(StudentsOf(reg, e), s')
      else StudentsOf(r, e') == StudentsOf(reg, e')
  {
    var r := Touch(reg, e, s, ts);
    var k := ExamIndex(reg, e);
    assert forall j :: 0 <= j < |reg| && j != k ==> r[j] == reg[j];
    ExamAt(r, e, if k == -1 then |reg| else k);
    if e' != e {
      var k' := ExamIndex(reg, e');
      if k' != -1 { ExamAt(r, e', k'); }
    }
  }

  /** After `touchStudent(e, s, ts)` the exam lists `s` exactly once, with `ts`. */
  lemma TouchOnce(reg: seq<ExamEntry>, e: string, s: string, ts: int)
    requires ValidRegistry(reg)
    ensures var ps := StudentsOf(Touch(reg, e, s, ts), e);
      DistinctStudents(ps) && (exists j :: 0 <= j < |ps| && ps[j] == Seen(s, ts))
  {
    TouchLookup(reg, e, s, ts, e);
    var r := Touch(reg, e, s, ts);
    var ps := StudentsOf(r, e);
    var j := StudentIndex(ps, s);
    assert ps[j] == Seen(s, ts);
  }

  /** `m.delete(studentId)` on a key that is present. */
  function DeleteSeen(ps: seq<Seen>, j: int): (r: seq<Seen>)
    requires DistinctStudents(ps) && 0 <= j < |ps|
    ensures DistinctStudents(r) && |r| == |ps| - 1
    ensures LastOf(r, ps[j].studentId).None?
    ensures forall s' :: s' != ps[j].studentId ==> LastOf(r, s') == LastOf(ps, s')
  {
    DeletedSeen(ps, j);
    forall s' | s' != ps[j].studentId ensures LastOf(ps[..j] + ps[j + 1..], s') == LastOf(ps, s') {
      DeletedSeenLookup(ps, j, s');
    }
    ps[..j] + ps[j + 1..]
  }

  /** Removing position `j` keeps the keys distinct and drops the key at `j`. */
  lemma DeletedSeen(ps: seq<Seen>, j: int)
    requires DistinctStudents(ps) && 0 <= j < |ps|
    ensures var r := ps[..j] + ps[j + 1..];
      DistinctStudents(r) && |r| == |ps| - 1 && StudentIndex(r, ps[j].studentId) == -1
  {
    var r := ps[..j] + ps[j + 1..];
    assert forall t :: 0 <= t < |r| ==> r[t] == (if t < j then ps[t] else ps[t + 1]);
  }

  /** Removing position `j` leaves every other key's entry as it was. */
  lemma DeletedSeenLookup(ps: seq<Seen>, j: int, s': string)
    requires DistinctStudents(ps) && 0 <= j < |ps| && s' != ps[j].studentId
    ensures LastOf(ps[..j] + ps[j + 1..], s') == LastOf(ps, s')
  {
    var r := ps[..j] + ps[j + 1..];
    DeletedSeen(ps, j);
    var i := StudentIndex(ps, s');
    if i != -1 {
      assert r[if i < j then i else i - 1] == ps[i];
      StudentAt(r, s', if i < j then i else i - 1);
    }
  }

  /** `activeStudents.delete(examId)` on a key that is present. */
  function DeleteExam(reg: seq<ExamEntry>, k: int): (r: seq<ExamEntry>)
    requires ValidRegistry(reg) && 0 <= k < |reg|
    ensures ValidRegistry(r)
    ensures ExamIndex(r, reg[k].examId) == -1
    ensures forall e' :: e' != reg[k].examId ==> StudentsOf(r, e') == StudentsOf(reg, e')
  {
    DeletedExam(reg, k);
    forall e' | e' != reg[k].examId ensures StudentsOf(reg[..k] + reg[k + 1..], e') == StudentsOf(reg, e') {
      DeletedExamLookup(reg, k, e');
    }
    reg[..k] + reg[k + 1..]
  }

  /** Removing position `k` keeps the registry valid and drops the exam at `k`. */
  lemma DeletedExam(reg: seq<ExamEntry>, k: int)
    requires ValidRegistry(reg) && 0 <= k < |reg|
    ensures var r := reg[..k] + reg[k + 1..];
      ValidRegistry(r) && ExamIndex(r, reg[k].examId) == -1
  {
    var r := reg[..k] + reg[k + 1..];
    assert forall t :: 0 <= t < |r| ==> r[t] == (if t < k then reg[t] else reg[t + 1]);
  }

  /** Removing position `k` leaves every other exam's inner map as it was. */
  lemma DeletedExamLookup(reg: seq<ExamEntry>, k: int, e': string)
    requires DistinctExams(reg) && 0 <= k < |reg| && e' != reg[k].examId
    ensures StudentsOf(reg[..k] + reg[k + 1..], e') == StudentsOf(reg, e')
  {
    var r := reg[..k] + reg[k + 1..];
    assert forall t :: 0 <= t < |r| ==> r[t] == (if t < k then reg[t] else reg[t + 1]);
    assert DistinctExams(r);
    var i := ExamIndex(reg, e');
    if i != -1 {
      ExamAt(r, e', if i < k then i else i - 1);
    }
  }

  /** The registry after `removeStudent(e, s)` and its result. */
  function Remove(reg: seq<ExamEntry>, e: string, s: string): (r: (seq<ExamEntry>, bool))
    requires ValidRegistry(reg)
    ensures ValidRegistry(r.0)
    ensures (e == "" || s == "" || ExamIndex(reg, e) == -1) ==> r == (reg, false)
    ensures e != "" && s != "" ==> (r.1 <==> LastOf(StudentsOf(reg, e), s).Some?)
    ensures e != "" && s != "" ==> LastOf(StudentsOf(r.0, e), s).None?
    ensures e != "" && s != "" ==> forall s' :: s' != s ==> LastOf(StudentsOf(r.0, e), s') == LastOf(StudentsOf(reg, e), s')
    ensures forall e' :: e' != e ==> StudentsOf(r.0, e') == StudentsOf(reg, e')
    ensures !r.1 ==> r.0 == reg
  {
    if e == "" || s == "" then (reg, false)
    else
      var k := ExamIndex(reg, e);
      if k == -1 then (reg, false)
      else
        var ps := reg[k].students;
        var j := StudentIndex(ps, s);
        if j == -1 then (reg, false)
        else
          var ps' := DeleteSeen(ps, j);
          if ps' == [] then
            var r := DeleteExam(reg, k);
            assert StudentsOf(r, e) == [];
            (r, true)
          else
            var r := reg[k := ExamEntry(e, ps')];
            ExamAt(r, e, k);
            forall e' | e' != e ensures StudentsOf(r, e') == StudentsOf(reg, e') {
              var i := ExamIndex(reg, e');
              if i != -1 { ExamAt(r, e', i); }
            }
            (r, true)
  }

  /** The rows of one inner map, in its order. */
  function Rows(ps: seq<Seen>, e: string): (r: seq<Row>)
    ensures |r| == |ps|
    ensures forall j :: 0 <= j < |ps| ==> r[j] == Row(ps[j].studentId, e, ps[j].lastActivity)
  {
    if ps == [] then [] else Rows(ps[..|ps| - 1], e) + [Row(ps[|ps| - 1].studentId, e, ps[|ps| - 1].lastActivity)]
  }

  /** Every exam's rows, exam after exam. */
  function AllRows(reg: seq<ExamEntry>): seq<Row> {
    if reg == [] then [] else AllRows(reg[..|reg| - 1]) + Rows(reg[|reg| - 1].students, reg[|reg| - 1].examId)
  }

  /** A row is listed exactly when some exam's inner map holds it. */
  lemma {:induction false} AllRowsMember(reg: seq<ExamEntry>, row: Row)
    ensures row in AllRows(reg) <==>
      exists i, j :: 0 <= i < |reg| && 0 <= j < |reg[i].students| && reg[i].examId == row.examId
        && reg[i].students[j] == Seen(row.studentId, row.lastActivity)
  {
    if reg != [] {
      var init := reg[..|reg| - 1];
      var last := reg[|reg| - 1];
      AllRowsMember(init, row);
      var rs := Rows(last.students, last.examId);
      if row in rs {
        var j :| 0 <= j < |rs| && rs[j] == row;
        assert reg[|reg| - 1].students[j] == Seen(row.studentId, row.lastActivity);
      }
      if exists i, j :: (0 <= i < |reg| && 0 <= j < |reg[i].students| && reg[i].examId == row.examId
        && reg[i].students[j] == Seen(row.studentId, row.lastActivity))
      {
        var i, j :| 0 <= i < |reg| && 0 <= j < |reg[i].students| && reg[i].examId == row.examId
          && reg[i].students[j] == Seen(row.studentId, row.lastActivity);
        if i == |reg| - 1 {
          assert rs[j] == row;
        } else {
          assert init[i] == reg[i];
        }
      }
    }
  }

  /** `getActiveStudents(examId)`: one exam's list, or every exam's when the id is absent. */
  function Active(reg: seq<ExamEntry>, examId: string): (r: seq<Row>)
    ensures examId != "" && ExamIndex(reg, examId) == -1 ==> r == []
    ensures examId != "" ==> |r| == |StudentsOf(reg, examId)|
    ensures examId != "" ==> forall k :: 0 <= k < |r| ==>
      r[k] == Row(StudentsOf(reg, examId)[k].studentId, examId, StudentsOf(reg, examId)[k].lastActivity)
    ensures examId == "" ==> r == AllRows(reg)
  {
    if examId != "" then Rows(StudentsOf(reg, examId), examId) else AllRows(reg)
  }

  /** The student-inactive notifications for a list of rows. */
  function InactiveEvents(rows: seq<Row>, now: int): seq<Event> {
    if rows == [] then []
    else
      var last := rows[|rows| - 1];
      InactiveEvents(rows[..|rows| - 1], now)
        + (if now - last.lastActivity > InactiveAfterMs then [StudentInactive(last.studentId, last.examId, now)] else [])
  }

  /** A student is reported exactly when the silence exceeds 30 000 ms. */
  lemma {:induction false} InactiveEventsMember(rows: seq<Row>, now: int, s: string, e: string)
    ensures StudentInactive(s, e, now) in InactiveEvents(rows, now) <==>
      exists k :: 0 <= k < |rows| && rows[k].studentId == s && rows[k].examId == e && now - rows[k].lastActivity > InactiveAfterMs
  {
    if rows != [] {
      var init := rows[..|rows| - 1];
      InactiveEventsMember(init, now, s, e);
      if exists k :: 0 <= k < |rows| && rows[k].studentId == s && rows[k].examId == e && now - rows[k].lastActivity > InactiveAfterMs {
        var k :| 0 <= k < |rows| && rows[k].studentId == s && rows[k].examId == e && now - rows[k].lastActivity > InactiveAfterMs;
        if k < |rows| - 1 { assert init[k] == rows[k]; }
      }
    }
  }

  /** One more seen student in the sweep adds at most its own notification. */
  lemma SweepStep(done: seq<Row>, ps: seq<Seen>, j: int, e: string, now: int)
    requires 0 <= j < |ps|
    ensures InactiveEvents(done + Rows(ps[..j + 1], e), now)
      == InactiveEvents(done + Rows(ps[..j], e), now)
         + (if now - ps[j].lastActivity > InactiveAfterMs then [StudentInactive(ps[j].studentId, e, now)] else [])
  {
    assert ps[..j + 1][..j] == ps[..j];
    var after := done + Rows(ps[..j + 1], e);
    assert after[..|after| - 1] == done + Rows(ps[..j], e);
  }

  /** One more exam in the walk appends its rows. */
  lemma AllRowsStep(reg: seq<ExamEntry>, i: int)
    requires 0 <= i < |reg|
    ensures AllRows(reg[..i + 1]) == AllRows(reg[..i]) + Rows(reg[i].students[..|reg[i].students|], reg[i].examId)
  {
    assert reg[..i + 1][..i] == reg[..i];
    assert reg[i].students[..|reg[i].students|] == reg[i].students;
  }

  /** Every event sent to the "teachers" room, in order. */
  function ToTeachersAll(events: seq<Event>): (r: seq<Emission>)
    ensures |r| == |events|
    ensures forall k :: 0 <= k < |events| ==> r[k] == ToTeachers(events[k])
  {
    if events == [] then [] else [ToTeachers(events[0])] + ToTeachersAll(events[1..])
  }

  class Registry {
    /** `activeStudents`. */
    var entries: seq<ExamEntry>

    ghost predicate Valid()
      reads this
    {
      ValidRegistry(entries)
    }

    constructor()
      ensures Valid() && entries == []
    {
      entries := [];
    }

    /** `getActiveStudents`: the nested for-of walk when no exam id is given. */
    method GetActiveStudents(examId: string) returns (out: seq<Row>)
      ensures out == Active(entries, examId)
    {
      if examId != "" {
        return Rows(StudentsOf(entries, examId), examId);
      }
      out := [];
      var i := 0;
      while i < |entries|
        invariant 0 <= i <= |entries|
        invariant out == AllRows(entries[..i])
      {
        var entry := entries[i];
        var j := 0;
        while j < |entry.students|
          invariant 0 <= j <= |entry.students|
          invariant out == AllRows(entries[..i]) + Rows(entry.students[..j], entry.examId)
        {
          var seen := entry.students[j];
          assert entry.students[..j + 1][..j] == entry.students[..j];
          out := out + [Row(seen.studentId, entry.examId, seen.lastActivity)];
          j := j + 1;
        }
        assert entry.students[..j] == entry.students;
        assert entries[..i + 1][..i] == entries[..i];
        i := i + 1;
      }
      assert entries[..i] == entries;
    }

    /** `touchStudent`. */
    method TouchStudent(examId: string, studentId: string, ts: int)
      requires Valid()
      modifies this
      ensures Valid()
      ensures entries == Touch(old(entries), examId, studentId, ts)
    {
      entries := Touch(entries, examId, studentId, ts);
    }

    /** `removeStudent`. */
    method RemoveStudent(examId: string, studentId: string) returns (existed: bool)
      requires Valid()
      modifies this
      ensures Valid()
      ensures (entries, existed) == Remove(old(entries), examId, studentId)
    {
      var r := Remove(entries, examId, studentId);
      entries := r.0;
      existed := r.1;
    }

    /** One run of the 10-second interval: notify teachers of every silent student. */
    method InactivitySweep(now: int) returns (out: seq<Emission>)
      ensures out == ToTeachersAll(InactiveEvents(AllRows(entries), now))
    {
      var events: seq<Event> := [];
      var i := 0;
      while i < |entries|
        invariant 0 <= i <= |entries|
        invariant events == InactiveEvents(AllRows(entries[..i]), now)
      {
        var entry := entries[i];
        var j := 0;
        assert AllRows(entries[..i]) + Rows(entry.students[..0], entry.examId) == AllRows(entries[..i]);
        while j < |entry.students|
          invariant 0 <= j <= |entry.students|
          invariant events == InactiveEvents(AllRows(entries[..i]) + Rows(entry.students[..j], entry.examId), now)
        {
          var seen := entry.students[j];
          SweepStep(AllRows(entries[..i]), entry.students, j, entry.examId, now);
          if now - seen.lastActivity > InactiveAfterMs {
            events := events + [StudentInactive(seen.studentId, entry.examId, now)];
          }
          j := j + 1;
        }
        AllRowsStep(entries, i);
        i := i + 1;
      }
      assert entries[..i] == entries;
      out := ToTeachersAll(events);
    }

    /**
     * The `join-exam` handler: a teacher joins the rooms and gets the current
     * list; a student with both ids is touched and announced to the teachers.
     */
    method JoinExam(p: JoinPayload, now: int) returns (meta: SocketMeta, rooms: seq<string>, out: seq<Emission>)
      requires Valid()
      modifies this
      ensures Valid()
      ensures meta == SocketMeta(p.role, p.examId, p.studentId)
      ensures p.role == Teacher ==>
        entries == old(entries)
        && rooms == ["teachers"] + (if p.examId != "" then ["exam:" + p.examId] else [])
        && out == [ToSocket(ActiveStudents(Active(entries, p.examId)))]
      ensures p.role == Student && p.examId != "" && p.studentId != "" ==>
        entries == Touch(old(entries), p.examId, p.studentId, now)
        && rooms == ["exam:" + p.examId, "student:" + p.examId + ":" + p.studentId]
        && out == [ToTeachers(StudentJoined(p.studentId, p.examId, now)), ToTeachers(ActiveStudents(Active(entries, p.examId)))]
      ensures p.role != Teacher && !(p.role == Student && p.examId != "" && p.studentId != "") ==>
        entries == old(entries) && rooms == [] && out == []
    {
      meta := SocketMeta(p.role, p.examId, p.studentId);
      if p.role == Teacher {
        rooms := ["teachers"] + (if p.examId != "" then ["exam:" + p.examId] else []);
        var list := GetActiveStudents(p.examId);
        out := [ToSocket(ActiveStudents(list))];
      } else if p.role == Student && p.examId != "" && p.studentId != "" {
        rooms := ["exam:" + p.examId, "student:" + p.examId + ":" + p.studentId];
        TouchStudent(p.examId, p.studentId, now);
        var list := GetActiveStudents(p.examId);
        out := [ToTeachers(StudentJoined(p.studentId, p.examId, now)), ToTeachers(ActiveStudents(list))];
      } else {
        rooms := [];
        out := [];
      }
    }

    /**
     * The `monitoring-event` handler: forward to the teachers and to the exam
     * room, and refresh presence only when exam id, student id and timestamp
     * are all truthy (a timestamp of 0 is not).
     */
    method MonitoringEvent(p: MonitoringPayload) returns (out: seq<Emission>)
      requires Valid()
      modifies this
      ensures Valid()
      ensures out == [ToTeachers(Monitoring(p))] + (if p.examId != "" then [ToRoom("exam:" + p.examId, Monitoring(p))] else [])
      ensures if p.examId != "" && p.studentId != "" && p.timestamp.Some? && p.timestamp.value != 0
        then entries == Touch(old(entries), p.examId, p.studentId, p.timestamp.value)
        else entries == old(entries)
    {
      out := [ToTeachers(Monitoring(p))] + (if p.examId != "" then [ToRoom("exam:" + p.examId, Monitoring(p))] else []);
      if p.examId != "" && p.studentId != "" && p.timestamp.Some? && p.timestamp.value != 0 {
        TouchStudent(p.examId, p.studentId, p.timestamp.value);
      }
    }

    /** The `disconnect` handler: student-left only when an entry was actually removed. */
    method Disconnect(meta: SocketMeta, now: int) returns (out: seq<Emission>)
      requires Valid()
      modifies this
      ensures Valid()
      ensures if meta.role == Student && meta.examId != "" && meta.studentId != ""
        then entries == Remove(old(entries), meta.examId, meta.studentId).0
          && out == (if Remove(old(entries), meta.examId, meta.studentId).1
                     then [ToTeachers(StudentLeft(meta.studentId, meta.examId, now))] else [])
        else entries == old(entries) && out == []
      ensures out != [] ==> LastOf(StudentsOf(old(entries), meta.examId), meta.studentId).Some?
    {
      out := [];
      if meta.role == Student && meta.examId != "" && meta.studentId != "" {
        var removed := RemoveStudent(meta.examId, meta.studentId);
        if removed {
          out := [ToTeachers(StudentLeft(meta.studentId, meta.examId, now))];
        }
      }
    }
  }
}
