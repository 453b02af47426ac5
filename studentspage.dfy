/**
 * The teacher's student list of app/dashboard/teacher/students/page.tsx:
 * the search and filter effect with its in-place sort, the selection
 * handlers, bulk actions and the CSV export. A GPA is held in hundredths;
 * the printed forms of a GPA and of an enrolment date are parameters, dates
 * are milliseconds. The download of the CSV is left out.
 */
module StudentsPage {
  import Text
  import opened Wrappers
  import Collections
  import Sorting

  datatype Student = Student(
    id: string, firstName: string, lastName: string, email: string, phone: Option<string>,
    studentId: string, enrollmentDate: int, status: string, className: string, gpaHundredths: int)

  datatype SortOrder = Asc | Desc

  // ---------------------------------------------------------------------------
  // Filtering
  // ---------------------------------------------------------------------------

  /** The search test over first name, last name, email and student number. */
  predicate MatchesSearch(s: Student, term: string) {
    Text.ContainsIgnoreCase(s.firstName, term) || Text.ContainsIgnoreCase(s.lastName, term)
    || Text.ContainsIgnoreCase(s.email, term) || Text.ContainsIgnoreCase(s.studentId, term)
  }

  /** A student is listed when the search matches and status and class pass their filters ("all" passes everything). */
  predicate IsShown(s: Student, term: string, statusFilter: string, classFilter: string) {
    MatchesSearch(s, term)
    && (statusFilter == "all" || s.status == statusFilter)
    && (classFilter == "all" || s.className == classFilter)
  }

  function ShownTest(term: string, statusFilter: string, classFilter: string): Student -> bool {
    s => IsShown(s, term, statusFilter, classFilter)
  }

  /** An empty search with both filters on "all" lists everybody. */
  lemma EverybodyByDefault(students: seq<Student>)
    ensures Collections.Filter(students, ShownTest("", "all", "all")) == students
  {
    forall k | 0 <= k < |students| ensures IsShown(students[k], "", "all", "all") {
      Text.ContainsEmpty(Text.Lower(students[k].firstName));
    }
    Collections.FilterAll(students, ShownTest("", "all", "all"));
  }

  // ---------------------------------------------------------------------------
  // Sorting
  // ---------------------------------------------------------------------------

  /** The value the comparator compares for each `sortBy` choice. */
  function SortKey(sortBy: string, s: Student): (k: Sorting.Key)
    ensures sortBy == "name" ==> k == [Sorting.Str(Text.Lower(s.firstName + " " + s.lastName))]
    ensures sortBy == "email" ==> k == [Sorting.Str(Text.Lower(s.email))]
    ensures sortBy == "studentId" ==> k == [Sorting.Str(s.studentId)]
    ensures sortBy == "enrollmentDate" ==> k == [Sorting.Num(s.enrollmentDate)]
    ensures sortBy == "gpa" ==> k == [Sorting.Num(s.gpaHundredths)]
    ensures sortBy !in ["name", "email", "studentId", "enrollmentDate", "gpa"] ==> k == [Sorting.Str(Text.Lower(s.firstName))]
  {
    if sortBy == "name" then [Sorting.Str(Text.Lower(s.firstName + " " + s.lastName))]
    else if sortBy == "email" then [Sorting.Str(Text.Lower(s.email))]
    else if sortBy == "studentId" then [Sorting.Str(s.studentId)]
    else if sortBy == "enrollmentDate" then [Sorting.Num(s.enrollmentDate)]
    else if sortBy == "gpa" then [Sorting.Num(s.gpaHundredths)]
    else [Sorting.Str(Text.Lower(s.firstName))]
  }

  function KeyOf(sortBy: string): Student -> Sorting.Key { s => SortKey(sortBy, s) }

  /** An unknown sort choice orders like the first name does. */
  lemma UnknownSortIsFirstName(sortBy: string, a: Student, b: Student)
    requires sortBy !in ["name", "email", "studentId", "enrollmentDate", "gpa"]
    ensures SortKey(sortBy, a) == [Sorting.Str(Text.Lower(a.firstName))]
    ensures Sorting.KeyLt(SortKey(sortBy, a), SortKey(sortBy, b)) <==> Text.Lt(Text.Lower(a.firstName), Text.Lower(b.firstName))
  {
    var ka, kb := SortKey(sortBy, a), SortKey(sortBy, b);
    if ka[0] == kb[0] {
      Text.LtIrreflexive(Text.Lower(a.firstName));
      assert ka[1..] == [] && kb[1..] == [];
    }
  }

  // ---------------------------------------------------------------------------
  // Selection
  // ---------------------------------------------------------------------------

  /** `students.map(s => s.id)`. */
  function Ids(students: seq<Student>): (r: seq<string>)
    ensures |r| == |students|
    ensures forall k :: 0 <= k < |r| ==> r[k] == students[k].id
    decreases |students|
  {
    if students == [] then [] else [students[0].id] + Ids(students[1..])
  }

  /** `handleSelectAll`: a selection as long as the list is cleared, any other becomes the listed ids. */
  function SelectAll(selected: seq<string>, shown: seq<Student>): (r: seq<string>)
    ensures |selected| == |shown| ==> r == []
    ensures |selected| != |shown| ==> r == Ids(shown)
  {
    if |selected| == |shown| then [] else Ids(shown)
  }

  /** Pressing "select all" twice from an empty selection of a non-empty list ends with nothing selected. */
  lemma SelectAllTwice(shown: seq<Student>)
    requires |shown| > 0
    ensures SelectAll(SelectAll([], shown), shown) == []
  {
  }

  /** The alert text of a bulk action. */
  function BulkMessage(action: string, count: nat): string {
    action + " performed on " + Text.NatToString(count) + " student(s)"
  }

  // ---------------------------------------------------------------------------
  // The CSV export
  // ---------------------------------------------------------------------------

  const Header := ["Student ID", "Name", "Email", "Phone", "Class", "Status", "GPA", "Enrollment Date"]

  /** A student's eight cells; a missing phone joins as an empty cell. */
  function Cells(s: Student, gpaText: int -> string, dateText: int -> string): (r: seq<string>)
    ensures |r| == |Header|
  {
    [s.studentId, s.firstName + " " + s.lastName, s.email, s.phone.GetOr(""), s.className, s.status,
     gpaText(s.gpaHundredths), dateText(s.enrollmentDate)]
  }

  function Rows(shown: seq<Student>, gpaText: int -> string, dateText: int -> string): (r: seq<string>)
    ensures |r| == |shown|
    ensures forall k :: 0 <= k < |r| ==> r[k] == Text.Join(Cells(shown[k], gpaText, dateText), ",")
    decreases |shown|
  {
    if shown == [] then []
    else [Text.Join(Cells(shown[0], gpaText, dateText), ",")] + Rows(shown[1..], gpaText, dateText)
  }

  /** `handleExportData`'s file: the header line, then one line per listed student, joined by newlines. */
  function Csv(shown: seq<Student>, gpaText: int -> string, dateText: int -> string): string {
    Text.Join([Text.Join(Header, ",")] + Rows(shown, gpaText, dateText), "\n")
  }

  /** No cell of any listed student holds the character `c`. */
  predicate CellsFree(shown: seq<Student>, gpaText: int -> string, dateText: int -> string, c: char) {
    forall k, j :: 0 <= k < |shown| && 0 <= j < |Header| ==> c !in Cells(shown[k], gpaText, dateText)[j]
  }

  /**
   * When no cell holds a line break, the file reads back as the header line
   * followed by exactly one line per listed student, in list order.
   */
  lemma CsvLines(shown: seq<Student>, gpaText: int -> string, dateText: int -> string)
    requires CellsFree(shown, gpaText, dateText, '\n')
    ensures var lines := Text.Split(Csv(shown, gpaText, dateText), '\n');
      |lines| == |shown| + 1 && lines[0] == Text.Join(Header, ",")
      && forall k :: 0 <= k < |shown| ==> lines[k + 1] == Text.Join(Cells(shown[k], gpaText, dateText), ",")
  {
    var rows := Rows(shown, gpaText, dateText);
    HeaderHasNoBreak();
    forall k | 0 <= k < |rows| ensures '\n' !in rows[k] {
      RowHasNoBreak(shown[k], gpaText, dateText);
    }
    SplitLines(Text.Join(Header, ","), rows);
  }

  lemma HeaderHasNoBreak()
    ensures '\n' !in Text.Join(Header, ",")
  {
    Text.JoinWithout(Header, ",", '\n');
  }

  lemma RowHasNoBreak(s: Student, gpaText: int -> string, dateText: int -> string)
    requires forall j :: 0 <= j < |Header| ==> '\n' !in Cells(s, gpaText, dateText)[j]
    ensures '\n' !in Text.Join(Cells(s, gpaText, dateText), ",")
  {
    Text.JoinWithout(Cells(s, gpaText, dateText), ",", '\n');
  }

  /** Lines without breaks joined by newlines split back into the same lines. */
  lemma SplitLines(head: string, rows: seq<string>)
    requires '\n' !in head
    requires forall k :: 0 <= k < |rows| ==> '\n' !in rows[k]
    ensures Text.Split(Text.Join([head] + rows, "\n"), '\n') == [head] + rows
  {
    var lines := [head] + rows;
    forall k | 0 <= k < |lines| ensures '\n' !in lines[k] {
      if k > 0 { assert lines[k] == rows[k - 1]; }
    }
    Text.SplitJoin(lines, '\n');
  }

  /** When no cell holds a comma, every student's line splits into its eight cells again. */
  lemma CsvColumns(s: Student, gpaText: int -> string, dateText: int -> string)
    requires forall j :: 0 <= j < |Header| ==> ',' !in Cells(s, gpaText, dateText)[j]
    ensures Text.Split(Text.Join(Cells(s, gpaText, dateText), ","), ',') == Cells(s, gpaText, dateText)
  {
    Text.SplitJoin(Cells(s, gpaText, dateText), ',');
  }

  // ---------------------------------------------------------------------------
  // The page's state
  // ---------------------------------------------------------------------------

  class Page {
    const students: seq<Student>
    var searchTerm: string
    var statusFilter: string
    var classFilter: string
    var sortBy: string
    var sortOrder: SortOrder
    var selectedStudents: seq<string>
    var filteredStudents: seq<Student>

    /** The first render: everything listed in stored order, sorted by name ascending once the effect runs. */
    constructor(students: seq<Student>)
      ensures this.students == students && filteredStudents == students
      ensures searchTerm == "" && statusFilter == "all" && classFilter == "all"
      ensures sortBy == "name" && sortOrder == Asc && selectedStudents == []
    {
      this.students := students;
      filteredStudents := students;
      searchTerm := "";
      statusFilter := "all";
      classFilter := "all";
      sortBy := "name";
      sortOrder := Asc;
      selectedStudents := [];
    }

    /**
     * The effect: filter, then sort the fresh array in place. The list holds
     * exactly the students that pass, each as often as in the roster, in the
     * chosen order.
     */
    method ApplyFilters()
      modifies this
      ensures multiset(filteredStudents) == multiset(Collections.Filter(students, ShownTest(searchTerm, statusFilter, classFilter)))
      ensures forall s :: s in filteredStudents <==> s in students && IsShown(s, searchTerm, statusFilter, classFilter)
      ensures Sorting.Sorted(KeyOf(sortBy), sortOrder == Desc, filteredStudents)
      ensures searchTerm == old(searchTerm) && statusFilter == old(statusFilter) && classFilter == old(classFilter)
      ensures sortBy == old(sortBy) && sortOrder == old(sortOrder) && selectedStudents == old(selectedStudents)
    {
      var filtered := Collections.Filter(students, ShownTest(searchTerm, statusFilter, classFilter));
      var a := new Student[|filtered|](i requires 0 <= i < |filtered| => filtered[i]);
      assert a[..] == filtered;
      Sorting.SortInPlace(a, KeyOf(sortBy), sortOrder == Desc);
      filteredStudents := a[..];
      forall s ensures s in filteredStudents <==> s in filtered {
        assert s in filteredStudents <==> s in multiset(filteredStudents);
        assert s in filtered <==> s in multiset(filtered);
      }
    }

    method SetSearchTerm(value: string)
      modifies this
      ensures searchTerm == value
      ensures statusFilter == old(statusFilter) && classFilter == old(classFilter) && sortBy == old(sortBy)
      ensures sortOrder == old(sortOrder) && selectedStudents == old(selectedStudents) && filteredStudents == old(filteredStudents)
    {
      searchTerm := value;
    }

    method SetStatusFilter(value: string)
      modifies this
      ensures statusFilter == value
      ensures searchTerm == old(searchTerm) && classFilter == old(classFilter) && sortBy == old(sortBy)
      ensures sortOrder == old(sortOrder) && selectedStudents == old(selectedStudents) && filteredStudents == old(filteredStudents)
    {
      statusFilter := value;
    }

    method SetClassFilter(value: string)
      modifies this
      ensures classFilter == value
      ensures searchTerm == old(searchTerm) && statusFilter == old(statusFilter) && sortBy == old(sortBy)
      ensures sortOrder == old(sortOrder) && selectedStudents == old(selectedStudents) && filteredStudents == old(filteredStudents)
    {
      classFilter := value;
    }

    method SetSortBy(value: string)
      modifies this
      ensures sortBy == value
      ensures searchTerm == old(searchTerm) && statusFilter == old(statusFilter) && classFilter == old(classFilter)
      ensures sortOrder == old(sortOrder) && selectedStudents == old(selectedStudents) && filteredStudents == old(filteredStudents)
    {
      sortBy := value;
    }

    /** The direction button flips the order. */
    method FlipSortOrder()
      modifies this
      ensures sortOrder == if old(sortOrder) == Asc then Desc else Asc
      ensures searchTerm == old(searchTerm) && statusFilter == old(statusFilter) && classFilter == old(classFilter)
      ensures sortBy == old(sortBy) && selectedStudents == old(selectedStudents) && filteredStudents == old(filteredStudents)
    {
      sortOrder := if sortOrder == Asc then Desc else Asc;
    }

    /** `handleSelectStudent`. */
    method SelectStudent(id: string)
      modifies this
      ensures selectedStudents == Collections.ToggleInList(old(selectedStudents), id)
      ensures searchTerm == old(searchTerm) && statusFilter == old(statusFilter) && classFilter == old(classFilter)
      ensures sortBy == old(sortBy) && sortOrder == old(sortOrder) && filteredStudents == old(filteredStudents)
    {
      selectedStudents := Collections.ToggleInList(selectedStudents, id);
    }

    /** `handleSelectAll`. */
    method SelectAllShown()
      modifies this
      ensures selectedStudents == SelectAll(old(selectedStudents), filteredStudents)
      ensures searchTerm == old(searchTerm) && statusFilter == old(statusFilter) && classFilter == old(classFilter)
      ensures sortBy == old(sortBy) && sortOrder == old(sortOrder) && filteredStudents == old(filteredStudents)
    {
      selectedStudents := SelectAll(selectedStudents, filteredStudents);
    }

    /** `handleBulkAction`: the alert's text, and the selection emptied. */
    method BulkAction(action: string) returns (alert: string)
      modifies this
      ensures alert == BulkMessage(action, |old(selectedStudents)|)
      ensures selectedStudents == []
      ensures searchTerm == old(searchTerm) && statusFilter == old(statusFilter) && classFilter == old(classFilter)
      ensures sortBy == old(sortBy) && sortOrder == old(sortOrder) && filteredStudents == old(filteredStudents)
    {
      alert := BulkMessage(action, |selectedStudents|);
      selectedStudents := [];
    }
  }
}
