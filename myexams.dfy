/**
 * The teacher's exam list of app/dashboard/teacher/my-exams/page.tsx: the
 * exams loaded from the local exam store, the search/status filter with its
 * in-place sort, the points badge, the one-at-a-time action menu and the
 * duplicate / archive / delete actions. `new Date(createdAt).getTime()` is
 * the parameter `createdMs`; the browser's `confirm` answer is a parameter.
 */
module MyExams {
  import Text
  import opened Wrappers
  import Collections
  import Sorting
  import ExamStore

  function StatusName(s: ExamStore.Status): string {
    match s
    case Draft => "draft"
    case Active => "active"
    case Completed => "completed"
    case Archived => "archived"
  }

  datatype SortOrder = Asc | Desc

  /** A card is listed when its title or description contains the search and its status passes the filter. */
  predicate IsShown(e: ExamStore.StoredExam, term: string, statusFilter: string) {
    (Text.ContainsIgnoreCase(e.title, term) || Text.ContainsIgnoreCase(e.description, term))
    && (statusFilter == "All Status" || StatusName(e.status) == statusFilter)
  }

  function ShownTest(term: string, statusFilter: string): ExamStore.StoredExam -> bool {
    e => IsShown(e, term, statusFilter)
  }

  /** The filters the page opens with list every exam. */
  lemma EverythingByDefault(exams: seq<ExamStore.StoredExam>)
    ensures Collections.Filter(exams, ShownTest("", "All Status")) == exams
  {
    forall k | 0 <= k < |exams| ensures IsShown(exams[k], "", "All Status") {
      Text.ContainsEmpty(Text.Lower(exams[k].title));
    }
    Collections.FilterAll(exams, ShownTest("", "All Status"));
  }

  /** The comparator's value: lower-cased title, status name, or creation time (also for "startDate" and unknown keys). */
  function SortKey(sortBy: string, createdMs: string -> int, e: ExamStore.StoredExam): (k: Sorting.Key)
    ensures sortBy == "title" ==> k == [Sorting.Str(Text.Lower(e.title))]
    ensures sortBy == "status" ==> k == [Sorting.Str(StatusName(e.status))]
    ensures sortBy != "title" && sortBy != "status" ==> k == [Sorting.Num(createdMs(e.createdAt))]
  {
    if sortBy == "title" then [Sorting.Str(Text.Lower(e.title))]
    else if sortBy == "status" then [Sorting.Str(StatusName(e.status))]
    else [Sorting.Num(createdMs(e.createdAt))]
  }

  function KeyOf(sortBy: string, createdMs: string -> int): ExamStore.StoredExam -> Sorting.Key {
    e => SortKey(sortBy, createdMs, e)
  }

  /** "startDate" orders exactly as "createdAt": a list sorted by one is sorted by the other. */
  lemma StartDateIsCreatedAt(createdMs: string -> int, desc: bool, s: seq<ExamStore.StoredExam>)
    ensures Sorting.Sorted(KeyOf("startDate", createdMs), desc, s) <==> Sorting.Sorted(KeyOf("createdAt", createdMs), desc, s)
  {
    forall e ensures SortKey("startDate", createdMs, e) == SortKey("createdAt", createdMs, e) {
    }
  }

  /** `questions.reduce((s, q) => s + (q.points ?? 0), 0)`. */
  function TotalPoints(qs: seq<ExamStore.StoredQuestion>): (r: int)
    ensures (forall k :: 0 <= k < |qs| ==> qs[k].points >= 0) ==> r >= 0
    ensures qs == [] ==> r == 0
    ensures |qs| == 1 ==> r == qs[0].points
    decreases |qs|
  {
    if qs == [] then 0 else qs[0].points + TotalPoints(qs[1..])
  }

  /** `reduce((s, q) => s + q.points, acc)`, folding from the left as `reduce` does. */
  function ReducePoints(acc: int, qs: seq<ExamStore.StoredQuestion>): int
    decreases |qs|
  {
    if qs == [] then acc else ReducePoints(acc + qs[0].points, qs[1..])
  }

  /** Folding from any start adds the badge to it. */
  lemma {:induction false} ReducePointsFrom(acc: int, qs: seq<ExamStore.StoredQuestion>)
    ensures ReducePoints(acc, qs) == acc + TotalPoints(qs)
    decreases |qs|
  {
    if qs != [] { ReducePointsFrom(acc + qs[0].points, qs[1..]); }
  }

  /** The badge is the page's `reduce` from 0. */
  lemma TotalPointsIsReduce(qs: seq<ExamStore.StoredQuestion>)
    ensures TotalPoints(qs) == ReducePoints(0, qs)
  {
    ReducePointsFrom(0, qs);
  }

  /** The badge of two question lists put together is the sum of their badges. */
  lemma {:induction false} TotalPointsAppend(a: seq<ExamStore.StoredQuestion>, b: seq<ExamStore.StoredQuestion>)
    ensures TotalPoints(a + b) == TotalPoints(a) + TotalPoints(b)
    decreases |a|
  {
    if a != [] {
      assert (a + b)[1..] == a[1..] + b;
      TotalPointsAppend(a[1..], b);
    } else {
      assert a + b == b;
    }
  }

  /** The menu button: open the clicked exam's menu, or close it when it was the open one. */
  function ToggleMenu(open: Option<string>, id: string): (r: Option<string>)
    ensures r == Some(id) <==> open != Some(id)
    ensures r.Some? ==> r.value == id
  {
    if open == Some(id) then None else Some(id)
  }

  class Page {
    var exams: seq<ExamStore.StoredExam>
    var searchTerm: string
    var statusFilter: string
    var sortBy: string
    var sortOrder: SortOrder
    var filteredExams: seq<ExamStore.StoredExam>
    var openMenuId: Option<string>

    /** Newest first, everything listed, no menu open; the exams arrive with `Load`. */
    constructor()
      ensures exams == [] && filteredExams == [] && openMenuId.None?
      ensures searchTerm == "" && statusFilter == "All Status" && sortBy == "createdAt" && sortOrder == Desc
    {
      exams := [];
      searchTerm := "";
      statusFilter := "All Status";
      sortBy := "createdAt";
      sortOrder := Desc;
      filteredExams := [];
      openMenuId := None;
    }

    /** The mount effect and the `examStoreChanged` handler: read the store. */
    method Load(store: ExamStore.Store, now: int, nowIso: string, parse: string -> Option<int>)
      modifies this, store
      ensures exams == ExamStore.Promote(old(store.exams), now, nowIso, parse) && store.exams == exams
      ensures searchTerm == old(searchTerm) && statusFilter == old(statusFilter) && sortBy == old(sortBy)
      ensures sortOrder == old(sortOrder) && filteredExams == old(filteredExams) && openMenuId == old(openMenuId)
    {
      var es := store.GetExams(now, nowIso, parse);
      exams := es;
    }

    /** The filter effect: the passing exams, sorted in place by the chosen key and direction. */
    method ApplyFilters(createdMs: string -> int)
      modifies this
      ensures multiset(filteredExams) == multiset(Collections.Filter(exams, ShownTest(searchTerm, statusFilter)))
      ensures forall e :: e in filteredExams <==> e in exams && IsShown(e, searchTerm, statusFilter)
      ensures Sorting.Sorted(KeyOf(sortBy, createdMs), sortOrder == Desc, filteredExams)
      ensures exams == old(exams) && searchTerm == old(searchTerm) && statusFilter == old(statusFilter)
      ensures sortBy == old(sortBy) && sortOrder == old(sortOrder) && openMenuId == old(openMenuId)
    {
      var filtered := Collections.Filter(exams, ShownTest(searchTerm, statusFilter));
      var a := new ExamStore.StoredExam[|filtered|](i requires 0 <= i < |filtered| => filtered[i]);
      assert a[..] == filtered;
      Sorting.SortInPlace(a, KeyOf(sortBy, createdMs), sortOrder == Desc);
      filteredExams := a[..];
      forall e ensures e in filteredExams <==> e in filtered {
        assert e in filteredExams <==> e in multiset(filteredExams);
        assert e in filtered <==> e in multiset(filtered);
      }
    }

    method SetSearchTerm(value: string)
      modifies this
      ensures searchTerm == value
      ensures exams == old(exams) && statusFilter == old(statusFilter) && sortBy == old(sortBy)
      ensures sortOrder == old(sortOrder) && filteredExams == old(filteredExams) && openMenuId == old(openMenuId)
    {
      searchTerm := value;
    }

    method SetStatusFilter(value: string)
      modifies this
      ensures statusFilter == value
      ensures exams == old(exams) && searchTerm == old(searchTerm) && sortBy == old(sortBy)
      ensures sortOrder == old(sortOrder) && filteredExams == old(filteredExams) && openMenuId == old(openMenuId)
    {
      statusFilter := value;
    }

    method SetSortBy(value: string)
      modifies this
      ensures sortBy == value
      ensures exams == old(exams) && searchTerm == old(searchTerm) && statusFilter == old(statusFilter)
      ensures sortOrder == old(sortOrder) && filteredExams == old(filteredExams) && openMenuId == old(openMenuId)
    {
      sortBy := value;
    }

    method FlipSortOrder()
      modifies this
      ensures sortOrder == if old(sortOrder) == Asc then Desc else Asc
      ensures exams == old(exams) && searchTerm == old(searchTerm) && statusFilter == old(statusFilter)
      ensures sortBy == old(sortBy) && filteredExams == old(filteredExams) && openMenuId == old(openMenuId)
    {
      sortOrder := if sortOrder == Asc then Desc else Asc;
    }

    /** The "more" button of one card. */
    method ClickMenu(id: string)
      modifies this
      ensures openMenuId == ToggleMenu(old(openMenuId), id)
      ensures exams == old(exams) && searchTerm == old(searchTerm) && statusFilter == old(statusFilter)
      ensures sortBy == old(sortBy) && sortOrder == old(sortOrder) && filteredExams == old(filteredExams)
    {
      openMenuId := ToggleMenu(openMenuId, id);
    }

    /** A click outside every menu container, or on a menu entry. */
    method CloseMenu()
      modifies this
      ensures openMenuId.None?
      ensures exams == old(exams) && searchTerm == old(searchTerm) && statusFilter == old(statusFilter)
      ensures sortBy == old(sortBy) && sortOrder == old(sortOrder) && filteredExams == old(filteredExams)
    {
      openMenuId := None;
    }

    /** The menu's "Duplicate": the menu closes, the store copies the exam, and the alert names it. */
    method Duplicate(store: ExamStore.Store, exam: ExamStore.StoredExam, randomId: string, now: int, nowIso: string,
                     parse: string -> Option<int>) returns (alert: string)
      modifies this, store
      ensures alert == "Exam \"" + exam.title + "\" duplicated."
      ensures openMenuId.None?
      ensures var es := ExamStore.Promote(old(store.exams), now, nowIso, parse);
        match ExamStore.Find(es, exam.id)
        case None => store.exams == es
        case Some(e) => store.exams == [ExamStore.Copy(e, randomId, nowIso)] + es
      ensures exams == old(exams) && filteredExams == old(filteredExams)
      ensures searchTerm == old(searchTerm) && statusFilter == old(statusFilter)
      ensures sortBy == old(sortBy) && sortOrder == old(sortOrder)
    {
      openMenuId := None;
      var _ := store.DuplicateExam(exam.id, randomId, now, nowIso, parse);
      alert := "Exam \"" + exam.title + "\" duplicated.";
    }

    /** The menu's "Archive". */
    method Archive(store: ExamStore.Store, exam: ExamStore.StoredExam, now: int, nowIso: string,
                   parse: string -> Option<int>) returns (alert: string)
      modifies this, store
      ensures alert == "Exam \"" + exam.title + "\" archived."
      ensures openMenuId.None?
      ensures var es := ExamStore.Promote(old(store.exams), now, nowIso, parse);
        var k := ExamStore.FindIndex(es, exam.id);
        store.exams == if k == -1 then es else es[k := es[k].(status := ExamStore.Archived, updatedAt := nowIso)]
      ensures exams == old(exams) && filteredExams == old(filteredExams)
      ensures searchTerm == old(searchTerm) && statusFilter == old(statusFilter)
      ensures sortBy == old(sortBy) && sortOrder == old(sortOrder)
    {
      openMenuId := None;
      var _ := store.ArchiveExam(exam.id, now, nowIso, parse);
      alert := "Exam \"" + exam.title + "\" archived.";
    }

    /** The menu's "Delete": nothing happens unless the teacher confirms. */
    method Delete(store: ExamStore.Store, exam: ExamStore.StoredExam, confirmed: bool, now: int, nowIso: string,
                  parse: string -> Option<int>) returns (alert: Option<string>)
      modifies this, store
      ensures openMenuId.None?
      ensures !confirmed ==> alert.None? && store.exams == old(store.exams)
      ensures confirmed ==> (alert == Some("Exam \"" + exam.title + "\" deleted.")
        && store.exams == ExamStore.RemoveId(ExamStore.Promote(old(store.exams), now, nowIso, parse), exam.id))
      ensures exams == old(exams) && filteredExams == old(filteredExams)
      ensures searchTerm == old(searchTerm) && statusFilter == old(statusFilter)
      ensures sortBy == old(sortBy) && sortOrder == old(sortOrder)
    {
      openMenuId := None;
      if !confirmed {
        return None;
      }
      var _ := store.DeleteExam(exam.id, now, nowIso, parse);
      alert := Some("Exam \"" + exam.title + "\" deleted.");
    }
  }
}
