/**
 * The create-exam page of app/dashboard/teacher/create-exam/page.tsx: the
 * form's field updates, the question picker over the page's sample bank, and
 * the submit that validates title, duration and schedule in that order before
 * the exam is stored as a draft. Parsing the schedule entry and printing the
 * ISO time are parameters.
 */
module CreateExam {
  import Text
  import opened Wrappers
  import ExamStore
  import Collections

  datatype SampleQuestion = SampleQuestion(id: string, question: string, options: seq<string>, correctAnswer: nat, points: int)

  /** The page's demonstration bank. */
  const SampleQuestions: seq<SampleQuestion> := [
    SampleQuestion("q_math_1", "What is 12 + 15?", ["25", "27", "28", "30"], 1, 1),
    SampleQuestion("q_math_2", "Derivative of x^2 is?", ["x", "2x", "x^2", "2"], 1, 1),
    SampleQuestion("q_sci_1", "Water chemical formula?", ["H2O", "O2", "CO2", "NaCl"], 0, 1),
    SampleQuestion("q_hist_1", "Who was the first President of the USA?", ["Abraham Lincoln", "John Adams", "George Washington", "Thomas Jefferson"], 2, 1),
    SampleQuestion("q_cs_1", "Which data structure uses FIFO?", ["Stack", "Queue", "Tree", "Graph"], 1, 1)
  ]

  /** The picker's list: the questions whose text contains the search, ignoring case. */
  function FilterQuestions(qs: seq<SampleQuestion>, search: string): (r: seq<SampleQuestion>)
    ensures Collections.Subsequence(r, qs)
    ensures forall q :: q in r <==> q in qs && Text.ContainsIgnoreCase(q.question, search)
  {
    Collections.Filter(qs, (q: SampleQuestion) => Text.ContainsIgnoreCase(q.question, search))
  }

  /** An empty search shows the whole bank. */
  lemma EmptySearchShowsAll(qs: seq<SampleQuestion>)
    ensures FilterQuestions(qs, "") == qs
  {
    forall k | 0 <= k < |qs| ensures Text.ContainsIgnoreCase(qs[k].question, "") {
      Text.ContainsEmpty(Text.Lower(qs[k].question));
    }
    Collections.FilterAll(qs, (q: SampleQuestion) => Text.ContainsIgnoreCase(q.question, ""));
  }

  /** The form; `duration` is the entry converted with `Number`. */
  datatype FormState = FormState(title: string, description: string, duration: int, scheduleEnabled: bool, scheduledFor: string)

  const InitialForm := FormState("", "", 30, false, "")

  /** `onChange('scheduleEnabled', …)`: turning scheduling off clears the time. */
  function SetScheduleEnabled(f: FormState, enabled: bool): (r: FormState)
    ensures r.scheduleEnabled == enabled
    ensures r.scheduledFor == if enabled then f.scheduledFor else ""
    ensures r.title == f.title && r.description == f.description && r.duration == f.duration
  {
    f.(scheduleEnabled := enabled, scheduledFor := if enabled then f.scheduledFor else "")
  }

  /** The outcome of the submit checks: an error message, or the schedule to store. */
  datatype Check = Rejected(message: string) | Accepted(scheduledForIso: Option<string>)

  const ScheduleLeadMs := 60000

  /**
   * `handleSubmit`'s checks, in order: a title that is not blank, a positive
   * duration, then, with scheduling on, a time that is given, parses, and is
   * more than a minute away.
   */
  function Validate(f: FormState, now: int, parse: string -> Option<int>, toIso: int -> string): (r: Check)
    ensures Text.Trim(f.title) == "" ==> r == Rejected("Title is required")
    ensures Text.Trim(f.title) != "" && f.duration <= 0 ==> r == Rejected("Duration must be greater than 0")
    ensures r.Accepted? <==>
      (Text.Trim(f.title) != "" && f.duration > 0
       && (f.scheduleEnabled ==> f.scheduledFor != "" && parse(f.scheduledFor).Some? && parse(f.scheduledFor).value > now + ScheduleLeadMs))
    ensures r.Accepted? ==> r.scheduledForIso == if f.scheduleEnabled then Some(toIso(parse(f.scheduledFor).value)) else None
    ensures r.Rejected? && Text.Trim(f.title) != "" && f.duration > 0 ==>
      f.scheduleEnabled
      && r.message == (if f.scheduledFor == "" then "Please pick a schedule date/time"
                       else if parse(f.scheduledFor).None? then "Invalid schedule date/time"
                       else "Scheduled time must be at least 1 minute in the future")
  {
    if Text.Trim(f.title) == "" then Rejected("Title is required")
    else if f.duration <= 0 then Rejected("Duration must be greater than 0")
    else if !f.scheduleEnabled then Accepted(None)
    else if f.scheduledFor == "" then Rejected("Please pick a schedule date/time")
    else
      match parse(f.scheduledFor)
      case None => Rejected("Invalid schedule date/time")
      case Some(t) =>
        if t <= now + ScheduleLeadMs then Rejected("Scheduled time must be at least 1 minute in the future")
        else Accepted(Some(toIso(t)))
  }

  /** A time exactly one minute ahead is still refused. */
  lemma OneMinuteIsTooSoon(f: FormState, now: int, parse: string -> Option<int>, toIso: int -> string)
    requires Text.Trim(f.title) != "" && f.duration > 0 && f.scheduleEnabled && f.scheduledFor != ""
    requires parse(f.scheduledFor) == Some(now + 60000)
    ensures Validate(f, now, parse, toIso).Rejected?
  {
  }

  /** Whether a bank entry is among the selected ids. */
  function IsSelected(selected: seq<string>): SampleQuestion -> bool {
    (q: SampleQuestion) => q.id in selected
  }

  /** The id and points the exam keeps of a bank entry. */
  function Stored(): SampleQuestion -> ExamStore.StoredQuestion {
    (q: SampleQuestion) => ExamStore.StoredQuestion(q.id, q.points)
  }

  /** The exam's questions: the selected bank entries, in bank order. */
  function Picked(bank: seq<SampleQuestion>, selected: seq<string>): (r: seq<ExamStore.StoredQuestion>)
    ensures |r| <= |bank|
    ensures forall k :: 0 <= k < |r| ==> r[k].id in selected
    ensures forall q :: q in bank && q.id in selected ==> ExamStore.StoredQuestion(q.id, q.points) in r
    ensures r == Collections.MapSeq(Collections.Filter(bank, IsSelected(selected)), Stored())
    decreases |bank|
  {
    if bank == [] then []
    else
      var rest := Picked(bank[1..], selected);
      Collections.MapSeqCons(bank[0], Collections.Filter(bank[1..], IsSelected(selected)), Stored());
      if bank[0].id in selected then [ExamStore.StoredQuestion(bank[0].id, bank[0].points)] + rest else rest
  }

  /** Picking in either click order gives the same exam questions. */
  lemma {:induction false} PickedIgnoresClickOrder(bank: seq<SampleQuestion>, a: seq<string>, b: seq<string>)
    requires forall x :: x in a <==> x in b
    ensures Picked(bank, a) == Picked(bank, b)
    decreases |bank|
  {
    if bank != [] {
      PickedIgnoresClickOrder(bank[1..], a, b);
      assert bank[0].id in a <==> bank[0].id in b;
    }
  }

  /** The draft handed to `createExam`; `scheduledFor` is present even when it is undefined. */
  function Draft(f: FormState, selected: seq<string>, scheduledForIso: Option<string>): (p: ExamStore.Partial)
    ensures p.title == Some(Text.Trim(f.title)) && p.description == Some(Text.Trim(f.description))
    ensures p.status == Some(ExamStore.Draft) && p.duration == Some(f.duration)
    ensures p.questions == Some(Picked(SampleQuestions, selected)) && p.scheduledFor == Some(scheduledForIso)
    ensures p.id.None? && p.securitySettings.None? && p.createdBy.None?
  {
    ExamStore.NoChanges.(
      title := Some(Text.Trim(f.title)),
      description := Some(Text.Trim(f.description)),
      duration := Some(f.duration),
      status := Some(ExamStore.Draft),
      questions := Some(Picked(SampleQuestions, selected)),
      scheduledFor := Some(scheduledForIso))
  }

  class Page {
    var form: FormState
    var error: Option<string>
    var selectedQuestionIds: seq<string>
    var search: string

    constructor()
      ensures form == InitialForm && error.None? && selectedQuestionIds == [] && search == ""
    {
      form := InitialForm;
      error := None;
      selectedQuestionIds := [];
      search := "";
    }

    method OnTitle(value: string)
      modifies this
      ensures form == old(form).(title := value)
      ensures error == old(error) && selectedQuestionIds == old(selectedQuestionIds) && search == old(search)
    {
      form := form.(title := value);
    }

    method OnDescription(value: string)
      modifies this
      ensures form == old(form).(description := value)
      ensures error == old(error) && selectedQuestionIds == old(selectedQuestionIds) && search == old(search)
    {
      form := form.(description := value);
    }

    /** The duration entry, already converted to a number. */
    method OnDuration(value: int)
      modifies this
      ensures form == old(form).(duration := value)
      ensures error == old(error) && selectedQuestionIds == old(selectedQuestionIds) && search == old(search)
    {
      form := form.(duration := value);
    }

    method OnScheduledFor(value: string)
      modifies this
      ensures form == old(form).(scheduledFor := value)
      ensures error == old(error) && selectedQuestionIds == old(selectedQuestionIds) && search == old(search)
    {
      form := form.(scheduledFor := value);
    }

    method OnScheduleEnabled(enabled: bool)
      modifies this
      ensures form == SetScheduleEnabled(old(form), enabled)
      ensures error == old(error) && selectedQuestionIds == old(selectedQuestionIds) && search == old(search)
    {
      form := SetScheduleEnabled(form, enabled);
    }

    method Toggle(id: string)
      modifies this
      ensures selectedQuestionIds == Collections.ToggleInList(old(selectedQuestionIds), id)
      ensures form == old(form) && error == old(error) && search == old(search)
    {
      selectedQuestionIds := Collections.ToggleInList(selectedQuestionIds, id);
    }

    /**
     * `handleSubmit`: on the first failed check only the error is set;
     * otherwise the draft is created in `store` and the new exam's page is
     * returned as the place to go.
     */
    method HandleSubmit(store: ExamStore.Store, now: int, nowIso: string, randomId: string,
                        parse: string -> Option<int>, toIso: int -> string) returns (route: Option<string>)
      modifies this, store
      ensures var c := Validate(old(form), now, parse, toIso);
        (c.Rejected? ==> error == Some(c.message) && store.exams == old(store.exams) && route.None?)
        && (c.Accepted? ==>
              var created := ExamStore.Created(Draft(old(form), old(selectedQuestionIds), c.scheduledForIso), randomId, nowIso);
              error.None? && store.exams == [created] + ExamStore.Promote(old(store.exams), now, nowIso, parse)
              && route == Some("/dashboard/teacher/exam/" + created.id))
      ensures form == old(form) && selectedQuestionIds == old(selectedQuestionIds) && search == old(search)
    {
      error := None;
      var c := Validate(form, now, parse, toIso);
      if c.Rejected? {
        error := Some(c.message);
        return None;
      }
      var created := store.CreateExam(Draft(form, selectedQuestionIds, c.scheduledForIso), randomId, now, nowIso, parse);
      route := Some("/dashboard/teacher/exam/" + created.id);
    }
  }
}
