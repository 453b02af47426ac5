/**
 * The teacher's question bank of app/components/teacher/questions/QuestionBank.tsx:
 * the search and filter effect, the expanded-card set, saving and deleting
 * questions, and the question form's conversion of a stored question into
 * form fields and back. Dates are left out; `Date.now().toString()` is the
 * parameter `nowId`.
 */
module QuestionBank {
  import Text
  import opened Wrappers
  import Collections

  datatype QuestionType = MultipleChoice | TrueFalse | ShortAnswer | Essay

  function TypeName(t: QuestionType): string {
    match t
    case MultipleChoice => "multiple-choice"
    case TrueFalse => "true-false"
    case ShortAnswer => "short-answer"
    case Essay => "essay"
  }

  /** A question with a single text answer; `options` and `explanation` are optional. */
  datatype Question = Question(
    id: string, title: string, kind: QuestionType, question: string,
    options: Option<seq<string>>, correctAnswer: string, points: int,
    subject: string, tags: seq<string>, explanation: Option<string>, createdBy: string)

  /** The `type` and `subject` lists of a `QuestionFilter`; absent means no filter. */
  datatype QuestionFilter = QuestionFilter(types: Option<seq<string>>, subjects: Option<seq<string>>)

  const NoFilter := QuestionFilter(None, None)

  /**
   * The mock bank the component loads for a teacher. Long texts are written
   * as concatenations of shorter literals: one long literal per text makes
   * the verifier's reasoning about the bank much costlier.
   */
  function MockQuestions(teacherId: string): seq<Question> {
    [ Question("1", "Basic JavaScript " + "Variables", MultipleChoice,
               "Which of the " + "following is the " + "correct way to " + "declare a variable " + "in JavaScript?",
               Some(["var myVar;", "variable myVar;", "declare myVar;", "let myVar = undefined;"]),
               "var myVar;", 2, "JavaScript", ["variables", "syntax", "basics"],
               Some("The var keyword is " + "used to declare " + "variables in " + "JavaScript."), teacherId),
      Question("2", "React Hooks " + "Understanding", TrueFalse,
               "useState can only " + "be used in class " + "components.",
               Some(["True", "False"]), "False", 1, "React", ["hooks", "useState", "components"],
               Some("useState is a hook " + "that can only be " + "used in functional " + "components, not " + "class components."), teacherId),
      Question("3", "Algorithm Complexity", ShortAnswer,
               "Explain the time " + "complexity of a " + "binary search " + "algorithm and " + "justify your answer.",
               None, "O(log n) - because " + "we eliminate half " + "of the search space " + "in each iteration", 5,
               "Algorithms", ["complexity", "binary-search", "big-o"],
               Some("Binary search has " + "O(log n) time " + "complexity because " + "it divides the " + "search space in " + "half with each " + "comparison."), teacherId) ]
  }

  // ---------------------------------------------------------------------------
  // Search and filters
  // ---------------------------------------------------------------------------

  /** The search test: the lower-cased term occurs in the title, the question, the subject or a tag. */
  predicate MatchesSearch(q: Question, term: string) {
    Text.ContainsIgnoreCase(q.title, term) || Text.ContainsIgnoreCase(q.question, term)
    || Text.ContainsIgnoreCase(q.subject, term)
    || exists t :: t in q.tags && Text.ContainsIgnoreCase(t, term)
  }

  /** An empty search lets everything through. */
  predicate PassesSearch(q: Question, term: string) { term == "" || MatchesSearch(q, term) }

  predicate TypeFilterOn(f: QuestionFilter) { f.types.Some? && |f.types.value| > 0 }

  predicate SubjectFilterOn(f: QuestionFilter) { f.subjects.Some? && |f.subjects.value| > 0 }

  predicate PassesType(q: Question, f: QuestionFilter) { TypeFilterOn(f) ==> TypeName(q.kind) in f.types.value }

  predicate PassesSubject(q: Question, f: QuestionFilter) { SubjectFilterOn(f) ==> q.subject in f.subjects.value }

  /** The reference test for a shown question: it passes the search and both filters. */
  predicate IsShown(q: Question, term: string, f: QuestionFilter) {
    PassesSearch(q, term) && PassesType(q, f) && PassesSubject(q, f)
  }

  function SearchTest(term: string): Question -> bool { q => PassesSearch(q, term) }

  function TypeTest(f: QuestionFilter): Question -> bool { q => PassesType(q, f) }

  function SubjectTest(f: QuestionFilter): Question -> bool { q => PassesSubject(q, f) }

  function SearchTypeTest(term: string, f: QuestionFilter): Question -> bool { q => PassesSearch(q, term) && PassesType(q, f) }

  function ShownTest(term: string, f: QuestionFilter): Question -> bool { q => IsShown(q, term, f) }

  /** The list the effect leaves in `filteredQuestions`. */
  function Shown(qs: seq<Question>, term: string, f: QuestionFilter): (r: seq<Question>)
    ensures Collections.Subsequence(r, qs)
    ensures forall q :: q in r <==> q in qs && IsShown(q, term, f)
  {
    Collections.Filter(qs, ShownTest(term, f))
  }

  /** The three stages of the filter effect, one after the other, leave the shown list. */
  lemma StagesCompose(qs: seq<Question>, term: string, f: QuestionFilter)
    ensures Collections.Filter(Collections.Filter(Collections.Filter(qs, SearchTest(term)), TypeTest(f)), SubjectTest(f))
            == Shown(qs, term, f)
  {
    Collections.FilterThenFilter(qs, SearchTest(term), TypeTest(f), SearchTypeTest(term, f));
    Collections.FilterThenFilter(qs, SearchTypeTest(term, f), SubjectTest(f), ShownTest(term, f));
  }

  /** With an empty search and no type or subject filter, every question is shown. */
  lemma NothingChosenShowsAll(qs: seq<Question>)
    ensures Shown(qs, "", NoFilter) == qs
  {
    Collections.FilterAll(qs, ShownTest("", NoFilter));
  }

  /** The select boxes: an empty choice removes that filter, any other is a one-item list. */
  function ChooseType(f: QuestionFilter, value: string): (r: QuestionFilter)
    ensures r.subjects == f.subjects
    ensures value == "" ==> !TypeFilterOn(r)
    ensures value != "" ==> r.types == Some([value])
  {
    f.(types := if value == "" then None else Some([value]))
  }

  function ChooseSubject(f: QuestionFilter, value: string): (r: QuestionFilter)
    ensures r.types == f.types
    ensures value == "" ==> !SubjectFilterOn(r)
    ensures value != "" ==> r.subjects == Some([value])
  {
    f.(subjects := if value == "" then None else Some([value]))
  }

  // ---------------------------------------------------------------------------
  // Saving and deleting
  // ---------------------------------------------------------------------------

  /** `prev.map(q => q.id === editedId ? question : q)`. */
  function SaveEdited(qs: seq<Question>, editedId: string, question: Question): (r: seq<Question>)
    ensures |r| == |qs|
    ensures forall i :: 0 <= i < |qs| && qs[i].id == editedId ==> r[i] == question
    ensures forall i :: 0 <= i < |qs| && qs[i].id != editedId ==> r[i] == qs[i]
    decreases |qs|
  {
    if qs == [] then []
    else [if qs[0].id == editedId then question else qs[0]] + SaveEdited(qs[1..], editedId, question)
  }

  /** `[...prev, { ...question, id: nowId }]`. */
  function SaveNew(qs: seq<Question>, question: Question, nowId: string): (r: seq<Question>)
    ensures |r| == |qs| + 1 && r[..|qs|] == qs
    ensures r[|qs|].id == nowId && r[|qs|] == question.(id := nowId)
  {
    qs + [question.(id := nowId)]
  }

  /** `prev.filter(q => q.id !== id)`. */
  function Delete(qs: seq<Question>, id: string): (r: seq<Question>)
    ensures Collections.Subsequence(r, qs)
    ensures forall q :: q in r <==> q in qs && q.id != id
    ensures forall q :: multiset(r)[q] == if q.id != id then multiset(qs)[q] else 0
  {
    var keep := (q: Question) => q.id != id;
    assert forall q :: multiset(Collections.Filter(qs, keep))[q] == if keep(q) then multiset(qs)[q] else 0 by {
      forall q { Collections.FilterCount(qs, keep, q); }
    }
    Collections.Filter(qs, keep)
  }

  /** Deleting twice is deleting once. */
  lemma DeleteIdempotent(qs: seq<Question>, id: string)
    ensures Delete(Delete(qs, id), id) == Delete(qs, id)
  {
    var once := Delete(qs, id);
    Collections.FilterAll(once, (q: Question) => q.id != id);
  }

  /** Saving an edit of a question whose id is unique changes that one entry and no other. */
  lemma SaveEditedChangesOne(qs: seq<Question>, k: nat, question: Question)
    requires k < |qs|
    requires forall i :: 0 <= i < |qs| && i != k ==> qs[i].id != qs[k].id
    ensures SaveEdited(qs, qs[k].id, question) == qs[k := question]
  {
    var r := SaveEdited(qs, qs[k].id, question);
    assert forall i :: 0 <= i < |qs| ==> r[i] == qs[k := question][i];
  }

  // ---------------------------------------------------------------------------
  // The question form
  // ---------------------------------------------------------------------------

  /** The form's fields: tags as one comma-separated entry, the answer of a multiple-choice question as an option index. */
  datatype FormData = FormData(
    title: string, kind: QuestionType, question: string, options: seq<string>,
    correctAnswer: string, points: int, subject: string, tags: string, explanation: string)

  /** `options.indexOf(x)`: the first position of `x`, or -1. */
  function IndexOf(s: seq<string>, x: string): (r: int)
    ensures -1 <= r < |s|
    ensures r == -1 <==> x !in s
    ensures r >= 0 ==> s[r] == x && x !in s[..r]
    decreases |s|
  {
    if s == [] then -1
    else if s[0] == x then 0
    else
      var k := IndexOf(s[1..], x);
      assert s[1..][..k + 1] == s[1..k + 2] by {
        if k >= 0 {
          assert s[1..][..k] == s[1..k + 1];
        }
      }
      if k == -1 then -1 else k + 1
  }

  /** `getInitialCorrectAnswer`: for a multiple-choice question with options, the answer's index as text. */
  function InitialCorrectAnswer(question: Option<Question>): (r: string)
    ensures question.None? || question.value.correctAnswer == "" ==> r == ""
    ensures question.Some? && question.value.correctAnswer != "" && question.value.kind == MultipleChoice && question.value.options.Some? ==>
      (var i := IndexOf(question.value.options.value, question.value.correctAnswer);
       r == if i >= 0 then Text.NatToString(i) else "")
    ensures question.Some? && question.value.correctAnswer != "" && !(question.value.kind == MultipleChoice && question.value.options.Some?) ==>
      r == question.value.correctAnswer
  {
    if question.None? || question.value.correctAnswer == "" then ""
    else
      var q := question.value;
      if q.kind == MultipleChoice && q.options.Some? then
        var i := IndexOf(q.options.value, q.correctAnswer);
        if i >= 0 then Text.NatToString(i) else ""
      else q.correctAnswer
  }

  /** The form's starting values, with the component's `||` defaults. */
  function InitialForm(question: Option<Question>): (r: FormData)
    ensures question.None? ==> r == FormData("", MultipleChoice, "", ["", "", "", ""], "", 1, "", "", "")
    ensures question.Some? ==> r.title == question.value.question && r.question == question.value.question
    ensures question.Some? ==> r.kind == question.value.kind && r.subject == question.value.subject
    ensures question.Some? && question.value.options.Some? ==> r.options == question.value.options.value
    ensures question.Some? && question.value.options.None? ==> r.options == ["", "", "", ""]
    ensures question.Some? ==> r.correctAnswer == InitialCorrectAnswer(question)
    ensures question.Some? ==> r.points == if question.value.points == 0 then 1 else question.value.points
    ensures question.Some? ==> r.tags == Text.Join(question.value.tags, ", ")
    ensures question.Some? && question.value.explanation.Some? ==> r.explanation == question.value.explanation.value
    ensures question.Some? && question.value.explanation.None? ==> r.explanation == ""
  {
    match question
    case None => FormData("", MultipleChoice, "", ["", "", "", ""], "", 1, "", "", "")
    case Some(q) =>
      FormData(q.question, q.kind, q.question,
               if q.options.Some? then q.options.value else ["", "", "", ""],
               InitialCorrectAnswer(question),
               if q.points == 0 then 1 else q.points,
               q.subject, Text.Join(q.tags, ", "),
               if q.explanation.Some? then q.explanation.value else "")
  }

  /** `options[i] || ''` for the index `parseInt` produced: no option for NaN, a negative or a too-large index. */
  function OptionAt(options: seq<string>, index: Option<int>): (r: string)
    ensures r == "" || r in options
    ensures index.Some? && 0 <= index.value < |options| ==> r == options[index.value]
    ensures index.None? || index.value < 0 || index.value >= |options| ==> r == ""
  {
    if index.Some? && 0 <= index.value < |options| then options[index.value] else ""
  }

  /**
   * The submit's answer: a multiple-choice entry that `Number` reads as a
   * number (blank text included) is replaced by the option at `parseInt` of
   * the entry, `''` when there is none; other entries are kept as typed.
   */
  function SubmittedAnswer(f: FormData): (r: string)
    ensures f.kind != MultipleChoice ==> r == f.correctAnswer
    ensures f.kind == MultipleChoice && !Text.NumberAccepts(f.correctAnswer) ==> r == f.correctAnswer
    ensures f.kind == MultipleChoice && Text.NumberAccepts(f.correctAnswer) ==> r == "" || r in f.options
    ensures f.kind == MultipleChoice && Text.Trim(f.correctAnswer) == "" ==> r == ""
    ensures f.kind == MultipleChoice && Text.Trim(f.correctAnswer) != "" && Text.AllDigits(Text.Trim(f.correctAnswer)) ==>
      (var i := Text.DigitsValue(Text.Trim(f.correctAnswer));
       r == if i < |f.options| then f.options[i] else "")
  {
    Text.DigitEntry(f.correctAnswer);
    if f.kind != MultipleChoice || !Text.NumberAccepts(f.correctAnswer) then f.correctAnswer
    else OptionAt(f.options, Text.ParseInt(f.correctAnswer))
  }

  /** A fraction picks the option at the integer part. */
  lemma FractionEntry(f: FormData)
    requires f.kind == MultipleChoice && f.options == ["a", "b", "c", "d"]
    ensures SubmittedAnswer(f.(correctAnswer := "1.5")) == "b"
  {
    Text.FractionLiteral();
    var g := f.(correctAnswer := "1.5");
    assert SubmittedAnswer(g) == OptionAt(g.options, Some(1));
  }

  /** An exponent is read by `Number`, and `parseInt` stops before it. */
  lemma ExponentEntry(f: FormData)
    requires f.kind == MultipleChoice && f.options == ["a", "b", "c", "d"]
    ensures SubmittedAnswer(f.(correctAnswer := "1e0")) == "b"
  {
    var e := "1e0";
    Text.TrimOfTrimmed(e);
    Text.DigitRunIs(e, 1);
    Text.DigitRunIs("0", 1);
    assert Text.MantissaLength(e) == Some(1);
    assert Text.ExponentPart(e[1..]) by {
      assert e[1..][1..] == "0";
      assert Text.SignDropped("0") == "0";
    }
    assert Text.NumberAccepts(e) by {
      assert Text.SignDropped(e) == e;
      assert Text.DecimalLiteral(e);
    }
    Text.ParseIntLeadingDigits(e, 1);
    assert Text.DigitsValue(e[..1]) == 1;
  }

  /** A negative index picks no option. */
  lemma NegativeEntry(f: FormData)
    requires f.kind == MultipleChoice && f.options == ["a", "b", "c", "d"]
    ensures SubmittedAnswer(f.(correctAnswer := "-1")) == ""
  {
    var e := "-1";
    Text.TrimOfTrimmed(e);
    assert Text.SignDropped(e) == "1";
    Text.DigitRunIs("1", 1);
    assert Text.DecimalLiteral("1");
    assert Text.TrimStart(e) == e;
    assert Text.ParseInt(e) == Some(-1);
  }

  /** `Infinity` is a number to `Number` but NaN to `parseInt`. */
  lemma InfinityEntry(f: FormData)
    requires f.kind == MultipleChoice && f.options == ["a", "b", "c", "d"]
    ensures SubmittedAnswer(f.(correctAnswer := "Infinity")) == ""
  {
    var e := "Infinity";
    Text.TrimOfTrimmed(e);
    assert Text.SignDropped(e) == e;
    assert Text.NumberAccepts(e);
    assert Text.TrimStart(e) == e;
    Text.DigitRunIs(e, 0);
    assert Text.ParseInt(e).None?;
  }

  /** A `0x` entry is read in base 16. */
  lemma HexEntry(f: FormData)
    requires f.kind == MultipleChoice && f.options == ["a", "b", "c", "d"]
    ensures SubmittedAnswer(f.(correctAnswer := "0x3")) == "d"
  {
    var e := "0x3";
    Text.TrimOfTrimmed(e);
    assert Text.NonDecimalLiteral(e);
    assert Text.TrimStart(e) == e;
    assert Text.SignDropped(e) == e;
    assert e[2..] == "3";
    assert Text.HexRun("3") == 1;
    assert "3"[..1] == "3";
    assert Text.HexValue("3") == 3;
    assert Text.ParseInt(e) == Some(3);
  }

  /** Words and numerals with separators are NaN to `Number` and are kept as typed. */
  lemma WordEntry(f: FormData)
    requires f.kind == MultipleChoice && f.options == ["a", "b", "c", "d"]
    ensures SubmittedAnswer(f.(correctAnswer := "b")) == "b"
    ensures SubmittedAnswer(f.(correctAnswer := "1_0")) == "1_0"
  {
    var w := "b";
    Text.TrimOfTrimmed(w);
    assert Text.SignDropped(w) == w;
    Text.DigitRunIs(w, 0);
    assert !Text.NumberAccepts(w);
    var e := "1_0";
    Text.TrimOfTrimmed(e);
    assert Text.SignDropped(e) == e;
    Text.DigitRunIs(e, 1);
    assert Text.MantissaLength(e) == Some(1);
    assert !Text.ExponentPart(e[1..]);
    assert !Text.NumberAccepts(e);
  }

  /** `s.split(',').map(t => t.trim()).filter(t => t)`. */
  function ParseTags(s: string): (r: seq<string>)
    ensures forall k :: 0 <= k < |r| ==> r[k] != "" && Text.Trimmed(r[k])
    ensures Collections.Subsequence(r, TrimEach(Text.Split(s, ',')))
    ensures forall t :: t in r <==> t in TrimEach(Text.Split(s, ',')) && t != ""
  {
    var trimmed := TrimEach(Text.Split(s, ','));
    var r := Collections.Filter(trimmed, (t: string) => t != "");
    assert forall k :: 0 <= k < |r| ==> Text.Trimmed(r[k]) by {
      forall k | 0 <= k < |r| ensures Text.Trimmed(r[k]) {
        var j :| 0 <= j < |trimmed| && trimmed[j] == r[k];
      }
    }
    r
  }

  function TrimEach(parts: seq<string>): (r: seq<string>)
    ensures |r| == |parts|
    ensures forall k :: 0 <= k < |r| ==> r[k] == Text.Trim(parts[k]) && Text.Trimmed(r[k])
    decreases |parts|
  {
    if parts == [] then [] else [Text.Trim(parts[0])] + TrimEach(parts[1..])
  }

  predicate IsBlank(s: string) { Text.Trim(s) == "" }

  /** `formData.options.filter(opt => opt.trim())`. */
  function NonBlank(options: seq<string>): (r: seq<string>)
    ensures Collections.Subsequence(r, options)
    ensures forall o :: o in r <==> o in options && !IsBlank(o)
    ensures forall o :: multiset(r)[o] == if IsBlank(o) then 0 else multiset(options)[o]
  {
    var keep := (o: string) => !IsBlank(o);
    assert forall o :: multiset(Collections.Filter(options, keep))[o] == if keep(o) then multiset(options)[o] else 0 by {
      forall o { Collections.FilterCount(options, keep, o); }
    }
    Collections.Filter(options, keep)
  }

  /** `handleSubmit`: the question handed to `onSave`. */
  function Submit(f: FormData, original: Option<Question>): (r: Question)
    ensures r.id == if original.Some? then original.value.id else ""
    ensures r.title == f.question && r.question == f.question && r.kind == f.kind
    ensures (f.kind == MultipleChoice || f.kind == TrueFalse) ==> r.options == Some(NonBlank(f.options))
    ensures !(f.kind == MultipleChoice || f.kind == TrueFalse) ==> r.options.None?
    ensures r.correctAnswer == SubmittedAnswer(f)
    ensures r.points == f.points && r.subject == f.subject
    ensures r.tags == ParseTags(f.tags)
    ensures r.explanation == if f.explanation == "" then None else Some(f.explanation)
    ensures r.createdBy == if original.Some? && original.value.createdBy != "" then original.value.createdBy else "current-teacher-id"
  {
    Question(
      if original.Some? then original.value.id else "",
      f.question, f.kind, f.question,
      if f.kind == MultipleChoice || f.kind == TrueFalse then Some(NonBlank(f.options)) else None,
      SubmittedAnswer(f), f.points, f.subject, ParseTags(f.tags),
      if f.explanation == "" then None else Some(f.explanation),
      if original.Some? && original.value.createdBy != "" then original.value.createdBy else "current-teacher-id")
  }

  /**
   * The index conversion round-trips: for a multiple-choice question whose
   * answer is one of its options, the form shows the answer's index and the
   * submit turns it back into the same text.
   */
  lemma AnswerRoundTrip(q: Question)
    requires q.kind == MultipleChoice && q.options.Some? && q.correctAnswer in q.options.value
    ensures SubmittedAnswer(InitialForm(Some(q))) == q.correctAnswer
  {
    var f := InitialForm(Some(q));
    if q.correctAnswer != "" {
      var i := IndexOf(q.options.value, q.correctAnswer);
      Text.DigitsValueOfNatToString(i);
      Text.TrimNoSpace(Text.NatToString(i));
      assert f.correctAnswer == Text.NatToString(i);
    } else {
      assert f.correctAnswer == "";
    }
  }

  /** A multiple-choice answer that is not among the options is lost on the way through the form. */
  lemma UnlistedAnswerIsCleared(q: Question)
    requires q.kind == MultipleChoice && q.options.Some? && q.correctAnswer !in q.options.value
    ensures SubmittedAnswer(InitialForm(Some(q))) == ""
  {
    var f := InitialForm(Some(q));
    assert f.correctAnswer == "";
  }

  /** Tags fit for the entry: non-empty, without commas and without surrounding space. */
  predicate WellFormedTags(tags: seq<string>) {
    forall k :: 0 <= k < |tags| ==> tags[k] != "" && ',' !in tags[k] && Text.Trimmed(tags[k])
  }

  /** `tags.join(', ')` read back by the submit gives the same tags. */
  lemma {:induction false} TagsRoundTrip(tags: seq<string>)
    requires WellFormedTags(tags)
    ensures ParseTags(Text.Join(tags, ", ")) == tags
  {
    if tags == [] {
      assert Text.Split("", ',') == [""];
      assert TrimEach([""]) == [""];
    } else {
      var spaced := Spaced(tags);
      JoinSpaced(tags);
      Text.SplitJoin(spaced, ',');
      forall k | 0 <= k < |spaced| ensures Text.Trim(spaced[k]) == tags[k] {
        Text.TrimOfTrimmed(tags[k]);
      }
      assert TrimEach(spaced) == tags;
      Collections.FilterAll(tags, (t: string) => t != "");
    }
  }

  /** The pieces of `tags.join(', ')` between commas: every tag after the first keeps its leading space. */
  function Spaced(tags: seq<string>): (r: seq<string>)
    requires |tags| >= 1
    ensures |r| == |tags| && r[0] == tags[0]
    ensures forall k :: 1 <= k < |r| ==> r[k] == " " + tags[k]
  {
    [tags[0]] + seq(|tags| - 1, i requires 0 <= i < |tags| - 1 => " " + tags[i + 1])
  }

  lemma {:induction false} JoinSpaced(tags: seq<string>)
    requires |tags| >= 1
    ensures Text.Join(tags, ", ") == Text.Join(Spaced(tags), ",")
    decreases |tags|
  {
    if |tags| > 1 {
      JoinSpaced(tags[1..]);
      var rest := Spaced(tags[1..]);
      var shifted := Spaced(tags)[1..];
      assert shifted[1..] == rest[1..];
      JoinShiftFirst(rest, shifted, " ");
    }
  }

  /** Prefixing the first piece prefixes the joined text. */
  lemma JoinShiftFirst(parts: seq<string>, shifted: seq<string>, p: string)
    requires |parts| >= 1 && |shifted| == |parts|
    requires shifted[0] == p + parts[0] && shifted[1..] == parts[1..]
    ensures Text.Join(shifted, ",") == p + Text.Join(parts, ",")
  {
    if |parts| > 1 {
      var tail := Text.Join(parts[1..], ",");
      assert (p + parts[0]) + "," + tail == p + (parts[0] + "," + tail);
    }
  }

  /**
   * Editing a question and saving it unchanged gives the same question back,
   * provided its title equals its text, its points are not 0, its options
   * are non-blank, its tags fit the entry, its explanation is not "" and it
   * names its author; for a multiple-choice question the answer is an option.
   */
  lemma EditRoundTrip(q: Question)
    requires q.title == q.question && q.points != 0 && q.createdBy != ""
    requires q.options.Some? <==> (q.kind == MultipleChoice || q.kind == TrueFalse)
    requires q.options.Some? ==> forall o :: o in q.options.value ==> !IsBlank(o)
    requires q.kind == MultipleChoice ==> q.correctAnswer in q.options.value
    requires WellFormedTags(q.tags)
    requires q.explanation != Some("")
    ensures Submit(InitialForm(Some(q)), Some(q)) == q
  {
    var f := InitialForm(Some(q));
    var r := Submit(f, Some(q));
    TagsRoundTrip(q.tags);
    if q.kind == MultipleChoice {
      AnswerRoundTrip(q);
    }
    OptionsRoundTrip(q, f.options);
    assert r.options == q.options;
  }

  lemma OptionsRoundTrip(q: Question, options: seq<string>)
    requires q.options.Some? ==> forall o :: o in q.options.value ==> !IsBlank(o)
    requires q.options.Some? ==> options == q.options.value
    ensures q.options.Some? ==> NonBlank(options) == options
  {
    if q.options.Some? {
      Collections.FilterAll(options, (o: string) => !IsBlank(o));
    }
  }

  // ---------------------------------------------------------------------------
  // The component's state
  // ---------------------------------------------------------------------------

  class Bank {
    var questions: seq<Question>
    var filteredQuestions: seq<Question>
    var searchTerm: string
    var filters: QuestionFilter
    var isCreateModalOpen: bool
    var editingQuestion: Option<Question>
    var expandedQuestions: set<string>

    /** The first render with the mock bank loaded. */
    constructor(teacherId: string)
      ensures questions == MockQuestions(teacherId) && filteredQuestions == questions
      ensures searchTerm == "" && filters == NoFilter
      ensures !isCreateModalOpen && editingQuestion.None? && expandedQuestions == {}
    {
      questions := MockQuestions(teacherId);
      filteredQuestions := questions;
      searchTerm := "";
      filters := NoFilter;
      isCreateModalOpen := false;
      editingQuestion := None;
      expandedQuestions := {};
    }

    /** The filter effect, run after the search, the filters or the questions change. */
    method ApplyFilters()
      modifies this
      ensures filteredQuestions == Shown(questions, searchTerm, filters)
      ensures questions == old(questions) && searchTerm == old(searchTerm) && filters == old(filters)
      ensures isCreateModalOpen == old(isCreateModalOpen) && editingQuestion == old(editingQuestion)
      ensures expandedQuestions == old(expandedQuestions)
    {
      var filtered := questions;
      if searchTerm != "" {
        filtered := Collections.Filter(filtered, SearchTest(searchTerm));
      } else {
        Collections.FilterAll(questions, SearchTest(searchTerm));
      }
      assert filtered == Collections.Filter(questions, SearchTest(searchTerm));
      if TypeFilterOn(filters) {
        filtered := Collections.Filter(filtered, TypeTest(filters));
      } else {
        Collections.FilterAll(filtered, TypeTest(filters));
      }
      assert filtered == Collections.Filter(Collections.Filter(questions, SearchTest(searchTerm)), TypeTest(filters));
      if SubjectFilterOn(filters) {
        filtered := Collections.Filter(filtered, SubjectTest(filters));
      } else {
        Collections.FilterAll(filtered, SubjectTest(filters));
      }
      StagesCompose(questions, searchTerm, filters);
      filteredQuestions := filtered;
    }

    method SetSearchTerm(value: string)
      modifies this
      ensures searchTerm == value
      ensures questions == old(questions) && filteredQuestions == old(filteredQuestions) && filters == old(filters)
      ensures isCreateModalOpen == old(isCreateModalOpen) && editingQuestion == old(editingQuestion)
      ensures expandedQuestions == old(expandedQuestions)
    {
      searchTerm := value;
    }

    method SetTypeFilter(value: string)
      modifies this
      ensures filters == ChooseType(old(filters), value)
      ensures questions == old(questions) && filteredQuestions == old(filteredQuestions) && searchTerm == old(searchTerm)
      ensures isCreateModalOpen == old(isCreateModalOpen) && editingQuestion == old(editingQuestion)
      ensures expandedQuestions == old(expandedQuestions)
    {
      filters := ChooseType(filters, value);
    }

    method SetSubjectFilter(value: string)
      modifies this
      ensures filters == ChooseSubject(old(filters), value)
      ensures questions == old(questions) && filteredQuestions == old(filteredQuestions) && searchTerm == old(searchTerm)
      ensures isCreateModalOpen == old(isCreateModalOpen) && editingQuestion == old(editingQuestion)
      ensures expandedQuestions == old(expandedQuestions)
    {
      filters := ChooseSubject(filters, value);
    }

    /** `toggleQuestionExpansion`. */
    method ToggleExpansion(questionId: string)
      modifies this
      ensures expandedQuestions == Collections.Toggle(old(expandedQuestions), questionId)
      ensures questions == old(questions) && filteredQuestions == old(filteredQuestions)
      ensures searchTerm == old(searchTerm) && filters == old(filters)
      ensures isCreateModalOpen == old(isCreateModalOpen) && editingQuestion == old(editingQuestion)
    {
      var expanded := expandedQuestions;
      if questionId in expanded {
        expanded := expanded - {questionId};
      } else {
        expanded := expanded + {questionId};
      }
      expandedQuestions := expanded;
    }

    /** The "Add Question" button. */
    method OpenCreate()
      modifies this
      ensures isCreateModalOpen && editingQuestion == old(editingQuestion)
      ensures questions == old(questions) && filteredQuestions == old(filteredQuestions)
      ensures searchTerm == old(searchTerm) && filters == old(filters) && expandedQuestions == old(expandedQuestions)
    {
      isCreateModalOpen := true;
    }

    /** A card's edit button. */
    method StartEdit(q: Question)
      modifies this
      ensures isCreateModalOpen && editingQuestion == Some(q)
      ensures questions == old(questions) && filteredQuestions == old(filteredQuestions)
      ensures searchTerm == old(searchTerm) && filters == old(filters) && expandedQuestions == old(expandedQuestions)
    {
      editingQuestion := Some(q);
      isCreateModalOpen := true;
    }

    /** `onSave`: replace the edited question, or append the new one under a fresh id; then close the dialog. */
    method Save(question: Question, nowId: string)
      modifies this
      ensures old(editingQuestion).Some? ==> questions == SaveEdited(old(questions), old(editingQuestion).value.id, question)
      ensures old(editingQuestion).None? ==> questions == SaveNew(old(questions), question, nowId)
      ensures !isCreateModalOpen && editingQuestion.None?
      ensures filteredQuestions == old(filteredQuestions) && searchTerm == old(searchTerm)
      ensures filters == old(filters) && expandedQuestions == old(expandedQuestions)
    {
      if editingQuestion.Some? {
        questions := SaveEdited(questions, editingQuestion.value.id, question);
      } else {
        questions := SaveNew(questions, question, nowId);
      }
      isCreateModalOpen := false;
      editingQuestion := None;
    }

    /** `onCancel`. */
    method Cancel()
      modifies this
      ensures !isCreateModalOpen && editingQuestion.None?
      ensures questions == old(questions) && filteredQuestions == old(filteredQuestions)
      ensures searchTerm == old(searchTerm) && filters == old(filters) && expandedQuestions == old(expandedQuestions)
    {
      isCreateModalOpen := false;
      editingQuestion := None;
    }

    /** A card's delete button. */
    method DeleteQuestion(id: string)
      modifies this
      ensures questions == Delete(old(questions), id)
      ensures filteredQuestions == old(filteredQuestions) && searchTerm == old(searchTerm) && filters == old(filters)
      ensures isCreateModalOpen == old(isCreateModalOpen) && editingQuestion == old(editingQuestion)
      ensures expandedQuestions == old(expandedQuestions)
    {
      questions := Delete(questions, id);
    }
  }
}
