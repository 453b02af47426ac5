/**
 * The exam-taking hooks of app/hooks/useExam.ts: the countdown timer, the
 * session state (answers, flags, navigation, submission) and the lockdown
 * keyboard classifier. React state setters become field assignments; the
 * one-second interval becomes a `Tick` the caller invokes.
 */
module UseExam {
  import Collections
  import opened Wrappers

  /** `useExamTimer` state. `timeUpCalls` counts the calls of `onTimeUp`. */
  class ExamTimer {
    const initialTime: int
    const isActive: bool
    var timeRemaining: int
    var isRunning: bool
    var timeUpCalls: nat

    constructor(initialTime: int, isActive: bool)
      ensures this.initialTime == initialTime && this.isActive == isActive
      ensures timeRemaining == initialTime && isRunning == isActive && timeUpCalls == 0
    {
      this.initialTime := initialTime;
      this.isActive := isActive;
      timeRemaining := initialTime;
      isRunning := isActive;
      timeUpCalls := 0;
    }

    /** `isTimeUp`. */
    predicate IsTimeUp()
      reads this
    {
      timeRemaining <= 0
    }

    /**
     * One second of the interval. The effect schedules no interval while the
     * timer is stopped or at zero, so then nothing happens.
     */
    method Tick()
      modifies this
      ensures var s := TickStep(Clock(old(timeRemaining), old(isRunning), old(timeUpCalls)));
        timeRemaining == s.time && isRunning == s.running && timeUpCalls == s.timeUpCalls
    {
      if !isRunning || timeRemaining <= 0 {
        return;
      }
      if timeRemaining <= 1 {
        isRunning := false;
        timeUpCalls := timeUpCalls + 1;
        timeRemaining := 0;
      } else {
        timeRemaining := timeRemaining - 1;
      }
    }

    method PauseTimer()
      modifies this
      ensures !isRunning && timeRemaining == old(timeRemaining) && timeUpCalls == old(timeUpCalls)
    {
      isRunning := false;
    }

    method ResumeTimer()
      modifies this
      ensures isRunning && timeRemaining == old(timeRemaining) && timeUpCalls == old(timeUpCalls)
    {
      isRunning := true;
    }

    /** `resetTimer`: back to the initial time, running as the hook was configured. */
    method ResetTimer()
      modifies this
      ensures timeRemaining == initialTime && isRunning == isActive && timeUpCalls == old(timeUpCalls)
    {
      timeRemaining := initialTime;
      isRunning := isActive;
    }
  }

  /** The timer's observable state. */
  datatype Clock = Clock(time: int, running: bool, timeUpCalls: nat)

  /** What one interval tick does to the timer. */
  function TickStep(c: Clock): (r: Clock)
    ensures !c.running || c.time <= 0 ==> r == c
    ensures c.running && c.time > 1 ==> r == Clock(c.time - 1, true, c.timeUpCalls)
    ensures c.running && 0 < c.time <= 1 ==> r == Clock(0, false, c.timeUpCalls + 1)
    ensures c.time >= 0 ==> r.time >= 0
  {
    if !c.running || c.time <= 0 then c
    else if c.time <= 1 then Clock(0, false, c.timeUpCalls + 1)
    else Clock(c.time - 1, true, c.timeUpCalls)
  }

  function Ticks(c: Clock, n: nat): Clock
    decreases n
  {
    if n == 0 then c else Ticks(TickStep(c), n - 1)
  }

  /**
   * From a running timer at `t` seconds, `n` ticks leave max(t - n, 0) seconds;
   * `onTimeUp` is called once in all, exactly when n >= t, and never again.
   */
  lemma {:induction false} CountdownFiresOnce(t: int, calls: nat, n: nat)
    requires t >= 1
    ensures var c := Ticks(Clock(t, true, calls), n);
      c.time == (if n >= t then 0 else t - n)
      && c.timeUpCalls == calls + (if n >= t then 1 else 0)
      && c.running == (n < t)
    decreases n
  {
    if n > 0 {
      if t == 1 {
        StoppedStays(Clock(0, false, calls + 1), n - 1);
      } else {
        CountdownFiresOnce(t - 1, calls, n - 1);
      }
    }
  }

  /** A stopped timer stays as it is. */
  lemma {:induction false} StoppedStays(c: Clock, n: nat)
    requires !c.running
    ensures Ticks(c, n) == c
    decreases n
  {
    if n > 0 { StoppedStays(c, n - 1); }
  }

  /** `string | number` answers. */
  datatype Answer = TextAnswer(text: string) | NumberAnswer(n: int)

  /** The questions `answers.has(q.id)` keeps. */
  function HasAnswer(answers: map<string, Answer>): string -> bool {
    (id: string) => id in answers
  }

  /** `questions.filter(q => answers.has(q.id)).length`. */
  function AnsweredCount(questionIds: seq<string>, answers: map<string, Answer>): (n: nat)
    ensures n == |Collections.Filter(questionIds, HasAnswer(answers))|
    ensures n <= |questionIds|
    ensures n == |questionIds| <==> forall k :: 0 <= k < |questionIds| ==> questionIds[k] in answers
  {
    if questionIds == [] then 0
    else (if questionIds[0] in answers then 1 else 0) + AnsweredCount(questionIds[1..], answers)
  }

  /** `useExamSession` state. `submissions` records the answers handed to `onSubmit`. */
  class ExamSession {
    const questionIds: seq<string>
    var currentQuestionIndex: int
    var answers: map<string, Answer>
    var flaggedQuestions: set<string>
    var isSubmitted: bool
    var submissions: seq<map<string, Answer>>

    /** The index stays on a question (or at 0 when there are none); each submission sets the flag. */
    ghost predicate Valid()
      reads this
    {
      (if |questionIds| == 0 then currentQuestionIndex == 0 else 0 <= currentQuestionIndex < |questionIds|)
      && |submissions| <= 1
      && (isSubmitted <==> |submissions| == 1)
    }

    constructor(questionIds: seq<string>)
      ensures Valid()
      ensures this.questionIds == questionIds && currentQuestionIndex == 0 && answers == map[]
      ensures flaggedQuestions == {} && !isSubmitted && submissions == []
    {
      this.questionIds := questionIds;
      currentQuestionIndex := 0;
      answers := map[];
      flaggedQuestions := {};
      isSubmitted := false;
      submissions := [];
    }

    predicate CanGoNext()
      reads this
    {
      currentQuestionIndex < |questionIds| - 1
    }

    predicate CanGoPrevious()
      reads this
    {
      currentQuestionIndex > 0
    }

    method UpdateAnswer(questionId: string, answer: Answer)
      modifies this
      ensures answers == old(answers)[questionId := answer]
      ensures currentQuestionIndex == old(currentQuestionIndex) && flaggedQuestions == old(flaggedQuestions)
      ensures isSubmitted == old(isSubmitted) && submissions == old(submissions)
    {
      answers := answers[questionId := answer];
    }

    method ToggleFlag(questionId: string)
      modifies this
      ensures flaggedQuestions == Collections.Toggle(old(flaggedQuestions), questionId)
      ensures currentQuestionIndex == old(currentQuestionIndex) && answers == old(answers)
      ensures isSubmitted == old(isSubmitted) && submissions == old(submissions)
    {
      flaggedQuestions := Collections.Toggle(flaggedQuestions, questionId);
    }

    /** `goToQuestion`: moves only to an index that is in range. */
    method GoToQuestion(index: int)
      requires Valid()
      modifies this
      ensures Valid()
      ensures currentQuestionIndex == if 0 <= index < |questionIds| then index else old(currentQuestionIndex)
      ensures answers == old(answers) && flaggedQuestions == old(flaggedQuestions)
      ensures isSubmitted == old(isSubmitted) && submissions == old(submissions)
    {
      if 0 <= index < |questionIds| {
        currentQuestionIndex := index;
      }
    }

    /** `goToNext`: moves exactly when `canGoNext` holds. */
    method GoToNext()
      requires Valid()
      modifies this
      ensures Valid()
      ensures currentQuestionIndex == if old(CanGoNext()) then old(currentQuestionIndex) + 1 else old(currentQuestionIndex)
      ensures answers == old(answers) && flaggedQuestions == old(flaggedQuestions)
      ensures isSubmitted == old(isSubmitted) && submissions == old(submissions)
    {
      if currentQuestionIndex < |questionIds| - 1 {
        currentQuestionIndex := currentQuestionIndex + 1;
      }
    }

    /** `goToPrevious`: moves exactly when `canGoPrevious` holds. */
    method GoToPrevious()
      requires Valid()
      modifies this
      ensures Valid()
      ensures currentQuestionIndex == if old(CanGoPrevious()) then old(currentQuestionIndex) - 1 else old(currentQuestionIndex)
      ensures answers == old(answers) && flaggedQuestions == old(flaggedQuestions)
      ensures isSubmitted == old(isSubmitted) && submissions == old(submissions)
    {
      if currentQuestionIndex > 0 {
        currentQuestionIndex := currentQuestionIndex - 1;
      }
    }

    /** `submitExam`: hands the answers over once; later calls do nothing. */
    method SubmitExam()
      requires Valid()
      modifies this
      ensures Valid() && isSubmitted
      ensures submissions == if old(isSubmitted) then old(submissions) else [old(answers)]
      ensures currentQuestionIndex == old(currentQuestionIndex) && answers == old(answers)
      ensures flaggedQuestions == old(flaggedQuestions)
    {
      if !isSubmitted {
        isSubmitted := true;
        submissions := submissions + [answers];
      }
    }

    /** `getProgress`: (answered, total, percentage). */
    method GetProgress() returns (answered: nat, total: nat, percentage: Option<real>)
      ensures answered == |Collections.Filter(questionIds, HasAnswer(answers))| && total == |questionIds|
      ensures answered <= total
      ensures percentage == ProgressPercentage(answered, total)
      ensures percentage == Some(100.0) <==> total > 0 && forall k :: 0 <= k < total ==> questionIds[k] in answers
    {
      answered := AnsweredCount(questionIds, answers);
      total := |questionIds|;
      percentage := ProgressPercentage(answered, total);
    }
  }

  /**
   * `(answered / total) * 100`: NaN (`None` here) without questions, else the
   * share of answered questions in percent.
   */
  function ProgressPercentage(answered: nat, total: nat): (r: Option<real>)
    requires answered <= total
    ensures r.None? <==> total == 0
    ensures r.Some? ==> r.value * (total as real) == (answered as real) * 100.0
    ensures r.Some? ==> 0.0 <= r.value <= 100.0
    ensures r == Some(100.0) <==> total > 0 && answered == total
  {
    if total == 0 then None
    else
      var a, t := answered as real, total as real;
      var p := a / t * 100.0;
      assert a / t * t == a;
      assert p * t == a * 100.0;
      assert a / t <= 1.0 by {
        assert a <= t;
      }
      assert p == 100.0 ==> answered == total by {
        if p == 100.0 { assert a * 100.0 == t * 100.0; }
      }
      Some(p)
  }

  datatype Violation = DevTools | AltTab | CopyPasteCut

  /** The message `onViolation` receives. */
  function ViolationMessage(v: Violation): string {
    match v
    case DevTools => "Developer tools access attempted"
    case AltTab => "Alt+Tab detected"
    case CopyPasteCut => "Copy/Paste/Cut attempted"
  }

  datatype KeyEvent = KeyEvent(key: string, ctrlKey: bool, shiftKey: bool, altKey: bool)

  predicate IsDevToolsKey(e: KeyEvent) {
    e.key == "F12" || (e.ctrlKey && e.shiftKey && (e.key == "I" || e.key == "J")) || (e.ctrlKey && e.key == "u")
  }

  predicate IsAltTab(e: KeyEvent) { e.altKey && e.key == "Tab" }

  predicate IsClipboardKey(e: KeyEvent) { e.ctrlKey && (e.key == "c" || e.key == "v" || e.key == "x") }

  /** The lockdown keydown handler: the violations reported for one key, in test order. */
  function KeyDown(lockdownBrowser: bool, e: KeyEvent): (r: seq<Violation>)
    ensures !lockdownBrowser ==> r == []
    ensures lockdownBrowser ==> (DevTools in r <==> IsDevToolsKey(e))
    ensures lockdownBrowser ==> (AltTab in r <==> IsAltTab(e))
    ensures lockdownBrowser ==> (CopyPasteCut in r <==> IsClipboardKey(e))
  {
    if !lockdownBrowser then []
    else
      (if IsDevToolsKey(e) then [DevTools] else [])
      + (if IsAltTab(e) then [AltTab] else [])
      + (if IsClipboardKey(e) then [CopyPasteCut] else [])
  }

  /** No single key event reports two violations: the three tests exclude each other. */
  lemma KeyDownAtMostOne(lockdownBrowser: bool, e: KeyEvent)
    ensures |KeyDown(lockdownBrowser, e)| <= 1
  {
    if IsDevToolsKey(e) {
      assert !IsAltTab(e) && !IsClipboardKey(e);
    }
  }
}
