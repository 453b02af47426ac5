/**
 * The helpers of the student dashboard page, app/dashboard/student/page.tsx:
 * reading the API's exams and attempts into display records, the countdown
 * text, the start rule and the score label. Times are milliseconds; reading
 * a date string is the parameter `parse` (`None` for an invalid date), and
 * the current time is the parameter `now`.
 */
module StudentPage {
  import Text
  import opened Wrappers

  /** `ExamSettings` of app/types. */
  datatype ExamSettings = ExamSettings(
    shuffleQuestions: bool, shuffleOptions: bool, showResultsImmediately: bool, allowReview: bool,
    preventTabSwitching: bool, requireWebcam: bool, enableScreenMonitoring: bool, lockdownBrowser: bool)

  /** `Partial<ExamSettings>`: `None` is a key that is not there. */
  datatype PartialSettings = PartialSettings(
    shuffleQuestions: Option<bool>, shuffleOptions: Option<bool>, showResultsImmediately: Option<bool>,
    allowReview: Option<bool>, preventTabSwitching: Option<bool>, requireWebcam: Option<bool>,
    enableScreenMonitoring: Option<bool>, lockdownBrowser: Option<bool>)

  const DefaultSettings := ExamSettings(false, false, false, false, false, false, false, false)

  /** An exam as the dashboard API sends it; `settings` is `None` when null or absent. */
  datatype ApiExam = ApiExam(
    id: string, title: string, description: string, teacherId: string, duration: int,
    startTime: Option<string>, endTime: Option<string>, maxAttempts: int,
    settings: Option<PartialSettings>, status: string, createdAt: string)

  datatype DashboardExam = DashboardExam(
    id: string, title: string, description: string, teacherId: string, duration: int,
    startTime: Option<int>, endTime: Option<int>, maxAttempts: int,
    settings: ExamSettings, status: string, createdAt: Option<int>)

  /** A JSON value in the `score` slot: a number or anything else (null, a string, …). */
  datatype ScoreValue = Number(x: real) | NotANumber

  datatype ApiAttempt = ApiAttempt(
    id: string, examId: string, examTitle: string, studentId: string,
    startTime: Option<string>, endTime: Option<string>, score: ScoreValue, status: string)

  datatype DashboardAttempt = DashboardAttempt(
    id: string, examId: string, examTitle: string, studentId: string,
    startTime: Option<int>, endTime: Option<int>, score: Option<real>, status: string)

  /** `safeDate`: nothing for null, empty or unparsable text. */
  function SafeDate(value: Option<string>, parse: string -> Option<int>): (r: Option<int>)
    ensures value.None? || value.value == "" ==> r.None?
    ensures value.Some? && value.value != "" ==> r == parse(value.value)
  {
    if value.None? || value.value == "" then None else parse(value.value)
  }

  /** `{ ...DEFAULT_SETTINGS, ...(settings ?? {}) }`. */
  function MergeSettings(p: Option<PartialSettings>): (r: ExamSettings)
    ensures p.None? ==> r == DefaultSettings
    ensures p.Some? ==> (r.shuffleQuestions == p.value.shuffleQuestions.GetOr(false)
      && r.shuffleOptions == p.value.shuffleOptions.GetOr(false)
      && r.showResultsImmediately == p.value.showResultsImmediately.GetOr(false)
      && r.allowReview == p.value.allowReview.GetOr(false)
      && r.preventTabSwitching == p.value.preventTabSwitching.GetOr(false)
      && r.requireWebcam == p.value.requireWebcam.GetOr(false)
      && r.enableScreenMonitoring == p.value.enableScreenMonitoring.GetOr(false)
      && r.lockdownBrowser == p.value.lockdownBrowser.GetOr(false))
  {
    match p
    case None => DefaultSettings
    case Some(s) =>
      ExamSettings(
        s.shuffleQuestions.GetOr(DefaultSettings.shuffleQuestions),
        s.shuffleOptions.GetOr(DefaultSettings.shuffleOptions),
        s.showResultsImmediately.GetOr(DefaultSettings.showResultsImmediately),
        s.allowReview.GetOr(DefaultSettings.allowReview),
        s.preventTabSwitching.GetOr(DefaultSettings.preventTabSwitching),
        s.requireWebcam.GetOr(DefaultSettings.requireWebcam),
        s.enableScreenMonitoring.GetOr(DefaultSettings.enableScreenMonitoring),
        s.lockdownBrowser.GetOr(DefaultSettings.lockdownBrowser))
  }

  /** The settings of an exam that sent every key are exactly the sent ones. */
  lemma FullSettingsKept(s: ExamSettings)
    ensures MergeSettings(Some(PartialSettings(
      Some(s.shuffleQuestions), Some(s.shuffleOptions), Some(s.showResultsImmediately), Some(s.allowReview),
      Some(s.preventTabSwitching), Some(s.requireWebcam), Some(s.enableScreenMonitoring), Some(s.lockdownBrowser)))) == s
  {
  }

  /** `parseExam`. */
  function ParseExam(e: ApiExam, parse: string -> Option<int>): (r: DashboardExam)
    ensures r.settings == MergeSettings(e.settings)
    ensures r.startTime == SafeDate(e.startTime, parse) && r.endTime == SafeDate(e.endTime, parse)
    ensures r.createdAt == SafeDate(Some(e.createdAt), parse)
    ensures r.id == e.id && r.title == e.title && r.status == e.status && r.duration == e.duration
  {
    DashboardExam(e.id, e.title, e.description, e.teacherId, e.duration,
                  SafeDate(e.startTime, parse), SafeDate(e.endTime, parse), e.maxAttempts,
                  MergeSettings(e.settings), e.status, SafeDate(Some(e.createdAt), parse))
  }

  /** `parseAttempt`: only a number survives as a score. */
  function ParseAttempt(a: ApiAttempt, parse: string -> Option<int>): (r: DashboardAttempt)
    ensures r.score.Some? <==> a.score.Number?
    ensures a.score.Number? ==> r.score == Some(a.score.x)
    ensures r.startTime == SafeDate(a.startTime, parse) && r.endTime == SafeDate(a.endTime, parse)
    ensures r.id == a.id && r.examId == a.examId && r.status == a.status
  {
    DashboardAttempt(a.id, a.examId, a.examTitle, a.studentId,
                     SafeDate(a.startTime, parse), SafeDate(a.endTime, parse),
                     if a.score.Number? then Some(a.score.x) else None, a.status)
  }

  /** `formatDateTime`: the localised text is the parameter `show`. */
  function FormatDateTime(date: Option<int>, show: int -> string): (r: string)
    ensures date.None? ==> r == "Not scheduled"
    ensures date.Some? ==> r == show(date.value)
  {
    if date.None? then "Not scheduled" else show(date.value)
  }

  const HourMs := 1000 * 60 * 60
  const MinuteMs := 1000 * 60

  /** Whole hours and the whole minutes left over in a positive span of milliseconds. */
  function HoursAndMinutes(diff: int): (r: (int, int))
    requires diff > 0
    ensures 0 <= r.1 <= 59 && r.0 >= 0
    ensures r.0 * HourMs + r.1 * MinuteMs <= diff < r.0 * HourMs + (r.1 + 1) * MinuteMs
  {
    (diff / HourMs, (diff % HourMs) / MinuteMs)
  }

  function Plural(n: int): string { if n != 1 then "s" else "" }

  /** `getTimeUntilStart`. */
  function TimeUntilStart(start: Option<int>, now: int): (r: string)
    ensures start.None? ==> r == "Schedule not set"
    ensures r == "Available now" <==> start.Some? && start.value - now <= 0
    ensures start.Some? && start.value - now > 0 ==>
      (var (hours, minutes) := HoursAndMinutes(start.value - now);
       r == if hours >= 24 then "Starts in " + Text.IntToString(hours / 24) + " day" + Plural(hours / 24)
            else if hours > 0 then "Starts in " + Text.IntToString(hours) + "h " + Text.IntToString(minutes) + "m"
            else "Starts in " + Text.IntToString(minutes) + "m")
  {
    if start.None? then "Schedule not set"
    else
      var diff := start.value - now;
      if diff <= 0 then "Available now"
      else
        var (hours, minutes) := HoursAndMinutes(diff);
        var r := if hours >= 24 then "Starts in " + Text.IntToString(hours / 24) + " day" + Plural(hours / 24)
                 else if hours > 0 then "Starts in " + Text.IntToString(hours) + "h " + Text.IntToString(minutes) + "m"
                 else "Starts in " + Text.IntToString(minutes) + "m";
        assert r[0] == 'S';
        r
  }

  /** A start a day or more away is given in whole days: one "day", otherwise "days". */
  lemma DaysAway(start: int, now: int, days: int)
    requires days >= 1
    requires days * 24 * HourMs <= start - now < (days + 1) * 24 * HourMs
    ensures TimeUntilStart(Some(start), now) == "Starts in " + Text.IntToString(days) + (if days == 1 then " day" else " days")
  {
    var diff := start - now;
    var hours := HoursAndMinutes(diff).0;
    assert hours == diff / HourMs;
    assert days * 24 <= hours < (days + 1) * 24;
    assert hours / 24 == days;
    var n := Text.IntToString(days);
    assert TimeUntilStart(Some(start), now) == "Starts in " + n + " day" + Plural(days);
    DayWord(days);
    assert "Starts in " + n + " day" + Plural(days) == "Starts in " + n + (" day" + Plural(days));
  }

  /** The unit after the number of days. */
  lemma DayWord(n: int)
    ensures " day" + Plural(n) == if n == 1 then " day" else " days"
  {
    if n != 1 {
      assert " day" + "s" == " days";
    } else {
      assert " day" + "" == " day";
    }
  }

  predicate MayStartStatus(status: string) { status == "published" || status == "ongoing" }

  /** `canStartExam`. */
  function CanStartExam(e: DashboardExam, now: int): (r: bool)
    ensures !MayStartStatus(e.status) ==> !r
    ensures r <==> MayStartStatus(e.status)
                   && (e.startTime.None? || now >= e.startTime.value)
                   && (e.endTime.None? || now <= e.endTime.value)
  {
    if !(e.status in ["published", "ongoing"]) then false
    else if e.startTime.Some? && now < e.startTime.value then false
    else if e.endTime.Some? && now > e.endTime.value then false
    else true
  }

  /** `Math.round`: to the nearest whole number, halves upwards. */
  function Round(x: real): (r: int)
    ensures r as real - 0.5 <= x < r as real + 0.5
  {
    (x + 0.5).Floor
  }

  /** `getScoreLabel`. */
  function ScoreLabel(score: Option<real>): (r: string)
    ensures score.None? <==> r == "Pending grading"
    ensures score.Some? ==> r == Text.IntToString(Round(score.value)) + "%"
  {
    if score.None? then "Pending grading"
    else
      var r := Text.IntToString(Round(score.value)) + "%";
      assert r[|r| - 1] == '%';
      r
  }

  /** An attempt whose score is not a number is shown as awaiting grading. */
  lemma UngradedAttemptLabel(a: ApiAttempt, parse: string -> Option<int>)
    requires !a.score.Number?
    ensures ScoreLabel(ParseAttempt(a, parse).score) == "Pending grading"
  {
  }
}
