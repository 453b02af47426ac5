/**
 * The security-settings panel of app/components/exam/SecuritySettings.tsx:
 * every control hands the parent a copy of the settings with one key set,
 * except that switching the webcam requirement or forced fullscreen on turns
 * the other one off.
 */
module SecuritySettingsPanel {
  import opened Wrappers
  import ExamStore

  /** The panel's settings: the stored exam's eight switches and the warning limit the panel adds. */
  datatype Panel = Panel(flags: ExamStore.SecuritySettings, maxTabSwitchWarnings: Option<int>)

  datatype Key =
    | PreventTabSwitching | RequireWebcam | LockdownBrowser | ShuffleQuestions
    | ShuffleOptions | ShowResultsImmediately | AllowReview | EnableFullscreenMode

  function Get(s: ExamStore.SecuritySettings, k: Key): bool {
    match k
    case PreventTabSwitching => s.preventTabSwitching
    case RequireWebcam => s.requireWebcam
    case LockdownBrowser => s.lockdownBrowser
    case ShuffleQuestions => s.shuffleQuestions
    case ShuffleOptions => s.shuffleOptions
    case ShowResultsImmediately => s.showResultsImmediately
    case AllowReview => s.allowReview
    case EnableFullscreenMode => s.enableFullscreenMode
  }

  /** `{ ...settings, [key]: value }`. */
  function With(s: ExamStore.SecuritySettings, k: Key, v: bool): (r: ExamStore.SecuritySettings)
    ensures Get(r, k) == v
    ensures forall j :: j != k ==> Get(r, j) == Get(s, j)
  {
    match k
    case PreventTabSwitching => s.(preventTabSwitching := v)
    case RequireWebcam => s.(requireWebcam := v)
    case LockdownBrowser => s.(lockdownBrowser := v)
    case ShuffleQuestions => s.(shuffleQuestions := v)
    case ShuffleOptions => s.(shuffleOptions := v)
    case ShowResultsImmediately => s.(showResultsImmediately := v)
    case AllowReview => s.(allowReview := v)
    case EnableFullscreenMode => s.(enableFullscreenMode := v)
  }

  /** `updateSetting` for a switch: the settings handed to `onChange`. */
  function UpdateSetting(p: Panel, k: Key, v: bool): (r: Panel)
    ensures Get(r.flags, k) == v
    ensures r.maxTabSwitchWarnings == p.maxTabSwitchWarnings
    ensures k == RequireWebcam && v && p.flags.enableFullscreenMode ==> !r.flags.enableFullscreenMode
    ensures k == EnableFullscreenMode && v && p.flags.requireWebcam ==> !r.flags.requireWebcam
    ensures forall j :: j != k && !(k == RequireWebcam && v && p.flags.enableFullscreenMode && j == EnableFullscreenMode)
                           && !(k == EnableFullscreenMode && v && p.flags.requireWebcam && j == RequireWebcam)
                        ==> Get(r.flags, j) == Get(p.flags, j)
  {
    var withKey := With(p.flags, k, v);
    var afterWebcam := if k == RequireWebcam && v && p.flags.enableFullscreenMode then withKey.(enableFullscreenMode := false) else withKey;
    var afterFullscreen := if k == EnableFullscreenMode && v && p.flags.requireWebcam then afterWebcam.(requireWebcam := false) else afterWebcam;
    Panel(afterFullscreen, p.maxTabSwitchWarnings)
  }

  predicate BothOn(s: ExamStore.SecuritySettings) { s.requireWebcam && s.enableFullscreenMode }

  /** The panel never produces both switches on from settings that did not have both on. */
  lemma NeverBoth(p: Panel, k: Key, v: bool)
    requires !BothOn(p.flags)
    ensures !BothOn(UpdateSetting(p, k, v).flags)
  {
    var r := UpdateSetting(p, k, v);
    if k == RequireWebcam {
      assert r.flags.requireWebcam == v;
    } else if k == EnableFullscreenMode {
      assert r.flags.enableFullscreenMode == v;
    } else {
      assert Get(r.flags, RequireWebcam) == Get(p.flags, RequireWebcam);
      assert Get(r.flags, EnableFullscreenMode) == Get(p.flags, EnableFullscreenMode);
    }
  }

  /**
   * The warning-limit field: `parseInt(entry, 10) || 3`, where `parsed` is
   * the whole number read from the entry and `None` stands for NaN.
   */
  function WarningsEntry(parsed: Option<int>): (r: int)
    ensures parsed.None? || parsed.value == 0 ==> r == 3
    ensures parsed.Some? && parsed.value != 0 ==> r == parsed.value
    ensures r != 0
  {
    if parsed.None? || parsed.value == 0 then 3 else parsed.value
  }

  /** `updateSetting('maxTabSwitchWarnings', …)`: only the limit changes. */
  function UpdateWarnings(p: Panel, parsed: Option<int>): (r: Panel)
    ensures r.flags == p.flags
    ensures r.maxTabSwitchWarnings == Some(WarningsEntry(parsed))
  {
    p.(maxTabSwitchWarnings := Some(WarningsEntry(parsed)))
  }
}
