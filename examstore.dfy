/**
 * The teacher's draft exam list kept in browser storage (app/lib/examStore.ts).
 *
 * The stored list is the field `exams` of a `Store`; every operation first reads
 * the list through `GetExams`, which promotes scheduled drafts whose time has
 * come. The clock (`Date.now()` and `new Date().toISOString()`), `Date.parse`
 * and the random id are parameters.
 */
module ExamStore {
  import opened Wrappers
  import Collections

  datatype Status = Draft | Active | Completed | Archived

  datatype SecuritySettings = SecuritySettings(
    preventTabSwitching: bool,
    requireWebcam: bool,
    lockdownBrowser: bool,
    shuffleQuestions: bool,
    shuffleOptions: bool,
    showResultsImmediately: bool,
    allowReview: bool,
    enableFullscreenMode: bool)

  /** A reference to a question held by the server, with its points. */
  datatype StoredQuestion = StoredQuestion(id: string, points: int)

  datatype StoredExam = StoredExam(
    id: string,
    title: string,
    description: string,
    duration: int,
    status: Status,
    createdBy: string,
    createdAt: string,
    updatedAt: string,
    questions: seq<StoredQuestion>,
    scheduledFor: Option<string>,
    securitySettings: SecuritySettings)

  /**
   * `Partial<StoredExam>`: `None` is an absent key. `scheduledFor` may be
   * present with the value `undefined`, hence the nested option.
   */
  datatype Partial = Partial(
    id: Option<string>,
    title: Option<string>,
    description: Option<string>,
    duration: Option<int>,
    status: Option<Status>,
    createdBy: Option<string>,
    createdAt: Option<string>,
    updatedAt: Option<string>,
    questions: Option<seq<StoredQuestion>>,
    scheduledFor: Option<Option<string>>,
    securitySettings: Option<SecuritySettings>)

  const NoChanges := Partial(None, None, None, None, None, None, None, None, None, None, None)

  const DefaultSecuritySettings := SecuritySettings(false, false, false, false, false, true, true, false)

  function SettingFlags(s: SecuritySettings): seq<bool> {
    [s.preventTabSwitching, s.requireWebcam, s.lockdownBrowser, s.shuffleQuestions,
     s.shuffleOptions, s.showResultsImmediately, s.allowReview, s.enableFullscreenMode]
  }

  function IsOn(): bool -> bool {
    (b: bool) => b
  }

  /** How many of the flags are on. */
  function CountTrue(bs: seq<bool>): (n: nat)
    ensures n == |Collections.Filter(bs, IsOn())|
    ensures n <= |bs|
  {
    if bs == [] then 0 else (if bs[0] then 1 else 0) + CountTrue(bs[1..])
  }

  /** Only showResultsImmediately and allowReview are on in the default settings. */
  lemma DefaultSettingsTwoOn()
    ensures CountTrue(SettingFlags(DefaultSecuritySettings)) == 2
    ensures DefaultSecuritySettings.showResultsImmediately && DefaultSecuritySettings.allowReview
  {
    var f := SettingFlags(DefaultSecuritySettings);
    assert f[1..][1..][1..][1..][1..][1..][1..][1..] == [];
  }

  /** A draft with a truthy `scheduledFor` that parses to a time not after `now`. */
  predicate Due(e: StoredExam, now: int, parse: string -> Option<int>) {
    e.status == Draft && e.scheduledFor.Some? && e.scheduledFor.value != ""
    && parse(e.scheduledFor.value).Some? && parse(e.scheduledFor.value).value <= now
  }

  function PromoteOne(e: StoredExam, now: int, nowIso: string, parse: string -> Option<int>): StoredExam {
    if Due(e, now, parse) then e.(status := Active, updatedAt := nowIso) else e
  }

  /** The list `getExams` returns: every due draft becomes active, stamped `nowIso`. */
  function Promote(es: seq<StoredExam>, now: int, nowIso: string, parse: string -> Option<int>): (r: seq<StoredExam>)
    ensures |r| == |es|
    ensures forall i :: 0 <= i < |es| ==> r[i] == PromoteOne(es[i], now, nowIso, parse)
  {
    if es == [] then [] else [PromoteOne(es[0], now, nowIso, parse)] + Promote(es[1..], now, nowIso, parse)
  }

  /** Promoting one more exam appends its promoted copy. */
  lemma PromoteSnoc(es: seq<StoredExam>, e: StoredExam, now: int, nowIso: string, parse: string -> Option<int>)
    ensures Promote(es + [e], now, nowIso, parse) == Promote(es, now, nowIso, parse) + [PromoteOne(e, now, nowIso, parse)]
  {
    var l, r := Promote(es + [e], now, nowIso, parse), Promote(es, now, nowIso, parse) + [PromoteOne(e, now, nowIso, parse)];
    assert |l| == |r|;
    forall i | 0 <= i < |l| ensures l[i] == r[i] {
      assert (es + [e])[i] == if i < |es| then es[i] else e;
    }
  }

  /** Exactly the due drafts change, and they change only status and updatedAt. */
  lemma PromoteExact(es: seq<StoredExam>, now: int, nowIso: string, parse: string -> Option<int>, i: int)
    requires 0 <= i < |es|
    ensures Due(es[i], now, parse) ==> Promote(es, now, nowIso, parse)[i] == es[i].(status := Active, updatedAt := nowIso)
    ensures !Due(es[i], now, parse) ==> Promote(es, now, nowIso, parse)[i] == es[i]
    ensures Promote(es, now, nowIso, parse)[i].id == es[i].id
  {
  }

  /** Promoting twice with the same clock is promoting once. */
  lemma PromoteIdempotent(es: seq<StoredExam>, now: int, nowIso: string, parse: string -> Option<int>)
    ensures Promote(Promote(es, now, nowIso, parse), now, nowIso, parse) == Promote(es, now, nowIso, parse)
  {
    var p := Promote(es, now, nowIso, parse);
    forall i | 0 <= i < |p| ensures PromoteOne(p[i], now, nowIso, parse) == p[i] {
      assert !Due(p[i], now, parse);
    }
  }

  /** With no due draft the list is returned unchanged. */
  lemma PromoteNoneDue(es: seq<StoredExam>, now: int, nowIso: string, parse: string -> Option<int>)
    requires forall i :: 0 <= i < |es| ==> !Due(es[i], now, parse)
    ensures Promote(es, now, nowIso, parse) == es
  {
  }

  /** `findIndex` on the id: the first position holding it, or -1. */
  function FindIndex(es: seq<StoredExam>, id: string): (r: int)
    ensures -1 <= r < |es|
    ensures r >= 0 ==> es[r].id == id && forall j :: 0 <= j < r ==> es[j].id != id
    ensures r == -1 <==> forall j :: 0 <= j < |es| ==> es[j].id != id
  {
    if es == [] then -1
    else if es[0].id == id then 0
    else
      var k := FindIndex(es[1..], id);
      if k == -1 then -1 else k + 1
  }

  /** `find` on the id: the first exam holding it. */
  function Find(es: seq<StoredExam>, id: string): (r: Option<StoredExam>)
    ensures r.Some? ==> r.value in es && r.value.id == id
    ensures r.None? <==> forall j :: 0 <= j < |es| ==> es[j].id != id
    ensures forall k :: 0 <= k < |es| && es[k].id == id && (forall j :: 0 <= j < k ==> es[j].id != id) ==> r == Some(es[k])
  {
    var k := FindIndex(es, id);
    if k == -1 then None else Some(es[k])
  }

  /** The exam `createExam` builds: every absent field takes its default. */
  function Created(p: Partial, randomId: string, nowIso: string): (e: StoredExam)
    ensures p.title.None? ==> e.title == "Untitled Exam"
    ensures p.description.None? ==> e.description == ""
    ensures p.duration.None? ==> e.duration == 30
    ensures p.status.None? ==> e.status == Draft
    ensures p.createdBy.None? ==> e.createdBy == "unknown_user"
    ensures p.questions.None? ==> e.questions == []
    ensures p.securitySettings.None? ==> e.securitySettings == DefaultSecuritySettings
    ensures p.id.None? ==> e.id == randomId
    ensures e.createdAt == nowIso && e.updatedAt == nowIso
  {
    StoredExam(
      p.id.GetOr(randomId),
      p.title.GetOr("Untitled Exam"),
      p.description.GetOr(""),
      p.duration.GetOr(30),
      p.status.GetOr(Draft),
      p.createdBy.GetOr("unknown_user"),
      nowIso,
      nowIso,
      p.questions.GetOr([]),
      p.scheduledFor.GetOr(None),
      p.securitySettings.GetOr(DefaultSecuritySettings))
  }

  /** A present field of a Partial wins over the stored one, as the spread does. */
  lemma CreatedKeepsGiven(p: Partial, randomId: string, nowIso: string)
    ensures p.title.Some? ==> Created(p, randomId, nowIso).title == p.title.value
    ensures p.id.Some? ==> Created(p, randomId, nowIso).id == p.id.value
    ensures p.status.Some? ==> Created(p, randomId, nowIso).status == p.status.value
  {
  }

  /** `{ ...e, ...changes, id, updatedAt: nowIso }`. */
  function Merge(e: StoredExam, c: Partial, id: string, nowIso: string): (r: StoredExam)
    ensures r.id == id && r.updatedAt == nowIso
  {
    StoredExam(
      id,
      c.title.GetOr(e.title),
      c.description.GetOr(e.description),
      c.duration.GetOr(e.duration),
      c.status.GetOr(e.status),
      c.createdBy.GetOr(e.createdBy),
      c.createdAt.GetOr(e.createdAt),
      nowIso,
      c.questions.GetOr(e.questions),
      c.scheduledFor.GetOr(e.scheduledFor),
      c.securitySettings.GetOr(e.securitySettings))
  }

  /** With no changes a merge only restamps updatedAt (and keeps the id it was found by). */
  lemma MergeNoChanges(e: StoredExam, nowIso: string)
    ensures Merge(e, NoChanges, e.id, nowIso) == e.(updatedAt := nowIso)
  {
  }

  /** Archiving changes the status and nothing but the timestamp. */
  lemma MergeArchive(e: StoredExam, nowIso: string)
    ensures Merge(e, NoChanges.(status := Some(Archived)), e.id, nowIso) == e.(status := Archived, updatedAt := nowIso)
  {
  }

  /** The exams `filter(e => e.id !== id)` keeps. */
  function OtherId(id: string): StoredExam -> bool {
    (e: StoredExam) => e.id != id
  }

  /** `filter(e => e.id !== id)`: the other exams, in their order. */
  function RemoveId(es: seq<StoredExam>, id: string): (r: seq<StoredExam>)
    ensures r == Collections.Filter(es, OtherId(id))
    ensures |r| <= |es|
    ensures forall e :: e in r <==> e in es && e.id != id
    ensures |r| == |es| <==> forall j :: 0 <= j < |es| ==> es[j].id != id
  {
    if es == [] then []
    else if es[0].id == id then RemoveId(es[1..], id)
    else
      assert es == [es[0]] + es[1..];
      [es[0]] + RemoveId(es[1..], id)
  }

  /** Removing an id that no exam has leaves the list as it was. */
  lemma {:induction false} RemoveAbsent(es: seq<StoredExam>, id: string)
    requires forall j :: 0 <= j < |es| ==> es[j].id != id
    ensures RemoveId(es, id) == es
  {
    if es != [] { RemoveAbsent(es[1..], id); }
  }

  /** The copy `duplicateExam` prepends. */
  function Copy(e: StoredExam, randomId: string, nowIso: string): (r: StoredExam)
    ensures r.title == e.title + " (Copy)" && r.status == Draft && r.id == randomId
    ensures r.questions == e.questions && r.securitySettings == e.securitySettings
    ensures r.description == e.description && r.duration == e.duration && r.scheduledFor == e.scheduledFor
    ensures r.createdBy == e.createdBy && r.createdAt == nowIso && r.updatedAt == nowIso
  {
    e.(id := randomId, title := e.title + " (Copy)", status := Draft, createdAt := nowIso, updatedAt := nowIso)
  }

  class Store {
    /** The list as stored under the key "ops_exams_v1". */
    var exams: seq<StoredExam>

    constructor(initial: seq<StoredExam>)
      ensures exams == initial
    {
      exams := initial;
    }

    /** `getExams`: the promoted list; it is written back only when something changed. */
    method GetExams(now: int, nowIso: string, parse: string -> Option<int>) returns (r: seq<StoredExam>)
      modifies this
      ensures r == Promote(old(exams), now, nowIso, parse)
      ensures exams == r
    {
      var es := exams;
      var updated: seq<StoredExam> := [];
      var changed := false;
      var i := 0;
      while i < |es|
        invariant 0 <= i <= |es| && exams == es
        invariant updated == Promote(es[..i], now, nowIso, parse)
        invariant changed <==> exists j :: 0 <= j < i && Due(es[j], now, parse)
      {
        var e := es[i];
        if Due(e, now, parse) {
          changed := true;
          updated := updated + [e.(status := Active, updatedAt := nowIso)];
        } else {
          updated := updated + [e];
        }
        assert updated[i] == PromoteOne(e, now, nowIso, parse);
        assert es[..i + 1] == es[..i] + [e];
        PromoteSnoc(es[..i], e, now, nowIso, parse);
        i := i + 1;
      }
      assert es[..i] == es;
      if changed {
        exams := updated;
        r := updated;
      } else {
        PromoteNoneDue(es, now, nowIso, parse);
        r := es;
      }
    }

    /** `getExam`: the first exam with the id in the promoted list. */
    method GetExam(id: string, now: int, nowIso: string, parse: string -> Option<int>) returns (r: Option<StoredExam>)
      modifies this
      ensures exams == Promote(old(exams), now, nowIso, parse)
      ensures r == Find(exams, id)
    {
      var es := GetExams(now, nowIso, parse);
      var k := FindIndex(es, id);
      r := if k == -1 then None else Some(es[k]);
    }

    /** `createExam`: the new exam goes first and the promoted list follows. */
    method CreateExam(p: Partial, randomId: string, now: int, nowIso: string, parse: string -> Option<int>)
      returns (created: StoredExam)
      modifies this
      ensures created == Created(p, randomId, nowIso)
      ensures exams == [created] + Promote(old(exams), now, nowIso, parse)
      ensures |exams| == |old(exams)| + 1 && exams[0] == created
    {
      var es := GetExams(now, nowIso, parse);
      created := Created(p, randomId, nowIso);
      exams := [created] + es;
    }

    /**
     * `updateExam`: an unknown id gives `None` (the promoted list is still
     * written); otherwise only that position changes, and it keeps `id`.
     */
    method UpdateExam(id: string, changes: Partial, now: int, nowIso: string, parse: string -> Option<int>)
      returns (r: Option<StoredExam>)
      modifies this
      ensures var es := Promote(old(exams), now, nowIso, parse);
        var k := FindIndex(es, id);
        if k == -1 then r == None && exams == es
        else r == Some(Merge(es[k], changes, id, nowIso)) && exams == es[k := r.value]
      ensures r.Some? ==> r.value.id == id
      ensures |exams| == |old(exams)|
    {
      var es := GetExams(now, nowIso, parse);
      var k := FindIndex(es, id);
      if k == -1 {
        return None;
      }
      var updated := Merge(es[k], changes, id, nowIso);
      exams := es[k := updated];
      r := Some(updated);
    }

    /** `deleteExam`: false and no change when no exam has the id. */
    method DeleteExam(id: string, now: int, nowIso: string, parse: string -> Option<int>) returns (ok: bool)
      modifies this
      ensures var es := Promote(old(exams), now, nowIso, parse);
        exams == RemoveId(es, id)
        && (ok <==> exists j :: 0 <= j < |es| && es[j].id == id)
        && (!ok ==> exams == es)
      ensures forall e :: e in exams ==> e.id != id
    {
      var es := GetExams(now, nowIso, parse);
      var next := RemoveId(es, id);
      if |next| == |es| {
        RemoveAbsent(es, id);
        return false;
      }
      exams := next;
      ok := true;
    }

    /**
     * `duplicateExam`: reads the list twice, as `getExam` and then `getExams`;
     * the second read promotes nothing more.
     */
    method DuplicateExam(id: string, randomId: string, now: int, nowIso: string, parse: string -> Option<int>)
      returns (r: Option<StoredExam>)
      modifies this
      ensures var es := Promote(old(exams), now, nowIso, parse);
        match Find(es, id)
        case None => r == None && exams == es
        case Some(e) => r == Some(Copy(e, randomId, nowIso)) && exams == [r.value] + es
    {
      var found := GetExam(id, now, nowIso, parse);
      if found.None? {
        return None;
      }
      var copy := Copy(found.value, randomId, nowIso);
      var es := GetExams(now, nowIso, parse);
      PromoteIdempotent(old(exams), now, nowIso, parse);
      exams := [copy] + es;
      r := Some(copy);
    }

    /** `archiveExam`: `updateExam` with the status "archived". */
    method ArchiveExam(id: string, now: int, nowIso: string, parse: string -> Option<int>) returns (r: Option<StoredExam>)
      modifies this
      ensures var es := Promote(old(exams), now, nowIso, parse);
        var k := FindIndex(es, id);
        if k == -1 then r == None && exams == es
        else r == Some(es[k].(status := Archived, updatedAt := nowIso)) && exams == es[k := r.value]
    {
      r := UpdateExam(id, NoChanges.(status := Some(Archived)), now, nowIso, parse);
      if r.Some? {
        ghost var es := Promote(old(exams), now, nowIso, parse);
        MergeArchive(es[FindIndex(es, id)], nowIso);
      }
    }
  }
}
