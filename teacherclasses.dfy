/**
 * `GET /api/teacher/classes` (app/api/teacher/classes/route.ts): the distinct
 * branches, divisions and years of the students, and the classes formed by
 * each (branch, division, year) combination with the number of students in it.
 *
 * Truthiness follows JavaScript: an empty branch or division and a year of 0
 * count as absent wherever the route writes `||` or `filter(Boolean)`.
 */
module TeacherClasses {
  import Text
  import opened Wrappers
  import Collections
  import Sorting
  import Auth
  import ApiErrors

  /** The columns of a user row the route selects, with the role its `where` tests. */
  datatype UserRow = UserRow(id: string, role: Auth.Role, branch: Option<string>, division: Option<string>, year: Option<int>)

  /** One class: the absent parts are `undefined`, and `count` its students. */
  datatype ClassEntry = ClassEntry(branch: Option<string>, division: Option<string>, year: Option<int>, count: int)

  datatype ClassList = ClassList(branches: seq<string>, divisions: seq<string>, years: seq<int>, classes: seq<ClassEntry>)

  /** The query's `where`: a student with at least one of the three columns not null. */
  predicate Selected(u: UserRow) {
    u.role == Auth.STUDENT && (u.branch.Some? || u.division.Some? || u.year.Some?)
  }

  function SelectedTest(): UserRow -> bool {
    u => Selected(u)
  }

  predicate TruthyText(o: Option<string>) { o.Some? && o.value != "" }

  predicate TruthyYear(o: Option<int>) { o.Some? && o.value != 0 }

  /** `student.branch || student.division || student.year`. */
  predicate HasClass(u: UserRow) {
    TruthyText(u.branch) || TruthyText(u.division) || TruthyYear(u.year)
  }

  function HasClassTest(): UserRow -> bool {
    u => HasClass(u)
  }

  /** `values.filter(Boolean)` on a column of text. */
  function TruthyTexts(os: seq<Option<string>>): (r: seq<string>)
    ensures forall k :: 0 <= k < |r| ==> r[k] != "" && Some(r[k]) in os
    ensures forall k :: 0 <= k < |os| && TruthyText(os[k]) ==> os[k].value in r
    decreases |os|
  {
    if os == [] then []
    else if TruthyText(os[0]) then [os[0].value] + TruthyTexts(os[1..])
    else TruthyTexts(os[1..])
  }

  /** `values.filter(Boolean)` on the year column. */
  function TruthyYears(os: seq<Option<int>>): (r: seq<int>)
    ensures forall k :: 0 <= k < |r| ==> r[k] != 0 && Some(r[k]) in os
    ensures forall k :: 0 <= k < |os| && TruthyYear(os[k]) ==> os[k].value in r
    decreases |os|
  {
    if os == [] then []
    else if TruthyYear(os[0]) then [os[0].value] + TruthyYears(os[1..])
    else TruthyYears(os[1..])
  }

  function BranchColumn(ss: seq<UserRow>): seq<Option<string>> { seq(|ss|, k requires 0 <= k < |ss| => ss[k].branch) }

  function DivisionColumn(ss: seq<UserRow>): seq<Option<string>> { seq(|ss|, k requires 0 <= k < |ss| => ss[k].division) }

  function YearColumn(ss: seq<UserRow>): seq<Option<int>> { seq(|ss|, k requires 0 <= k < |ss| => ss[k].year) }

  /** `[...new Set(column.filter(Boolean))]`: every non-empty value once, none empty. */
  function DistinctTexts(os: seq<Option<string>>): (r: seq<string>)
    ensures Collections.NoDuplicates(r)
    ensures forall k :: 0 <= k < |r| ==> r[k] != "" && Some(r[k]) in os
    ensures forall k :: 0 <= k < |os| && TruthyText(os[k]) ==> os[k].value in r
    ensures forall i, j :: 0 <= i < j < |r| ==>
      r[i] in TruthyTexts(os) && r[j] in TruthyTexts(os)
      && Collections.FirstIndex(TruthyTexts(os), r[i]) < Collections.FirstIndex(TruthyTexts(os), r[j])
  {
    var t := TruthyTexts(os);
    var r := Collections.Dedupe(t);
    assert forall k :: 0 <= k < |r| ==> r[k] in t;
    Collections.DedupeOrder(t);
    r
  }

  /** The default `sort()` compares the years' decimal texts. */
  function YearKey(y: int): Sorting.Key {
    [Sorting.Str(Text.IntToString(y))]
  }

  /** `[...new Set(years.filter(Boolean))].sort()`. */
  function Years(ss: seq<UserRow>): (r: seq<int>)
    ensures multiset(r) == multiset(DistinctYears(ss))
    ensures Collections.NoDuplicates(r)
    ensures forall y :: y in r <==> y in DistinctYears(ss)
    ensures Sorting.Sorted(YearKey, false, r)
  {
    var d := DistinctYears(ss);
    var r := Sorting.SortBy(YearKey, false, d);
    Collections.PermutationNoDuplicates(d, r);
    forall y ensures y in r <==> y in d {
      assert y in r <==> y in multiset(r);
      assert y in d <==> y in multiset(d);
    }
    r
  }

  /** `[...new Set(years.filter(Boolean))]`, before the sort. */
  function DistinctYears(ss: seq<UserRow>): (d: seq<int>)
    ensures Collections.NoDuplicates(d)
    ensures forall k :: 0 <= k < |d| ==> d[k] != 0 && exists i :: 0 <= i < |ss| && ss[i].year == Some(d[k])
    ensures forall i :: 0 <= i < |ss| && TruthyYear(ss[i].year) ==> ss[i].year.value in d
  {
    var column := YearColumn(ss);
    var t := TruthyYears(column);
    var d := Collections.Dedupe(t);
    forall i | 0 <= i < |ss| && TruthyYear(ss[i].year) ensures ss[i].year.value in d {
      assert column[i] == ss[i].year;
    }
    forall k | 0 <= k < |d| ensures d[k] != 0 && exists i :: 0 <= i < |ss| && ss[i].year == Some(d[k]) {
      assert d[k] in t;
      assert Some(d[k]) in column;
      var i :| 0 <= i < |column| && column[i] == Some(d[k]);
      assert ss[i].year == Some(d[k]);
    }
    d
  }

  /** Sorting the years 9 and 10 puts 10 first, since "10" comes before "9" as text. */
  lemma YearsSortAsText()
    ensures Sorting.SortBy(YearKey, false, [9, 10]) == [10, 9]
  {
    var r := Sorting.SortBy(YearKey, false, [9, 10]);
    assert multiset(r) == multiset{9, 10};
    assert |r| == 2;
    assert r[0] in multiset(r) && r[1] in multiset(r);
    assert Text.IntToString(10) == "10" && Text.IntToString(9) == "9";
    assert !Sorting.Before(YearKey, false, r[1], r[0]);
    assert Sorting.KeyLt(YearKey(10), YearKey(9));
  }

  function TextOrEmpty(o: Option<string>): string { if TruthyText(o) then o.value else "" }

  function YearText(o: Option<int>): string { if TruthyYear(o) then Text.IntToString(o.value) else "" }

  /** `${branch || ''}_${division || ''}_${year || ''}`. */
  function ClassKey(branch: Option<string>, division: Option<string>, year: Option<int>): string {
    TextOrEmpty(branch) + "_" + TextOrEmpty(division) + "_" + YearText(year)
  }

  function Key(u: UserRow): string { ClassKey(u.branch, u.division, u.year) }

  function EntryKey(e: ClassEntry): string { ClassKey(e.branch, e.division, e.year) }

  /** The map entry a student's class starts with: falsy parts become `undefined`. */
  function NewEntry(u: UserRow): (e: ClassEntry)
    ensures EntryKey(e) == Key(u) && e.count == 0
    ensures !TruthyText(e.branch) ==> e.branch.None?
    ensures !TruthyText(e.division) ==> e.division.None?
    ensures !TruthyYear(e.year) ==> e.year.None?
  {
    ClassEntry(if TruthyText(u.branch) then u.branch else None,
               if TruthyText(u.division) then u.division else None,
               if TruthyYear(u.year) then u.year else None, 0)
  }

  /**
   * The key joins the parts with "_" without escaping, so a branch "A_B" with
   * no division and branch "A" with division "B_" share a key, and the second
   * student is counted in the first one's class.
   */
  lemma KeysCanCollide()
    ensures var u1 := UserRow("1", Auth.STUDENT, Some("A_B"), None, Some(1));
      var u2 := UserRow("2", Auth.STUDENT, Some("A"), Some("B_"), Some(1));
      var first := Step(KeyOf(), [], map[], u1);
      var second := Step(KeyOf(), first.0, first.1, u2);
      && Key(u1) == Key(u2) && NewEntry(u1).branch != NewEntry(u2).branch
      && second.0 == [Key(u1)] && second.1[Key(u1)] == NewEntry(u1).(count := 2)
  {
    var u1 := UserRow("1", Auth.STUDENT, Some("A_B"), None, Some(1));
    var u2 := UserRow("2", Auth.STUDENT, Some("A"), Some("B_"), Some(1));
    var key := "A_B__1";
    assert Text.IntToString(1) == "1";
    assert Key(u1) == key && Key(u2) == key;
    assert HasClass(u1) && HasClass(u2);
    assert [] + [key] == [key];
  }

  /** `Key` as a function value: the grouping below is stated for any key function and used with this one. */
  function KeyOf(): UserRow -> string {
    u => Key(u)
  }

  /** How many counted students have the key `key` under `keyOf`. */
  function CountKey(keyOf: UserRow -> string, ss: seq<UserRow>, key: string): nat
    decreases |ss|
  {
    if ss == [] then 0
    else CountKey(keyOf, ss[..|ss| - 1], key) + (if HasClass(ss[|ss| - 1]) && keyOf(ss[|ss| - 1]) == key then 1 else 0)
  }

  /** `Array.from(classMap.values())`: the entries in the order their keys were first set. */
  function Values(keys: seq<string>, m: map<string, ClassEntry>): (r: seq<ClassEntry>)
    requires forall k :: k in keys ==> k in m
    ensures |r| == |keys| && forall j :: 0 <= j < |keys| ==> r[j] == m[keys[j]]
  {
    seq(|keys|, j requires 0 <= j < |keys| => m[keys[j]])
  }

  /** The sum of the counts. */
  function Total(es: seq<ClassEntry>): int
    decreases |es|
  {
    if es == [] then 0 else Total(es[..|es| - 1]) + es[|es| - 1].count
  }

  lemma {:induction false} TotalAppend(a: seq<ClassEntry>, b: seq<ClassEntry>)
    ensures Total(a + b) == Total(a) + Total(b)
    decreases |b|
  {
    if b == [] {
      assert a + b == a;
    } else {
      assert (a + b)[..|a + b| - 1] == a + b[..|b| - 1];
      TotalAppend(a, b[..|b| - 1]);
    }
  }

  lemma TotalUpdate(es: seq<ClassEntry>, j: int, e: ClassEntry)
    requires 0 <= j < |es|
    ensures Total(es[j := e]) == Total(es) - es[j].count + e.count
  {
    assert es == es[..j] + [es[j]] + es[j + 1..];
    assert es[j := e] == es[..j] + [e] + es[j + 1..];
    TotalAppend(es[..j] + [es[j]], es[j + 1..]);
    TotalAppend(es[..j] + [e], es[j + 1..]);
    TotalAppend(es[..j], [es[j]]);
    TotalAppend(es[..j], [e]);
  }

  /** Rearranging the classes keeps the sum of their counts. */
  lemma {:induction false} TotalPermutation(a: seq<ClassEntry>, b: seq<ClassEntry>)
    requires multiset(a) == multiset(b)
    ensures Total(a) == Total(b)
    decreases |a|
  {
    if a != [] {
      var j := Collections.MatchLast(a, b);
      TotalPermutation(a[..|a| - 1], b[..j] + b[j + 1..]);
      TotalRemove(b, j);
    }
  }

  /** Taking one class out of a list takes its count out of the sum. */
  lemma {:induction false} TotalRemove(b: seq<ClassEntry>, j: int)
    requires 0 <= j < |b|
    ensures Total(b) == Total(b[..j] + b[j + 1..]) + b[j].count
  {
    var pre, x, post := b[..j], b[j], b[j + 1..];
    assert b == (pre + [x]) + post;
    TotalAppend(pre + [x], post);
    TotalAppend(pre, [x]);
    assert Total([x]) == x.count by {
      assert [x][..0] == [];
    }
    TotalAppend(pre, post);
  }

  /** What the class map `(keys, m)` built from the students `ss` under the key function `keyOf` satisfies. */
  ghost predicate Grouped(keyOf: UserRow -> string, ss: seq<UserRow>, keys: seq<string>, m: map<string, ClassEntry>) {
    && Collections.NoDuplicates(keys)
    && (forall k :: k in m <==> k in keys)
    && (forall k :: k in m ==> m[k].count == CountKey(keyOf, ss, k) >= 1)
    && (forall k :: k !in m ==> CountKey(keyOf, ss, k) == 0)
    && Total(Values(keys, m)) == |Collections.Filter(ss, HasClassTest())|
  }

  /** Each entry's own branch, division and year form the key it is stored under. */
  ghost predicate Labelled(m: map<string, ClassEntry>) {
    forall k :: k in m ==> EntryKey(m[k]) == k
  }

  /** One turn of the `forEach`: a student with a class adds 1 to its key's entry, creating it first. */
  function Step(keyOf: UserRow -> string, keys: seq<string>, m: map<string, ClassEntry>, u: UserRow)
    : (seq<string>, map<string, ClassEntry>)
  {
    if !HasClass(u) then (keys, m)
    else
      var key := keyOf(u);
      if key in m then (keys, m[key := m[key].(count := m[key].count + 1)])
      else (keys + [key], m[key := NewEntry(u).(count := 1)])
  }

  lemma CountKeyAppend(keyOf: UserRow -> string, ss: seq<UserRow>, u: UserRow, k: string)
    ensures CountKey(keyOf, ss + [u], k) == CountKey(keyOf, ss, k) + (if HasClass(u) && keyOf(u) == k then 1 else 0)
  {
    assert (ss + [u])[..|ss|] == ss;
  }

  /** A turn for a student whose key is already in the map. */
  lemma StepExisting(keyOf: UserRow -> string, ss: seq<UserRow>, keys: seq<string>, m: map<string, ClassEntry>, u: UserRow)
    requires Grouped(keyOf, ss, keys, m) && HasClass(u) && keyOf(u) in m
    ensures Grouped(keyOf, ss + [u], Step(keyOf, keys, m, u).0, Step(keyOf, keys, m, u).1)
  {
    var key := keyOf(u);
    var e := m[key].(count := m[key].count + 1);
    var m' := m[key := e];
    assert Step(keyOf, keys, m, u) == (keys, m');
    assert forall k :: k in m' <==> k in keys;
    forall k | k in m' ensures m'[k].count == CountKey(keyOf, ss + [u], k) >= 1 {
      CountKeyAppend(keyOf, ss, u, k);
    }
    forall k | k !in m' ensures CountKey(keyOf, ss + [u], k) == 0 {
      CountKeyAppend(keyOf, ss, u, k);
    }
    TotalReplace(keys, m, key, e);
    Collections.FilterAppendOne(ss, u, HasClassTest());
  }

  /** Replacing the entry of one listed key changes the sum by the change of its count. */
  lemma TotalReplace(keys: seq<string>, m: map<string, ClassEntry>, key: string, e: ClassEntry)
    requires Collections.NoDuplicates(keys) && (forall k :: k in keys ==> k in m) && key in keys
    ensures Total(Values(keys, m[key := e])) == Total(Values(keys, m)) - m[key].count + e.count
  {
    var j :| 0 <= j < |keys| && keys[j] == key;
    var vs := Values(keys, m);
    assert Values(keys, m[key := e]) == vs[j := e];
    TotalUpdate(vs, j, e);
  }

  /** A turn for a student whose key is new. */
  lemma StepNew(keyOf: UserRow -> string, ss: seq<UserRow>, keys: seq<string>, m: map<string, ClassEntry>, u: UserRow)
    requires Grouped(keyOf, ss, keys, m) && HasClass(u) && keyOf(u) !in m
    ensures Grouped(keyOf, ss + [u], Step(keyOf, keys, m, u).0, Step(keyOf, keys, m, u).1)
  {
    var key := keyOf(u);
    var e := NewEntry(u).(count := 1);
    var keys' := keys + [key];
    var m' := m[key := e];
    assert Step(keyOf, keys, m, u) == (keys', m');
    assert Collections.NoDuplicates(keys') by {
      assert key !in keys;
    }
    assert forall k :: k in m' <==> k in keys';
    forall k | k in m' ensures m'[k].count == CountKey(keyOf, ss + [u], k) >= 1 {
      CountKeyAppend(keyOf, ss, u, k);
    }
    forall k | k !in m' ensures CountKey(keyOf, ss + [u], k) == 0 {
      CountKeyAppend(keyOf, ss, u, k);
    }
    TotalAdd(keys, m, key, e);
    Collections.FilterAppendOne(ss, u, HasClassTest());
  }

  /** Adding an entry under a new key adds its count to the sum. */
  lemma TotalAdd(keys: seq<string>, m: map<string, ClassEntry>, key: string, e: ClassEntry)
    requires (forall k :: k in keys ==> k in m) && key !in m
    ensures Total(Values(keys + [key], m[key := e])) == Total(Values(keys, m)) + e.count
  {
    assert Values(keys + [key], m[key := e]) == Values(keys, m) + [e];
    TotalAppend(Values(keys, m), [e]);
    assert [e][..0] == [];
  }

  lemma StepKeeps(keyOf: UserRow -> string, ss: seq<UserRow>, keys: seq<string>, m: map<string, ClassEntry>, u: UserRow)
    requires Grouped(keyOf, ss, keys, m)
    ensures Grouped(keyOf, ss + [u], Step(keyOf, keys, m, u).0, Step(keyOf, keys, m, u).1)
  {
    if !HasClass(u) {
      Collections.FilterAppendOne(ss, u, HasClassTest());
      forall k ensures CountKey(keyOf, ss + [u], k) == CountKey(keyOf, ss, k) {
        CountKeyAppend(keyOf, ss, u, k);
      }
    } else if keyOf(u) in m {
      StepExisting(keyOf, ss, keys, m, u);
    } else {
      StepNew(keyOf, ss, keys, m, u);
    }
  }

  /** A turn with the route's key stores a new entry under its own key and leaves the others' fields alone. */
  lemma StepLabelled(keys: seq<string>, m: map<string, ClassEntry>, u: UserRow)
    requires Labelled(m)
    ensures Labelled(Step(KeyOf(), keys, m, u).1)
  {
    if HasClass(u) {
      var key := Key(u);
      var m' := Step(KeyOf(), keys, m, u).1;
      assert key in m ==> m'[key] == m[key].(count := m[key].count + 1);
      assert key !in m ==> m'[key] == NewEntry(u).(count := 1);
      assert EntryKey(m'[key]) == key;
    }
  }

  /**
   * The class map after the `forEach` over `ss`, as the list of keys in
   * insertion order and the map. Each key belongs to the entry it stands for
   * and counts the students with that key, and the counts add up to the
   * number of counted students.
   */
  function Group(ss: seq<UserRow>): (g: (seq<string>, map<string, ClassEntry>))
    ensures Grouped(KeyOf(), ss, g.0, g.1) && Labelled(g.1)
    decreases |ss|
  {
    if ss == [] then ([], map[])
    else
      var init := ss[..|ss| - 1];
      var u := ss[|ss| - 1];
      assert init + [u] == ss;
      var g := Group(init);
      StepKeeps(KeyOf(), init, g.0, g.1, u);
      StepLabelled(g.0, g.1, u);
      Step(KeyOf(), g.0, g.1, u)
  }

  /** The comparator: by year (a missing one as 0), then branch, then division. */
  function ClassOrder(e: ClassEntry): Sorting.Key {
    [Sorting.Num(e.year.GetOr(0)), Sorting.Str(e.branch.GetOr("")), Sorting.Str(e.division.GetOr(""))]
  }

  /**
   * The `forEach` that fills `classMap`, then the sort of its values. The
   * result holds each class once, sorted, and its counts are all positive and
   * add up to the number of students with a class.
   */
  method Classes(students: seq<UserRow>) returns (classes: seq<ClassEntry>)
    ensures multiset(classes) == multiset(Values(Group(students).0, Group(students).1))
    ensures Sorting.Sorted(ClassOrder, false, classes)
    ensures forall k :: 0 <= k < |classes| ==> classes[k].count >= 1
    ensures Total(classes) == |Collections.Filter(students, HasClassTest())|
  {
    var keys, classMap := FillClassMap(students);
    var values := Values(keys, classMap);
    var a := new ClassEntry[|values|](j requires 0 <= j < |values| => values[j]);
    assert a[..] == values;
    Sorting.SortInPlace(a, ClassOrder, false);
    classes := a[..];
    SortedClassesCounted(KeyOf(), students, keys, classMap, classes);
  }

  /** Any rearrangement of a class map's values keeps every count positive and their sum. */
  lemma SortedClassesCounted(keyOf: UserRow -> string, ss: seq<UserRow>, keys: seq<string>, m: map<string, ClassEntry>,
                             classes: seq<ClassEntry>)
    requires Grouped(keyOf, ss, keys, m) && multiset(classes) == multiset(Values(keys, m))
    ensures forall k :: 0 <= k < |classes| ==> classes[k].count >= 1
    ensures Total(classes) == |Collections.Filter(ss, HasClassTest())|
  {
    var values := Values(keys, m);
    TotalPermutation(values, classes);
    forall k | 0 <= k < |classes| ensures classes[k].count >= 1 {
      assert classes[k] in multiset(values);
    }
  }

  /** The `forEach` over the students, filling the class map and its key order. */
  method FillClassMap(students: seq<UserRow>) returns (keys: seq<string>, classMap: map<string, ClassEntry>)
    ensures (keys, classMap) == Group(students)
  {
    keys := [];
    classMap := map[];
    for i := 0 to |students|
      invariant (keys, classMap) == Group(students[..i])
    {
      AddStudent(students, i);
      keys, classMap := CountStudent(keys, classMap, students[i]);
    }
    assert students[..|students|] == students;
  }

  /** The body of the `forEach`: create the entry when its key is new, then `count++`. */
  method CountStudent(keys: seq<string>, classMap: map<string, ClassEntry>, student: UserRow)
    returns (keys': seq<string>, classMap': map<string, ClassEntry>)
    ensures (keys', classMap') == Step(KeyOf(), keys, classMap, student)
  {
    keys', classMap' := keys, classMap;
    if HasClass(student) {
      var key := Key(student);
      if key !in classMap' {
        classMap' := classMap'[key := NewEntry(student)];
        keys' := keys' + [key];
      }
      classMap' := classMap'[key := classMap'[key].(count := classMap'[key].count + 1)];
      assert key !in classMap ==> classMap' == classMap[key := NewEntry(student).(count := 1)];
    }
  }

  lemma AddStudent(students: seq<UserRow>, i: int)
    requires 0 <= i < |students|
    ensures Group(students[..i + 1]) == Step(KeyOf(), Group(students[..i]).0, Group(students[..i]).1, students[i])
  {
    assert students[..i + 1][..i] == students[..i];
  }

  /** `GET`: teachers and admins get the lists; anyone else the guard's error. */
  method Get(current: Option<Auth.AuthUser>, users: seq<UserRow>) returns (r: ApiErrors.Response<ClassList>)
    ensures r.Success() <==> Auth.RequireTeacher(current).Ok?
    ensures !r.Success() ==> r == ApiErrors.ErrorHandler(Auth.RequireTeacher(current).error)
    ensures r.Success() ==> (var students := Collections.Filter(users, SelectedTest());
      && r.status == 200
      && r.data.branches == DistinctTexts(BranchColumn(students))
      && r.data.divisions == DistinctTexts(DivisionColumn(students))
      && r.data.years == Years(students)
      && multiset(r.data.classes) == multiset(Values(Group(students).0, Group(students).1))
      && Sorting.Sorted(ClassOrder, false, r.data.classes))
  {
    match Auth.RequireTeacher(current)
    case Throws(e) =>
      r := ApiErrors.ErrorHandler(e);
    case Ok(_) =>
      var students := Collections.Filter(users, SelectedTest());
      var classes := Classes(students);
      r := ApiErrors.SuccessResponse(
        ClassList(DistinctTexts(BranchColumn(students)), DistinctTexts(DivisionColumn(students)), Years(students), classes),
        None);
  }
}
