/**
 * The plagiarism score of an attempt (app/lib/plagiarism.ts): answers are
 * normalised, cut into character trigrams once the spaces are gone, and the
 * attempt's trigram set is compared by Jaccard similarity with that of every
 * other submitted attempt at the same exam; the score is the largest
 * percentage, rounded to one decimal.
 *
 * `Set<string>` becomes `set<string>`: the code only asks for membership and
 * sizes, so the insertion order of a JavaScript set plays no part. Numbers
 * are exact reals.
 */
module Plagiarism {
  import Text
  import Collections
  import Sorting
  import Records

  /** The gram length, the default `n = 3` of `ngrams`. */
  const N: nat := 3

  // ----- normalizeText -----

  /** `s.replace(/\s+/g, ' ')`: each run of characters matched by `\s` becomes one ' '. */
  function CollapseSpaces(s: string): string
    decreases |s|
  {
    if s == [] then []
    else if Text.IsSpace(s[0]) then " " + CollapseSpaces(Text.TrimStart(s[1..]))
    else [s[0]] + CollapseSpaces(s[1..])
  }

  /**
   * After collapsing, the only space left is ' ', no two stand side by side,
   * and the other characters are those of the input, in order.
   */
  lemma CollapseShape(s: string)
    ensures var r := CollapseSpaces(s);
      && (forall i :: 0 <= i < |r| ==> !Text.IsSpace(r[i]) || r[i] == ' ')
      && (forall i :: 0 <= i < |r| - 1 ==> !(r[i] == ' ' && r[i + 1] == ' '))
      && (r == [] <==> s == [])
      && (s != [] && Text.IsSpace(s[0]) ==> r[0] == ' ')
      && (s != [] && !Text.IsSpace(s[0]) ==> r[0] == s[0])
      && WithoutSpaces(r) == WithoutSpaces(s)
  {
    CollapsePlain(s);
    CollapseNoDouble(s);
    CollapseHead(s);
    CollapseKeepsText(s);
  }

  /** The rest of the input that `CollapseSpaces` works on after its first character. */
  function CollapseRest(s: string): string
    requires s != []
  {
    if Text.IsSpace(s[0]) then Text.TrimStart(s[1..]) else s[1..]
  }

  /** One step of `CollapseSpaces`: the first character, or ' ' for a run of spaces, then the rest collapsed. */
  lemma CollapseHead(s: string)
    ensures var r := CollapseSpaces(s);
      && (r == [] <==> s == [])
      && (s != [] ==> r == [if Text.IsSpace(s[0]) then ' ' else s[0]] + CollapseSpaces(CollapseRest(s)))
  {
  }

  lemma {:induction false} CollapsePlain(s: string)
    ensures var r := CollapseSpaces(s);
      forall i :: 0 <= i < |r| ==> !Text.IsSpace(r[i]) || r[i] == ' '
    decreases |s|
  {
    if s != [] {
      CollapseHead(s);
      CollapsePlain(CollapseRest(s));
    }
  }

  lemma {:induction false} CollapseNoDouble(s: string)
    ensures var r := CollapseSpaces(s);
      forall i :: 0 <= i < |r| - 1 ==> !(r[i] == ' ' && r[i + 1] == ' ')
    decreases |s|
  {
    if s != [] {
      var r := CollapseSpaces(s);
      var rest := CollapseRest(s);
      var t := CollapseSpaces(rest);
      CollapseHead(s);
      CollapseHead(rest);
      CollapseNoDouble(rest);
      assert t != [] && t[0] == ' ' ==> !Text.IsSpace(s[0]);
      forall i | 0 <= i < |r| - 1 ensures !(r[i] == ' ' && r[i + 1] == ' ') {
        if i > 0 {
          assert r[i] == t[i - 1] && r[i + 1] == t[i];
        }
      }
    }
  }

  lemma {:induction false} CollapseKeepsText(s: string)
    ensures WithoutSpaces(CollapseSpaces(s)) == WithoutSpaces(s)
    decreases |s|
  {
    if s != [] {
      var r := CollapseSpaces(s);
      var rest := CollapseRest(s);
      CollapseHead(s);
      CollapseKeepsText(rest);
      assert s == [s[0]] + s[1..];
      WithoutSpacesConcat([s[0]], s[1..]);
      WithoutSpacesConcat([r[0]], CollapseSpaces(rest));
      if Text.IsSpace(s[0]) {
        NoSpacesInFront(s[1..]);
      }
    }
  }

  /** `s.replace(/\s+/g, '')`: every character matched by `\s` removed. */
  function WithoutSpaces(s: string): (r: string)
    ensures |r| <= |s|
    ensures forall i :: 0 <= i < |r| ==> !Text.IsSpace(r[i])
    decreases |s|
  {
    if s == [] then [] else (if Text.IsSpace(s[0]) then [] else [s[0]]) + WithoutSpaces(s[1..])
  }

  lemma {:induction false} WithoutSpacesConcat(a: string, b: string)
    ensures WithoutSpaces(a + b) == WithoutSpaces(a) + WithoutSpaces(b)
    decreases |a|
  {
    if a != [] {
      var head := if Text.IsSpace(a[0]) then [] else [a[0]];
      assert (a + b)[0] == a[0];
      assert (a + b)[1..] == a[1..] + b;
      WithoutSpacesConcat(a[1..], b);
      calc {
        WithoutSpaces(a + b);
        head + WithoutSpaces(a[1..] + b);
        head + (WithoutSpaces(a[1..]) + WithoutSpaces(b));
        (head + WithoutSpaces(a[1..])) + WithoutSpaces(b);
        WithoutSpaces(a) + WithoutSpaces(b);
      }
    } else {
      assert a + b == b;
    }
  }

  /** The leading spaces dropped by `TrimStart` were only spaces. */
  lemma {:induction false} NoSpacesInFront(s: string)
    ensures WithoutSpaces(Text.TrimStart(s)) == WithoutSpaces(s)
    decreases |s|
  {
    if s != [] && Text.IsSpace(s[0]) {
      NoSpacesInFront(s[1..]);
    }
  }

  /** A character kept by `replace(/[^\w\s]/g, '')`. */
  predicate Kept(c: char) { Text.IsWordChar(c) || Text.IsSpace(c) }

  /** `s.replace(/[^\w\s]/g, '')`: every character that is neither a word character nor a space removed. */
  function StripPunctuation(s: string): (r: string)
    ensures forall i :: 0 <= i < |r| ==> Kept(r[i]) && r[i] in s
    decreases |s|
  {
    if s == [] then [] else (if Kept(s[0]) then [s[0]] else []) + StripPunctuation(s[1..])
  }

  /** A character of a normalised text: a lower-case word character or a plain space. */
  predicate NormalChar(c: char) {
    (Text.IsWordChar(c) && !Text.IsUpper(c)) || c == ' '
  }

  /** `normalizeText`. */
  function Normalize(s: string): string {
    Text.Trim(Text.Lower(StripPunctuation(CollapseSpaces(s))))
  }

  /**
   * A normalised text has no space at either end and holds only lower-case
   * word characters and plain spaces.
   */
  lemma NormalizeShape(s: string)
    ensures Text.Trimmed(Normalize(s))
    ensures forall i :: 0 <= i < |Normalize(s)| ==> NormalChar(Normalize(s)[i])
  {
    var collapsed := CollapseSpaces(s);
    CollapseShape(s);
    var stripped := StripPunctuation(collapsed);
    StripKeeps(collapsed);
    var lowered := Text.Lower(stripped);
    LowerNormal(stripped);
    TrimNormal(lowered);
  }

  /** Stripping keeps only kept characters, and adds no space other than ' '. */
  lemma StripKeeps(t: string)
    requires forall i :: 0 <= i < |t| ==> !Text.IsSpace(t[i]) || t[i] == ' '
    ensures var r := StripPunctuation(t);
      forall i :: 0 <= i < |r| ==> Kept(r[i]) && (!Text.IsSpace(r[i]) || r[i] == ' ')
  {
    var r := StripPunctuation(t);
    forall i | 0 <= i < |r| ensures Kept(r[i]) && (!Text.IsSpace(r[i]) || r[i] == ' ') {
      assert r[i] in t;
      var j :| 0 <= j < |t| && t[j] == r[i];
    }
  }

  /** Lower-casing such a text gives only normal characters. */
  lemma LowerNormal(t: string)
    requires forall i :: 0 <= i < |t| ==> Kept(t[i]) && (!Text.IsSpace(t[i]) || t[i] == ' ')
    ensures forall i :: 0 <= i < |Text.Lower(t)| ==> NormalChar(Text.Lower(t)[i])
  {
    Text.LowerChars(t);
    forall i | 0 <= i < |t| ensures NormalChar(Text.Lower(t)[i]) {
      LowerKept(t[i]);
    }
  }

  /** A kept character that is no space other than ' ' lower-cases to a normal character. */
  lemma LowerKept(c: char)
    requires Kept(c) && (!Text.IsSpace(c) || c == ' ')
    ensures NormalChar(Text.LowerChar(c))
  {
  }

  /** Trimming a text of normal characters leaves normal characters. */
  lemma TrimNormal(t: string)
    requires forall i :: 0 <= i < |t| ==> NormalChar(t[i])
    ensures forall i :: 0 <= i < |Text.Trim(t)| ==> NormalChar(Text.Trim(t)[i])
  {
    var a := Text.TrimStart(t);
    var b := Text.TrimEnd(a);
    Text.TrimStartSuffix(t);
    Text.TrimEndPrefix(a);
    forall i | 0 <= i < |b| ensures NormalChar(b[i]) {
      assert b[i] == a[i];
      assert a[i] == t[|t| - |a| + i];
    }
  }

  /** Punctuation between two spaces leaves a double space behind: `normalizeText("a , b")` is "a  b". */
  lemma DoubleSpaceRemains()
    ensures Normalize("a , b") == "a  b"
  {
    CollapseExample();
    StripExample();
    LowerTrimExample();
  }

  lemma CollapseExample()
    ensures CollapseSpaces("a , b") == "a , b"
  {
    var s := "a , b";
    assert forall i :: 0 <= i < |s| ==> !Text.IsSpace(s[i]) || s[i] == ' ';
    assert forall i :: 0 <= i < |s| - 1 ==> !(s[i] == ' ' && s[i + 1] == ' ');
    CollapseCollapsed(s);
  }

  /** A text with ' ' as its only space and no two side by side is left as it is. */
  lemma {:induction false} CollapseCollapsed(s: string)
    requires forall i :: 0 <= i < |s| ==> !Text.IsSpace(s[i]) || s[i] == ' '
    requires forall i :: 0 <= i < |s| - 1 ==> !(s[i] == ' ' && s[i + 1] == ' ')
    ensures CollapseSpaces(s) == s
    decreases |s|
  {
    if s != [] {
      var t := s[1..];
      assert forall i :: 0 <= i < |t| ==> !Text.IsSpace(t[i]) || t[i] == ' ' by {
        forall i | 0 <= i < |t| ensures !Text.IsSpace(t[i]) || t[i] == ' ' {
          assert t[i] == s[i + 1];
        }
      }
      assert forall i :: 0 <= i < |t| - 1 ==> !(t[i] == ' ' && t[i + 1] == ' ') by {
        forall i | 0 <= i < |t| - 1 ensures !(t[i] == ' ' && t[i + 1] == ' ') {
          assert t[i] == s[i + 1] && t[i + 1] == s[i + 2];
        }
      }
      CollapseCollapsed(t);
      CollapseHead(s);
      if Text.IsSpace(s[0]) {
        assert s[0] == ' ';
        assert t == [] || t[0] != ' ';
        assert Text.TrimStart(t) == t;
      }
      assert s == [s[0]] + t;
    }
  }

  /** Collapsing twice is collapsing once. */
  lemma CollapseIdempotent(s: string)
    ensures CollapseSpaces(CollapseSpaces(s)) == CollapseSpaces(s)
  {
    CollapseShape(s);
    CollapseCollapsed(CollapseSpaces(s));
  }

  lemma StripExample()
    ensures StripPunctuation("a , b") == "a  b"
  {
    StripCons('b', "");
    StripCons(' ', "b");
    StripCons(',', " b");
    StripCons(' ', ", b");
    StripCons('a', " , b");
  }

  /** One step of `StripPunctuation`. */
  lemma StripCons(c: char, s: string)
    ensures StripPunctuation([c] + s) == (if Kept(c) then [c] else []) + StripPunctuation(s)
  {
    assert ([c] + s)[1..] == s;
  }

  lemma LowerTrimExample()
    ensures Text.Trim(Text.Lower("a  b")) == "a  b"
  {
    LowerPlain("a  b");
    Text.TrimOfTrimmed("a  b");
  }

  lemma LowerPlain(t: string)
    requires forall i :: 0 <= i < |t| ==> !Text.IsUpper(t[i])
    ensures Text.Lower(t) == t
  {
  }

  // ----- ngrams -----

  /** `joined.slice(i, i + 3)`. */
  function Gram(joined: string, i: nat): string
    requires i + N <= |joined|
  {
    joined[i..i + N]
  }

  /** The grams `joined.slice(i, i + 3)` for `i < k`. */
  function Windows(joined: string, k: nat): set<string>
    requires k + N - 1 <= |joined|
  {
    if k == 0 then {} else Windows(joined, k - 1) + {Gram(joined, k - 1)}
  }

  /** The set `ngrams(text)` returns. */
  function GramsOf(joined: string): set<string> {
    if |joined| <= N then {joined} else Windows(joined, |joined| - N + 1)
  }

  /** The joined text `ngrams` cuts into grams. */
  function Joined(text: string): string {
    WithoutSpaces(Normalize(text))
  }

  function NGramsOf(text: string): set<string> {
    GramsOf(Joined(text))
  }

  /** A gram of the first `k` windows is one of them, and each has length 3. */
  lemma {:induction false} WindowsShape(joined: string, k: nat)
    requires k + N - 1 <= |joined|
    ensures |Windows(joined, k)| <= k
    ensures forall g :: g in Windows(joined, k) <==> exists i :: 0 <= i < k && Gram(joined, i) == g
    ensures forall g :: g in Windows(joined, k) ==> |g| == N
  {
    if k > 0 {
      WindowsShape(joined, k - 1);
      var w := Windows(joined, k - 1);
      var x := Gram(joined, k - 1);
      assert Windows(joined, k) == w + {x};
      forall g ensures g in Windows(joined, k) <==> exists i :: 0 <= i < k && Gram(joined, i) == g {
        if g in w {
          var i :| 0 <= i < k - 1 && Gram(joined, i) == g;
          assert 0 <= i < k;
        } else if g != x {
          assert forall i :: 0 <= i < k - 1 ==> Gram(joined, i) != g;
        }
      }
    }
  }

  /**
   * A joined text of at most 3 characters is its only gram (even ""); a
   * longer one gives exactly its substrings of length 3, at most len - 2 of them.
   */
  lemma GramsShape(j: string)
    ensures |j| <= N ==> GramsOf(j) == {j}
    ensures |j| > N ==> (
        && |GramsOf(j)| <= |j| - N + 1
        && (forall g :: g in GramsOf(j) ==> |g| == N)
        && (forall g :: g in GramsOf(j) <==> exists i :: 0 <= i <= |j| - N && Gram(j, i) == g))
  {
    if |j| > N {
      WindowsShape(j, |j| - N + 1);
    }
  }

  /** `ngrams(text)`. */
  method NGrams(text: string) returns (grams: set<string>)
    ensures grams == NGramsOf(text)
  {
    var t := Normalize(text);
    var joined := WithoutSpaces(t);
    grams := CutGrams(joined);
  }

  /** The part of `ngrams` after the spaces are removed. */
  method CutGrams(joined: string) returns (grams: set<string>)
    ensures grams == GramsOf(joined)
  {
    if |joined| <= N {
      grams := {joined};
      return;
    }
    grams := {};
    var i := 0;
    while i + N <= |joined|
      invariant i + N - 1 <= |joined|
      invariant grams == Windows(joined, i)
    {
      grams := grams + {joined[i..i + N]};
      assert joined[i..i + N] == Gram(joined, i);
      i := i + 1;
    }
  }

  // ----- jaccard -----

  /** `jaccard(a, b)`: shared grams over all grams, 0 for two empty sets. */
  function Similarity(a: set<string>, b: set<string>): real {
    if |a| == 0 && |b| == 0 then 0.0 else (|a * b| as real) / (|a + b| as real)
  }

  method Jaccard(a: set<string>, b: set<string>) returns (r: real)
    ensures r == Similarity(a, b)
  {
    if |a| == 0 && |b| == 0 {
      return 0.0;
    }
    var inter: set<string> := {};
    var rest := a;
    while rest != {}
      invariant rest <= a
      invariant inter == (a - rest) * b
      decreases |rest|
    {
      var x :| x in rest;
      if x in b {
        inter := inter + {x};
      }
      rest := rest - {x};
    }
    assert a - rest == a;
    var union := a + b;
    r := (|inter| as real) / (|union| as real);
  }

  lemma SubsetSize(x: set<string>, y: set<string>)
    requires x <= y
    ensures |x| <= |y|
  {
    assert y == x + (y - x);
  }

  lemma RatioAtMostOne(x: real, y: real)
    requires 0.0 <= x <= y && y > 0.0
    ensures 0.0 <= x / y <= 1.0
  {
  }

  /** The similarity is symmetric and lies between 0 and 1. */
  lemma SimilarityBounds(a: set<string>, b: set<string>)
    ensures Similarity(a, b) == Similarity(b, a)
    ensures 0.0 <= Similarity(a, b) <= 1.0
  {
    assert a * b == b * a && a + b == b + a;
    if !(|a| == 0 && |b| == 0) {
      SubsetSize(a * b, a + b);
      if a != {} { SubsetSize(a, a + b); } else { SubsetSize(b, a + b); }
      RatioAtMostOne(|a * b| as real, |a + b| as real);
    }
  }

  /** Two empty sets score 0; two equal non-empty sets score 1. */
  lemma SimilarityExtremes(a: set<string>, b: set<string>)
    ensures a == {} && b == {} ==> Similarity(a, b) == 0.0
    ensures a == b && a != {} ==> Similarity(a, b) == 1.0
  {
    if a == b && a != {} {
      assert a * b == a && a + b == a;
    }
  }

  /** Two answers that both normalise to "" both give the gram set {""}, so they match fully. */
  lemma EmptyAnswersMatch(x: string, y: string)
    requires Normalize(x) == "" && Normalize(y) == ""
    ensures NGramsOf(x) == {""} && NGramsOf(y) == {""}
    ensures Similarity(NGramsOf(x), NGramsOf(y)) == 1.0
  {
    EmptyAnswerGrams(x);
    EmptyAnswerGrams(y);
    SimilarityExtremes({""}, {""});
  }

  lemma EmptyAnswerGrams(x: string)
    requires Normalize(x) == ""
    ensures NGramsOf(x) == {""}
  {
    EmptyJoined(x);
  }

  lemma EmptyJoined(x: string)
    requires Normalize(x) == ""
    ensures Joined(x) == ""
  {
  }

  // ----- computePlagiarismForAttempt -----

  /** A stored answer: a JSON string, or another JSON value with the text `JSON.stringify` gives it. */
  datatype AnswerValue = JsonText(s: string) | JsonOther(serialized: string)

  /** `typeof a === 'string' ? a : JSON.stringify(a)`. */
  function AnswerText(v: AnswerValue): string {
    match v
    case JsonText(s) => s
    case JsonOther(serialized) => serialized
  }

  /** An answer row joined with the exam, student and status of its attempt. */
  datatype AnswerRow = AnswerRow(
    attemptId: string, questionId: string, answer: AnswerValue,
    examId: string, studentId: string, status: Records.AttemptStatus)

  datatype Match = Match(attemptId: string, percent: real)

  datatype Report = Report(plagiarismPercent: real, matches: seq<Match>, ownNgrams: nat)

  /** The first query: this attempt's answers to the listed questions. */
  predicate Own(r: AnswerRow, attemptId: string, questionIds: seq<string>) {
    r.attemptId == attemptId && r.questionId in questionIds
  }

  /** The second query: the answers of other students' submitted attempts at the exam. */
  predicate Other(r: AnswerRow, examId: string, questionIds: seq<string>, studentId: string) {
    r.questionId in questionIds && r.examId == examId && r.studentId != studentId && r.status == Records.SUBMITTED
  }

  /** `orderBy: { attemptId: 'asc' }`. */
  function AttemptOrder(r: AnswerRow): Sorting.Key { [Sorting.Str(r.attemptId)] }

  function OtherRows(answers: seq<AnswerRow>, examId: string, questionIds: seq<string>, studentId: string): seq<AnswerRow> {
    Sorting.SortBy(AttemptOrder, false, Collections.Filter(answers, (r: AnswerRow) => Other(r, examId, questionIds, studentId)))
  }

  function Texts(rows: seq<AnswerRow>): (r: seq<string>)
    ensures |r| == |rows| && forall k :: 0 <= k < |rows| ==> r[k] == AnswerText(rows[k].answer)
  {
    seq(|rows|, k requires 0 <= k < |rows| => AnswerText(rows[k].answer))
  }

  function OwnText(answers: seq<AnswerRow>, attemptId: string, questionIds: seq<string>): string {
    Text.Join(Texts(Collections.Filter(answers, (r: AnswerRow) => Own(r, attemptId, questionIds))), " ")
  }

  function AttemptIds(rows: seq<AnswerRow>): (r: seq<string>)
    ensures |r| == |rows| && forall k :: 0 <= k < |rows| ==> r[k] == rows[k].attemptId
  {
    seq(|rows|, k requires 0 <= k < |rows| => rows[k].attemptId)
  }

  /** The texts of the rows of attempt `id`, in row order. */
  function TextsOf(rows: seq<AnswerRow>, id: string): seq<string>
    decreases |rows|
  {
    if rows == [] then []
    else
      var last := rows[|rows| - 1];
      TextsOf(rows[..|rows| - 1], id) + (if last.attemptId == id then [AnswerText(last.answer)] else [])
  }

  /**
   * The record `grouped` after the rows `rows`, with `keys` its keys in the
   * order `Object.entries` lists them (insertion order; attempt ids are cuids,
   * never integer-like keys): one key per attempt, in order of first
   * appearance, holding that attempt's texts.
   */
  ghost predicate GroupedFrom(rows: seq<AnswerRow>, keys: seq<string>, grouped: map<string, seq<string>>) {
    && keys == Collections.Dedupe(AttemptIds(rows))
    && (forall id :: id in grouped <==> id in keys)
    && (forall id :: id in grouped ==> grouped[id] == TextsOf(rows, id))
  }

  /** Every key of a grouped record holds its attempt's texts. */
  lemma GroupedKeys(rows: seq<AnswerRow>, keys: seq<string>, grouped: map<string, seq<string>>)
    requires GroupedFrom(rows, keys, grouped)
    ensures forall k :: 0 <= k < |keys| ==> keys[k] in grouped && grouped[keys[k]] == TextsOf(rows, keys[k])
  {
  }

  /** The record after the loop body for `row`: the key created when missing, then the text pushed. */
  function Pushed(grouped: map<string, seq<string>>, row: AnswerRow): map<string, seq<string>> {
    var created := if row.attemptId in grouped then grouped else grouped[row.attemptId := []];
    created[row.attemptId := created[row.attemptId] + [AnswerText(row.answer)]]
  }

  /** The key list after the loop body for `row`. */
  function PushedKeys(keys: seq<string>, grouped: map<string, seq<string>>, row: AnswerRow): seq<string> {
    if row.attemptId in grouped then keys else keys + [row.attemptId]
  }

  /** Pushing one more row's text keeps the record grouped. */
  lemma AddRowKeeps(rows: seq<AnswerRow>, keys: seq<string>, grouped: map<string, seq<string>>, row: AnswerRow)
    requires GroupedFrom(rows, keys, grouped)
    ensures GroupedFrom(rows + [row], PushedKeys(keys, grouped, row), Pushed(grouped, row))
  {
    AddRowKeys(rows, row);
    AddRowMembers(keys, grouped, row);
    AddRowTexts(rows, grouped, row);
  }

  lemma AddRowMembers(keys: seq<string>, grouped: map<string, seq<string>>, row: AnswerRow)
    requires forall id :: id in grouped <==> id in keys
    ensures forall x :: x in Pushed(grouped, row) <==> x in PushedKeys(keys, grouped, row)
  {
  }

  lemma AddRowKeys(rows: seq<AnswerRow>, row: AnswerRow)
    ensures var ids := AttemptIds(rows);
      Collections.Dedupe(AttemptIds(rows + [row]))
      == if row.attemptId in ids then Collections.Dedupe(ids) else Collections.Dedupe(ids) + [row.attemptId]
  {
    assert AttemptIds(rows + [row]) == AttemptIds(rows) + [row.attemptId];
    Collections.DedupeAppend(AttemptIds(rows), row.attemptId);
  }

  lemma AddRowTexts(rows: seq<AnswerRow>, grouped: map<string, seq<string>>, row: AnswerRow)
    requires forall id :: id in grouped ==> grouped[id] == TextsOf(rows, id)
    requires row.attemptId in grouped <==> row.attemptId in AttemptIds(rows)
    ensures forall x :: x in Pushed(grouped, row) ==> Pushed(grouped, row)[x] == TextsOf(rows + [row], x)
  {
    var id := row.attemptId;
    var rows' := rows + [row];
    assert rows'[..|rows|] == rows && rows'[|rows'| - 1] == row;
    if id !in grouped {
      TextsOfAbsent(rows, id);
    }
  }

  /** An attempt without rows has no texts. */
  lemma {:induction false} TextsOfAbsent(rows: seq<AnswerRow>, id: string)
    requires id !in AttemptIds(rows)
    ensures TextsOf(rows, id) == []
    decreases |rows|
  {
    if rows != [] {
      assert AttemptIds(rows[..|rows| - 1]) == AttemptIds(rows)[..|rows| - 1];
      TextsOfAbsent(rows[..|rows| - 1], id);
    }
  }

  /** The grouping loop over the other attempts' rows. */
  method GroupByAttempt(rows: seq<AnswerRow>) returns (keys: seq<string>, grouped: map<string, seq<string>>)
    ensures GroupedFrom(rows, keys, grouped)
  {
    keys, grouped := [], map[];
    for i := 0 to |rows|
      invariant GroupedFrom(rows[..i], keys, grouped)
    {
      var row := rows[i];
      assert rows[..i + 1] == rows[..i] + [row];
      AddRowKeeps(rows[..i], keys, grouped, row);
      if row.attemptId !in grouped {
        grouped := grouped[row.attemptId := []];
        keys := keys + [row.attemptId];
      }
      grouped := grouped[row.attemptId := grouped[row.attemptId] + [AnswerText(row.answer)]];
    }
    assert rows[..|rows|] == rows;
  }

  /** `Math.round(x)`: the nearest integer, halves rounded up. */
  function Round(x: real): int {
    (x + 0.5).Floor
  }

  /** `Math.round(sim * 100 * 10) / 10`: the similarity as a percentage with one decimal. */
  function Percent(sim: real): real {
    (Round(sim * 100.0 * 10.0) as real) / 10.0
  }

  /** A similarity between 0 and 1 gives a percentage between 0 and 100, which rounding to one decimal again keeps. */
  lemma PercentBounds(sim: real)
    requires 0.0 <= sim <= 1.0
    ensures 0.0 <= Percent(sim) <= 100.0
    ensures (Round(Percent(sim) * 10.0) as real) / 10.0 == Percent(sim)
  {
    var n := Round(sim * 100.0 * 10.0);
    assert 0 <= n <= 1000 by {
      assert sim * 100.0 * 10.0 + 0.5 < 1001.0;
    }
    assert Percent(sim) * 10.0 == n as real;
    assert Round(n as real) == n;
  }

  /** The entry of `matches` for attempt `id` with the answer texts `texts`. */
  function MatchFor(ownGrams: set<string>, id: string, texts: seq<string>): Match {
    Match(id, Percent(Similarity(ownGrams, NGramsOf(Text.Join(texts, " ")))))
  }

  /** `x` has at most one decimal: rounding it to one decimal changes nothing. */
  predicate OneDecimal(x: real) {
    (Round(x * 10.0) as real) / 10.0 == x
  }

  /** A percentage `matches` may hold: between 0 and 100, with at most one decimal. */
  predicate InRange(m: Match) {
    0.0 <= m.percent <= 100.0 && OneDecimal(m.percent)
  }

  predicate AllInRange(ms: seq<Match>) {
    forall k :: 0 <= k < |ms| ==> InRange(ms[k])
  }

  /** The entry of `matches` for an attempt id, its texts taken from the rows. */
  function MatchOf(ownGrams: set<string>, others: seq<AnswerRow>): string -> Match {
    id => MatchFor(ownGrams, id, TextsOf(others, id))
  }

  /** The entries of `matches` for the attempts `ids`, in that order. */
  function MatchesFor(ownGrams: set<string>, ids: seq<string>, others: seq<AnswerRow>): (r: seq<Match>)
    ensures |r| == |ids|
  {
    Collections.MapSeq(ids, MatchOf(ownGrams, others))
  }

  /** The `k`-th entry belongs to the `k`-th attempt. */
  lemma MatchesForAt(ownGrams: set<string>, ids: seq<string>, others: seq<AnswerRow>, k: nat)
    requires k < |ids|
    ensures MatchesFor(ownGrams, ids, others)[k] == MatchFor(ownGrams, ids[k], TextsOf(others, ids[k]))
  {
    assert Collections.MapSeq(ids, MatchOf(ownGrams, others))[k] == MatchOf(ownGrams, others)(ids[k]);
  }

  /** `maxPercent` after the loop over `ms`: it starts at 0 and takes any larger percent. */
  function MaxPercent(ms: seq<Match>): real
    decreases |ms|
  {
    if ms == [] then 0.0
    else
      var m := MaxPercent(ms[..|ms| - 1]);
      if ms[|ms| - 1].percent > m then ms[|ms| - 1].percent else m
  }

  /** With no negative percent, `maxPercent` is the largest one, and 0 for no match. */
  lemma {:induction false} MaxPercentIsLargest(ms: seq<Match>)
    requires forall k :: 0 <= k < |ms| ==> ms[k].percent >= 0.0
    ensures forall k :: 0 <= k < |ms| ==> ms[k].percent <= MaxPercent(ms)
    ensures ms == [] ==> MaxPercent(ms) == 0.0
    ensures ms != [] ==> exists k :: 0 <= k < |ms| && ms[k].percent == MaxPercent(ms)
    decreases |ms|
  {
    if ms != [] {
      var init := ms[..|ms| - 1];
      MaxPercentIsLargest(init);
      if init == [] {
        assert ms[0].percent == MaxPercent(ms);
      } else if ms[|ms| - 1].percent <= MaxPercent(init) {
        var k :| 0 <= k < |init| && init[k].percent == MaxPercent(init);
        assert ms[k] == init[k];
      }
    }
  }

  /** One turn of the comparison loop: the percentage for one other attempt. */
  method CompareOne(ownGrams: set<string>, otherAttemptId: string, texts: seq<string>) returns (m: Match)
    ensures m == MatchFor(ownGrams, otherAttemptId, texts)
    ensures InRange(m)
  {
    var otherText := Text.Join(texts, " ");
    var otherGrams := NGrams(otherText);
    var sim := Jaccard(ownGrams, otherGrams);
    SimilarityBounds(ownGrams, otherGrams);
    PercentBounds(sim);
    var percent := (Round(sim * 100.0 * 10.0) as real) / 10.0;
    m := Match(otherAttemptId, percent);
  }

  /** The comparison loop over the grouped attempts. */
  method CompareAll(ownGrams: set<string>, others: seq<AnswerRow>, keys: seq<string>, grouped: map<string, seq<string>>)
    returns (matches: seq<Match>, maxPercent: real)
    requires forall k :: 0 <= k < |keys| ==> keys[k] in grouped && grouped[keys[k]] == TextsOf(others, keys[k])
    ensures matches == MatchesFor(ownGrams, keys, others)
    ensures AllInRange(matches)
    ensures maxPercent == MaxPercent(matches)
  {
    matches := [];
    maxPercent := 0.0;
    for i := 0 to |keys|
      invariant matches == MatchesFor(ownGrams, keys[..i], others)
      invariant AllInRange(matches)
      invariant maxPercent == MaxPercent(matches)
    {
      var texts := grouped[keys[i]];
      assert texts == TextsOf(others, keys[i]);
      var m := CompareOne(ownGrams, keys[i], texts);
      CompareStep(ownGrams, others, keys, i, matches, m);
      matches := matches + [m];
      if m.percent > maxPercent {
        maxPercent := m.percent;
      }
    }
    assert keys[..|keys|] == keys;
  }

  /** One turn of the loop extends the matches of the keys so far by the next key's match. */
  lemma CompareStep(ownGrams: set<string>, others: seq<AnswerRow>, keys: seq<string>, i: int, matches: seq<Match>, m: Match)
    requires 0 <= i < |keys|
    requires matches == MatchesFor(ownGrams, keys[..i], others) && AllInRange(matches)
    requires m == MatchFor(ownGrams, keys[i], TextsOf(others, keys[i])) && InRange(m)
    ensures matches + [m] == MatchesFor(ownGrams, keys[..i + 1], others) && AllInRange(matches + [m])
    ensures MaxPercent(matches + [m]) == if m.percent > MaxPercent(matches) then m.percent else MaxPercent(matches)
  {
    Collections.MapSeqSnoc(keys, MatchOf(ownGrams, others), i);
    assert (matches + [m])[..|matches|] == matches;
  }

  /** `Math.round(maxPercent * 10) / 10`: the score is the largest percentage, 0 without any. */
  method FinalPercent(matches: seq<Match>, maxPercent: real) returns (p: real)
    requires AllInRange(matches)
    requires maxPercent == MaxPercent(matches)
    ensures forall k :: 0 <= k < |matches| ==> 0.0 <= matches[k].percent <= p <= 100.0
    ensures matches == [] ==> p == 0.0
    ensures matches != [] ==> exists k :: 0 <= k < |matches| && matches[k].percent == p
  {
    MaxPercentIsLargest(matches);
    assert OneDecimal(maxPercent) by {
      if matches == [] {
        assert Round(0.0) == 0;
      } else {
        var k :| 0 <= k < |matches| && matches[k].percent == maxPercent;
      }
    }
    p := (Round(maxPercent * 10.0) as real) / 10.0;
  }

  /**
   * `computePlagiarismForAttempt`: one match per other submitted attempt, in
   * the order of the sorted rows, and the largest percentage as the score, 0
   * when there is no other attempt.
   */
  method ComputePlagiarism(
    attemptId: string, examId: string, shortQuestionIds: seq<string>, studentId: string, answers: seq<AnswerRow>)
    returns (r: Report)
    ensures var others := OtherRows(answers, examId, shortQuestionIds, studentId);
      var ownGrams := NGramsOf(OwnText(answers, attemptId, shortQuestionIds));
      && r.ownNgrams == |ownGrams|
      && r.matches == MatchesFor(ownGrams, Collections.Dedupe(AttemptIds(others)), others)
    ensures forall k :: 0 <= k < |r.matches| ==> 0.0 <= r.matches[k].percent <= r.plagiarismPercent <= 100.0
    ensures r.matches == [] ==> r.plagiarismPercent == 0.0
    ensures r.matches != [] ==> exists k :: 0 <= k < |r.matches| && r.matches[k].percent == r.plagiarismPercent
  {
    var ownText := OwnText(answers, attemptId, shortQuestionIds);
    var ownGrams := NGrams(ownText);
    var others := OtherRows(answers, examId, shortQuestionIds, studentId);
    var keys, grouped := GroupByAttempt(others);
    GroupedKeys(others, keys, grouped);
    var matches, maxPercent := CompareAll(ownGrams, others, keys, grouped);
    var plagiarismPercent := FinalPercent(matches, maxPercent);
    r := Report(plagiarismPercent, matches, |ownGrams|);
  }
}
