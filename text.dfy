/**
 * String helpers shared by the model: the few `String.prototype` operations the
 * application relies on (toLowerCase restricted to ASCII, includes, startsWith,
 * split on one character, join, trim) and the `<` comparison of two strings.
 */
module Text {
  import opened Wrappers

  /** ASCII upper-case letter. */
  predicate IsUpper(c: char) { 'A' <= c <= 'Z' }

  /** ASCII lower-case letter. */
  predicate IsLowerLetter(c: char) { 'a' <= c <= 'z' }

  predicate IsDigit(c: char) { '0' <= c <= '9' }

  /** A word character of a regular expression, `\w`, i.e. `[A-Za-z0-9_]`. */
  predicate IsWordChar(c: char) { IsUpper(c) || IsLowerLetter(c) || IsDigit(c) || c == '_' }

  /** The characters matched by `\s` and removed by `trim()` (WhiteSpace and LineTerminator). */
  predicate IsSpace(c: char) {
    c == ' ' || ('\t' <= c <= '\r') || (c >= '\U{00A0}' && IsWideSpace(c))
  }

  /** The spaces of `\s` beyond ASCII. */
  predicate IsWideSpace(c: char) {
    c == '\U{00A0}' || c == '\U{1680}' || ('\U{2000}' <= c <= '\U{200A}')
    || c == '\U{2028}' || c == '\U{2029}' || c == '\U{202F}' || c == '\U{205F}'
    || c == '\U{3000}' || c == '\U{FEFF}'
  }

  function LowerChar(c: char): (r: char)
    ensures !IsUpper(r)
    ensures IsUpper(c) ==> r as int == c as int + 32
    ensures !IsUpper(c) ==> r == c
  {
    if IsUpper(c) then (c as int + 32) as char else c
  }

  /** `toLowerCase()` on ASCII; every other character is kept. */
  function Lower(s: string): (r: string)
    ensures |r| == |s|
  {
    if s == [] then [] else [LowerChar(s[0])] + Lower(s[1..])
  }

  /** Lower-casing works character by character. */
  lemma {:induction false} LowerChars(s: string)
    ensures forall i :: 0 <= i < |s| ==> Lower(s)[i] == LowerChar(s[i])
    decreases |s|
  {
    if s != [] {
      LowerChars(s[1..]);
      forall i | 1 <= i < |s| ensures Lower(s)[i] == LowerChar(s[i]) {
        assert Lower(s)[i] == Lower(s[1..])[i - 1];
      }
    }
  }

  lemma {:induction false} LowerConcat(a: string, b: string)
    ensures Lower(a + b) == Lower(a) + Lower(b)
  {
    var l, r := Lower(a + b), Lower(a) + Lower(b);
    LowerChars(a + b);
    LowerChars(a);
    LowerChars(b);
    assert |l| == |r|;
    forall i | 0 <= i < |l| ensures l[i] == r[i] {
      if i < |a| { assert (a + b)[i] == a[i]; } else { assert (a + b)[i] == b[i - |a|]; }
    }
  }

  lemma LowerIdempotent(s: string)
    ensures Lower(Lower(s)) == Lower(s)
  {
    var l := Lower(Lower(s));
    LowerChars(s);
    LowerChars(Lower(s));
    assert forall i :: 0 <= i < |s| ==> l[i] == Lower(s)[i];
  }

  /** `sub` stands in `s` starting at index `i`. */
  predicate OccursAt(s: string, sub: string, i: int) {
    0 <= i && i + |sub| <= |s| && s[i..i + |sub|] == sub
  }

  /** `s.includes(sub)`: `sub` occurs in `s` as a contiguous piece. */
  predicate Contains(s: string, sub: string) {
    exists i | 0 <= i <= |s| :: OccursAt(s, sub, i)
  }

  lemma ContainsEmpty(s: string)
    ensures Contains(s, "")
  {
    assert OccursAt(s, "", 0);
  }

  lemma ContainsSelf(s: string)
    ensures Contains(s, s)
  {
    assert OccursAt(s, s, 0);
  }

  /** `s.startsWith(p)`. */
  predicate StartsWith(s: string, p: string) { |p| <= |s| && s[..|p|] == p }

  /** A prefix of a prefix of `s` is a prefix of `s`. */
  lemma PrefixOfPrefix(s: string, p: string, q: string)
    ensures StartsWith(s, p) && StartsWith(p, q) ==> StartsWith(s, q)
  {
    if StartsWith(s, p) && StartsWith(p, q) {
      assert s[..|q|] == s[..|p|][..|q|];
    }
  }

  /** A character inside a prefix of `s` is the character of `s`. */
  lemma CharOfPrefix(s: string, p: string, i: int)
    ensures |p| <= |s| && s[..|p|] == p && 0 <= i < |p| ==> s[i] == p[i]
  {
    if |p| <= |s| && s[..|p|] == p && 0 <= i < |p| {
      assert s[..|p|][i] == s[i];
    }
  }

  /** The characters of a concatenation: those of the front, then those of the back. */
  lemma CharOfConcat(x: string, y: string, i: int)
    ensures 0 <= i < |x| ==> (x + y)[i] == x[i] && x[i] in x
    ensures |x| <= i < |x| + |y| ==> (x + y)[i] == y[i - |x|]
  {
  }

  /** A character of a suffix of `s` is the character of `s` at the matching position. */
  lemma CharOfSuffix(s: string, p: string, i: int)
    ensures |p| <= |s| && p == s[|s| - |p|..] && 0 <= i < |p| ==> p[i] == s[|s| - |p| + i] && p[i] in p
  {
  }

  /** Case-insensitive `includes` as the pages write it: both sides lower-cased. */
  predicate ContainsIgnoreCase(s: string, term: string) { Contains(Lower(s), Lower(term)) }

  /** `s.split(c)` for a one-character separator: never empty, "" gives [""]. */
  function Split(s: string, c: char): (r: seq<string>)
    ensures |r| >= 1
    ensures forall k :: 0 <= k < |r| ==> c !in r[k]
  {
    if s == [] then [""]
    else
      var rest := Split(s[1..], c);
      if s[0] == c then [""] + rest else [[s[0]] + rest[0]] + rest[1..]
  }

  /** `parts.join(sep)`. */
  function Join(parts: seq<string>, sep: string): string {
    if parts == [] then ""
    else if |parts| == 1 then parts[0]
    else parts[0] + sep + Join(parts[1..], sep)
  }

  /** Splitting on a character and joining with it gives the string back. */
  lemma {:induction false} JoinSplit(s: string, c: char)
    ensures Join(Split(s, c), [c]) == s
  {
    if s != [] {
      JoinSplit(s[1..], c);
      var rest := Split(s[1..], c);
      if s[0] == c {
        assert Join([""] + rest, [c]) == "" + [c] + Join(rest, [c]);
      } else {
        var r := [[s[0]] + rest[0]] + rest[1..];
        if |rest| == 1 {
          assert r == [[s[0]] + rest[0]];
        } else {
          assert r[1..] == rest[1..];
          assert Join(rest, [c]) == rest[0] + [c] + Join(rest[1..], [c]);
        }
      }
    }
  }

  /** The first piece of a split is the text before the first separator. */
  lemma {:induction false} SplitFirst(s: string, c: char)
    ensures var p := Split(s, c)[0];
      |p| <= |s| && p == s[..|p|] && c !in p && (|p| == |s| || s[|p|] == c)
  {
    if s != [] && s[0] != c {
      SplitFirst(s[1..], c);
    }
  }

  /** A string without the separator splits into itself alone. */
  lemma {:induction false} SplitWithoutSeparator(a: string, c: char)
    requires c !in a
    ensures Split(a, c) == [a]
  {
    if a != [] {
      SplitWithoutSeparator(a[1..], c);
      assert [a[0]] + a[1..] == a;
    }
  }

  /** Text before the first separator becomes the first piece. */
  lemma {:induction false} SplitAfterFirst(a: string, b: string, c: char)
    requires c !in a
    ensures Split(a + [c] + b, c) == [a] + Split(b, c)
  {
    var s := a + [c] + b;
    if a == [] {
      assert s[1..] == b;
    } else {
      assert s[1..] == a[1..] + [c] + b;
      SplitAfterFirst(a[1..], b, c);
      assert [a[0]] + a[1..] == a;
    }
  }

  /** Joining pieces free of the separator and splitting again gives the pieces back. */
  lemma {:induction false} SplitJoin(parts: seq<string>, c: char)
    requires |parts| >= 1
    requires forall k :: 0 <= k < |parts| ==> c !in parts[k]
    ensures Split(Join(parts, [c]), c) == parts
    decreases |parts|
  {
    if |parts| == 1 {
      SplitWithoutSeparator(parts[0], c);
    } else {
      SplitJoin(parts[1..], c);
      SplitAfterFirst(parts[0], Join(parts[1..], [c]), c);
      assert [parts[0]] + parts[1..] == parts;
    }
  }

  /** A character in neither the pieces nor the separator is not in their join. */
  lemma {:induction false} JoinWithout(parts: seq<string>, sep: string, c: char)
    requires c !in sep
    requires forall k :: 0 <= k < |parts| ==> c !in parts[k]
    ensures c !in Join(parts, sep)
    decreases |parts|
  {
    if |parts| > 1 {
      JoinWithout(parts[1..], sep, c);
    }
  }

  /** Leading characters matched by `\s` removed. */
  function TrimStart(s: string): (r: string)
    ensures |r| <= |s|
    ensures r == [] || !IsSpace(r[0])
  {
    if s != [] && IsSpace(s[0]) then TrimStart(s[1..]) else s
  }

  /** Trailing characters matched by `\s` removed. */
  function TrimEnd(s: string): (r: string)
    ensures |r| <= |s|
    ensures r == [] || !IsSpace(r[|r| - 1])
  {
    if s != [] && IsSpace(s[|s| - 1]) then TrimEnd(s[..|s| - 1]) else s
  }

  /** What `TrimStart` leaves is a suffix of its input. */
  lemma {:induction false} TrimStartSuffix(s: string)
    ensures TrimStart(s) == s[|s| - |TrimStart(s)|..]
    decreases |s|
  {
    if s != [] && IsSpace(s[0]) {
      TrimStartSuffix(s[1..]);
      assert s[1..][|s[1..]| - |TrimStart(s)|..] == s[|s| - |TrimStart(s)|..];
    }
  }

  /** What `TrimEnd` leaves is a prefix of its input. */
  lemma {:induction false} TrimEndPrefix(s: string)
    ensures TrimEnd(s) == s[..|TrimEnd(s)|]
    decreases |s|
  {
    if s != [] && IsSpace(s[|s| - 1]) {
      TrimEndPrefix(s[..|s| - 1]);
      assert s[..|s| - 1][..|TrimEnd(s)|] == s[..|TrimEnd(s)|];
    }
  }

  /** `trim()`. */
  function Trim(s: string): (r: string)
    ensures Trimmed(r)
  {
    TrimEndPrefix(TrimStart(s));
    TrimEnd(TrimStart(s))
  }

  /** No space at either end. */
  predicate Trimmed(s: string) { s == [] || (!IsSpace(s[0]) && !IsSpace(s[|s| - 1])) }

  /** A trimmed string is its own trim, even behind one added space. */
  lemma TrimOfTrimmed(s: string)
    requires Trimmed(s)
    ensures Trim(s) == s && Trim(" " + s) == s
  {
    var t := " " + s;
    assert t[1..] == s;
    assert TrimStart(t) == TrimStart(s) by { assert IsSpace(t[0]); }
    assert TrimStart(s) == s by { assert s == [] || !IsSpace(s[0]); }
    assert TrimEnd(s) == s by { assert s == [] || !IsSpace(s[|s| - 1]); }
  }

  /** A string with no space character is its own trim. */
  lemma TrimNoSpace(s: string)
    requires forall i :: 0 <= i < |s| ==> !IsSpace(s[i])
    ensures Trim(s) == s
  {
  }

  function DigitChar(d: nat): (c: char)
    requires d < 10
    ensures IsDigit(c)
  {
    ('0' as int + d) as char
  }

  /** Decimal rendering of a non-negative integer, as `${n}` prints it. */
  function NatToString(n: nat): (r: string)
    ensures |r| >= 1
    ensures forall i :: 0 <= i < |r| ==> IsDigit(r[i])
    decreases n
  {
    if n < 10 then [DigitChar(n)] else NatToString(n / 10) + [DigitChar(n % 10)]
  }

  predicate AllDigits(s: string) { forall i :: 0 <= i < |s| ==> IsDigit(s[i]) }

  /** The value of a string of decimal digits (`parseInt` on such a string). */
  function DigitsValue(s: string): nat
    requires AllDigits(s)
    decreases |s|
  {
    if s == [] then 0 else DigitsValue(s[..|s| - 1]) * 10 + (s[|s| - 1] as int - '0' as int)
  }

  /** Reading back a rendered number gives the number. */
  lemma {:induction false} DigitsValueOfNatToString(n: nat)
    ensures AllDigits(NatToString(n)) && DigitsValue(NatToString(n)) == n
    decreases n
  {
    var s := NatToString(n);
    if n >= 10 {
      DigitsValueOfNatToString(n / 10);
      assert s[..|s| - 1] == NatToString(n / 10);
    } else {
      assert s[..|s| - 1] == [];
    }
  }

  /** The length of the run of decimal digits at the front of `s`. */
  function DigitRun(s: string): (n: nat)
    ensures n <= |s|
    ensures forall i :: 0 <= i < n ==> IsDigit(s[i])
    ensures n < |s| ==> !IsDigit(s[n])
  {
    if s != [] && IsDigit(s[0]) then 1 + DigitRun(s[1..]) else 0
  }

  predicate IsHexDigit(c: char) { IsDigit(c) || 'a' <= c <= 'f' || 'A' <= c <= 'F' }

  function HexDigitValue(c: char): (d: nat)
    requires IsHexDigit(c)
    ensures d < 16
  {
    if IsDigit(c) then c as int - '0' as int
    else if 'a' <= c <= 'f' then c as int - 'a' as int + 10
    else c as int - 'A' as int + 10
  }

  predicate AllHexDigits(s: string) { forall i :: 0 <= i < |s| ==> IsHexDigit(s[i]) }

  /** The value of a string of hexadecimal digits. */
  function HexValue(s: string): nat
    requires AllHexDigits(s)
    decreases |s|
  {
    if s == [] then 0 else HexValue(s[..|s| - 1]) * 16 + HexDigitValue(s[|s| - 1])
  }

  /** The length of the run of hexadecimal digits at the front of `s`. */
  function HexRun(s: string): (n: nat)
    ensures n <= |s|
    ensures forall i :: 0 <= i < n ==> IsHexDigit(s[i])
    ensures n < |s| ==> !IsHexDigit(s[n])
  {
    if s != [] && IsHexDigit(s[0]) then 1 + HexRun(s[1..]) else 0
  }

  /** `0x` or `0X`, which makes `parseInt` without a radix read base 16. */
  predicate HexPrefixed(body: string) { |body| >= 2 && body[0] == '0' && (body[1] == 'x' || body[1] == 'X') }

  /** The value of the leading decimal digits, none when there are none. */
  function DecimalMagnitude(body: string): (v: Option<nat>)
    ensures v.None? <==> DigitRun(body) == 0
  {
    var n := DigitRun(body);
    if n == 0 then None
    else
      assert AllDigits(body[..n]);
      Some(DigitsValue(body[..n]))
  }

  /** The value of the leading hexadecimal digits, none when there are none. */
  function HexMagnitude(h: string): (v: Option<nat>)
    ensures v.None? <==> HexRun(h) == 0
  {
    var n := HexRun(h);
    if n == 0 then None
    else
      assert AllHexDigits(h[..n]);
      Some(HexValue(h[..n]))
  }

  /**
   * `parseInt(s)` without a radix: leading white space skipped, an optional
   * sign, then the longest run of hexadecimal digits after a `0x` prefix or
   * of decimal digits otherwise; `None` (NaN) when that run is empty.
   */
  function ParseInt(s: string): (r: Option<int>)
    ensures r.None? <==>
      var body := SignDropped(TrimStart(s));
      if HexPrefixed(body) then HexRun(body[2..]) == 0 else DigitRun(body) == 0
  {
    var t := TrimStart(s);
    var body := SignDropped(t);
    var magnitude := if HexPrefixed(body) then HexMagnitude(body[2..]) else DecimalMagnitude(body);
    match magnitude
    case None => None
    case Some(v) =>
      assert body != [];
      var m: int := v;
      var value: int := if t[0] == '-' then 0 - m else m;
      Some(value)
  }

  /** The text after a leading '+' or '-'. */
  function SignDropped(t: string): (body: string)
    ensures |body| <= |t|
    ensures body == t || body == t[1..]
  {
    if t != [] && (t[0] == '-' || t[0] == '+') then t[1..] else t
  }

  /** `parseInt` of a non-empty string of digits is its value. */
  lemma ParseIntOfDigits(s: string)
    requires s != [] && AllDigits(s)
    ensures ParseInt(s) == Some(DigitsValue(s) as int)
  {
    assert !IsSpace(s[0]) && s[0] != '-' && s[0] != '+';
    assert TrimStart(s) == s;
    assert SignDropped(s) == s;
    assert !HexPrefixed(s) by { assert |s| >= 2 ==> IsDigit(s[1]); }
    DigitRunOfDigits(s);
    assert s[..|s|] == s;
  }

  /** The characters `TrimEnd` drops are spaces. */
  lemma {:induction false} TrimEndDropsSpaces(s: string)
    ensures forall i :: |TrimEnd(s)| <= i < |s| ==> IsSpace(s[i])
    decreases |s|
  {
    if s != [] && IsSpace(s[|s| - 1]) {
      TrimEndDropsSpaces(s[..|s| - 1]);
    }
  }

  /** `parseInt` of digits between spaces is the value of the digits. */
  lemma ParseIntOfTrimmedDigits(s: string)
    requires Trim(s) != "" && AllDigits(Trim(s))
    ensures ParseInt(s) == Some(DigitsValue(Trim(s)) as int)
  {
    var ts := TrimStart(s);
    var t := Trim(s);
    TrimEndPrefix(ts);
    TrimEndDropsSpaces(ts);
    assert ts[..|t|] == t;
    assert IsDigit(ts[0]);
    assert SignDropped(ts) == ts;
    assert !HexPrefixed(ts) by {
      if |ts| >= 2 {
        assert IsDigit(ts[1]) || IsSpace(ts[1]);
      }
    }
    forall i | 0 <= i < |t| ensures IsDigit(ts[i]) {
      assert ts[i] == t[i];
    }
    if |t| < |ts| {
      assert IsSpace(ts[|t|]);
    }
    DigitRunIs(ts, |t|);
  }

  /** `parseInt` of a text that starts with `n` digits, and no `0x`, is the value of those digits. */
  lemma ParseIntLeadingDigits(s: string, n: nat)
    requires 0 < n <= |s| && forall i :: 0 <= i < n ==> IsDigit(s[i])
    requires n < |s| ==> !IsDigit(s[n])
    requires !HexPrefixed(s)
    ensures AllDigits(s[..n]) && ParseInt(s) == Some(DigitsValue(s[..n]) as int)
  {
    assert IsDigit(s[0]);
    assert TrimStart(s) == s;
    assert SignDropped(s) == s;
    DigitRunIs(s, n);
  }

  /** A run of `n` digits followed by the end or by a non-digit is the digit run. */
  lemma {:induction false} DigitRunIs(s: string, n: nat)
    requires n <= |s| && forall i :: 0 <= i < n ==> IsDigit(s[i])
    requires n < |s| ==> !IsDigit(s[n])
    ensures DigitRun(s) == n
    decreases n
  {
    if n > 0 {
      DigitRunIs(s[1..], n - 1);
    }
  }

  /** `parseInt` of blank text is NaN. */
  lemma ParseIntOfBlank(s: string)
    requires Trim(s) == ""
    ensures ParseInt(s).None?
  {
    var ts := TrimStart(s);
    TrimEndDropsSpaces(ts);
    assert ts == [];
  }

  // ---------------------------------------------------------------------------
  // `Number(s)` on text
  // ---------------------------------------------------------------------------

  /**
   * The text `Number()` reads as a number rather than NaN: blank text (0), or
   * a numeric literal between spaces.
   */
  predicate NumberAccepts(s: string) {
    var t := Trim(s);
    t == "" || NonDecimalLiteral(t) || DecimalLiteral(SignDropped(t))
  }

  /** `0x`, `0o` or `0b` followed by at least one digit of that base, with no sign. */
  predicate NonDecimalLiteral(t: string) {
    |t| >= 3 && t[0] == '0' &&
    (((t[1] == 'x' || t[1] == 'X') && forall i :: 2 <= i < |t| ==> IsHexDigit(t[i]))
     || ((t[1] == 'o' || t[1] == 'O') && forall i :: 2 <= i < |t| ==> '0' <= t[i] <= '7')
     || ((t[1] == 'b' || t[1] == 'B') && forall i :: 2 <= i < |t| ==> t[i] == '0' || t[i] == '1'))
  }

  /** An unsigned decimal literal: `Infinity`, or digits with an optional fraction and an optional exponent. */
  predicate DecimalLiteral(u: string) {
    u == "Infinity" || (MantissaLength(u).Some? && ExponentPart(u[MantissaLength(u).value..]))
  }

  /** The length of the leading `digits`, `digits.digits?` or `.digits`; none when it holds no digit. */
  function MantissaLength(u: string): (m: Option<nat>)
    ensures m.Some? ==> 0 < m.value <= |u|
  {
    var n := DigitRun(u);
    if n < |u| && u[n] == '.' then
      var f := DigitRun(u[n + 1..]);
      if n + f == 0 then None else Some(n + 1 + f)
    else if n == 0 then None
    else Some(n)
  }

  /** Nothing, or `e`/`E`, an optional sign and at least one digit. */
  predicate ExponentPart(e: string) {
    e == [] || ((e[0] == 'e' || e[0] == 'E') && var b := SignDropped(e[1..]); b != [] && DigitRun(b) == |b|)
  }

  /** What `Number` and `parseInt` make of blank text and of digits between spaces. */
  lemma DigitEntry(s: string)
    ensures Trim(s) == "" || AllDigits(Trim(s)) ==> NumberAccepts(s)
    ensures Trim(s) == "" ==> ParseInt(s).None?
    ensures Trim(s) != "" && AllDigits(Trim(s)) ==> ParseInt(s) == Some(DigitsValue(Trim(s)) as int)
  {
    if Trim(s) == "" || AllDigits(Trim(s)) {
      NumberAcceptsDigits(s);
    }
    if Trim(s) == "" {
      ParseIntOfBlank(s);
    }
    if Trim(s) != "" && AllDigits(Trim(s)) {
      ParseIntOfTrimmedDigits(s);
    }
  }

  /** `Number` reads "1.5" as a number, and `parseInt` reads its integer part. */
  lemma FractionLiteral()
    ensures NumberAccepts("1.5") && ParseInt("1.5") == Some(1)
  {
    var e := "1.5";
    assert Trim(e) == e by {
      TrimOfTrimmed(e);
    }
    assert MantissaLength(e) == Some(3) by {
      DigitRunIs(e, 1);
      assert e[2..] == "5";
      DigitRunIs("5", 1);
    }
    assert DecimalLiteral(SignDropped(e)) by {
      assert SignDropped(e) == e;
      assert e[3..] == [];
    }
    ParseIntLeadingDigits(e, 1);
    assert e[..1] == "1";
  }

  /** `Number` reads blank text and digits between spaces. */
  lemma NumberAcceptsDigits(s: string)
    requires Trim(s) == "" || AllDigits(Trim(s))
    ensures NumberAccepts(s)
  {
    var t := Trim(s);
    if t != "" {
      assert SignDropped(t) == t by { assert IsDigit(t[0]); }
      DigitRunOfDigits(t);
      assert t[|t|..] == [];
    }
  }

  /** Reading a rendered number back with `parseInt` gives the number. */
  lemma ParseIntOfNat(n: nat)
    ensures ParseInt(NatToString(n)) == Some(n)
  {
    DigitsValueOfNatToString(n);
    ParseIntOfDigits(NatToString(n));
  }

  /** The digit run of a string of digits is all of it. */
  lemma {:induction false} DigitRunOfDigits(s: string)
    requires AllDigits(s)
    ensures DigitRun(s) == |s|
  {
    if s != [] {
      DigitRunOfDigits(s[1..]);
    }
  }

  /** Decimal rendering of an integer, with a leading '-' when negative. */
  function IntToString(n: int): string {
    if n < 0 then "-" + NatToString(-n) else NatToString(n)
  }

  /** JavaScript's `a < b` on strings: lexicographic by character. */
  predicate Lt(a: string, b: string)
    decreases |a|
  {
    if a == [] then b != []
    else if b == [] then false
    else if a[0] != b[0] then a[0] < b[0]
    else Lt(a[1..], b[1..])
  }

  lemma {:induction false} LtIrreflexive(a: string)
    ensures !Lt(a, a)
  {
    if a != [] { LtIrreflexive(a[1..]); }
  }

  lemma {:induction false} LtTransitive(a: string, b: string, c: string)
    requires Lt(a, b) && Lt(b, c)
    ensures Lt(a, c)
  {
    if a != [] && b != [] && c != [] && a[0] == b[0] && b[0] == c[0] {
      LtTransitive(a[1..], b[1..], c[1..]);
    }
  }

  lemma {:induction false} LtTotal(a: string, b: string)
    ensures a == b || Lt(a, b) || Lt(b, a)
  {
    if a != [] && b != [] && a[0] == b[0] {
      LtTotal(a[1..], b[1..]);
      if a[1..] == b[1..] { assert a == [a[0]] + a[1..] && b == [b[0]] + b[1..]; }
    }
  }
}
