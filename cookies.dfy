/**
 * The browser-cookie helpers of app/lib/cookies.ts: reading one cookie out
 * of the `document.cookie` string (the cookie-string of section 4.2.1 of
 * RFC 6265, "name=value" pairs separated by "; "), and the strings the app
 * assigns to `document.cookie` when it sets or deletes one. `document` is an
 * `Option`: `None` when the code runs where there is no document. The clock
 * is the parameter `now` and `Date.toUTCString` the parameter `utc`.
 */
module Cookies {
  import Text
  import opened Wrappers

  /** The `while (c.charAt(0) === ' ')` loop: leading ' ' characters removed, nothing else. */
  function StripSpaces(c: string): (r: string)
    ensures |r| <= |c|
    ensures r == [] || r[0] != ' '
  {
    if c != [] && c[0] == ' ' then StripSpaces(c[1..]) else c
  }

  /** Only leading spaces go: what is left is a suffix, and everything before it was a space. */
  lemma {:induction false} StripSpacesSuffix(c: string)
    ensures StripSpaces(c) == c[|c| - |StripSpaces(c)|..]
    ensures forall i :: 0 <= i < |c| - |StripSpaces(c)| ==> c[i] == ' '
  {
    if c != [] && c[0] == ' ' {
      StripSpacesSuffix(c[1..]);
      assert c[1..][|c| - 1 - |StripSpaces(c)|..] == c[|c| - |StripSpaces(c)|..];
    }
  }

  /** A segment whose text, once its leading spaces are gone, starts with `name=`. */
  predicate Matches(segment: string, name: string) {
    Text.StartsWith(StripSpaces(segment), name + "=")
  }

  /** What follows `name=` in a matching segment. */
  function ValueIn(segment: string, name: string): string
    requires Matches(segment, name)
  {
    StripSpaces(segment)[|name| + 1..]
  }

  /** The position of the first matching segment, `|segments|` when none matches. */
  function MatchIndex(segments: seq<string>, name: string): (k: nat)
    ensures k <= |segments|
    ensures forall j :: 0 <= j < k ==> !Matches(segments[j], name)
    ensures k < |segments| ==> Matches(segments[k], name)
  {
    if segments == [] then 0
    else if Matches(segments[0], name) then 0
    else 1 + MatchIndex(segments[1..], name)
  }

  /** The value of the first matching segment, if any. */
  function FirstValue(segments: seq<string>, name: string): (r: Option<string>)
    ensures r.None? <==> forall k :: 0 <= k < |segments| ==> !Matches(segments[k], name)
  {
    var k := MatchIndex(segments, name);
    if k == |segments| then None else Some(ValueIn(segments[k], name))
  }

  /** The cookie `name` of a cookie string: the first ';'-separated segment that holds it. */
  function CookieValue(cookie: string, name: string): Option<string> {
    FirstValue(Text.Split(cookie, ';'), name)
  }

  /** What `getCookie` answers: nothing without a document. */
  function Lookup(document: Option<string>, name: string): Option<string> {
    if document.None? then None else CookieValue(document.value, name)
  }

  /** `getCookie`. */
  method GetCookie(document: Option<string>, name: string) returns (r: Option<string>)
    ensures document.None? ==> r.None?
    ensures document.Some? ==> r == CookieValue(document.value, name)
  {
    if document.None? {
      return None;
    }
    var nameEQ := name + "=";
    var ca := Text.Split(document.value, ';');
    for i := 0 to |ca|
      invariant forall j :: 0 <= j < i ==> !Matches(ca[j], name)
    {
      var c := ca[i];
      while |c| > 0 && c[0] == ' '
        invariant StripSpaces(c) == StripSpaces(ca[i])
        decreases |c|
      {
        c := c[1..];
      }
      if |nameEQ| <= |c| && c[..|nameEQ|] == nameEQ {
        assert MatchIndex(ca, name) == i;
        return Some(c[|nameEQ|..]);
      }
    }
    return None;
  }

  /** A name the app can store: no separator, no '=', no leading space. */
  predicate PlainName(name: string) {
    ';' !in name && '=' !in name && (name == [] || name[0] != ' ')
  }

  /**
   * Because the match includes '=', a segment `other=value` only matches its
   * own name: "a" is never found in "ab=1".
   */
  lemma WholeNameOnly(name: string, other: string, value: string)
    requires '=' !in name
    requires PlainName(other)
    requires Matches(other + "=" + value, name)
    ensures name == other
  {
    var seg := other + "=" + value;
    assert StripSpaces(seg) == seg by {
      if other == [] { assert seg[0] == '='; } else { assert seg[0] == other[0]; }
    }
    assert seg[..|name| + 1] == name + "=";
    if |name| < |other| {
      Text.CharOfPrefix(seg, name + "=", |name|);
      Text.CharOfConcat(other, "=" + value, |name|);
      assert false;
    } else if |name| > |other| {
      Text.CharOfPrefix(seg, name + "=", |other|);
      Text.CharOfConcat(name, "=", |other|);
      Text.CharOfConcat(other, "=" + value, |other|);
      assert false;
    } else {
      assert name == seg[..|name|] == other;
    }
  }

  /** Looking up "a" in "ab=1" finds nothing. */
  lemma LongerNameNotFound()
    ensures CookieValue("ab=1", "a") == None
  {
    Text.SplitWithoutSeparator("ab=1", ';');
    assert "ab=1" == "ab" + "=" + "1";
    if Matches("ab=1", "a") {
      WholeNameOnly("a", "ab", "1");
    }
  }

  /** A name and its value as the app stores them. */
  datatype Pair = Pair(name: string, value: string)

  /** The segment of the k-th pair of a cookie string: a space after every ';'. */
  function SegmentOf(p: Pair, first: bool): string {
    (if first then "" else " ") + p.name + "=" + p.value
  }

  function Segments(pairs: seq<Pair>): (r: seq<string>)
    ensures |r| == |pairs|
    ensures forall k :: 0 <= k < |pairs| ==> r[k] == SegmentOf(pairs[k], k == 0)
  {
    seq(|pairs|, k requires 0 <= k < |pairs| => SegmentOf(pairs[k], k == 0))
  }

  /** The cookie string "n1=v1; n2=v2; …" of a list of pairs. */
  function CookieString(pairs: seq<Pair>): string {
    Text.Join(Segments(pairs), ";")
  }

  /** Pairs whose names are plain and distinct and whose values hold no ';'. */
  predicate Storable(pairs: seq<Pair>) {
    && (forall k :: 0 <= k < |pairs| ==> PlainName(pairs[k].name) && ';' !in pairs[k].value)
    && (forall j, k :: 0 <= j < k < |pairs| ==> pairs[j].name != pairs[k].name)
  }

  /** The segment of a pair holds its value, and no other plain name. */
  lemma SegmentHolds(p: Pair, first: bool, name: string)
    requires PlainName(p.name) && '=' !in name
    ensures Matches(SegmentOf(p, first), name) <==> name == p.name
    ensures name == p.name ==> ValueIn(SegmentOf(p, first), name) == p.value
  {
    var bare := p.name + "=" + p.value;
    assert StripSpaces(SegmentOf(p, first)) == StripSpaces(bare) by {
      if !first {
        assert SegmentOf(p, first) == " " + bare;
        assert SegmentOf(p, first)[1..] == bare;
      } else {
        assert SegmentOf(p, first) == bare;
      }
    }
    assert StripSpaces(bare) == bare by {
      if p.name == [] { assert bare[0] == '='; } else { assert bare[0] == p.name[0]; }
    }
    if Matches(SegmentOf(p, first), name) {
      WholeNameOnly(name, p.name, p.value);
    }
    if name == p.name {
      assert bare[..|name| + 1] == name + "=";
      assert bare[|name| + 1..] == p.value;
    }
  }

  /** In a list of segments of storable pairs the k-th name is found in the k-th segment. */
  lemma FirstValueFrom(segs: seq<string>, pairs: seq<Pair>, k: nat)
    requires Storable(pairs) && |segs| == |pairs| && k < |pairs|
    requires forall j :: 0 <= j < |pairs| ==> segs[j] == SegmentOf(pairs[j], j == 0)
    ensures FirstValue(segs, pairs[k].name) == Some(pairs[k].value)
  {
    var name := pairs[k].name;
    SegmentHolds(pairs[k], k == 0, name);
    var i := MatchIndex(segs, name);
    if i < k {
      SegmentHolds(pairs[i], i == 0, name);
    }
  }

  /** For "n1=v1; n2=v2; …" with distinct plain names and values free of ';', each name gives its value. */
  lemma RoundTrip(pairs: seq<Pair>, k: nat)
    requires Storable(pairs) && k < |pairs|
    ensures CookieValue(CookieString(pairs), pairs[k].name) == Some(pairs[k].value)
  {
    var segs := Segments(pairs);
    forall j | 0 <= j < |segs| ensures ';' !in segs[j] {
      assert segs[j] == (if j == 0 then "" else " ") + pairs[j].name + "=" + pairs[j].value;
    }
    Text.SplitJoin(segs, ';');
    FirstValueFrom(segs, pairs, k);
  }

  /** Only leading spaces are removed: trailing ones stay in the value. */
  lemma TrailingSpacesKept()
    ensures CookieValue(" a=b  ", "a") == Some("b  ")
  {
    Text.SplitWithoutSeparator(" a=b  ", ';');
    assert StripSpaces(" a=b  ") == "a=b  " by {
      assert " a=b  "[1..] == "a=b  ";
    }
    assert "a=b  "[..2] == "a=";
    assert "a=b  "[2..] == "b  ";
  }

  /** The record `getCookies` returns; the user type is the raw text, cast without a check. */
  datatype CookieData = CookieData(
    isLoggedIn: bool, userType: Option<string>, userId: Option<string>, userName: Option<string>, email: Option<string>)

  /** `getCookies`. */
  method GetCookies(document: Option<string>) returns (d: CookieData)
    ensures d.isLoggedIn <==> Lookup(document, "isLoggedIn") == Some("true")
    ensures d.userType == Lookup(document, "userType") && d.userId == Lookup(document, "userId")
    ensures d.userName == Lookup(document, "userName") && d.email == Lookup(document, "email")
  {
    var loggedIn := GetCookie(document, "isLoggedIn");
    var userType := GetCookie(document, "userType");
    var userId := GetCookie(document, "userId");
    var userName := GetCookie(document, "userName");
    var email := GetCookie(document, "email");
    d := CookieData(loggedIn == Some("true"), userType, userId, userName, email);
  }

  /** `isAuthenticated`: the same test as `getCookies().isLoggedIn`. */
  method IsAuthenticated(document: Option<string>) returns (b: bool)
    ensures b <==> Lookup(document, "isLoggedIn") == Some("true")
  {
    var v := GetCookie(document, "isLoggedIn");
    b := v == Some("true");
  }

  datatype CurrentUser = CurrentUser(id: Option<string>, name: Option<string>, email: Option<string>, kind: Option<string>)

  /** `getUserType`. */
  method GetUserType(document: Option<string>) returns (t: Option<string>)
    ensures t == Lookup(document, "userType")
  {
    t := GetCookie(document, "userType");
  }

  /** `getCurrentUser` of the cookie helpers. */
  method GetCurrentUser(document: Option<string>) returns (u: CurrentUser)
    ensures u.id == Lookup(document, "userId") && u.name == Lookup(document, "userName")
    ensures u.email == Lookup(document, "email") && u.kind == Lookup(document, "userType")
  {
    var id := GetCookie(document, "userId");
    var name := GetCookie(document, "userName");
    var email := GetCookie(document, "email");
    var kind := GetCookie(document, "userType");
    u := CurrentUser(id, name, email, kind);
  }

  const DayMs := 24 * 60 * 60 * 1000

  /** The attributes `setCookie` writes: the pair, then expiry, path and flags. */
  function SetCookieParts(name: string, value: string, days: int, now: int, utc: int -> string): seq<string> {
    [name + "=" + value, "expires=" + utc(now + days * DayMs), "path=/", "secure", "samesite=strict"]
  }

  /**
   * The string `setCookie` assigns, "name=value;expires=…;path=/;secure;samesite=strict";
   * it expires `days` days (7 by default) after `now`.
   */
  function SetCookieText(name: string, value: string, days: int, now: int, utc: int -> string): string {
    Text.Join(SetCookieParts(name, value, days, now, utc), ";")
  }

  /** Split at ';', the `setCookie` text gives back its attributes. */
  lemma SetCookieSegments(name: string, value: string, days: int, now: int, utc: int -> string)
    requires ';' !in name && ';' !in value && ';' !in utc(now + days * DayMs)
    ensures Text.Split(SetCookieText(name, value, days, now, utc), ';') == SetCookieParts(name, value, days, now, utc)
  {
    var e := utc(now + days * DayMs);
    var parts := SetCookieParts(name, value, days, now, utc);
    assert ';' !in parts[0] by {
      assert forall i :: 0 <= i < |parts[0]| ==> parts[0][i] in name || parts[0][i] in value || parts[0][i] == '=';
    }
    assert ';' !in parts[1] by {
      assert forall i :: 0 <= i < |parts[1]| ==> parts[1][i] in e || parts[1][i] in "expires=";
    }
    Text.SplitJoin(parts, ';');
  }

  /** Read as a cookie string, the text `setCookie` writes gives back the value under its name. */
  lemma SetCookieReadsBack(name: string, value: string, days: int, now: int, utc: int -> string)
    requires PlainName(name) && ';' !in value && ';' !in utc(now + days * DayMs)
    ensures CookieValue(SetCookieText(name, value, days, now, utc), name) == Some(value)
  {
    SetCookieSegments(name, value, days, now, utc);
    SegmentHolds(Pair(name, value), true, name);
    assert SegmentOf(Pair(name, value), true) == name + "=" + value;
  }

  /** The string `deleteCookie` assigns, "name=;expires=Thu, 01 Jan 1970 00:00:00 GMT;path=/". */
  function DeleteCookieText(name: string): string {
    Text.Join([name + "=", "expires=Thu, 01 Jan 1970 00:00:00 GMT", "path=/"], ";")
  }

  /** Read as a cookie string, the `deleteCookie` text gives the empty value under its name. */
  lemma DeleteCookieReadsEmpty(name: string)
    requires PlainName(name)
    ensures CookieValue(DeleteCookieText(name), name) == Some("")
  {
    var parts := [name + "=", "expires=Thu, 01 Jan 1970 00:00:00 GMT", "path=/"];
    assert ';' !in parts[0] by {
      assert forall i :: 0 <= i < |parts[0]| ==> parts[0][i] in name || parts[0][i] == '=';
    }
    Text.SplitJoin(parts, ';');
    SegmentHolds(Pair(name, ""), true, name);
    assert SegmentOf(Pair(name, ""), true) == name + "=";
  }

  /** The user data `setAuthCookies` stores. */
  datatype AuthData = AuthData(userId: string, userName: string, email: string, userType: string)

  /** The names and values `setAuthCookies` writes, in order. */
  function AuthPairs(u: AuthData): seq<Pair> {
    [Pair("isLoggedIn", "true"), Pair("userType", u.userType), Pair("userId", u.userId),
     Pair("userName", u.userName), Pair("email", u.email)]
  }

  /** `setAuthCookies`: five `setCookie` writes with the default seven days. */
  function AuthCookieWrites(u: AuthData, now: int, utc: int -> string): (r: seq<string>)
    ensures |r| == 5
  {
    seq(5, k requires 0 <= k < 5 => SetCookieText(AuthPairs(u)[k].name, AuthPairs(u)[k].value, 7, now, utc))
  }

  /** Each write of `setAuthCookies`, read back, gives its value; the first says logged in. */
  lemma AuthCookiesReadBack(u: AuthData, now: int, utc: int -> string)
    requires ';' !in u.userId + u.userName + u.email + u.userType && ';' !in utc(now + 7 * DayMs)
    ensures forall k :: 0 <= k < 5 ==>
      CookieValue(AuthCookieWrites(u, now, utc)[k], AuthPairs(u)[k].name) == Some(AuthPairs(u)[k].value)
    ensures CookieValue(AuthCookieWrites(u, now, utc)[0], "isLoggedIn") == Some("true")
  {
    var ps := AuthPairs(u);
    assert forall k :: 0 <= k < 5 ==> ps[k].name == AuthNames[k];
    forall k | 0 <= k < 5
      ensures CookieValue(AuthCookieWrites(u, now, utc)[k], ps[k].name) == Some(ps[k].value)
    {
      assert PlainName(ps[k].name);
      assert ';' !in ps[k].value by {
        assert forall i :: 0 <= i < |ps[k].value| ==>
          (ps[k].value[i] in u.userId + u.userName + u.email + u.userType || ps[k].value == "true");
      }
      SetCookieReadsBack(ps[k].name, ps[k].value, 7, now, utc);
    }
    assert ps[0].name == "isLoggedIn";
  }

  const AuthNames := ["isLoggedIn", "userType", "userId", "userName", "email"]

  /** `clearAuthCookies`: the five `deleteCookie` writes. */
  function ClearAuthCookieWrites(): (r: seq<string>)
    ensures |r| == 5
  {
    seq(5, k requires 0 <= k < 5 => DeleteCookieText(AuthNames[k]))
  }

  /** Each write of `clearAuthCookies`, read back, gives an empty value under its name. */
  lemma ClearAuthCookiesReadEmpty()
    ensures forall k :: 0 <= k < 5 ==> CookieValue(ClearAuthCookieWrites()[k], AuthNames[k]) == Some("")
  {
    forall k | 0 <= k < 5 ensures CookieValue(ClearAuthCookieWrites()[k], AuthNames[k]) == Some("") {
      assert PlainName(AuthNames[k]);
      DeleteCookieReadsEmpty(AuthNames[k]);
    }
  }
}
