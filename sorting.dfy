/**
 * `Array.prototype.sort` with a comparator that compares one key per element,
 * ascending or descending. Since ES2019 the library sort is stable, so it is
 * modelled here as a stable insertion sort over the comparator's order.
 *
 * A key is a list of atoms compared lexicographically: a number (`a - b` or
 * `<` on numbers) or a string (`<` on strings, and `localeCompare`, which the
 * model replaces by plain lexicographic order).
 */
module Sorting {
  import Text

  datatype Atom = Num(n: int) | Str(s: string)

  type Key = seq<Atom>

  /** Strict order on atoms; the components never mix numbers and strings in one sort. */
  predicate AtomLt(a: Atom, b: Atom) {
    match (a, b)
    case (Num(x), Num(y)) => x < y
    case (Str(x), Str(y)) => Text.Lt(x, y)
    case (Num(_), Str(_)) => true
    case (Str(_), Num(_)) => false
  }

  /** Lexicographic order on keys: the first differing atom decides. */
  predicate KeyLt(a: Key, b: Key)
    decreases |a|
  {
    if a == [] then b != []
    else if b == [] then false
    else if a[0] != b[0] then AtomLt(a[0], b[0])
    else KeyLt(a[1..], b[1..])
  }

  lemma AtomLtIrreflexive(a: Atom)
    ensures !AtomLt(a, a)
  {
    if a.Str? { Text.LtIrreflexive(a.s); }
  }

  lemma AtomLtTransitive(a: Atom, b: Atom, c: Atom)
    requires AtomLt(a, b) && AtomLt(b, c)
    ensures AtomLt(a, c)
  {
    if a.Str? && b.Str? && c.Str? { Text.LtTransitive(a.s, b.s, c.s); }
  }

  lemma AtomLtTotal(a: Atom, b: Atom)
    ensures a == b || AtomLt(a, b) || AtomLt(b, a)
  {
    if a.Str? && b.Str? { Text.LtTotal(a.s, b.s); }
  }

  lemma {:induction false} KeyLtIrreflexive(a: Key)
    ensures !KeyLt(a, a)
  {
    if a != [] { KeyLtIrreflexive(a[1..]); }
  }

  lemma {:induction false} KeyLtTransitive(a: Key, b: Key, c: Key)
    requires KeyLt(a, b) && KeyLt(b, c)
    ensures KeyLt(a, c)
  {
    if a != [] && b != [] && c != [] {
      if a[0] == b[0] && b[0] == c[0] {
        KeyLtTransitive(a[1..], b[1..], c[1..]);
      } else if a[0] != b[0] && b[0] != c[0] {
        AtomLtTransitive(a[0], b[0], c[0]);
        if a[0] == c[0] { AtomLtIrreflexive(a[0]); }
      }
    }
  }

  lemma {:induction false} KeyLtTotal(a: Key, b: Key)
    ensures a == b || KeyLt(a, b) || KeyLt(b, a)
  {
    if a != [] && b != [] {
      if a[0] == b[0] {
        KeyLtTotal(a[1..], b[1..]);
        if a[1..] == b[1..] { assert a == [a[0]] + a[1..] && b == [b[0]] + b[1..]; }
      } else {
        AtomLtTotal(a[0], b[0]);
      }
    }
  }

  /** The comparator returns a negative number for (a, b): `a` belongs before `b`. */
  predicate Before<T>(key: T -> Key, desc: bool, a: T, b: T) {
    if desc then KeyLt(key(b), key(a)) else KeyLt(key(a), key(b))
  }

  lemma BeforeAsymmetric<T>(key: T -> Key, desc: bool, a: T, b: T)
    requires Before(key, desc, a, b)
    ensures !Before(key, desc, b, a)
  {
    if KeyLt(key(a), key(b)) && KeyLt(key(b), key(a)) {
      KeyLtTransitive(key(a), key(b), key(a));
      KeyLtIrreflexive(key(a));
    }
  }

  /** Not-less on keys is greater-or-equal. */
  lemma KeyNotLt(a: Key, b: Key)
    ensures !KeyLt(a, b) <==> (a == b || KeyLt(b, a))
  {
    KeyLtTotal(a, b);
    KeyLtIrreflexive(a);
    if KeyLt(a, b) && KeyLt(b, a) { KeyLtTransitive(a, b, a); }
  }

  lemma KeyLeTransitive(a: Key, b: Key, c: Key)
    requires a == b || KeyLt(a, b)
    requires b == c || KeyLt(b, c)
    ensures a == c || KeyLt(a, c)
  {
    if a != b && b != c { KeyLtTransitive(a, b, c); }
  }

  /** Not-before is transitive: the comparator's order is a weak order. */
  lemma NotBeforeTransitive<T>(key: T -> Key, desc: bool, a: T, b: T, c: T)
    requires !Before(key, desc, a, b) && !Before(key, desc, b, c)
    ensures !Before(key, desc, a, c)
  {
    var ka, kb, kc := key(a), key(b), key(c);
    if desc {
      KeyNotLt(kb, ka);
      KeyNotLt(kc, kb);
      KeyNotLt(kc, ka);
      KeyLeTransitive(ka, kb, kc);
    } else {
      KeyNotLt(ka, kb);
      KeyNotLt(kb, kc);
      KeyNotLt(ka, kc);
      KeyLeTransitive(kc, kb, ka);
    }
  }

  /** No later element belongs before an earlier one. */
  ghost predicate Sorted<T>(key: T -> Key, desc: bool, s: seq<T>) {
    forall i, j :: 0 <= i < j < |s| ==> !Before(key, desc, s[j], s[i])
  }

  /** Putting in front an element that no element belongs before keeps a list sorted. */
  lemma ConsSorted<T>(key: T -> Key, desc: bool, y: T, t: seq<T>)
    requires Sorted(key, desc, t)
    requires forall j :: 0 <= j < |t| ==> !Before(key, desc, t[j], y)
    ensures Sorted(key, desc, [y] + t)
  {
    var r := [y] + t;
    forall i, j | 0 <= i < j < |r| ensures !Before(key, desc, r[j], r[i]) {
      assert r[j] == t[j - 1];
      if i > 0 { assert r[i] == t[i - 1]; }
    }
  }

  /** Insert `x` into sorted `t` before the first element that does not belong before it. */
  function Insert<T>(key: T -> Key, desc: bool, x: T, t: seq<T>): (r: seq<T>)
    requires Sorted(key, desc, t)
    ensures multiset(r) == multiset(t) + multiset{x}
    ensures Sorted(key, desc, r)
  {
    assert t != [] ==> t == [t[0]] + t[1..];
    if t == [] then [x]
    else if Before(key, desc, t[0], x) then
      var rest := Insert(key, desc, x, t[1..]);
      InsertedAfter(key, desc, x, t, rest);
      ConsSorted(key, desc, t[0], rest);
      [t[0]] + rest
    else
      forall j | 0 <= j < |t| ensures !Before(key, desc, t[j], x) {
        if j > 0 { NotBeforeTransitive(key, desc, t[j], t[0], x); }
      }
      ConsSorted(key, desc, x, t);
      [x] + t
  }

  /** When the head of `t` belongs before `x`, nothing in `x` inserted into the tail belongs before the head. */
  lemma InsertedAfter<T>(key: T -> Key, desc: bool, x: T, t: seq<T>, rest: seq<T>)
    requires t != [] && Sorted(key, desc, t) && Before(key, desc, t[0], x)
    requires multiset(rest) == multiset(t[1..]) + multiset{x}
    ensures forall j :: 0 <= j < |rest| ==> !Before(key, desc, rest[j], t[0])
  {
    forall j | 0 <= j < |rest| ensures !Before(key, desc, rest[j], t[0]) {
      assert rest[j] in multiset(rest);
      if rest[j] == x {
        BeforeAsymmetric(key, desc, t[0], x);
      } else {
        assert rest[j] in t[1..];
        var k :| 0 <= k < |t[1..]| && t[1..][k] == rest[j];
        assert t[k + 1] == rest[j];
      }
    }
  }

  /** The library sort with a key comparator: a sorted permutation of its input. */
  function SortBy<T>(key: T -> Key, desc: bool, s: seq<T>): (r: seq<T>)
    ensures multiset(r) == multiset(s)
    ensures |r| == |s|
    ensures Sorted(key, desc, r)
  {
    if s == [] then []
    else
      assert s == [s[0]] + s[1..];
      Insert(key, desc, s[0], SortBy(key, desc, s[1..]))
  }

  /**
   * `array.sort(comparator)` in place: an insertion sort that moves an
   * element left only past elements it belongs strictly before, so equal
   * elements keep their order.
   */
  method SortInPlace<T>(a: array<T>, key: T -> Key, desc: bool)
    modifies a
    ensures Sorted(key, desc, a[..])
    ensures multiset(a[..]) == multiset(old(a[..]))
  {
    var i := 0;
    while i < a.Length
      invariant 0 <= i <= a.Length
      invariant Sorted(key, desc, a[..i])
      invariant multiset(a[..]) == multiset(old(a[..]))
    {
      InsertLeft(a, key, desc, i);
      i := i + 1;
    }
    assert a[..] == a[..a.Length];
  }

  /** One insertion step: element `i` moves left past every element it belongs before; nothing after it moves. */
  method InsertLeft<T>(a: array<T>, key: T -> Key, desc: bool, i: int)
    requires 0 <= i < a.Length && Sorted(key, desc, a[..i])
    modifies a
    ensures Sorted(key, desc, a[..i + 1])
    ensures multiset(a[..]) == multiset(old(a[..]))
    ensures a[i + 1..] == old(a[i + 1..])
  {
    var j := i;
    InsertStart(key, desc, a[..], i);
    while j > 0 && Before(key, desc, a[j], a[j - 1])
      invariant 0 <= j <= i
      invariant SortedApart(key, desc, a[..], i, j) && NoneBefore(key, desc, a[..], i, j)
      invariant multiset(a[..]) == multiset(old(a[..]))
      invariant a[i + 1..] == old(a[i + 1..])
    {
      ghost var before := a[..];
      SwapLeft(key, desc, before, i, j);
      a[j], a[j - 1] := a[j - 1], a[j];
      assert a[..] == before[j - 1 := before[j]][j := before[j - 1]];
      j := j - 1;
    }
    InsertDone(key, desc, a[..], i, j);
  }

  /** While the element moves left, the others up to `i` stay in order among themselves. */
  ghost predicate SortedApart<T>(key: T -> Key, desc: bool, s: seq<T>, i: int, j: int)
    requires 0 <= j <= i < |s|
  {
    forall p, q :: 0 <= p < q <= i && p != j && q != j ==> !Before(key, desc, s[q], s[p])
  }

  /** Nothing the moving element has passed belongs before it. */
  ghost predicate NoneBefore<T>(key: T -> Key, desc: bool, s: seq<T>, i: int, j: int)
    requires 0 <= j <= i < |s|
  {
    forall q :: j < q <= i ==> !Before(key, desc, s[q], s[j])
  }

  /** A sorted prefix of length `i` is the starting point for moving element `i`. */
  lemma InsertStart<T>(key: T -> Key, desc: bool, s: seq<T>, i: int)
    requires 0 <= i < |s| && Sorted(key, desc, s[..i])
    ensures SortedApart(key, desc, s, i, i) && NoneBefore(key, desc, s, i, i)
  {
    forall p, q | 0 <= p < q <= i && p != i && q != i ensures !Before(key, desc, s[q], s[p]) {
      assert s[q] == s[..i][q] && s[p] == s[..i][p];
    }
  }

  /** Swapping the moving element with a left neighbour it belongs before keeps both facts one place further left. */
  lemma SwapLeft<T>(key: T -> Key, desc: bool, s: seq<T>, i: int, j: int)
    requires 0 < j <= i < |s|
    requires SortedApart(key, desc, s, i, j) && NoneBefore(key, desc, s, i, j)
    requires Before(key, desc, s[j], s[j - 1])
    ensures var t := s[j - 1 := s[j]][j := s[j - 1]];
      SortedApart(key, desc, t, i, j - 1) && NoneBefore(key, desc, t, i, j - 1) && multiset(t) == multiset(s)
  {
    var t := s[j - 1 := s[j]][j := s[j - 1]];
    BeforeAsymmetric(key, desc, s[j], s[j - 1]);
    assert forall k :: 0 <= k < |s| && k != j - 1 && k != j ==> t[k] == s[k];
    assert t[j - 1] == s[j] && t[j] == s[j - 1];
  }

  /** When the moving element stops, the first `i + 1` elements are sorted. */
  lemma InsertDone<T>(key: T -> Key, desc: bool, s: seq<T>, i: int, j: int)
    requires 0 <= j <= i < |s|
    requires SortedApart(key, desc, s, i, j) && NoneBefore(key, desc, s, i, j)
    requires j == 0 || !Before(key, desc, s[j], s[j - 1])
    ensures Sorted(key, desc, s[..i + 1])
  {
    forall p, q | 0 <= p < q <= i ensures !Before(key, desc, s[q], s[p]) {
      if q == j && p < j - 1 {
        NotBeforeTransitive(key, desc, s[j], s[j - 1], s[p]);
      }
    }
    assert forall p :: 0 <= p <= i ==> s[..i + 1][p] == s[p];
  }
}
