/** Small vocabulary shared by every model: optional values and stable sorting. */
module Prelude {
  datatype Option<+T> = None | Some(value: T)

  function Max(a: int, b: int): int {
    if a >= b then a else b
  }

  function Min(a: int, b: int): int {
    if a <= b then a else b
  }

  /** The kept elements of `s`, in order (the `filter` of JavaScript arrays). */
  function Filter<T>(p: T -> bool, s: seq<T>): (r: seq<T>)
    ensures |r| <= |s|
  {
    if s == [] then [] else (if p(s[0]) then [s[0]] else []) + Filter(p, s[1..])
  }

  lemma {:induction false} FilterMembers<T>(p: T -> bool, s: seq<T>, x: T)
    ensures x in Filter(p, s) <==> x in s && p(x)
  {
    if s != [] {
      FilterMembers(p, s[1..], x);
    }
  }

  lemma {:induction false} FilterAppend<T>(p: T -> bool, a: seq<T>, b: seq<T>)
    ensures Filter(p, a + b) == Filter(p, a) + Filter(p, b)
  {
    if a == [] {
      assert a + b == b;
    } else {
      FilterAppend(p, a[1..], b);
      FilterStep(p, a[0], a[1..] + b);
      FilterStep(p, a[0], a[1..]);
      assert a + b == [a[0]] + (a[1..] + b) && a == [a[0]] + a[1..];
    }
  }

  /** The places of `s` where the test holds, in order. */
  ghost predicate PlacesOf<T>(p: T -> bool, s: seq<T>, places: seq<nat>) {
    && (forall i, j :: 0 <= i < j < |places| ==> places[i] < places[j])
    && (forall i :: 0 <= i < |places| ==> places[i] < |s| && p(s[places[i]]))
    && (forall k :: 0 <= k < |s| && p(s[k]) ==> k in places)
  }

  /** The elements of `s` at these places. */
  ghost predicate PickedAt<T>(s: seq<T>, places: seq<nat>, r: seq<T>) {
    |r| == |places| && forall i :: 0 <= i < |places| ==> places[i] < |s| && r[i] == s[places[i]]
  }

  /** The kept elements are those at the places where the test holds, in order and as often. */
  lemma {:induction false} FilterPlaces<T>(p: T -> bool, s: seq<T>) returns (places: seq<nat>)
    ensures PlacesOf(p, s, places) && PickedAt(s, places, Filter(p, s))
  {
    hide Filter, PlacesOf, PickedAt;
    if s == [] {
      places := [];
      PlacesNone(p, s);
    } else {
      var n := |s| - 1;
      var before := FilterPlaces(p, s[..n]);
      FilterLast(p, s);
      PlacesLast(p, s, before);
      PickedLast(s, before, Filter(p, s[..n]));
      places := if p(s[n]) then before + [n] else before;
    }
  }

  lemma PlacesNone<T>(p: T -> bool, s: seq<T>)
    requires s == []
    ensures PlacesOf(p, s, []) && PickedAt(s, [], Filter(p, s))
  {
  }

  lemma PlacesLast<T>(p: T -> bool, s: seq<T>, before: seq<nat>)
    requires s != [] && PlacesOf(p, s[..|s| - 1], before)
    ensures PlacesOf(p, s, if p(s[|s| - 1]) then before + [|s| - 1] else before)
  {
    var n := |s| - 1;
    var places := if p(s[n]) then before + [n] else before;
    forall k | 0 <= k < |s| && p(s[k]) ensures k in places {
      assert k < n ==> s[..n][k] == s[k];
    }
  }

  lemma PickedLast<T>(s: seq<T>, before: seq<nat>, r: seq<T>)
    requires s != [] && PickedAt(s[..|s| - 1], before, r)
    ensures PickedAt(s, before, r) && PickedAt(s, before + [|s| - 1], r + [s[|s| - 1]])
  {
  }

  lemma FilterLast<T>(p: T -> bool, s: seq<T>)
    requires s != []
    ensures var n := |s| - 1;
            Filter(p, s) == if p(s[n]) then Filter(p, s[..n]) + [s[n]] else Filter(p, s[..n])
  {
    hide Filter;
    var n := |s| - 1;
    FilterAppend(p, s[..n], [s[n]]);
    assert s[..n] + [s[n]] == s;
    FilterOne(p, s[n]);
  }

  lemma FilterOne<T>(p: T -> bool, x: T)
    ensures Filter(p, [x]) == if p(x) then [x] else []
  {
    assert [x][1..] == [];
  }

  lemma FilterStep<T>(p: T -> bool, x: T, s: seq<T>)
    ensures Filter(p, [x] + s) == (if p(x) then [x] else []) + Filter(p, s)
  {
    assert ([x] + s)[1..] == s;
  }

  /** The values of `f` on `s`, in order (the `map` of JavaScript arrays). */
  function Map<T, U>(f: T -> U, s: seq<T>): (r: seq<U>)
    ensures |r| == |s|
    ensures forall i :: 0 <= i < |s| ==> r[i] == f(s[i])
  {
    seq(|s|, i requires 0 <= i < |s| => f(s[i]))
  }
}

/**
 * The stable `Array.prototype.sort` with a comparator: `le(x, y)` holds when the
 * comparator returns a number that is not positive.
 */
module Sorting {
  ghost predicate TotalPreorder<T(!new)>(le: (T, T) -> bool) {
    && (forall x, y :: le(x, y) || le(y, x))
    && (forall x, y, z :: le(x, y) && le(y, z) ==> le(x, z))
  }

  ghost predicate Sorted<T>(le: (T, T) -> bool, s: seq<T>) {
    forall i, j :: 0 <= i < j < |s| ==> le(s[i], s[j])
  }

  function Insert<T>(le: (T, T) -> bool, x: T, s: seq<T>): (r: seq<T>)
    ensures |r| == |s| + 1
    ensures multiset(r) == multiset(s) + multiset{x}
  {
    if s == [] || le(x, s[0]) then
      [x] + s
    else
      assert s == [s[0]] + s[1..];
      [s[0]] + Insert(le, x, s[1..])
  }

  function Sort<T>(le: (T, T) -> bool, s: seq<T>): (r: seq<T>)
    ensures |r| == |s|
    ensures multiset(r) == multiset(s)
  {
    if s == [] then
      []
    else
      assert s == [s[0]] + s[1..];
      Insert(le, s[0], Sort(le, s[1..]))
  }

  lemma InsertNone<T>(le: (T, T) -> bool, x: T)
    ensures Insert(le, x, []) == [x]
  {
  }

  lemma InsertStep<T>(le: (T, T) -> bool, x: T, y: T, s: seq<T>)
    ensures Insert(le, x, [y] + s) == if le(x, y) then [x] + ([y] + s) else [y] + Insert(le, x, s)
  {
    assert ([y] + s)[1..] == s;
  }

  lemma SortStep<T>(le: (T, T) -> bool, x: T, s: seq<T>)
    ensures Sort(le, [x] + s) == Insert(le, x, Sort(le, s))
  {
    assert ([x] + s)[1..] == s;
  }

  lemma {:induction false} InsertSorted<T(!new)>(le: (T, T) -> bool, x: T, s: seq<T>)
    requires TotalPreorder(le) && Sorted(le, s)
    ensures Sorted(le, Insert(le, x, s))
  {
    if s == [] || le(x, s[0]) {
    } else {
      InsertSorted(le, x, s[1..]);
      var r := Insert(le, x, s[1..]);
      forall k | 0 <= k < |r| ensures le(s[0], r[k]) {
        assert r[k] in multiset(r);
        assert r[k] in s[1..] || r[k] == x;
      }
    }
  }

  /** The result is in order. */
  lemma {:induction false} SortSorted<T(!new)>(le: (T, T) -> bool, s: seq<T>)
    requires TotalPreorder(le)
    ensures Sorted(le, Sort(le, s))
  {
    if s != [] {
      SortSorted(le, s[1..]);
      InsertSorted(le, s[0], Sort(le, s[1..]));
    }
  }

  /** `x` stands somewhere before `y`. */
  ghost predicate Before<T>(s: seq<T>, x: T, y: T) {
    exists i, j :: 0 <= i < j < |s| && s[i] == x && s[j] == y
  }

  lemma BeforeBehind<T>(z: T, s: seq<T>, x: T, y: T)
    ensures Before(s, x, y) ==> Before([z] + s, x, y)
    ensures z == x && y in s ==> Before([z] + s, x, y)
    ensures Before([z] + s, x, y) && z != x ==> Before(s, x, y)
  {
    var all := [z] + s;
    if i, j :| 0 <= i < j < |s| && s[i] == x && s[j] == y {
      assert all[i + 1] == x && all[j + 1] == y;
    }
    if z == x && y in s {
      var j :| 0 <= j < |s| && s[j] == y;
      assert all[0] == x && all[j + 1] == y;
    }
    if i, j :| 0 <= i < j < |all| && all[i] == x && all[j] == y {
      assert i > 0 ==> s[i - 1] == x && s[j - 1] == y;
    }
  }

  lemma {:induction false} InsertKeepsBefore<T>(le: (T, T) -> bool, z: T, s: seq<T>, x: T, y: T)
    requires Before(s, x, y)
    ensures Before(Insert(le, z, s), x, y)
  {
    hide Before;
    BeforeNeedsTwo(s, x, y);
    var rest := s[1..];
    assert s == [s[0]] + rest;
    InsertStep(le, z, s[0], rest);
    BeforeBehind(z, s, x, y);
    if !le(z, s[0]) {
      InsertMember(le, z, rest, y);
      BeforeBehind(s[0], Insert(le, z, rest), x, y);
      if s[0] != x {
        BeforeBehind(s[0], rest, x, y);
        InsertKeepsBefore(le, z, rest, x, y);
      }
    }
  }

  lemma BeforeNeedsTwo<T>(s: seq<T>, x: T, y: T)
    requires Before(s, x, y)
    ensures s != [] && y in s[1..]
  {
    var i, j :| 0 <= i < j < |s| && s[i] == x && s[j] == y;
    assert s[1..][j - 1] == y;
  }

  lemma InsertMember<T>(le: (T, T) -> bool, z: T, s: seq<T>, y: T)
    ensures y in Insert(le, z, s) <==> y == z || y in s
  {
    hide Insert;
    assert y in Insert(le, z, s) <==> y in multiset(Insert(le, z, s));
    assert y in s <==> y in multiset(s);
  }

  /** An inserted value comes before every one that it is not worse than, and after every other. */
  lemma {:induction false} InsertPlace<T(!new)>(le: (T, T) -> bool, z: T, s: seq<T>, y: T)
    requires TotalPreorder(le) && Sorted(le, s) && y in s
    ensures if le(z, y) then Before(Insert(le, z, s), z, y) else Before(Insert(le, z, s), y, z)
  {
    hide Before;
    var rest := s[1..];
    assert s == [s[0]] + rest;
    InsertStep(le, z, s[0], rest);
    if le(z, s[0]) {
      assert le(s[0], y);
      BeforeBehind(z, s, z, y);
    } else {
      InsertMember(le, z, rest, z);
      BeforeBehind(s[0], Insert(le, z, rest), y, z);
      if y != s[0] || le(z, y) {
        InsertPlace(le, z, rest, y);
        BeforeBehind(s[0], Insert(le, z, rest), z, y);
      }
    }
  }

  /** The sort is stable: of two values the one listed earlier stays in front unless it is worse. */
  lemma {:induction false} SortIsStable<T(!new)>(le: (T, T) -> bool, s: seq<T>, i: nat, j: nat)
    requires TotalPreorder(le) && i < j < |s|
    ensures if le(s[i], s[j]) then Before(Sort(le, s), s[i], s[j]) else Before(Sort(le, s), s[j], s[i])
  {
    hide Before, Insert;
    var rest := s[1..];
    assert s == [s[0]] + rest;
    SortStep(le, s[0], rest);
    if i == 0 {
      assert rest[j - 1] == s[j];
      SortMembers(le, rest);
      SortSorted(le, rest);
      InsertPlace(le, s[0], Sort(le, rest), s[j]);
    } else {
      SortIsStable(le, rest, i - 1, j - 1);
      if le(s[i], s[j]) {
        InsertKeepsBefore(le, s[0], Sort(le, rest), s[i], s[j]);
      } else {
        InsertKeepsBefore(le, s[0], Sort(le, rest), s[j], s[i]);
      }
    }
  }

  /** A list that is already in order is left as it is. */
  lemma {:induction false} SortOfSorted<T>(le: (T, T) -> bool, s: seq<T>)
    requires Sorted(le, s)
    ensures Sort(le, s) == s
  {
    if s != [] {
      SortOfSorted(le, s[1..]);
    }
  }

  lemma SortMembers<T(!new)>(le: (T, T) -> bool, s: seq<T>)
    ensures forall x :: x in Sort(le, s) <==> x in s
  {
    forall x ensures x in Sort(le, s) <==> x in s {
      assert x in Sort(le, s) <==> x in multiset(Sort(le, s));
      assert x in s <==> x in multiset(s);
    }
  }
}

/** Facts about products, quotients and powers that the solver needs stated. */
module Arithmetic {
  function Pow2(n: nat): (p: nat)
    ensures p >= 1
  {
    if n == 0 then 1 else 2 * Pow2(n - 1)
  }

  lemma Scale(m: int, a: int, b: int)
    requires m >= 0 && a <= b
    ensures m * a <= m * b
  {
  }

  /** A number less its remainder is the multiple below it. */
  lemma Multiple(x: nat, d: nat)
    requires d > 0
    ensures 0 <= d * (x / d) == x - x % d <= x
  {
    Scale(d, 0, x / d);
  }

  lemma Distribute(m: int, a: int, b: int)
    ensures m * a + m * b == m * (a + b)
  {
  }

  /** A division result is determined by quotient and remainder. */
  lemma QuotientUnique(x: int, d: int, q: int, r: int)
    requires d > 0 && 0 <= r < d && x == d * q + r
    ensures x / d == q && x % d == r
  {
    var q', r' := x / d, x % d;
    assert d * (q - q') == r' - r;
    if q > q' {
      Scale(d, 1, q - q');
    } else if q < q' {
      Scale(d, q - q', -1);
    }
  }

  lemma QuotientOfQuotient(n: nat, a: nat, b: nat)
    requires a > 0 && b > 0
    ensures a * b > 0 && n / (a * b) == n / a / b
  {
    var q, r := n / a, n % a;
    var q', r' := q / b, q % b;
    assert n == a * (b * q' + r') + r;
    assert a * (b * q' + r') == (a * b) * q' + a * r';
    Scale(a, r', b - 1);
    assert a * (b - 1) == a * b - a;
    Scale(a, 0, r');
    QuotientUnique(n, a * b, q', a * r' + r);
  }
}
