/**
 * Python's `list.sort` / `sorted` with a key: a stable sort. It is modelled by an
 * insertion sort over a total preorder `le` ("may come before"), together with the
 * facts that make it a sort: the result is ordered, is a permutation of the input,
 * and keeps equivalent elements in their input order. Also Python's string order
 * (lexicographic by code point) and `sorted(set(xs))` on integers.
 */
module Sorting {

  /** `le` is total and transitive (and therefore reflexive). */
  ghost predicate TotalPreorder<T(!new)>(le: (T, T) -> bool) {
    && (forall a, b :: le(a, b) || le(b, a))
    && (forall a, b, c :: le(a, b) && le(b, c) ==> le(a, c))
  }

  predicate SortedBy<T>(s: seq<T>, le: (T, T) -> bool) {
    forall i, j :: 0 <= i < j < |s| ==> le(s[i], s[j])
  }

  predicate Distinct<T(==)>(s: seq<T>) {
    forall i, j :: 0 <= i < j < |s| ==> s[i] != s[j]
  }

  /** Inserts `x` after every element of `t` that may come before it. */
  function Insert<T>(t: seq<T>, x: T, le: (T, T) -> bool): seq<T> {
    if |t| == 0 then [x]
    else if le(t[0], x) then [t[0]] + Insert(t[1..], x, le)
    else [x] + t
  }

  /** Stable sort: each element in input order is inserted after its equivalents. */
  function SortBy<T>(s: seq<T>, le: (T, T) -> bool): seq<T> {
    if |s| == 0 then [] else Insert(SortBy(s[..|s| - 1], le), s[|s| - 1], le)
  }

  /** The elements of `s` equivalent to `e`, in the order of `s`. */
  function Equivalents<T>(s: seq<T>, e: T, le: (T, T) -> bool): seq<T> {
    if |s| == 0 then []
    else (if le(s[0], e) && le(e, s[0]) then [s[0]] else []) + Equivalents(s[1..], e, le)
  }

  lemma {:induction false} InsertPermutes<T>(t: seq<T>, x: T, le: (T, T) -> bool)
    ensures multiset(Insert(t, x, le)) == multiset(t) + multiset{x}
  {
    if |t| > 0 && le(t[0], x) {
      InsertPermutes(t[1..], x, le);
      assert t == [t[0]] + t[1..];
    }
  }

  /** What may come before `x` and before all of `t` may come before all of the insertion. */
  lemma {:induction false} InsertLowerBound<T>(t: seq<T>, x: T, a: T, le: (T, T) -> bool)
    requires le(a, x)
    requires forall j :: 0 <= j < |t| ==> le(a, t[j])
    ensures |Insert(t, x, le)| == |t| + 1
    ensures forall j :: 0 <= j < |Insert(t, x, le)| ==> le(a, Insert(t, x, le)[j])
  {
    var r := Insert(t, x, le);
    if |t| == 0 {
      assert r == [x];
    } else if le(t[0], x) {
      var rest := Insert(t[1..], x, le);
      InsertLowerBound(t[1..], x, a, le);
      assert r == [t[0]] + rest;
      forall j | 0 <= j < |r| ensures le(a, r[j]) {
        if j > 0 {
          assert r[j] == rest[j - 1];
        }
      }
    } else {
      assert r == [x] + t;
      forall j | 0 <= j < |r| ensures le(a, r[j]) {
        if j > 0 {
          assert r[j] == t[j - 1];
        }
      }
    }
  }

  lemma {:induction false} InsertSorted<T(!new)>(t: seq<T>, x: T, le: (T, T) -> bool)
    requires TotalPreorder(le)
    requires SortedBy(t, le)
    ensures SortedBy(Insert(t, x, le), le)
  {
    var r := Insert(t, x, le);
    if |t| == 0 {
      assert r == [x];
    } else if le(t[0], x) {
      var tail := t[1..];
      var rest := Insert(tail, x, le);
      assert SortedBy(tail, le);
      InsertSorted(tail, x, le);
      assert forall j :: 0 <= j < |tail| ==> le(t[0], tail[j]);
      InsertLowerBound(tail, x, t[0], le);
      assert r == [t[0]] + rest;
      forall i, j | 0 <= i < j < |r| ensures le(r[i], r[j]) {
        assert r[j] == rest[j - 1];
        if i > 0 {
          assert r[i] == rest[i - 1];
        }
      }
    } else {
      assert le(x, t[0]);
      assert r == [x] + t;
      forall i, j | 0 <= i < j < |r| ensures le(r[i], r[j]) {
        assert r[j] == t[j - 1];
        if i > 0 {
          assert r[i] == t[i - 1];
        } else if j > 1 {
          assert le(t[0], t[j - 1]);
        }
      }
    }
  }

  /** Elements of a sorted `t` that cannot come before `x` are all after any that can. */
  lemma NoneBefore<T(!new)>(t: seq<T>, x: T, le: (T, T) -> bool)
    requires TotalPreorder(le)
    requires SortedBy(t, le)
    requires |t| > 0 && !le(t[0], x)
    ensures forall j :: 0 <= j < |t| ==> !le(t[j], x)
  {
    forall j | 0 <= j < |t| ensures !le(t[j], x) {
      if j > 0 {
        assert le(t[0], t[j]);
      }
    }
  }

  lemma {:induction false} EquivalentsEmpty<T(!new)>(t: seq<T>, x: T, e: T, le: (T, T) -> bool)
    requires TotalPreorder(le)
    requires le(x, e) && le(e, x)
    requires forall j :: 0 <= j < |t| ==> !le(t[j], x)
    ensures Equivalents(t, e, le) == []
  {
    if |t| > 0 {
      assert !le(t[0], x);
      EquivalentsEmpty(t[1..], x, e, le);
    }
  }

  lemma {:induction false} InsertStable<T(!new)>(t: seq<T>, x: T, e: T, le: (T, T) -> bool)
    requires TotalPreorder(le)
    requires SortedBy(t, le)
    ensures Equivalents(Insert(t, x, le), e, le)
            == Equivalents(t, e, le) + (if le(x, e) && le(e, x) then [x] else [])
  {
    var r := Insert(t, x, le);
    var mark := if le(x, e) && le(e, x) then [x] else [];
    if |t| == 0 {
      assert r == [x];
      assert r[1..] == [];
    } else if le(t[0], x) {
      var tail := t[1..];
      assert SortedBy(tail, le);
      InsertStable(tail, x, e, le);
      var head := if le(t[0], e) && le(e, t[0]) then [t[0]] else [];
      assert r[0] == t[0] && r[1..] == Insert(tail, x, le);
      calc {
        Equivalents(r, e, le);
        head + Equivalents(Insert(tail, x, le), e, le);
        head + (Equivalents(tail, e, le) + mark);
        (head + Equivalents(tail, e, le)) + mark;
      }
    } else {
      assert r == [x] + t;
      assert r[0] == x && r[1..] == t;
      if le(x, e) && le(e, x) {
        NoneBefore(t, x, le);
        EquivalentsEmpty(t, x, e, le);
      }
    }
  }

  /** `sorted(s, key=...)`: ordered, a permutation of `s`, and stable. */
  lemma {:induction false} SortByIsStableSort<T(!new)>(s: seq<T>, le: (T, T) -> bool)
    requires TotalPreorder(le)
    ensures SortedBy(SortBy(s, le), le)
    ensures multiset(SortBy(s, le)) == multiset(s)
    ensures |SortBy(s, le)| == |s|
    ensures forall e :: Equivalents(SortBy(s, le), e, le) == Equivalents(s, e, le)
  {
    if |s| > 0 {
      var init, x := s[..|s| - 1], s[|s| - 1];
      SortByIsStableSort(init, le);
      InsertSorted(SortBy(init, le), x, le);
      InsertPermutes(SortBy(init, le), x, le);
      assert s == init + [x];
      forall e ensures Equivalents(SortBy(s, le), e, le) == Equivalents(s, e, le) {
        InsertStable(SortBy(init, le), x, e, le);
        EquivalentsAppend(init, x, e, le);
      }
      assert |multiset(SortBy(s, le))| == |s|;
    }
  }

  lemma {:induction false} EquivalentsAppend<T>(s: seq<T>, x: T, e: T, le: (T, T) -> bool)
    ensures Equivalents(s + [x], e, le)
            == Equivalents(s, e, le) + (if le(x, e) && le(e, x) then [x] else [])
  {
    if |s| > 0 {
      assert (s + [x])[1..] == s[1..] + [x];
      EquivalentsAppend(s[1..], x, e, le);
    } else {
      assert [x][1..] == [];
    }
  }

  lemma {:induction false} InsertDistinct<T>(t: seq<T>, x: T, le: (T, T) -> bool)
    requires Distinct(t) && x !in t
    ensures Distinct(Insert(t, x, le))
  {
    if |t| > 0 && le(t[0], x) {
      InsertDistinct(t[1..], x, le);
      InsertPermutes(t[1..], x, le);
      assert t[0] !in multiset(Insert(t[1..], x, le)) by {
        assert t[0] !in t[1..];
      }
    }
  }

  /** Sorting a list without repeats gives a list without repeats. */
  lemma {:induction false} SortByDistinct<T>(s: seq<T>, le: (T, T) -> bool)
    requires Distinct(s)
    ensures Distinct(SortBy(s, le))
  {
    if |s| > 0 {
      var init, x := s[..|s| - 1], s[|s| - 1];
      SortByDistinct(init, le);
      SortByPermutes(init, le);
      assert x !in init;
      assert x !in multiset(SortBy(init, le));
      InsertDistinct(SortBy(init, le), x, le);
    }
  }

  lemma {:induction false} SortByPermutes<T>(s: seq<T>, le: (T, T) -> bool)
    ensures multiset(SortBy(s, le)) == multiset(s)
  {
    if |s| > 0 {
      var init, x := s[..|s| - 1], s[|s| - 1];
      SortByPermutes(init, le);
      InsertPermutes(SortBy(init, le), x, le);
      assert s == init + [x];
    }
  }

  /** Python's `a <= b` on strings: lexicographic by code point, a prefix first. */
  predicate LexLe(a: string, b: string) {
    |a| == 0 || (|b| > 0 && (a[0] < b[0] || (a[0] == b[0] && LexLe(a[1..], b[1..]))))
  }

  /** Python's `a < b` on strings. */
  predicate LexLt(a: string, b: string) {
    LexLe(a, b) && a != b
  }

  lemma {:induction false} LexLeTotal(a: string, b: string)
    ensures LexLe(a, b) || LexLe(b, a)
  {
    if |a| > 0 && |b| > 0 && a[0] == b[0] {
      LexLeTotal(a[1..], b[1..]);
    }
  }

  lemma {:induction false} LexLeTransitive(a: string, b: string, c: string)
    requires LexLe(a, b) && LexLe(b, c)
    ensures LexLe(a, c)
  {
    if |a| > 0 && a[0] == b[0] && b[0] == c[0] {
      LexLeTransitive(a[1..], b[1..], c[1..]);
    }
  }

  lemma {:induction false} LexLeAntisymmetric(a: string, b: string)
    requires LexLe(a, b) && LexLe(b, a)
    ensures a == b
  {
    if |a| > 0 {
      LexLeAntisymmetric(a[1..], b[1..]);
      assert a == [a[0]] + a[1..] && b == [b[0]] + b[1..];
    }
  }

  lemma {:induction false} LexLtLeTransitive(a: string, b: string, c: string)
    requires LexLt(a, b) && LexLe(b, c)
    ensures LexLt(a, c)
  {
    LexLeTransitive(a, b, c);
    if |a| > 0 {
      if a[0] == b[0] && b[0] == c[0] {
        assert a[1..] != b[1..] by {
          assert a == [a[0]] + a[1..] && b == [b[0]] + b[1..];
        }
        LexLtLeTransitive(a[1..], b[1..], c[1..]);
      }
    }
  }

  predicate StrictlyIncreasing(s: seq<int>) {
    forall i, j :: 0 <= i < j < |s| ==> s[i] < s[j]
  }

  /** Inserts `x` into a strictly increasing list unless it is already there. */
  function InsertUnique(t: seq<int>, x: int): (r: seq<int>)
    requires StrictlyIncreasing(t)
    ensures StrictlyIncreasing(r)
    ensures forall y :: y in r <==> y in t || y == x
    ensures |r| <= |t| + 1
  {
    if |t| == 0 then [x]
    else if x < t[0] then [x] + t
    else if x == t[0] then t
    else
      var rest := InsertUnique(t[1..], x);
      IncreasingAfterHead(t, x, rest);
      [t[0]] + rest
  }

  /** Putting the head of `t` back in front of the insertion into its tail keeps the
      list strictly increasing. */
  lemma IncreasingAfterHead(t: seq<int>, x: int, rest: seq<int>)
    requires StrictlyIncreasing(t) && |t| > 0 && t[0] < x
    requires StrictlyIncreasing(rest)
    requires forall y :: y in rest ==> y in t[1..] || y == x
    ensures StrictlyIncreasing([t[0]] + rest)
  {
    assert forall y :: y in t[1..] ==> t[0] < y;
    var r := [t[0]] + rest;
    forall i, j | 0 <= i < j < |r| ensures r[i] < r[j] {
      assert r[j] == rest[j - 1] && rest[j - 1] in rest;
      if i > 0 {
        assert r[i] == rest[i - 1];
      }
    }
  }

  /** `sorted(set(xs))`: the distinct elements of `xs` in increasing order. */
  function SortedSet(xs: seq<int>): (r: seq<int>)
    ensures StrictlyIncreasing(r)
    ensures forall y :: y in r <==> y in xs
    ensures |r| <= |xs|
  {
    if |xs| == 0 then []
    else
      var init := xs[..|xs| - 1];
      assert xs == init + [xs[|xs| - 1]];
      InsertUnique(SortedSet(init), xs[|xs| - 1])
  }

  /** A strictly increasing list is determined by its elements, so `SortedSet` is
      the one list `sorted(set(xs))` can be. */
  lemma {:induction false} StrictlyIncreasingUnique(a: seq<int>, b: seq<int>)
    requires StrictlyIncreasing(a) && StrictlyIncreasing(b)
    requires forall y :: y in a <==> y in b
    ensures a == b
  {
    if |a| > 0 { assert a[0] in a; }
    if |b| > 0 { assert b[0] in b; }
    if |a| > 0 && |b| > 0 {
      assert a[0] in b && b[0] in a;
      var i :| 0 <= i < |b| && b[i] == a[0];
      var j :| 0 <= j < |a| && a[j] == b[0];
      assert b[0] <= b[i] && a[0] <= a[j];
      forall y ensures y in a[1..] <==> y in b[1..] {
        if y in a[1..] { assert y in b && y != b[0]; }
        if y in b[1..] { assert y in a && y != a[0]; }
      }
      StrictlyIncreasingUnique(a[1..], b[1..]);
      assert a == [a[0]] + a[1..] && b == [b[0]] + b[1..];
    }
  }
}
