/**
 * Sequence operations behind the list expressions of the client (`filter`, `slice`) and
 * behind the querysets of the server (`filter`, `order_by`, `[a:b]`), with the facts
 * about them that the rest of the model relies on.
 */
module Seqs {

  // ---------------------------------------------------------------- filtering

  /** The elements of `s` that satisfy `p`, in their order in `s`. */
  function Filter<T>(s: seq<T>, p: T -> bool): (r: seq<T>)
    ensures |r| <= |s|
    ensures forall x :: x in r ==> x in s && p(x)
    ensures forall x :: x in s && p(x) ==> x in r
  {
    if s == [] then []
    else
      assert s == [s[0]] + s[1..];
      (if p(s[0]) then [s[0]] else []) + Filter(s[1..], p)
  }

  lemma {:induction false} FilterConcat<T>(a: seq<T>, b: seq<T>, p: T -> bool)
    ensures Filter(a + b, p) == Filter(a, p) + Filter(b, p)
  {
    if a != [] {
      var head := if p(a[0]) then [a[0]] else [];
      var fa, fb := Filter(a[1..], p), Filter(b, p);
      assert Filter(a + b, p) == head + Filter(a[1..] + b, p) by {
        assert (a + b)[0] == a[0];
        assert (a + b)[1..] == a[1..] + b;
      }
      FilterConcat(a[1..], b, p);
      assert head + (fa + fb) == (head + fa) + fb;
    } else {
      assert a + b == b;
    }
  }

  /** Filtering keeps everything exactly when everything satisfies the predicate. */
  lemma {:induction false} FilterAll<T>(s: seq<T>, p: T -> bool)
    ensures (forall i :: 0 <= i < |s| ==> p(s[i])) <==> Filter(s, p) == s
  {
    if s != [] {
      FilterAll(s[1..], p);
      if !p(s[0]) {
        assert |Filter(s, p)| < |s|;
      }
    }
  }

  /** Filtering keeps nothing exactly when nothing satisfies the predicate. */
  lemma FilterEmpty<T>(s: seq<T>, p: T -> bool)
    ensures (forall i :: 0 <= i < |s| ==> !p(s[i])) <==> Filter(s, p) == []
  {
    if Filter(s, p) == [] {
      forall i | 0 <= i < |s| ensures !p(s[i]) {
        assert s[i] in s;
      }
    }
  }

  /** Filtering by `p` then `q` is filtering by a predicate that is `p` and `q`. */
  lemma {:induction false} FilterFilter<T>(s: seq<T>, p: T -> bool, q: T -> bool, both: T -> bool)
    requires forall x :: both(x) == (p(x) && q(x))
    ensures Filter(Filter(s, p), q) == Filter(s, both)
  {
    if s != [] {
      FilterFilter(s[1..], p, q, both);
      FilterConcat(if p(s[0]) then [s[0]] else [], Filter(s[1..], p), q);
    }
  }

  /** Filtering by two predicates that agree everywhere keeps the same elements. */
  lemma {:induction false} FilterSame<T>(s: seq<T>, p: T -> bool, q: T -> bool)
    requires forall x :: p(x) == q(x)
    ensures Filter(s, p) == Filter(s, q)
  {
    if s != [] {
      FilterSame(s[1..], p, q);
    }
  }

  /** Two filters may be applied in either order. */
  lemma FilterCommute<T>(s: seq<T>, p: T -> bool, q: T -> bool)
    ensures Filter(Filter(s, p), q) == Filter(Filter(s, q), p)
  {
    var pq := (x: T) => p(x) && q(x);
    var qp := (x: T) => q(x) && p(x);
    FilterFilter(s, p, q, pq);
    FilterFilter(s, q, p, qp);
    FilterSame(s, pq, qp);
  }

  /** Filtering by three predicates that split the elements into three groups keeps every
      element exactly once. */
  lemma {:induction false} FilterPartition<T>(s: seq<T>, p0: T -> bool, p1: T -> bool, p2: T -> bool)
    requires forall x :: (p0(x) || p1(x) || p2(x)) && !(p0(x) && p1(x)) && !(p0(x) && p2(x)) && !(p1(x) && p2(x))
    ensures multiset(Filter(s, p0) + Filter(s, p1) + Filter(s, p2)) == multiset(s)
  {
    if s != [] {
      var x, t := s[0], s[1..];
      FilterPartition(t, p0, p1, p2);
      assert multiset(s) == multiset{x} + multiset(t) by { assert s == [x] + t; }
      var u0, u1, u2 := Filter(t, p0), Filter(t, p1), Filter(t, p2);
      var h0 := if p0(x) then [x] else [];
      var h1 := if p1(x) then [x] else [];
      var h2 := if p2(x) then [x] else [];
      assert Filter(s, p0) == h0 + u0;
      assert Filter(s, p1) == h1 + u1;
      assert Filter(s, p2) == h2 + u2;
      assert multiset(h0) + multiset(h1) + multiset(h2) == multiset{x};
      var m0, m1, m2 := multiset(u0), multiset(u1), multiset(u2);
      assert multiset(u0 + u1 + u2) == m0 + m1 + m2;
      var a0, a1, a2 := h0 + u0, h1 + u1, h2 + u2;
      assert multiset(a0) == multiset(h0) + m0;
      assert multiset(a1) == multiset(h1) + m1;
      assert multiset(a2) == multiset(h2) + m2;
      assert multiset(a0 + a1 + a2) == multiset(a0) + multiset(a1) + multiset(a2);
      Regroup(multiset(h0), m0, multiset(h1), m1, multiset(h2), m2);
    }
  }

  lemma Regroup<T>(a: multiset<T>, b: multiset<T>, c: multiset<T>, d: multiset<T>, e: multiset<T>, f: multiset<T>)
    ensures (a + b) + (c + d) + (e + f) == (a + c + e) + (b + d + f)
  {
  }

  // ---------------------------------------------------------------- slicing

  /** `s[:n]` in Python and `s.slice(0, n)` in JavaScript, for `n >= 0`. */
  function Take<T>(s: seq<T>, n: nat): (r: seq<T>)
    ensures |r| <= n && |r| <= |s|
    ensures n <= |s| ==> |r| == n
    ensures |s| <= n ==> r == s
    ensures forall i :: 0 <= i < |r| ==> r[i] == s[i]
  {
    if n <= |s| then s[..n] else s
  }

  /** `s[start:end]` for non-negative bounds, as Python lists and Django querysets slice:
      bounds past the end are clamped and an empty range gives nothing. */
  function Slice<T>(s: seq<T>, start: nat, end: nat): (r: seq<T>)
    ensures |r| <= |s|
    ensures start <= end ==> |r| <= end - start
    ensures end <= start ==> r == []
    ensures start <= end <= |s| ==> r == s[start..end]
    ensures start <= |s| <= end ==> r == s[start..]
    ensures |s| <= start ==> r == []
  {
    if end <= start || |s| <= start then []
    else if end <= |s| then s[start..end]
    else s[start..]
  }

  /** Taking is slicing from zero. */
  lemma TakeIsSlice<T>(s: seq<T>, n: nat)
    ensures Take(s, n) == Slice(s, 0, n)
  {
  }

  /** A slice of a sorted sequence is sorted, and it holds only elements of the sequence. */
  lemma SliceSorted<T>(s: seq<T>, le: (T, T) -> bool, start: nat, end: nat)
    requires SortedBy(s, le)
    ensures SortedBy(Slice(s, start, end), le)
    ensures forall x :: x in Slice(s, start, end) ==> x in s
  {
    var r := Slice(s, start, end);
    if r != [] {
      var stop := if end <= |s| then end else |s|;
      assert r == s[start..stop];
      forall i, j | 0 <= i < j < |r| ensures le(r[i], r[j]) {
        assert r[i] == s[start + i] && r[j] == s[start + j];
      }
      forall x | x in r ensures x in s {
        var k :| 0 <= k < |r| && r[k] == x;
        assert s[start + k] == x;
      }
    }
  }

  /** The first `n` elements of a sorted sequence are sorted, come from it, and are ordered
      before every element left out. */
  lemma TakeSorted<T>(s: seq<T>, le: (T, T) -> bool, n: nat)
    requires SortedBy(s, le)
    ensures SortedBy(Take(s, n), le)
    ensures forall x :: x in Take(s, n) ==> x in s
    ensures forall x, y :: x in Take(s, n) && y in s && y !in Take(s, n) ==> le(x, y)
  {
    var t := Take(s, n);
    TakeIsSlice(s, n);
    SliceSorted(s, le, 0, n);
    forall x, y | x in t && y in s && y !in t ensures le(x, y) {
      var k :| 0 <= k < |t| && t[k] == x;
      var m :| 0 <= m < |s| && s[m] == y;
      assert s[k] == x && k < m;
    }
  }

  // ---------------------------------------------------------------- ordering

  /** A relation usable as an `ORDER BY` key: total and transitive (ties are allowed). */
  ghost predicate TotalPreorder<T(!new)>(le: (T, T) -> bool) {
    && (forall a, b :: le(a, b) || le(b, a))
    && (forall a, b, c :: le(a, b) && le(b, c) ==> le(a, c))
  }

  predicate SortedBy<T>(s: seq<T>, le: (T, T) -> bool) {
    forall i, j :: 0 <= i < j < |s| ==> le(s[i], s[j])
  }

  /** Puts `x` in front of the first element it is ordered before. */
  function Insert<T>(x: T, s: seq<T>, le: (T, T) -> bool): (r: seq<T>)
    ensures multiset(r) == multiset(s) + multiset{x}
    ensures |r| == |s| + 1
  {
    if s == [] then [x]
    else if le(x, s[0]) then [x] + s
    else
      assert s == [s[0]] + s[1..];
      [s[0]] + Insert(x, s[1..], le)
  }

  /** Insertion sort. Elements that tie keep their order in `s`, which is one of the orders
      a database may return for an `ORDER BY` with ties. */
  function SortBy<T>(s: seq<T>, le: (T, T) -> bool): (r: seq<T>)
    ensures multiset(r) == multiset(s)
    ensures |r| == |s|
  {
    if s == [] then []
    else
      assert s == [s[0]] + s[1..];
      Insert(s[0], SortBy(s[1..], le), le)
  }

  /** Inserting adds `x` and nothing else. */
  lemma InsertMember<T>(x: T, s: seq<T>, le: (T, T) -> bool, y: T)
    requires y in Insert(x, s, le)
    ensures y == x || y in s
  {
    assert y in multiset(Insert(x, s, le));
  }

  lemma {:induction false} InsertSorted<T(!new)>(x: T, s: seq<T>, le: (T, T) -> bool)
    requires TotalPreorder(le) && SortedBy(s, le)
    ensures SortedBy(Insert(x, s, le), le)
  {
    if s == [] {
    } else if le(x, s[0]) {
      InsertSortedFront(x, s, le);
    } else {
      InsertSorted(x, s[1..], le);
      InsertSortedBehind(x, s, le);
    }
  }

  lemma InsertSortedFront<T(!new)>(x: T, s: seq<T>, le: (T, T) -> bool)
    requires TotalPreorder(le) && SortedBy(s, le) && s != [] && le(x, s[0])
    ensures SortedBy(Insert(x, s, le), le)
  {
    var r := Insert(x, s, le);
    assert r == [x] + s;
    forall i, j | 0 <= i < j < |r| ensures le(r[i], r[j]) {
      if i == 0 {
        assert r[j] == s[j - 1];
        if j > 1 {
          assert le(x, s[0]) && le(s[0], s[j - 1]);
        }
      } else {
        assert r[i] == s[i - 1] && r[j] == s[j - 1];
      }
    }
  }

  lemma InsertSortedBehind<T(!new)>(x: T, s: seq<T>, le: (T, T) -> bool)
    requires TotalPreorder(le) && SortedBy(s, le) && s != [] && !le(x, s[0])
    requires SortedBy(Insert(x, s[1..], le), le)
    ensures SortedBy(Insert(x, s, le), le)
  {
    var t := Insert(x, s[1..], le);
    forall y | y in t ensures le(s[0], y) {
      InsertMember(x, s[1..], le, y);
      if y != x {
        var k :| 0 <= k < |s[1..]| && s[1..][k] == y;
        assert s[k + 1] == y;
      }
    }
    var r := Insert(x, s, le);
    assert r == [s[0]] + t;
    forall i, j | 0 <= i < j < |r| ensures le(r[i], r[j]) {
      if i == 0 { assert r[j] == t[j - 1]; assert t[j - 1] in t; }
      else { assert r[i] == t[i - 1] && r[j] == t[j - 1]; }
    }
  }

  /** The sort's output is ordered. */
  lemma {:induction false} SortBySorted<T(!new)>(s: seq<T>, le: (T, T) -> bool)
    requires TotalPreorder(le)
    ensures SortedBy(SortBy(s, le), le)
  {
    if s != [] {
      SortBySorted(s[1..], le);
      InsertSorted(s[0], SortBy(s[1..], le), le);
    }
  }

  /** Everything in a sorted sequence is ordered after anything ordered before its head. */
  lemma SortedHead<T(!new)>(x: T, s: seq<T>, le: (T, T) -> bool)
    requires TotalPreorder(le) && SortedBy(s, le) && s != [] && le(x, s[0])
    ensures forall y :: y in s ==> le(x, y)
  {
    forall y | y in s ensures le(x, y) {
      var k :| 0 <= k < |s| && s[k] == y;
      if k > 0 { assert le(s[0], s[k]); }
    }
  }

  lemma FilterInsertFront<T(!new)>(x: T, s: seq<T>, le: (T, T) -> bool, p: T -> bool)
    requires TotalPreorder(le) && SortedBy(s, le) && s != [] && le(x, s[0])
    ensures Filter(Insert(x, s, le), p) == if p(x) then Insert(x, Filter(s, p), le) else Filter(s, p)
  {
    assert Insert(x, s, le) == [x] + s;
    FilterConcat([x], s, p);
    var t := Filter(s, p);
    if p(x) && t != [] {
      SortedHead(x, s, le);
      assert t[0] in t;
      assert Insert(x, t, le) == [x] + t;
    }
  }

  /** The step of `FilterInsert` where `x` goes behind the head of `s`. */
  lemma FilterSingle<T>(x: T, p: T -> bool)
    ensures Filter([x], p) == if p(x) then [x] else []
  {
    assert [x][1..] == [];
  }

  /** The step of `FilterInsert` where `x` goes behind the head of `s`. */
  lemma FilterInsertBehind<T>(x: T, s: seq<T>, le: (T, T) -> bool, p: T -> bool)
    requires s != [] && !le(x, s[0])
    requires Filter(Insert(x, s[1..], le), p) ==
             if p(x) then Insert(x, Filter(s[1..], p), le) else Filter(s[1..], p)
    ensures Filter(Insert(x, s, le), p) == if p(x) then Insert(x, Filter(s, p), le) else Filter(s, p)
  {
    var rest := Insert(x, s[1..], le);
    var u := Filter(s[1..], p);
    var h := if p(s[0]) then [s[0]] else [];
    assert Insert(x, s, le) == [s[0]] + rest;
    FilterConcat([s[0]], rest, p);
    FilterSingle(s[0], p);
    assert Filter(Insert(x, s, le), p) == h + Filter(rest, p);
    assert Filter(s, p) == h + u;
    if !p(x) {
      assert Filter(rest, p) == u;
    } else if p(s[0]) {
      assert Filter(rest, p) == Insert(x, u, le);
      assert (h + u)[0] == s[0] && (h + u)[1..] == u;
      assert Insert(x, h + u, le) == [s[0]] + Insert(x, u, le);
    } else {
      assert Filter(rest, p) == Insert(x, u, le);
      assert h + u == u;
    }
  }

  lemma {:induction false} FilterInsert<T(!new)>(x: T, s: seq<T>, le: (T, T) -> bool, p: T -> bool)
    requires TotalPreorder(le) && SortedBy(s, le)
    ensures Filter(Insert(x, s, le), p) == if p(x) then Insert(x, Filter(s, p), le) else Filter(s, p)
  {
    if s == [] {
    } else if le(x, s[0]) {
      FilterInsertFront(x, s, le, p);
    } else {
      assert SortedBy(s[1..], le);
      FilterInsert(x, s[1..], le, p);
      FilterInsertBehind(x, s, le, p);
    }
  }

  /** Filtering commutes with sorting: a query's `WHERE` and `ORDER BY` may be applied in
      either order. */
  lemma {:induction false} FilterSortBy<T(!new)>(s: seq<T>, le: (T, T) -> bool, p: T -> bool)
    requires TotalPreorder(le)
    ensures Filter(SortBy(s, le), p) == SortBy(Filter(s, p), le)
  {
    if s != [] {
      var a := SortBy(s[1..], le);
      var f := Filter(s[1..], p);
      assert SortBy(s, le) == Insert(s[0], a, le);
      SortBySorted(s[1..], le);
      FilterInsert(s[0], a, le, p);
      FilterSortBy(s[1..], le, p);
      assert Filter(a, p) == SortBy(f, le);
      if p(s[0]) {
        assert Filter(s, p) == [s[0]] + f;
        assert ([s[0]] + f)[0] == s[0] && ([s[0]] + f)[1..] == f;
        assert SortBy([s[0]] + f, le) == Insert(s[0], SortBy(f, le), le);
      } else {
        assert Filter(s, p) == f;
      }
    }
  }

  // ---------------------------------------------------------------- keys

  /** No two elements of `s` have the same key. */
  predicate UniqueKeys<T>(s: seq<T>, key: T -> int) {
    forall i, j :: 0 <= i < j < |s| ==> key(s[i]) != key(s[j])
  }

  lemma {:induction false} UniqueKeysFilter<T>(s: seq<T>, key: T -> int, p: T -> bool)
    requires UniqueKeys(s, key)
    ensures UniqueKeys(Filter(s, p), key)
  {
    if s != [] {
      var t := Filter(s[1..], p);
      assert UniqueKeys(s[1..], key) by {
        forall i, j | 0 <= i < j < |s[1..]| ensures key(s[1..][i]) != key(s[1..][j]) {
          assert s[1..][i] == s[i + 1] && s[1..][j] == s[j + 1];
        }
      }
      UniqueKeysFilter(s[1..], key, p);
      if p(s[0]) {
        forall x | x in t ensures key(x) != key(s[0]) {
          var k :| 0 <= k < |s[1..]| && s[1..][k] == x;
          assert s[k + 1] == x;
        }
        UniqueCons(s[0], t, key);
      }
    }
  }

  /** Putting an element with a new key in front keeps the keys unique. */
  lemma UniqueCons<T>(x: T, t: seq<T>, key: T -> int)
    requires UniqueKeys(t, key)
    requires forall y :: y in t ==> key(y) != key(x)
    ensures UniqueKeys([x] + t, key)
  {
    var u := [x] + t;
    forall i, j | 0 <= i < j < |u| ensures key(u[i]) != key(u[j]) {
      assert u[j] == t[j - 1] && t[j - 1] in t;
      if i > 0 {
        assert u[i] == t[i - 1];
      }
    }
  }

  lemma {:induction false} UniqueKeysInsert<T>(x: T, s: seq<T>, le: (T, T) -> bool, key: T -> int)
    requires UniqueKeys(s, key)
    requires forall y :: y in s ==> key(y) != key(x)
    ensures UniqueKeys(Insert(x, s, le), key)
  {
    if s == [] {
    } else if le(x, s[0]) {
      UniqueCons(x, s, key);
    } else {
      var t := s[1..];
      assert UniqueKeys(t, key) by {
        forall i, j | 0 <= i < j < |t| ensures key(t[i]) != key(t[j]) {
          assert t[i] == s[i + 1] && t[j] == s[j + 1];
        }
      }
      assert forall y :: y in t ==> y in s;
      UniqueKeysInsert(x, t, le, key);
      var r := Insert(x, t, le);
      forall y | y in r ensures key(y) != key(s[0]) {
        assert y in multiset(r);
        if y != x {
          assert y in multiset(t);
          var k :| 0 <= k < |t| && t[k] == y;
          assert s[k + 1] == y;
        }
      }
      UniqueCons(s[0], r, key);
    }
  }

  lemma {:induction false} UniqueKeysSortBy<T>(s: seq<T>, le: (T, T) -> bool, key: T -> int)
    requires UniqueKeys(s, key)
    ensures UniqueKeys(SortBy(s, le), key)
  {
    if s != [] {
      var t := s[1..];
      assert UniqueKeys(t, key) by {
        forall i, j | 0 <= i < j < |t| ensures key(t[i]) != key(t[j]) {
          assert t[i] == s[i + 1] && t[j] == s[j + 1];
        }
      }
      UniqueKeysSortBy(t, le, key);
      forall y | y in SortBy(t, le) ensures key(y) != key(s[0]) {
        assert y in multiset(SortBy(t, le));
        assert y in multiset(t);
        assert y in t;
        var k :| 0 <= k < |t| && t[k] == y;
        assert s[k + 1] == y;
      }
      UniqueKeysInsert(s[0], SortBy(t, le), le, key);
    }
  }

  /** When only the element at `i` satisfies `p`, filtering by `p` gives just it. */
  lemma {:induction false} FilterOnlyAt<T>(s: seq<T>, p: T -> bool, i: nat)
    requires i < |s| && p(s[i])
    requires forall j :: 0 <= j < |s| && j != i ==> !p(s[j])
    ensures Filter(s, p) == [s[i]]
  {
    if i == 0 {
      FilterEmpty(s[1..], p);
      assert forall j :: 0 <= j < |s[1..]| ==> s[1..][j] == s[j + 1];
    } else {
      assert forall j :: 0 <= j < |s[1..]| ==> s[1..][j] == s[j + 1];
      FilterOnlyAt(s[1..], p, i - 1);
    }
  }
}
