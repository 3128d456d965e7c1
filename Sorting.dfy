/** Python's `sorted(xs, key=...)` and `list.sort(key=...)` are stable sorts.
    This module gives one stable sort, parameterised by the order `le`
    ("a is not after b"), and the three facts that determine its result:
    it is ordered, it is a permutation of its input, and elements that `le`
    cannot tell apart keep their input order. It also holds `Filter`, the
    model of a list comprehension `[x for x in s if p(x)]`. */
module Sorting {

  /** `le` is total and transitive, as every key order used here is. */
  ghost predicate TotalPreorder<T(!new)>(le: (T, T) -> bool) {
    && (forall a, b :: le(a, b) || le(b, a))
    && (forall a, b, c :: le(a, b) && le(b, c) ==> le(a, c))
  }

  /** The order of integers, as a key order. */
  predicate IntLe(a: int, b: int) {
    a <= b
  }

  predicate SortedBy<T>(s: seq<T>, le: (T, T) -> bool) {
    forall i, j :: 0 <= i < j < |s| ==> le(s[i], s[j])
  }

  /** Inserts `x` in front of the first element it is not after. */
  function Insert<T>(x: T, t: seq<T>, le: (T, T) -> bool): (r: seq<T>)
    ensures |r| == |t| + 1
  {
    if t == [] then [x]
    else if le(x, t[0]) then [x] + t
    else [t[0]] + Insert(x, t[1..], le)
  }

  function Sort<T>(s: seq<T>, le: (T, T) -> bool): (r: seq<T>)
    ensures |r| == |s|
  {
    if s == [] then [] else Insert(s[0], Sort(s[1..], le), le)
  }

  lemma {:induction false} InsertPermutes<T>(x: T, t: seq<T>, le: (T, T) -> bool)
    ensures multiset(Insert(x, t, le)) == multiset(t) + multiset{x}
  {
    if t == [] {
      assert Insert(x, t, le) == [x];
    } else if le(x, t[0]) {
      assert Insert(x, t, le) == [x] + t;
      assert multiset([x] + t) == multiset{x} + multiset(t);
    } else {
      var u := Insert(x, t[1..], le);
      InsertPermutes(x, t[1..], le);
      assert Insert(x, t, le) == [t[0]] + u;
      assert t == [t[0]] + t[1..];
      assert multiset([t[0]] + u) == multiset{t[0]} + multiset(u);
      assert multiset(t) == multiset{t[0]} + multiset(t[1..]);
    }
  }

  /** The sort returns a permutation of its input. */
  lemma {:induction false} SortPermutes<T>(s: seq<T>, le: (T, T) -> bool)
    ensures multiset(Sort(s, le)) == multiset(s)
  {
    if s != [] {
      SortPermutes(s[1..], le);
      InsertPermutes(s[0], Sort(s[1..], le), le);
      assert s == [s[0]] + s[1..];
    }
  }

  lemma {:induction false} InsertSorted<T(!new)>(x: T, t: seq<T>, le: (T, T) -> bool)
    requires TotalPreorder(le) && SortedBy(t, le)
    ensures SortedBy(Insert(x, t, le), le)
  {
    if t == [] {
    } else if le(x, t[0]) {
      forall j | 0 <= j < |t| ensures le(x, t[j]) {
        if j > 0 {
          assert le(t[0], t[j]);
        }
      }
      SortedCons(x, t, le);
    } else {
      var u := Insert(x, t[1..], le);
      assert SortedBy(t[1..], le) by {
        forall i, j | 0 <= i < j < |t[1..]| ensures le(t[1..][i], t[1..][j]) {
          assert t[1..][i] == t[i + 1] && t[1..][j] == t[j + 1];
        }
      }
      InsertSorted(x, t[1..], le);
      InsertPermutes(x, t[1..], le);
      assert le(t[0], x);
      forall j | 0 <= j < |u| ensures le(t[0], u[j]) {
        assert u[j] in multiset(u);
        if u[j] != x {
          assert u[j] in multiset(t[1..]);
          var k :| 0 <= k < |t[1..]| && t[1..][k] == u[j];
          assert t[k + 1] == u[j];
        }
      }
      SortedCons(t[0], u, le);
    }
  }

  /** An element not after any element of a sorted sequence can go in front. */
  lemma SortedCons<T>(h: T, u: seq<T>, le: (T, T) -> bool)
    requires SortedBy(u, le) && forall j :: 0 <= j < |u| ==> le(h, u[j])
    ensures SortedBy([h] + u, le)
  {
    var r := [h] + u;
    forall i, j | 0 <= i < j < |r| ensures le(r[i], r[j]) {
      if i == 0 {
        assert r[j] == u[j - 1];
      } else {
        assert r[i] == u[i - 1] && r[j] == u[j - 1];
      }
    }
  }

  /** The sort returns its input in order. */
  lemma {:induction false} SortSorted<T(!new)>(s: seq<T>, le: (T, T) -> bool)
    requires TotalPreorder(le)
    ensures SortedBy(Sort(s, le), le)
  {
    if s != [] {
      SortSorted(s[1..], le);
      InsertSorted(s[0], Sort(s[1..], le), le);
    }
  }

  /** A prefix of a sorted sequence is sorted and draws on its elements. */
  lemma PrefixSorted<T>(s: seq<T>, k: nat, le: (T, T) -> bool)
    requires k <= |s| && SortedBy(s, le)
    ensures SortedBy(s[..k], le)
    ensures multiset(s[..k]) <= multiset(s)
  {
    assert s == s[..k] + s[k..];
  }

  /** The elements of `s` that `le` puts level with `v`, in their order in `s`. */
  function Level<T>(s: seq<T>, le: (T, T) -> bool, v: T): seq<T> {
    if s == [] then []
    else (if le(s[0], v) && le(v, s[0]) then [s[0]] else []) + Level(s[1..], le, v)
  }

  lemma LevelCons<T>(x: T, t: seq<T>, le: (T, T) -> bool, v: T)
    ensures Level([x] + t, le, v) == (if le(x, v) && le(v, x) then [x] else []) + Level(t, le, v)
  {
    assert ([x] + t)[0] == x && ([x] + t)[1..] == t;
  }

  lemma {:induction false} InsertStable<T(!new)>(x: T, t: seq<T>, le: (T, T) -> bool, v: T)
    requires TotalPreorder(le)
    ensures Level(Insert(x, t, le), le, v)
         == (if le(x, v) && le(v, x) then [x] else []) + Level(t, le, v)
  {
    if t == [] || le(x, t[0]) {
      LevelCons(x, t, le, v);
    } else {
      var u := Insert(x, t[1..], le);
      InsertStable(x, t[1..], le, v);
      LevelCons(t[0], u, le, v);
      LevelCons(t[0], t[1..], le, v);
      assert t == [t[0]] + t[1..];
      var t0 := t[0];
      var lx := if le(x, v) && le(v, x) then [x] else [];
      var l0 := if le(t0, v) && le(v, t0) then [t0] else [];
      // t0 is strictly before x, so at most one of them is level with v
      assert !(le(v, t0) && le(x, v));
      assert lx == [] || l0 == [];
      assert l0 + (lx + Level(t[1..], le, v)) == lx + (l0 + Level(t[1..], le, v));
    }
  }

  /** Stability: among elements level with any `v`, the input order is kept. */
  lemma {:induction false} SortStable<T(!new)>(s: seq<T>, le: (T, T) -> bool, v: T)
    requires TotalPreorder(le)
    ensures Level(Sort(s, le), le, v) == Level(s, le, v)
  {
    if s != [] {
      SortStable(s[1..], le, v);
      InsertStable(s[0], Sort(s[1..], le), le, v);
    }
  }

  /** `[x for x in s if p(x)]`. */
  function Filter<T>(s: seq<T>, p: T -> bool): (r: seq<T>)
    ensures |r| <= |s|
  {
    if s == [] then [] else (if p(s[0]) then [s[0]] else []) + Filter(s[1..], p)
  }

  lemma {:induction false} FilterAppend<T>(s: seq<T>, t: seq<T>, p: T -> bool)
    ensures Filter(s + t, p) == Filter(s, p) + Filter(t, p)
  {
    if s == [] {
      assert s + t == t;
    } else {
      var st := s + t;
      assert st[0] == s[0] && st[1..] == s[1..] + t;
      FilterAppend(s[1..], t, p);
      calc {
        Filter(st, p);
        (if p(s[0]) then [s[0]] else []) + Filter(s[1..] + t, p);
        (if p(s[0]) then [s[0]] else []) + (Filter(s[1..], p) + Filter(t, p));
        ((if p(s[0]) then [s[0]] else []) + Filter(s[1..], p)) + Filter(t, p);
      }
    }
  }

  /** A filter keeps exactly the elements satisfying the predicate. */
  lemma {:induction false} FilterMembers<T>(s: seq<T>, p: T -> bool, x: T)
    ensures x in Filter(s, p) <==> x in s && p(x)
  {
    if s != [] {
      FilterMembers(s[1..], p, x);
      assert x in s <==> x == s[0] || x in s[1..];
    }
  }

  /** Filtering by a predicate and by its negation splits `s` in two. */
  lemma {:induction false} FilterSplits<T>(s: seq<T>, p: T -> bool, q: T -> bool)
    requires forall x :: q(x) == !p(x)
    ensures multiset(Filter(s, p)) + multiset(Filter(s, q)) == multiset(s)
  {
    if s != [] {
      FilterSplits(s[1..], p, q);
      var x := s[0];
      assert s == [x] + s[1..];
      assert multiset(s) == multiset{x} + multiset(s[1..]);
      assert q(x) == !p(x);
      if p(x) {
        assert Filter(s, p) == [x] + Filter(s[1..], p);
        assert Filter(s, q) == Filter(s[1..], q);
      } else {
        assert Filter(s, p) == Filter(s[1..], p);
        assert Filter(s, q) == [x] + Filter(s[1..], q);
      }
    }
  }

  /** A filter of a sorted sequence is sorted. */
  lemma {:induction false} FilterSorted<T>(s: seq<T>, p: T -> bool, le: (T, T) -> bool)
    requires SortedBy(s, le)
    ensures SortedBy(Filter(s, p), le)
  {
    if s != [] {
      FilterSorted(s[1..], p, le);
      var rest := Filter(s[1..], p);
      var r := Filter(s, p);
      if p(s[0]) {
        assert r == [s[0]] + rest;
        forall j | 0 <= j < |rest| ensures le(s[0], rest[j]) {
          FilterMembers(s[1..], p, rest[j]);
          var k :| 0 <= k < |s[1..]| && s[1..][k] == rest[j];
          assert s[k + 1] == rest[j];
        }
        forall i, j | 0 <= i < j < |r| ensures le(r[i], r[j]) {
          if i == 0 {
            assert r[j] == rest[j - 1];
          } else {
            assert r[i] == rest[i - 1] && r[j] == rest[j - 1];
          }
        }
      } else {
        assert r == rest;
      }
    }
  }

  predicate Distinct<T(==)>(s: seq<T>) {
    forall i, j :: 0 <= i < j < |s| ==> s[i] != s[j]
  }

  lemma {:induction false} InsertDistinct<T>(x: T, t: seq<T>, le: (T, T) -> bool)
    requires Distinct(t) && x !in t
    ensures Distinct(Insert(x, t, le))
  {
    if t == [] {
    } else if le(x, t[0]) {
      assert x !in multiset(t);
      DistinctCons(x, t);
    } else {
      var u := Insert(x, t[1..], le);
      assert x !in t[1..];
      DistinctTail(t);
      InsertDistinct(x, t[1..], le);
      InsertPermutes(x, t[1..], le);
      assert forall k :: 0 <= k < |t[1..]| ==> t[1..][k] == t[k + 1] != t[0];
      assert t[0] !in multiset(t[1..]);
      assert t[0] != x;
      assert t[0] !in multiset(u);
      DistinctCons(t[0], u);
    }
  }

  lemma DistinctTail<T>(t: seq<T>)
    requires Distinct(t) && t != []
    ensures Distinct(t[1..])
  {
    forall i, j | 0 <= i < j < |t[1..]| ensures t[1..][i] != t[1..][j] {
      assert t[1..][i] == t[i + 1] && t[1..][j] == t[j + 1];
    }
  }

  /** A new element in front of distinct ones keeps them distinct. */
  lemma DistinctCons<T>(h: T, u: seq<T>)
    requires Distinct(u) && h !in multiset(u)
    ensures Distinct([h] + u)
  {
    var r := [h] + u;
    forall i, j | 0 <= i < j < |r| ensures r[i] != r[j] {
      if i == 0 {
        assert r[j] == u[j - 1] && u[j - 1] in multiset(u);
      } else {
        assert r[i] == u[i - 1] && r[j] == u[j - 1];
      }
    }
  }

  /** Sorting keeps the elements distinct. */
  lemma {:induction false} SortDistinct<T>(s: seq<T>, le: (T, T) -> bool)
    requires Distinct(s)
    ensures Distinct(Sort(s, le))
  {
    if s != [] {
      DistinctTail(s);
      SortDistinct(s[1..], le);
      SortPermutes(s[1..], le);
      assert forall k :: 0 <= k < |s[1..]| ==> s[1..][k] == s[k + 1] != s[0];
      assert s[0] !in multiset(s[1..]);
      assert s[0] !in multiset(Sort(s[1..], le));
      InsertDistinct(s[0], Sort(s[1..], le), le);
    }
  }

  /** Nothing passes a filter when no element satisfies the predicate. */
  lemma {:induction false} FilterNone<T>(s: seq<T>, p: T -> bool)
    requires forall i :: 0 <= i < |s| ==> !p(s[i])
    ensures Filter(s, p) == []
  {
    if s != [] {
      FilterNone(s[1..], p);
    }
  }

  /** A filter keeps everything exactly when every element passes, and is
      strictly shorter otherwise. */
  lemma {:induction false} FilterShrinks<T>(s: seq<T>, p: T -> bool)
    ensures |Filter(s, p)| == |s| <==> forall i :: 0 <= i < |s| ==> p(s[i])
    ensures (forall i :: 0 <= i < |s| ==> p(s[i])) ==> Filter(s, p) == s
  {
    if s != [] {
      FilterShrinks(s[1..], p);
      assert forall i :: 0 < i < |s| ==> s[1..][i - 1] == s[i];
      assert s == [s[0]] + s[1..];
    }
  }
}
