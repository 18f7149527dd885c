/**
 * Python's `list.sort(key=key, reverse=True)`: descending by key, and, since
 * the sort is stable even when reversed, elements with equal keys keep their
 * original order. Defined as an insertion sort on values.
 */
module Sorting {

  predicate SortedDesc<T>(s: seq<T>, key: T -> int)
  {
    forall i, j :: 0 <= i < j < |s| ==> key(s[i]) >= key(s[j])
  }

  /** Places `x` just before the first element whose key is not above its own. */
  function Insert<T>(x: T, s: seq<T>, key: T -> int): (r: seq<T>)
    ensures |r| == |s| + 1
    ensures multiset(r) == multiset(s) + multiset{x}
  {
    if s == [] || key(s[0]) <= key(x) then [x] + s
    else
      assert s == [s[0]] + s[1..];
      [s[0]] + Insert(x, s[1..], key)
  }

  /** `s.sort(key=key, reverse=True)`, as a value. */
  function SortDesc<T>(s: seq<T>, key: T -> int): (r: seq<T>)
    ensures |r| == |s|
    ensures multiset(r) == multiset(s)
  {
    if s == [] then []
    else
      assert s == [s[0]] + s[1..];
      Insert(s[0], SortDesc(s[1..], key), key)
  }

  lemma {:induction false} InsertSorted<T>(x: T, s: seq<T>, key: T -> int)
    requires SortedDesc(s, key)
    ensures SortedDesc(Insert(x, s, key), key)
  {
    if s != [] && key(s[0]) > key(x) {
      InsertSorted(x, s[1..], key);
      var r := Insert(x, s, key);
      assert r[1..] == Insert(x, s[1..], key);
      forall j | 1 <= j < |r| ensures key(r[0]) >= key(r[j]) {
        assert r[j] in multiset(Insert(x, s[1..], key));
        assert r[j] == x || r[j] in multiset(s[1..]);
        if r[j] != x {
          var k :| 0 <= k < |s[1..]| && s[1..][k] == r[j];
          assert s[k + 1] == r[j];
        }
      }
    }
  }

  /** The result is ordered by key, largest first. */
  lemma {:induction false} SortDescSorted<T>(s: seq<T>, key: T -> int)
    ensures SortedDesc(SortDesc(s, key), key)
  {
    if s != [] {
      SortDescSorted(s[1..], key);
      InsertSorted(s[0], SortDesc(s[1..], key), key);
    }
  }

  /** The elements with key `v`, in order. */
  function WithKey<T>(s: seq<T>, key: T -> int, v: int): seq<T>
  {
    if s == [] then [] else (if key(s[0]) == v then [s[0]] else []) + WithKey(s[1..], key, v)
  }

  lemma {:induction false} InsertWithKey<T>(x: T, s: seq<T>, key: T -> int, v: int)
    ensures WithKey(Insert(x, s, key), key, v) == (if key(x) == v then [x] else []) + WithKey(s, key, v)
  {
    if s == [] || key(s[0]) <= key(x) {
      assert ([x] + s)[1..] == s;
    } else {
      var rest := Insert(x, s[1..], key);
      var ex := if key(x) == v then [x] else [];
      var ey := if key(s[0]) == v then [s[0]] else [];
      InsertWithKey(x, s[1..], key, v);
      assert ([s[0]] + rest)[1..] == rest;
      assert WithKey([s[0]] + rest, key, v) == ey + (ex + WithKey(s[1..], key, v));
      // key(s[0]) > key(x), so at most one of the two is non-empty
      assert ex == [] || ey == [];
      assert ey + (ex + WithKey(s[1..], key, v)) == ex + (ey + WithKey(s[1..], key, v));
    }
  }

  /** Stability: among elements with equal keys the original order is kept. */
  lemma {:induction false} SortDescStable<T>(s: seq<T>, key: T -> int, v: int)
    ensures WithKey(SortDesc(s, key), key, v) == WithKey(s, key, v)
  {
    if s != [] {
      SortDescStable(s[1..], key, v);
      InsertWithKey(s[0], SortDesc(s[1..], key), key, v);
    }
  }

  /** A list already in order is left as it is, so sorting twice is sorting once. */
  lemma {:induction false} SortDescOfSorted<T>(s: seq<T>, key: T -> int)
    requires SortedDesc(s, key)
    ensures SortDesc(s, key) == s
  {
    if s != [] {
      SortDescOfSorted(s[1..], key);
      assert SortDesc(s[1..], key) == s[1..];
      assert [s[0]] + s[1..] == s;
    }
  }

  lemma SortDescIdempotent<T>(s: seq<T>, key: T -> int)
    ensures SortDesc(SortDesc(s, key), key) == SortDesc(s, key)
  {
    SortDescSorted(s, key);
    SortDescOfSorted(SortDesc(s, key), key);
  }

  function Map<A, B>(s: seq<A>, f: A -> B): (r: seq<B>)
    ensures |r| == |s| && forall k :: 0 <= k < |s| ==> r[k] == f(s[k])
  {
    if s == [] then [] else [f(s[0])] + Map(s[1..], f)
  }

  function Compose<A, B>(key: B -> int, f: A -> B): A -> int
  {
    a => key(f(a))
  }

  lemma {:induction false} InsertMap<A, B>(x: A, s: seq<A>, f: A -> B, key: B -> int)
    ensures Map(Insert(x, s, Compose(key, f)), f) == Insert(f(x), Map(s, f), key)
  {
    if s != [] && Compose(key, f)(s[0]) > Compose(key, f)(x) {
      InsertMap(x, s[1..], f, key);
      assert Map(s, f)[1..] == Map(s[1..], f);
    }
  }

  /** Sorting pairs by a key of one component, then projecting, is sorting the projections. */
  lemma {:induction false} SortDescMap<A, B>(s: seq<A>, f: A -> B, key: B -> int)
    ensures Map(SortDesc(s, Compose(key, f)), f) == SortDesc(Map(s, f), key)
  {
    if s != [] {
      SortDescMap(s[1..], f, key);
      InsertMap(s[0], SortDesc(s[1..], Compose(key, f)), f, key);
      assert Map(s, f)[1..] == Map(s[1..], f);
    }
  }

  /** Projecting after an insertion adds the projection of the inserted element. */
  lemma {:induction false} InsertMapMultiset<A, B>(x: A, s: seq<A>, key: A -> int, f: A -> B)
    ensures multiset(Map(Insert(x, s, key), f)) == multiset(Map(s, f)) + multiset{f(x)}
  {
    if s == [] || key(s[0]) <= key(x) {
      assert Map([x] + s, f) == [f(x)] + Map(s, f);
    } else {
      InsertMapMultiset(x, s[1..], key, f);
      assert Map([s[0]] + Insert(x, s[1..], key), f) == [f(s[0])] + Map(Insert(x, s[1..], key), f);
      assert Map(s, f) == [f(s[0])] + Map(s[1..], f);
    }
  }

  /** The sort only reorders: whatever is projected from the elements, the same values come out. */
  lemma {:induction false} SortDescMapMultiset<A, B>(s: seq<A>, key: A -> int, f: A -> B)
    ensures multiset(Map(SortDesc(s, key), f)) == multiset(Map(s, f))
  {
    if s != [] {
      SortDescMapMultiset(s[1..], key, f);
      InsertMapMultiset(s[0], SortDesc(s[1..], key), key, f);
      assert Map(s, f) == [f(s[0])] + Map(s[1..], f);
    }
  }

  /** No two elements share the value of `g`. */
  predicate DistinctBy<T, K(==)>(s: seq<T>, g: T -> K)
  {
    forall i, j :: 0 <= i < j < |s| ==> g(s[i]) != g(s[j])
  }

  lemma {:induction false} InsertDistinct<T, K>(x: T, s: seq<T>, key: T -> int, g: T -> K)
    requires DistinctBy(s, g) && forall k :: 0 <= k < |s| ==> g(s[k]) != g(x)
    ensures DistinctBy(Insert(x, s, key), g)
  {
    if s != [] && key(s[0]) > key(x) {
      InsertDistinct(x, s[1..], key, g);
      var r := Insert(x, s, key);
      assert r[1..] == Insert(x, s[1..], key);
      forall j | 1 <= j < |r| ensures g(r[0]) != g(r[j]) {
        assert r[j] in multiset(Insert(x, s[1..], key));
        if r[j] != x {
          assert r[j] in multiset(s[1..]);
          var k :| 0 <= k < |s[1..]| && s[1..][k] == r[j];
          assert s[k + 1] == r[j];
        }
      }
    }
  }

  /** Sorting keeps elements pairwise distinct under `g`. */
  lemma {:induction false} SortDescDistinct<T, K>(s: seq<T>, key: T -> int, g: T -> K)
    requires DistinctBy(s, g)
    ensures DistinctBy(SortDesc(s, key), g)
  {
    if s != [] {
      var rest := SortDesc(s[1..], key);
      SortDescDistinct(s[1..], key, g);
      forall k | 0 <= k < |rest| ensures g(rest[k]) != g(s[0]) {
        assert rest[k] in multiset(s[1..]);
        var m :| 0 <= m < |s[1..]| && s[1..][m] == rest[k];
        assert s[m + 1] == rest[k];
      }
      InsertDistinct(s[0], rest, key, g);
    }
  }
}
