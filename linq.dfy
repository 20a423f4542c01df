/**
 * The query operators the repositories and services use: a table scan (read here in
 * primary-key order), `Where`, and LINQ's stable `OrderBy` (with `OrderByDescending` as
 * `OrderBy` on the negated key).
 */
module Linq {
  import opened Wrappers

  /** The keys of `m` in `[lo, hi)`, ascending: the order in which this model scans a table. */
  function KeysInRange<T>(m: map<int, T>, lo: int, hi: int): (r: seq<int>)
    ensures forall k :: k in r <==> (k in m && lo <= k < hi)
    ensures forall i, j :: 0 <= i < j < |r| ==> r[i] < r[j]
    decreases hi - lo
  {
    if lo >= hi then []
    else
      var rest := KeysInRange(m, lo + 1, hi);
      assert forall i :: 0 <= i < |rest| ==> lo < rest[i] by {
        forall i | 0 <= i < |rest| ensures lo < rest[i] { assert rest[i] in rest; }
      }
      if lo in m then [lo] + rest else rest
  }

  /** `Where`: the elements of `s` that satisfy `p`, in order. */
  function Where<T(==)>(s: seq<T>, p: T -> bool): (r: seq<T>)
    ensures |r| <= |s|
    ensures forall i :: 0 <= i < |r| ==> r[i] in s && p(r[i])
    ensures forall i :: 0 <= i < |s| && p(s[i]) ==> s[i] in r
  {
    if |s| == 0 then [] else (if p(s[0]) then [s[0]] else []) + Where(s[1..], p)
  }

  /** `Where` keeps every occurrence of an element that satisfies `p`, and no other. */
  lemma {:induction false} WhereCounts<T>(s: seq<T>, p: T -> bool, x: T)
    ensures multiset(Where(s, p))[x] == if p(x) then multiset(s)[x] else 0
  {
    if |s| > 0 {
      WhereCounts(s[1..], p, x);
      assert s == [s[0]] + s[1..];
      assert Where(s, p) == (if p(s[0]) then [s[0]] else []) + Where(s[1..], p);
    }
  }

  predicate IncreasingBy<T>(s: seq<T>, key: T -> int)
  {
    forall i, j :: 0 <= i < j < |s| ==> key(s[i]) < key(s[j])
  }

  /** An element below every key of a strictly increasing sequence can go in front of it. */
  lemma ConsIncreasing<T>(x: T, s: seq<T>, key: T -> int)
    requires IncreasingBy(s, key) && forall i :: 0 <= i < |s| ==> key(x) < key(s[i])
    ensures IncreasingBy([x] + s, key)
  {
    var r := [x] + s;
    forall i, j | 0 <= i < j < |r|
      ensures key(r[i]) < key(r[j])
    {
      assert r[j] == s[j - 1];
      if i > 0 {
        assert r[i] == s[i - 1];
      }
    }
  }

  /** `Where` keeps the order of what it keeps: a strictly increasing key stays strictly increasing. */
  lemma {:induction false} WhereIncreasing<T>(s: seq<T>, p: T -> bool, key: T -> int)
    requires IncreasingBy(s, key)
    ensures IncreasingBy(Where(s, p), key)
  {
    if |s| > 0 {
      var rest := Where(s[1..], p);
      WhereIncreasing(s[1..], p, key);
      forall i | 0 <= i < |rest|
        ensures key(s[0]) < key(rest[i])
      {
        var j :| 0 <= j < |s[1..]| && s[1..][j] == rest[i];
        assert s[j + 1] == rest[i];
      }
      if p(s[0]) {
        ConsIncreasing(s[0], rest, key);
      }
    }
  }

  /** In a sequence whose elements have pairwise distinct ids, no element occurs twice. */
  lemma {:induction false} DistinctIdsOccurOnce<T>(s: seq<T>, id: T -> int, x: T)
    requires forall i, j :: 0 <= i < j < |s| ==> id(s[i]) != id(s[j])
    ensures multiset(s)[x] <= 1
  {
    if |s| > 0 {
      var t := s[1..];
      assert s == [s[0]] + t;
      DistinctIdsOccurOnce(t, id, x);
    }
  }

  /** A permutation of a sequence whose elements have pairwise distinct ids has them too. */
  lemma PermutationKeepsDistinctIds<T>(a: seq<T>, b: seq<T>, id: T -> int)
    requires multiset(a) == multiset(b)
    requires forall i, j :: 0 <= i < j < |a| ==> id(a[i]) != id(a[j])
    ensures forall i, j :: 0 <= i < j < |b| ==> id(b[i]) != id(b[j])
  {
    forall i, j | 0 <= i < j < |b|
      ensures id(b[i]) != id(b[j])
    {
      if id(b[i]) == id(b[j]) {
        assert b[i] in multiset(a) && b[j] in multiset(a);
        var ia :| 0 <= ia < |a| && a[ia] == b[i];
        var ja :| 0 <= ja < |a| && a[ja] == b[j];
        assert ia == ja;
        var x := b[i];
        assert b == b[..j] + b[j..];
        assert x in b[..j] && x in b[j..];
        assert multiset(b)[x] == multiset(b[..j])[x] + multiset(b[j..])[x];
        DistinctIdsOccurOnce(a, id, x);
        assert false;
      }
    }
  }

  /** `Select`: `f` applied to each element, in order. */
  function Select<T, U>(s: seq<T>, f: T -> U): (r: seq<U>)
    ensures |r| == |s|
    ensures forall i :: 0 <= i < |s| ==> r[i] == f(s[i])
  {
    if |s| == 0 then [] else [f(s[0])] + Select(s[1..], f)
  }

  /** `FirstOrDefault(p)`: the first element that satisfies `p`, or null. */
  function FirstOrDefault<T>(s: seq<T>, p: T -> bool): (r: Option<T>)
    ensures r.None? <==> forall i :: 0 <= i < |s| ==> !p(s[i])
    ensures r.Some? ==> exists i :: 0 <= i < |s| && s[i] == r.value && p(s[i]) && forall j :: 0 <= j < i ==> !p(s[j])
  {
    if |s| == 0 then None
    else if p(s[0]) then Some(s[0])
    else
      var r := FirstOrDefault(s[1..], p);
      assert r.Some? ==> exists i :: 1 <= i < |s| && s[i] == r.value && p(s[i]) && forall j :: 0 <= j < i ==> !p(s[j]) by {
        if r.Some? {
          var i :| 0 <= i < |s[1..]| && s[1..][i] == r.value && p(s[1..][i]) && forall j :: 0 <= j < i ==> !p(s[1..][j]);
          assert forall j :: 1 <= j < i + 1 ==> s[j] == s[1..][j - 1];
        }
      }
      r
  }

  /** `Any(p)`: whether some element satisfies `p`. */
  function Any<T>(s: seq<T>, p: T -> bool): (b: bool)
    ensures b <==> exists i :: 0 <= i < |s| && p(s[i])
  {
    if |s| == 0 then false
    else if p(s[0]) then true
    else
      var b := Any(s[1..], p);
      assert b ==> exists i :: 1 <= i < |s| && p(s[i]) by {
        if b {
          var i :| 0 <= i < |s[1..]| && p(s[1..][i]);
          assert s[i + 1] == s[1..][i];
        }
      }
      b
  }

  predicate SortedBy<T>(s: seq<T>, key: T -> int)
  {
    forall i, j :: 0 <= i < j < |s| ==> key(s[i]) <= key(s[j])
  }

  /** Inserts `x` in front of the first element whose key is not smaller than its own. */
  function InsertBy<T>(x: T, s: seq<T>, key: T -> int): seq<T>
  {
    if |s| == 0 then [x]
    else if key(x) <= key(s[0]) then [x] + s
    else [s[0]] + InsertBy(x, s[1..], key)
  }

  /** `Enumerable.OrderBy(key)`: an insertion sort, which like LINQ's keeps ties in source order. */
  function OrderBy<T(==)>(s: seq<T>, key: T -> int): (r: seq<T>)
    ensures multiset(r) == multiset(s)
    ensures SortedBy(r, key)
  {
    if |s| == 0 then []
    else
      var tail := OrderBy(s[1..], key);
      InsertBySorted(s[0], tail, key);
      assert s == [s[0]] + s[1..];
      InsertBy(s[0], tail, key)
  }

  /** `OrderBy` keeps exactly the elements it was given. */
  lemma OrderByMembers<T>(s: seq<T>, key: T -> int, x: T)
    ensures x in OrderBy(s, key) <==> x in s
  {
    assert x in OrderBy(s, key) <==> x in multiset(OrderBy(s, key));
    assert x in s <==> x in multiset(s);
  }

  lemma {:induction false} InsertByLowerBound<T>(x: T, s: seq<T>, key: T -> int, b: int)
    requires b <= key(x) && forall i :: 0 <= i < |s| ==> b <= key(s[i])
    ensures forall i :: 0 <= i < |InsertBy(x, s, key)| ==> b <= key(InsertBy(x, s, key)[i])
  {
    if |s| > 0 && key(x) > key(s[0]) {
      InsertByLowerBound(x, s[1..], key, b);
      var rest := InsertBy(x, s[1..], key);
      var r := InsertBy(x, s, key);
      assert r == [s[0]] + rest;
      forall i | 0 <= i < |r| ensures b <= key(r[i]) {
        if i > 0 {
          assert r[i] == rest[i - 1];
          assert b <= key(rest[i - 1]);
        } else {
          assert r[0] == s[0];
          assert b <= key(s[0]);
        }
      }
    }
  }

  lemma {:induction false} InsertBySorted<T>(x: T, s: seq<T>, key: T -> int)
    requires SortedBy(s, key)
    ensures multiset(InsertBy(x, s, key)) == multiset([x]) + multiset(s)
    ensures SortedBy(InsertBy(x, s, key), key)
  {
    if |s| > 0 && key(x) > key(s[0]) {
      var t := s[1..];
      InsertBySorted(x, t, key);
      assert s == [s[0]] + t;
      InsertByLowerBound(x, t, key, key(s[0]));
    }
  }

  /** The elements of `s` whose key is `k`, in their order in `s`. */
  function WithKey<T>(s: seq<T>, key: T -> int, k: int): seq<T>
  {
    if |s| == 0 then [] else (if key(s[0]) == k then [s[0]] else []) + WithKey(s[1..], key, k)
  }

  lemma {:induction false} InsertByStable<T>(x: T, s: seq<T>, key: T -> int, k: int)
    ensures WithKey(InsertBy(x, s, key), key, k)
         == (if key(x) == k then [x] else []) + WithKey(s, key, k)
  {
    if |s| > 0 && key(x) > key(s[0]) {
      InsertByStable(x, s[1..], key, k);
      var r := InsertBy(x, s, key);
      assert r[1..] == InsertBy(x, s[1..], key);
    } else if |s| > 0 {
      assert ([x] + s)[1..] == s;
    }
  }

  /**
   * Stability: for every key value, the elements with that key come out of `OrderBy` in the
   * order they came in.
   */
  lemma {:induction false} OrderByStable<T>(s: seq<T>, key: T -> int, k: int)
    ensures WithKey(OrderBy(s, key), key, k) == WithKey(s, key, k)
  {
    if |s| > 0 {
      OrderByStable(s[1..], key, k);
      InsertByStable(s[0], OrderBy(s[1..], key), key, k);
    }
  }

  lemma {:induction false} SelectInsertBy<T, U>(x: T, s: seq<T>, key: T -> int, f: T -> U, key2: U -> int)
    requires forall y :: key2(f(y)) == key(y)
    ensures Select(InsertBy(x, s, key), f) == InsertBy(f(x), Select(s, f), key2)
  {
    if |s| > 0 && key(x) > key(s[0]) {
      SelectInsertBy(x, s[1..], key, f, key2);
      assert Select(s, f)[1..] == Select(s[1..], f);
    } else if |s| > 0 {
      assert Select([x] + s, f) == [f(x)] + Select(s, f);
    }
  }

  /**
   * Projecting after sorting is sorting after projecting, when the projection keeps the key:
   * `OrderBy(k).Select(f)` equals `Select(f).OrderBy(k')`.
   */
  lemma {:induction false} SelectOrderBy<T, U>(s: seq<T>, key: T -> int, f: T -> U, key2: U -> int)
    requires forall y :: key2(f(y)) == key(y)
    ensures Select(OrderBy(s, key), f) == OrderBy(Select(s, f), key2)
  {
    if |s| > 0 {
      SelectOrderBy(s[1..], key, f, key2);
      SelectInsertBy(s[0], OrderBy(s[1..], key), key, f, key2);
      assert Select(s, f)[1..] == Select(s[1..], f);
    }
  }
}
