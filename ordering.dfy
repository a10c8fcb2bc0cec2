/**
 * Ordering of rows by an integer key, as done by SQL `ORDER BY` and by
 * JavaScript's stable `Array.prototype.sort` with a numeric comparator, and
 * the `LIMIT`/`slice` cap.
 */
module Ordering {

  /** Non-decreasing by `key`. A descending order is a non-decreasing order of the negated key. */
  ghost predicate SortedBy<T>(s: seq<T>, key: T -> int)
  {
    forall i, j :: 0 <= i < j < |s| ==> key(s[i]) <= key(s[j])
  }

  /** Places `x` before the first element whose key is not smaller than its own. */
  function Insert<T>(x: T, s: seq<T>, key: T -> int): (r: seq<T>)
    ensures multiset(r) == multiset(s) + multiset{x}
    ensures |r| == |s| + 1
  {
    if s == [] || key(x) <= key(s[0]) then
      [x] + s
    else
      assert s == [s[0]] + s[1..];
      [s[0]] + Insert(x, s[1..], key)
  }

  /** Inserting an element no smaller than a bound of `s` keeps every key above that bound. */
  lemma {:induction false} InsertKeepsBound<T>(x: T, s: seq<T>, key: T -> int, bound: int)
    requires bound <= key(x)
    requires forall i :: 0 <= i < |s| ==> bound <= key(s[i])
    ensures forall i :: 0 <= i < |Insert(x, s, key)| ==> bound <= key(Insert(x, s, key)[i])
  {
    if s != [] && key(x) > key(s[0]) {
      InsertKeepsBound(x, s[1..], key, bound);
      var rest := Insert(x, s[1..], key);
      assert forall i :: 1 <= i < |rest| + 1 ==> ([s[0]] + rest)[i] == rest[i - 1];
    }
  }

  lemma {:induction false} InsertSorted<T>(x: T, s: seq<T>, key: T -> int)
    requires SortedBy(s, key)
    ensures SortedBy(Insert(x, s, key), key)
  {
    if s != [] && key(x) > key(s[0]) {
      var tail := s[1..];
      var rest := Insert(x, tail, key);
      assert SortedBy(tail, key) by {
        assert forall i :: 0 <= i < |tail| ==> tail[i] == s[i + 1];
      }
      InsertSorted(x, tail, key);
      assert forall i :: 0 <= i < |tail| ==> key(s[0]) <= key(tail[i]) by {
        assert forall i :: 0 <= i < |tail| ==> tail[i] == s[i + 1];
      }
      InsertKeepsBound(x, tail, key, key(s[0]));
      var r := [s[0]] + rest;
      forall i, j | 0 <= i < j < |r| ensures key(r[i]) <= key(r[j]) {
        assert r[j] == rest[j - 1];
        if i > 0 { assert r[i] == rest[i - 1]; }
      }
    }
  }

  /** Insertion sort: the result holds exactly the input's elements, ordered by `key`. */
  function SortBy<T>(s: seq<T>, key: T -> int): (r: seq<T>)
    ensures multiset(r) == multiset(s)
    ensures |r| == |s|
  {
    if s == [] then []
    else
      assert s == [s[0]] + s[1..];
      Insert(s[0], SortBy(s[1..], key), key)
  }

  lemma {:induction false} SortBySorted<T>(s: seq<T>, key: T -> int)
    ensures SortedBy(SortBy(s, key), key)
  {
    if s != [] {
      SortBySorted(s[1..], key);
      InsertSorted(s[0], SortBy(s[1..], key), key);
    }
  }

  /** Sorting neither adds, drops nor duplicates: membership is that of the input. */
  lemma {:induction false} SortByMembers<T>(s: seq<T>, key: T -> int, x: T)
    ensures x in SortBy(s, key) <==> x in s
  {
    assert x in multiset(SortBy(s, key)) <==> x in multiset(s);
  }

  /** The last element of a non-empty sequence. */
  function Last<T>(s: seq<T>): T
    requires |s| >= 1
  {
    s[|s| - 1]
  }

  /** The first element of a sorted result is an input element with the smallest key. */
  lemma {:induction false} SortByFirst<T>(s: seq<T>, key: T -> int)
    requires |s| >= 1
    ensures SortBy(s, key)[0] in s
    ensures forall x :: x in s ==> key(SortBy(s, key)[0]) <= key(x)
  {
    var r := SortBy(s, key);
    SortBySorted(s, key);
    forall x | x in s ensures key(r[0]) <= key(x) {
      SortByMembers(s, key, x);
      var k :| 0 <= k < |r| && r[k] == x;
      if k > 0 { assert key(r[0]) <= key(r[k]); }
    }
    SortByMembers(s, key, r[0]);
  }

  /** The last element of a sorted result is an input element with the largest key. */
  lemma {:induction false} SortByLast<T>(s: seq<T>, key: T -> int)
    requires |s| >= 1
    ensures Last(SortBy(s, key)) in s
    ensures forall x :: x in s ==> key(x) <= key(Last(SortBy(s, key)))
  {
    var r := SortBy(s, key);
    SortBySorted(s, key);
    forall x | x in s ensures key(x) <= key(Last(r)) {
      SortByMembers(s, key, x);
      var k :| 0 <= k < |r| && r[k] == x;
      if k < |r| - 1 { assert key(r[k]) <= key(r[|r| - 1]); }
    }
    SortByMembers(s, key, Last(r));
  }

  /** `LIMIT n` / `slice(0, n)`: the first `n` elements, or all of them when there are fewer. */
  function Take<T>(s: seq<T>, n: nat): (r: seq<T>)
    ensures |r| == if |s| <= n then |s| else n
    ensures r == s[..|r|]
  {
    if |s| <= n then s else s[..n]
  }
}
