/** Ordering of query results and lists. A `sort({ field: -1 })` of the
    document store and an `Array.prototype.sort` with a numeric comparator are
    both modelled as a stable insertion sort by a real-valued key, ascending;
    a descending sort negates the key. */
module Sorting {

  /** Every element's key is at most the key of every later element. */
  ghost predicate SortedBy<T>(s: seq<T>, key: T -> real)
  {
    forall i, j :: 0 <= i < j < |s| ==> key(s[i]) <= key(s[j])
  }

  /** Puts `x` in front of the first element whose key is not below its own. */
  function Insert<T>(x: T, s: seq<T>, key: T -> real): (r: seq<T>)
    requires SortedBy(s, key)
    ensures SortedBy(r, key)
    ensures multiset(r) == multiset(s) + multiset{x}
    ensures |r| == |s| + 1
    decreases |s|, 0
  {
    if s == [] then [x]
    else if key(x) <= key(s[0]) then [x] + s
    else
      var t := Insert(x, s[1..], key);
      assert s == [s[0]] + s[1..];
      InsertAbove(x, s[1..], key, key(s[0]));
      SortedCons(s[0], t, key);
      [s[0]] + t
  }

  /** A key no larger than every key of a sorted list may go in front of it. */
  lemma SortedCons<T>(h: T, t: seq<T>, key: T -> real)
    requires SortedBy(t, key) && forall k :: 0 <= k < |t| ==> key(h) <= key(t[k])
    ensures SortedBy([h] + t, key)
  {
    var r := [h] + t;
    forall i, j | 0 <= i < j < |r| ensures key(r[i]) <= key(r[j]) {
      assert r[j] == t[j - 1];
      if i > 0 { assert r[i] == t[i - 1]; }
    }
  }

  /** Inserting into a list whose keys are all at least `b` a value whose key
      is at least `b` keeps every key at least `b`. */
  lemma {:induction false} InsertAbove<T>(x: T, s: seq<T>, key: T -> real, b: real)
    requires SortedBy(s, key)
    requires b <= key(x) && forall k :: 0 <= k < |s| ==> b <= key(s[k])
    ensures forall k :: 0 <= k < |Insert(x, s, key)| ==> b <= key(Insert(x, s, key)[k])
    decreases |s|, 1
  {
    if s != [] && key(s[0]) < key(x) {
      InsertAbove(x, s[1..], key, b);
    }
  }

  /** The elements of `s`, ordered by `key` (ties keep their relative order). */
  function SortBy<T>(s: seq<T>, key: T -> real): (r: seq<T>)
    ensures SortedBy(r, key)
    ensures multiset(r) == multiset(s)
    ensures |r| == |s|
  {
    if s == [] then []
    else
      assert s == [s[0]] + s[1..];
      Insert(s[0], SortBy(s[1..], key), key)
  }

  /** Sorting neither adds nor drops a value. */
  lemma SortByMembers<T>(s: seq<T>, key: T -> real)
    ensures forall x :: x in SortBy(s, key) <==> x in s
  {
    var r := SortBy(s, key);
    assert forall x :: x in r <==> x in multiset(r);
    assert forall x :: x in s <==> x in multiset(s);
  }

  /** `slice(0, n)`: the first `n` elements, or all of them when there are fewer. */
  function Limit<T>(s: seq<T>, n: nat): (r: seq<T>)
    ensures |r| == if n < |s| then n else |s|
    ensures r == s[..|r|]
  {
    if n < |s| then s[..n] else s
  }

  lemma LimitSorted<T>(s: seq<T>, n: nat, key: T -> real)
    requires SortedBy(s, key)
    ensures SortedBy(Limit(s, n), key)
  {
  }

  /** An element of a sorted sequence's first `n` is in the sequence. */
  lemma LimitElements<T>(s: seq<T>, n: nat)
    ensures forall x :: x in Limit(s, n) ==> x in s
  {
  }

  /** The first `n` of a rearrangement `r` of `s` hold each value at most as
      often as `s`, and all of `s` when it has at most `n`. */
  lemma LimitMultiset<T>(s: seq<T>, r: seq<T>, n: nat)
    requires multiset(r) == multiset(s)
    ensures multiset(Limit(r, n)) <= multiset(s)
    ensures |s| <= n ==> multiset(Limit(r, n)) == multiset(s)
  {
    assert r == Limit(r, n) + r[|Limit(r, n)|..];
    assert |r| == |s| by {
      assert |multiset(r)| == |multiset(s)|;
    }
  }
}
