/** Ordering and selection over sequences of records, as the SQL queries of
    the backend use them: `WHERE` (Filter), `ORDER BY a ASC, b ASC` (SortBy on
    a two-part Key) and `LIMIT` (Take). */
module Ordering {

  /** A sort key compared lexicographically: first `major`, then `minor`. */
  datatype Key = Key(major: int, minor: int)

  predicate KeyLe(a: Key, b: Key) {
    a.major < b.major || (a.major == b.major && a.minor <= b.minor)
  }

  predicate KeyLt(a: Key, b: Key) {
    a.major < b.major || (a.major == b.major && a.minor < b.minor)
  }

  /** `xs` is in ascending key order. */
  predicate SortedBy<T>(xs: seq<T>, key: T -> Key) {
    forall i, j :: 0 <= i < j < |xs| ==> KeyLe(key(xs[i]), key(xs[j]))
  }

  /** Inserts `x` into an ascending sequence after every element whose key
      is not greater. */
  function Insert<T>(x: T, xs: seq<T>, key: T -> Key): (r: seq<T>)
    requires SortedBy(xs, key)
    ensures SortedBy(r, key)
    ensures multiset(r) == multiset(xs) + multiset{x}
    decreases |xs|
  {
    if |xs| == 0 then [x]
    else if KeyLe(key(x), key(xs[0])) then [x] + xs
    else
      var rest := Insert(x, xs[1..], key);
      assert xs == [xs[0]] + xs[1..];
      assert forall k :: 0 <= k < |rest| ==> KeyLe(key(xs[0]), key(rest[k])) by {
        forall k | 0 <= k < |rest| ensures KeyLe(key(xs[0]), key(rest[k])) {
          assert rest[k] in multiset(rest);
          if rest[k] != x {
            assert rest[k] in multiset(xs[1..]);
            var i :| 0 <= i < |xs[1..]| && xs[1..][i] == rest[k];
            assert xs[i + 1] == rest[k];
          }
        }
      }
      SortedCons(xs[0], rest, key);
      [xs[0]] + rest
  }

  lemma SortedCons<T>(h: T, rest: seq<T>, key: T -> Key)
    requires SortedBy(rest, key)
    requires forall k :: 0 <= k < |rest| ==> KeyLe(key(h), key(rest[k]))
    ensures SortedBy([h] + rest, key)
  {
    var r := [h] + rest;
    forall i, j | 0 <= i < j < |r| ensures KeyLe(key(r[i]), key(r[j])) {
      if i == 0 {
        assert r[j] == rest[j - 1];
      } else {
        assert r[i] == rest[i - 1] && r[j] == rest[j - 1];
      }
    }
  }

  /** `ORDER BY key ASC`: the same elements, each as often, in ascending key
      order. */
  function SortBy<T>(xs: seq<T>, key: T -> Key): (r: seq<T>)
    ensures SortedBy(r, key)
    ensures multiset(r) == multiset(xs)
    ensures |r| == |xs|
    decreases |xs|
  {
    if |xs| == 0 then []
    else
      assert xs == [xs[0]] + xs[1..];
      Insert(xs[0], SortBy(xs[1..], key), key)
  }

  /** In an ascending sequence, an element whose key is strictly greater than
      that of every other element is the last one. */
  lemma LastOfSortedIsMax<T>(xs: seq<T>, key: T -> Key, m: T)
    requires SortedBy(xs, key)
    requires m in xs
    requires forall y :: y in xs && y != m ==> KeyLt(key(y), key(m))
    ensures xs[|xs| - 1] == m
  {
    var j :| 0 <= j < |xs| && xs[j] == m;
    if j < |xs| - 1 {
      assert KeyLe(key(xs[j]), key(xs[|xs| - 1]));
    }
  }

  /** `WHERE p`: the elements satisfying `p`, in their original order. A
      single row is kept exactly when it satisfies `p`; with FilterAppend
      this fixes the result, order and multiplicity included. */
  function Filter<T(!new)>(xs: seq<T>, p: T -> bool): (r: seq<T>)
    ensures forall x :: x in r <==> x in xs && p(x)
    ensures |r| <= |xs|
    ensures |xs| == 1 ==> r == (if p(xs[0]) then xs else [])
    decreases |xs|
  {
    if |xs| == 0 then []
    else
      assert xs == [xs[0]] + xs[1..];
      var rest := Filter(xs[1..], p);
      if p(xs[0]) then [xs[0]] + rest else rest
  }

  /** Filtering distributes over concatenation. */
  lemma {:induction false} FilterAppend<T(!new)>(xs: seq<T>, ys: seq<T>, p: T -> bool)
    ensures Filter(xs + ys, p) == Filter(xs, p) + Filter(ys, p)
    decreases |xs|
  {
    if |xs| > 0 {
      assert (xs + ys)[1..] == xs[1..] + ys;
      FilterAppend(xs[1..], ys, p);
    } else {
      assert xs + ys == ys;
    }
  }

  /** `LIMIT k`: the first `k` elements, or all of them when fewer exist. */
  function Take<T>(xs: seq<T>, k: nat): (r: seq<T>)
    ensures |r| == if k < |xs| then k else |xs|
    ensures forall i :: 0 <= i < |r| ==> r[i] == xs[i]
  {
    if k < |xs| then xs[..k] else xs
  }

  /** Filtering by a predicate that implies `p` sees only what filtering by
      `p` kept. */
  lemma {:induction false} FilterFilter<T(!new)>(xs: seq<T>, p: T -> bool, q: T -> bool)
    requires forall x :: q(x) ==> p(x)
    ensures Filter(Filter(xs, p), q) == Filter(xs, q)
    decreases |xs|
  {
    if |xs| > 0 {
      FilterFilter(xs[1..], p, q);
    }
  }

  /** Filtering by a predicate that excludes `p` finds nothing in what
      filtering by `p` kept. */
  lemma {:induction false} FilterExcluded<T(!new)>(xs: seq<T>, p: T -> bool, q: T -> bool)
    requires forall x :: q(x) ==> !p(x)
    ensures Filter(Filter(xs, p), q) == []
    decreases |xs|
  {
    if |xs| > 0 {
      FilterExcluded(xs[1..], p, q);
    }
  }

  /** Strictly increasing ids: every id occurs once, in insertion order. */
  predicate IncreasingBy<T>(xs: seq<T>, id: T -> int) {
    forall i, j :: 0 <= i < j < |xs| ==> id(xs[i]) < id(xs[j])
  }

  /** Filtering keeps elements in their original relative order, so a
      sequence with strictly increasing ids stays so. */
  lemma {:induction false} FilterKeepsIncreasing<T(!new)>(xs: seq<T>, p: T -> bool, id: T -> int)
    requires IncreasingBy(xs, id)
    ensures IncreasingBy(Filter(xs, p), id)
    decreases |xs|
  {
    if |xs| > 0 {
      var tail := xs[1..];
      assert IncreasingBy(tail, id) by {
        forall i, j | 0 <= i < j < |tail| ensures id(tail[i]) < id(tail[j]) {
          assert tail[i] == xs[i + 1] && tail[j] == xs[j + 1];
        }
      }
      FilterKeepsIncreasing(tail, p, id);
      var rest := Filter(tail, p);
      if p(xs[0]) {
        forall k | 0 <= k < |rest| ensures id(xs[0]) < id(rest[k]) {
          assert rest[k] in tail;
          var j :| 0 <= j < |tail| && tail[j] == rest[k];
          assert xs[j + 1] == rest[k];
        }
        var r := [xs[0]] + rest;
        forall i, j | 0 <= i < j < |r| ensures id(r[i]) < id(r[j]) {
          if i > 0 {
            assert r[i] == rest[i - 1] && r[j] == rest[j - 1];
          } else {
            assert r[j] == rest[j - 1];
          }
        }
      }
    }
  }
}
