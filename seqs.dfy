/**
 * Order-preserving queries over tables held as sequences: the `filter`,
 * element-wise mapping and `order_by` that the ORM performs.
 */
module Seqs {

  import opened Optional

  /** The rows of `s` that satisfy `p`, in their original order. */
  function Filter<T(!new)>(s: seq<T>, p: T -> bool): (r: seq<T>)
    ensures |r| <= |s|
    ensures forall x :: x in r <==> x in s && p(x)
  {
    if s == [] then []
    else
      assert s == [s[0]] + s[1..];
      (if p(s[0]) then [s[0]] else []) + Filter(s[1..], p)
  }

  /** `f` applied to every element, position by position. */
  function Map<T, U>(s: seq<T>, f: T -> U): (r: seq<U>)
    ensures |r| == |s|
    ensures forall i :: 0 <= i < |s| ==> r[i] == f(s[i])
  {
    if s == [] then [] else [f(s[0])] + Map(s[1..], f)
  }

  /** Keys never decrease from left to right. */
  predicate SortedBy<T>(s: seq<T>, key: T -> int) {
    forall i, j :: 0 <= i < j < |s| ==> key(s[i]) <= key(s[j])
  }

  /** Keys strictly increase from left to right (a table in primary-key order). */
  predicate Ascending<T>(s: seq<T>, key: T -> int) {
    forall i, j :: 0 <= i < j < |s| ==> key(s[i]) < key(s[j])
  }

  /** The first two elements of a strictly ascending sequence are two different members. */
  lemma AscendingFirstTwo<T>(s: seq<T>, key: T -> int)
    ensures Ascending(s, key) && |s| >= 2 ==> s[0] in s && s[1] in s && s[0] != s[1]
  {
  }

  /** A head whose key is at most every key of a sorted tail gives a sorted sequence. */
  lemma ConsSorted<T>(h: T, rest: seq<T>, key: T -> int)
    requires SortedBy(rest, key)
    requires forall k :: 0 <= k < |rest| ==> key(h) <= key(rest[k])
    ensures SortedBy([h] + rest, key)
  {
    var r := [h] + rest;
    forall i, j | 0 <= i < j < |r| ensures key(r[i]) <= key(r[j]) {
      assert r[j] == rest[j - 1];
      if i > 0 { assert r[i] == rest[i - 1]; }
    }
  }

  /** A bound on every element of `s` and on `x` bounds every element of a permutation of `s` plus `x`. */
  lemma LowerBoundOfPermutation<T>(h: T, s: seq<T>, x: T, rest: seq<T>, key: T -> int)
    requires multiset(rest) == multiset(s) + multiset{x}
    requires forall y :: y in s ==> key(h) <= key(y)
    requires key(h) <= key(x)
    ensures forall k :: 0 <= k < |rest| ==> key(h) <= key(rest[k])
  {
    forall k | 0 <= k < |rest| ensures key(h) <= key(rest[k]) {
      assert rest[k] in multiset(rest);
      assert rest[k] == x || rest[k] in multiset(s);
    }
  }

  /** Places `x` after every element whose key is at most its own. */
  function Insert<T(!new)>(x: T, s: seq<T>, key: T -> int): (r: seq<T>)
    requires SortedBy(s, key)
    ensures SortedBy(r, key)
    ensures multiset(r) == multiset(s) + multiset{x}
    ensures |r| == |s| + 1
  {
    if s == [] then [x]
    else if key(x) < key(s[0]) then
      ConsSorted(x, s, key);
      [x] + s
    else
      assert s == [s[0]] + s[1..];
      var rest := Insert(x, s[1..], key);
      assert forall y :: y in s[1..] ==> key(s[0]) <= key(y);
      LowerBoundOfPermutation(s[0], s[1..], x, rest, key);
      ConsSorted(s[0], rest, key);
      assert multiset([s[0]] + rest) == multiset{s[0]} + multiset(rest);
      [s[0]] + rest
  }

  /** A stable insertion sort: the permutation of `s` ordered by ascending key. */
  function SortBy<T(!new)>(s: seq<T>, key: T -> int): (r: seq<T>)
    ensures SortedBy(r, key)
    ensures multiset(r) == multiset(s)
    ensures |r| == |s|
  {
    if s == [] then []
    else
      assert s == s[..|s| - 1] + [s[|s| - 1]];
      Insert(s[|s| - 1], SortBy(s[..|s| - 1], key), key)
  }

  /** Sorting keeps exactly the elements it was given. */
  lemma SortByMembers<T(!new)>(s: seq<T>, key: T -> int)
    ensures forall x :: x in SortBy(s, key) <==> x in s
  {
    var r := SortBy(s, key);
    forall x ensures x in r <==> x in s {
      assert x in r <==> x in multiset(r);
      assert x in s <==> x in multiset(s);
    }
  }

  /** A head whose key is below every key of an ascending tail gives an ascending sequence. */
  lemma ConsAscending<T>(h: T, rest: seq<T>, key: T -> int)
    requires Ascending(rest, key)
    requires forall y :: y in rest ==> key(h) < key(y)
    ensures Ascending([h] + rest, key)
  {
    var r := [h] + rest;
    forall i, j | 0 <= i < j < |r| ensures key(r[i]) < key(r[j]) {
      assert r[j] == rest[j - 1] && rest[j - 1] in rest;
      if i > 0 { assert r[i] == rest[i - 1]; }
    }
  }

  /** Filtering a table in primary-key order leaves it in primary-key order. */
  lemma {:induction false} FilterAscending<T(!new)>(s: seq<T>, p: T -> bool, key: T -> int)
    requires Ascending(s, key)
    ensures Ascending(Filter(s, p), key)
  {
    if s != [] {
      assert s == [s[0]] + s[1..];
      FilterAscending(s[1..], p, key);
      var rest := Filter(s[1..], p);
      if p(s[0]) {
        assert Filter(s, p) == [s[0]] + rest;
        forall y | y in rest ensures key(s[0]) < key(y) {
          var k :| 0 <= k < |s[1..]| && s[1..][k] == y;
          assert s[k + 1] == y;
        }
        ConsAscending(s[0], rest, key);
      }
    }
  }

  /** How many times `x` occurs in `s`. */
  function Count<T(==)>(s: seq<T>, x: T): (n: nat)
    ensures n <= |s|
    ensures x !in s ==> n == 0
    ensures (forall y :: y in s ==> y == x) ==> n == |s|
  {
    if s == [] then 0
    else
      assert s[0] in s && forall y :: y in s[1..] ==> y in s;
      (if s[0] == x then 1 else 0) + Count(s[1..], x)
  }

  /** A sequence in strictly increasing key order holds every value at most once. */
  lemma {:induction false} AscendingCountAtMostOne<T>(s: seq<T>, key: T -> int, x: T)
    requires Ascending(s, key)
    ensures Count(s, x) <= 1
  {
    if s != [] {
      AscendingCountAtMostOne(s[1..], key, x);
      forall i | 0 <= i < |s| - 1 ensures s[1..][i] != s[0] {
        assert key(s[0]) < key(s[i + 1]);
      }
    }
  }

  /** Appending a row with a key above every existing key keeps primary-key order. */
  lemma AppendAscending<T(!new)>(s: seq<T>, x: T, key: T -> int)
    requires Ascending(s, key)
    requires forall y :: y in s ==> key(y) < key(x)
    ensures Ascending(s + [x], key)
  {
    var r := s + [x];
    forall i, j | 0 <= i < j < |r| ensures key(r[i]) < key(r[j]) {
      if j == |s| { assert r[i] == s[i] && s[i] in s; }
    }
  }

  /** Rewriting rows without touching their keys keeps primary-key order. */
  lemma MapAscending<T>(s: seq<T>, f: T -> T, key: T -> int)
    requires Ascending(s, key)
    requires forall x :: x in s ==> key(f(x)) == key(x)
    ensures Ascending(Map(s, f), key)
  {
    var r := Map(s, f);
    forall i, j | 0 <= i < j < |r| ensures key(r[i]) < key(r[j]) {
      assert s[i] in s && s[j] in s;
    }
  }

  /** No element occurs twice. */
  predicate Distinct<T(==)>(s: seq<T>) {
    forall i, j :: 0 <= i < j < |s| ==> s[i] != s[j]
  }

  /** A sequence in strictly increasing key order has no repeated element. */
  lemma AscendingDistinct<T>(s: seq<T>, key: T -> int)
    requires Ascending(s, key)
    ensures Distinct(s)
  {
    forall i, j | 0 <= i < j < |s| ensures s[i] != s[j] {
      assert key(s[i]) < key(s[j]);
    }
  }

  /** Without repeats, every element has multiplicity one. */
  lemma {:induction false} DistinctMultiplicity<T>(s: seq<T>, x: T)
    requires Distinct(s)
    ensures multiset(s)[x] <= 1
  {
    if s != [] {
      assert s == [s[0]] + s[1..];
      assert Distinct(s[1..]) by {
        forall i, j | 0 <= i < j < |s[1..]| ensures s[1..][i] != s[1..][j] {
          assert s[i + 1] != s[j + 1];
        }
      }
      DistinctMultiplicity(s[1..], x);
      if x == s[0] {
        forall k | 0 <= k < |s[1..]| ensures s[1..][k] != x {
          assert s[0] != s[k + 1];
        }
        assert x !in s[1..];
      }
    }
  }

  /** A sequence in which every element has multiplicity at most one has no repeats. */
  lemma MultiplicityDistinct<T>(r: seq<T>)
    requires forall x :: x in r ==> multiset(r)[x] <= 1
    ensures Distinct(r)
  {
    forall i, j | 0 <= i < j < |r| ensures r[i] != r[j] {
      assert r == r[..j] + r[j..];
      assert r[i] in r[..j] && r[j] in r[j..] && r[i] in r;
      assert multiset(r)[r[i]] == multiset(r[..j])[r[i]] + multiset(r[j..])[r[i]];
    }
  }

  /** A permutation of a sequence without repeats has none either. */
  lemma PermutationDistinct<T>(s: seq<T>, r: seq<T>)
    requires Distinct(s) && multiset(r) == multiset(s)
    ensures Distinct(r)
  {
    forall i, j | 0 <= i < j < |r| ensures r[i] != r[j] {
      if r[i] == r[j] {
        assert r == r[..j] + r[j..];
        assert r[i] in r[..j] && r[j] in r[j..];
        assert multiset(r)[r[i]] >= 2;
        DistinctMultiplicity(s, r[i]);
      }
    }
  }

  /** The first element that satisfies `p`: the ORM's `.filter(...).first()` on a table in pk order. */
  function First<T(!new)>(s: seq<T>, p: T -> bool): (r: Option<T>)
    ensures r.None? <==> forall x :: x in s ==> !p(x)
    ensures r.Some? ==> r.value in s && p(r.value)
  {
    if s == [] then None
    else if p(s[0]) then Some(s[0])
    else
      assert s == [s[0]] + s[1..];
      First(s[1..], p)
  }

  /** What `First` picks has no match to its left. */
  lemma {:induction false} FirstIsEarliest<T(!new)>(s: seq<T>, p: T -> bool)
    requires First(s, p).Some?
    ensures exists i :: 0 <= i < |s| && s[i] == First(s, p).value && forall j :: 0 <= j < i ==> !p(s[j])
  {
    if !p(s[0]) {
      FirstIsEarliest(s[1..], p);
      var i :| 0 <= i < |s[1..]| && s[1..][i] == First(s[1..], p).value && forall j :: 0 <= j < i ==> !p(s[1..][j]);
      assert s[i + 1] == First(s, p).value;
      forall j | 0 <= j < i + 1 ensures !p(s[j]) {
        if j > 0 { assert s[j] == s[1..][j - 1]; }
      }
    }
  }
}
