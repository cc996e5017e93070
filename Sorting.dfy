/** Sorting by a comparator, as `List.sort`, `Collections.sort` and `stream().sorted` do. */
module Sorting {

  /** The comparator is total and transitive (what `Comparator`'s contract asks of it). */
  ghost predicate TotalPreorder<T(!new)>(le: (T, T) -> bool)
  {
    && (forall a, b :: le(a, b) || le(b, a))
    && (forall a, b, c :: le(a, b) && le(b, c) ==> le(a, c))
  }

  predicate SortedBy<T>(s: seq<T>, le: (T, T) -> bool)
  {
    forall i, j :: 0 <= i < j < |s| ==> le(s[i], s[j])
  }

  /** Inserts `x` in front of the first element it does not exceed (so earlier equal elements stay first). */
  function Insert<T(!new)>(x: T, s: seq<T>, le: (T, T) -> bool): (r: seq<T>)
    requires TotalPreorder(le)
    requires SortedBy(s, le)
    ensures SortedBy(r, le)
    ensures multiset(r) == multiset(s) + multiset{x}
    ensures |r| == |s| + 1
  {
    if s == [] then [x]
    else if le(x, s[0]) then [x] + s
    else
      var tail := Insert(x, s[1..], le);
      assert s == [s[0]] + s[1..];
      assert forall k | 0 <= k < |tail| :: le(s[0], tail[k]) by {
        forall k | 0 <= k < |tail| ensures le(s[0], tail[k]) {
          assert tail[k] in multiset(tail);
          if tail[k] != x {
            assert tail[k] in multiset(s[1..]);
          }
        }
      }
      [s[0]] + tail
  }

  /** A stable insertion sort. */
  function InsertionSort<T(!new)>(s: seq<T>, le: (T, T) -> bool): (r: seq<T>)
    requires TotalPreorder(le)
    ensures SortedBy(r, le)
    ensures multiset(r) == multiset(s)
    ensures |r| == |s|
  {
    if s == [] then []
    else
      assert s == [s[0]] + s[1..];
      Insert(s[0], InsertionSort(s[1..], le), le)
  }

  lemma MultisetSameElements<T>(a: seq<T>, b: seq<T>)
    requires multiset(a) == multiset(b)
    ensures forall x :: x in a <==> x in b
  {
    forall x ensures x in a <==> x in b {
      assert x in a <==> x in multiset(a);
      assert x in b <==> x in multiset(b);
    }
  }

  /** The elements of `s` that satisfy `p`, in order. */
  function Filter<T>(s: seq<T>, p: T -> bool): (r: seq<T>)
    ensures |r| <= |s|
    ensures forall i :: 0 <= i < |r| ==> r[i] in s && p(r[i])
    ensures forall i :: 0 <= i < |s| && p(s[i]) ==> s[i] in r
  {
    if s == [] then []
    else if p(s[0]) then [s[0]] + Filter(s[1..], p)
    else Filter(s[1..], p)
  }

  /** Filtering keeps a relation that holds between every element and each later one. */
  lemma {:induction false} FilterKeepsOrder<T>(s: seq<T>, p: T -> bool, r: (T, T) -> bool)
    requires forall i, j :: 0 <= i < j < |s| ==> r(s[i], s[j])
    ensures forall i, j :: 0 <= i < j < |Filter(s, p)| ==> r(Filter(s, p)[i], Filter(s, p)[j])
    decreases |s|
  {
    if s != [] {
      var rest := Filter(s[1..], p);
      FilterKeepsOrder(s[1..], p, r);
      if p(s[0]) {
        forall j | 0 <= j < |rest| ensures r(s[0], rest[j]) {
          var k := IndexOf(s[1..], rest[j]);
          assert s[k + 1] == rest[j];
        }
      }
    }
  }

  lemma FilterConcat<T>(a: seq<T>, b: seq<T>, p: T -> bool)
    ensures Filter(a + b, p) == Filter(a, p) + Filter(b, p)
  {
    if a == [] {
      assert a + b == b;
    } else {
      assert (a + b)[1..] == a[1..] + b;
      FilterConcat(a[1..], b, p);
    }
  }

  /** `a` and `b` are tied: the comparator puts neither before the other. */
  predicate Tied<T>(le: (T, T) -> bool, a: T, b: T)
  {
    le(a, b) && le(b, a)
  }

  lemma TiedStaysTied<T(!new)>(le: (T, T) -> bool, x: T, y: T, z: T)
    requires TotalPreorder(le)
    requires Tied(le, x, y) && !le(y, z)
    ensures !Tied(le, x, z)
  {
  }

  /** Inserting into a sorted sequence keeps the relative order of the elements tied with any `x`. */
  lemma {:induction false} InsertKeepsTies<T(!new)>(y: T, s: seq<T>, le: (T, T) -> bool, x: T, p: T -> bool)
    requires TotalPreorder(le)
    requires SortedBy(s, le)
    requires forall z :: p(z) == Tied(le, x, z)
    ensures Filter(Insert(y, s, le), p) == (if p(y) then [y] else []) + Filter(s, p)
  {
    if s == [] {
    } else if le(y, s[0]) {
      FilterConcat([y], s, p);
    } else {
      var rest := Insert(y, s[1..], le);
      assert Insert(y, s, le) == [s[0]] + rest;
      InsertKeepsTies(y, s[1..], le, x, p);
      if p(y) {
        TiedStaysTied(le, x, y, s[0]);
      }
      assert s == [s[0]] + s[1..];
      FilterPassesHead(s[0], rest, s[1..], y, p);
    }
  }

  /** Putting `h` in front of both sides keeps them equal once filtered, when `h` is dropped whenever `y` is kept. */
  lemma FilterPassesHead<T>(h: T, rest: seq<T>, tail: seq<T>, y: T, p: T -> bool)
    requires Filter(rest, p) == (if p(y) then [y] else []) + Filter(tail, p)
    requires p(y) ==> !p(h)
    ensures Filter([h] + rest, p) == (if p(y) then [y] else []) + Filter([h] + tail, p)
  {
    FilterConcat([h], rest, p);
    FilterConcat([h], tail, p);
  }

  /** Stability: the elements tied with any `x` come out in the order they went in. */
  lemma {:induction false} InsertionSortStable<T(!new)>(s: seq<T>, le: (T, T) -> bool, x: T, p: T -> bool)
    requires TotalPreorder(le)
    requires forall z :: p(z) == Tied(le, x, z)
    ensures Filter(InsertionSort(s, le), p) == Filter(s, p)
  {
    if s != [] {
      InsertionSortStable(s[1..], le, x, p);
      InsertKeepsTies(s[0], InsertionSort(s[1..], le), le, x, p);
      assert s == [s[0]] + s[1..];
      FilterConcat([s[0]], s[1..], p);
    }
  }

  /** A position of an element of `s`. */
  lemma IndexOf<T>(s: seq<T>, x: T) returns (k: nat)
    requires x in s
    ensures k < |s| && s[k] == x
  {
    k :| 0 <= k < |s| && s[k] == x;
  }

  lemma RepeatedCountsTwice<T>(s: seq<T>, i: int, j: int)
    requires 0 <= i < j < |s|
    ensures s[i] == s[j] ==> multiset(s)[s[i]] >= 2
  {
    if s[i] == s[j] {
      var a, b := s[..j], s[j..];
      assert s == a + b;
      assert a[i] == s[i] && b[0] == s[j];
      assert s[i] in multiset(a) && s[i] in multiset(b);
    }
  }
}
