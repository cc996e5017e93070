/**
 * Ordered views over keyed tables, as the `stream().sorted(comparator)`,
 * `TreeSet` and `Collections.sort` calls of the domain managers produce
 * them. An object table is keyed by the object's ID; a view sorts the IDs
 * by a comparison key and then reads the objects back.
 */
module Views {
  import opened Sorting

  /** The least element of a non-empty set of integers exists. */
  lemma {:induction false} LeastExists(xs: set<int>)
    requires xs != {}
    ensures exists m :: m in xs && forall y :: y in xs ==> m <= y
    decreases |xs|
  {
    if forall y :: y !in xs {
      assert false;
    }
    var x :| x in xs;
    if xs - {x} != {} {
      LeastExists(xs - {x});
      var m :| m in xs - {x} && forall y :: y in xs - {x} ==> m <= y;
      var least := if x < m then x else m;
      forall y | y in xs ensures least <= y {
        if y != x {
          assert y in xs - {x};
        }
      }
      assert least in xs;
    } else {
      assert xs == {x};
    }
  }

  function Least(xs: set<int>): (m: int)
    requires xs != {}
    ensures m in xs && forall y :: y in xs ==> m <= y
  {
    LeastExists(xs);
    var m :| m in xs && forall y :: y in xs ==> m <= y;
    m
  }

  /** The elements of a set of integers in ascending order, as sorting a copy of an ID key set gives them. */
  function SortedKeys(xs: set<int>): (s: seq<int>)
    ensures |s| == |xs|
    ensures forall x :: x in s <==> x in xs
    ensures forall i, j :: 0 <= i < j < |s| ==> s[i] < s[j]
    decreases |xs|
  {
    if xs == {} then []
    else
      var m := Least(xs);
      var rest := SortedKeys(xs - {m});
      var s := [m] + rest;
      assert forall i, j :: 0 <= i < j < |s| ==> s[i] < s[j] by {
        forall i, j | 0 <= i < j < |s| ensures s[i] < s[j] {
          assert s[j] == rest[j - 1] && s[j] in xs - {m};
          if i > 0 {
            assert s[i] == rest[i - 1];
          }
        }
      }
      assert forall x :: x in s <==> x in xs by {
        forall x ensures x in s <==> x in xs {
          assert x in s <==> x == m || x in rest;
        }
      }
      s
  }

  /**
   * A comparison key: a comparator that compares one field, then a second,
   * then a third. The first field is a `real` so that exact averages fit;
   * a descending field is stored negated.
   */
  datatype Key = Key(first: real, second: real, third: int)

  predicate KeyLe(x: Key, y: Key)
  {
    x.first < y.first || (x.first == y.first && (x.second < y.second || (x.second == y.second && x.third <= y.third)))
  }

  function KeyAt(keys: map<int, Key>, x: int): Key
  {
    if x in keys then keys[x] else Key(0.0, 0.0, 0)
  }

  function ByKey(keys: map<int, Key>): (int, int) -> bool
  {
    (x: int, y: int) => KeyLe(KeyAt(keys, x), KeyAt(keys, y))
  }

  lemma ByKeyTotal(keys: map<int, Key>)
    ensures TotalPreorder(ByKey(keys))
  {
  }

  /**
   * The IDs of a table, each once, ordered by their keys; IDs with equal
   * keys keep ascending ID order (the sort is stable).
   */
  function OrderedIds(keys: map<int, Key>): (s: seq<int>)
    ensures |s| == |keys|
    ensures forall i :: 0 <= i < |s| ==> s[i] in keys
    ensures forall x :: x in s <==> x in keys
    ensures forall i, j :: 0 <= i < j < |s| ==> s[i] != s[j]
    ensures forall i, j :: 0 <= i < j < |s| ==> s[i] in keys && s[j] in keys && KeyLe(keys[s[i]], keys[s[j]])
  {
    ByKeyTotal(keys);
    var ids := SortedKeys(keys.Keys);
    var s := InsertionSort(ids, ByKey(keys));
    SortedIdsFacts(keys, ids, s);
    s
  }

  lemma SortedIdsFacts(keys: map<int, Key>, ids: seq<int>, s: seq<int>)
    requires forall x :: x in ids <==> x in keys
    requires forall i, j :: 0 <= i < j < |ids| ==> ids[i] < ids[j]
    requires |ids| == |keys.Keys|
    requires multiset(s) == multiset(ids) && SortedBy(s, ByKey(keys))
    ensures |s| == |keys|
    ensures forall i :: 0 <= i < |s| ==> s[i] in keys
    ensures forall x :: x in s <==> x in keys
    ensures forall i, j :: 0 <= i < j < |s| ==> s[i] != s[j]
    ensures forall i, j :: 0 <= i < j < |s| ==> s[i] in keys && s[j] in keys && KeyLe(keys[s[i]], keys[s[j]])
  {
    MultisetSameElements(s, ids);
    assert |s| == |multiset(s)| == |multiset(ids)| == |ids|;
    assert |keys.Keys| == |keys|;
    forall i | 0 <= i < |s| ensures s[i] in keys {
      assert s[i] in s;
    }
    forall i, j | 0 <= i < j < |s| ensures s[i] != s[j] {
      RepeatedCountsTwice(s, i, j);
      DistinctCountsOnce(ids, s[i]);
    }
    forall i, j | 0 <= i < j < |s| ensures s[i] in keys && s[j] in keys && KeyLe(keys[s[i]], keys[s[j]]) {
      assert s[i] in s && s[j] in s;
      assert ByKey(keys)(s[i], s[j]);
    }
  }

  /** An element of a sequence without repetitions occurs once. */
  lemma DistinctCountsOnce(s: seq<int>, x: int)
    requires forall i, j :: 0 <= i < j < |s| ==> s[i] < s[j]
    ensures multiset(s)[x] <= 1
  {
    if s != [] {
      assert s == [s[0]] + s[1..];
      DistinctCountsOnce(s[1..], x);
      if x == s[0] {
        assert x !in s[1..];
      }
    }
  }

  /**
   * `s` lists the IDs of a table, each once, ordered by their keys, IDs
   * with equal keys in ascending order: what a stable sort by key of the
   * IDs in ascending order produces.
   */
  ghost predicate IsView(keys: map<int, Key>, s: seq<int>)
  {
    && |s| == |keys|
    && (forall i :: 0 <= i < |s| ==> s[i] in keys)
    && (forall x :: x in keys ==> x in s)
    && (forall i, j :: 0 <= i < j < |s| ==> s[i] != s[j])
    && (forall i, j :: 0 <= i < j < |s| ==> KeyLe(keys[s[i]], keys[s[j]]))
  }

  /**
   * A view of a table. Only the properties of `IsView` are visible to
   * callers; `OrderedIds` shows that one exists.
   */
  ghost function View(keys: map<int, Key>): (s: seq<int>)
    ensures IsView(keys, s)
  {
    assert IsView(keys, OrderedIds(keys));
    var s :| IsView(keys, s);
    s
  }

  /** `xs` in ascending order, each once. */
  ghost predicate IsAscending(xs: set<int>, s: seq<int>)
  {
    && |s| == |xs|
    && (forall i :: 0 <= i < |s| ==> s[i] in xs)
    && (forall x :: x in xs ==> x in s)
    && (forall i, j :: 0 <= i < j < |s| ==> s[i] < s[j])
  }

  /** A set of IDs sorted ascending; `SortedKeys` shows that the order exists. */
  ghost function Ascending(xs: set<int>): (s: seq<int>)
    ensures IsAscending(xs, s)
  {
    assert IsAscending(xs, SortedKeys(xs));
    var s :| IsAscending(xs, s);
    s
  }

  /**
   * The IDs whose key's first field is at most `bound`, each once, in key
   * order: a list sorted by a comparator and then filtered on its first
   * field.
   */
  function RankedIds(keys: map<int, Key>, bound: real): (s: seq<int>)
    ensures forall i :: 0 <= i < |s| ==> s[i] in keys && keys[s[i]].first <= bound
    ensures forall x :: x in keys && keys[x].first <= bound ==> x in s
    ensures forall i, j :: 0 <= i < j < |s| ==> s[i] != s[j] && KeyLe(KeyAt(keys, s[i]), KeyAt(keys, s[j]))
  {
    var all := OrderedIds(keys);
    var s := Filter(all, (x: int) => Within(keys, bound, x));
    RankedIdsFacts(keys, bound, all, s);
    s
  }

  predicate Within(keys: map<int, Key>, bound: real, x: int)
  {
    x in keys && keys[x].first <= bound
  }

  predicate Before(keys: map<int, Key>, x: int, y: int)
  {
    x != y && KeyLe(KeyAt(keys, x), KeyAt(keys, y))
  }

  lemma RankedIdsFacts(keys: map<int, Key>, bound: real, all: seq<int>, s: seq<int>)
    requires all == OrderedIds(keys)
    requires s == Filter(all, (x: int) => Within(keys, bound, x))
    ensures forall i :: 0 <= i < |s| ==> s[i] in keys && keys[s[i]].first <= bound
    ensures forall x :: x in keys && keys[x].first <= bound ==> x in s
    ensures forall i, j :: 0 <= i < j < |s| ==> s[i] != s[j] && KeyLe(KeyAt(keys, s[i]), KeyAt(keys, s[j]))
  {
    var kept := (x: int) => Within(keys, bound, x);
    var before := (x: int, y: int) => Before(keys, x, y);
    assert forall i, j :: 0 <= i < j < |all| ==> before(all[i], all[j]);
    FilterKeepsOrder(all, kept, before);
    forall i | 0 <= i < |s| ensures s[i] in keys && keys[s[i]].first <= bound {
      assert kept(s[i]);
    }
    forall x | x in keys && keys[x].first <= bound ensures x in s {
      assert x in all && kept(x);
      var k := IndexOf(all, x);
    }
    assert forall i, j :: 0 <= i < j < |s| ==> before(s[i], s[j]);
  }

  /** The objects of a table read back in the order of a view of its IDs. */
  function ValuesAt<V>(ids: seq<int>, m: map<int, V>): (r: seq<V>)
    requires forall i :: 0 <= i < |ids| ==> ids[i] in m
    ensures |r| == |ids|
    ensures forall i :: 0 <= i < |ids| ==> r[i] == m[ids[i]]
  {
    seq(|ids|, i requires 0 <= i < |ids| => m[ids[i]])
  }

  /**
   * The sum of the values of a table, as `values().stream().mapToInt(...).sum()`
   * computes it before any wrap-around; the entries are visited in ascending
   * key order, and by `SumValuesInsert` the order does not matter.
   */
  function SumValues(m: map<int, int>): int
    decreases |m.Keys|
  {
    if m.Keys == {} then 0
    else
      var k := Least(m.Keys);
      assert (m - {k}).Keys < m.Keys;
      m[k] + SumValues(m - {k})
  }

  /** Adding an entry under a fresh key adds its value to the sum. */
  lemma {:induction false} SumValuesInsert(m: map<int, int>, k: int, v: int)
    requires k !in m
    ensures SumValues(m[k := v]) == SumValues(m) + v
    decreases |m.Keys|
  {
    var n := m[k := v];
    assert n.Keys == m.Keys + {k};
    var l := Least(n.Keys);
    if l == k {
      assert n - {k} == m;
    } else {
      assert l in m.Keys;
      var lm := Least(m.Keys);
      assert lm == l;
      assert n - {l} == (m - {l})[k := v];
      assert (m - {l}).Keys < m.Keys;
      SumValuesInsert(m - {l}, k, v);
    }
  }

  /** Values between `lo` and `hi` sum to between `lo` and `hi` times the number of entries. */
  lemma {:induction false} SumValuesBounds(m: map<int, int>, lo: int, hi: int)
    requires forall k :: k in m ==> lo <= m[k] <= hi
    ensures lo * |m.Keys| <= SumValues(m) <= hi * |m.Keys|
    decreases |m.Keys|
  {
    if m.Keys != {} {
      var k := Least(m.Keys);
      var rest := m - {k};
      assert rest.Keys == m.Keys - {k};
      var n := |rest.Keys|;
      assert |m.Keys| == n + 1;
      SumValuesBounds(rest, lo, hi);
      assert SumValues(m) == m[k] + SumValues(rest);
      MulStep(lo, n);
      MulStep(hi, n);
    }
  }

  /** Kept apart from `SumValuesBounds` so the multiplication does not enter its larger proof context. */
  lemma MulStep(a: int, n: int)
    ensures a * (n + 1) == a * n + a
  {
  }
}
