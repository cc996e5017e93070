/**
 * What the two drafts of the hamburger network share: the exceptions, the
 * exact average rating, the orders of the favourites views, the `TreeSet`
 * the network collects favourites into, the level-bounded breadth-first
 * search of `getRecommendation`, and the `toString` formats of restaurants
 * and students.
 */
module Burgers {
  import opened Wrappers
  import opened JavaLang
  import opened Views
  import opened Graphs
  import opened JavaText
  import opened Sorting

  /** The checked exceptions of the network, one constructor per exception class. */
  datatype BurgerError =
    | StudentAlreadyInSystem
    | RestaurantAlreadyInSystem
    | StudentNotInSystem
    | RestaurantNotInSystem
    | SameStudent
    | ConnectionAlreadyExists
    | UnratedFavoriteRestaurant
    | RateRange
    | ImpossibleConnection

  /** Every rating is one `rate` accepts. */
  predicate RatingsInRange(ratings: map<int, int>)
  {
    forall k :: k in ratings ==> 0 <= ratings[k] <= 5
  }

  /**
   * `averageRating`, computed exactly: the sum of the ratings over their
   * number, and 0 for a restaurant nobody rated.
   */
  function Average(ratings: map<int, int>): (a: real)
    ensures |ratings.Keys| == 0 ==> a == 0.0
  {
    if |ratings.Keys| == 0 then 0.0 else SumValues(ratings) as real / |ratings.Keys| as real
  }

  /** Ratings `rate` accepts average between 0 and 5, so a limit of 0 keeps every restaurant. */
  lemma AverageBounds(ratings: map<int, int>)
    requires RatingsInRange(ratings)
    ensures 0.0 <= Average(ratings) <= 5.0
  {
    var n := |ratings.Keys|;
    if n > 0 {
      SumValuesBounds(ratings, 0, 5);
      QuotientBounds(SumValues(ratings) as real, n as real);
    }
  }

  lemma QuotientBounds(sum: real, n: real)
    requires n > 0.0 && 0.0 <= sum <= 5.0 * n
    ensures 0.0 <= sum / n <= 5.0
  {
    var a := sum / n;
    assert (a - 5.0) * n == sum - 5.0 * n <= 0.0;
    assert a * n == sum >= 0.0;
  }

  /** The accumulating loop of `averageRating`: the ratings are summed one by one, then divided by their number. */
  method MeanOf(ratings: map<int, int>) returns (a: real)
    ensures a == Average(ratings)
  {
    var n := |ratings.Keys|;
    if n == 0 {
      return 0.0;
    }
    var sum := 0;
    var left := ratings;
    while left != map[]
      invariant sum + SumValues(left) == SumValues(ratings)
      decreases |left.Keys|
    {
      if forall y :: y !in left {
        assert false;
      }
      var k :| k in left;
      var rest := left - {k};
      assert rest[k := left[k]] == left;
      SumValuesInsert(rest, k, left[k]);
      assert rest.Keys < left.Keys;
      sum := sum + left[k];
      left := rest;
    }
    a := sum as real / n as real;
  }

  /**
   * The comparator of `favoritesByRating` says `compare(x, y) < 0`: a higher
   * average first, then the nearer, then the smaller ID.
   */
  predicate RatingFirst(avg1: real, dist1: int, id1: int, avg2: real, dist2: int, id2: int)
  {
    avg1 > avg2 || (avg1 == avg2 && (dist1 < dist2 || (dist1 == dist2 && id1 < id2)))
  }

  /**
   * The comparator of `favoritesByDist` says `compare(x, y) < 0`: the nearer
   * first, then a higher average, then the smaller ID.
   */
  predicate DistFirst(avg1: real, dist1: int, id1: int, avg2: real, dist2: int, id2: int)
  {
    dist1 < dist2 || (dist1 == dist2 && (avg1 > avg2 || (avg1 == avg2 && id1 < id2)))
  }

  /** The comparator of `favoritesByRating` as a key: a descending field is negated. */
  function RatingKey(avg: real, dist: int, id: int): (k: Key)
    ensures k.third == id
  {
    Key(-avg, dist as real, id)
  }

  /** The comparator of `favoritesByDist` as a key. */
  function DistKey(avg: real, dist: int, id: int): (k: Key)
    ensures k.third == id
  {
    Key(dist as real, -avg, id)
  }

  /** Keys in order and distinct mean the first restaurant comes first in the `favoritesByRating` order. */
  lemma RatingKeyOrder(avg1: real, dist1: int, id1: int, avg2: real, dist2: int, id2: int)
    requires KeyLe(RatingKey(avg1, dist1, id1), RatingKey(avg2, dist2, id2)) && id1 != id2
    ensures RatingFirst(avg1, dist1, id1, avg2, dist2, id2)
  {
  }

  /** Keys in order and distinct mean the first restaurant comes first in the `favoritesByDist` order. */
  lemma DistKeyOrder(avg1: real, dist1: int, id1: int, avg2: real, dist2: int, id2: int)
    requires KeyLe(DistKey(avg1, dist1, id1), DistKey(avg2, dist2, id2)) && id1 != id2
    ensures DistFirst(avg1, dist1, id1, avg2, dist2, id2)
  {
  }

  /** The two orders in which a student lists favourites. */
  datatype Order = ByRating | ByDistance

  /**
   * What the views and the `TreeSet` comparators read of a restaurant: its
   * ID, its distance and its average rating at the time of the call.
   */
  datatype Stats = Stats(id: int, distance: int, average: real)

  /** The filter of `favoritesByRating(limit)` and of `favoritesByDist(limit)`. */
  predicate Kept(o: Order, st: Stats, limit: int)
  {
    match o
    case ByRating => st.average >= limit as real
    case ByDistance => st.distance <= limit
  }

  /** The comparator of each view says a restaurant with `a` comes before one with `b`. */
  predicate Precedes(o: Order, a: Stats, b: Stats)
  {
    match o
    case ByRating => RatingFirst(a.average, a.distance, a.id, b.average, b.distance, b.id)
    case ByDistance => DistFirst(a.average, a.distance, a.id, b.average, b.distance, b.id)
  }

  function OrderKey(o: Order, st: Stats): (k: Key)
    ensures k.third == st.id
  {
    match o
    case ByRating => RatingKey(st.average, st.distance, st.id)
    case ByDistance => DistKey(st.average, st.distance, st.id)
  }

  /** The filter in terms of the first field of the key. */
  function Bound(o: Order, limit: int): real
  {
    match o
    case ByRating => -(limit as real)
    case ByDistance => limit as real
  }

  lemma KeptByKey(o: Order, st: Stats, limit: int)
    ensures Kept(o, st, limit) <==> OrderKey(o, st).first <= Bound(o, limit)
  {
  }

  lemma PrecedesByKey(o: Order, a: Stats, b: Stats)
    requires KeyLe(OrderKey(o, a), OrderKey(o, b)) && a.id != b.id
    ensures Precedes(o, a, b)
  {
    match o
    case ByRating => RatingKeyOrder(a.average, a.distance, a.id, b.average, b.distance, b.id);
    case ByDistance => DistKeyOrder(a.average, a.distance, a.id, b.average, b.distance, b.id);
  }

  /** No two entries carry the same restaurant ID. */
  predicate DistinctEntries<T>(es: seq<(T, Stats)>)
  {
    forall i, j :: 0 <= i < j < |es| ==> es[i].1.id != es[j].1.id
  }

  function EntriesById<T>(es: seq<(T, Stats)>): (m: map<int, (T, Stats)>)
    requires DistinctEntries(es)
    ensures forall i :: 0 <= i < |es| ==> es[i].1.id in m && m[es[i].1.id] == es[i]
    ensures forall x :: x in m ==> m[x] in es && m[x].1.id == x
  {
    map i | 0 <= i < |es| :: es[i].1.id := es[i]
  }

  function EntryKeys<T>(o: Order, byId: map<int, (T, Stats)>): (keys: map<int, Key>)
    ensures keys.Keys == byId.Keys
    ensures forall x :: x in byId ==> keys[x] == OrderKey(o, byId[x].1)
  {
    map x | x in byId :: OrderKey(o, byId[x].1)
  }

  /**
   * A student's view: the favourites sorted by the order's comparator (a
   * stable sort; the comparator ends with the ID, so no two entries tie)
   * and then filtered.
   */
  function Ranked<T>(o: Order, es: seq<(T, Stats)>, limit: int): (r: seq<(T, Stats)>)
    requires DistinctEntries(es)
  {
    var byId := EntriesById(es);
    var keys := EntryKeys(o, byId);
    var ids := RankedIds(keys, Bound(o, limit));
    assert forall i :: 0 <= i < |ids| ==> ids[i] in byId;
    ValuesAt(ids, byId)
  }

  /** Every entry of a view is a favourite the filter keeps. */
  lemma RankedMembers<T>(o: Order, es: seq<(T, Stats)>, limit: int)
    requires DistinctEntries(es)
    ensures forall i :: 0 <= i < |Ranked(o, es, limit)| ==> Ranked(o, es, limit)[i] in es && Kept(o, Ranked(o, es, limit)[i].1, limit)
  {
    var byId := EntriesById(es);
    var keys := EntryKeys(o, byId);
    var ids := RankedIds(keys, Bound(o, limit));
    var r := Ranked(o, es, limit);
    forall i | 0 <= i < |r| ensures r[i] in es && Kept(o, r[i].1, limit) {
      assert r[i] == byId[ids[i]];
      KeptByKey(o, r[i].1, limit);
    }
  }

  /** Every favourite the filter keeps is in the view. */
  lemma RankedComplete<T>(o: Order, es: seq<(T, Stats)>, limit: int)
    requires DistinctEntries(es)
    ensures forall i :: 0 <= i < |es| && Kept(o, es[i].1, limit) ==> es[i] in Ranked(o, es, limit)
  {
    var byId := EntriesById(es);
    var keys := EntryKeys(o, byId);
    var ids := RankedIds(keys, Bound(o, limit));
    var r := Ranked(o, es, limit);
    forall i | 0 <= i < |es| && Kept(o, es[i].1, limit) ensures es[i] in r {
      KeptByKey(o, es[i].1, limit);
      var x := es[i].1.id;
      assert x in ids;
      var k := IndexOf(ids, x);
      assert r[k] == byId[x] == es[i];
    }
  }

  /** A view lists its entries in the comparator's order. */
  lemma RankedOrder<T>(o: Order, es: seq<(T, Stats)>, limit: int)
    requires DistinctEntries(es)
    ensures forall i, j :: 0 <= i < j < |Ranked(o, es, limit)| ==> Precedes(o, Ranked(o, es, limit)[i].1, Ranked(o, es, limit)[j].1)
  {
    var byId := EntriesById(es);
    var keys := EntryKeys(o, byId);
    var ids := RankedIds(keys, Bound(o, limit));
    var r := Ranked(o, es, limit);
    forall i, j | 0 <= i < j < |r| ensures Precedes(o, r[i].1, r[j].1) {
      assert r[i] == byId[ids[i]] && r[j] == byId[ids[j]];
      PrecedesByKey(o, r[i].1, r[j].1);
    }
  }

  /** The restaurants of a list of entries. */
  function Firsts<T>(es: seq<(T, Stats)>): (r: seq<T>)
    ensures |r| == |es|
    ensures forall i :: 0 <= i < |es| ==> r[i] == es[i].0
  {
    seq(|es|, i requires 0 <= i < |es| => es[i].0)
  }

  /** A `TreeSet<RestaurantImpl>` in natural order compares by ID only. */
  function IdKey(id: int): (k: Key)
    ensures k.third == id
  {
    Key(0.0, 0.0, id)
  }

  lemma IdKeyOrder(a: int, b: int)
    ensures KeyLt(IdKey(a), IdKey(b)) <==> a < b
    ensures IdKey(a) == IdKey(b) <==> a == b
  {
  }

  /**
   * The key under which the network's `TreeSet` files a restaurant: its ID
   * in natural order, or the view's comparator.
   */
  function TreeKey(natural: bool, o: Order, st: Stats): Key
  {
    if natural then IdKey(st.id) else OrderKey(o, st)
  }

  function Keyed<T>(natural: bool, o: Order, es: seq<(T, Stats)>): (r: seq<(Key, (T, Stats))>)
    ensures |r| == |es|
    ensures forall j :: 0 <= j < |es| ==> r[j] == (TreeKey(natural, o, es[j].1), es[j])
  {
    seq(|es|, j requires 0 <= j < |es| => (TreeKey(natural, o, es[j].1), es[j]))
  }

  /** The entries of each friend in turn. */
  function Flatten<T>(snap: seq<seq<T>>): seq<T>
  {
    if snap == [] then [] else Flatten(snap[..|snap| - 1]) + snap[|snap| - 1]
  }

  lemma {:induction false} InFlatten<T>(snap: seq<seq<T>>, m: int, j: int)
    requires 0 <= m < |snap| && 0 <= j < |snap[m]|
    ensures snap[m][j] in Flatten(snap)
    decreases |snap|
  {
    var front := snap[..|snap| - 1];
    if m < |snap| - 1 {
      InFlatten(front, m, j);
      assert front[m] == snap[m];
    } else {
      assert Flatten(snap)[|Flatten(front)| + j] == snap[m][j];
    }
  }

  /**
   * What the network's `favoritesByRating` and `favoritesByDist` return,
   * given each friend's favourites (friends in ascending ID order): the
   * entries in ascending tree-key order, no two with the same key, each a
   * favourite of some friend that the filter keeps, and for each such
   * favourite one entry with its key. Of two key-equal favourites a `TreeSet`
   * keeps the first added; this predicate does not say which, which does not
   * matter while IDs are unique, since key-equal favourites are then the same
   * restaurant.
   */
  ghost predicate Collected<T>(natural: bool, o: Order, limit: int, snap: seq<seq<(T, Stats)>>, out: seq<(T, Stats)>)
  {
    && (forall i, j :: 0 <= i < j < |out| ==> KeyLt(TreeKey(natural, o, out[i].1), TreeKey(natural, o, out[j].1)))
    && (forall i :: 0 <= i < |out| ==> Kept(o, out[i].1, limit) && out[i] in Flatten(snap))
    && (forall m, j :: 0 <= m < |snap| && 0 <= j < |snap[m]| && Kept(o, snap[m][j].1, limit) ==>
          exists i :: 0 <= i < |out| && TreeKey(natural, o, out[i].1) == TreeKey(natural, o, snap[m][j].1))
  }

  /** In natural order the tree keys are the IDs: the result lists IDs in ascending order, one per kept favourite's ID. */
  lemma CollectedById<T>(o: Order, limit: int, snap: seq<seq<(T, Stats)>>, out: seq<(T, Stats)>)
    requires Collected(true, o, limit, snap, out)
    ensures forall i, j :: 0 <= i < j < |out| ==> out[i].1.id < out[j].1.id
    ensures forall m, j :: 0 <= m < |snap| && 0 <= j < |snap[m]| && Kept(o, snap[m][j].1, limit) ==>
      exists i :: 0 <= i < |out| && out[i].1.id == snap[m][j].1.id
  {
    forall i, j | 0 <= i < j < |out| ensures out[i].1.id < out[j].1.id {
      IdKeyOrder(out[i].1.id, out[j].1.id);
    }
    forall m, j | 0 <= m < |snap| && 0 <= j < |snap[m]| && Kept(o, snap[m][j].1, limit)
      ensures exists i :: 0 <= i < |out| && out[i].1.id == snap[m][j].1.id
    {
      var i :| 0 <= i < |out| && TreeKey(true, o, out[i].1) == TreeKey(true, o, snap[m][j].1);
      IdKeyOrder(out[i].1.id, snap[m][j].1.id);
    }
  }

  /** The facts `GatheredCollected` needs about the views added to the tree. */
  ghost predicate ViewsOf<T>(natural: bool, o: Order, limit: int, snap: seq<seq<(T, Stats)>>, views: seq<seq<(Key, (T, Stats))>>)
  {
    && |views| == |snap|
    && (forall m :: 0 <= m < |snap| ==> DistinctEntries(snap[m]))
    && (forall m :: 0 <= m < |snap| ==> views[m] == Keyed(natural, o, Ranked(o, snap[m], limit)))
  }

  /** An element of a view is keyed by its tree key and is a kept favourite of that friend. */
  lemma InView<T>(natural: bool, o: Order, limit: int, snap: seq<seq<(T, Stats)>>, views: seq<seq<(Key, (T, Stats))>>, m: int, x: (Key, (T, Stats)))
    requires ViewsOf(natural, o, limit, snap, views)
    requires 0 <= m < |views| && x in views[m]
    ensures x.0 == TreeKey(natural, o, x.1.1)
    ensures Kept(o, x.1.1, limit) && x.1 in Flatten(snap)
  {
    var q := IndexOf(views[m], x);
    RankedMembers(o, snap[m], limit);
    var e := Ranked(o, snap[m], limit)[q];
    assert x == (TreeKey(natural, o, e.1), e);
    var j := IndexOf(snap[m], e);
    InFlatten(snap, m, j);
  }

  /** A kept favourite of a friend has its key in the tree. */
  lemma KeptInTree<T>(natural: bool, o: Order, limit: int, snap: seq<seq<(T, Stats)>>, views: seq<seq<(Key, (T, Stats))>>, tree: seq<(Key, (T, Stats))>, m: int, j: int)
    requires ViewsOf(natural, o, limit, snap, views)
    requires Gathered(tree, views)
    requires 0 <= m < |snap| && 0 <= j < |snap[m]| && Kept(o, snap[m][j].1, limit)
    ensures exists i :: 0 <= i < |tree| && tree[i].0 == TreeKey(natural, o, snap[m][j].1)
  {
    RankedComplete(o, snap[m], limit);
    var q := IndexOf(Ranked(o, snap[m], limit), snap[m][j]);
    assert views[m][q].0 == TreeKey(natural, o, snap[m][j].1);
    assert HasKey(tree, views[m][q].0);
  }

  /** Each element of the tree is keyed by its tree key and is a kept favourite of some friend. */
  lemma TreeFromViews<T>(natural: bool, o: Order, limit: int, snap: seq<seq<(T, Stats)>>, views: seq<seq<(Key, (T, Stats))>>, tree: seq<(Key, (T, Stats))>)
    requires ViewsOf(natural, o, limit, snap, views)
    requires Gathered(tree, views)
    ensures forall i :: 0 <= i < |tree| ==> tree[i].0 == TreeKey(natural, o, tree[i].1.1)
    ensures forall i :: 0 <= i < |tree| ==> Kept(o, tree[i].1.1, limit) && tree[i].1 in Flatten(snap)
  {
    forall i | 0 <= i < |tree|
      ensures tree[i].0 == TreeKey(natural, o, tree[i].1.1)
      ensures Kept(o, tree[i].1.1, limit) && tree[i].1 in Flatten(snap)
    {
      assert tree[i] in tree;
      var m :| 0 <= m < |views| && tree[i] in views[m];
      InView(natural, o, limit, snap, views, m, tree[i]);
    }
  }

  /** Adding each friend's view to the tree in turn collects what `Collected` describes. */
  lemma GatheredCollected<T>(natural: bool, o: Order, limit: int, snap: seq<seq<(T, Stats)>>, views: seq<seq<(Key, (T, Stats))>>, tree: seq<(Key, (T, Stats))>)
    requires ViewsOf(natural, o, limit, snap, views)
    requires Gathered(tree, views)
    ensures Collected(natural, o, limit, snap, Payloads(tree))
  {
    var out := Payloads(tree);
    TreeFromViews(natural, o, limit, snap, views, tree);
    forall i, j | 0 <= i < j < |out| ensures KeyLt(TreeKey(natural, o, out[i].1), TreeKey(natural, o, out[j].1)) {
      assert KeyLt(tree[i].0, tree[j].0);
    }
    forall m, j | 0 <= m < |snap| && 0 <= j < |snap[m]| && Kept(o, snap[m][j].1, limit)
      ensures exists i :: 0 <= i < |out| && TreeKey(natural, o, out[i].1) == TreeKey(natural, o, snap[m][j].1)
    {
      KeptInTree(natural, o, limit, snap, views, tree, m, j);
    }
  }

  /** The strict order of a `TreeSet` whose comparator compares keys. */
  predicate KeyLt(x: Key, y: Key)
  {
    KeyLe(x, y) && x != y
  }

  /** A `TreeSet`'s contents in iteration order: keys strictly ascending. */
  predicate TreeOrdered<T>(s: seq<(Key, T)>)
  {
    forall i, j :: 0 <= i < j < |s| ==> KeyLt(s[i].0, s[j].0)
  }

  predicate HasKey<T>(s: seq<(Key, T)>, k: Key)
  {
    exists i :: 0 <= i < |s| && s[i].0 == k
  }

  /**
   * `TreeSet.add`: an element whose key compares equal to a present one is
   * dropped; any other goes in its place in key order.
   */
  function TreeAdd<T>(s: seq<(Key, T)>, e: (Key, T)): (r: seq<(Key, T)>)
    requires TreeOrdered(s)
    ensures TreeOrdered(r)
    ensures forall i :: 0 <= i < |s| ==> s[i] in r
    ensures forall i :: 0 <= i < |r| ==> r[i] in s || r[i] == e
    ensures !HasKey(s, e.0) ==> e in r
    ensures forall k :: HasKey(r, k) <==> HasKey(s, k) || k == e.0
  {
    if s == [] then [e]
    else if s[0].0 == e.0 then s
    else if KeyLe(e.0, s[0].0) then
      assert !HasKey(s, e.0);
      [e] + s
    else
      var rest := TreeAdd(s[1..], e);
      assert forall i :: 1 <= i < |s| ==> s[i] == s[1..][i - 1];
      assert HasKey(s, e.0) <==> HasKey(s[1..], e.0) by {
        if HasKey(s, e.0) {
          var i :| 0 <= i < |s| && s[i].0 == e.0;
          assert s[1..][i - 1].0 == e.0;
        }
        if HasKey(s[1..], e.0) {
          var i :| 0 <= i < |s| - 1 && s[1..][i].0 == e.0;
          assert s[i + 1].0 == e.0;
        }
      }
      TreeAddFront(s, rest, e);
      [s[0]] + rest
  }

  lemma TreeAddFront<T>(s: seq<(Key, T)>, rest: seq<(Key, T)>, e: (Key, T))
    requires TreeOrdered(s) && s != [] && KeyLt(s[0].0, e.0)
    requires TreeOrdered(rest)
    requires forall k :: HasKey(rest, k) <==> HasKey(s[1..], k) || k == e.0
    ensures TreeOrdered([s[0]] + rest)
    ensures forall k :: HasKey([s[0]] + rest, k) <==> HasKey(s, k) || k == e.0
  {
    var r := [s[0]] + rest;
    forall j | 0 < j < |r| ensures KeyLt(r[0].0, r[j].0) {
      assert HasKey(rest, r[j].0);
      if HasKey(s[1..], r[j].0) {
        var i :| 0 <= i < |s| - 1 && s[1..][i].0 == r[j].0;
        assert KeyLt(s[0].0, s[i + 1].0);
      }
    }
    forall k ensures HasKey(r, k) <==> HasKey(s, k) || k == e.0 {
      if HasKey(r, k) {
        var i :| 0 <= i < |r| && r[i].0 == k;
        if i > 0 {
          assert rest[i - 1].0 == k;
          assert HasKey(rest, k);
          if HasKey(s[1..], k) {
            var l :| 0 <= l < |s| - 1 && s[1..][l].0 == k;
            assert s[l + 1].0 == k;
          }
        }
      }
      if HasKey(s, k) {
        var i :| 0 <= i < |s| && s[i].0 == k;
        if i > 0 {
          assert s[1..][i - 1].0 == k;
          assert HasKey(s[1..], k);
          assert HasKey(rest, k);
          var l :| 0 <= l < |rest| && rest[l].0 == k;
          assert r[l + 1].0 == k;
        }
      }
      if k == e.0 {
        assert HasKey(rest, k);
        var l :| 0 <= l < |rest| && rest[l].0 == k;
        assert r[l + 1].0 == k;
      }
    }
  }

  /**
   * `TreeSet.addAll`: the elements are added one by one, in the order the
   * argument collection iterates them.
   */
  function AddAll<T>(tree: seq<(Key, T)>, es: seq<(Key, T)>): (r: seq<(Key, T)>)
    requires TreeOrdered(tree)
    ensures TreeOrdered(r)
    ensures forall i :: 0 <= i < |r| ==> r[i] in tree || r[i] in es
    ensures forall k :: HasKey(r, k) <==> HasKey(tree, k) || HasKey(es, k)
  {
    if es == [] then tree
    else
      var front := es[..|es| - 1];
      var last := es[|es| - 1];
      var r := TreeAdd(AddAll(tree, front), last);
      AddAllStep(es, front, last);
      r
  }

  lemma AddAllStep<T>(es: seq<(Key, T)>, front: seq<(Key, T)>, last: (Key, T))
    requires es != [] && front == es[..|es| - 1] && last == es[|es| - 1]
    ensures forall x :: x in front || x == last ==> x in es
    ensures forall k :: HasKey(es, k) <==> HasKey(front, k) || k == last.0
  {
    assert es == front + [last];
    forall k ensures HasKey(es, k) <==> HasKey(front, k) || k == last.0 {
      if HasKey(es, k) {
        var i :| 0 <= i < |es| && es[i].0 == k;
        if i < |front| {
          assert front[i].0 == k;
        }
      }
      if HasKey(front, k) {
        var i :| 0 <= i < |front| && front[i].0 == k;
        assert es[i].0 == k;
      }
    }
  }

  /**
   * What adding several collections to a `TreeSet` in turn has gathered: each
   * element comes from one of them, and each of their keys is present.
   */
  ghost predicate Gathered<T>(tree: seq<(Key, T)>, views: seq<seq<(Key, T)>>)
  {
    && TreeOrdered(tree)
    && (forall x :: x in tree ==> exists m :: 0 <= m < |views| && x in views[m])
    && (forall m, j :: 0 <= m < |views| && 0 <= j < |views[m]| ==> HasKey(tree, views[m][j].0))
  }

  /** One more `addAll` gathers one more collection. */
  lemma GatheredStep<T>(tree: seq<(Key, T)>, views: seq<seq<(Key, T)>>, es: seq<(Key, T)>, next: seq<(Key, T)>)
    requires Gathered(tree, views)
    requires TreeOrdered(next)
    requires forall i :: 0 <= i < |next| ==> next[i] in tree || next[i] in es
    requires forall k :: HasKey(next, k) <==> HasKey(tree, k) || HasKey(es, k)
    ensures Gathered(next, views + [es])
  {
    var all := views + [es];
    forall x | x in next ensures exists m :: 0 <= m < |all| && x in all[m] {
      var i :| 0 <= i < |next| && next[i] == x;
      if x in tree {
        var w :| 0 <= w < |views| && x in views[w];
        assert all[w] == views[w];
      } else {
        assert all[|views|] == es;
      }
    }
    forall m, j | 0 <= m < |all| && 0 <= j < |all[m]| ensures HasKey(next, all[m][j].0) {
      if m < |views| {
        assert all[m] == views[m];
        assert HasKey(tree, views[m][j].0);
      } else {
        assert all[m] == es;
        assert HasKey(es, es[j].0);
      }
    }
  }

  /** A `TreeSet`'s elements in iteration order, without their keys. */
  function Payloads<T>(s: seq<(Key, T)>): (r: seq<T>)
    ensures |r| == |s|
    ensures forall i :: 0 <= i < |s| ==> r[i] == s[i].1
  {
    seq(|s|, i requires 0 <= i < |s| => s[i].1)
  }

  lemma StepAdd(g: Graph, p: set<int>, c: int)
    requires c in g
    ensures Step(g, p + {c}) == Step(g, p) + g[c]
  {
    forall y | y in Step(g, p + {c}) ensures y in Step(g, p) + g[c] {
      var x :| x in p + {c} && x in g && y in g[x];
    }
    forall y | y in Step(g, p) + g[c] ensures y in Step(g, p + {c}) {
      if y in g[c] {
        assert c in p + {c} && c in g && y in g[c];
      } else {
        var x :| x in p && x in g && y in g[x];
        assert x in p + {c};
      }
    }
  }

  /** One dequeued node of a level: its unvisited successors join both the queue's new part and the visited set. */
  lemma LevelStep(g: Graph, ball: set<int>, done: set<int>, added: set<int>, visited: set<int>, c: int)
    requires c in g
    requires visited == ball + added
    requires added == Step(g, done) - ball
    ensures added + (g[c] - visited) == Step(g, done + {c}) - ball
    ensures visited + (g[c] - visited) == ball + (added + (g[c] - visited))
  {
    StepAdd(g, done, c);
  }

  ghost function Elems(q: seq<int>): set<int>
  {
    set x | x in q
  }

  /**
   * The breadth-first search of `getRecommendation`, level by level: the
   * queue holds one level at a time, a node's unvisited friends are queued
   * in ascending ID order, and the search stops after level `t`. The answer
   * is whether some node of `goal` lies at most `t` edges from `s`.
   */
  method LevelSearch(g: Graph, goal: set<int>, s: int, t: int) returns (found: bool)
    requires Closed(g) && s in g && t >= 0
    ensures found <==> exists x :: x in Ball(g, s, t) && x in goal
  {
    var queue := [s];
    var visited := {s};
    var distance := 0;
    while queue != [] && distance <= t
      invariant 0 <= distance <= t + 1
      invariant visited == Ball(g, s, distance)
      invariant Elems(queue) == Layer(g, s, distance)
      invariant forall x :: x in Inner(g, s, distance) ==> x !in goal
      decreases t + 1 - distance
    {
      BallInGraph(g, s, distance);
      ghost var level := queue;
      found, queue, visited := ScanLevel(g, goal, queue, visited);
      if found {
        ghost var x :| x in level && x in goal;
        assert x in Elems(level);
        BallGrows(g, s, distance, t);
        return true;
      }
      NextLevel(g, s, distance, Elems(queue));
      forall x | x in Inner(g, s, distance + 1) ensures x !in goal {
        if x !in Inner(g, s, distance) {
          assert x in Elems(level);
        }
      }
      distance := distance + 1;
    }
    assert s in Layer(g, s, 0);
    if queue == [] {
      BallSettles(g, s, distance, t);
    }
    assert Ball(g, s, t) == Inner(g, s, distance);
    return false;
  }

  /**
   * One level of `LevelSearch`: the `size` nodes queued when the level
   * starts are dequeued in turn; the first in `goal` ends the search, and
   * otherwise each one's unvisited successors are queued and marked visited.
   */
  method ScanLevel(g: Graph, goal: set<int>, level: seq<int>, visited0: set<int>) returns (found: bool, queue: seq<int>, visited: set<int>)
    requires Elems(level) <= g.Keys
    ensures found ==> exists x :: x in level && x in goal
    ensures !found ==> forall x :: x in level ==> x !in goal
    ensures !found ==> Elems(queue) == Step(g, Elems(level)) - visited0
    ensures !found ==> visited == visited0 + Elems(queue)
  {
    ghost var added: seq<int> := [];
    queue := level;
    visited := visited0;
    var size := |queue|;
    var i := 0;
    while i < size
      invariant 0 <= i <= size == |level|
      invariant queue == level[i..] + added
      invariant visited == visited0 + Elems(added)
      invariant Elems(added) == Step(g, Elems(level[..i])) - visited0
      invariant forall x :: x in level[..i] ==> x !in goal
    {
      QueueFront(level, i, added);
      var current := queue[0];
      queue := queue[1..];
      if current in goal {
        return true, queue, visited;
      }
      var unseen := SortedKeys(g[current] - visited);
      assert Elems(unseen) == g[current] - visited;
      ElemsSnoc(level, i);
      LevelStep(g, visited0, Elems(level[..i]), Elems(added), visited, current);
      QueueShift(level, i, added, unseen);
      queue := queue + unseen;
      added := added + unseen;
      visited := visited + (g[current] - visited);
      i := i + 1;
    }
    assert level[..size] == level;
    return false, queue, visited;
  }

  lemma QueueFront(level: seq<int>, i: int, added: seq<int>)
    requires 0 <= i < |level|
    ensures (level[i..] + added)[0] == level[i] && level[i] in Elems(level) && level[i] in level
  {
  }

  lemma ElemsSnoc(q: seq<int>, i: int)
    requires 0 <= i < |q|
    ensures Elems(q[..i + 1]) == Elems(q[..i]) + {q[i]}
  {
    assert q[..i + 1] == q[..i] + [q[i]];
  }

  lemma QueueShift(level: seq<int>, i: int, added: seq<int>, unseen: seq<int>)
    requires 0 <= i < |level|
    ensures (level[i..] + added)[1..] + unseen == level[i + 1..] + (added + unseen)
    ensures Elems(added + unseen) == Elems(added) + Elems(unseen)
  {
    assert (level[i..] + added)[1..] == level[i + 1..] + added;
  }

  /** What a finished level leaves in the queue and the visited set is the next layer and the next ball. */
  lemma NextLevel(g: Graph, s: int, d: nat, added: set<int>)
    requires added == Step(g, Layer(g, s, d)) - Ball(g, s, d)
    ensures added == Layer(g, s, d + 1)
    ensures Ball(g, s, d) + added == Ball(g, s, d + 1)
    ensures Inner(g, s, d + 1) == Ball(g, s, d)
  {
    BallNext(g, s, d);
  }

  /** The text of `RestaurantImpl.toString`: name, ID, distance, then the menu sorted and comma-separated. */
  function RestaurantText(name: string, id: int, distance: int, menu: set<string>): string
  {
    "Restaurant: " + name + ".\n" + "Id: " + DecimalString(id) + ".\n" + "Distance: " + DecimalString(distance) + ".\n"
      + "Menu: " + Join(", ", SortedStrings(menu)) + "."
  }

  /** The `StringBuilder` code of `RestaurantImpl.toString`. */
  method RenderRestaurant(name: string, id: int, distance: int, menu: set<string>) returns (text: string)
    ensures text == RestaurantText(name, id, distance, menu)
  {
    var sb := "Restaurant: " + name + ".\n";
    sb := sb + "Id: " + DecimalString(id) + ".\n";
    sb := sb + "Distance: " + DecimalString(distance) + ".\n";
    sb := sb + "Menu: ";
    var sortedMenu := SortedStrings(menu);
    sb := AppendJoined(sb, sortedMenu);
    text := sb + ".";
  }

  /** The text of `HungryStudentImpl.toString`: name, ID, then the distinct favourite names sorted and comma-separated. */
  function StudentText(name: string, id: int, favoriteNames: set<string>): string
  {
    "Hungry student: " + name + ".\nId: " + DecimalString(id) + ".\nFavorites: " + Join(", ", SortedStrings(favoriteNames)) + "."
  }
}
