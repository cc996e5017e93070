/**
 * The restaurants and hungry students of the hamburger network. Both drafts
 * (`OOP2_Spring24/OOP/Solution` and `OOP2_Spring24/OOP`) share this code:
 * their `RestaurantImpl` and `HungryStudentImpl` differ only in the two-way
 * draft's `addFriend`, which also updates the other student's table
 * (`HungryStudent.AddFriendBothWays`), and its `RestaurantImpl.hashCode`,
 * modelled in `HamburgerTwoWay`. A restaurant collects ratings from students; a student
 * keeps a list of favourite restaurants and a table of friends.
 */
module HamburgerEntities {
  import opened Wrappers
  import opened JavaLang
  import opened Views
  import opened JavaText
  import opened Burgers
  import opened Sorting

  class Restaurant {
    const id: int
    const name: string
    const distance: Int32
    const menu: set<string>
    /** `m_ratings`, keyed by the rating student's ID: students are equal, and hash, by their ID. */
    var ratings: map<int, int>

    constructor (id: int, name: string, distance: Int32, menu: set<string>)
      ensures this.id == id && this.name == name && this.distance == distance && this.menu == menu
      ensures ratings == map[]
    {
      this.id := id;
      this.name := name;
      this.distance := distance;
      this.menu := menu;
      ratings := map[];
    }

    /** `rate`: a rating outside 0..5 is refused; otherwise it replaces the student's earlier rating, if any. */
    method Rate(s: HungryStudent, r: int) returns (o: Outcome<BurgerError>)
      modifies this
      ensures (r < 0 || r > 5) ==> o == Fail(RateRange) && ratings == old(ratings)
      ensures 0 <= r <= 5 ==> o == Pass && ratings == old(ratings)[s.id := r]
      ensures RatingsInRange(old(ratings)) ==> RatingsInRange(ratings)
    {
      if r < 0 || r > 5 {
        return Fail(RateRange);
      }
      ratings := ratings[s.id := r];
      o := Pass;
    }

    /** `numberOfRates`: one rating per student, however often the student rated. */
    function NumberOfRates(): (n: nat)
      reads this
      ensures n == |ratings.Keys|
      ensures n == 0 <==> ratings == map[]
    {
      |ratings.Keys|
    }

    /** `averageRating`: the mean of the ratings, 0 when there are none, and within 0..5 when every rating is. */
    method AverageRating() returns (a: real)
      ensures a == Average(ratings)
      ensures ratings == map[] ==> a == 0.0
      ensures RatingsInRange(ratings) ==> 0.0 <= a <= 5.0
    {
      a := MeanOf(ratings);
      if RatingsInRange(ratings) {
        AverageBounds(ratings);
      }
    }

    /** `didStudentRate`: the student's ID is among the raters. */
    predicate DidStudentRate(s: HungryStudent)
      reads this
    {
      s.id in ratings
    }

    /** `equals`: another restaurant with the same ID. */
    predicate Equals(o: Restaurant?)
    {
      o != null && o.id == id
    }

    /** `hashCode`: `Objects.hash(m_id)`. */
    function HashCode(): (h: int)
      ensures MIN_INT <= h <= MAX_INT
      ensures h == Wrap32(31 + IntegerHash(id))
    {
      var hs := [IntegerHash(id)];
      assert hs[..0] == [] && ArrayHash(hs[..0]) == 1;
      ArrayHash(hs)
    }

    /** `compareTo`: `Integer.compare` of the IDs. */
    function CompareTo(o: Restaurant): (c: int)
      ensures c == -1 || c == 0 || c == 1
      ensures c == 0 <==> Equals(o)
      ensures c < 0 <==> id < o.id
    {
      if id < o.id then -1 else if id == o.id then 0 else 1
    }

    /** `toString`. */
    method ToString() returns (text: string)
      ensures text == RestaurantText(name, id, distance, menu)
    {
      text := RenderRestaurant(name, id, distance, menu);
    }
  }

  /** Equal restaurants hash alike, as `Object.hashCode` requires. */
  lemma RestaurantHashAgrees(a: Restaurant, b: Restaurant)
    requires a.Equals(b)
    ensures a.HashCode() == b.HashCode()
    ensures a.CompareTo(b) == 0 && b.CompareTo(a) == 0
  {
  }

  /** Equal students hash alike and compare as equal. */
  lemma StudentHashAgrees(a: HungryStudent, b: HungryStudent)
    requires a.Equals(b)
    ensures a.HashCode() == b.HashCode()
    ensures a.CompareTo(b) == 0 && b.CompareTo(a) == 0
  {
  }

  /** `compareTo` is antisymmetric, so a `TreeSet` of restaurants is well ordered by it. */
  lemma RestaurantCompareAntisymmetric(a: Restaurant, b: Restaurant)
    ensures a.CompareTo(b) == -b.CompareTo(a)
  {
  }

  /** Rating again does not count twice: a second rating by the same student leaves the count as it was. */
  lemma RerateKeepsCount(ratings: map<int, int>, k: int, v: int)
    ensures |ratings[k := v].Keys| == if k in ratings then |ratings.Keys| else |ratings.Keys| + 1
  {
    if k in ratings {
      assert ratings[k := v].Keys == ratings.Keys;
    } else {
      assert ratings[k := v].Keys == ratings.Keys + {k};
    }
  }

  /** `contains` on a list of restaurants, which compares by `equals`, that is, by ID. */
  predicate HasFavorite(favs: seq<Restaurant>, rid: int)
  {
    exists i :: 0 <= i < |favs| && favs[i].id == rid
  }

  predicate DistinctIds(favs: seq<Restaurant>)
  {
    forall i, j :: 0 <= i < j < |favs| ==> favs[i].id != favs[j].id
  }

  /** What the comparators read of a restaurant now: its ID, its distance and `averageRating()`. */
  function StatsOf(x: Restaurant): (st: Stats)
    reads x
    ensures st.id == x.id && st.distance == x.distance && st.average == Average(x.ratings)
  {
    Stats(x.id, x.distance, Average(x.ratings))
  }

  /** Each restaurant of a list, paired with what the comparators read of it now. */
  function Entries(favs: seq<Restaurant>): (es: seq<(Restaurant, Stats)>)
    reads set x | x in favs
    ensures |es| == |favs|
    ensures forall i :: 0 <= i < |favs| ==> es[i] == (favs[i], StatsOf(favs[i]))
  {
    seq(|favs|, i requires 0 <= i < |favs| reads set x | x in favs => (favs[i], StatsOf(favs[i])))
  }

  /** The restaurants of entries whose stats are current read back as those entries. */
  lemma EntriesOfFirsts(es: seq<(Restaurant, Stats)>)
    requires forall i :: 0 <= i < |es| ==> es[i].1 == StatsOf(es[i].0)
    ensures Entries(Firsts(es)) == es
  {
  }

  /** Distinct restaurant IDs give entries with distinct IDs. */
  lemma DistinctEntriesOf(favs: seq<Restaurant>)
    requires DistinctIds(favs)
    ensures DistinctEntries(Entries(favs))
  {
  }

  /** Entries drawn from a list's entries name restaurants of the list and carry their current stats. */
  lemma DrawnFrom(favs: seq<Restaurant>, es: seq<(Restaurant, Stats)>)
    requires forall i :: 0 <= i < |es| ==> es[i] in Entries(favs)
    ensures forall i :: 0 <= i < |es| ==> es[i].0 in favs && es[i].1 == StatsOf(es[i].0)
  {
    var all := Entries(favs);
    forall i | 0 <= i < |es| ensures es[i].0 in favs && es[i].1 == StatsOf(es[i].0) {
      var k := IndexOf(all, es[i]);
    }
  }

  /** The entries of a student's view: the favourites ranked by the comparator and filtered. */
  function Ranking(o: Order, favs: seq<Restaurant>, limit: int): seq<(Restaurant, Stats)>
    requires DistinctIds(favs)
    reads set x | x in favs
  {
    DistinctEntriesOf(favs);
    Ranked(o, Entries(favs), limit)
  }

  /** Every entry of a view is a favourite the filter keeps, with its current stats. */
  lemma RankingMembers(o: Order, favs: seq<Restaurant>, limit: int)
    requires DistinctIds(favs)
    ensures forall i :: 0 <= i < |Ranking(o, favs, limit)| ==>
      var e := Ranking(o, favs, limit)[i]; e.0 in favs && e.1 == StatsOf(e.0) && Kept(o, e.1, limit)
  {
    DistinctEntriesOf(favs);
    RankedMembers(o, Entries(favs), limit);
    DrawnFrom(favs, Ranking(o, favs, limit));
  }

  /** Every favourite the filter keeps is in the view. */
  lemma RankingComplete(o: Order, favs: seq<Restaurant>, limit: int)
    requires DistinctIds(favs)
    ensures forall i :: 0 <= i < |favs| && Kept(o, StatsOf(favs[i]), limit) ==> favs[i] in Firsts(Ranking(o, favs, limit))
  {
    DistinctEntriesOf(favs);
    var es := Entries(favs);
    var ranked := Ranking(o, favs, limit);
    RankedComplete(o, es, limit);
    forall i | 0 <= i < |favs| && Kept(o, StatsOf(favs[i]), limit) ensures favs[i] in Firsts(ranked) {
      assert es[i] == (favs[i], StatsOf(favs[i]));
      var k := IndexOf(ranked, es[i]);
      assert Firsts(ranked)[k] == favs[i];
    }
  }

  /** A view lists its entries in the comparator's order. */
  lemma RankingOrder(o: Order, favs: seq<Restaurant>, limit: int)
    requires DistinctIds(favs)
    ensures forall i, j :: 0 <= i < j < |Ranking(o, favs, limit)| ==> Precedes(o, Ranking(o, favs, limit)[i].1, Ranking(o, favs, limit)[j].1)
  {
    DistinctEntriesOf(favs);
    RankedOrder(o, Entries(favs), limit);
  }

  /**
   * A student's favourites sorted by the order's comparator (a stable sort;
   * the comparator ends with the ID, so no two tie) and then filtered.
   */
  function FavoritesView(o: Order, favs: seq<Restaurant>, limit: int): (r: seq<Restaurant>)
    requires DistinctIds(favs)
    reads set x | x in favs
    ensures forall i :: 0 <= i < |r| ==> r[i] in favs && Kept(o, StatsOf(r[i]), limit)
    ensures forall i :: 0 <= i < |favs| && Kept(o, StatsOf(favs[i]), limit) ==> favs[i] in r
    ensures forall i, j :: 0 <= i < j < |r| ==> Precedes(o, StatsOf(r[i]), StatsOf(r[j]))
    ensures Entries(r) == Ranking(o, favs, limit)
  {
    var ranked := Ranking(o, favs, limit);
    RankingMembers(o, favs, limit);
    RankingComplete(o, favs, limit);
    RankingOrder(o, favs, limit);
    EntriesOfFirsts(ranked);
    Firsts(ranked)
  }

  class HungryStudent {
    const id: int
    const name: string
    /** `m_favoriteRestaurants`, in the order they were added. */
    var favorites: seq<Restaurant>
    /** `m_friends`, keyed by the friend's ID. */
    var friends: map<int, HungryStudent>

    /** No restaurant is a favourite twice, each friend is filed under its own ID, and a student is not its own friend. */
    ghost predicate Valid()
      reads this
    {
      && DistinctIds(favorites)
      && (forall k :: k in friends ==> friends[k].id == k)
      && id !in friends
    }

    constructor (id: int, name: string)
      ensures this.id == id && this.name == name
      ensures favorites == [] && friends == map[]
      ensures Valid()
    {
      this.id := id;
      this.name := name;
      favorites := [];
      friends := map[];
    }

    /**
     * `favorite`: only a restaurant this student rated can become a
     * favourite; one already in the list (by ID) is not added again.
     */
    method Favorite(r: Restaurant) returns (o: Outcome<BurgerError>)
      requires Valid()
      modifies this
      ensures Valid()
      ensures id !in r.ratings ==> o == Fail(UnratedFavoriteRestaurant) && favorites == old(favorites)
      ensures id in r.ratings && HasFavorite(old(favorites), r.id) ==> o == Pass && favorites == old(favorites)
      ensures id in r.ratings && !HasFavorite(old(favorites), r.id) ==> o == Pass && favorites == old(favorites) + [r]
      ensures friends == old(friends)
    {
      if !r.DidStudentRate(this) {
        return Fail(UnratedFavoriteRestaurant);
      }
      if !HasFavorite(favorites, r.id) {
        favorites := favorites + [r];
      }
      o := Pass;
    }

    /**
     * `addFriend`: a student cannot befriend itself or befriend the same
     * student twice. Only this student's table changes.
     */
    method AddFriend(s: HungryStudent) returns (o: Outcome<BurgerError>)
      requires Valid()
      modifies this
      ensures Valid()
      ensures s.id == id ==> o == Fail(SameStudent) && friends == old(friends)
      ensures s.id != id && s.id in old(friends) ==> o == Fail(ConnectionAlreadyExists) && friends == old(friends)
      ensures s.id != id && s.id !in old(friends) ==> o == Pass && friends == old(friends)[s.id := s]
      ensures favorites == old(favorites)
    {
      if s.id == id {
        return Fail(SameStudent);
      }
      if s.id in friends {
        return Fail(ConnectionAlreadyExists);
      }
      friends := friends[s.id := s];
      o := Pass;
    }

    /**
     * `addFriend` of the two-way draft (`OOP2_Spring24/OOP`): the same
     * refusals, then the friendship is recorded in both students' tables.
     */
    method AddFriendBothWays(s: HungryStudent) returns (o: Outcome<BurgerError>)
      requires Valid() && s.Valid()
      modifies this, s
      ensures Valid() && s.Valid()
      ensures s.id == id ==> o == Fail(SameStudent) && friends == old(friends) && s.friends == old(s.friends)
      ensures s.id != id && s.id in old(friends) ==>
        o == Fail(ConnectionAlreadyExists) && friends == old(friends) && s.friends == old(s.friends)
      ensures s.id != id && s.id !in old(friends) ==>
        o == Pass && friends == old(friends)[s.id := s] && s.friends == old(s.friends)[id := this]
      ensures favorites == old(favorites) && s.favorites == old(s.favorites)
    {
      if s.id == id {
        return Fail(SameStudent);
      }
      if s.id in friends {
        return Fail(ConnectionAlreadyExists);
      }
      friends := friends[s.id := s];
      s.friends := s.friends[id := this];
      o := Pass;
    }

    /** `getFriends`: every friend once, in ascending ID order. */
    function GetFriends(): (r: seq<HungryStudent>)
      requires Valid()
      reads this
      ensures |r| == |friends.Keys|
      ensures forall i :: 0 <= i < |r| ==> r[i].id in friends && friends[r[i].id] == r[i]
      ensures forall k :: k in friends ==> exists i :: 0 <= i < |r| && r[i] == friends[k]
      ensures forall i, j :: 0 <= i < j < |r| ==> r[i].id < r[j].id
    {
      var ids := SortedKeys(friends.Keys);
      var r := ValuesAt(ids, friends);
      forall k | k in friends ensures exists i :: 0 <= i < |r| && r[i] == friends[k] {
        var i := IndexOf(ids, k);
        assert r[i] == friends[k];
      }
      r
    }

    /**
     * `favoritesByRating(rLimit)`: the favourites whose average is at least
     * `rLimit`, best average first, then the nearer, then the smaller ID.
     */
    function FavoritesByRating(rLimit: int): (r: seq<Restaurant>)
      requires Valid()
      reads this, set x | x in favorites
      ensures forall i :: 0 <= i < |r| ==> r[i] in favorites && Kept(ByRating, StatsOf(r[i]), rLimit)
      ensures forall i :: 0 <= i < |favorites| && Kept(ByRating, StatsOf(favorites[i]), rLimit) ==> favorites[i] in r
      ensures forall i, j :: 0 <= i < j < |r| ==> Precedes(ByRating, StatsOf(r[i]), StatsOf(r[j]))
      ensures Entries(r) == Ranking(ByRating, favorites, rLimit)
    {
      FavoritesView(ByRating, favorites, rLimit)
    }

    /**
     * `favoritesByDist(dLimit)`: the favourites at most `dLimit` away, the
     * nearest first, then the best average, then the smaller ID.
     */
    function FavoritesByDist(dLimit: int): (r: seq<Restaurant>)
      requires Valid()
      reads this, set x | x in favorites
      ensures forall i :: 0 <= i < |r| ==> r[i] in favorites && Kept(ByDistance, StatsOf(r[i]), dLimit)
      ensures forall i :: 0 <= i < |favorites| && Kept(ByDistance, StatsOf(favorites[i]), dLimit) ==> favorites[i] in r
      ensures forall i, j :: 0 <= i < j < |r| ==> Precedes(ByDistance, StatsOf(r[i]), StatsOf(r[j]))
      ensures Entries(r) == Ranking(ByDistance, favorites, dLimit)
    {
      FavoritesView(ByDistance, favorites, dLimit)
    }

    /** `equals`: another student with the same ID. */
    predicate Equals(o: HungryStudent?)
    {
      o != null && o.id == id
    }

    /** `hashCode`: the ID. */
    function HashCode(): (h: int)
      ensures h == id
    {
      id
    }

    /** `compareTo`: `Integer.compare` of the IDs. */
    function CompareTo(o: HungryStudent): (c: int)
      ensures c == -1 || c == 0 || c == 1
      ensures c == 0 <==> Equals(o)
      ensures c < 0 <==> id < o.id
    {
      if id < o.id then -1 else if id == o.id then 0 else 1
    }

    /** `toString`: the names of the favourites are gathered into a sorted set, then formatted. */
    method ToString() returns (text: string)
      ensures text == StudentText(name, id, FavoriteNames(favorites))
    {
      var names: set<string> := {};
      for i := 0 to |favorites|
        invariant names == FavoriteNames(favorites[..i])
      {
        assert favorites[..i + 1] == favorites[..i] + [favorites[i]];
        names := names + {favorites[i].name};
      }
      assert favorites[..|favorites|] == favorites;
      text := StudentText(name, id, names);
    }
  }

  /** The names of a list of restaurants. */
  function FavoriteNames(favs: seq<Restaurant>): (names: set<string>)
    ensures forall i :: 0 <= i < |favs| ==> favs[i].name in names
    ensures forall n :: n in names ==> exists i :: 0 <= i < |favs| && favs[i].name == n
  {
    if favs == [] then {}
    else
      var last := favs[|favs| - 1];
      var names := FavoriteNames(favs[..|favs| - 1]);
      assert forall i :: 0 <= i < |favs| - 1 ==> favs[..|favs| - 1][i] == favs[i];
      names + {last.name}
  }

  /**
   * The loop of the network's `favoritesByRating` and `favoritesByDist`:
   * each friend's view, friends in the order given, is added to one
   * `TreeSet`, ordered by restaurant ID (`natural`) or by the view's own
   * comparator.
   */
  method Collect(list: seq<HungryStudent>, o: Order, limit: int, natural: bool) returns (out: seq<Restaurant>)
    requires forall m :: 0 <= m < |list| ==> list[m].Valid()
    ensures Collected(natural, o, limit, EntriesOf(list), Entries(out))
  {
    ghost var snap := EntriesOf(list);
    SnapshotFacts(list, snap);
    var tree: seq<(Key, (Restaurant, Stats))> := [];
    ghost var views: seq<seq<(Key, (Restaurant, Stats))>> := [];
    for n := 0 to |list|
      invariant |views| == n
      invariant forall m :: 0 <= m < n ==> views[m] == Keyed(natural, o, Ranked(o, snap[m], limit))
      invariant Gathered(tree, views)
    {
      ghost var es;
      tree, es := GatherFriend(list[n], o, limit, natural, tree, views, snap[n]);
      ViewsSnoc(natural, o, limit, snap, views, es);
      views := views + [es];
    }
    CollectFinish(list, o, limit, natural, snap, views, tree);
    out := Firsts(Payloads(tree));
  }

  /** One friend's view in the order `o`. */
  method FriendView(friend: HungryStudent, o: Order, limit: int) returns (view: seq<Restaurant>)
    requires friend.Valid()
    ensures Entries(view) == Ranking(o, friend.favorites, limit)
  {
    if o == ByRating {
      view := friend.FavoritesByRating(limit);
    } else {
      view := friend.FavoritesByDist(limit);
    }
  }

  /** One pass of the loop: the friend's view, keyed for the tree, is added to it. */
  method GatherFriend(friend: HungryStudent, o: Order, limit: int, natural: bool, tree: seq<(Key, (Restaurant, Stats))>,
                      ghost views: seq<seq<(Key, (Restaurant, Stats))>>, ghost entries: seq<(Restaurant, Stats)>)
    returns (next: seq<(Key, (Restaurant, Stats))>, ghost es: seq<(Key, (Restaurant, Stats))>)
    requires friend.Valid()
    requires entries == Entries(friend.favorites) && DistinctEntries(entries)
    requires Gathered(tree, views)
    ensures es == Keyed(natural, o, Ranked(o, entries, limit))
    ensures Gathered(next, views + [es])
  {
    var view := FriendView(friend, o, limit);
    var keyed := Keyed(natural, o, Entries(view));
    next := AddAll(tree, keyed);
    GatheredStep(tree, views, keyed, next);
    es := keyed;
  }

  /** The views gathered so far, extended by the next friend's. */
  lemma ViewsSnoc(natural: bool, o: Order, limit: int, snap: seq<seq<(Restaurant, Stats)>>,
                  views: seq<seq<(Key, (Restaurant, Stats))>>, es: seq<(Key, (Restaurant, Stats))>)
    requires |views| < |snap|
    requires forall m :: 0 <= m < |snap| ==> DistinctEntries(snap[m])
    requires forall m :: 0 <= m < |views| ==> views[m] == Keyed(natural, o, Ranked(o, snap[m], limit))
    requires es == Keyed(natural, o, Ranked(o, snap[|views|], limit))
    ensures forall m :: 0 <= m < |views| + 1 ==> (views + [es])[m] == Keyed(natural, o, Ranked(o, snap[m], limit))
  {
  }

  /** After the last friend, the tree's restaurants, read back with their stats, are what `Collected` describes. */
  lemma CollectFinish(list: seq<HungryStudent>, o: Order, limit: int, natural: bool, snap: seq<seq<(Restaurant, Stats)>>,
                      views: seq<seq<(Key, (Restaurant, Stats))>>, tree: seq<(Key, (Restaurant, Stats))>)
    requires snap == EntriesOf(list)
    requires ViewsOf(natural, o, limit, snap, views)
    requires Gathered(tree, views)
    ensures Collected(natural, o, limit, snap, Entries(Firsts(Payloads(tree))))
  {
    GatheredCollected(natural, o, limit, snap, views, tree);
    FlattenCurrent(list);
    CollectedCurrent(snap, Payloads(tree));
  }

  /** Each friend's favourites with what the comparators read of them now, friends in ascending ID order. */
  ghost function FriendEntries(s: HungryStudent): seq<seq<(Restaurant, Stats)>>
    requires s.Valid()
    reads *
  {
    EntriesOf(s.GetFriends())
  }

  ghost function EntriesOf(list: seq<HungryStudent>): (snap: seq<seq<(Restaurant, Stats)>>)
    reads *
    ensures |snap| == |list|
    ensures forall m :: 0 <= m < |list| ==> snap[m] == Entries(list[m].favorites)
  {
    seq(|list|, m requires 0 <= m < |list| reads * => Entries(list[m].favorites))
  }

  /** The entries of valid students carry distinct IDs. */
  lemma SnapshotFacts(list: seq<HungryStudent>, snap: seq<seq<(Restaurant, Stats)>>)
    requires forall m :: 0 <= m < |list| ==> list[m].Valid()
    requires snap == EntriesOf(list)
    ensures forall m :: 0 <= m < |snap| ==> DistinctEntries(snap[m])
  {
    forall m | 0 <= m < |snap| ensures DistinctEntries(snap[m]) {
      DistinctEntriesOf(list[m].favorites);
    }
  }

  /** Every entry of the friends' lists carries current stats. */
  lemma {:induction false} FlattenCurrent(list: seq<HungryStudent>)
    ensures forall e :: e in Flatten(EntriesOf(list)) ==> e.1 == StatsOf(e.0)
    decreases |list|
  {
    if list != [] {
      var front := list[..|list| - 1];
      FlattenCurrent(front);
      assert EntriesOf(list)[..|list| - 1] == EntriesOf(front);
    }
  }

  /** Entries collected from current ones are current, so they read back from their restaurants. */
  lemma CollectedCurrent(snap: seq<seq<(Restaurant, Stats)>>, out: seq<(Restaurant, Stats)>)
    requires forall e :: e in Flatten(snap) ==> e.1 == StatsOf(e.0)
    requires forall i :: 0 <= i < |out| ==> out[i] in Flatten(snap)
    ensures Entries(Firsts(out)) == out
  {
    EntriesOfFirsts(out);
  }

  /** Ratings `rate` accepts never fall below 0, so the rating query's limit of 0 drops no favourite. */
  lemma RatingLimitKeepsAll(x: Restaurant)
    requires RatingsInRange(x.ratings)
    ensures Kept(ByRating, StatsOf(x), 0)
  {
    AverageBounds(x.ratings);
  }

  /** Every distance is a Java `int`, so the distance query's limit of `Integer.MAX_VALUE` drops no favourite. */
  lemma DistanceLimitKeepsAll(x: Restaurant)
    ensures Kept(ByDistance, StatsOf(x), MAX_INT)
  {
  }
}
