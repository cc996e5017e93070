/**
 * The hamburger network of the second draft (`OOP2_Spring24/OOP`). It keeps
 * the first draft's registries, but a friendship is recorded on both sides,
 * so the friendship graph is symmetric; the network's favourites sets are
 * ordered by the query's own comparator; a recommendation that is not found
 * is an `ImpossibleConnectionException`; and `RestaurantImpl.hashCode`
 * hashes every field, where `equals` compares IDs only.
 */
module HamburgerTwoWay {
  import opened Wrappers
  import opened JavaLang
  import opened Graphs
  import opened Burgers
  import opened HamburgerEntities

  class HamburgerNetwork {
    var students: map<int, HungryStudent>
    var restaurants: map<int, Restaurant>

    /**
     * Every student and restaurant is filed under its own ID, every student
     * is valid, every friend is a registered student, and every friendship
     * is recorded on both sides.
     */
    ghost predicate Valid()
      reads this, students.Values
    {
      && (forall k :: k in students ==> students[k].id == k && students[k].Valid())
      && (forall k :: k in restaurants ==> restaurants[k].id == k)
      && (forall k, f :: k in students && f in students[k].friends ==> f in students && students[k].friends[f] == students[f])
      && (forall k, f :: k in students && f in students[k].friends ==> k in students[f].friends)
    }

    /**
     * A student object passed in is the one registered under its ID, if
     * any: then `containsValue`, which compares by `equals`, is a lookup by ID.
     */
    predicate Known(s: HungryStudent)
      reads this
    {
      s.id in students ==> students[s.id] == s
    }

    constructor ()
      ensures students == map[] && restaurants == map[]
      ensures Valid()
    {
      students := map[];
      restaurants := map[];
    }

    /** `joinNetwork`: a new student under a fresh ID; a taken ID is refused. */
    method JoinNetwork(id: int, name: string) returns (r: Result<HungryStudent, BurgerError>)
      requires Valid()
      modifies this
      ensures Valid()
      ensures id in old(students) ==> r == Err(StudentAlreadyInSystem) && students == old(students)
      ensures id !in old(students) ==> (r.Ok? && fresh(r.value) && r.value.id == id && r.value.name == name
        && r.value.favorites == [] && r.value.friends == map[] && students == old(students)[id := r.value])
      ensures restaurants == old(restaurants)
    {
      if id in students {
        return Err(StudentAlreadyInSystem);
      }
      var s := new HungryStudent(id, name);
      students := students[id := s];
      r := Ok(s);
    }

    /** `addRestaurant`: a new restaurant under a fresh ID; a taken ID is refused. */
    method AddRestaurant(id: int, name: string, dist: Int32, menu: set<string>) returns (r: Result<Restaurant, BurgerError>)
      requires Valid()
      modifies this
      ensures Valid()
      ensures id in old(restaurants) ==> r == Err(RestaurantAlreadyInSystem) && restaurants == old(restaurants)
      ensures id !in old(restaurants) ==> (r.Ok? && fresh(r.value) && r.value.id == id && r.value.name == name
        && r.value.distance == dist && r.value.menu == menu && r.value.ratings == map[]
        && restaurants == old(restaurants)[id := r.value])
      ensures students == old(students)
    {
      if id in restaurants {
        return Err(RestaurantAlreadyInSystem);
      }
      var x := new Restaurant(id, name, dist, menu);
      restaurants := restaurants[id := x];
      r := Ok(x);
    }

    /** `getRestaurant`: the restaurant registered under the ID. */
    function GetRestaurant(id: int): (r: Result<Restaurant, BurgerError>)
      requires Valid()
      reads this, students.Values
      ensures id in restaurants <==> r.Ok?
      ensures r.Ok? ==> r.value.id == id && r.value in restaurants.Values
      ensures r.Err? ==> r.error == RestaurantNotInSystem
    {
      if id in restaurants then Ok(restaurants[id]) else Err(RestaurantNotInSystem)
    }

    /** `getStudent`: the student registered under the ID. */
    function GetStudent(id: int): (r: Result<HungryStudent, BurgerError>)
      requires Valid()
      reads this, students.Values
      ensures id in students <==> r.Ok?
      ensures r.Ok? ==> r.value.id == id && r.value in students.Values
      ensures r.Err? ==> r.error == StudentNotInSystem
    {
      if id in students then Ok(students[id]) else Err(StudentNotInSystem)
    }

    /**
     * `addConnection(id1, id2)`: both IDs must be registered; then the two
     * registered students befriend each other, and no other student changes.
     */
    method AddConnectionById(id1: int, id2: int) returns (o: Outcome<BurgerError>)
      requires Valid()
      modifies students.Values
      ensures Valid()
      ensures id1 !in students || id2 !in students ==> o == Fail(StudentNotInSystem)
      ensures id1 in students && id2 in students && id1 == id2 ==> o == Fail(SameStudent)
      ensures id1 in students && id2 in students && id1 != id2 && id2 in old(students[id1].friends) ==>
        o == Fail(ConnectionAlreadyExists)
      ensures id1 in students && id2 in students && id1 != id2 && id2 !in old(students[id1].friends) ==>
        o == Pass && students[id1].friends == old(students[id1].friends)[id2 := students[id2]]
        && students[id2].friends == old(students[id2].friends)[id1 := students[id1]]
      ensures forall k :: k in students && (o.Fail? || (k != id1 && k != id2)) ==> students[k].friends == old(students[k].friends)
      ensures forall k :: k in students ==> students[k].favorites == old(students[k].favorites)
    {
      if id1 !in students || id2 !in students {
        return Fail(StudentNotInSystem);
      }
      var s1 := students[id1];
      var s2 := students[id2];
      o := s1.AddFriendBothWays(s2);
      forall k, f | k in students && f in students[k].friends
        ensures f in students && students[k].friends[f] == students[f] && k in students[f].friends
      {
        if o.Pass? && k == id1 && f == id2 {
        } else if o.Pass? && k == id2 && f == id1 {
        } else {
          assert f in old(students[k].friends) && old(students[k].friends[f]) == students[k].friends[f];
          assert old(students[f].friends.Keys) <= students[f].friends.Keys;
        }
      }
    }

    /**
     * `addConnection(s1, s2)`: both students must be registered; then they
     * befriend each other, and no other student changes.
     */
    method AddConnection(s1: HungryStudent, s2: HungryStudent) returns (o: Outcome<BurgerError>)
      requires Valid() && Known(s1) && Known(s2)
      modifies s1, s2
      ensures Valid()
      ensures s1.id !in students || s2.id !in students ==>
        o == Fail(StudentNotInSystem) && s1.friends == old(s1.friends) && s2.friends == old(s2.friends)
      ensures s1.id in students && s2.id in students && s1.id == s2.id ==>
        o == Fail(SameStudent) && s1.friends == old(s1.friends) && s2.friends == old(s2.friends)
      ensures s1.id in students && s2.id in students && s1.id != s2.id && s2.id in old(s1.friends) ==>
        o == Fail(ConnectionAlreadyExists) && s1.friends == old(s1.friends) && s2.friends == old(s2.friends)
      ensures s1.id in students && s2.id in students && s1.id != s2.id && s2.id !in old(s1.friends) ==>
        o == Pass && s1.friends == old(s1.friends)[s2.id := s2] && s2.friends == old(s2.friends)[s1.id := s1]
      ensures s1.favorites == old(s1.favorites) && s2.favorites == old(s2.favorites)
    {
      if s1.id !in students || s2.id !in students {
        return Fail(StudentNotInSystem);
      }
      o := s1.AddFriendBothWays(s2);
      forall k, f | k in students && f in students[k].friends
        ensures f in students && students[k].friends[f] == students[f] && k in students[f].friends
      {
        if o.Pass? && k == s1.id && f == s2.id {
        } else if o.Pass? && k == s2.id && f == s1.id {
        } else {
          assert f in old(students[k].friends) && old(students[k].friends[f]) == students[k].friends[f];
          assert old(students[f].friends.Keys) <= students[f].friends.Keys;
        }
      }
    }

    /** The friendship table of the network as a graph over student IDs. */
    function FriendGraph(): (g: Graph)
      reads this, students.Values
      ensures g.Keys == students.Keys
    {
      map k | k in students :: students[k].friends.Keys
    }

    /** In this draft friendship is mutual: the friendship graph is symmetric. */
    lemma FriendshipMutual()
      requires Valid()
      ensures Symmetric(FriendGraph())
    {
      var g := FriendGraph();
      forall x, y | x in g && y in g[x] ensures y in g && x in g[y] {
        assert y in students[x].friends;
      }
    }

    /**
     * Hence a recommendation's reach is mutual: a student within `t`
     * friendships of another has the other within `t` friendships too.
     */
    lemma ReachMutual(a: int, b: int, t: nat)
      requires Valid()
      requires WithinHops(FriendGraph(), a, b, t)
      ensures WithinHops(FriendGraph(), b, a, t)
    {
      FriendshipMutual();
      WithinHopsMutual(FriendGraph(), a, b, t);
    }

    /**
     * `favoritesByRating(s)`: the favourites of `s`'s friends with an
     * average of at least 0, best average first, then the nearer, then the
     * smaller ID.
     */
    method FavoritesByRating(s: HungryStudent) returns (r: Result<seq<Restaurant>, BurgerError>)
      requires Valid() && Known(s)
      ensures s.id !in students ==> r == Err(StudentNotInSystem)
      ensures s.id in students ==> r.Ok? && Collected(false, ByRating, 0, FriendEntries(s), Entries(r.value))
    {
      if s.id !in students {
        return Err(StudentNotInSystem);
      }
      var list := s.GetFriends();
      FriendsValid(s, list);
      var out := Collect(list, ByRating, 0, false);
      r := Ok(out);
    }

    /**
     * `favoritesByDist(s)`: the favourites of `s`'s friends at most
     * `Integer.MAX_VALUE` away, nearest first, then the better average,
     * then the smaller ID.
     */
    method FavoritesByDist(s: HungryStudent) returns (r: Result<seq<Restaurant>, BurgerError>)
      requires Valid() && Known(s)
      ensures s.id !in students ==> r == Err(StudentNotInSystem)
      ensures s.id in students ==> r.Ok? && Collected(false, ByDistance, MAX_INT, FriendEntries(s), Entries(r.value))
    {
      if s.id !in students {
        return Err(StudentNotInSystem);
      }
      var list := s.GetFriends();
      FriendsValid(s, list);
      var out := Collect(list, ByDistance, MAX_INT, false);
      r := Ok(out);
    }

    /** The friends of a registered student are registered, hence valid. */
    lemma FriendsValid(s: HungryStudent, list: seq<HungryStudent>)
      requires Valid() && s.id in students && students[s.id] == s
      requires forall i :: 0 <= i < |list| ==> list[i].id in s.friends && s.friends[list[i].id] == list[i]
      ensures forall i :: 0 <= i < |list| ==> list[i].Valid()
    {
      forall i | 0 <= i < |list| ensures list[i].Valid() {
        assert students[list[i].id] == list[i];
      }
    }

    /**
     * `getRecommendation(s, r, t)`: succeeds when a student at most `t`
     * friendships away from `s` has `r` among the favourites, and otherwise
     * throws `ImpossibleConnectionException`, as it does for a negative `t`.
     * An unregistered student or restaurant is reported first, in that order.
     */
    method GetRecommendation(s: HungryStudent, r: Restaurant, t: int) returns (res: Result<bool, BurgerError>)
      requires Valid() && Known(s)
      ensures s.id !in students ==> res == Err(StudentNotInSystem)
      ensures s.id in students && r.id !in restaurants ==> res == Err(RestaurantNotInSystem)
      ensures s.id in students && r.id in restaurants && t < 0 ==> res == Err(ImpossibleConnection)
      ensures s.id in students && r.id in restaurants && t >= 0 ==>
        res == if exists k :: k in students && WithinHops(FriendGraph(), s.id, k, t) && HasFavorite(students[k].favorites, r.id)
          then Ok(true) else Err(ImpossibleConnection)
    {
      if s.id !in students {
        return Err(StudentNotInSystem);
      }
      if r.id !in restaurants {
        return Err(RestaurantNotInSystem);
      }
      if t < 0 {
        return Err(ImpossibleConnection);
      }
      var g := FriendGraph();
      var goal := set k | k in students && HasFavorite(students[k].favorites, r.id);
      FriendGraphClosed();
      var found := LevelSearch(g, goal, s.id, t);
      RecommendationReach(g, goal, s.id, r.id, t, found);
      res := if found then Ok(true) else Err(ImpossibleConnection);
    }

    /** The level search finds a favourite exactly when some student within `t` friendships has it. */
    lemma RecommendationReach(g: Graph, goal: set<int>, a: int, rid: int, t: nat, found: bool)
      requires g == FriendGraph() && Closed(g) && a in g
      requires goal == set k | k in students && HasFavorite(students[k].favorites, rid)
      requires found <==> exists x :: x in Ball(g, a, t) && x in goal
      ensures found <==> exists k :: k in students && WithinHops(FriendGraph(), a, k, t) && HasFavorite(students[k].favorites, rid)
    {
      BallMeetsGoal(g, goal, a, t);
      if k :| k in goal && WithinHops(g, a, k, t) {
        assert k in students && HasFavorite(students[k].favorites, rid);
      }
      if k :| k in students && WithinHops(g, a, k, t) && HasFavorite(students[k].favorites, rid) {
        assert k in goal;
      }
    }

    /** Every friend is a registered student: the friendship graph has no edge out of it. */
    lemma FriendGraphClosed()
      requires Valid()
      ensures Closed(FriendGraph())
    {
      var g := FriendGraph();
      forall x | x in g ensures g[x] <= g.Keys {
        forall f | f in g[x] ensures f in g {
          assert f in students[x].friends;
        }
      }
    }

    /** `registeredStudents`: the registered students, in no particular order. */
    function RegisteredStudents(): (r: set<HungryStudent>)
      requires Valid()
      reads this, students.Values
      ensures forall k :: k in students ==> students[k] in r
      ensures forall x | x in r :: x.id in students && students[x.id] == x
    {
      set k | k in students :: students[k]
    }

    /** `registeredRestaurants`: the registered restaurants, in no particular order. */
    function RegisteredRestaurants(): (r: set<Restaurant>)
      requires Valid()
      reads this, students.Values
      ensures forall k :: k in restaurants ==> restaurants[k] in r
      ensures forall x | x in r :: x.id in restaurants && restaurants[x.id] == x
    {
      set k | k in restaurants :: restaurants[k]
    }
  }

  /**
   * `RestaurantImpl.hashCode` of this draft: `Objects.hash(id, name,
   * distance, menu, ratings)`, over the fields' values. The ratings are
   * keyed by the student, whose `hashCode` is its ID.
   */
  ghost function FieldsHash(id: int, name: string, distance: int, menu: set<string>, ratings: map<int, int>): (h: int)
    ensures MIN_INT <= h <= MAX_INT
  {
    ArrayHash([IntegerHash(id), StringHash(name), IntegerHash(distance), StringSetHash(menu), IntMapHash(ratings)])
  }

  /** The hash this draft's `RestaurantImpl.hashCode` gives a restaurant in its current state. */
  ghost function HashAsWritten(x: Restaurant): (h: int)
    reads x
    ensures h == FieldsHash(x.id, x.name, x.distance, x.menu, x.ratings)
  {
    FieldsHash(x.id, x.name, x.distance, x.menu, x.ratings)
  }

  /**
   * Two restaurants with the same ID are equal by `equals`, yet this
   * draft's hash tells them apart when only their names differ, so a hash
   * table can hold both or miss one.
   */
  lemma EqualButHashedApart(a: Restaurant, b: Restaurant)
    requires a.id == b.id == 1 && a.distance == b.distance == 0
    requires a.name == "a" && b.name == "b"
    requires a.menu == b.menu == {} && a.ratings == b.ratings == map[]
    ensures a.Equals(b)
    ensures HashAsWritten(a) != HashAsWritten(b)
  {
    NameHash("a", 'a');
    NameHash("b", 'b');
    FiveHashes(1, 97, 0, 0, 0);
    FiveHashes(1, 98, 0, 0, 0);
  }

  /** A rating changes a restaurant's hash as written, so one stored in a hash table before it is rated can be lost after. */
  lemma RatingMovesHash(x: Restaurant)
    requires x.id == 1 && x.name == "a" && x.distance == 0 && x.menu == {} && x.ratings == map[]
    ensures FieldsHash(x.id, x.name, x.distance, x.menu, map[2 := 5]) != HashAsWritten(x)
  {
    NameHash("a", 'a');
    SingleRatingHash();
    FiveHashes(1, 97, 0, 0, 0);
    FiveHashes(1, 97, 0, 0, 7);
  }

  lemma NameHash(s: string, c: char)
    requires s == [c]
    ensures StringHash(s) == c as int
  {
    assert s[..0] == [];
  }

  lemma SingleRatingHash()
    ensures IntMapHash(map[2 := 5]) == 7
  {
    var m := map[2 := 5];
    assert m.Keys == {2} && {2} - {2} == {};
    assert Pick(m.Keys) == 2;
    assert Xor32(2, 5) == 7;
  }

  /** `Objects.hash` of five small hashes, step by step. */
  lemma FiveHashes(a: int, b: int, c: int, d: int, e: int)
    requires 0 <= a < 8 && 0 <= b < 128 && 0 <= c < 8 && 0 <= d < 8 && 0 <= e < 8
    ensures ArrayHash([a, b, c, d, e]) == ((((31 + a) * 31 + b) * 31 + c) * 31 + d) * 31 + e
  {
    var h1, h2, h3, h4, h5 := [a], [a, b], [a, b, c], [a, b, c, d], [a, b, c, d, e];
    assert h1[..0] == [] && h2[..1] == h1 && h3[..2] == h2 && h4[..3] == h3 && h5[..4] == h4;
    assert ArrayHash(h1) == 31 + a;
    assert ArrayHash(h2) == (31 + a) * 31 + b;
    assert ArrayHash(h3) == ((31 + a) * 31 + b) * 31 + c;
    assert ArrayHash(h4) == (((31 + a) * 31 + b) * 31 + c) * 31 + d;
  }
}
