/**
 * The hamburger network of the first draft (`OOP2_Spring24/OOP/Solution`):
 * it registers students and restaurants by ID and answers queries over a
 * student's friends. In this draft `addFriend` records a friendship on one
 * side only, the network's favourites sets are ordered by restaurant ID, and
 * a recommendation that is not found is `false`.
 */
module HamburgerOneWay {
  import opened Wrappers
  import opened JavaLang
  import opened Views
  import opened Graphs
  import opened JavaText
  import opened Burgers
  import opened Sorting
  import opened HamburgerEntities

  class HamburgerNetwork {
    var students: map<int, HungryStudent>
    var restaurants: map<int, Restaurant>

    /**
     * Every student and restaurant is filed under its own ID, every student
     * is valid, and every friend is a registered student.
     */
    ghost predicate Valid()
      reads this, students.Values
    {
      && (forall k :: k in students ==> students[k].id == k && students[k].Valid())
      && (forall k :: k in restaurants ==> restaurants[k].id == k)
      && (forall k, f :: k in students && f in students[k].friends ==> f in students && students[k].friends[f] == students[f])
    }

    /**
     * A student object passed in is the one registered under its ID, if
     * any: then `containsValue`, which compares by `equals`, is a lookup by ID.
     */
    predicate Known(s: HungryStudent)
      reads this
    {
      s.id in students ==> students[s.id] == s
    }

    constructor ()
      ensures students == map[] && restaurants == map[]
      ensures Valid()
    {
      students := map[];
      restaurants := map[];
    }

    /** `joinNetwork`: a new student under a fresh ID; a taken ID is refused. */
    method JoinNetwork(id: int, name: string) returns (r: Result<HungryStudent, BurgerError>)
      requires Valid()
      modifies this
      ensures Valid()
      ensures id in old(students) ==> r == Err(StudentAlreadyInSystem) && students == old(students)
      ensures id !in old(students) ==> (r.Ok? && fresh(r.value) && r.value.id == id && r.value.name == name
        && r.value.favorites == [] && r.value.friends == map[] && students == old(students)[id := r.value])
      ensures restaurants == old(restaurants)
    {
      if id in students {
        return Err(StudentAlreadyInSystem);
      }
      var s := new HungryStudent(id, name);
      students := students[id := s];
      r := Ok(s);
    }

    /** `addRestaurant`: a new restaurant under a fresh ID; a taken ID is refused. */
    method AddRestaurant(id: int, name: string, dist: Int32, menu: set<string>) returns (r: Result<Restaurant, BurgerError>)
      requires Valid()
      modifies this
      ensures Valid()
      ensures id in old(restaurants) ==> r == Err(RestaurantAlreadyInSystem) && restaurants == old(restaurants)
      ensures id !in old(restaurants) ==> (r.Ok? && fresh(r.value) && r.value.id == id && r.value.name == name
        && r.value.distance == dist && r.value.menu == menu && r.value.ratings == map[]
        && restaurants == old(restaurants)[id := r.value])
      ensures students == old(students)
    {
      if id in restaurants {
        return Err(RestaurantAlreadyInSystem);
      }
      var x := new Restaurant(id, name, dist, menu);
      restaurants := restaurants[id := x];
      r := Ok(x);
    }

    /** `registeredStudents`: the registered students, in no particular order. */
    function RegisteredStudents(): (r: set<HungryStudent>)
      requires Valid()
      reads this, students.Values
      ensures forall k :: k in students ==> students[k] in r
      ensures forall x | x in r :: x.id in students && students[x.id] == x
    {
      set k | k in students :: students[k]
    }

    /** `registeredRestaurants`: the registered restaurants, in no particular order. */
    function RegisteredRestaurants(): (r: set<Restaurant>)
      requires Valid()
      reads this, students.Values
      ensures forall k :: k in restaurants ==> restaurants[k] in r
      ensures forall x | x in r :: x.id in restaurants && restaurants[x.id] == x
    {
      set k | k in restaurants :: restaurants[k]
    }

    /** `getStudent`: the student registered under the ID. */
    function GetStudent(id: int): (r: Result<HungryStudent, BurgerError>)
      requires Valid()
      reads this, students.Values
      ensures id in students <==> r.Ok?
      ensures r.Ok? ==> r.value.id == id && r.value in students.Values
      ensures r.Err? ==> r.error == StudentNotInSystem
    {
      if id in students then Ok(students[id]) else Err(StudentNotInSystem)
    }

    /** `getRestaurant`: the restaurant registered under the ID. */
    function GetRestaurant(id: int): (r: Result<Restaurant, BurgerError>)
      requires Valid()
      reads this, students.Values
      ensures id in restaurants <==> r.Ok?
      ensures r.Ok? ==> r.value.id == id && r.value in restaurants.Values
      ensures r.Err? ==> r.error == RestaurantNotInSystem
    {
      if id in restaurants then Ok(restaurants[id]) else Err(RestaurantNotInSystem)
    }

    /**
     * `addConnection`: both students must be registered; then `s1` adds
     * `s2` as a friend, and `s2`'s table is left alone.
     */
    method AddConnection(s1: HungryStudent, s2: HungryStudent) returns (o: Outcome<BurgerError>)
      requires Valid() && Known(s1) && Known(s2)
      modifies s1
      ensures Valid()
      ensures s1.id !in students || s2.id !in students ==> o == Fail(StudentNotInSystem) && s1.friends == old(s1.friends)
      ensures s1.id in students && s2.id in students && s1.id == s2.id ==> o == Fail(SameStudent) && s1.friends == old(s1.friends)
      ensures s1.id in students && s2.id in students && s1.id != s2.id && s2.id in old(s1.friends) ==>
        o == Fail(ConnectionAlreadyExists) && s1.friends == old(s1.friends)
      ensures s1.id in students && s2.id in students && s1.id != s2.id && s2.id !in old(s1.friends) ==>
        o == Pass && s1.friends == old(s1.friends)[s2.id := s2]
      ensures s1.favorites == old(s1.favorites)
    {
      if s1.id !in students || s2.id !in students {
        return Fail(StudentNotInSystem);
      }
      o := s1.AddFriend(s2);
    }

    /** The friendship table of the network as a graph over student IDs. */
    function FriendGraph(): (g: Graph)
      reads this, students.Values
      ensures g.Keys == students.Keys
    {
      map k | k in students :: students[k].friends.Keys
    }

    /**
     * `favoritesByRating(s)`: the favourites of `s`'s friends with an
     * average of at least 0, collected in ID order.
     */
    method FavoritesByRating(s: HungryStudent) returns (r: Result<seq<Restaurant>, BurgerError>)
      requires Valid() && Known(s)
      ensures s.id !in students ==> r == Err(StudentNotInSystem)
      ensures s.id in students ==> r.Ok? && Collected(true, ByRating, 0, FriendEntries(s), Entries(r.value))
    {
      if s.id !in students {
        return Err(StudentNotInSystem);
      }
      var list := s.GetFriends();
      FriendsValid(s, list);
      var out := Collect(list, ByRating, 0, true);
      r := Ok(out);
    }

    /**
     * `favoritesByDist(s)`: the favourites of `s`'s friends at most
     * `Integer.MAX_VALUE` away, collected in ID order.
     */
    method FavoritesByDist(s: HungryStudent) returns (r: Result<seq<Restaurant>, BurgerError>)
      requires Valid() && Known(s)
      ensures s.id !in students ==> r == Err(StudentNotInSystem)
      ensures s.id in students ==> r.Ok? && Collected(true, ByDistance, MAX_INT, FriendEntries(s), Entries(r.value))
    {
      if s.id !in students {
        return Err(StudentNotInSystem);
      }
      var list := s.GetFriends();
      FriendsValid(s, list);
      var out := Collect(list, ByDistance, MAX_INT, true);
      r := Ok(out);
    }

    /** The friends of a registered student are registered, hence valid. */
    lemma FriendsValid(s: HungryStudent, list: seq<HungryStudent>)
      requires Valid() && s.id in students && students[s.id] == s
      requires forall i :: 0 <= i < |list| ==> list[i].id in s.friends && s.friends[list[i].id] == list[i]
      ensures forall i :: 0 <= i < |list| ==> list[i].Valid()
    {
      forall i | 0 <= i < |list| ensures list[i].Valid() {
        assert students[list[i].id] == list[i];
      }
    }

    /**
     * `getRecommendation(s, r, t)`: whether a student at most `t`
     * friendships away from `s` (following each student's own friend table)
     * has `r` among the favourites. An unregistered student or restaurant,
     * and a negative `t`, are errors, checked in that order.
     */
    method GetRecommendation(s: HungryStudent, r: Restaurant, t: int) returns (res: Result<bool, BurgerError>)
      requires Valid() && Known(s)
      ensures s.id !in students ==> res == Err(StudentNotInSystem)
      ensures s.id in students && r.id !in restaurants ==> res == Err(RestaurantNotInSystem)
      ensures s.id in students && r.id in restaurants && t < 0 ==> res == Err(ImpossibleConnection)
      ensures s.id in students && r.id in restaurants && t >= 0 ==>
        res == Ok(exists k :: k in students && WithinHops(FriendGraph(), s.id, k, t) && HasFavorite(students[k].favorites, r.id))
    {
      if s.id !in students {
        return Err(StudentNotInSystem);
      }
      if r.id !in restaurants {
        return Err(RestaurantNotInSystem);
      }
      if t < 0 {
        return Err(ImpossibleConnection);
      }
      var g := FriendGraph();
      var goal := set k | k in students && HasFavorite(students[k].favorites, r.id);
      forall x | x in g ensures g[x] <= g.Keys {
        forall f | f in g[x] ensures f in g {
          assert f in students[x].friends;
        }
      }
      var found := LevelSearch(g, goal, s.id, t);
      if found {
        ghost var x :| x in Ball(g, s.id, t) && x in goal;
        BallIsWithinHops(g, s.id, x, t);
      } else {
        forall k | k in students && WithinHops(g, s.id, k, t) ensures !HasFavorite(students[k].favorites, r.id) {
          BallIsWithinHops(g, s.id, k, t);
        }
      }
      res := Ok(found);
    }

    /** `toString`: the registered IDs, then each student's friend IDs, as `NetworkText` lays them out. */
    method ToString() returns (text: string)
      requires Valid()
      ensures text == NetworkText(FriendGraph(), restaurants.Keys)
    {
      var g := FriendGraph();
      text := RenderNetwork(g, restaurants.Keys);
      assert unchanged(this) && unchanged(students.Values);
    }
  }

  /** The `StringBuilder` code of `HamburgerNetworkImpl.toString`, over the friendship graph and the restaurant IDs. */
  method RenderNetwork(g: Graph, restaurantIds: set<int>) returns (text: string)
    ensures text == NetworkText(g, restaurantIds)
  {
    var studentIds := SortedKeys(g.Keys);
    var sb := "Registered students: ";
    sb := AppendJoined(sb, Decimals(studentIds));
    sb := sb + ".\n";
    sb := sb + "Registered restaurants: ";
    sb := AppendJoined(sb, Decimals(SortedKeys(restaurantIds)));
    sb := sb + ".\n";
    sb := sb + "Students:\n";
    sb := AppendStudentLines(sb, studentIds, g);
    text := sb + "End students.";
  }

  /** The `StringBuilder` loop of `toString` over the students: one line per student, in the order given. */
  method AppendStudentLines(sb: string, ids: seq<int>, g: Graph) returns (r: string)
    requires forall i :: 0 <= i < |ids| ==> ids[i] in g
    ensures r == sb + StudentLines(ids, g)
  {
    r := sb;
    for i := 0 to |ids|
      invariant r == sb + StudentLines(ids[..i], g)
    {
      assert ids[..i + 1][..i] == ids[..i];
      ghost var prev := r;
      r := r + DecimalString(ids[i]) + " -> [";
      r := AppendJoined(r, Decimals(SortedKeys(g[ids[i]])));
      r := r + "].\n";
      LineAppended(sb, StudentLines(ids[..i], g), DecimalString(ids[i]), Join(", ", Decimals(SortedKeys(g[ids[i]]))));
    }
    assert ids[..|ids|] == ids;
  }

  lemma LineAppended(sb: string, lines: string, d: string, j: string)
    ensures sb + lines + d + " -> [" + j + "].\n" == sb + (lines + (d + " -> [" + j + "].\n"))
  {
  }

  /** One line of the network's text: a student's ID and its friends' IDs in ascending order. */
  function StudentLine(id: int, friendIds: set<int>): string
  {
    DecimalString(id) + " -> [" + Join(", ", Decimals(SortedKeys(friendIds))) + "].\n"
  }

  function StudentLines(ids: seq<int>, g: Graph): string
    requires forall i :: 0 <= i < |ids| ==> ids[i] in g
  {
    if ids == [] then ""
    else StudentLines(ids[..|ids| - 1], g) + StudentLine(ids[|ids| - 1], g[ids[|ids| - 1]])
  }

  /** The text of `HamburgerNetworkImpl.toString` for a friendship graph and the registered restaurant IDs. */
  function NetworkText(g: Graph, restaurantIds: set<int>): string
  {
    "Registered students: " + Join(", ", Decimals(SortedKeys(g.Keys))) + ".\n"
      + "Registered restaurants: " + Join(", ", Decimals(SortedKeys(restaurantIds))) + ".\n"
      + "Students:\n" + StudentLines(SortedKeys(g.Keys), g) + "End students."
  }
}
