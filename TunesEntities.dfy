/**
 * The two entities of TechnionTunes: a user, who rates songs and keeps a
 * set of friends, and a song, which remembers who rated it and how.
 *
 * Both compare, hash and test equality by ID alone, so a Java `HashMap`
 * or `HashSet` keyed by users or songs is a table keyed by their IDs here.
 * IDs, names, ages and lengths never change after construction and are
 * `const` fields; the rating tables and the friend set are updated in
 * place.
 */
module TunesEntities {
  import opened Wrappers
  import opened JavaLang
  import opened Sorting
  import opened Views

  /** The exceptions the TechnionTunes operations throw. */
  datatype TunesError =
    | IllegalArgument
    | IllegalRateValue
    | SongAlreadyRated
    | AlreadyFriends
    | SamePerson
    | UserAlreadyExists
    | UserDoesntExist
    | SongAlreadyExists
    | SongDoesntExist

  /** A rating lies between 0 and 10 inclusive. */
  predicate ValidRate(rate: int)
  {
    0 <= rate <= 10
  }

  /** A song is a favourite of the user who rated it when the rating is at least 8. */
  predicate IsFavorite(rate: int)
  {
    rate >= 8
  }

  /**
   * `Integer.compare`: -1, 0 or 1 as `a` is less than, equal to or greater
   * than `b`.
   */
  function CompareInts(a: int, b: int): (r: int)
    ensures -1 <= r <= 1
    ensures r < 0 <==> a < b
    ensures r == 0 <==> a == b
  {
    if a < b then -1 else if a == b then 0 else 1
  }

  /** `Objects.hash(id)`: one element hashed as an array. */
  function IdHash(id: int): (h: int)
    ensures MIN_INT <= h <= MAX_INT
    ensures MIN_INT <= id <= MAX_INT - 31 ==> h == 31 + id
  {
    var hs := [IntegerHash(id)];
    assert hs[..0] == [];
    assert ArrayHash(hs) == Wrap32(31 + IntegerHash(id));
    ArrayHash(hs)
  }

  /** Whether a list of songs holds a song equal, by ID, to `s` (`Collection.contains`). */
  function ContainsSong(songs: seq<Song>, s: Song): (r: bool)
    ensures r <==> exists i :: 0 <= i < |songs| && songs[i].id == s.id
  {
    if songs == [] then false
    else songs[0].id == s.id || ContainsSong(songs[1..], s)
  }

  /** `a.stream().anyMatch(b::contains)`. */
  function AnyContained(a: seq<Song>, b: seq<Song>): (r: bool)
    ensures r <==> exists i, j :: 0 <= i < |a| && 0 <= j < |b| && a[i].id == b[j].id
  {
    if a == [] then false
    else ContainsSong(b, a[0]) || AnyContained(a[1..], b)
  }

  /** A song's ratings sit under their raters' IDs and are valid rates. */
  ghost predicate RatingTableOk(m: map<int, (User, int)>)
  {
    forall k :: k in m ==> m[k].0.id == k && ValidRate(m[k].1)
  }

  /** A user's ratings sit under their songs' IDs and are valid rates. */
  ghost predicate RatedTableOk(m: map<int, (Song, int)>)
  {
    forall k :: k in m ==> m[k].0.id == k && ValidRate(m[k].1)
  }

  /** Friends sit under their IDs, and nobody is their own friend. */
  ghost predicate FriendTableOk(id: int, m: map<int, User>)
  {
    (forall k :: k in m ==> m[k].id == k) && id !in m
  }

  class Song {
    const id: int
    const name: string
    /** The length in seconds. */
    const length: int
    const singer: string
    /** Rater ID to the rater and the rate given. */
    var ratings: map<int, (User, int)>

    ghost predicate Valid()
      reads this
    {
      RatingTableOk(ratings)
    }

    constructor (id: int, name: string, length: int, singer: string)
      ensures this.id == id && this.name == name && this.length == length && this.singer == singer
      ensures ratings == map[]
      ensures Valid()
    {
      this.id := id;
      this.name := name;
      this.length := length;
      this.singer := singer;
      ratings := map[];
    }

    /**
     * The `SongImpl` constructor: a negative ID, a negative length or a
     * null name or singer is an illegal argument.
     */
    static method New(id: int, name: Option<string>, length: int, singer: Option<string>) returns (r: Result<Song, TunesError>)
      ensures r.Err? <==> id < 0 || length < 0 || name.None? || singer.None?
      ensures r.Err? ==> r.error == IllegalArgument
      ensures r.Ok? ==> fresh(r.value) && r.value.id == id && r.value.name == name.value
      ensures r.Ok? ==> r.value.length == length && r.value.singer == singer.value
      ensures r.Ok? ==> r.value.ratings == map[] && r.value.Valid()
    {
      if id < 0 || length < 0 || name.None? || singer.None? {
        return Err(IllegalArgument);
      }
      var s := new Song(id, name.value, length, singer.value);
      return Ok(s);
    }

    /** Records `user`'s rate; the range is checked before the duplicate. */
    method RateSong(user: User, rate: int) returns (r: Outcome<TunesError>)
      requires Valid()
      modifies this
      ensures Valid()
      ensures !ValidRate(rate) ==> r == Fail(IllegalRateValue)
      ensures ValidRate(rate) && user.id in old(ratings) ==> r == Fail(SongAlreadyRated)
      ensures r.Pass? <==> ValidRate(rate) && user.id !in old(ratings)
      ensures r.Pass? ==> ratings == old(ratings)[user.id := (user, rate)]
      ensures r.Fail? ==> ratings == old(ratings)
    {
      if !ValidRate(rate) {
        return Fail(IllegalRateValue);
      }
      if user.id in ratings {
        return Fail(SongAlreadyRated);
      }
      ratings := ratings[user.id := (user, rate)];
      return Pass;
    }

    /** The raters, ordered by rate descending, then age ascending, then ID descending. */
    ghost function Raters(): (r: seq<User>)
      requires Valid()
      reads this
      ensures |r| == |ratings|
      ensures forall i :: 0 <= i < |r| ==> r[i].id in ratings && ratings[r[i].id].0 == r[i]
      ensures forall k :: k in ratings ==> ratings[k].0 in r
      ensures forall i, j :: 0 <= i < j < |r| ==> r[i].id != r[j].id
      ensures forall i, j :: 0 <= i < j < |r| ==> RaterBefore(ratings[r[i].id], ratings[r[j].id])
    {
      RatersIn(ratings)
    }

    /** The raters grouped by the rate they gave. */
    function Ratings(): (r: map<int, set<User>>)
      requires Valid()
      reads this
      ensures forall v :: v in r ==> ValidRate(v) && r[v] != {}
      ensures forall k :: k in ratings ==> ratings[k].1 in r && ratings[k].0 in r[ratings[k].1]
      ensures forall v, u :: v in r && u in r[v] ==> u.id in ratings && ratings[u.id] == (u, v)
    {
      var values := set k | k in ratings :: ratings[k].1;
      var r := map v | v in values :: set k | k in ratings && ratings[k].1 == v :: ratings[k].0;
      forall v | v in r ensures ValidRate(v) && r[v] != {} {
        var k :| k in ratings && ratings[k].1 == v;
        assert ratings[k].0 in r[v];
      }
      r
    }

    /** The rates alone, by rater ID. */
    function Rates(): (m: map<int, int>)
      reads this
      ensures m.Keys == ratings.Keys
    {
      map k | k in ratings :: ratings[k].1
    }

    /**
     * The mean rate, 0 without ratings. Java computes it as a `double`; here
     * it is the exact quotient.
     */
    function AverageRating(): (r: real)
      requires Valid()
      reads this
      ensures ratings == map[] ==> r == 0.0
      ensures 0.0 <= r <= 10.0
    {
      var rates := Rates();
      if rates.Keys == {} then 0.0
      else
        SumValuesBounds(rates, 0, 10);
        var n := |rates.Keys|;
        MeanBounds(SumValues(rates), n);
        (SumValues(rates) as real) / (n as real)
    }

    /** `equals`: any song with the same ID. */
    predicate Equals(other: Option<Song>)
    {
      other.Some? && other.value.id == id
    }

    function HashCode(): (h: int)
      ensures MIN_INT <= h <= MAX_INT
      ensures 0 <= id <= MAX_INT - 31 ==> h == 31 + id
    {
      IdHash(id)
    }

    function CompareTo(other: Song): (r: int)
      ensures r < 0 <==> id < other.id
      ensures r == 0 <==> id == other.id
    {
      CompareInts(id, other.id)
    }
  }

  /** The comparator of `Raters`, spelled out on (rater, rate) entries. */
  predicate RaterBefore(a: (User, int), b: (User, int))
  {
    a.1 > b.1 || (a.1 == b.1 && (a.0.age < b.0.age || (a.0.age == b.0.age && a.0.id > b.0.id)))
  }

  /** The comparator of `RatedSongs`, spelled out on (song, rate) entries. */
  predicate RatedBefore(a: (Song, int), b: (Song, int))
  {
    a.1 > b.1 || (a.1 == b.1 && (a.0.length < b.0.length || (a.0.length == b.0.length && a.0.id > b.0.id)))
  }

  class User {
    const id: int
    const name: string
    const age: int
    /** Song ID to the song and the rate given. */
    var ratedSongs: map<int, (Song, int)>
    /** Friend ID to the friend. */
    var friends: map<int, User>

    ghost predicate Valid()
      reads this
    {
      RatedTableOk(ratedSongs) && FriendTableOk(id, friends)
    }

    constructor (id: int, name: string, age: int)
      ensures this.id == id && this.name == name && this.age == age
      ensures ratedSongs == map[] && friends == map[]
      ensures Valid()
    {
      this.id := id;
      this.name := name;
      this.age := age;
      ratedSongs := map[];
      friends := map[];
    }

    /** The `UserImpl` constructor: a negative ID or age or a null name is an illegal argument. */
    static method New(id: int, name: Option<string>, age: int) returns (r: Result<User, TunesError>)
      ensures r.Err? <==> id < 0 || age < 0 || name.None?
      ensures r.Err? ==> r.error == IllegalArgument
      ensures r.Ok? ==> fresh(r.value) && r.value.id == id && r.value.name == name.value && r.value.age == age
      ensures r.Ok? ==> r.value.ratedSongs == map[] && r.value.friends == map[] && r.value.Valid()
    {
      if id < 0 || age < 0 || name.None? {
        return Err(IllegalArgument);
      }
      var u := new User(id, name.value, age);
      return Ok(u);
    }

    /** Records this user's rate of `song` and returns this user; the range is checked before the duplicate. */
    method RateSong(song: Song, rate: int) returns (r: Result<User, TunesError>)
      requires Valid()
      modifies this
      ensures Valid()
      ensures !ValidRate(rate) ==> r == Err(IllegalRateValue)
      ensures ValidRate(rate) && song.id in old(ratedSongs) ==> r == Err(SongAlreadyRated)
      ensures r.Ok? <==> ValidRate(rate) && song.id !in old(ratedSongs)
      ensures r.Ok? ==> r.value == this && ratedSongs == old(ratedSongs)[song.id := (song, rate)]
      ensures r.Ok? ==> TotalLength() == old(TotalLength()) + song.length
      ensures r.Err? ==> ratedSongs == old(ratedSongs)
      ensures friends == old(friends)
    {
      if !ValidRate(rate) {
        return Err(IllegalRateValue);
      }
      if song.id in ratedSongs {
        return Err(SongAlreadyRated);
      }
      ghost var before := Lengths();
      ratedSongs := ratedSongs[song.id := (song, rate)];
      assert Lengths() == before[song.id := song.length];
      SumValuesInsert(before, song.id, song.length);
      return Ok(this);
    }

    /**
     * Adds `friend` to this user's friends only and returns this user: the
     * same ID is `SamePerson`, a friend already present is `AlreadyFriends`.
     */
    method AddFriend(friend: User) returns (r: Result<User, TunesError>)
      requires Valid()
      modifies this
      ensures Valid()
      ensures friend.id == id ==> r == Err(SamePerson)
      ensures friend.id != id && friend.id in old(friends) ==> r == Err(AlreadyFriends)
      ensures r.Ok? <==> friend.id != id && friend.id !in old(friends)
      ensures r.Ok? ==> r.value == this && friends == old(friends)[friend.id := friend]
      ensures r.Err? ==> friends == old(friends)
      ensures ratedSongs == old(ratedSongs)
    {
      if friend.id == id {
        return Err(SamePerson);
      }
      if friend.id in friends {
        return Err(AlreadyFriends);
      }
      friends := friends[friend.id := friend];
      return Ok(this);
    }

    /** The rated songs, ordered by rate descending, then length ascending, then ID descending. */
    ghost function RatedSongs(): (r: seq<Song>)
      requires Valid()
      reads this
      ensures |r| == |ratedSongs|
      ensures forall i :: 0 <= i < |r| ==> r[i].id in ratedSongs && ratedSongs[r[i].id].0 == r[i]
      ensures forall k :: k in ratedSongs ==> ratedSongs[k].0 in r
      ensures forall i, j :: 0 <= i < j < |r| ==> r[i].id != r[j].id
      ensures forall i, j :: 0 <= i < j < |r| ==> RatedBefore(ratedSongs[r[i].id], ratedSongs[r[j].id])
    {
      RatedIn(ratedSongs)
    }

    /** The rated songs as a set, as `new HashSet<>(getRatedSongs())` builds it. */
    function RatedSongSet(): (r: set<Song>)
      reads this
      ensures forall k :: k in ratedSongs ==> ratedSongs[k].0 in r
      ensures forall x :: x in r ==> exists k :: k in ratedSongs && ratedSongs[k].0 == x
    {
      set k | k in ratedSongs :: ratedSongs[k].0
    }

    /** The IDs of the songs this user rated at least 8. */
    function FavoriteIds(): (ids: set<int>)
      reads this
      ensures forall k :: k in ids <==> k in ratedSongs && IsFavorite(ratedSongs[k].1)
    {
      FavoriteIdsIn(ratedSongs)
    }

    /** The songs rated at least 8, by ID ascending. */
    ghost function FavoriteSongs(): (r: seq<Song>)
      requires Valid()
      reads this
      ensures |r| == |FavoriteIds()|
      ensures forall i :: 0 <= i < |r| ==> r[i].id in ratedSongs && IsFavorite(ratedSongs[r[i].id].1) && ratedSongs[r[i].id].0 == r[i]
      ensures forall k :: k in FavoriteIds() ==> ratedSongs[k].0 in r
      ensures forall i, j :: 0 <= i < j < |r| ==> r[i].id < r[j].id
    {
      FavoritesIn(ratedSongs)
    }

    /**
     * False for a user who is not a friend; otherwise whether the two
     * favourite lists share a song.
     */
    function FavoriteSongInCommon(u: User): (r: bool)
      requires Valid() && u.Valid()
      reads this, u
      ensures r <==> u.id in friends && AnyContained(FavoriteSongs(), u.FavoriteSongs())
      ensures r <==> u.id in friends && SharesFavorite(ratedSongs, u.ratedSongs)
    {
      SharedFavorites(ratedSongs, u.ratedSongs);
      u.id in friends && FavoriteIds() * u.FavoriteIds() != {}
    }

    /** The lengths of the rated songs, by song ID. */
    function Lengths(): (m: map<int, int>)
      reads this
      ensures m.Keys == ratedSongs.Keys
    {
      map k | k in ratedSongs :: ratedSongs[k].0.length
    }

    /** The exact sum of the lengths of the rated songs. */
    function TotalLength(): int
      reads this
    {
      SumValues(Lengths())
    }

    /** The playlist length: the sum of the rated songs' lengths, in `int` arithmetic. */
    function PlaylistLength(): (r: int)
      reads this
      ensures MIN_INT <= r <= MAX_INT
      ensures ratedSongs == map[] ==> r == 0
      ensures MIN_INT <= TotalLength() <= MAX_INT ==> r == TotalLength()
    {
      Wrap32(TotalLength())
    }

    /** Each friend, with the number of songs that friend has rated. */
    function GetFriends(): (r: map<User, int>)
      reads this, friends.Values
      ensures forall k :: k in friends ==> friends[k] in r && r[friends[k]] == |friends[k].ratedSongs|
      ensures forall f :: f in r ==> f in friends.Values
    {
      map f | f in friends.Values :: |f.ratedSongs|
    }

    /** `equals`: any user with the same ID. */
    predicate Equals(other: Option<User>)
    {
      other.Some? && other.value.id == id
    }

    function HashCode(): (h: int)
      ensures MIN_INT <= h <= MAX_INT
      ensures 0 <= id <= MAX_INT - 31 ==> h == 31 + id
    {
      IdHash(id)
    }

    function CompareTo(other: User): (r: int)
      ensures r < 0 <==> id < other.id
      ensures r == 0 <==> id == other.id
    {
      CompareInts(id, other.id)
    }
  }

  /** Equal users hash alike and compare as equal. */
  lemma UserEqualityConsistent(a: User, b: User)
    requires a.Equals(Some(b))
    ensures a.HashCode() == b.HashCode() && a.CompareTo(b) == 0 && b.Equals(Some(a))
  {
  }

  /** Equal songs hash alike and compare as equal. */
  lemma SongEqualityConsistent(a: Song, b: Song)
    requires a.Equals(Some(b))
    ensures a.HashCode() == b.HashCode() && a.CompareTo(b) == 0 && b.Equals(Some(a))
  {
  }

  /** Two rated-songs tables have a favourite song ID in common. */
  predicate SharesFavorite(a: map<int, (Song, int)>, b: map<int, (Song, int)>)
  {
    FavoriteIdsIn(a) * FavoriteIdsIn(b) != {}
  }

  /** Two favourite lists overlap exactly when the favourite ID sets do. */
  lemma SharedFavorites(a: map<int, (Song, int)>, b: map<int, (Song, int)>)
    requires forall k :: k in a ==> a[k].0.id == k
    requires forall k :: k in b ==> b[k].0.id == k
    ensures AnyContained(FavoritesIn(a), FavoritesIn(b)) <==> FavoriteIdsIn(a) * FavoriteIdsIn(b) != {}
  {
    var mine, theirs := FavoritesIn(a), FavoritesIn(b);
    if AnyContained(mine, theirs) {
      SharedIdFromLists(a, b, mine, theirs);
    }
    if FavoriteIdsIn(a) * FavoriteIdsIn(b) != {} {
      var k :| k in FavoriteIdsIn(a) * FavoriteIdsIn(b);
      var i := IndexOf(mine, a[k].0);
      var j := IndexOf(theirs, b[k].0);
      assert mine[i].id == k == theirs[j].id;
    }
  }

  lemma SharedIdFromLists(a: map<int, (Song, int)>, b: map<int, (Song, int)>, mine: seq<Song>, theirs: seq<Song>)
    requires forall i :: 0 <= i < |mine| ==> mine[i].id in a && IsFavorite(a[mine[i].id].1)
    requires forall j :: 0 <= j < |theirs| ==> theirs[j].id in b && IsFavorite(b[theirs[j].id].1)
    requires AnyContained(mine, theirs)
    ensures FavoriteIdsIn(a) * FavoriteIdsIn(b) != {}
  {
    var i, j :| 0 <= i < |mine| && 0 <= j < |theirs| && mine[i].id == theirs[j].id;
    assert mine[i].id in FavoriteIdsIn(a) * FavoriteIdsIn(b);
  }

  /** A sum of `n` rates in 0..10, divided by `n`, lies in 0..10. */
  lemma MeanBounds(sum: int, n: int)
    requires 0 < n && 0 <= sum <= 10 * n
    ensures 0.0 <= (sum as real) / (n as real) <= 10.0
  {
    assert (sum as real) <= 10.0 * (n as real);
  }

  function RaterKeysIn(m: map<int, (User, int)>): (keys: map<int, Key>)
    ensures keys.Keys == m.Keys
  {
    map k | k in m :: Key(-(m[k].1 as real), m[k].0.age as real, -k)
  }

  /** `Raters` on the rating table alone. */
  ghost function RatersIn(m: map<int, (User, int)>): (r: seq<User>)
    requires forall k :: k in m ==> m[k].0.id == k
    ensures |r| == |m|
    ensures forall i :: 0 <= i < |r| ==> r[i].id in m && m[r[i].id].0 == r[i]
    ensures forall k :: k in m ==> m[k].0 in r
    ensures forall i, j :: 0 <= i < j < |r| ==> r[i].id != r[j].id
    ensures forall i, j :: 0 <= i < j < |r| ==> RaterBefore(m[r[i].id], m[r[j].id])
  {
    var ids := View(RaterKeysIn(m));
    var r := seq(|ids|, i requires 0 <= i < |ids| => m[ids[i]].0);
    RaterViewFacts(m, ids, r);
    r
  }

  /** Reading the objects back through a view of their keys keeps the view's properties. */
  lemma RaterViewFacts(m: map<int, (User, int)>, ids: seq<int>, r: seq<User>)
    requires forall k :: k in m ==> m[k].0.id == k
    requires IsView(RaterKeysIn(m), ids)
    requires |r| == |ids| && forall i :: 0 <= i < |ids| ==> r[i] == m[ids[i]].0
    ensures |r| == |m|
    ensures forall i :: 0 <= i < |r| ==> r[i].id in m && m[r[i].id].0 == r[i]
    ensures forall k :: k in m ==> m[k].0 in r
    ensures forall i, j :: 0 <= i < j < |r| ==> r[i].id != r[j].id
    ensures forall i, j :: 0 <= i < j < |r| ==> RaterBefore(m[r[i].id], m[r[j].id])
  {
    var keys := RaterKeysIn(m);
    forall k | k in m ensures m[k].0 in r {
      var i := IndexOf(ids, k);
      assert r[i] == m[k].0;
    }
    forall i, j | 0 <= i < j < |r| ensures RaterBefore(m[r[i].id], m[r[j].id]) {
      assert KeyLe(keys[ids[i]], keys[ids[j]]);
    }
  }


  function RatedKeysIn(m: map<int, (Song, int)>): (keys: map<int, Key>)
    ensures keys.Keys == m.Keys
  {
    map k | k in m :: Key(-(m[k].1 as real), m[k].0.length as real, -k)
  }

  /** `RatedSongs` on the rated-songs table alone. */
  ghost function RatedIn(m: map<int, (Song, int)>): (r: seq<Song>)
    requires forall k :: k in m ==> m[k].0.id == k
    ensures |r| == |m|
    ensures forall i :: 0 <= i < |r| ==> r[i].id in m && m[r[i].id].0 == r[i]
    ensures forall k :: k in m ==> m[k].0 in r
    ensures forall i, j :: 0 <= i < j < |r| ==> r[i].id != r[j].id
    ensures forall i, j :: 0 <= i < j < |r| ==> RatedBefore(m[r[i].id], m[r[j].id])
  {
    var ids := View(RatedKeysIn(m));
    var r := seq(|ids|, i requires 0 <= i < |ids| => m[ids[i]].0);
    RatedViewFacts(m, ids, r);
    r
  }

  /** Reading the objects back through a view of their keys keeps the view's properties. */
  lemma RatedViewFacts(m: map<int, (Song, int)>, ids: seq<int>, r: seq<Song>)
    requires forall k :: k in m ==> m[k].0.id == k
    requires IsView(RatedKeysIn(m), ids)
    requires |r| == |ids| && forall i :: 0 <= i < |ids| ==> r[i] == m[ids[i]].0
    ensures |r| == |m|
    ensures forall i :: 0 <= i < |r| ==> r[i].id in m && m[r[i].id].0 == r[i]
    ensures forall k :: k in m ==> m[k].0 in r
    ensures forall i, j :: 0 <= i < j < |r| ==> r[i].id != r[j].id
    ensures forall i, j :: 0 <= i < j < |r| ==> RatedBefore(m[r[i].id], m[r[j].id])
  {
    var keys := RatedKeysIn(m);
    forall k | k in m ensures m[k].0 in r {
      var i := IndexOf(ids, k);
      assert r[i] == m[k].0;
    }
    forall i, j | 0 <= i < j < |r| ensures RatedBefore(m[r[i].id], m[r[j].id]) {
      assert KeyLe(keys[ids[i]], keys[ids[j]]);
    }
  }


  function FavoriteIdsIn(m: map<int, (Song, int)>): (ids: set<int>)
    ensures forall k :: k in ids <==> k in m && IsFavorite(m[k].1)
  {
    set k | k in m && IsFavorite(m[k].1)
  }

  /** `FavoriteSongs` on the rated-songs table alone. */
  ghost function FavoritesIn(m: map<int, (Song, int)>): (r: seq<Song>)
    requires forall k :: k in m ==> m[k].0.id == k
    ensures |r| == |FavoriteIdsIn(m)|
    ensures forall i :: 0 <= i < |r| ==> r[i].id in m && IsFavorite(m[r[i].id].1) && m[r[i].id].0 == r[i]
    ensures forall k :: k in FavoriteIdsIn(m) ==> m[k].0 in r
    ensures forall i, j :: 0 <= i < j < |r| ==> r[i].id < r[j].id
  {
    var fav := FavoriteIdsIn(m);
    var ids := Ascending(fav);
    var r := seq(|ids|, i requires 0 <= i < |ids| => m[ids[i]].0);
    forall k | k in fav ensures m[k].0 in r {
      var i := IndexOf(ids, k);
      assert r[i] == m[k].0;
    }
    r
  }
}
