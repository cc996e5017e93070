/**
 * The TechnionTunes system: a registry of users and songs, keyed by ID,
 * that makes friends, records ratings, answers queries over the ratings and
 * decides whether two users can get along through a chain of friends with
 * shared favourite songs.
 */
module Tunes {
  import opened Wrappers
  import opened Sorting
  import opened Views
  import opened Graphs
  import opened TunesEntities

  /** A failed `User` operation as the `void` outcome of the system operation that called it. */
  function OutcomeOf(r: Result<User, TunesError>): (o: Outcome<TunesError>)
    ensures o.Pass? <==> r.Ok?
    ensures r.Err? ==> o == Fail(r.error)
  {
    if r.Ok? then Pass else Fail(r.error)
  }

  /** The order of `MostRatedSongs`: more raters first, then shorter, then the larger ID. */
  predicate MostRatedBefore(a: Song, b: Song)
    reads a, b
  {
    |a.ratings| > |b.ratings| || (|a.ratings| == |b.ratings| && (a.length < b.length || (a.length == b.length && a.id > b.id)))
  }

  /** The order of the song iterator: shorter first, then the smaller ID. */
  predicate ShorterFirst(a: Song, b: Song)
  {
    a.length < b.length || (a.length == b.length && a.id <= b.id)
  }

  /** Each user's friend table, by user ID. */
  type FriendTables = map<int, map<int, User>>
  /** Each user's rated-songs table, by user ID. */
  type RatedTables = map<int, map<int, (Song, int)>>
  /** Each song's ratings table, by song ID. */
  type RatingTables = map<int, map<int, (User, int)>>

  /**
   * The registry's invariant, stated on the registries and on the tables of
   * the registered objects: every object sits under its own ID and keeps
   * its own invariant, friends are registered users and friendship goes
   * both ways, and a rating is recorded by the user and by the song alike.
   */
  ghost predicate SystemOk(users: map<int, User>, songs: map<int, Song>, ft: FriendTables, ut: RatedTables, st: RatingTables)
  {
    && ft.Keys == users.Keys && ut.Keys == users.Keys && st.Keys == songs.Keys
    && (forall k :: k in users ==> users[k].id == k)
    && (forall s :: s in songs ==> songs[s].id == s)
    && (forall k :: UserOk(ft, ut, k))
    && (forall s :: SongOk(st, s))
    && (forall k, f :: FriendLink(users, ft, k, f))
    && (forall k, s :: RatedLink(users, songs, ut, st, k, s))
    && (forall s, k :: RatingLink(ut, st, s, k))
  }

  /** A registered user's own tables keep the user's invariant. */
  ghost predicate UserOk(ft: FriendTables, ut: RatedTables, k: int)
  {
    k in ft && k in ut ==> FriendTableOk(k, ft[k]) && RatedTableOk(ut[k])
  }

  /** A registered song's ratings table keeps the song's invariant. */
  ghost predicate SongOk(st: RatingTables, s: int)
  {
    s in st ==> RatingTableOk(st[s])
  }

  /** A friend is a registered user who has the befriending user as a friend too. */
  ghost predicate FriendLink(users: map<int, User>, ft: FriendTables, k: int, f: int)
  {
    k in ft && f in ft[k] ==> f in users && f in ft && ft[k][f] == users[f] && k in ft[f]
  }

  /** A rated song is a registered song whose ratings hold the same rate by that user. */
  ghost predicate RatedLink(users: map<int, User>, songs: map<int, Song>, ut: RatedTables, st: RatingTables, k: int, s: int)
  {
    k in ut && s in ut[k] ==>
      && k in users && s in songs && s in st && ut[k][s].0 == songs[s]
      && k in st[s] && st[s][k] == (users[k], ut[k][s].1)
  }

  /** A rater of a song has that song among the songs they rated. */
  ghost predicate RatingLink(ut: RatedTables, st: RatingTables, s: int, k: int)
  {
    s in st && k in st[s] ==> k in ut && s in ut[k]
  }

  /**
   * The graph `canGetAlong` searches: an edge from each user to each friend
   * with whom the user shares a favourite song.
   */
  ghost function GetAlongGraph(ft: FriendTables, ut: RatedTables): (g: Graph)
    ensures Closed(g)
    ensures g.Keys == ft.Keys * ut.Keys
  {
    map a | a in ft && a in ut :: set b | b in ft[a] && b in ft && b in ut && SharesFavorite(ut[a], ut[b])
  }

  /** The edges of the get-along graph. */
  lemma GetAlongEdges(ft: FriendTables, ut: RatedTables, a: int, b: int)
    requires a in ft && a in ut
    ensures b in GetAlongGraph(ft, ut)[a] <==> b in ft[a] && b in ft && b in ut && SharesFavorite(ut[a], ut[b])
  {
  }

  /** A fresh user with no friends and no ratings keeps the invariant. */
  lemma AddUserKeepsOk(users: map<int, User>, songs: map<int, Song>, ft: FriendTables, ut: RatedTables, st: RatingTables, u: User)
    requires SystemOk(users, songs, ft, ut, st)
    requires u.id !in users
    ensures SystemOk(users[u.id := u], songs, ft[u.id := map[]], ut[u.id := map[]], st)
  {
    var users': map<int, User>, ft': FriendTables, ut': RatedTables := users[u.id := u], ft[u.id := map[]], ut[u.id := map[]];
    forall k ensures UserOk(ft', ut', k) {
      assert UserOk(ft, ut, k);
    }
    forall k, f ensures FriendLink(users', ft', k, f) {
      assert FriendLink(users, ft, k, f);
    }
    forall k, x ensures RatedLink(users', songs, ut', st, k, x) {
      assert RatedLink(users, songs, ut, st, k, x);
    }
    forall x, k ensures RatingLink(ut', st, x, k) {
      assert RatingLink(ut, st, x, k);
    }
  }

  /** A fresh song with no ratings keeps the invariant. */
  lemma AddSongKeepsOk(users: map<int, User>, songs: map<int, Song>, ft: FriendTables, ut: RatedTables, st: RatingTables, s: Song)
    requires SystemOk(users, songs, ft, ut, st)
    requires s.id !in songs
    ensures SystemOk(users, songs[s.id := s], ft, ut, st[s.id := map[]])
  {
    var songs': map<int, Song>, st': RatingTables := songs[s.id := s], st[s.id := map[]];
    forall x ensures SongOk(st', x) {
      assert SongOk(st, x);
    }
    forall k, x ensures RatedLink(users, songs', ut, st', k, x) {
      assert RatedLink(users, songs, ut, st, k, x);
    }
    forall x, k ensures RatingLink(ut, st', x, k) {
      assert RatingLink(ut, st, x, k);
    }
  }

  /** Two distinct users who are not yet friends may become friends of each other. */
  lemma BefriendKeepsOk(users: map<int, User>, songs: map<int, Song>, ft: FriendTables, ut: RatedTables, st: RatingTables, id1: int, id2: int)
    requires SystemOk(users, songs, ft, ut, st)
    requires id1 in users && id2 in users && id1 != id2 && id2 !in ft[id1]
    ensures id1 !in ft[id2]
    ensures SystemOk(users, songs, ft[id1 := ft[id1][id2 := users[id2]]][id2 := ft[id2][id1 := users[id1]]], ut, st)
  {
    assert FriendLink(users, ft, id2, id1);
    var ft': FriendTables := ft[id1 := ft[id1][id2 := users[id2]]][id2 := ft[id2][id1 := users[id1]]];
    forall k ensures UserOk(ft', ut, k) {
      assert UserOk(ft, ut, k);
    }
    forall k, f ensures FriendLink(users, ft', k, f) {
      assert FriendLink(users, ft, k, f);
    }
  }

  /** Recording a fresh valid rating on both sides keeps the invariant. */
  lemma RateKeepsOk(users: map<int, User>, songs: map<int, Song>, ft: FriendTables, ut: RatedTables, st: RatingTables, uid: int, sid: int, rate: int)
    requires SystemOk(users, songs, ft, ut, st)
    requires uid in users && sid in songs && ValidRate(rate) && sid !in ut[uid]
    ensures uid !in st[sid]
    ensures SystemOk(users, songs, ft, ut[uid := ut[uid][sid := (songs[sid], rate)]], st[sid := st[sid][uid := (users[uid], rate)]])
  {
    assert RatingLink(ut, st, sid, uid);
    var ut': RatedTables, st': RatingTables := ut[uid := ut[uid][sid := (songs[sid], rate)]], st[sid := st[sid][uid := (users[uid], rate)]];
    forall k ensures UserOk(ft, ut', k) {
      assert UserOk(ft, ut, k);
    }
    forall x ensures SongOk(st', x) {
      assert SongOk(st, x);
    }
    forall k, x ensures RatedLink(users, songs, ut', st', k, x) {
      assert RatedLink(users, songs, ut, st, k, x);
    }
    forall x, k ensures RatingLink(ut', st', x, k) {
      assert RatingLink(ut, st, x, k);
    }
  }

  class TechnionTunes {
    /** User ID to user. */
    var users: map<int, User>
    /** Song ID to song. */
    var songs: map<int, Song>
    /** The friend table of each registered user, by user ID. */
    ghost var friendTables: FriendTables
    /** The rated-songs table of each registered user, by user ID. */
    ghost var ratedTables: RatedTables
    /** The ratings table of each registered song, by song ID. */
    ghost var ratingTables: RatingTables

    /** The ghost tables are those of the registered objects. */
    ghost predicate Agrees()
      reads this, users.Values, songs.Values
    {
      Mirrors(friendTables, ratedTables, ratingTables)
    }

    /** The given tables are those of the registered objects. */
    ghost predicate Mirrors(ft: FriendTables, ut: RatedTables, st: RatingTables)
      reads this, users.Values, songs.Values
    {
      && (forall k :: k in users ==> k in ft && k in ut && users[k].friends == ft[k] && users[k].ratedSongs == ut[k])
      && (forall s :: s in songs ==> s in st && songs[s].ratings == st[s])
    }

    /** Replaces the ghost tables by tables that the objects already mirror. */
    ghost method Sync(ft: FriendTables, ut: RatedTables, st: RatingTables)
      requires SystemOk(users, songs, ft, ut, st) && Mirrors(ft, ut, st)
      modifies this
      ensures Valid()
      ensures users == old(users) && songs == old(songs)
      ensures friendTables == ft && ratedTables == ut && ratingTables == st
    {
      friendTables, ratedTables, ratingTables := ft, ut, st;
    }

    ghost predicate Valid()
      reads this, users.Values, songs.Values
    {
      SystemOk(users, songs, friendTables, ratedTables, ratingTables) && Agrees()
    }

    constructor ()
      ensures users == map[] && songs == map[]
      ensures Valid()
    {
      users := map[];
      songs := map[];
      friendTables, ratedTables, ratingTables := map[], map[], map[];
    }

    /**
     * Registers a new user. An ID already in use is `UserAlreadyExists`,
     * checked first; a null name or a negative age or ID is an illegal
     * argument.
     */
    method AddUser(id: int, name: Option<string>, age: int) returns (r: Outcome<TunesError>)
      requires Valid()
      modifies this
      ensures Valid()
      ensures id in old(users) ==> r == Fail(UserAlreadyExists)
      ensures id !in old(users) && (id < 0 || age < 0 || name.None?) ==> r == Fail(IllegalArgument)
      ensures r.Pass? <==> id !in old(users) && id >= 0 && age >= 0 && name.Some?
      ensures r.Pass? ==> id in users && users == old(users)[id := users[id]] && fresh(users[id])
      ensures r.Pass? ==> users[id].name == name.value && users[id].age == age
      ensures r.Pass? ==> users[id].ratedSongs == map[] && users[id].friends == map[]
      ensures r.Fail? ==> users == old(users)
      ensures songs == old(songs)
    {
      if id in users {
        return Fail(UserAlreadyExists);
      }
      if name.None? || age < 0 {
        return Fail(IllegalArgument);
      }
      var u := User.New(id, name, age);
      if u.Err? {
        return Fail(u.error);
      }
      var newUser := u.value;
      AddUserKeepsOk(users, songs, friendTables, ratedTables, ratingTables, newUser);
      users := users[id := newUser];
      friendTables := friendTables[id := map[]];
      ratedTables := ratedTables[id := map[]];
      return Pass;
    }

    /** The user with the given ID, or `UserDoesntExist`. */
    function GetUser(id: int): (r: Result<User, TunesError>)
      requires Valid()
      reads this, users.Values, songs.Values
      ensures r.Err? <==> id !in users
      ensures r.Err? ==> r.error == UserDoesntExist
      ensures r.Ok? ==> r.value.id == id && r.value in users.Values && r.value.Valid()
    {
      if id in users then ValidUser(id); Ok(users[id]) else Err(UserDoesntExist)
    }

    /** A registered user keeps the user's invariant. */
    lemma ValidUser(id: int)
      requires Valid() && id in users
      ensures users[id].id == id && users[id].Valid()
    {
      assert UserOk(friendTables, ratedTables, id);
    }

    /** A friend of a registered user is the registered user with the friend's ID. */
    lemma RegisteredFriend(id: int, f: int)
      requires Valid() && id in users && f in users[id].friends
      ensures f in users && users[id].friends[f] == users[f]
    {
      assert FriendLink(users, friendTables, id, f);
    }

    /** A registered user's rated songs are registered songs. */
    lemma RatedRegistered(id: int)
      requires Valid() && id in users
      ensures users[id].RatedSongSet() <= songs.Values
    {
      forall x | x in users[id].RatedSongSet() ensures x in songs.Values {
        var k :| k in users[id].ratedSongs && users[id].ratedSongs[k].0 == x;
        assert RatedLink(users, songs, ratedTables, ratingTables, id, k);
      }
    }

    /** `favoriteSongInCommon` between registered users is an edge of the get-along graph. */
    lemma GetAlongEdge(a: int, b: int)
      requires Valid() && a in users && b in users
      ensures users[a].Valid() && users[b].Valid()
      ensures users[a].FavoriteSongInCommon(users[b]) <==> b in GetAlongGraph(friendTables, ratedTables)[a]
    {
      ValidUser(a);
      ValidUser(b);
      GetAlongEdges(friendTables, ratedTables, a, b);
    }

    /** The song with the given ID, or `SongDoesntExist`. */
    function GetSong(id: int): (r: Result<Song, TunesError>)
      requires Valid()
      reads this, users.Values, songs.Values
      ensures r.Err? <==> id !in songs
      ensures r.Err? ==> r.error == SongDoesntExist
      ensures r.Ok? ==> r.value.id == id && r.value in songs.Values && r.value.Valid()
    {
      if id in songs then assert SongOk(ratingTables, id); Ok(songs[id]) else Err(SongDoesntExist)
    }

    /**
     * Registers a new song. An ID already in use is `SongAlreadyExists`,
     * checked first; a null name or singer, a length that is not positive or
     * a negative ID is an illegal argument.
     */
    method AddSong(id: int, name: Option<string>, length: int, singer: Option<string>) returns (r: Outcome<TunesError>)
      requires Valid()
      modifies this
      ensures Valid()
      ensures id in old(songs) ==> r == Fail(SongAlreadyExists)
      ensures id !in old(songs) && (id < 0 || length <= 0 || name.None? || singer.None?) ==> r == Fail(IllegalArgument)
      ensures r.Pass? <==> id !in old(songs) && id >= 0 && length > 0 && name.Some? && singer.Some?
      ensures r.Pass? ==> id in songs && songs == old(songs)[id := songs[id]] && fresh(songs[id])
      ensures r.Pass? ==> songs[id].name == name.value && songs[id].length == length && songs[id].singer == singer.value
      ensures r.Pass? ==> songs[id].ratings == map[]
      ensures r.Fail? ==> songs == old(songs)
      ensures users == old(users)
    {
      if id in songs {
        return Fail(SongAlreadyExists);
      }
      if name.None? || singer.None? || length <= 0 {
        return Fail(IllegalArgument);
      }
      var s := Song.New(id, name, length, singer);
      if s.Err? {
        return Fail(s.error);
      }
      var newSong := s.value;
      AddSongKeepsOk(users, songs, friendTables, ratedTables, ratingTables, newSong);
      songs := songs[id := newSong];
      ratingTables := ratingTables[id := map[]];
      return Pass;
    }

    /** Every registered song sits under its own ID. */
    ghost predicate SongsKeyed()
      reads this, songs.Values
    {
      forall k :: k in songs ==> songs[k].id == k
    }

    /**
     * The registered songs listed by the keys given for their IDs, as a
     * stream of `songs.values()` sorted by a comparator on those keys lists
     * them.
     */
    function SongsBy(keys: map<int, Key>): (r: seq<Song>)
      requires SongsKeyed() && keys.Keys == songs.Keys
      reads this, songs.Values
      ensures |r| == |songs|
      ensures forall k :: k in songs ==> songs[k] in r
      ensures forall i :: 0 <= i < |r| ==> r[i].id in songs && songs[r[i].id] == r[i]
      ensures forall i, j :: 0 <= i < j < |r| ==> r[i].id != r[j].id && KeyLe(keys[r[i].id], keys[r[j].id])
    {
      var ids := OrderedIds(keys);
      var r := ValuesAt(ids, songs);
      SongsByFacts(keys, ids, r);
      r
    }

    lemma SongsByFacts(keys: map<int, Key>, ids: seq<int>, r: seq<Song>)
      requires forall k :: k in songs ==> songs[k].id == k
      requires keys.Keys == songs.Keys
      requires |ids| == |keys| && (forall x :: x in ids <==> x in keys)
      requires forall i, j :: 0 <= i < j < |ids| ==> ids[i] != ids[j] && ids[i] in keys && ids[j] in keys && KeyLe(keys[ids[i]], keys[ids[j]])
      requires |r| == |ids| && forall i :: 0 <= i < |ids| ==> ids[i] in songs && r[i] == songs[ids[i]]
      ensures |r| == |songs|
      ensures forall k :: k in songs ==> songs[k] in r
      ensures forall i :: 0 <= i < |r| ==> r[i].id in songs && songs[r[i].id] == r[i]
      ensures forall i, j :: 0 <= i < j < |r| ==> r[i].id != r[j].id && KeyLe(keys[r[i].id], keys[r[j].id])
    {
      assert keys.Keys == songs.Keys;
      assert |keys| == |keys.Keys| == |songs.Keys| == |songs|;
      forall k | k in songs ensures songs[k] in r {
        var p := IndexOf(ids, k);
        assert r[p] == songs[k];
      }
    }

    /** The sort keys of `getMostRatedSongs`: more raters first, then shorter, then the larger ID. */
    function MostRatedKeys(): (keys: map<int, Key>)
      reads this, songs.Values
      ensures keys.Keys == songs.Keys
    {
      map k | k in songs :: Key(-(|songs[k].ratings| as real), songs[k].length as real, -k)
    }

    /**
     * The first `num` songs by number of raters, descending, then length,
     * ascending, then ID, descending; a negative `num` is rejected by the
     * stream's `limit`.
     */
    function MostRatedSongs(num: int): (r: Result<seq<Song>, TunesError>)
      requires SongsKeyed()
      reads this, songs.Values
      ensures num < 0 <==> r == Err(IllegalArgument)
      ensures r.Ok? ==> |r.value| == if num < |songs| then num else |songs|
      ensures r.Ok? ==> forall i :: 0 <= i < |r.value| ==> r.value[i] in songs.Values
      ensures r.Ok? ==> forall i, j :: 0 <= i < j < |r.value| ==> MostRatedBefore(r.value[i], r.value[j])
      ensures r.Ok? ==> forall k, i :: k in songs && songs[k] !in r.value && 0 <= i < |r.value| ==> MostRatedBefore(r.value[i], songs[k])
    {
      if num < 0 then Err(IllegalArgument)
      else
        var all := SongsBy(MostRatedKeys());
        var n := if num < |all| then num else |all|;
        var top := all[..n];
        MostRatedFacts(all, n, top);
        Ok(top)
    }

    lemma MostRatedFacts(all: seq<Song>, n: int, top: seq<Song>)
      requires 0 <= n <= |all| && top == all[..n]
      requires forall k :: k in songs ==> songs[k] in all
      requires forall i :: 0 <= i < |all| ==> all[i].id in songs && songs[all[i].id] == all[i]
      requires forall i, j :: 0 <= i < j < |all| ==> all[i].id != all[j].id && KeyLe(MostRatedKeys()[all[i].id], MostRatedKeys()[all[j].id])
      ensures forall i :: 0 <= i < |top| ==> top[i] in songs.Values
      ensures forall i, j :: 0 <= i < j < |top| ==> MostRatedBefore(top[i], top[j])
      ensures forall k, i :: k in songs && songs[k] !in top && 0 <= i < |top| ==> MostRatedBefore(top[i], songs[k])
    {
      forall i, j | 0 <= i < j < |all| ensures MostRatedBefore(all[i], all[j]) {
        assert KeyLe(MostRatedKeys()[all[i].id], MostRatedKeys()[all[j].id]);
      }
      forall i | 0 <= i < |top| ensures top[i] in songs.Values {
        assert top[i] == all[i] == songs[all[i].id];
      }
      forall k, i | k in songs && songs[k] !in top && 0 <= i < |top| ensures MostRatedBefore(top[i], songs[k]) {
        var s := songs[k];
        assert all == top + all[n..];
        var p := IndexOf(all[n..], s);
        assert all[n + p] == s;
      }
    }

    /** The sort keys of the song iterator: shorter first, then the smaller ID. */
    function ShorterKeys(): (keys: map<int, Key>)
      reads this, songs.Values
      ensures keys.Keys == songs.Keys
    {
      map k | k in songs :: Key(songs[k].length as real, k as real, 0)
    }

    /** The songs in the order the iterator yields them: every registered song once, shorter first, then the smaller ID. */
    function Iterator(): (r: seq<Song>)
      requires SongsKeyed()
      reads this, songs.Values
      ensures |r| == |songs|
      ensures forall k :: k in songs ==> songs[k] in r
      ensures forall i :: 0 <= i < |r| ==> r[i] in songs.Values
      ensures forall i, j :: 0 <= i < j < |r| ==> r[i] != r[j] && ShorterFirst(r[i], r[j])
    {
      var r := SongsBy(ShorterKeys());
      IteratorFacts(r);
      r
    }

    lemma IteratorFacts(r: seq<Song>)
      requires forall i :: 0 <= i < |r| ==> r[i].id in songs && songs[r[i].id] == r[i]
      requires forall i, j :: 0 <= i < j < |r| ==> r[i].id != r[j].id && KeyLe(ShorterKeys()[r[i].id], ShorterKeys()[r[j].id])
      ensures forall i :: 0 <= i < |r| ==> r[i] in songs.Values
      ensures forall i, j :: 0 <= i < j < |r| ==> r[i] != r[j] && ShorterFirst(r[i], r[j])
    {
      forall i, j | 0 <= i < j < |r| ensures r[i] != r[j] && ShorterFirst(r[i], r[j]) {
        assert KeyLe(ShorterKeys()[r[i].id], ShorterKeys()[r[j].id]);
      }
    }

    /**
     * The songs rated by every listed user: none for a null or empty list,
     * otherwise the first user's rated songs, narrowed by each listed user's
     * (the first included) in turn; an unknown ID is `UserDoesntExist`.
     */
    method GetIntersection(ids: Option<seq<int>>) returns (r: Result<set<Song>, TunesError>)
      requires Valid()
      ensures ids.None? || ids.value == [] ==> r == Ok({})
      ensures r.Err? <==> ids.Some? && exists i :: 0 <= i < |ids.value| && ids.value[i] !in users
      ensures r.Err? ==> r.error == UserDoesntExist
      ensures r.Ok? && ids.Some? ==> forall i :: 0 <= i < |ids.value| ==> ids.value[i] in users
      ensures r.Ok? ==> r.value <= songs.Values
      ensures r.Ok? && ids.Some? && ids.value != [] ==>
        forall x :: x in r.value <==> forall i :: 0 <= i < |ids.value| ==> x in users[ids.value[i]].RatedSongSet()
    {
      if ids.None? || |ids.value| == 0 {
        return Ok({});
      }
      var xs := ids.value;
      var first := GetUser(xs[0]);
      if first.Err? {
        return Err(first.error);
      }
      var intersection := first.value.RatedSongSet();
      RatedRegistered(xs[0]);
      var i := 0;
      while i < |xs|
        invariant 0 <= i <= |xs|
        invariant intersection <= songs.Values
        invariant forall j :: 0 <= j < i ==> xs[j] in users
        invariant forall x :: x in intersection <==> x in users[xs[0]].RatedSongSet() && forall j :: 0 <= j < i ==> x in users[xs[j]].RatedSongSet()
      {
        var u := GetUser(xs[i]);
        if u.Err? {
          return Err(u.error);
        }
        intersection := intersection * u.value.RatedSongSet();
        i := i + 1;
      }
      return Ok(intersection);
    }

    /**
     * Whether the first user can reach the second through a chain of
     * friends, each sharing a favourite song with the next; a missing user
     * is `UserDoesntExist`. A user gets along with themselves. The search is
     * breadth-first from the first user, with the second marked visited from
     * the start; a user is marked when taken off the queue, and the search
     * stops as soon as the user taken off shares a favourite song with the
     * second as friends. Friends are taken in no particular order.
     */
    method CanGetAlong(id1: int, id2: int) returns (r: Result<bool, TunesError>)
      requires Valid()
      ensures r.Err? <==> id1 !in users || id2 !in users
      ensures r.Err? ==> r.error == UserDoesntExist
      ensures r.Ok? ==> (r.value <==> Reaches(GetAlongGraph(friendTables, ratedTables), id1, id2))
    {
      var g1 := GetUser(id1);
      if g1.Err? {
        return Err(g1.error);
      }
      var g2 := GetUser(id2);
      if g2.Err? {
        return Err(g2.error);
      }
      ghost var g := GetAlongGraph(friendTables, ratedTables);
      if id1 == id2 {
        ReachesSelf(g, id1);
        return Ok(true);
      }
      SearchableGraph();
      var found := Search(g, id1, id2);
      return Ok(found);
    }

    /**
     * What the search of `canGetAlong` relies on: `g` has the registered
     * users as nodes, its edges lead from a user to friends, and
     * `favoriteSongInCommon` between registered users holds exactly along
     * its edges.
     */
    ghost predicate Searchable(g: Graph)
      reads this, users.Values
    {
      && Closed(g) && g.Keys == users.Keys
      && (forall a :: a in users ==> users[a].id == a && users[a].Valid() && g[a] <= users[a].friends.Keys <= users.Keys)
      && (forall a, b {:trigger users[a].FavoriteSongInCommon(users[b])} ::
            a in users && b in users ==> (users[a].FavoriteSongInCommon(users[b]) <==> b in g[a]))
    }

    lemma SearchableGraph()
      requires Valid()
      ensures Searchable(GetAlongGraph(friendTables, ratedTables))
    {
      var g := GetAlongGraph(friendTables, ratedTables);
      forall a | a in users ensures users[a].id == a && users[a].Valid() && g[a] <= users[a].friends.Keys <= users.Keys {
        ValidUser(a);
        forall f | f in users[a].friends ensures f in users {
          RegisteredFriend(a, f);
        }
        forall b | b in g[a] ensures b in users[a].friends {
          GetAlongEdges(friendTables, ratedTables, a, b);
        }
      }
      forall a, b | a in users && b in users
        ensures users[a].FavoriteSongInCommon(users[b]) <==> b in g[a]
      {
        GetAlongEdge(a, b);
      }
    }

    /** `favoriteSongInCommon` between two registered users, by ID: an edge of `g`. */
    function Friendly(ghost g: Graph, a: int, b: int): (r: bool)
      requires Searchable(g) && a in users && b in users
      reads this, users.Values
      ensures r <==> b in g[a]
    {
      users[a].FavoriteSongInCommon(users[b])
    }

    /**
     * The breadth-first search of `canGetAlong` from `id1`, with `id2`
     * marked visited from the start: a user is marked when taken off the
     * queue, and the search stops as soon as the user taken off shares a
     * favourite song with `id2` as friends.
     */
    method Search(ghost g: Graph, id1: int, id2: int) returns (found: bool)
      requires Searchable(g) && id1 in users && id2 in users && id1 != id2
      ensures found <==> Reaches(g, id1, id2)
    {
      var visited: set<int> := {id2};
      var queue: seq<int> := [id1];
      FrontierStart(g, id1, id2);
      assert g.Keys == users.Keys;
      while queue != []
        invariant Frontier(g, id1, id2, visited, queue)
        decreases |g.Keys - visited|, CountIn(queue, visited)
      {
        var current := queue[0];
        assert current in queue;
        if current == id2 {
          return true;
        }
        if Friendly(g, current, id2) {
          ReachesStep(g, id1, current, id2);
          return true;
        }
        var q := EnqueueFriends(g, id1, current, visited + {current}, queue[1..]);
        FrontierAdvance(g, id1, id2, visited, queue, q);
        visited, queue := visited + {current}, q;
      }
      FrontierDone(g, id1, id2, visited);
      return false;
    }

    /**
     * The inner loop of `canGetAlong`: appends to the queue each friend of
     * `current` not yet visited with whom `current` shares a favourite song.
     */
    method EnqueueFriends(ghost g: Graph, ghost id1: int, current: int, visited: set<int>, queue: seq<int>) returns (q: seq<int>)
      requires Searchable(g) && current in users && Reaches(g, id1, current)
      requires forall x :: x in queue ==> x in g && Reaches(g, id1, x)
      ensures current in g && Enqueued(g, id1, current, visited, queue, q)
    {
      var friends := users[current].friends.Keys;
      var left := friends;
      q := queue;
      while left != {}
        invariant left <= friends
        invariant forall x :: x in q ==> x in g && Reaches(g, id1, x)
        invariant forall x :: x in queue ==> x in q
        invariant forall f :: f in friends - left && f in g[current] ==> f in visited || f in q
        invariant CountIn(q, visited) == CountIn(queue, visited)
        decreases left
      {
        if forall y :: y !in left {
          assert false;
        }
        var f :| f in left;
        left := left - {f};
        if f !in visited && Friendly(g, current, f) {
          ReachesStep(g, id1, current, f);
          CountInAppend(q, visited, f);
          q := q + [f];
        }
      }
    }

    /**
     * Makes two registered users friends of each other: a missing user is
     * `UserDoesntExist`, the same user twice `SamePerson`, users who are
     * already friends `AlreadyFriends`.
     */
    method MakeFriends(id1: int, id2: int) returns (r: Outcome<TunesError>)
      requires Valid()
      modifies this, users.Values
      ensures Valid()
      ensures users == old(users) && songs == old(songs)
      ensures id1 !in users || id2 !in users ==> r == Fail(UserDoesntExist)
      ensures id1 in users && id2 in users && id1 == id2 ==> r == Fail(SamePerson)
      ensures id1 in users && id2 in users && id1 != id2 && id2 in old(friendTables[id1]) ==> r == Fail(AlreadyFriends)
      ensures r.Pass? <==> id1 in users && id2 in users && id1 != id2 && id2 !in old(friendTables[id1])
      ensures r.Pass? ==> friendTables == old(friendTables)[id1 := old(friendTables[id1])[id2 := users[id2]]][id2 := old(friendTables[id2])[id1 := users[id1]]]
      ensures r.Fail? ==> friendTables == old(friendTables)
      ensures ratedTables == old(ratedTables) && ratingTables == old(ratingTables)
    {
      var g1 := GetUser(id1);
      if g1.Err? {
        return Fail(g1.error);
      }
      var g2 := GetUser(id2);
      if g2.Err? {
        return Fail(g2.error);
      }
      var user1, user2 := g1.value, g2.value;
      if user1.id == user2.id {
        return Fail(SamePerson);
      }
      if user2.id in user1.friends {
        return Fail(AlreadyFriends);
      }
      Befriend(user1, user2);
      return Pass;
    }

    /**
     * The successful part of `MakeFriends`: the first user's `addFriend`
     * accepts the second, and the second's then accepts the first.
     */
    method Befriend(user1: User, user2: User)
      requires Valid()
      requires user1.id in users && users[user1.id] == user1 && user2.id in users && users[user2.id] == user2
      requires user1.id != user2.id && user2.id !in user1.friends
      modifies this, user1, user2
      ensures Valid()
      ensures users == old(users) && songs == old(songs)
      ensures friendTables == old(friendTables)[user1.id := old(user1.friends)[user2.id := user2]][user2.id := old(user2.friends)[user1.id := user1]]
      ensures ratedTables == old(ratedTables) && ratingTables == old(ratingTables)
    {
      var id1, id2 := user1.id, user2.id;
      assert UserOk(friendTables, ratedTables, id1) && UserOk(friendTables, ratedTables, id2);
      BefriendKeepsOk(users, songs, friendTables, ratedTables, ratingTables, id1, id2);
      Link(user1, user2);
      ghost var ft := friendTables[id1 := user1.friends][id2 := user2.friends];
      forall k | k in users ensures k in ft && users[k].friends == ft[k] && users[k].ratedSongs == ratedTables[k] {
        if k != id1 && k != id2 {
          assert users[k] != user1 && users[k] != user2;
        }
      }
      Sync(ft, ratedTables, ratingTables);
    }

    /** The first user's `addFriend`, which accepts the second, then the second's. */
    static method Link(user1: User, user2: User)
      requires user1.Valid() && user2.Valid()
      requires user1.id != user2.id && user2.id !in user1.friends && user1.id !in user2.friends
      modifies user1, user2
      ensures user1.Valid() && user2.Valid()
      ensures user1.friends == old(user1.friends)[user2.id := user2]
      ensures user2.friends == old(user2.friends)[user1.id := user1]
      ensures user1.ratedSongs == old(user1.ratedSongs) && user2.ratedSongs == old(user2.ratedSongs)
    {
      var added := user1.AddFriend(user2);
      if added.Err? {
        assert false;
      }
      var back := user2.AddFriend(user1);
      if back.Err? {
        assert false;
      }
    }

    /**
     * Records a user's rate of a song on both sides. A missing user is
     * `UserDoesntExist`, then a missing song `SongDoesntExist`; the user then
     * checks the rate (`IllegalRateValue`) and whether the song was already
     * rated (`SongAlreadyRated`), and only then does the song record it.
     */
    method RateSong(userId: int, songId: int, rate: int) returns (r: Outcome<TunesError>)
      requires Valid()
      modifies this, users.Values, songs.Values
      ensures Valid()
      ensures users == old(users) && songs == old(songs)
      ensures userId !in users ==> r == Fail(UserDoesntExist)
      ensures userId in users && songId !in songs ==> r == Fail(SongDoesntExist)
      ensures userId in users && songId in songs && !ValidRate(rate) ==> r == Fail(IllegalRateValue)
      ensures userId in users && songId in songs && ValidRate(rate) && songId in old(ratedTables[userId]) ==> r == Fail(SongAlreadyRated)
      ensures r.Pass? <==> userId in users && songId in songs && ValidRate(rate) && songId !in old(ratedTables[userId])
      ensures r.Pass? ==> ratedTables == old(ratedTables)[userId := old(ratedTables[userId])[songId := (songs[songId], rate)]]
      ensures r.Pass? ==> ratingTables == old(ratingTables)[songId := old(ratingTables[songId])[userId := (users[userId], rate)]]
      ensures r.Fail? ==> ratedTables == old(ratedTables) && ratingTables == old(ratingTables)
      ensures friendTables == old(friendTables)
    {
      var gu := GetUser(userId);
      if gu.Err? {
        return Fail(gu.error);
      }
      var gs := GetSong(songId);
      if gs.Err? {
        return Fail(gs.error);
      }
      var user, song := gu.value, gs.value;
      if !ValidRate(rate) {
        return Fail(IllegalRateValue);
      }
      if song.id in user.ratedSongs {
        return Fail(SongAlreadyRated);
      }
      Record(user, song, rate);
      return Pass;
    }

    /**
     * The successful part of `RateSong`: the user's `rateSong` accepts the
     * rate, and the song's then records it.
     */
    method Record(user: User, song: Song, rate: int)
      requires Valid()
      requires user.id in users && users[user.id] == user && song.id in songs && songs[song.id] == song
      requires ValidRate(rate) && song.id !in user.ratedSongs
      modifies this, user, song
      ensures Valid()
      ensures users == old(users) && songs == old(songs)
      ensures ratedTables == old(ratedTables)[user.id := old(user.ratedSongs)[song.id := (song, rate)]]
      ensures ratingTables == old(ratingTables)[song.id := old(song.ratings)[user.id := (user, rate)]]
      ensures friendTables == old(friendTables)
    {
      var uid, sid := user.id, song.id;
      assert UserOk(friendTables, ratedTables, uid) && SongOk(ratingTables, sid);
      RateKeepsOk(users, songs, friendTables, ratedTables, ratingTables, uid, sid, rate);
      RateBoth(user, song, rate);
      ghost var ut, st := ratedTables[uid := user.ratedSongs], ratingTables[sid := song.ratings];
      forall k | k in users ensures k in ut && users[k].friends == friendTables[k] && users[k].ratedSongs == ut[k] {
        if k != uid {
          assert users[k] != user;
        }
      }
      forall k | k in songs ensures k in st && songs[k].ratings == st[k] {
        if k != sid {
          assert songs[k] != song;
        }
      }
      Sync(friendTables, ut, st);
    }

    /** The user's `rateSong`, which accepts the rate, then the song's. */
    static method RateBoth(user: User, song: Song, rate: int)
      requires user.Valid() && song.Valid()
      requires ValidRate(rate) && song.id !in user.ratedSongs && user.id !in song.ratings
      modifies user, song
      ensures user.Valid() && song.Valid()
      ensures user.ratedSongs == old(user.ratedSongs)[song.id := (song, rate)]
      ensures song.ratings == old(song.ratings)[user.id := (user, rate)]
      ensures user.friends == old(user.friends)
    {
      var rated := user.RateSong(song, rate);
      if rated.Err? {
        assert false;
      }
      var recorded := song.RateSong(user, rate);
      if recorded.Fail? {
        assert false;
      }
    }
  }
}
