/** The album resolvers (app/graphql/resolvers/album.ts): the filtered listing
    ordered by title, the single-album query, `addAlbum` with its
    deduplication and defaults, the idempotent like and unlike mutations, and
    the derived `isLiked` field. */
module Catalog {
  import opened Wrappers
  import opened Text
  import opened Store

  // ---------------------------------------------------------------------------
  // isLiked
  // ---------------------------------------------------------------------------

  /** The user ids of the like rows loaded with an album: only the caller's
      row when there is a caller, every row otherwise. */
  function LikedBy(likes: set<Like>, albumId: int, userId: Option<UserId>): set<UserId> {
    set l | l in likes && l.albumId == albumId && (!Truthy(userId) || l.userId == userId.value) :: l.userId
  }

  /** An album with its tracks and its like rows loaded for the caller. */
  function Annotate(likes: set<Like>, a: Album, userId: Option<UserId>): AlbumView {
    AlbumView(a, Some(LikedBy(likes, a.id, userId)), true)
  }

  /** The `Album.isLiked` field: false without a caller or when the like rows
      were not loaded; otherwise whether any row was loaded. */
  function IsLiked(view: AlbumView, userId: Option<UserId>): (liked: bool)
    ensures !Truthy(userId) || view.likedBy.None? ==> !liked
    ensures Truthy(userId) && view.likedBy.Some? ==> (liked <==> view.likedBy.value != {})
  {
    if !Truthy(userId) || view.likedBy.None? then false else view.likedBy.value != {}
  }

  /** For an album loaded with its rows, `isLiked` is exactly the existence of
      the caller's like row, and never true for an anonymous caller. */
  lemma IsLikedIffLikeRow(likes: set<Like>, a: Album, userId: Option<UserId>)
    ensures IsLiked(Annotate(likes, a, userId), userId) <==>
              Truthy(userId) && Like(userId.value, a.id) in likes
  {
    if Truthy(userId) && Like(userId.value, a.id) in likes {
      assert userId.value in LikedBy(likes, a.id, userId);
    }
  }

  // ---------------------------------------------------------------------------
  // The listing filter
  // ---------------------------------------------------------------------------

  /** The `filter` argument's fields, each optional. */
  datatype Filter = Filter(
    genre: Option<string>,
    artist: Option<string>,
    releaseYear: Option<int>,
    likedOnly: Option<bool>)

  const NoFilter := Filter(None, None, None, None)

  /** The `filter` argument itself: omitted (defaulted to `{}`), an explicit
      null, or an object. */
  datatype FilterArg = Omitted | NullFilter | Given(filter: Filter)

  /** The filter the resolver destructures: `{}` when the argument is omitted. */
  function Effective(arg: FilterArg): Filter {
    match arg
    case Given(f) => f
    case _ => NoFilter
  }

  /** The Prisma `where` object the resolver builds. */
  datatype Where = Where(
    genre: Option<string>,
    artistContains: Option<string>,
    releaseYear: Option<int>,
    likedBy: Option<UserId>)

  /** Each field constrains the listing only when truthy: the empty string and
      the year 0 mean "no filter", and `likedOnly` is honoured only for a caller. */
  function BuildWhere(f: Filter, userId: Option<UserId>): (w: Where)
    ensures w.genre == (if Truthy(f.genre) then f.genre else None)
    ensures w.artistContains == (if Truthy(f.artist) then f.artist else None)
    ensures w.releaseYear.Some? <==> f.releaseYear.Some? && f.releaseYear.value != 0
    ensures w.releaseYear.Some? ==> w.releaseYear == f.releaseYear
    ensures w.likedBy.Some? <==> f.likedOnly == Some(true) && Truthy(userId)
    ensures w.likedBy.Some? ==> w.likedBy == userId
  {
    Where(
      if Truthy(f.genre) then f.genre else None,
      if Truthy(f.artist) then f.artist else None,
      if f.releaseYear.Some? && f.releaseYear.value != 0 then f.releaseYear else None,
      if f.likedOnly == Some(true) && Truthy(userId) then userId else None)
  }

  /** How the store evaluates a `where`: exact genre and year, case-insensitive
      artist substring, and "some like row by this user". */
  predicate Satisfies(w: Where, a: Album, likes: set<Like>) {
    && (w.genre.Some? ==> a.genre == w.genre.value)
    && (w.artistContains.Some? ==> Contains(ToLower(a.artist), ToLower(w.artistContains.value)))
    && (w.releaseYear.Some? ==> a.releaseYear == w.releaseYear.value)
    && (w.likedBy.Some? ==> Like(w.likedBy.value, a.id) in likes)
  }

  /** The albums satisfying `w`, in table order. */
  function Matching(albums: seq<Album>, w: Where, likes: set<Like>): (r: seq<Album>)
    ensures forall a :: a in r <==> a in albums && Satisfies(w, a, likes)
    ensures |r| <= |albums|
    decreases |albums|
  {
    if |albums| == 0 then []
    else
      var rest := Matching(albums[1..], w, likes);
      assert forall a :: a in albums <==> a == albums[0] || a in albums[1..];
      if Satisfies(w, albums[0], likes) then [albums[0]] + rest else rest
  }

  function AnnotateAll(albums: seq<Album>, likes: set<Like>, userId: Option<UserId>): (r: seq<AlbumView>)
    ensures |r| == |albums|
    ensures forall i :: 0 <= i < |albums| ==> r[i] == Annotate(likes, albums[i], userId)
  {
    seq(|albums|, i requires 0 <= i < |albums| => Annotate(likes, albums[i], userId))
  }

  // ---------------------------------------------------------------------------
  // Ordering by title
  // ---------------------------------------------------------------------------

  /** Ascending title order: lexicographic on character codes. */
  predicate TitleLe(a: string, b: string)
    decreases |a|
  {
    |a| == 0 || (|b| > 0 && (a[0] < b[0] || (a[0] == b[0] && TitleLe(a[1..], b[1..]))))
  }

  lemma {:induction false} TitleLeTotal(a: string, b: string)
    ensures TitleLe(a, b) || TitleLe(b, a)
    decreases |a|
  {
    if |a| > 0 && |b| > 0 && a[0] == b[0] {
      TitleLeTotal(a[1..], b[1..]);
    }
  }

  lemma {:induction false} TitleLeTransitive(a: string, b: string, c: string)
    requires TitleLe(a, b) && TitleLe(b, c)
    ensures TitleLe(a, c)
    decreases |a|
  {
    if |a| > 0 && a[0] == b[0] && b[0] == c[0] {
      TitleLeTransitive(a[1..], b[1..], c[1..]);
    }
  }

  predicate SortedByTitle(vs: seq<AlbumView>) {
    forall i, j :: 0 <= i < j < |vs| ==> TitleLe(vs[i].album.title, vs[j].album.title)
  }

  lemma PrependSorted(v: AlbumView, xs: seq<AlbumView>)
    requires SortedByTitle(xs)
    requires forall k :: 0 <= k < |xs| ==> TitleLe(v.album.title, xs[k].album.title)
    ensures SortedByTitle([v] + xs)
  {
    var r := [v] + xs;
    forall i, j | 0 <= i < j < |r|
      ensures TitleLe(r[i].album.title, r[j].album.title)
    {
      if i > 0 {
        assert r[i] == xs[i - 1] && r[j] == xs[j - 1];
      } else {
        assert r[j] == xs[j - 1];
      }
    }
  }

  /** Places `v` before the first view whose title is not smaller. */
  function Insert(v: AlbumView, xs: seq<AlbumView>): (r: seq<AlbumView>)
    requires SortedByTitle(xs)
    ensures SortedByTitle(r)
    ensures multiset(r) == multiset(xs) + multiset{v}
    decreases |xs|
  {
    if |xs| == 0 then [v]
    else if TitleLe(v.album.title, xs[0].album.title) then
      assert forall k :: 0 <= k < |xs| ==> TitleLe(v.album.title, xs[k].album.title) by {
        forall k | 0 <= k < |xs|
          ensures TitleLe(v.album.title, xs[k].album.title)
        {
          if k > 0 {
            TitleLeTransitive(v.album.title, xs[0].album.title, xs[k].album.title);
          }
        }
      }
      PrependSorted(v, xs);
      [v] + xs
    else
      var tail := Insert(v, xs[1..]);
      assert xs == [xs[0]] + xs[1..];
      assert forall k :: 0 <= k < |tail| ==> TitleLe(xs[0].album.title, tail[k].album.title) by {
        TitleLeTotal(v.album.title, xs[0].album.title);
        forall k | 0 <= k < |tail|
          ensures TitleLe(xs[0].album.title, tail[k].album.title)
        {
          assert tail[k] in multiset(xs[1..]) + multiset{v};
          if tail[k] != v {
            assert tail[k] in xs[1..];
            var m :| 0 <= m < |xs[1..]| && xs[1..][m] == tail[k];
            assert xs[m + 1] == tail[k];
          }
        }
      }
      PrependSorted(xs[0], tail);
      [xs[0]] + tail
  }

  /** Insertion sort by title: an ordered permutation of its input. */
  function SortByTitle(xs: seq<AlbumView>): (r: seq<AlbumView>)
    ensures SortedByTitle(r)
    ensures multiset(r) == multiset(xs)
    decreases |xs|
  {
    if |xs| == 0 then []
    else
      assert xs == [xs[0]] + xs[1..];
      Insert(xs[0], SortByTitle(xs[1..]))
  }

  // ---------------------------------------------------------------------------
  // Queries
  // ---------------------------------------------------------------------------

  /** The message of the TypeError an explicit null filter raises when it is destructured. */
  const NullFilterMessage := "Cannot destructure property 'genre' of 'filter' as it is null."

  /** The `albums` query: the albums satisfying the filter, each loaded with
      the caller's like rows, ordered by title ascending. */
  function Albums(db: Db, arg: FilterArg, userId: Option<UserId>): (r: Result<seq<AlbumView>>)
    ensures arg.NullFilter? <==> r.Err?
    ensures r.Ok? ==> SortedByTitle(r.value)
    ensures r.Ok? ==>
              var w := BuildWhere(Effective(arg), userId);
              multiset(r.value) == multiset(AnnotateAll(Matching(db.albums, w, db.likes), db.likes, userId))
  {
    if arg.NullFilter? then Err(NullFilterMessage)
    else
      var w := BuildWhere(Effective(arg), userId);
      Ok(SortByTitle(AnnotateAll(Matching(db.albums, w, db.likes), db.likes, userId)))
  }

  /** Every listed album satisfies the filter, comes from the table, and
      carries the like state of the caller; every satisfying album is listed. */
  lemma AlbumsMembership(db: Db, f: Filter, userId: Option<UserId>, v: AlbumView)
    ensures var r := Albums(db, Given(f), userId).value;
            v in r <==>
              && v.album in db.albums
              && Satisfies(BuildWhere(f, userId), v.album, db.likes)
              && v == Annotate(db.likes, v.album, userId)
  {
    var w := BuildWhere(f, userId);
    var m := Matching(db.albums, w, db.likes);
    var annotated := AnnotateAll(m, db.likes, userId);
    var r := Albums(db, Given(f), userId).value;
    assert v in r <==> v in multiset(annotated);
    if v in annotated {
      var i :| 0 <= i < |annotated| && annotated[i] == v;
      assert m[i] in m;
    }
    if v.album in db.albums && Satisfies(w, v.album, db.likes) && v == Annotate(db.likes, v.album, userId) {
      var i :| 0 <= i < |m| && m[i] == v.album;
      assert annotated[i] == v;
    }
  }

  /** `likedOnly` is ignored for an anonymous caller, whatever the other fields. */
  lemma LikedOnlyIgnoredWhenAnonymous(db: Db, f: Filter, userId: Option<UserId>)
    requires !Truthy(userId)
    ensures Albums(db, Given(f.(likedOnly := Some(true))), userId) ==
            Albums(db, Given(f.(likedOnly := None)), userId)
  {
    SameWhereSameListing(db, f.(likedOnly := Some(true)), f.(likedOnly := None), userId);
  }

  /** With a caller, `likedOnly` alone lists exactly the albums the caller
      liked, each reported as liked. */
  lemma LikedOnlyListsLikedAlbums(db: Db, userId: Option<UserId>, v: AlbumView)
    requires Truthy(userId)
    ensures var r := Albums(db, Given(NoFilter.(likedOnly := Some(true))), userId).value;
            v in r <==>
              v.album in db.albums && Like(userId.value, v.album.id) in db.likes
              && v == Annotate(db.likes, v.album, userId)
    ensures var r := Albums(db, Given(NoFilter.(likedOnly := Some(true))), userId).value;
            forall k :: 0 <= k < |r| ==> IsLiked(r[k], userId)
  {
    var f := NoFilter.(likedOnly := Some(true));
    var r := Albums(db, Given(f), userId).value;
    AlbumsMembership(db, f, userId, v);
    forall k | 0 <= k < |r|
      ensures IsLiked(r[k], userId)
    {
      AlbumsMembership(db, f, userId, r[k]);
      IsLikedIffLikeRow(db.likes, r[k].album, userId);
    }
  }

  /** The listing depends on the filter only through the `where` it builds. */
  lemma SameWhereSameListing(db: Db, f1: Filter, f2: Filter, userId: Option<UserId>)
    requires BuildWhere(f1, userId) == BuildWhere(f2, userId)
    ensures Albums(db, Given(f1), userId) == Albums(db, Given(f2), userId)
  {
  }

  /** An empty genre, an empty artist and the year 0 filter nothing. */
  lemma FalsyFieldsFilterNothing(db: Db, f: Filter, userId: Option<UserId>)
    ensures Albums(db, Given(f.(genre := Some(""))), userId) == Albums(db, Given(f.(genre := None)), userId)
    ensures Albums(db, Given(f.(artist := Some(""))), userId) == Albums(db, Given(f.(artist := None)), userId)
    ensures Albums(db, Given(f.(releaseYear := Some(0))), userId) ==
            Albums(db, Given(f.(releaseYear := None)), userId)
  {
    SameWhereSameListing(db, f.(genre := Some("")), f.(genre := None), userId);
    SameWhereSameListing(db, f.(artist := Some("")), f.(artist := None), userId);
    SameWhereSameListing(db, f.(releaseYear := Some(0)), f.(releaseYear := None), userId);
  }

  /** The `album` query: the album with that id, loaded with the caller's like rows. */
  function AlbumById(db: Db, id: int, userId: Option<UserId>): (r: Option<AlbumView>)
    ensures r.None? <==> forall i :: 0 <= i < |db.albums| ==> db.albums[i].id != id
    ensures r.Some? ==> r.value.album in db.albums && r.value.album.id == id
    ensures r.Some? ==> (IsLiked(r.value, userId) <==> Truthy(userId) && Like(userId.value, id) in db.likes)
  {
    var found := FindAlbum(db.albums, id);
    if found.None? then None
    else
      IsLikedIffLikeRow(db.likes, found.value, userId);
      Some(Annotate(db.likes, found.value, userId))
  }

  // ---------------------------------------------------------------------------
  // Like and unlike
  // ---------------------------------------------------------------------------

  const LoginToLike := "You must be logged in to like an album"
  const LoginToUnlike := "You must be logged in to unlike an album"
  const AlbumNotFound := "Album not found"

  /** The `likeAlbum` mutation: adds the caller's like row if it is missing and
      returns the album reported as liked. */
  function LikeAlbum(db: Db, albumId: int, userId: Option<UserId>): (r: Result<(Db, AlbumView)>)
    ensures !Truthy(userId) ==> r == Err(LoginToLike)
    ensures Truthy(userId) && FindAlbum(db.albums, albumId).None? ==> r == Err(AlbumNotFound)
    ensures Truthy(userId) && FindAlbum(db.albums, albumId).Some? ==> r.Ok?
    ensures r.Ok? ==> r.value.0 == db.(likes := db.likes + {Like(userId.value, albumId)})
    ensures r.Ok? ==> r.value.1.album.id == albumId && r.value.1.album in db.albums
    ensures r.Ok? ==> IsLiked(r.value.1, userId)
  {
    if !Truthy(userId) then Err(LoginToLike)
    else
      var found := FindAlbum(db.albums, albumId);
      if found.None? then Err(AlbumNotFound)
      else
        var db' := db.(likes := db.likes + {Like(userId.value, albumId)});
        IsLikedIffLikeRow(db'.likes, found.value, userId);
        Ok((db', Annotate(db'.likes, found.value, userId)))
  }

  /** The `unlikeAlbum` mutation: deletes the caller's like row if there is one
      and returns the album reported as not liked. */
  function UnlikeAlbum(db: Db, albumId: int, userId: Option<UserId>): (r: Result<(Db, AlbumView)>)
    ensures !Truthy(userId) ==> r == Err(LoginToUnlike)
    ensures Truthy(userId) && FindAlbum(db.albums, albumId).None? ==> r == Err(AlbumNotFound)
    ensures Truthy(userId) && FindAlbum(db.albums, albumId).Some? ==> r.Ok?
    ensures r.Ok? ==> r.value.0 == db.(likes := db.likes - {Like(userId.value, albumId)})
    ensures r.Ok? ==> r.value.1.album.id == albumId && r.value.1.album in db.albums
    ensures r.Ok? ==> !IsLiked(r.value.1, userId)
  {
    if !Truthy(userId) then Err(LoginToUnlike)
    else
      var found := FindAlbum(db.albums, albumId);
      if found.None? then Err(AlbumNotFound)
      else
        var db' := db.(likes := db.likes - {Like(userId.value, albumId)});
        IsLikedIffLikeRow(db'.likes, found.value, userId);
        Ok((db', Annotate(db'.likes, found.value, userId)))
  }

  /** A rejected like or unlike leaves the like rows as they were. */
  lemma RejectedTogglesChangeNothing(db: Db, albumId: int, userId: Option<UserId>)
    requires !Truthy(userId) || FindAlbum(db.albums, albumId).None?
    ensures LikeAlbum(db, albumId, userId).Err? && UnlikeAlbum(db, albumId, userId).Err?
  {
  }

  /** Liking twice leaves exactly one row and both calls report the album liked. */
  lemma LikeIsIdempotent(db: Db, albumId: int, userId: Option<UserId>)
    requires LikeAlbum(db, albumId, userId).Ok?
    ensures var (db1, v1) := LikeAlbum(db, albumId, userId).value;
            && LikeAlbum(db1, albumId, userId).Ok?
            && LikeAlbum(db1, albumId, userId).value == (db1, v1)
            && Like(userId.value, albumId) in db1.likes
            && IsLiked(v1, userId)
  {
    var (db1, v1) := LikeAlbum(db, albumId, userId).value;
    assert db1.likes + {Like(userId.value, albumId)} == db1.likes;
  }

  /** Unliking twice is the same as unliking once, and leaves no row. */
  lemma UnlikeIsIdempotent(db: Db, albumId: int, userId: Option<UserId>)
    requires UnlikeAlbum(db, albumId, userId).Ok?
    ensures var (db1, v1) := UnlikeAlbum(db, albumId, userId).value;
            && UnlikeAlbum(db1, albumId, userId).Ok?
            && UnlikeAlbum(db1, albumId, userId).value == (db1, v1)
            && Like(userId.value, albumId) !in db1.likes
            && !IsLiked(v1, userId)
  {
    var (db1, v1) := UnlikeAlbum(db, albumId, userId).value;
    assert db1.likes - {Like(userId.value, albumId)} == db1.likes;
  }

  /** Unliking an album never liked creates nothing and changes nothing. */
  lemma UnlikeNeverLikedIsNoOp(db: Db, albumId: int, userId: Option<UserId>)
    requires UnlikeAlbum(db, albumId, userId).Ok?
    requires Like(userId.value, albumId) !in db.likes
    ensures UnlikeAlbum(db, albumId, userId).value.0 == db
  {
    assert db.likes - {Like(userId.value, albumId)} == db.likes;
  }

  /** `like; like; unlike` and `like; unlike; unlike` both end with no row. */
  lemma ToggleSequencesEndUnliked(db: Db, albumId: int, userId: Option<UserId>)
    requires LikeAlbum(db, albumId, userId).Ok?
    ensures var db1 := LikeAlbum(db, albumId, userId).value.0;
            var db2 := LikeAlbum(db1, albumId, userId).value.0;
            var r3 := UnlikeAlbum(db2, albumId, userId);
            r3.Ok? && Like(userId.value, albumId) !in r3.value.0.likes && !IsLiked(r3.value.1, userId)
    ensures var db1 := LikeAlbum(db, albumId, userId).value.0;
            var db2 := UnlikeAlbum(db1, albumId, userId).value.0;
            var r3 := UnlikeAlbum(db2, albumId, userId);
            r3.Ok? && Like(userId.value, albumId) !in r3.value.0.likes && !IsLiked(r3.value.1, userId)
  {
  }

  /** A toggle touches only the caller's row for that album. */
  lemma TogglesTouchOnlyOwnRow(db: Db, albumId: int, userId: Option<UserId>, other: Like)
    requires other != Like(userId.GetOr(""), albumId)
    ensures LikeAlbum(db, albumId, userId).Ok? ==>
              (other in LikeAlbum(db, albumId, userId).value.0.likes <==> other in db.likes)
    ensures UnlikeAlbum(db, albumId, userId).Ok? ==>
              (other in UnlikeAlbum(db, albumId, userId).value.0.likes <==> other in db.likes)
  {
  }

  /** Toggles keep the store's integrity. */
  lemma TogglesPreserveValid(db: Db, albumId: int, userId: Option<UserId>)
    requires Valid(db)
    ensures LikeAlbum(db, albumId, userId).Ok? ==> Valid(LikeAlbum(db, albumId, userId).value.0)
    ensures UnlikeAlbum(db, albumId, userId).Ok? ==> Valid(UnlikeAlbum(db, albumId, userId).value.0)
  {
    if LikeAlbum(db, albumId, userId).Ok? {
      var found := FindAlbum(db.albums, albumId).value;
      var i :| 0 <= i < |db.albums| && db.albums[i] == found;
      assert db.albums[i].id == albumId;
    }
  }

  // ---------------------------------------------------------------------------
  // addAlbum
  // ---------------------------------------------------------------------------

  datatype TrackInput = TrackInput(name: string, artist: string, duration: Option<int>, url: Option<string>)

  datatype AlbumInput = AlbumInput(
    title: string,
    artist: string,
    albumCover: Option<string>,
    largeAlbumCover: Option<string>,
    albumUrl: Option<string>,
    genre: Option<string>,
    releaseYear: Option<int>,
    tracks: Option<seq<TrackInput>>)

  const UnknownGenre := "Unknown"

  /** `findFirst` on exact title and artist. */
  function FindByTitleArtist(albums: seq<Album>, title: string, artist: string): (r: Option<Album>)
    ensures r.Some? ==> r.value in albums && r.value.title == title && r.value.artist == artist
    ensures r.None? <==>
              forall i :: 0 <= i < |albums| ==> !(albums[i].title == title && albums[i].artist == artist)
    decreases |albums|
  {
    if |albums| == 0 then None
    else if albums[0].title == title && albums[0].artist == artist then Some(albums[0])
    else FindByTitleArtist(albums[1..], title, artist)
  }

  /** The nested track rows: consecutive ids from `firstId`, owned by `albumId`. */
  function CreateTracks(inputs: seq<TrackInput>, firstId: int, albumId: int): (r: seq<Track>)
    ensures |r| == |inputs|
    ensures forall k :: 0 <= k < |r| ==>
              && r[k].id == firstId + k && r[k].albumId == albumId
              && r[k].name == inputs[k].name && r[k].artist == inputs[k].artist
              && r[k].duration == inputs[k].duration && r[k].url == inputs[k].url
  {
    seq(|inputs|, k requires 0 <= k < |inputs| =>
      Track(firstId + k, inputs[k].name, inputs[k].artist, inputs[k].duration, inputs[k].url, albumId))
  }

  /** The album row `addAlbum` creates from its input when nothing matches. */
  function NewAlbum(db: Db, input: AlbumInput, currentYear: int): Album {
    Album(
      db.nextAlbumId,
      input.title,
      input.artist,
      if Truthy(input.genre) then input.genre.value else UnknownGenre,
      if input.releaseYear.Some? && input.releaseYear.value != 0 then input.releaseYear.value else currentYear,
      Some(input.albumCover.GetOr("")),
      Some(input.largeAlbumCover.GetOr("")),
      Some(input.albumUrl.GetOr("")),
      CreateTracks(input.tracks.GetOr([]), db.nextTrackId, db.nextAlbumId))
  }

  /** The `addAlbum` mutation: an album with the same title and artist is
      returned unchanged (without its like rows or its tracks) and nothing is
      created;
      otherwise a new album is created with the defaults filled in.
      `currentYear` is the server clock's year. */
  function AddAlbum(db: Db, input: AlbumInput, userId: Option<UserId>, currentYear: int): (r: (Db, AlbumView))
    ensures FindByTitleArtist(db.albums, input.title, input.artist).Some? ==>
              r.0 == db && r.1.likedBy.None? && !r.1.tracksLoaded && r.1.album in db.albums
    ensures r.1.album.title == input.title && r.1.album.artist == input.artist
    ensures !IsLiked(r.1, userId)
    ensures FindByTitleArtist(db.albums, input.title, input.artist).None? ==>
              && r.0.albums == db.albums + [r.1.album]
              && r.0.likes == db.likes && r.0.users == db.users
              && r.1.album.id == db.nextAlbumId
              && r.1.album.genre == (if Truthy(input.genre) then input.genre.value else UnknownGenre)
              && r.1.album.releaseYear ==
                   (if input.releaseYear.Some? && input.releaseYear.value != 0
                    then input.releaseYear.value else currentYear)
              && r.1.album.albumCover == Some(input.albumCover.GetOr(""))
              && r.1.album.largeAlbumCover == Some(input.largeAlbumCover.GetOr(""))
              && r.1.album.albumUrl == Some(input.albumUrl.GetOr(""))
              && r.1.album.tracks == CreateTracks(input.tracks.GetOr([]), db.nextTrackId, db.nextAlbumId)
              && r.1.tracksLoaded
              && r.1.likedBy == (if Truthy(userId) then Some({}) else None)
  {
    var existing := FindByTitleArtist(db.albums, input.title, input.artist);
    if existing.Some? then (db, AlbumView(existing.value, None, false))
    else
      var album := NewAlbum(db, input, currentYear);
      var db' := db.(albums := db.albums + [album],
                     nextAlbumId := db.nextAlbumId + 1,
                     nextTrackId := db.nextTrackId + |album.tracks|);
      (db', AlbumView(album, if Truthy(userId) then Some({}) else None, true))
  }

  /** Number of albums with this title and artist. */
  function CountTitleArtist(albums: seq<Album>, title: string, artist: string): nat
    decreases |albums|
  {
    if |albums| == 0 then 0
    else (if albums[0].title == title && albums[0].artist == artist then 1 else 0)
         + CountTitleArtist(albums[1..], title, artist)
  }

  lemma {:induction false} CountAppend(albums: seq<Album>, a: Album, title: string, artist: string)
    ensures CountTitleArtist(albums + [a], title, artist) ==
            CountTitleArtist(albums, title, artist) + (if a.title == title && a.artist == artist then 1 else 0)
    decreases |albums|
  {
    if |albums| > 0 {
      assert (albums + [a])[1..] == albums[1..] + [a];
      CountAppend(albums[1..], a, title, artist);
    }
  }

  lemma {:induction false} CountZeroWhenAbsent(albums: seq<Album>, title: string, artist: string)
    requires FindByTitleArtist(albums, title, artist).None?
    ensures CountTitleArtist(albums, title, artist) == 0
    decreases |albums|
  {
    if |albums| > 0 {
      CountZeroWhenAbsent(albums[1..], title, artist);
    }
  }

  /** Adding the same album twice yields one album, returned both times. */
  lemma AddAlbumTwiceDeduplicates(db: Db, input: AlbumInput, u1: Option<UserId>, u2: Option<UserId>, year: int)
    requires FindByTitleArtist(db.albums, input.title, input.artist).None?
    ensures var (db1, v1) := AddAlbum(db, input, u1, year);
            var (db2, v2) := AddAlbum(db1, input, u2, year);
            && v2.album.id == v1.album.id
            && db2 == db1
            && CountTitleArtist(db2.albums, input.title, input.artist) == 1
  {
    var (db1, v1) := AddAlbum(db, input, u1, year);
    CountZeroWhenAbsent(db.albums, input.title, input.artist);
    CountAppend(db.albums, v1.album, input.title, input.artist);
    FindAfterAppend(db.albums, v1.album, input.title, input.artist);
  }

  lemma {:induction false} FindAfterAppend(albums: seq<Album>, a: Album, title: string, artist: string)
    requires FindByTitleArtist(albums, title, artist).None?
    requires a.title == title && a.artist == artist
    ensures FindByTitleArtist(albums + [a], title, artist) == Some(a)
    decreases |albums|
  {
    if |albums| > 0 {
      assert (albums + [a])[1..] == albums[1..] + [a];
      FindAfterAppend(albums[1..], a, title, artist);
    }
  }

  /** `addAlbum` keeps the store's integrity. */
  lemma AddAlbumPreservesValid(db: Db, input: AlbumInput, userId: Option<UserId>, year: int)
    requires Valid(db)
    ensures Valid(AddAlbum(db, input, userId, year).0)
  {
    var (db', v) := AddAlbum(db, input, userId, year);
    if FindByTitleArtist(db.albums, input.title, input.artist).None? {
      assert db'.albums == db.albums + [v.album];
      forall l | l in db'.likes
        ensures exists i :: 0 <= i < |db'.albums| && db'.albums[i].id == l.albumId
      {
        var i :| 0 <= i < |db.albums| && db.albums[i].id == l.albumId;
        assert db'.albums[i] == db.albums[i];
      }
    }
  }
}
