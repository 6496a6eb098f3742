/** The relational store behind the resolvers, as an immutable value: the album
    table (with its tracks), the set of LikedAlbum rows and the user table, plus
    the next values of the two autoincrement keys. A set of `(userId, albumId)`
    rows cannot hold a pair twice, which is the unique constraint on that pair. */
module Store {
  import opened Wrappers

  type UserId = string

  datatype Track = Track(
    id: int,
    name: string,
    artist: string,
    duration: Option<int>,
    url: Option<string>,
    albumId: int)

  datatype Album = Album(
    id: int,
    title: string,
    artist: string,
    genre: string,
    releaseYear: int,
    albumCover: Option<string>,
    largeAlbumCover: Option<string>,
    albumUrl: Option<string>,
    tracks: seq<Track>)

  datatype User = User(id: UserId, email: string, name: Option<string>, passwordHash: string)

  /** One LikedAlbum row. */
  datatype Like = Like(userId: UserId, albumId: int)

  datatype Db = Db(
    albums: seq<Album>,
    likes: set<Like>,
    users: seq<User>,
    nextAlbumId: int,
    nextTrackId: int)

  /** An album as a resolver hands it on: the row, the LikedAlbum rows (their
      user ids) when the query included them, and whether it included the
      track rows; without them the nullable `tracks` field resolves to null. */
  datatype AlbumView = AlbumView(album: Album, likedBy: Option<set<UserId>>, tracksLoaded: bool)

  ghost predicate AlbumIdsFresh(db: Db) {
    && (forall i, j :: 0 <= i < j < |db.albums| ==> db.albums[i].id != db.albums[j].id)
    && (forall i :: 0 <= i < |db.albums| ==> db.albums[i].id < db.nextAlbumId)
  }

  ghost predicate TracksOwned(db: Db) {
    forall i, k :: 0 <= i < |db.albums| && 0 <= k < |db.albums[i].tracks| ==>
      db.albums[i].tracks[k].albumId == db.albums[i].id && db.albums[i].tracks[k].id < db.nextTrackId
  }

  ghost predicate UsersUnique(db: Db) {
    forall i, j :: 0 <= i < j < |db.users| ==>
      db.users[i].email != db.users[j].email && db.users[i].id != db.users[j].id
  }

  /** Every like row points at an album of the table. */
  ghost predicate LikesReferenceAlbums(db: Db) {
    forall l :: l in db.likes ==> exists i :: 0 <= i < |db.albums| && db.albums[i].id == l.albumId
  }

  /** The integrity the table constraints maintain. */
  ghost predicate Valid(db: Db) {
    AlbumIdsFresh(db) && TracksOwned(db) && UsersUnique(db) && LikesReferenceAlbums(db)
  }

  /** `findUnique` on a table: the first row whose `key` column holds `k`
      (on a unique column, the only one), none iff no row holds it. */
  function FindFirst<T, K(==)>(rows: seq<T>, key: T -> K, k: K): (r: Option<T>)
    ensures r.Some? ==> r.value in rows && key(r.value) == k
    ensures r.None? <==> forall i :: 0 <= i < |rows| ==> key(rows[i]) != k
    decreases |rows|
  {
    if |rows| == 0 then None
    else if key(rows[0]) == k then Some(rows[0])
    else FindFirst(rows[1..], key, k)
  }

  function AlbumIdOf(a: Album): int { a.id }
  function EmailOf(u: User): string { u.email }
  function UserIdOf(u: User): UserId { u.id }

  /** `findUnique({ where: { id } })` on the album table. */
  function FindAlbum(albums: seq<Album>, id: int): Option<Album> {
    FindFirst(albums, AlbumIdOf, id)
  }

  /** `findUnique({ where: { email } })` on the user table. */
  function FindUserByEmail(users: seq<User>, email: string): Option<User> {
    FindFirst(users, EmailOf, email)
  }

  /** `findUnique({ where: { id } })` on the user table. */
  function FindUserById(users: seq<User>, id: UserId): Option<User> {
    FindFirst(users, UserIdOf, id)
  }
}
