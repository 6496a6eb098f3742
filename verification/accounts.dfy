/** The account resolvers (app/graphql/resolvers/auth.ts): registration with
    unique emails, login with one message for every failure, the current user,
    and the `likedAlbums` field of a user. */
module Accounts {
  import opened Wrappers
  import opened Auth
  import opened Store
  import opened Catalog

  datatype RegisterInput = RegisterInput(email: string, password: string, name: Option<string>)

  datatype LoginInput = LoginInput(email: string, password: string)

  datatype AuthPayload = AuthPayload(token: string, user: User)

  const EmailTaken := "User with this email already exists"
  const InvalidCredentials := "Invalid email or password"

  /** The `register` mutation. `newId` is the id the store generates for the
      new row. The stored password is the hash, and an empty name is stored
      as null. */
  function Register(db: Db, c: Crypto, input: RegisterInput, newId: UserId): (r: Result<(Db, AuthPayload)>)
    ensures r.Err? <==> FindUserByEmail(db.users, input.email).Some?
    ensures r.Err? ==> r.message == EmailTaken
    ensures r.Ok? ==> r.value.1.user == User(newId, input.email,
                                             if Truthy(input.name) then input.name else None,
                                             c.hash(input.password))
    ensures r.Ok? ==> r.value.0 == db.(users := db.users + [r.value.1.user])
    ensures r.Ok? && TokensSound(c) ==> c.verify(r.value.1.token) == Some(Claims(newId, input.email))
  {
    if FindUserByEmail(db.users, input.email).Some? then Err(EmailTaken)
    else
      var user := User(newId, input.email, if Truthy(input.name) then input.name else None, c.hash(input.password));
      Ok((db.(users := db.users + [user]), AuthPayload(GenerateToken(c, user.id, user.email), user)))
  }

  /** The `login` mutation: an unknown email and a wrong password fail alike. */
  function Login(db: Db, c: Crypto, input: LoginInput): (r: Result<AuthPayload>)
    ensures r.Err? ==> r.message == InvalidCredentials
    ensures r.Err? <==>
              (var u := FindUserByEmail(db.users, input.email);
               u.None? || !c.compare(input.password, u.value.passwordHash))
    ensures r.Ok? ==> r.value.user in db.users && r.value.user.email == input.email
    ensures r.Ok? ==> c.compare(input.password, r.value.user.passwordHash)
    ensures r.Ok? && TokensSound(c) ==>
              c.verify(r.value.token) == Some(Claims(r.value.user.id, input.email))
  {
    var found := FindUserByEmail(db.users, input.email);
    if found.None? then Err(InvalidCredentials)
    else if !c.compare(input.password, found.value.passwordHash) then Err(InvalidCredentials)
    else Ok(AuthPayload(GenerateToken(c, found.value.id, found.value.email), found.value))
  }

  /** Registration keeps emails (and, given a fresh id, user ids) unique, and
      keeps the store's integrity. */
  lemma RegisterPreservesValid(db: Db, c: Crypto, input: RegisterInput, newId: UserId)
    requires Valid(db)
    requires forall i :: 0 <= i < |db.users| ==> db.users[i].id != newId
    ensures Register(db, c, input, newId).Ok? ==> Valid(Register(db, c, input, newId).value.0)
  {
  }

  /** A registered user can log in with the same email and password, gets
      back the same user, and a token that (like the registration's)
      identifies that user. */
  lemma {:induction false} LoginAfterRegister(db: Db, c: Crypto, input: RegisterInput, newId: UserId)
    requires PasswordsSound(c)
    requires Register(db, c, input, newId).Ok?
    ensures var (db', payload) := Register(db, c, input, newId).value;
            var login := Login(db', c, LoginInput(input.email, input.password));
            && login.Ok? && login.value.user == payload.user
            && (TokensSound(c) ==>
                  c.verify(login.value.token) == Some(Claims(newId, input.email))
                  && c.verify(payload.token) == Some(Claims(newId, input.email)))
  {
    var (db', payload) := Register(db, c, input, newId).value;
    FindUserAfterAppend(db.users, payload.user);
    assert c.compare(input.password, c.hash(input.password));
  }

  lemma {:induction false} FindUserAfterAppend(users: seq<User>, u: User)
    requires FindUserByEmail(users, u.email).None?
    ensures FindUserByEmail(users + [u], u.email) == Some(u)
    decreases |users|
  {
    if |users| > 0 {
      assert (users + [u])[1..] == users[1..] + [u];
      FindUserAfterAppend(users[1..], u);
    }
  }

  /** The `me` query's user and its `likedAlbums` field. */
  datatype Me = Me(user: User, likedAlbums: seq<AlbumView>)

  /** The albums that have a like row by `userId`, in table order. */
  function AlbumsLikedBy(db: Db, userId: UserId): (r: seq<Album>)
    ensures forall a :: a in r <==> a in db.albums && Like(userId, a.id) in db.likes
  {
    Matching(db.albums, Where(None, None, None, Some(userId)), db.likes)
  }

  /** `User.likedAlbums` as written: the album rows of the user's likes, handed
      on without their like rows. */
  function LikedAlbumsAsWritten(db: Db, parentId: UserId): (r: seq<AlbumView>)
    ensures |r| == |AlbumsLikedBy(db, parentId)|
    ensures forall k :: 0 <= k < |r| ==>
              r[k].album in db.albums && Like(parentId, r[k].album.id) in db.likes
              && r[k].likedBy.None? && !r[k].tracksLoaded
    ensures forall a :: a in db.albums ==>
              ((exists k :: 0 <= k < |r| && r[k].album == a) <==> Like(parentId, a.id) in db.likes)
  {
    var albums := AlbumsLikedBy(db, parentId);
    var r := seq(|albums|, k requires 0 <= k < |albums| => AlbumView(albums[k], None, false));
    forall a | a in db.albums && Like(parentId, a.id) in db.likes
      ensures exists k :: 0 <= k < |r| && r[k].album == a
    {
      var k :| 0 <= k < |albums| && albums[k] == a;
      assert r[k].album == a;
    }
    r
  }

  /** As written, every album in the list reports `isLiked = false` to its own
      liker, although each has that user's like row. */
  lemma LikedAlbumsAsWrittenReportNotLiked(db: Db, parentId: UserId)
    ensures forall k :: 0 <= k < |LikedAlbumsAsWritten(db, parentId)| ==>
              Like(parentId, LikedAlbumsAsWritten(db, parentId)[k].album.id) in db.likes
              && !IsLiked(LikedAlbumsAsWritten(db, parentId)[k], Some(parentId))
  {
  }

  /** `User.likedAlbums` loading each album with the user's like rows, so that
      `isLiked` agrees with the list. */
  function LikedAlbums(db: Db, parentId: UserId): (r: seq<AlbumView>)
    ensures |r| == |AlbumsLikedBy(db, parentId)|
    ensures forall v :: v in r <==>
              v.album in db.albums && Like(parentId, v.album.id) in db.likes
              && v == Annotate(db.likes, v.album, Some(parentId))
    ensures parentId != "" ==> forall k :: 0 <= k < |r| ==> IsLiked(r[k], Some(parentId))
  {
    var albums := AlbumsLikedBy(db, parentId);
    var r := AnnotateAll(albums, db.likes, Some(parentId));
    forall k | 0 <= k < |r|
      ensures parentId != "" ==> IsLiked(r[k], Some(parentId))
    {
      IsLikedIffLikeRow(db.likes, albums[k], Some(parentId));
    }
    forall v
      ensures v in r <==> v.album in db.albums && Like(parentId, v.album.id) in db.likes
                          && v == Annotate(db.likes, v.album, Some(parentId))
    {
      if v in r {
        var k :| 0 <= k < |r| && r[k] == v;
        assert albums[k] in albums;
      }
      if v.album in albums && v == Annotate(db.likes, v.album, Some(parentId)) {
        var k :| 0 <= k < |albums| && albums[k] == v.album;
        assert r[k] == v;
      }
    }
    r
  }

  /** The `me` query as written: nothing without a caller, otherwise the
      caller's row (if it exists) with `likedAlbums` from the field resolver
      as written, so every listed album reports `isLiked = false`. */
  function CurrentUserAsWritten(db: Db, userId: Option<UserId>): (r: Option<Me>)
    ensures !Truthy(userId) ==> r.None?
    ensures r.Some? ==> r.value.user in db.users && r.value.user.id == userId.value
    ensures Truthy(userId) ==>
              (r.Some? <==> exists i :: 0 <= i < |db.users| && db.users[i].id == userId.value)
    ensures r.Some? ==> forall a :: a in db.albums ==>
              ((exists k :: 0 <= k < |r.value.likedAlbums| && r.value.likedAlbums[k].album == a)
               <==> Like(userId.value, a.id) in db.likes)
    ensures r.Some? ==> forall k :: 0 <= k < |r.value.likedAlbums| ==>
              r.value.likedAlbums[k].album in db.albums
              && Like(userId.value, r.value.likedAlbums[k].album.id) in db.likes
              && !IsLiked(r.value.likedAlbums[k], userId)
  {
    if !Truthy(userId) then None
    else
      var found := FindUserById(db.users, userId.value);
      if found.None? then None
      else Some(Me(found.value, LikedAlbumsAsWritten(db, found.value.id)))
  }

  /** The `me` query with the corrected `likedAlbums` field: nothing without a
      caller, otherwise the caller's row (if it exists) with the albums it
      liked, each reporting `isLiked = true`. */
  function CurrentUser(db: Db, userId: Option<UserId>): (r: Option<Me>)
    ensures !Truthy(userId) ==> r.None?
    ensures r.Some? ==> r.value.user in db.users && r.value.user.id == userId.value
    ensures Truthy(userId) ==>
              (r.Some? <==> exists i :: 0 <= i < |db.users| && db.users[i].id == userId.value)
    ensures r.Some? ==> forall a :: a in db.albums ==>
              ((exists k :: 0 <= k < |r.value.likedAlbums| && r.value.likedAlbums[k].album == a)
               <==> Like(userId.value, a.id) in db.likes)
    ensures r.Some? ==> forall k :: 0 <= k < |r.value.likedAlbums| ==>
              r.value.likedAlbums[k].album in db.albums
              && Like(userId.value, r.value.likedAlbums[k].album.id) in db.likes
              && IsLiked(r.value.likedAlbums[k], userId)
    ensures Truthy(userId) ==> (r.Some? <==> CurrentUserAsWritten(db, userId).Some?)
  {
    if !Truthy(userId) then None
    else
      var found := FindUserById(db.users, userId.value);
      if found.None? then None
      else
        var liked := LikedAlbums(db, found.value.id);
        assert forall a :: a in db.albums && Like(userId.value, a.id) in db.likes ==>
                 Annotate(db.likes, a, Some(found.value.id)) in liked;
        Some(Me(found.value, liked))
  }
}
