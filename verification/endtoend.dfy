/** Properties that span the browser and the server: the token the server
    signs comes back as the caller's identity, a card's heart agrees with the
    store, and the forms' inputs mean on the server what they say. */
module EndToEnd {
  import opened Wrappers
  import opened Auth
  import opened RequestContext
  import opened Store
  import opened Catalog
  import opened Accounts
  import opened ClientTypes
  import ApolloClient
  import AlbumCard
  import LoginForm
  import RegisterForm

  /** A token signed for a user, stored by the browser and attached by the
      link, makes that user the caller of the next request. */
  lemma SignedTokenIdentifiesCaller(c: Crypto, headers: map<string, string>, id: string, email: string)
    requires TokensSound(c)
    requires id != ""
    requires var t := GenerateToken(c, id, email); t != "" && ' ' !in t
    ensures var req := ApolloClient.AsFetchRequest(ApolloClient.AuthLink(headers, Some(GenerateToken(c, id, email))));
            CreateContext(c, HostContext(req, NoRequest, None)).userId == Some(id)
  {
    var token := GenerateToken(c, id, email);
    ApolloClient.AuthLinkRoundTrip(c, headers, token);
  }

  /** A logged-out browser sends no identity. */
  lemma NoStoredTokenIsAnonymous(c: Crypto, headers: map<string, string>, storage: Storage)
    requires !HasToken(storage)
    ensures var req := ApolloClient.AsFetchRequest(ApolloClient.AuthLink(headers, storage.authToken));
            CreateContext(c, HostContext(req, NoRequest, None)).userId == None
  {
    ApolloClient.NoTokenNoIdentity(c, headers, storage.authToken);
  }

  /** An album as the client receives it for a caller. */
  function ToClientAlbum(v: AlbumView, userId: Option<UserId>): (a: ClientAlbum)
    ensures a.id == v.album.id && a.isLiked == Some(IsLiked(v, userId))
  {
    ClientAlbum(v.album.id, v.album.title, v.album.artist, v.album.genre, v.album.releaseYear,
                v.album.albumCover, v.album.largeAlbumCover, Some(IsLiked(v, userId)))
  }

  /** The `me` query's answer as the client receives it. */
  function ToMeRecord(me: Me, userId: UserId): (r: MeRecord)
    ensures r.likedAlbums.Some? && |r.likedAlbums.value| == |me.likedAlbums|
    ensures forall k :: 0 <= k < |me.likedAlbums| ==>
              r.likedAlbums.value[k] == ToClientAlbum(me.likedAlbums[k], Some(userId))
  {
    var liked := seq(|me.likedAlbums|, k requires 0 <= k < |me.likedAlbums| =>
                   ToClientAlbum(me.likedAlbums[k], Some(userId)));
    MeRecord(me.user.id, me.user.email, me.user.name, Some(liked))
  }

  /** Once the current-user query (as written) completes, every card's heart
      shows whether the store has the caller's like row for its album: the
      card looks only at the listed ids, which the as-written field gets
      right. */
  lemma {:induction false} CardAgreesWithStore(db: Db, uid: UserId, card: AlbumCard.Card, albumId: int)
    requires LikesReferenceAlbums(db) && uid != ""
    requires CurrentUserAsWritten(db, Some(uid)).Some?
    ensures var rec := ToMeRecord(CurrentUserAsWritten(db, Some(uid)).value, uid);
            AlbumCard.OnMeCompleted(card, MeData(rec), albumId).liked <==> Like(uid, albumId) in db.likes
  {
    var me := CurrentUserAsWritten(db, Some(uid)).value;
    var rec := ToMeRecord(me, uid);
    ListedIffLiked(db, uid, me, albumId);
  }

  /** As written, the client receives `isLiked = false` for every album of
      the current user's list; with the corrected field, `true` for each. */
  lemma MeRecordLikedFlags(db: Db, uid: UserId)
    requires uid != ""
    ensures CurrentUserAsWritten(db, Some(uid)).Some? ==>
              var rec := ToMeRecord(CurrentUserAsWritten(db, Some(uid)).value, uid);
              forall k :: 0 <= k < |rec.likedAlbums.value| ==> rec.likedAlbums.value[k].isLiked == Some(false)
    ensures CurrentUser(db, Some(uid)).Some? ==>
              var rec := ToMeRecord(CurrentUser(db, Some(uid)).value, uid);
              forall k :: 0 <= k < |rec.likedAlbums.value| ==> rec.likedAlbums.value[k].isLiked == Some(true)
  {
  }

  lemma ListedIffLiked(db: Db, uid: UserId, me: Me, albumId: int)
    requires LikesReferenceAlbums(db)
    requires forall a :: a in db.albums ==>
               ((exists k :: 0 <= k < |me.likedAlbums| && me.likedAlbums[k].album == a)
                <==> Like(uid, a.id) in db.likes)
    requires forall k :: 0 <= k < |me.likedAlbums| ==>
               me.likedAlbums[k].album in db.albums && Like(uid, me.likedAlbums[k].album.id) in db.likes
    ensures (exists k :: 0 <= k < |me.likedAlbums| && me.likedAlbums[k].album.id == albumId)
            <==> Like(uid, albumId) in db.likes
  {
    if Like(uid, albumId) in db.likes {
      var i :| 0 <= i < |db.albums| && db.albums[i].id == albumId;
      var a := db.albums[i];
      assert a in db.albums;
      var k :| 0 <= k < |me.likedAlbums| && me.likedAlbums[k].album == a;
      assert me.likedAlbums[k].album.id == albumId;
    }
  }

  /** The registration form sends the name as typed, and an empty one is
      stored as no name. */
  lemma EmptyNameStoredAsNull(db: Db, c: Crypto, f: RegisterForm.RegisterFields, newId: UserId)
    requires f.name == ""
    requires RegisterForm.Submit(f).1.Some?
    ensures var input := RegisterForm.Submit(f).1.value;
            Register(db, c, input, newId).Ok? ==> Register(db, c, input, newId).value.1.user.name.None?
  {
  }

  /** Whoever registered through the form can log in through the login form
      with the same email and password. */
  lemma RegisteredUserCanLogIn(db: Db, c: Crypto, rf: RegisterForm.RegisterFields, newId: UserId, lf: LoginForm.LoginFields)
    requires PasswordsSound(c)
    requires RegisterForm.Submit(rf).1.Some?
    requires Register(db, c, RegisterForm.Submit(rf).1.value, newId).Ok?
    requires lf.email == rf.email && lf.password == rf.password
    ensures LoginForm.Submit(lf).1.Some?
    ensures var (db', payload) := Register(db, c, RegisterForm.Submit(rf).1.value, newId).value;
            var login := Login(db', c, LoginForm.Submit(lf).1.value);
            && login.Ok? && login.value.user == payload.user
            && (TokensSound(c) ==> c.verify(login.value.token) == Some(Claims(newId, rf.email)))
  {
    LoginAfterRegister(db, c, RegisterForm.Submit(rf).1.value, newId);
  }
}
