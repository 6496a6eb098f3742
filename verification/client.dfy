/** The shapes the browser client works with: albums as GraphQL returns them,
    the cached result of the current-user query, and the two localStorage
    entries the application keeps. */
module ClientTypes {
  import opened Wrappers

  /** An album object on the client. Fields a query did not select are
      modelled by their JavaScript value (`isLiked` absent is `None`). */
  datatype ClientAlbum = ClientAlbum(
    id: int,
    title: string,
    artist: string,
    genre: string,
    releaseYear: int,
    albumCover: Option<string>,
    largeAlbumCover: Option<string>,
    isLiked: Option<bool>)

  /** A field of a JavaScript object: missing (`undefined`), `null`, or a value. */
  datatype Field<+T> = Missing | NullValue | Present(value: T)

  /** The `me` object of the current-user query; `likedAlbums` may be null. */
  datatype MeRecord = MeRecord(
    id: string,
    email: string,
    name: Option<string>,
    likedAlbums: Option<seq<ClientAlbum>>)

  /** What `cache.readQuery` of the current-user query yields: nothing cached,
      `{ me: null }`, or a user. */
  datatype MeQuery = NotCached | MeNull | MeData(me: MeRecord)

  /** The `user_info` entry: the JSON of `{ email, name }`. */
  datatype UserInfo = UserInfo(email: string, name: Option<string>)

  /** localStorage, reduced to the two keys the application uses. */
  datatype Storage = Storage(authToken: Option<string>, userInfo: Option<UserInfo>)

  const EmptyStorage := Storage(None, None)

  const TokenKey := "auth_token"
  const UserInfoKey := "user_info"

  /** `!!localStorage.getItem("auth_token")` */
  predicate HasToken(s: Storage) {
    Truthy(s.authToken)
  }

  /** The storage after a successful login or registration: the token and the
      user's `{ email, name }`. */
  function Persist(s: Storage, token: string, user: MeRecord): (r: Storage)
    ensures r.authToken == Some(token)
    ensures r.userInfo == Some(UserInfo(user.email, user.name))
    ensures token != "" ==> HasToken(r)
  {
    Storage(Some(token), Some(UserInfo(user.email, user.name)))
  }

  /** The cached `me` the login and registration forms write: the returned
      user, with an omitted or null `likedAlbums` becoming the empty list. */
  function CachedUser(user: MeRecord): (me: MeRecord)
    ensures me.id == user.id && me.email == user.email && me.name == user.name
    ensures user.likedAlbums.Some? ==> me.likedAlbums == user.likedAlbums
    ensures user.likedAlbums.None? ==> me.likedAlbums == Some([])
  {
    user.(likedAlbums := Some(user.likedAlbums.GetOr([])))
  }

  /** How the cache work after a successful login or registration ends: the
      cache write throws, the refetch rejects, or both succeed. */
  datatype CacheStep = WriteFails | RefetchFails | CacheDone

  /** The browser state the authentication forms act on. */
  datatype Session = Session(storage: Storage, isLoggedIn: bool, cache: MeQuery)

  /** A form's completion handler's effect: the new session, and whether the
      form's success callback (which closes the modal) ran. */
  datatype Completion = Completion(session: Session, succeeded: bool)
}
