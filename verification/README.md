# music-finder, modelled in Dafny

music-finder is a Next.js album catalogue. A GraphQL server (Apollo Server over
Prisma) lists, adds, likes and unlikes albums. It also registers and logs in
users, who are identified by a JWT bearer token. A React client (Apollo Client)
shows the catalogue, lets a logged-in user like albums from a card, and adds
albums by looking them up on the Last.fm API.

This project models the core of both sides as pure Dafny functions over
immutable values:

- **Server side.**
  - `Store`: the relational store, as sequences of rows plus a set of like rows.
  - `Auth`: bearer-token identity resolution.
  - `RequestContext`: the per-request context.
  - `Catalog`: the album resolvers.
  - `Accounts`: the account resolvers.
- **Client side.**
  - `ClientTypes`: what the client sees and stores.
  - `ApolloClient`: the auth link and the cache merge policies.
  - `AuthContext`: the shared logged-in flag.
  - One module per component: `AlbumCard`, `NavBar`, `LoginForm`, `RegisterForm`, `AlbumList`, `AddAlbumModal`, `TrackList`.
  - `LastFm`: the Last.fm response transform.
- **Shared.**
  - `Text`: the JavaScript string and number built-ins the code relies on. These are `split`, `parseInt`, `String(n)`, `padStart`, `encodeURIComponent`, the `\s+` replacement, ASCII case mapping and UTF-16 length.
  - `Wrappers`: `Option`, `Result` and JavaScript truthiness.
- **`EndToEnd`.** Lemmas that connect the two sides:
  - a token the server signs identifies its caller once the client's auth link sends it;
  - the card's `liked` state agrees with the store's like rows;
  - a user who registers through the form can log in through the form.

The model makes these JavaScript semantics explicit:

- Truthiness (`""`, `0`, `null` and `undefined` are falsy) and the `||` defaults built on it.
- `%` as a truncated remainder.
- `parseInt` with and without a radix, including the `0x` prefix.
- `String.length` counted in UTF-16 code units.
- `split(" ")` producing empty fields.

JWT signing and verification and bcrypt are opaque. They are the function-valued fields of `Auth.Crypto`. What the code relies on is stated as two hypotheses:

- `TokensSound`: a signed token verifies to its claims.
- `PasswordsSound`: a password matches its own hash.

Some values come from outside the code and are parameters instead:

- the user id the store generates;
- the current year;
- whether the Apollo cache reset succeeds;
- which step of a completion callback throws;
- the HTTP reply from Last.fm.

## Model

| member | source | states |
|---|---|---|
| Auth.GenerateToken | lib/auth.ts:26-29 | the token's payload is exactly the user's id and email: under sound crypto it verifies to those claims |
| Auth.AuthorizationHeader | lib/auth.ts:45-48 | the header is taken from the Fetch `get`, then the `authorization` property, then the wrapped request, each consulted only when the earlier ones are null or undefined |
| Auth.BearerToken | lib/auth.ts:58 | `split(" ")[1]` is the longest space-free word right after `"Bearer "`, and is followed by a space or the end |
| Auth.GetUserFromRequest | lib/auth.ts:43-64 | no identity for a null request, a missing, non-string or non-bearer header; otherwise exactly the verification of the bearer token; never an error |
| Auth.TokenIsFirstWord | lib/auth.ts:50-59 | whatever follows the token after a space is ignored: verification sees exactly the first word |
| Auth.MissingHeaderGivesNoUser | lib/auth.ts:50-56 | a request whose header sources are all null or undefined resolves to no identity |
| Auth.LowercaseSchemeRejected | lib/auth.ts:53 | the scheme check is case-sensitive: `bearer x` yields no identity |
| Auth.DoubleSpaceGivesEmptyToken | lib/auth.ts:58 | with two spaces after the scheme, the empty string is what gets verified |
| RequestContext.SelectRequest | app/graphql/context.ts:12 | `ctx.req`, else `ctx.request`, else the context object itself; nothing for a null context |
| RequestContext.CreateContext | app/graphql/context.ts:10-21 | the context user id is present iff the request's claims exist with a non-empty user id, and then equals it |
| Store.FindFirst | app/graphql/resolvers/album.ts:127-133 | `findUnique` on one column: a row of the table holding the key when one exists, none iff no row holds it; `FindAlbum` applies it to album ids, and `FindUserByEmail` and `FindUserById` to the user table (auth.ts lines 15-17, 53-55 and 85-86) |
| Catalog.IsLiked | app/graphql/resolvers/album.ts:209-215 | false without a caller or without loaded like rows; otherwise true iff some row was loaded |
| Catalog.IsLikedIffLikeRow | app/graphql/resolvers/album.ts:44-46 | for an album loaded with the caller's rows, `isLiked` holds iff the caller has a like row for it |
| Catalog.BuildWhere | app/graphql/resolvers/album.ts:11-37 | each filter field constrains the query only when truthy; `likedOnly` only for a caller, and then restricts to that caller |
| Catalog.Matching | app/graphql/resolvers/album.ts:40-41 | an album is listed iff it is in the table and satisfies the `where` |
| Catalog.AnnotateAll | app/graphql/resolvers/album.ts:42-47 | every listed album carries exactly the caller's like rows (all rows for no caller) |
| Catalog.TitleLeTotal | app/graphql/resolvers/album.ts:48-50 | the title order is total |
| Catalog.TitleLeTransitive | app/graphql/resolvers/album.ts:48-50 | the title order is transitive |
| Catalog.Insert | app/graphql/resolvers/album.ts:48-50 | inserting into a title-ordered list keeps it ordered and adds exactly the one album |
| Catalog.SortByTitle | app/graphql/resolvers/album.ts:48-50 | the result is ordered by title and is a permutation of the input |
| Catalog.Albums | app/graphql/resolvers/album.ts:6-54 | an explicit null filter fails; otherwise the result is title-ordered and a permutation of the matching albums with their like rows |
| Catalog.AlbumsMembership | app/graphql/resolvers/album.ts:6-54 | an album view is listed iff it comes from the table, satisfies the built `where`, and carries the caller's rows |
| Catalog.LikedOnlyIgnoredWhenAnonymous | app/graphql/resolvers/album.ts:31 | without a caller, `likedOnly: true` lists the same as no `likedOnly` |
| Catalog.LikedOnlyListsLikedAlbums | app/graphql/resolvers/album.ts:31-37 | with a caller, `likedOnly` alone lists exactly the caller's liked albums, each reporting `isLiked` |
| Catalog.SameWhereSameListing | app/graphql/resolvers/album.ts:14-51 | two filters that build the same `where` list the same albums |
| Catalog.FalsyFieldsFilterNothing | app/graphql/resolvers/album.ts:16-29 | an empty genre, an empty artist or the year 0 lists the same as leaving the field out |
| Catalog.AlbumById | app/graphql/resolvers/album.ts:57-71 | none iff no album has the id; otherwise that album, liked iff the caller has its row |
| Catalog.LikeAlbum | app/graphql/resolvers/album.ts:117-165 | the login error without a caller, not-found for a missing album, and success for a caller and an existing album; on success exactly the caller's row is added and the album comes back liked |
| Catalog.UnlikeAlbum | app/graphql/resolvers/album.ts:168-204 | the login error without a caller, not-found for a missing album, and success for a caller and an existing album; on success exactly the caller's row is removed and the album comes back not liked |
| Catalog.RejectedTogglesChangeNothing | app/graphql/resolvers/album.ts:122-133 | without a caller or with an unknown album both mutations fail |
| Catalog.LikeIsIdempotent | app/graphql/resolvers/album.ts:136-153 | liking again changes nothing and returns the same album, still liked |
| Catalog.UnlikeIsIdempotent | app/graphql/resolvers/album.ts:187-192 | unliking again changes nothing and returns the same album, not liked |
| Catalog.UnlikeNeverLikedIsNoOp | app/graphql/resolvers/album.ts:187-192 | deleting a row that does not exist leaves the store unchanged |
| Catalog.ToggleSequencesEndUnliked | app/graphql/resolvers/album.ts:117-204 | like-like-unlike and like-unlike-unlike both end with no row and `isLiked` false |
| Catalog.TogglesTouchOnlyOwnRow | app/graphql/resolvers/album.ts:145-153 | a toggle changes no like row except the caller's row for that album |
| Catalog.TogglesPreserveValid | app/graphql/resolvers/album.ts:117-204 | toggles keep the store's integrity, including unique (user, album) rows |
| Catalog.FindByTitleArtist | app/graphql/resolvers/album.ts:80-85 | finds an album with exactly that title and artist, none iff there is none |
| Catalog.CreateTracks | app/graphql/resolvers/album.ts:106 | one track row per input, with consecutive ids, owned by the new album, carrying the input's fields |
| Catalog.AddAlbum | app/graphql/resolvers/album.ts:75-114 | an existing title and artist is returned unchanged, without its like rows or tracks (so `tracks` resolves to null), and nothing is created; otherwise one album is appended with genre "Unknown", the current year, "" covers and URL as defaults, and its tracks created from the input with consecutive new ids, all returned with the tracks; never liked |
| Catalog.AddAlbumTwiceDeduplicates | app/graphql/resolvers/album.ts:80-88 | adding the same title and artist twice leaves one album, returned both times |
| Catalog.AddAlbumPreservesValid | app/graphql/resolvers/album.ts:97-112 | adding an album keeps ids fresh and tracks owned by their album |
| Catalog.CountAppend | app/graphql/resolvers/album.ts:80-88 | appending adds one to the count of an album's title and artist exactly when it matches them |
| Catalog.CountZeroWhenAbsent | app/graphql/resolvers/album.ts:80-86 | when no album matches the title and artist, the count is zero |
| Catalog.FindAfterAppend | app/graphql/resolvers/album.ts:80-86 | after appending the first match, the lookup finds it |
| Accounts.Register | app/graphql/resolvers/auth.ts:7-42 | fails iff the email exists; otherwise appends a user with the hashed password and a falsy name stored as null, and returns a token verifying to its id and email |
| Accounts.Login | app/graphql/resolvers/auth.ts:45-75 | fails with the same message iff the email is unknown or the password does not match; otherwise returns that user and a token for it |
| Accounts.RegisterPreservesValid | app/graphql/resolvers/auth.ts:15-33 | with a fresh id, registration keeps emails and ids unique |
| Accounts.LoginAfterRegister | app/graphql/resolvers/auth.ts:24-33 | after registering, logging in with the same email and password succeeds with the registered user, and both tokens verify to the new user's id and email |
| Accounts.FindUserAfterAppend | app/graphql/resolvers/auth.ts:53-55 | a newly appended user with a fresh email is found by that email |
| Accounts.AlbumsLikedBy | app/graphql/resolvers/auth.ts:101-106 | an album is listed iff it is in the table and the user has a like row for it |
| Accounts.LikedAlbumsAsWritten | app/graphql/resolvers/auth.ts:100-107 | exactly the table albums the user likes, each handed on without like rows or tracks |
| Accounts.LikedAlbumsAsWrittenReportNotLiked | app/graphql/resolvers/auth.ts:106 | every album in the list reports `isLiked` false although the user has its row |
| Accounts.LikedAlbums | app/graphql/resolvers/auth.ts:100-107 | exactly the user's liked albums, each carrying the user's rows, so each reports `isLiked` |
| Accounts.CurrentUserAsWritten | app/graphql/resolvers/auth.ts:80-95 | none without a caller; a result iff the caller's row exists; its liked albums are exactly those with the caller's like row, each reporting `isLiked` false because the field resolver at lines 100-107 drops the rows |
| Accounts.CurrentUser | app/graphql/resolvers/auth.ts:80-95 | the `me` query with the corrected `likedAlbums` field: a result exactly when the as-written query has one, the same liked albums, each reporting `isLiked` true |
| ClientTypes.Persist | components/Auth/LoginForm.tsx:33-40 | both storage keys are written: the token, and the user's email and name |
| ClientTypes.CachedUser | components/Auth/LoginForm.tsx:47-56 | the cached user keeps id, email and name, and a missing liked list becomes empty |
| ApolloClient.AuthorizationValue | lib/apollo-client.ts:14 | `Bearer <token>` for a truthy token, the empty string otherwise |
| ApolloClient.AuthLink | lib/apollo-client.ts:9-17 | every other header is kept, and `authorization` is set to that value |
| ApolloClient.AsFetchRequest | lib/apollo-client.ts:21 | the sent headers reach the server as a Fetch request whose `authorization` header is the one set |
| ApolloClient.AuthLinkRoundTrip | lib/apollo-client.ts:9-17 | a space-free stored token is exactly what the server verifies |
| ApolloClient.NoTokenNoIdentity | lib/apollo-client.ts:14 | with no stored token the server resolves no identity |
| ApolloClient.SpacedTokenIsTruncated | lib/apollo-client.ts:14 | a stored value with a space is cut to its first word on the server |
| ApolloClient.MergeMe | lib/apollo-client.ts:26-31 | an incoming user replaces the cached one; a null or missing one keeps it |
| ApolloClient.MergeAllKeepsLastUser | lib/apollo-client.ts:26-31 | after a run of responses the cache holds the last user received, or the original when none came |
| ApolloClient.MergeLikedAlbums | lib/apollo-client.ts:36-41 | the incoming list replaces the cached one, and a missing one becomes empty |
| ApolloClient.LikedAlbumsMergeIdempotent | lib/apollo-client.ts:36-41 | the result does not depend on the cached list, and merging the same list twice changes nothing |
| AuthContext.InitialLoggedIn | context/AuthContext.tsx:18-23 | logged in iff in a browser with a non-empty stored token |
| AuthContext.OnStorage | context/AuthContext.tsx:25-30 | only an event for the token key changes the flag, and then to whether a non-empty token is stored |
| AuthContext.OnStorageIdempotent | context/AuthContext.tsx:26-30 | handling the same event twice is the same as once |
| AuthContext.TokenEventAgreesWithReload | context/AuthContext.tsx:18-30 | after a token event the flag equals what a fresh page load would compute |
| AlbumCard.InitialCard | components/Albums/AlbumCard/AlbumCard.tsx:35-36 | liked iff the album says `isLiked` true; modal closed |
| AlbumCard.CoverOr | components/Albums/AlbumCard/AlbumCard.tsx:144-145 | a truthy cover is kept, otherwise the placeholder; never empty |
| AlbumCard.DisplayedCover | components/Albums/AlbumCard/AlbumCard.tsx:215 | the large cover, else the small cover, else the placeholder |
| AlbumCard.OptimisticCoverShown | components/Albums/AlbumCard/AlbumCard.tsx:141-163 | the optimistic album shows the same image iff the album has a large cover or no cover; with only a small cover it shows the placeholder |
| AlbumCard.Optimistic | components/Albums/AlbumCard/AlbumCard.tsx:141-162 | the same album with both covers defaulted and `isLiked` set to the intended state |
| AlbumCard.LikeClick | components/Albums/AlbumCard/AlbumCard.tsx:130-165 | logged out, only the modal opens; logged in, a liked album is unliked and any other liked, with the card's album id and the flipped optimistic state |
| AlbumCard.CountIdAppend | components/Albums/AlbumCard/AlbumCard.tsx:72 | occurrences of an id in a concatenation add up |
| AlbumCard.LikeUpdate | components/Albums/AlbumCard/AlbumCard.tsx:63-80 | with a cached user and a returned album, the album is appended and the rest of the user kept; otherwise the cache is unchanged |
| AlbumCard.RemoveIdCount | components/Albums/AlbumCard/AlbumCard.tsx:103-105 | no entry with the id remains, and exactly those entries are dropped |
| AlbumCard.RemoveIdMembers | components/Albums/AlbumCard/AlbumCard.tsx:103-105 | an entry survives iff its id differs |
| AlbumCard.RemoveIdAppend | components/Albums/AlbumCard/AlbumCard.tsx:103-105 | filtering distributes over concatenation |
| AlbumCard.RemoveAbsentId | components/Albums/AlbumCard/AlbumCard.tsx:103-105 | filtering an absent id changes nothing |
| AlbumCard.UnlikeUpdate | components/Albums/AlbumCard/AlbumCard.tsx:94-113 | with a cached user and a returned album, the cached list filtered by `RemoveId`: exactly the entries with other ids remain, in order and as often as before (`RemoveIdAppend`, `RemoveIdKeepsOthers`); otherwise the cache is unchanged |
| AlbumCard.RemoveIdKeepsOthers | components/Albums/AlbumCard/AlbumCard.tsx:103-105 | every other id is listed as often after the filter as before |
| AlbumCard.LikeUpdateDuplicates | components/Albums/AlbumCard/AlbumCard.tsx:72 | the like update does not deduplicate: two updates add two entries |
| AlbumCard.UnlikeUndoesLike | components/Albums/AlbumCard/AlbumCard.tsx:63-113 | unliking an album that the like update added restores the cache exactly |
| AlbumCard.OnLikeCompleted | components/Albums/AlbumCard/AlbumCard.tsx:81-83 | the card becomes liked |
| AlbumCard.OnUnlikeCompleted | components/Albums/AlbumCard/AlbumCard.tsx:114-116 | the card becomes not liked |
| AlbumCard.OnLikeError | components/Albums/AlbumCard/AlbumCard.tsx:84-90 | the modal opens iff the message contains "must be logged in"; `liked` unchanged |
| AlbumCard.OnUnlikeError | components/Albums/AlbumCard/AlbumCard.tsx:117-119 | an unlike error changes nothing |
| AlbumCard.AnonymousLikeOpensModal | components/Albums/AlbumCard/AlbumCard.tsx:85-86 | the server's login error for a like opens the modal |
| AlbumCard.AnonymousUnlikeIgnored | components/Albums/AlbumCard/AlbumCard.tsx:117-119 | the server's login error for an unlike contains the phrase but opens nothing |
| AlbumCard.MissingAlbumKeepsModalClosed | components/Albums/AlbumCard/AlbumCard.tsx:84-90 | a not-found error leaves the card as it was |
| AlbumCard.OnAuthChange | components/Albums/AlbumCard/AlbumCard.tsx:39-43 | logging out clears `liked`; logging in changes nothing |
| AlbumCard.OnMeCompleted | components/Albums/AlbumCard/AlbumCard.tsx:48-54 | with a liked list, liked iff some entry has the card's id; otherwise unchanged |
| AlbumCard.CloseAuthModal | components/Albums/AlbumCard/AlbumCard.tsx:167-169 | the modal closes, `liked` unchanged |
| AlbumCard.SlugSegment | components/Albums/AlbumCard/AlbumCard.tsx:124-126 | the id's numeral and a dash, followed only by URI-safe characters |
| AlbumCard.CardPath | components/Albums/AlbumCard/AlbumCard.tsx:123-127 | `/album/` followed by the slug |
| AlbumCard.SlugIdAsWritten | components/Albums/AlbumCard/AlbumCard.tsx:124 | the detail page (app/album/[slug]/page.tsx, lines 39-46) reads back the id from the path built here, as written: it reads a single character: an id iff the slug starts with a digit, and always below 10 |
| AlbumCard.SingleCharacterId | components/Albums/AlbumCard/AlbumCard.tsx:124 | on the detail page (app/album/[slug]/page.tsx, lines 41-42), a one-character string parses to its digit, or NaN |
| AlbumCard.SlugIdAsWrittenMisreadsTwoDigitIds | components/Albums/AlbumCard/AlbumCard.tsx:122-128 | the card for album 12 opens the detail page (app/album/[slug]/page.tsx, lines 41-42) of album 1 |
| AlbumCard.SlugId | components/Albums/AlbumCard/AlbumCard.tsx:124 | the corrected reading of the detail page (app/album/[slug]/page.tsx, lines 41-45): an id iff the first dash-separated field parses, and then that number |
| AlbumCard.SlugRoundTrip | components/Albums/AlbumCard/AlbumCard.tsx:122-128 | the detail page, read as corrected, reads back the id of the card that built the path |
| NavBar.FirstChars | components/NavBar/NavBar.tsx:101-104 | at most one character per word, each the first character of a non-empty word |
| NavBar.Initials | components/NavBar/NavBar.tsx:99-109 | from a truthy name, the first two word initials upper-cased; else the email's first two characters upper-cased; else "U"; at most two characters |
| NavBar.FirstCharsAfterSpaces | components/NavBar/NavBar.tsx:102-104 | leading spaces give empty words, which contribute nothing |
| NavBar.TwoWordInitials | components/NavBar/NavBar.tsx:99-107 | two words give their upper-cased initials, however many spaces separate them |
| NavBar.TwoWordFirstChars | components/NavBar/NavBar.tsx:102-104 | two words give their two first characters |
| NavBar.BlankNameGivesNoInitials | components/NavBar/NavBar.tsx:100-107 | a name of spaces is truthy but yields an empty avatar, and the email is never consulted |
| NavBar.BlankFields | components/NavBar/NavBar.tsx:102-104 | a string of spaces yields no initials |
| NavBar.Logout | components/NavBar/NavBar.tsx:78-96 | both storage keys are removed; only a successful cache reset clears the flag, the user and the menu and goes home |
| NavBar.LogoutAgreesWithReload | components/NavBar/NavBar.tsx:78-96 | after logout a reload finds no login, and after a successful reset the flag agrees |
| NavBar.FailedResetLeavesStaleFlag | components/NavBar/NavBar.tsx:84-95 | a failed reset leaves the flag set although the token is gone |
| NavBar.OnCurrentUser | components/NavBar/NavBar.tsx:43-51 | a returned user is shown with its email, name and id; nothing else changes |
| NavBar.OnCurrentUserError | components/NavBar/NavBar.tsx:52-55 | a failed current-user query logs out: no token remains |
| LoginForm.Submit | components/Auth/LoginForm.tsx:77-91 | sends the email and password iff both are non-empty; otherwise shows the missing-fields message |
| LoginForm.OnError | components/Auth/LoginForm.tsx:72-74 | shows the server's message, or the default when it is empty |
| LoginForm.OnCompleted | components/Auth/LoginForm.tsx:31-71 | stores token and user, sets the flag, seeds the cache unless the write throws, and succeeds iff every step completes |
| LoginForm.LoginAgreesWithReload | components/Auth/LoginForm.tsx:33-43 | after login the flag equals what a reload would compute |
| RegisterForm.Submit | components/Auth/RegisterForm.tsx:74-107 | missing fields, then mismatch, then fewer than 6 UTF-16 units are reported in that order; otherwise name, email and password are sent |
| RegisterForm.MissingFieldsReportedFirst | components/Auth/RegisterForm.tsx:79-87 | a missing email is reported even when the passwords also differ |
| RegisterForm.AstralCharactersCountTwice | components/Auth/RegisterForm.tsx:89 | three characters outside the Basic Multilingual Plane pass the 6-character minimum |
| RegisterForm.OnError | components/Auth/RegisterForm.tsx:69-71 | shows the server's message, or the default when it is empty |
| RegisterForm.OnCompletedAsWritten | components/Auth/RegisterForm.tsx:31-68 | stores token and user and seeds the cache, but leaves the logged-in flag as it was |
| RegisterForm.RegisteredVisitorStaysLoggedOut | components/Auth/RegisterForm.tsx:60-61 | a visitor who registers successfully stays logged out, although a reload would log them in |
| RegisterForm.OnCompleted | components/Auth/RegisterForm.tsx:31-68 | as written, but also setting the logged-in flag |
| RegisterForm.RegistrationAgreesWithReload | components/Auth/RegisterForm.tsx:33-40 | after registration the flag equals what a reload would compute |
| AlbumList.BuildFilter | components/Albums/AlbumsList/AlbumList.tsx:24-31 | a genre or artist is sent iff non-empty; a year iff one is entered; never `likedOnly` |
| AlbumList.YearZeroListsLikeBlank | components/Albums/AlbumsList/AlbumList.tsx:28-29 | the year 0 is sent but lists the same albums as a blank year |
| AlbumList.InitialFormListsEverything | components/Albums/AlbumsList/AlbumList.tsx:15-19 | the empty form lists the same albums as no filter |
| AlbumList.GenresOf | components/Albums/AlbumsList/AlbumList.tsx:49 | the genres of the albums, in order |
| AlbumList.FirstIndex | components/Albums/AlbumsList/AlbumList.tsx:49 | the position of the first occurrence |
| AlbumList.FirstIndexAppend | components/Albums/AlbumsList/AlbumList.tsx:49 | appending keeps first occurrences, and a new value first occurs at the end |
| AlbumList.Distinct | components/Albums/AlbumsList/AlbumList.tsx:49 | the same values without duplicates, in order of first occurrence |
| AlbumList.Genres | components/Albums/AlbumsList/AlbumList.tsx:47-50 | empty without data; otherwise each genre of the albums exactly once, in first-seen order |
| LastFm.FindImage | lib/lastfm-api.ts:81-84 | the first image whose size is one of the sizes, none iff there is no such image |
| LastFm.FirstMatchShift | lib/lastfm-api.ts:81-84 | a first match in the tail is the first match of the whole list when the head does not match |
| LastFm.CoverText | lib/lastfm-api.ts:106-107 | the image's URL when it is non-empty, null otherwise |
| LastFm.Duration | lib/lastfm-api.ts:99 | null for a missing, zero or empty duration; an integer number as itself (what `parseInt(String(n))` gives for integers below 10^21 in magnitude); a string through `parseInt` without a radix |
| LastFm.HexDurationText | lib/lastfm-api.ts:99 | the text "0x10" is read as 16 |
| LastFm.ConvertTrack | lib/lastfm-api.ts:96-101 | name defaulting to "", the track's artist or the requested one, the duration as above, a truthy URL or null |
| LastFm.TrackData | lib/lastfm-api.ts:89-93 | no tracks, a single track wrapped in a list, or the list itself |
| LastFm.ConvertTracks | lib/lastfm-api.ts:95-102 | one converted track per input track, in order |
| LastFm.GetAlbumInfo | lib/lastfm-api.ts:65-114 | a result iff the reply is OK, carries no error and has an album; then the medium and large covers, the URL and the converted tracks |
| LastFm.SingleTrackAsList | lib/lastfm-api.ts:91-93 | a single track gives the same result as a list of that one track |
| LastFm.LargeCoverTakesFirstOfEither | lib/lastfm-api.ts:82-84 | the large cover is whichever of "large" and "extralarge" comes first |
| AddAlbumModal.Validate | components/AddAlbum/AddAlbumModal.tsx:46-52 | proceeds iff both fields are filled, clearing the error and loading; otherwise shows the required message |
| AddAlbumModal.BuildInput | components/AddAlbum/AddAlbumModal.tsx:60-72 | title and artist from the form, covers and URL from Last.fm, one track input per track |
| AddAlbumModal.AfterLookup | components/AddAlbum/AddAlbumModal.tsx:54-72 | no album info shows the not-found message and stops loading; otherwise the input is built |
| AddAlbumModal.OnCompleted | components/AddAlbum/AddAlbumModal.tsx:36-39 | loading stops, the error is kept |
| AddAlbumModal.OnError | components/AddAlbum/AddAlbumModal.tsx:40-43 | the message is shown and loading stops |
| AddAlbumModal.OnThrown | components/AddAlbum/AddAlbumModal.tsx:78-81 | the message when non-empty, "An error occurred." otherwise, and loading stops |
| AddAlbumModal.Close | components/AddAlbum/AddAlbumModal.tsx:84-89 | both fields and the error are cleared |
| AddAlbumModal.FailuresStopLoading | components/AddAlbum/AddAlbumModal.tsx:46-81 | a failed validation keeps loading as it was, and every later failure path leaves loading off |
| AddAlbumModal.WireDuration | components/AddAlbum/AddAlbumModal.tsx:66-71 | the serialised duration is a number iff the looked-up duration is an integer; `NaN` becomes null |
| AddAlbumModal.Coerce | components/AddAlbum/AddAlbumModal.tsx:73-77 | the input reaches the server iff no duration is an integer outside 32 bits; then its fields are carried over with no genre or year, a `NaN` duration arriving as null |
| AddAlbumModal.AddedAlbumGetsDefaults | components/AddAlbum/AddAlbumModal.tsx:60-77 | an album added from the modal is stored with genre "Unknown", the current year, the lookup's covers and URL, and one track per looked-up track with consecutive ids and its name, artist, URL and duration, null where the lookup read `NaN` |
| AddAlbumModal.UnparsedDurationStoredAsNull | components/AddAlbum/AddAlbumModal.tsx:66-77 | a track whose duration text does not parse still adds the album, with that track's duration null |
| TrackList.JsRemainder | components/Albums/TrackList/TrackList.tsx:21 | JavaScript `%`: the truncated remainder, that is the remainder of the dividend's magnitude with the dividend's sign |
| TrackList.FormatDuration | components/Albums/TrackList/TrackList.tsx:18-23 | dashes for no or zero duration; for a positive one, a colon with the whole minutes before it and two digits of the remaining seconds after it |
| TrackList.PositiveDigits | components/Albums/TrackList/TrackList.tsx:20-22 | for a positive duration the parts are the numerals of minutes and seconds |
| TrackList.PositiveText | components/Albums/TrackList/TrackList.tsx:20-22 | for a positive duration, floor and `%` agree with natural division |
| TrackList.PaddedSeconds | components/Albums/TrackList/TrackList.tsx:22 | the seconds are always two digits with their value |
| TrackList.MinutesSecondsDigits | components/Albums/TrackList/TrackList.tsx:22 | the text splits at the colon into the minutes' numeral and the padded seconds |
| TrackList.ParseDuration | components/Albums/TrackList/TrackList.tsx:22 | reads `m:ss` back into a non-negative number of seconds |
| TrackList.ParseDurationOf | components/Albums/TrackList/TrackList.tsx:22 | digits, a colon and two digits below 60 read back as minutes times 60 plus seconds |
| TrackList.FormatDurationRoundTrip | components/Albums/TrackList/TrackList.tsx:18-23 | every positive duration is shown so that it reads back exactly |
| TrackList.AnHourIsSixtyMinutes | components/Albums/TrackList/TrackList.tsx:20-22 | 3600 seconds show as "60:00" |
| TrackList.NegativeDurationKeepsSigns | components/Albums/TrackList/TrackList.tsx:20-22 | -61 seconds show as "-2:-1" |
| TrackList.ArtistLine | components/Albums/TrackList/TrackList.tsx:77-81 | the artist is shown iff non-empty and different from the track name |
| TrackList.Render | components/Albums/TrackList/TrackList.tsx:25-95 | the empty message iff no tracks; otherwise one numbered row per track with its name, artist line, formatted duration and a link to the track's URL iff that URL is truthy |
| EndToEnd.SignedTokenIdentifiesCaller | lib/apollo-client.ts:9-17 | a token the server signed, sent by the auth link, gives the context that user's id |
| EndToEnd.NoStoredTokenIsAnonymous | lib/apollo-client.ts:10-14 | without a stored token the request context has no user |
| EndToEnd.ToClientAlbum | app/graphql/resolvers/album.ts:209-215 | the client's album has the row's id and the resolved `isLiked` |
| EndToEnd.ToMeRecord | app/graphql/resolvers/auth.ts:80-107 | the client's user lists one album per liked album, in order |
| EndToEnd.CardAgreesWithStore | components/Albums/AlbumCard/AlbumCard.tsx:48-54 | after the current-user query as written, a card is liked iff the store holds the caller's row for its album |
| EndToEnd.MeRecordLikedFlags | app/graphql/resolvers/auth.ts:100-107 | the client receives `isLiked` false for every album of the as-written `me` list, and true for each with the corrected field |
| EndToEnd.ListedIffLiked | app/graphql/resolvers/auth.ts:100-107 | an album id appears in the liked list iff the user has a like row for it |
| EndToEnd.EmptyNameStoredAsNull | components/Auth/RegisterForm.tsx:95-103 | a registration with an empty name field stores a null name |
| EndToEnd.RegisteredUserCanLogIn | components/Auth/LoginForm.tsx:77-91 | logging in through the form with the registered email and password succeeds with the registered user and a token identifying that user |
| Text.ToLower | components/Albums/AlbumCard/AlbumCard.tsx:125 | same length, each character lower-cased |
| Text.ToUpper | components/NavBar/NavBar.tsx:105 | same length, each character upper-cased |
| Text.Take | components/NavBar/NavBar.tsx:106 | a prefix of at most n characters, exactly n when there are enough |
| Text.PadStart | components/Albums/TrackList/TrackList.tsx:22 | a string at least as wide is unchanged; otherwise fill characters then the string, exactly the width |
| Text.JoinSplit | lib/auth.ts:58 | joining the fields of a split with the separator gives the string back |
| Text.SplitFieldsLackSeparator | lib/auth.ts:58 | no field contains the separator |
| Text.SplitWithoutSeparator | lib/auth.ts:58 | a string without the separator is one field |
| Text.SplitAfterField | lib/auth.ts:58 | a separator-free prefix followed by the separator is the first field |
| Text.SplitFirstField | lib/auth.ts:58 | the first field is the longest separator-free prefix |
| Text.NatToString | components/Albums/TrackList/TrackList.tsx:22 | a non-empty digit string without a leading zero unless the number is 0 |
| Text.NatToStringRoundTrip | components/Albums/TrackList/TrackList.tsx:22 | the numeral's digits have the number's value |
| Text.TrimStart | lib/lastfm-api.ts:99 | the string without its leading white space: a suffix that does not start with white space, everything dropped being white space |
| Text.DigitPrefix | lib/lastfm-api.ts:99 | the longest prefix made of digits |
| Text.ParseInt10 | lib/lastfm-api.ts:99 | a number iff a digit follows the white space and the sign |
| Text.DigitPrefixOfDigits | lib/lastfm-api.ts:99 | digits followed by a non-digit read as exactly those digits |
| Text.NumeralSign | lib/lastfm-api.ts:99 | a numeral reads as its sign followed by the magnitude's digits |
| Text.ParseInt10OfNumeral | lib/lastfm-api.ts:99 | `parseInt(String(n) + rest, 10)` is n whenever rest does not start with a digit |
| Text.ParseIntOfNumeral | lib/lastfm-api.ts:99 | `parseInt(String(n))` is n: a decimal numeral never looks hexadecimal |
| Text.NumeralNotHex | lib/lastfm-api.ts:99 | a decimal numeral never starts with the `0x` prefix that would make `parseInt` read it as hexadecimal |
| Text.ReplaceSpaceRuns | components/Albums/AlbumCard/AlbumCard.tsx:125 | no white space remains, and the result is no longer |
| Text.DropSpacesRun | components/Albums/AlbumCard/AlbumCard.tsx:125 | a run of white space ends where text without leading white space begins |
| Text.ReplaceSpaceRunsStep | components/Albums/AlbumCard/AlbumCard.tsx:125 | a maximal white-space run becomes exactly one dash, and the text before it is kept |
| Text.ReplaceSpaceRunsWithoutSpace | components/Albums/AlbumCard/AlbumCard.tsx:125 | a string without white space is unchanged |
| Text.ReplaceSpaceRunsIdempotent | components/Albums/AlbumCard/AlbumCard.tsx:125 | replacing twice is the same as once |
| Text.EncodeUriComponent | components/Albums/AlbumCard/AlbumCard.tsx:124 | only unreserved characters and percent escapes remain, and a string of unreserved characters is unchanged |
| Text.EncodeUriComponentAppend | components/Albums/AlbumCard/AlbumCard.tsx:124 | encoding distributes over concatenation |
| Text.EncodeUriComponentOne | components/Albums/AlbumCard/AlbumCard.tsx:124 | an unreserved character is kept; any other becomes the percent escapes of its UTF-8 bytes |
| Text.Utf8 | components/Albums/AlbumCard/AlbumCard.tsx:124 | one to four bytes, and ASCII as itself |
| Text.Utf8WellFormed | components/Albums/AlbumCard/AlbumCard.tsx:124 | UTF-8 in its shortest form: the length fixed by the value's range, the lead byte marking it, continuation bytes in 0x80-0xBF, and the bytes decoding back to the character |
| Text.PercentEncode | components/Albums/AlbumCard/AlbumCard.tsx:124 | three characters per byte, each `%` or a hex digit |
| Text.PercentEncodeSpells | components/Albums/AlbumCard/AlbumCard.tsx:124 | each byte's escape is `%` then two hex digits whose value is the byte |
| Text.Utf16Length | components/Auth/RegisterForm.tsx:89 | between one and two code units per character |
| Text.Utf16 | components/NavBar/NavBar.tsx:102-108 | the code units JavaScript indexes: as many as `Utf16Length`, each below 0x10000 |
| Text.Utf16OfBmp | components/NavBar/NavBar.tsx:102-108 | on Basic Multilingual Plane text, one code unit per character, equal to its code |
| Text.TakeAgreesOnBmp | components/NavBar/NavBar.tsx:106 | on Basic Multilingual Plane text, `Take` is `substring(0, n)` on code units, and a word's first character is its `[0]` |
| Text.AstralFirstUnitIsSurrogate | components/NavBar/NavBar.tsx:103 | an emoji's `[0]` is a lone high surrogate, not the emoji |

## Left out

- The Prisma client, the database and their errors: the store is an immutable value, and a failed query is not modelled.
- Catalog.LikeAlbum: succeeds for any truthy caller id with an existing album; the foreign-key failure of `likedAlbum.create` when the token's user row has since been deleted is not modelled.
- AlbumList.BuildFilter: the year field holds an integer; `Number(value)` on a fractional or non-numeric entry gives a non-integer or `NaN` that the GraphQL `Int` rejects, and that request error is not modelled.
- Concurrent requests: two concurrent likes that race on the unique constraint are not modelled, since every resolver runs atomically here.
- JWT signing and verification, bcrypt and token expiry are opaque functions; only the soundness hypotheses `TokensSound` and `PasswordsSound` are assumed of them.
- Accounts.LoginAfterRegister: signing is modelled as clock-free, though `jsonwebtoken` stamps the issue and expiry times, so tokens issued in different seconds differ. The lemma therefore promises the same user and tokens that verify to the same claims, not equal tokens.
- LastFm.Duration: a numeric Last.fm duration is taken as an integer. The model assumes it is below 10^21 in magnitude, where `String(n)` is the plain numeral. A fractional number (which `parseInt` truncates) and the exponent form `String` gives from 10^21 up (which `parseInt` reads as its leading digit) are not modelled.
- The user id generation (cuid) is the parameter `newId`, and the current year is the parameter `currentYear`.
- Title ordering compares character codes (a binary collation), and equal titles keep table order; the database's own collation is not modelled.
- The order of `me.likedAlbums`: the source's query has no `orderBy`, and the model lists albums in table order.
- Accounts.LikedAlbums: the corrected field promises `isLiked` only for a non-empty user id, because `isLiked` reads a falsy id as no caller.
- Apollo Client internals: the normalized cache, optimistic-layer rollback, `refetchQueries`, `resetStore`, `fetchPolicy` and query skipping are not modelled. The completion callbacks take which step throws (`CacheStep`) and whether the reset succeeds as parameters.
- AddAlbumModal.Coerce: GraphQL input coercion checks only the 32-bit range of `Int` durations; a `NaN` duration is serialised as null, and non-integer numbers cannot arise because `parseInt` yields integers or `NaN`.
- NavBar.FirstChars, NavBar.Initials and Text.Take index whole characters, while `n[0]` and `substring` index UTF-16 code units. A string here cannot hold a lone surrogate. The two agree on Basic Multilingual Plane text (`TakeAgreesOnBmp`). For a name or email starting with a character outside that plane, the program shows a lone surrogate or the single character, and the model shows the whole character plus the next one.
- `JSON.stringify` of the stored user: storage holds the email and name as a record.
- `toLowerCase` and `toUpperCase` map ASCII letters only, because the model has no Unicode case tables.
- Rendering, styling, routing and the Next.js page shell are not modelled; only what each component computes from its state is. This includes the page's `!albumId` check, which treats the id 0 as missing.
- The Last.fm HTTP request itself: the URL parameters and the API key are not modelled, the reply is the parameter `reply`, and a thrown fetch is `None`.
- `console.error` logging and `onSuccess` and `onClose` callbacks to parent components are not modelled.
- The client's storage event is treated as carrying no key, which is what a plain `new Event("storage")` delivers to the handler.

## Findings

| source | as written | input that shows it | evidently intended | confidence | as-written member | corrected member |
|---|---|---|---|---|---|---|
| app/graphql/resolvers/auth.ts:100-107 | `User.likedAlbums` returns the bare album rows, which carry no `likedBy`, so `Album.isLiked` (album.ts:209-215) answers false for every entry | a user with one like queries `me { likedAlbums { isLiked } }` (the client's current-user query selects it) and gets `false` for an album they like | each liked album reports `isLiked: true` to its liker | medium, not executed | Accounts.LikedAlbumsAsWritten, Accounts.LikedAlbumsAsWrittenReportNotLiked, Accounts.CurrentUserAsWritten | Accounts.LikedAlbums, Accounts.CurrentUser |
| components/Auth/RegisterForm.tsx:31-68 | registration stores the token but never sets the shared logged-in flag; the dispatched `new Event("storage")` has no key, so the handler at context/AuthContext.tsx:27 ignores it | a logged-out visitor registers successfully: the flag stays false while a reload would find the token and log them in | registration sets the flag as login does at components/Auth/LoginForm.tsx:43 | high, not executed | RegisterForm.OnCompletedAsWritten, RegisterForm.RegisteredVisitorStaysLoggedOut | RegisterForm.OnCompleted |
| app/album/[slug]/page.tsx:41-42 | the route segment `[slug]` is a string, although it is typed `string[]` at line 26, so `slug[0]` is its first character and only that character is parsed | the card for album 12 pushes `/album/12-title`; the page reads id 1 | the whole first dash-separated field is parsed, giving back the card's id | high, not executed | AlbumCard.SlugIdAsWritten, AlbumCard.SlugIdAsWrittenMisreadsTwoDigitIds | AlbumCard.SlugId |
