/** The repository's own parts of the Apollo client (lib/apollo-client.ts):
    the link that attaches the stored token to every request, and the two
    cache merge functions. */
module ApolloClient {
  import opened Wrappers
  import opened Text
  import opened Auth
  import opened ClientTypes

  const AuthorizationKey := "authorization"

  /** The value `authLink` gives the `authorization` header for a stored token. */
  function AuthorizationValue(token: Option<string>): (v: string)
    ensures Truthy(token) ==> v == BearerPrefix + token.value
    ensures !Truthy(token) ==> v == ""
  {
    if Truthy(token) then "Bearer " + token.value else ""
  }

  /** `authLink`: the outgoing headers with `authorization` set from the stored
      token, every other header kept as it was. */
  function AuthLink(headers: map<string, string>, token: Option<string>): (r: map<string, string>)
    ensures r.Keys == headers.Keys + {AuthorizationKey}
    ensures r[AuthorizationKey] == AuthorizationValue(token)
    ensures forall k :: k in headers && k != AuthorizationKey ==> r[k] == headers[k]
  {
    headers[AuthorizationKey := AuthorizationValue(token)]
  }

  /** The request the server's Fetch handler sees for a set of headers: a
      `Headers` object whose `get` answers the value, or null when absent. */
  function AsFetchRequest(headers: map<string, string>): (req: Request)
    ensures req.Request? && req.headers.Some? && req.headers.value.get.Some?
    ensures AuthorizationKey in headers ==> AuthorizationHeader(req) == Str(headers[AuthorizationKey])
  {
    var got := if AuthorizationKey in headers then Str(headers[AuthorizationKey]) else Null;
    Request(Some(Headers(Some(got), Undefined)), NoRequest)
  }

  /** Round trip: a stored non-empty token without spaces reaches verification
      unchanged, whatever other headers the request carries. */
  lemma AuthLinkRoundTrip(c: Crypto, headers: map<string, string>, token: string)
    requires token != "" && ' ' !in token
    ensures GetUserFromRequest(c, AsFetchRequest(AuthLink(headers, Some(token)))) == c.verify(token)
  {
    var req := AsFetchRequest(AuthLink(headers, Some(token)));
    assert AuthorizationHeader(req) == Str(BearerPrefix + token + "");
    TokenIsFirstWord(c, req, token, "");
  }

  /** Without a stored token the header is empty, which the server resolves to
      no identity rather than to an error. */
  lemma NoTokenNoIdentity(c: Crypto, headers: map<string, string>, token: Option<string>)
    requires !Truthy(token)
    ensures GetUserFromRequest(c, AsFetchRequest(AuthLink(headers, token))) == None
  {
  }

  /** A stored token containing a space is cut at the space on the server. */
  lemma SpacedTokenIsTruncated(c: Crypto, headers: map<string, string>, a: string, b: string)
    requires ' ' !in a
    ensures GetUserFromRequest(c, AsFetchRequest(AuthLink(headers, Some(a + " " + b)))) == c.verify(a)
  {
    var req := AsFetchRequest(AuthLink(headers, Some(a + " " + b)));
    assert AuthorizationHeader(req) == Str(BearerPrefix + a + (" " + b));
    TokenIsFirstWord(c, req, a, " " + b);
  }

  /** The `me` field merge, `incoming || existing`: a non-null incoming user
      wins, and a null or missing one keeps what is cached. */
  function MergeMe(existing: Field<MeRecord>, incoming: Field<MeRecord>): (r: Field<MeRecord>)
    ensures incoming.Present? ==> r == incoming
    ensures !incoming.Present? ==> r == existing
  {
    if incoming.Present? then incoming else existing
  }

  /** The cached `me` after a series of responses: the last non-null one, or
      the initial entry when every response was null. */
  function MergeAll(existing: Field<MeRecord>, responses: seq<Field<MeRecord>>): Field<MeRecord>
    decreases |responses|
  {
    if |responses| == 0 then existing
    else MergeAll(MergeMe(existing, responses[0]), responses[1..])
  }

  /** Merging a series of responses keeps the last user that arrived, and the
      initial entry only when none did. */
  lemma {:induction false} MergeAllKeepsLastUser(existing: Field<MeRecord>, responses: seq<Field<MeRecord>>)
    ensures (forall k :: 0 <= k < |responses| ==> !responses[k].Present?) ==>
              MergeAll(existing, responses) == existing
    ensures forall k :: 0 <= k < |responses| ==>
              (responses[k].Present? && (forall j :: k < j < |responses| ==> !responses[j].Present?)) ==>
              MergeAll(existing, responses) == responses[k]
    decreases |responses|
  {
    if |responses| > 0 {
      MergeAllKeepsLastUser(MergeMe(existing, responses[0]), responses[1..]);
      assert forall k :: 1 <= k < |responses| ==> responses[k] == responses[1..][k - 1];
    }
  }

  /** The `User.likedAlbums` merge: the incoming list replaces the cached one,
      an omitted one becoming the empty list. */
  function MergeLikedAlbums(existing: Field<seq<ClientAlbum>>, incoming: Field<seq<ClientAlbum>>): (r: Field<seq<ClientAlbum>>)
    ensures incoming.Missing? ==> r == Present([])
    ensures !incoming.Missing? ==> r == incoming
  {
    if incoming.Missing? then Present([]) else incoming
  }

  /** The cached list never survives a merge, so merging the same response
      again changes nothing. */
  lemma LikedAlbumsMergeIdempotent(e1: Field<seq<ClientAlbum>>, e2: Field<seq<ClientAlbum>>, incoming: Field<seq<ClientAlbum>>)
    ensures MergeLikedAlbums(e1, incoming) == MergeLikedAlbums(e2, incoming)
    ensures MergeLikedAlbums(MergeLikedAlbums(e1, incoming), incoming) == MergeLikedAlbums(e1, incoming)
  {
  }
}
