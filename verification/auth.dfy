/** Bearer-token identity resolution on the server (lib/auth.ts). JWT signing and
    verification and bcrypt hashing are opaque: they are the function-valued
    fields of a `Crypto` record, and what is assumed of them is stated as
    predicates that lemmas take as hypotheses. */
module Auth {
  import opened Wrappers
  import opened Text

  /** The payload of a signed token. */
  datatype Claims = Claims(userId: string, email: string)

  /** The cryptographic primitives with the server's secret and the token
      expiry folded in. `verify` answers `None` for every token it rejects,
      which is what `verifyToken` makes of a thrown verification error. */
  datatype Crypto = Crypto(
    sign: Claims -> string,
    verify: string -> Option<Claims>,
    hash: string -> string,
    compare: (string, string) -> bool)

  /** Verification accepts what signing produced (an unexpired token). */
  ghost predicate TokensSound(c: Crypto) {
    forall p :: c.verify(c.sign(p)) == Some(p)
  }

  /** A password matches its own hash. */
  ghost predicate PasswordsSound(c: Crypto) {
    forall pw :: c.compare(pw, c.hash(pw))
  }

  /** `generateToken`: a token whose payload is exactly the user's id and email. */
  function GenerateToken(c: Crypto, id: string, email: string): (token: string)
    ensures TokensSound(c) ==> c.verify(token) == Some(Claims(id, email))
  {
    c.sign(Claims(id, email))
  }

  // ---------------------------------------------------------------------------
  // Requests as the three hosting surfaces present them
  // ---------------------------------------------------------------------------

  /** What a header lookup yields in JavaScript. */
  datatype Slot = Undefined | Null | Str(s: string) | NonString

  predicate Nullish(v: Slot) {
    v.Undefined? || v.Null?
  }

  /** A `headers` object: `get` is `Some(answer to get("authorization"))` when
      the object has a `get` method (a Fetch `Headers`), `None` otherwise; and
      its plain `authorization` property. */
  datatype Headers = Headers(get: Option<Slot>, authorization: Slot)

  /** A request object: `NoRequest` is null or undefined; otherwise its optional
      `headers` and its `req` property (a wrapped Node request). */
  datatype Request = NoRequest | Request(headers: Option<Headers>, req: Request)

  /** `a ?? b` */
  function Coalesce(a: Slot, b: Slot): Slot {
    if Nullish(a) then b else a
  }

  function ViaGetter(h: Option<Headers>): Slot {
    if h.Some? && h.value.get.Some? then h.value.get.value else Undefined
  }

  function ViaProperty(h: Option<Headers>): Slot {
    if h.Some? then h.value.authorization else Undefined
  }

  function ViaInner(inner: Request): Slot {
    if inner.Request? then ViaProperty(inner.headers) else Undefined
  }

  /** The authorization header of a non-null request: the Fetch `get`, then
      the `authorization` property, then the wrapped request's property, each
      consulted only when the previous ones are null or undefined. */
  function AuthorizationHeader(req: Request): (v: Slot)
    requires req.Request?
    ensures !Nullish(ViaGetter(req.headers)) ==> v == ViaGetter(req.headers)
    ensures Nullish(ViaGetter(req.headers)) && !Nullish(ViaProperty(req.headers)) ==>
              v == ViaProperty(req.headers)
    ensures Nullish(ViaGetter(req.headers)) && Nullish(ViaProperty(req.headers)) ==>
              v == ViaInner(req.req)
  {
    Coalesce(Coalesce(ViaGetter(req.headers), ViaProperty(req.headers)), ViaInner(req.req))
  }

  /** The only scheme accepted, matched case-sensitively with exactly one space. */
  const BearerPrefix: string := "Bearer "

  /** A header is accepted when it is a string starting with the bearer prefix. */
  predicate Accepted(v: Slot) {
    v.Str? && BearerPrefix <= v.s
  }

  /** `header.split(" ")[1]`: the text after the prefix up to the next space. */
  function BearerToken(header: string): (token: string)
    requires BearerPrefix <= header
    ensures token <= header[|BearerPrefix|..] && ' ' !in token
    ensures |token| < |header| - |BearerPrefix| ==> header[|BearerPrefix| + |token|] == ' '
  {
    var rest := header[|BearerPrefix|..];
    assert header == "Bearer" + [' '] + rest;
    SplitAfterField("Bearer", ' ', rest);
    SplitFirstField(rest, ' ');
    Split(header, ' ')[1]
  }

  /** `getUserFromRequest`: the verified claims of the bearer token, or `None`
      for a null request, a missing, non-string or non-bearer header, and a
      token that fails verification. It never fails. */
  function GetUserFromRequest(c: Crypto, req: Request): (user: Option<Claims>)
    ensures req.NoRequest? ==> user == None
    ensures req.Request? && !Accepted(AuthorizationHeader(req)) ==> user == None
    ensures req.Request? && Accepted(AuthorizationHeader(req)) ==>
              user == c.verify(BearerToken(AuthorizationHeader(req).s))
  {
    match req
    case NoRequest => None
    case Request(_, _) =>
      var header := AuthorizationHeader(req);
      if header.Str? && BearerPrefix <= header.s then c.verify(BearerToken(header.s)) else None
  }

  /** The token handed to verification is exactly the space-free word after the
      prefix, whatever follows it after a space. */
  lemma {:induction false} TokenIsFirstWord(c: Crypto, req: Request, token: string, tail: string)
    requires req.Request? && AuthorizationHeader(req) == Str(BearerPrefix + token + tail)
    requires ' ' !in token
    requires tail == "" || tail[0] == ' '
    ensures GetUserFromRequest(c, req) == c.verify(token)
  {
    var header := BearerPrefix + token + tail;
    var rest := token + tail;
    assert header[|BearerPrefix|..] == rest;
    if tail == "" {
      assert rest == token;
      SplitWithoutSeparator(token, ' ');
    } else {
      assert rest == token + [' '] + tail[1..];
      SplitAfterField(token, ' ', tail[1..]);
    }
    assert header == "Bearer" + [' '] + rest;
    SplitAfterField("Bearer", ' ', rest);
  }

  /** The header must be a string: a request with none, or with only null
      headers, resolves to no identity. */
  lemma MissingHeaderGivesNoUser(c: Crypto, headers: Option<Headers>)
    requires Nullish(ViaGetter(headers)) && Nullish(ViaProperty(headers))
    ensures GetUserFromRequest(c, Request(headers, NoRequest)) == None
  {
  }

  /** The scheme is matched case-sensitively. */
  lemma LowercaseSchemeRejected(c: Crypto, req: Request, token: string)
    requires req.Request? && AuthorizationHeader(req) == Str("bearer " + token)
    ensures GetUserFromRequest(c, req) == None
  {
    assert ("bearer " + token)[0] != BearerPrefix[0];
  }

  /** Two spaces after the scheme yield the empty token, not the text after them. */
  lemma DoubleSpaceGivesEmptyToken(c: Crypto, req: Request, x: string)
    requires req.Request? && AuthorizationHeader(req) == Str("Bearer  " + x)
    ensures GetUserFromRequest(c, req) == c.verify("")
  {
    assert "Bearer  " + x == BearerPrefix + "" + (" " + x);
    TokenIsFirstWord(c, req, "", " " + x);
  }
}
