/** The per-request resolver context (app/graphql/context.ts): picks the request
    object out of whatever the hosting surface passes and derives the caller's
    user id from it. */
module RequestContext {
  import opened Wrappers
  import opened Auth

  /** What the server hands to `createContext`: null or undefined, or an object
      with optional `req` and `request` properties and, when the object is the
      request itself, its own `headers`. */
  datatype HostContext = NoContext | HostContext(req: Request, request: Request, headers: Option<Headers>)

  /** `ctx?.req || ctx?.request || ctx` */
  function SelectRequest(ctx: HostContext): (req: Request)
    ensures ctx.HostContext? && ctx.req.Request? ==> req == ctx.req
    ensures ctx.HostContext? && ctx.req.NoRequest? && ctx.request.Request? ==> req == ctx.request
    ensures ctx.HostContext? && ctx.req.NoRequest? && ctx.request.NoRequest? ==>
              req == Request(ctx.headers, NoRequest)
    ensures ctx.NoContext? ==> req.NoRequest?
  {
    match ctx
    case NoContext => NoRequest
    case HostContext(req, request, headers) =>
      if req.Request? then req
      else if request.Request? then request
      // the context object is the request; its own `req` is falsy here
      else Request(headers, NoRequest)
  }

  /** The context every resolver receives. */
  datatype GraphQLContext = GraphQLContext(userId: Option<string>)

  /** `createContext`: the user id of the verified token when it is non-empty,
      and no user otherwise; an absent or invalid credential is not an error. */
  function CreateContext(c: Crypto, ctx: HostContext): (context: GraphQLContext)
    ensures context.userId.Some? ==> context.userId.value != ""
    ensures context.userId.Some? <==>
              (var claims := GetUserFromRequest(c, SelectRequest(ctx));
               claims.Some? && claims.value.userId != "")
    ensures context.userId.Some? ==>
              context.userId.value == GetUserFromRequest(c, SelectRequest(ctx)).value.userId
    ensures ctx.NoContext? ==> context.userId == None
  {
    var claims := GetUserFromRequest(c, SelectRequest(ctx));
    if claims.Some? && claims.value.userId != "" then GraphQLContext(Some(claims.value.userId))
    else GraphQLContext(None)
  }
}
