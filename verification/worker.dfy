/** The Cloudflare Worker back end (`myblog_worker/src/index.js`): the same
    statements as the local server's router, behind one guard. Every request
    that writes, and the password check itself, must carry an `X-Auth-Key`
    header equal to the `ADMIN_PASSWORD` binding, or to `'123456'` when that
    binding is unset or empty. Reads are open. */
module Worker {
  import opened Wrappers
  import opened PostTable
  import opened PostRoutes

  const FallbackPassword: string := "123456"
  const Unauthorized: string := "未授权：密码错误"
  const NoSuchEndpoint: string := "接口不存在"

  /** `c.env.ADMIN_PASSWORD || '123456'`: the key the guard compares with.
      It is never empty, so an empty header can never pass. */
  function ExpectedKey(adminPassword: Option<string>): (r: string)
    ensures r != ""
    ensures Filled(adminPassword) ==> r == adminPassword.value
    ensures !Filled(adminPassword) ==> r == FallbackPassword
  {
    OrDefault(adminPassword, FallbackPassword)
  }

  /** `authKey !== adminPassword` fails the guard; a missing header is
      `undefined` and never equal to a string. */
  predicate Authorized(header: Option<string>, adminPassword: Option<string>) {
    header.Some? && header.value == ExpectedKey(adminPassword)
  }

  /** A request as the router dispatches it. `Other` is any method and path
      no route matches. */
  datatype Request =
    | VerifyKey
    | ListPosts(query: Option<string>)
    | GetPost(id: nat)
    | CreatePost(input: PostInput)
    | UpdatePost(id: nat, input: PostInput)
    | DeletePost(id: nat)
    | Other

  /** The routes registered with the `auth` middleware. */
  predicate Guarded(req: Request) {
    req.VerifyKey? || req.CreatePost? || req.UpdatePost? || req.DeletePost?
  }

  /** The reply the middleware sends instead of running the handler. */
  const Refused: Reply := Reply(401, Error(Unauthorized))

  /** `POST /api/verify`: `{ status: 'ok' }` past the guard, 401 otherwise. */
  function Verify(header: Option<string>, adminPassword: Option<string>): (r: Reply)
    ensures r.status == 200 <==> Authorized(header, adminPassword)
    ensures r.status == 200 ==> r.body == Status("ok")
    ensures r.status != 200 ==> r == Refused
  {
    if Authorized(header, adminPassword) then Reply(200, Status("ok")) else Refused
  }

  /** The worker's router. Reads run the shared handlers whatever the header;
      a guarded route runs its handler only past the guard, and is refused
      with 401 and no change otherwise. No handler answers 401 by itself, so
      401 means exactly "guarded and refused". */
  function Handle(t: Table, req: Request, header: Option<string>, adminPassword: Option<string>, now: nat): (r: Handled)
    requires Valid(t)
    ensures Valid(r.table)
    ensures r.reply.status == 401 <==> Guarded(req) && !Authorized(header, adminPassword)
    ensures r.reply.status == 401 ==> r == Handled(t, Refused)
    ensures req.Other? ==> r == Handled(t, Reply(404, Error(NoSuchEndpoint)))
  {
    if Guarded(req) && !Authorized(header, adminPassword) then
      Handled(t, Refused)
    else
      match req
      case VerifyKey => Handled(t, Verify(header, adminPassword))
      case ListPosts(query) => List(t, query)
      case GetPost(id) => Get(t, id)
      case CreatePost(input) => Create(t, input, now)
      case UpdatePost(id, input) => Update(t, id, input, now)
      case DeletePost(id) => Delete(t, id)
      case Other => Handled(t, Reply(404, Error(NoSuchEndpoint)))
  }

  /** The local server's router for the same requests: the same handlers
      with no guard, and no password route. */
  function Serve(t: Table, req: Request, now: nat): (r: Handled)
    requires Valid(t)
    ensures Valid(r.table)
    ensures r.reply.status != 401
  {
    match req
    case ListPosts(query) => List(t, query)
    case GetPost(id) => Get(t, id)
    case CreatePost(input) => Create(t, input, now)
    case UpdatePost(id, input) => Update(t, id, input, now)
    case DeletePost(id) => Delete(t, id)
    case _ => Handled(t, Reply(404, Error(NoSuchEndpoint)))
  }

  /** Whoever sends it, a refused request leaves the table as it was. */
  lemma RefusedChangesNothing(t: Table, req: Request, header: Option<string>, adminPassword: Option<string>, now: nat)
    requires Valid(t) && !Authorized(header, adminPassword)
    ensures Handle(t, req, header, adminPassword, now).table == t
  {
  }

  /** Reads ignore the header: any two callers get the same answer. */
  lemma ReadsAreOpen(t: Table, req: Request, h1: Option<string>, h2: Option<string>, adminPassword: Option<string>, now: nat)
    requires Valid(t) && (req.ListPosts? || req.GetPost?)
    ensures Handle(t, req, h1, adminPassword, now) == Handle(t, req, h2, adminPassword, now)
    ensures Handle(t, req, h1, adminPassword, now) == Serve(t, req, now)
  {
  }

  /** With the right key the worker behaves exactly as the local server on
      every posts route. */
  lemma AuthorizedMatchesServer(t: Table, req: Request, header: Option<string>, adminPassword: Option<string>, now: nat)
    requires Valid(t) && Authorized(header, adminPassword) && !req.VerifyKey?
    ensures Handle(t, req, header, adminPassword, now) == Serve(t, req, now)
  {
  }

  /** Without a header, or with an empty one, every guarded route is refused
      whatever the binding holds. */
  lemma MissingOrEmptyKeyRefused(t: Table, req: Request, header: Option<string>, adminPassword: Option<string>, now: nat)
    requires Valid(t) && Guarded(req) && (header.None? || header == Some(""))
    ensures Handle(t, req, header, adminPassword, now) == Handled(t, Refused)
  {
  }

  /** With the binding unset or empty the fallback password opens the
      guard; once a different password is bound, the fallback no longer
      does. */
  lemma FallbackOnlyWhenUnset(adminPassword: Option<string>)
    ensures Authorized(Some(FallbackPassword), adminPassword) <==>
      (!Filled(adminPassword) || adminPassword.value == FallbackPassword)
  {
  }
}
