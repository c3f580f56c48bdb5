/** The client's content API (`myblog_app/src/api/posts.js`): the
    stale-while-revalidate read policies `getPosts` and `getPost`, their
    background refreshes, and the write wrappers that invalidate the cache.

    A network call is not made here: each operation reports the request it
    would send and takes the response as the parameter `resp`. A background
    refresh is not started either: a stale read returns it as a `Refresh`
    value, and `RunRefresh` applies it later with the response it got. */
module PostsApi {
  import opened Wrappers
  import opened PostsCache

  /** The category that means "no filter" in the blog's UI. */
  const AllCategory: string := "全部"

  const ListFailed: string := "获取文章列表失败"
  const PostFailed: string := "获取文章失败"
  const CreateFailed: string := "创建文章失败"
  const UpdateFailed: string := "更新文章失败"
  const DeleteFailed: string := "删除文章失败"
  const WrongPassword: string := "密码错误"

  /** The storage key `getAuthHeaders` reads the credential from. */
  const PasswordKey: string := "admin_password"

  /** What `fetch` resolves to: an HTTP status with its parsed JSON body, or
      a rejection (network failure). */
  datatype Response = Reply(status: int, body: Json) | NetworkError

  /** `response.ok`. */
  predicate IsOk(resp: Response) {
    resp.Reply? && 200 <= resp.status <= 299
  }

  /** Why a call rejected: the transport's own error, `localStorage`
      throwing outside a `try`, or an `Error` with one of the messages above. */
  datatype Failure = Network | StorageThrew | Message(text: string)

  /** How an `async` API call settles. */
  datatype Outcome = Returned(value: Json) | Threw(error: Failure)

  /** The requests the client sends. `key` is the `X-Auth-Key` header value. */
  datatype Request =
    | ListAll
    | ListCategory(category: string)
    | FetchPost(id: nat)
    | VerifyRequest(key: Stored)
    | CreateRequest(post: Json, key: Stored)
    | UpdateRequest(id: nat, post: Json, key: Stored)
    | DeleteRequest(id: nat, key: Stored)

  /** A background refresh scheduled by a stale read. */
  datatype Refresh = RefreshPosts(category: Option<string>, key: string) | RefreshPost(id: nat, key: string)

  /** The result of a read: how the call settled, the store after it, the
      request it awaited (if any), and the refresh it left running (if any). */
  datatype ReadStep = ReadStep(outcome: Outcome, tiers: Tiers, fetched: Option<Request>, refresh: Option<Refresh>)

  /** `category || 'all'`: a missing or empty category lists everything.
      The name is never empty. */
  function CategoryName(category: Option<string>): (name: string)
    ensures name != ""
    ensures category.Some? && category.value != "" ==> name == category.value
    ensures category.None? || category.value == "" ==> name == "all"
  {
    if category.Some? && category.value != "" then category.value else "all"
  }

  /** The cache key of a post list: the `posts_` family, followed by the
      category name it was built from. */
  function PostsKey(category: Option<string>): (key: string)
    ensures Text.StartsWith(key, "posts_")
    ensures key[6..] == CategoryName(category)
  {
    Text.StartsWithConcat("posts_", CategoryName(category));
    "posts_" + CategoryName(category)
  }

  /** The cache key of a single post: the `post_` family, followed by a
      decimal that reads back as the id. */
  function PostKey(id: nat): (key: string)
    ensures Text.StartsWith(key, "post_")
    ensures Text.ParseNat(key[5..]) == Some(id)
  {
    var digits := Text.NatToString(id);
    Text.StartsWithConcat("post_", digits);
    Text.ParseNatToString(id);
    assert ("post_" + digits)[5..] == digits;
    "post_" + digits
  }

  /** The URL `fetchAndCachePosts` requests: a query string only for a
      non-empty category other than the "all" tab. */
  function ListRequest(category: Option<string>): (r: Request)
    ensures r.ListCategory? <==> category.Some? && category.value != "" && category.value != AllCategory
    ensures r.ListCategory? ==> r.category == category.value
    ensures r.ListAll? || r.ListCategory?
  {
    if category.Some? && category.value != "" && category.value != AllCategory then
      ListCategory(category.value)
    else
      ListAll
  }

  /** How a fetch-and-cache call settled, and the store after it. */
  datatype Fetched = Fetched(outcome: Outcome, tiers: Tiers)

  /** `fetchAndCachePosts`: a rejection or a non-OK status throws and writes
      nothing; an OK body is saved under `key` at `now` and returned. */
  function FetchAndCachePosts(t: Tiers, key: string, resp: Response, now: int, storageUp: bool): (r: Fetched)
    ensures IsOk(resp) ==>
      r == Fetched(Returned(resp.body), SaveToCache(t, key, resp.body, now, storageUp))
    ensures !IsOk(resp) ==> r.tiers == t && r.outcome.Threw?
    ensures resp.NetworkError? ==> r.outcome == Threw(Network)
    ensures resp.Reply? && !IsOk(resp) ==> r.outcome == Threw(Message(ListFailed))
  {
    match resp
    case NetworkError => Fetched(Threw(Network), t)
    case Reply(status, body) =>
      if !IsOk(resp) then Fetched(Threw(Message(ListFailed)), t)
      else Fetched(Returned(body), SaveToCache(t, key, body, now, storageUp))
  }

  /** `fetchAndCachePost`: like the list fetch, except that a 404 resolves to
      `null` and is NOT written to the cache. */
  function FetchAndCachePost(t: Tiers, key: string, resp: Response, now: int, storageUp: bool): (r: Fetched)
    ensures IsOk(resp) ==>
      r == Fetched(Returned(resp.body), SaveToCache(t, key, resp.body, now, storageUp))
    ensures resp.Reply? && resp.status == 404 ==> r == Fetched(Returned(JNull), t)
    ensures !IsOk(resp) ==> r.tiers == t
    ensures !IsOk(resp) && !(resp.Reply? && resp.status == 404) ==> r.outcome.Threw?
  {
    match resp
    case NetworkError => Fetched(Threw(Network), t)
    case Reply(status, body) =>
      if !IsOk(resp) then
        if status == 404 then Fetched(Returned(JNull), t)
        else Fetched(Threw(Message(PostFailed)), t)
      else Fetched(Returned(body), SaveToCache(t, key, body, now, storageUp))
  }

  /** `getPosts(category)` at time `now`; `resp` answers the blocking fetch
      when there is one and is ignored otherwise. */
  function GetPosts(t: Tiers, category: Option<string>, now: int, storageUp: bool, resp: Response): (r: ReadStep)
    ensures var lk := GetFromCache(t, PostsKey(category), storageUp);
      var hit := lk.found.Some? && Truthy(lk.found.value.data);
      && (hit ==> r.outcome == Returned(lk.found.value.data) && r.tiers == lk.tiers && r.fetched.None?)
      && (hit && IsCacheValid(lk.found, now) ==> r.refresh.None?)
      && (hit && !IsCacheValid(lk.found, now) ==> r.refresh == Some(RefreshPosts(category, PostsKey(category))))
      && (!hit ==> r.fetched == Some(ListRequest(category)) && r.refresh.None?
                   && Fetched(r.outcome, r.tiers) == FetchAndCachePosts(lk.tiers, PostsKey(category), resp, now, storageUp))
  {
    var key := PostsKey(category);
    var lk := GetFromCache(t, key, storageUp);
    if lk.found.Some? && Truthy(lk.found.value.data) then
      if IsCacheValid(lk.found, now) then
        ReadStep(Returned(lk.found.value.data), lk.tiers, None, None)
      else
        ReadStep(Returned(lk.found.value.data), lk.tiers, None, Some(RefreshPosts(category, key)))
    else
      var f := FetchAndCachePosts(lk.tiers, key, resp, now, storageUp);
      ReadStep(f.outcome, f.tiers, Some(ListRequest(category)), None)
  }

  /** `getPost(id)`: the same policy over the key `post_<id>`. */
  function GetPost(t: Tiers, id: nat, now: int, storageUp: bool, resp: Response): (r: ReadStep)
    ensures var lk := GetFromCache(t, PostKey(id), storageUp);
      var hit := lk.found.Some? && Truthy(lk.found.value.data);
      && (hit ==> r.outcome == Returned(lk.found.value.data) && r.tiers == lk.tiers && r.fetched.None?)
      && (hit && IsCacheValid(lk.found, now) ==> r.refresh.None?)
      && (hit && !IsCacheValid(lk.found, now) ==> r.refresh == Some(RefreshPost(id, PostKey(id))))
      && (!hit ==> r.fetched == Some(FetchPost(id)) && r.refresh.None?
                   && Fetched(r.outcome, r.tiers) == FetchAndCachePost(lk.tiers, PostKey(id), resp, now, storageUp))
  {
    var key := PostKey(id);
    var lk := GetFromCache(t, key, storageUp);
    if lk.found.Some? && Truthy(lk.found.value.data) && IsCacheValid(lk.found, now) then
      ReadStep(Returned(lk.found.value.data), lk.tiers, None, None)
    else if lk.found.Some? && Truthy(lk.found.value.data) then
      ReadStep(Returned(lk.found.value.data), lk.tiers, None, Some(RefreshPost(id, key)))
    else
      var f := FetchAndCachePost(lk.tiers, key, resp, now, storageUp);
      ReadStep(f.outcome, f.tiers, Some(FetchPost(id)), None)
  }

  /** The request a refresh sends. */
  function RefreshRequest(r: Refresh): Request {
    match r
    case RefreshPosts(category, _) => ListRequest(category)
    case RefreshPost(id, _) => FetchPost(id)
  }

  /** `refreshPostsCache` / `refreshPostCache` settling with `resp` at time
      `now`: a success overwrites the entry, any failure is swallowed and
      leaves the store as it was. */
  function RunRefresh(t: Tiers, r: Refresh, now: int, storageUp: bool, resp: Response): (t': Tiers)
    ensures IsOk(resp) ==> t' == SaveToCache(t, r.key, resp.body, now, storageUp)
    ensures !IsOk(resp) ==> t' == t
  {
    match r
    case RefreshPosts(_, key) => FetchAndCachePosts(t, key, resp, now, storageUp).tiers
    case RefreshPost(_, key) => FetchAndCachePost(t, key, resp, now, storageUp).tiers
  }

  /** `getAuthHeaders()`: the `X-Auth-Key` value is the stored credential, or
      `''` when none is stored. `None` means `localStorage` threw. */
  function AuthKey(storage: map<string, Stored>, storageUp: bool): (r: Option<Stored>)
    ensures r.Some? <==> storageUp
    ensures storageUp && PasswordKey in storage && StoredTruthy(storage[PasswordKey]) ==>
      r == Some(storage[PasswordKey])
    ensures storageUp && !(PasswordKey in storage && StoredTruthy(storage[PasswordKey])) ==>
      r == Some(Plain(""))
  {
    if !storageUp then None
    else if PasswordKey in storage && StoredTruthy(storage[PasswordKey]) then Some(storage[PasswordKey])
    else Some(Plain(""))
  }

  /** `verifyPassword(password)`: the password is sent as the header; a
      non-OK status throws '密码错误'. The cache is not involved. */
  function VerifyPassword(password: string, resp: Response): (r: (Request, Outcome))
    ensures r.0 == VerifyRequest(Plain(password))
    ensures IsOk(resp) ==> r.1 == Returned(resp.body)
    ensures !IsOk(resp) ==> r.1.Threw?
    ensures resp.Reply? && !IsOk(resp) ==> r.1 == Threw(Message(WrongPassword))
  {
    var req := VerifyRequest(Plain(password));
    match resp
    case NetworkError => (req, Threw(Network))
    case Reply(_, body) => if IsOk(resp) then (req, Returned(body)) else (req, Threw(Message(WrongPassword)))
  }

  /** The result of a write: how it settled, the store after it, and the
      request sent (none when reading the credential threw). */
  datatype WriteStep = WriteStep(outcome: Outcome, tiers: Tiers, sent: Option<Request>)

  /** The shared shape of `createPost`, `updatePost` and `deletePost`: build
      the request with the stored credential, send it, and clear the whole
      cache only after an OK response. */
  function Write(t: Tiers, request: Stored -> Request, failure: string, storageUp: bool, resp: Response): (r: WriteStep)
    ensures !storageUp ==> r == WriteStep(Threw(StorageThrew), t, None)
    ensures storageUp ==> r.sent == Some(request(AuthKey(t.storage, true).value))
    ensures storageUp && IsOk(resp) ==>
      r.outcome == Returned(resp.body) && r.tiers == ClearPostsCache(t, true)
    ensures storageUp && !IsOk(resp) ==> r.outcome.Threw? && r.tiers == t
    ensures storageUp && resp.Reply? && !IsOk(resp) ==> r.outcome == Threw(Message(failure))
  {
    match AuthKey(t.storage, storageUp)
    case None => WriteStep(Threw(StorageThrew), t, None)
    case Some(key) =>
      var req := request(key);
      match resp
      case NetworkError => WriteStep(Threw(Network), t, Some(req))
      case Reply(_, body) =>
        if IsOk(resp) then WriteStep(Returned(body), ClearPostsCache(t, true), Some(req))
        else WriteStep(Threw(Message(failure)), t, Some(req))
  }

  /** `createPost(postData)`. */
  function CreatePost(t: Tiers, post: Json, storageUp: bool, resp: Response): (r: WriteStep)
    ensures storageUp ==> r.sent == Some(CreateRequest(post, AuthKey(t.storage, true).value))
    ensures IsOk(resp) && storageUp ==>
      && r.outcome == Returned(resp.body)
      && r.tiers == ClearPostsCache(t, true)
      && r.tiers.memory == map[]
      && (forall k :: k in r.tiers.storage <==> k in t.storage && !Text.StartsWith(k, CachePrefix))
    ensures !(IsOk(resp) && storageUp) ==> r.tiers == t && r.outcome.Threw?
  {
    Write(t, key => CreateRequest(post, key), CreateFailed, storageUp, resp)
  }

  /** `updatePost(id, postData)`. */
  function UpdatePost(t: Tiers, id: nat, post: Json, storageUp: bool, resp: Response): (r: WriteStep)
    ensures storageUp ==> r.sent == Some(UpdateRequest(id, post, AuthKey(t.storage, true).value))
    ensures IsOk(resp) && storageUp ==>
      && r.outcome == Returned(resp.body)
      && r.tiers == ClearPostsCache(t, true)
      && r.tiers.memory == map[]
      && (forall k :: k in r.tiers.storage <==> k in t.storage && !Text.StartsWith(k, CachePrefix))
    ensures !(IsOk(resp) && storageUp) ==> r.tiers == t && r.outcome.Threw?
  {
    Write(t, key => UpdateRequest(id, post, key), UpdateFailed, storageUp, resp)
  }

  /** `deletePost(id)`. */
  function DeletePost(t: Tiers, id: nat, storageUp: bool, resp: Response): (r: WriteStep)
    ensures storageUp ==> r.sent == Some(DeleteRequest(id, AuthKey(t.storage, true).value))
    ensures IsOk(resp) && storageUp ==>
      && r.outcome == Returned(resp.body)
      && r.tiers == ClearPostsCache(t, true)
      && r.tiers.memory == map[]
      && (forall k :: k in r.tiers.storage <==> k in t.storage && !Text.StartsWith(k, CachePrefix))
    ensures !(IsOk(resp) && storageUp) ==> r.tiers == t && r.outcome.Threw?
  {
    Write(t, key => DeleteRequest(id, key), DeleteFailed, storageUp, resp)
  }
}
