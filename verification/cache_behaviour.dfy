/** Properties of the client cache across calls: fresh hits, stale hits and
    their refreshes, misses, the uncached 404, invalidation by writes, and
    the key derivation quirks of `getPosts` and `getPost`. */
module CacheBehaviour {
  import opened Wrappers
  import Text
  import opened PostsCache
  import opened PostsApi
  import PostTable
  import PostRoutes
  import Worker

  /** A Tier-1 entry with truthy data that is still valid is returned as is:
      no request, no refresh, and neither tier changes. */
  lemma FreshHit(t: Tiers, category: Option<string>, now: int, storageUp: bool, resp: Response)
    requires PostsKey(category) in t.memory
    requires Truthy(t.memory[PostsKey(category)].data)
    requires IsCacheValid(Some(t.memory[PostsKey(category)]), now)
    ensures GetPosts(t, category, now, storageUp, resp)
      == ReadStep(Returned(t.memory[PostsKey(category)].data), t, None, None)
  {
  }

  /** The same for a single post. */
  lemma FreshPostHit(t: Tiers, id: nat, now: int, storageUp: bool, resp: Response)
    requires PostKey(id) in t.memory
    requires Truthy(t.memory[PostKey(id)].data)
    requires IsCacheValid(Some(t.memory[PostKey(id)]), now)
    ensures GetPost(t, id, now, storageUp, resp)
      == ReadStep(Returned(t.memory[PostKey(id)].data), t, None, None)
  {
  }

  /** A stale entry with truthy data is returned at once and exactly one
      refresh of its key is scheduled. When that refresh fails the entry is
      still there; when it succeeds the entry holds the new data and the
      refresh's time. */
  lemma StaleHit(t: Tiers, category: Option<string>, now: int, later: int, storageUp: bool, resp: Response, refreshResp: Response)
    requires PostsKey(category) in t.memory
    requires Truthy(t.memory[PostsKey(category)].data)
    requires !IsCacheValid(Some(t.memory[PostsKey(category)]), now)
    ensures var prev := t.memory[PostsKey(category)];
      var r := GetPosts(t, category, now, storageUp, resp);
      && r == ReadStep(Returned(prev.data), t, None, Some(RefreshPosts(category, PostsKey(category))))
      && RefreshRequest(r.refresh.value) == ListRequest(category)
      && (!IsOk(refreshResp) ==>
            GetFromCache(RunRefresh(t, r.refresh.value, later, storageUp, refreshResp), PostsKey(category), storageUp).found
              == Some(prev))
      && (IsOk(refreshResp) ==>
            GetFromCache(RunRefresh(t, r.refresh.value, later, storageUp, refreshResp), PostsKey(category), storageUp).found
              == Some(Entry(refreshResp.body, later)))
  {
  }

  /** The same for a single post; a refresh answered with 404 leaves the
      stale post in place. */
  lemma StalePostHit(t: Tiers, id: nat, now: int, later: int, storageUp: bool, resp: Response, refreshResp: Response)
    requires PostKey(id) in t.memory
    requires Truthy(t.memory[PostKey(id)].data)
    requires !IsCacheValid(Some(t.memory[PostKey(id)]), now)
    ensures var prev := t.memory[PostKey(id)];
      var r := GetPost(t, id, now, storageUp, resp);
      && r == ReadStep(Returned(prev.data), t, None, Some(RefreshPost(id, PostKey(id))))
      && RefreshRequest(r.refresh.value) == FetchPost(id)
      && (!IsOk(refreshResp) ==>
            GetFromCache(RunRefresh(t, r.refresh.value, later, storageUp, refreshResp), PostKey(id), storageUp).found
              == Some(prev))
  {
  }

  /** Neither tier holds the key (or storage throws): the read awaits exactly
      one request. An OK answer is returned and cached at `now`; any other
      answer throws and writes nothing. */
  lemma MissFetches(t: Tiers, category: Option<string>, now: int, storageUp: bool, resp: Response)
    requires PostsKey(category) !in t.memory
    requires storageUp ==> StorageKey(PostsKey(category)) !in t.storage
    ensures var r := GetPosts(t, category, now, storageUp, resp);
      && r.fetched == Some(ListRequest(category))
      && r.refresh.None?
      && (IsOk(resp) ==> r.outcome == Returned(resp.body)
                         && GetFromCache(r.tiers, PostsKey(category), false).found == Some(Entry(resp.body, now)))
      && (!IsOk(resp) ==> r.outcome.Threw? && r.tiers == t)
  {
  }

  /** A post the server does not have reads as `null`, is not cached, and is
      therefore requested again by the next read, however soon. */
  lemma NotFoundIsRefetched(t: Tiers, id: nat, now: int, next: int, storageUp: bool, body: Json, resp2: Response)
    requires PostKey(id) !in t.memory
    requires storageUp ==> StorageKey(PostKey(id)) !in t.storage
    ensures var r := GetPost(t, id, now, storageUp, Reply(404, body));
      && r == ReadStep(Returned(JNull), t, Some(FetchPost(id)), None)
      && GetPost(r.tiers, id, next, storageUp, resp2).fetched == Some(FetchPost(id))
  {
  }

  /** A Tier-1 entry whose data is falsy counts as a miss: the read fetches
      even when the entry is young. */
  lemma FalsyDataIsMiss(t: Tiers, category: Option<string>, now: int, storageUp: bool, resp: Response)
    requires PostsKey(category) in t.memory
    requires !Truthy(t.memory[PostsKey(category)].data)
    ensures GetPosts(t, category, now, storageUp, resp).fetched == Some(ListRequest(category))
  {
  }

  /** Two reads of a list in quick succession: after a successful blocking
      fetch at a non-zero time, a read within the TTL returns the same value
      and sends nothing, whatever the network would have answered. */
  lemma ReadTwiceFetchesOnce(t: Tiers, category: Option<string>, now: int, next: int, storageUp: bool, resp: Response, resp2: Response)
    requires PostsKey(category) !in t.memory
    requires storageUp ==> StorageKey(PostsKey(category)) !in t.storage
    requires IsOk(resp) && Truthy(resp.body)
    requires now != 0 && now <= next < now + CacheTtl
    ensures var first := GetPosts(t, category, now, storageUp, resp);
      var second := GetPosts(first.tiers, category, next, storageUp, resp2);
      && first.outcome == Returned(resp.body)
      && second.outcome == first.outcome
      && second.fetched.None? && second.refresh.None?
      && second.tiers == first.tiers
  {
  }

  /** Without `localStorage` at all the cache still works from Tier 1: a
      fetched list is served from memory on the next read. */
  lemma MemoryOnlyStillCaches(t: Tiers, category: Option<string>, now: int, next: int, resp: Response, resp2: Response)
    requires PostsKey(category) !in t.memory
    requires IsOk(resp) && Truthy(resp.body)
    requires now != 0 && now <= next < now + CacheTtl
    ensures var first := GetPosts(t, category, now, false, resp);
      && first.tiers.storage == t.storage
      && GetPosts(first.tiers, category, next, false, resp2).fetched.None?
  {
  }

  /** Cache keys of lists and of single posts never collide, and distinct
      post ids have distinct keys. */
  lemma KeysDistinct(category: Option<string>, id: nat, id': nat)
    ensures PostsKey(category) != PostKey(id)
    ensures PostKey(id) == PostKey(id') ==> id == id'
  {
    assert PostsKey(category)[4] == 's';
    assert PostKey(id)[4] == '_';
    if PostKey(id) == PostKey(id') {
      assert Text.NatToString(id) == PostKey(id)[5..];
      assert Text.NatToString(id') == PostKey(id')[5..];
      Text.NatToStringInjective(id, id');
    }
  }

  /** The "all" tab is cached under its own key `posts_全部`, apart from the
      unfiltered list, yet both send the same unfiltered request. */
  lemma AllTabKeyedApart()
    ensures PostsKey(Some(AllCategory)) != PostsKey(None)
    ensures ListRequest(Some(AllCategory)) == ListRequest(None) == ListAll
  {
    assert PostsKey(Some(AllCategory))[6] != PostsKey(None)[6];
  }

  /** A category literally named "all" shares the cache key of the
      unfiltered list while requesting only that category, and an empty
      category is the unfiltered list in both respects. */
  lemma AllNamedCategoryShares()
    ensures PostsKey(Some("all")) == PostsKey(None) == PostsKey(Some(""))
    ensures ListRequest(Some("all")) == ListCategory("all") != ListRequest(None)
    ensures ListRequest(Some("")) == ListAll
  {
  }

  /** After a clear in which storage answered, every list and post read
      awaits a request of its own. */
  lemma ClearedReadsFetch(c: Tiers, category: Option<string>, readId: nat, now: int, up: bool, resp2: Response)
    requires c == ClearPostsCache(c, true)
    ensures GetPosts(c, category, now, up, resp2).fetched == Some(ListRequest(category))
    ensures GetPost(c, readId, now, up, resp2).fetched == Some(FetchPost(readId))
  {
    ClearedMissesEverywhere(c, true, PostsKey(category), up);
    ClearedMissesEverywhere(c, true, PostKey(readId), up);
  }

  /** A create, update or delete that succeeded leaves nothing cached: every
      later list or post read awaits a request of its own. */
  lemma WriteInvalidatesEveryKey(t: Tiers, id: nat, post: Json, storageUp: bool, resp: Response,
                                 category: Option<string>, readId: nat, now: int, up: bool, resp2: Response)
    requires IsOk(resp)
    ensures var w := CreatePost(t, post, storageUp, resp);
      w.outcome.Returned? ==>
        && GetPosts(w.tiers, category, now, up, resp2).fetched == Some(ListRequest(category))
        && GetPost(w.tiers, readId, now, up, resp2).fetched == Some(FetchPost(readId))
    ensures var w := UpdatePost(t, id, post, storageUp, resp);
      w.outcome.Returned? ==>
        && GetPosts(w.tiers, category, now, up, resp2).fetched == Some(ListRequest(category))
        && GetPost(w.tiers, readId, now, up, resp2).fetched == Some(FetchPost(readId))
    ensures var w := DeletePost(t, id, storageUp, resp);
      w.outcome.Returned? ==>
        && GetPosts(w.tiers, category, now, up, resp2).fetched == Some(ListRequest(category))
        && GetPost(w.tiers, readId, now, up, resp2).fetched == Some(FetchPost(readId))
  {
    if storageUp {
      var c := ClearPostsCache(t, true);
      assert ClearPostsCache(c, true) == c;
      ClearedReadsFetch(c, category, readId, now, up, resp2);
    }
  }

  /** A write whose response is not OK leaves the cache as it was, so a
      fresh entry keeps being served. */
  lemma FailedWriteKeepsCache(t: Tiers, id: nat, storageUp: bool, resp: Response)
    requires !IsOk(resp)
    ensures DeletePost(t, id, storageUp, resp).tiers == t
    ensures DeletePost(t, id, storageUp, resp).outcome.Threw?
  {
  }

  /** The credential header carries exactly whatever non-empty text storage
      holds under `admin_password`. */
  lemma WriteSendsStoredCredential(t: Tiers, id: nat, password: string, resp: Response)
    requires password != ""
    ensures var t' := Tiers(t.memory, t.storage[PasswordKey := Plain(password)]);
      DeletePost(t', id, true, resp).sent == Some(DeleteRequest(id, Plain(password)))
  {
  }

  /** With nothing stored under `admin_password`, every write goes out with
      an empty `X-Auth-Key`, and the Worker refuses every write with that
      header with 401, whatever its password binding. No page of the app
      stores the item, so this is the shipped app's case. */
  lemma UnsignedWriteRefused(t: Tiers, post: Json, id: nat, resp: Response,
                             db: PostTable.Table, input: PostRoutes.PostInput, adminPassword: Option<string>, now: nat)
    requires PasswordKey !in t.storage && PostTable.Valid(db)
    ensures CreatePost(t, post, true, resp).sent == Some(CreateRequest(post, Plain("")))
    ensures UpdatePost(t, id, post, true, resp).sent == Some(UpdateRequest(id, post, Plain("")))
    ensures DeletePost(t, id, true, resp).sent == Some(DeleteRequest(id, Plain("")))
    ensures var refused := PostRoutes.Handled(db, Worker.Refused);
      && Worker.Handle(db, Worker.CreatePost(input), Some(""), adminPassword, now) == refused
      && Worker.Handle(db, Worker.UpdatePost(id, input), Some(""), adminPassword, now) == refused
      && Worker.Handle(db, Worker.DeletePost(id), Some(""), adminPassword, now) == refused
  {
  }

  /** A five-minute walk-through of the read policy, from a fixed start
      time T (ms since the epoch): a blocking fetch, a fresh hit four minutes
      later, a stale hit at six minutes that returns the old list and
      schedules a refresh, and the refreshed list right after. */
  lemma Walkthrough(t: Tiers, storageUp: bool, oneItem: Json, twoItems: Json, any: Response)
    requires PostsKey(None) !in t.memory
    requires storageUp ==> StorageKey(PostsKey(None)) !in t.storage
    requires Truthy(oneItem) && Truthy(twoItems)
    ensures var T := 1_700_000_000_000;
      var s0 := GetPosts(t, None, T, storageUp, Reply(200, oneItem));
      var s1 := GetPosts(s0.tiers, None, T + 4 * 60_000, storageUp, any);
      var s2 := GetPosts(s1.tiers, None, T + 6 * 60_000, storageUp, any);
      var t3 := RunRefresh(s2.tiers, s2.refresh.value, T + 6 * 60_000 + 50, storageUp, Reply(200, twoItems));
      var s3 := GetPosts(t3, None, T + 6 * 60_000 + 100, storageUp, any);
      && s0.outcome == Returned(oneItem) && s0.fetched == Some(ListAll)
      && s1.outcome == Returned(oneItem) && s1.fetched.None? && s1.refresh.None?
      && s2.outcome == Returned(oneItem) && s2.fetched.None? && s2.refresh == Some(RefreshPosts(None, "posts_all"))
      && s3.outcome == Returned(twoItems) && s3.fetched.None? && s3.refresh.None?
  {
    var T := 1_700_000_000_000;
    var key := PostsKey(None);
    assert key == "posts_all";
    var s0 := GetPosts(t, None, T, storageUp, Reply(200, oneItem));
    assert s0.tiers.memory[key] == Entry(oneItem, T);
    var s1 := GetPosts(s0.tiers, None, T + 4 * 60_000, storageUp, any);
    assert s1.tiers == s0.tiers;
    var s2 := GetPosts(s1.tiers, None, T + 6 * 60_000, storageUp, any);
    assert s2.tiers == s0.tiers;
    var t3 := RunRefresh(s2.tiers, s2.refresh.value, T + 6 * 60_000 + 50, storageUp, Reply(200, twoItems));
    assert t3.memory[key] == Entry(twoItems, T + 6 * 60_000 + 50);
  }
}
