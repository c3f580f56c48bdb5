# myblog core, modelled in Dafny

This project models the data path of the `myblog` blog:

- **The browser's content API (`posts.js`).** It reads through a two-tier cache:
  - an in-memory map (Tier 1) in front of `localStorage` keys under `blog_cache_` (Tier 2);
  - reads are stale-while-revalidate, with a five-minute TTL;
  - a successful create, update or delete wipes the whole cache;
  - every write sends as `X-Auth-Key` whatever the same storage holds under `admin_password` (no page of the app stores that item).
- **Two back ends over one `posts` table.**
  - The local Express server runs the five CRUD handlers with no guard.
  - Its start-up creates the table and seeds three sample posts when the table is empty.
  - The Cloudflare Worker runs the same statements, but the password route and every write must carry `X-Auth-Key` equal to `ADMIN_PASSWORD` (`'123456'` when that is unset).
- **The music player widget.** This covers:
  - the playlist cursor with wrap-around;
  - play/pause, volume and mute;
  - the `m:ss` clock.
- **Three small page-level checks.**
  - The blog page's category tabs filter on the client.
  - The article page decides whether the body is HTML.
  - The admin form rejects a blank title or body.

Everything is a value and every operation a pure function (one method, `ClearStorage`, performs the two loops of the cache clear):

- The cache is `Tiers(memory, storage)`.
- The database is `Table(rows, lastId)`, where `lastId` is the `AUTOINCREMENT` high-water mark.
- The player is `Player(index, time, playing, volume, muted, audio)`.

Effects become parameters and results:

- The network response is the parameter `resp`.
- The clock is `now`.
- Whether `localStorage` answers or throws is `storageUp`.
- A request the client would send is returned as a `Request` value.
- A background refresh is returned as a `Refresh` value. `RunRefresh` applies it later with the response it received.

Modules:

| module | file | models |
|---|---|---|
| `Wrappers` | wrappers.dfy | `Option` |
| `Text` | text.dfy | `startsWith`, decimal rendering of integers, `padStart`, `trim` |
| `PostsCache` | posts_cache.dfy | `getFromCache`, `saveToCache`, `isCacheValid`, `clearPostsCache` |
| `PostsApi` | posts_api.dfy | `getPosts`, `getPost`, the fetch-and-cache helpers, refreshes, `verifyPassword`, the writes |
| `CacheBehaviour` | cache_behaviour.dfy | properties of the cache across calls |
| `PostTable` | post_table.dfy | the `posts` table, `AUTOINCREMENT`, the list `SELECT`s and `ORDER BY createdAt DESC` |
| `PostRoutes` | post_routes.dfy | the five handlers of `routes/posts.js` |
| `RouteBehaviour` | route_behaviour.dfy | properties of the handlers across requests |
| `Schema` | schema.dfy | `CREATE TABLE IF NOT EXISTS`, seeding of an empty table |
| `Worker` | worker.dfy | the Worker's `auth` guard and router |
| `MusicPlayer` | music_player.dfy | `MusicPlayer.jsx` |
| `Pages` | pages.dfy | the checks in `Blog.jsx`, `Article.jsx`, `Admin.jsx` |

Timestamps in the database use an abstract clock. A reading is a natural number whose decimal digits are `YYYYMMDDhhmmss`. `DATE(createdAt)` is that reading divided by 10^6. This preserves the order the text timestamps sort in.

## Model

| member | source | states |
|---|---|---|
| PostsCache.GetFromCache | myblog_app/src/api/posts.js:14-31 | Tier 1 answers first and unchanged. On a Tier-1 miss, an entry is found exactly when storage answers and holds a parsable entry under `blog_cache_<key>`; that entry is copied into Tier 1. Otherwise nothing changes. Storage is never written. |
| PostsCache.SaveToCache | myblog_app/src/api/posts.js:34-42 | Tier 1 always holds `{data, now}` afterwards. Tier 2 holds its serialisation only if storage answered. Every other key of both tiers is untouched. |
| PostsCache.FreshnessWindow | myblog_app/src/api/posts.js:45-48 | An entry stamped at a non-zero time is valid exactly while `now < written + 300000`. This includes every instant before the stamp: an entry stamped in the future (the clock was set back) stays valid. |
| PostsCache.NeverValid | myblog_app/src/api/posts.js:46 | A missing entry, or one stamped 0, is never valid. |
| PostsCache.WithoutNamespace | myblog_app/src/api/posts.js:55-63 | Keeps exactly the storage keys that do not start with `blog_cache_`, with their values. |
| PostsCache.ClearPostsCache | myblog_app/src/api/posts.js:51-67 | Tier 1 ends empty. If storage answered, no namespaced key survives. Every non-namespaced key keeps its value, and nothing is added. If storage threw, it is unchanged. |
| PostsCache.ClearStorage | myblog_app/src/api/posts.js:55-63 | The two loops (collect the namespaced keys, then remove them) leave exactly `WithoutNamespace(storage)`. |
| PostsCache.SaveThenGet | myblog_app/src/api/posts.js:14-42 | A saved entry reads back immediately, whatever storage did during the save or the read. |
| PostsCache.SaveSurvivesReload | myblog_app/src/api/posts.js:20-26 | After losing Tier 1, a durably saved entry is found in Tier 2 and re-warms Tier 1. |
| PostsCache.GetIsIdempotent | myblog_app/src/api/posts.js:14-31 | A second lookup of a found key returns the same entry and changes nothing. |
| PostsCache.ClearedMissesEverywhere | myblog_app/src/api/posts.js:51-67 | After a clear in which storage answered, every key misses. |
| PostsCache.ClearKeepsCredential | myblog_app/src/api/posts.js:51-76 | Clearing the cache keeps the `admin_password` item and its value. |
| PostsApi.CategoryName | myblog_app/src/api/posts.js:95 | `category \|\| 'all'`: a missing or empty category becomes `all`, any other is kept, and the name is never empty. |
| PostsApi.PostsKey | myblog_app/src/api/posts.js:95 | A list key is `posts_` followed by the category name. |
| PostsApi.PostKey | myblog_app/src/api/posts.js:139 | A post key is `post_` followed by a decimal that reads back as the id. |
| PostsApi.ListRequest | myblog_app/src/api/posts.js:123-126 | A `?category=` query is sent exactly for a non-empty category other than `全部`. |
| PostsApi.FetchAndCachePosts | myblog_app/src/api/posts.js:123-135 | An OK body is returned and saved under the key at `now`. A network failure, or a non-OK status with the message `获取文章列表失败`, throws and leaves the cache untouched. |
| PostsApi.FetchAndCachePost | myblog_app/src/api/posts.js:167-178 | An OK body is returned and cached. A 404 resolves to `null` and is not cached. Any other failure throws with the cache untouched. |
| PostsApi.GetPosts | myblog_app/src/api/posts.js:94-111 | A truthy cached entry is returned without a request. A valid entry schedules nothing; a stale one schedules exactly one refresh of `posts_<category or all>`. Otherwise the read awaits one fetch-and-cache of the list URL. |
| PostsApi.GetPost | myblog_app/src/api/posts.js:138-155 | The same policy over `post_<id>` and the single-post fetch. |
| PostsApi.RunRefresh | myblog_app/src/api/posts.js:113-120 | A successful refresh overwrites the entry at the refresh time. A failed one is swallowed and leaves the store unchanged. |
| PostsApi.AuthKey | myblog_app/src/api/posts.js:70-76 | The header is the stored credential when it is truthy and `''` otherwise. It is absent exactly when storage throws. |
| PostsApi.VerifyPassword | myblog_app/src/api/posts.js:79-91 | The password is sent as the header. An OK body is returned; a non-OK status throws `密码错误`. |
| PostsApi.Write | myblog_app/src/api/posts.js:181-219 | A throwing storage fails the write before any request. Otherwise the request carries the stored credential. Only an OK response clears the cache; any failure throws and leaves it as it was. |
| PostsApi.CreatePost | myblog_app/src/api/posts.js:181-192 | Sends a create with the stored credential. Success clears both tiers: Tier 1 ends empty, and storage keeps exactly its keys outside `blog_cache_`. Failure changes nothing and throws. |
| PostsApi.UpdatePost | myblog_app/src/api/posts.js:195-206 | The same for an update of `id`: success clears both tiers, failure changes nothing and throws. |
| PostsApi.DeletePost | myblog_app/src/api/posts.js:209-219 | The same for a delete of `id`: success clears both tiers, failure changes nothing and throws. |
| CacheBehaviour.FreshHit | myblog_app/src/api/posts.js:99-103 | A valid, truthy Tier-1 list is returned with no request, no refresh and no change. |
| CacheBehaviour.FreshPostHit | myblog_app/src/api/posts.js:143-145 | The same for a single post. |
| CacheBehaviour.StaleHit | myblog_app/src/api/posts.js:104-106 | A stale list is returned at once with one refresh of its key. After a failed refresh the old entry remains; after a successful one the new data is cached at the refresh time. |
| CacheBehaviour.StalePostHit | myblog_app/src/api/posts.js:147-151 | A stale post is returned at once with one refresh. A failed refresh, including a 404, leaves the old post cached. |
| CacheBehaviour.MissFetches | myblog_app/src/api/posts.js:109-110 | On a miss in both tiers, exactly one list request is awaited. Success is returned and cached; failure throws and writes nothing. |
| CacheBehaviour.NotFoundIsRefetched | myblog_app/src/api/posts.js:170-172 | A 404 post reads as `null`, is not cached, and is requested again by the next read. |
| CacheBehaviour.FalsyDataIsMiss | myblog_app/src/api/posts.js:99 | A cached entry with falsy data is treated as a miss and refetched, however young. |
| CacheBehaviour.ReadTwiceFetchesOnce | myblog_app/src/api/posts.js:94-111 | A second read within the TTL returns the first read's data, sends nothing and changes nothing. |
| CacheBehaviour.MemoryOnlyStillCaches | myblog_app/src/api/posts.js:33-42 | With `localStorage` unavailable, Tier 1 alone still serves the next read. |
| CacheBehaviour.KeysDistinct | myblog_app/src/api/posts.js:95 | List keys never equal post keys, and distinct ids give distinct post keys. |
| CacheBehaviour.AllTabKeyedApart | myblog_app/src/api/posts.js:95 | The `全部` tab is cached apart from the unfiltered list, although both send the same unfiltered request. |
| CacheBehaviour.AllNamedCategoryShares | myblog_app/src/api/posts.js:124-126 | A category named `all` shares the unfiltered list's key but requests only itself. An empty category is the unfiltered list. |
| CacheBehaviour.ClearedReadsFetch | myblog_app/src/api/posts.js:51-67 | After a clear in which storage answered, every list read and every post read awaits its own request. |
| CacheBehaviour.WriteInvalidatesEveryKey | myblog_app/src/api/posts.js:181-219 | After a successful create, update or delete, every list read and every post read awaits its own request. |
| CacheBehaviour.FailedWriteKeepsCache | myblog_app/src/api/posts.js:214-216 | A failed delete throws and leaves the cache as it was. |
| CacheBehaviour.WriteSendsStoredCredential | myblog_app/src/api/posts.js:70-76 | A write carries exactly whatever non-empty text storage holds under `admin_password`. |
| CacheBehaviour.UnsignedWriteRefused | myblog_app/src/api/posts.js:70-76 | With nothing stored under `admin_password`, every write is sent with an empty key, and the Worker answers every write with that key with 401, whatever its binding. |
| CacheBehaviour.Walkthrough | myblog_app/src/api/posts.js:94-111 | Over 0, 4 and 6 minutes: a blocking fetch, then a fresh hit, then a stale hit that returns old data and schedules a refresh, then the refreshed data. |
| PostTable.Insert | myblog_server/db/database.js:14 | A new row gets the id one above the sequence value, the largest id ever handed out, so the id of a deleted row is never reused. The id is above every existing id, the sequence advances to it, and the table keeps ids within the sequence. |
| PostTable.OfCategory | myblog_server/routes/posts.js:13-19 | `WHERE category = ?`: keeps exactly the rows whose category equals the value, never a `NULL` one, and adds nothing. |
| PostTable.InsertByDate | myblog_server/routes/posts.js:18 | Placing one row keeps the list newest first and is a permutation of the list plus that row. |
| PostTable.SortByDate | myblog_server/routes/posts.js:25 | `ORDER BY createdAt DESC` yields a newest-first permutation of its input. |
| PostTable.Selected | myblog_server/routes/posts.js:12-27 | Selects each row of the table, or of the category, once and nothing else. |
| PostTable.ListIds | myblog_server/routes/posts.js:12-27 | The list query returns every selected row exactly once, newest first. |
| PostTable.Project | myblog_server/routes/posts.js:14-15 | Each listed row becomes its `id, title, excerpt, category, readTime, DATE(createdAt)` projection, in order. |
| PostRoutes.OrDefault | myblog_server/routes/posts.js:70 | `v \|\| fallback`: the value when it is a non-empty string, the fallback otherwise. |
| PostRoutes.CategoryFilter | myblog_server/routes/posts.js:12 | Filters exactly for a non-empty query other than `全部`. |
| PostRoutes.List | myblog_server/routes/posts.js:7-34 | 200 with every selected row summarised once and nothing else. The list is ordered newest first and the table is unchanged. |
| PostRoutes.Get | myblog_server/routes/posts.js:37-56 | 404 `文章不存在` exactly when the id is absent, otherwise 200 with that row's projection. No change. |
| PostRoutes.Create | myblog_server/routes/posts.js:59-80 | 400 with no change unless title and content are non-empty. Otherwise 201 with the id one above the sequence value, which the sequence advances to, larger than every existing one, and one new row with `''`, `随想` and `5 分钟` for missing fields. |
| PostRoutes.Update | myblog_server/routes/posts.js:83-104 | 404 for an absent id. 500 with no change when title or content is missing. Otherwise 200: the row is overwritten as sent, `createdAt` is kept, and no other row changes. |
| PostRoutes.Delete | myblog_server/routes/posts.js:107-122 | 404 exactly when no row has the id. Otherwise only that row is removed, and the sequence is untouched. |
| RouteBehaviour.HandlersKeepValid | myblog_server/db/database.js:14 | Every handler keeps every row id within the `AUTOINCREMENT` sequence. |
| RouteBehaviour.CreateThenGet | myblog_server/routes/posts.js:59-80 | A created post reads back under the returned id with the sent fields and the defaults. |
| RouteBehaviour.CreateThenList | myblog_server/routes/posts.js:7-34 | A created post is in the unfiltered list. It is in a category's list exactly when its stored category is that one. |
| RouteBehaviour.DeleteIsForever | myblog_server/routes/posts.js:107-122 | A deleted id answers 404 and appears in no list. The next create gets a larger id. |
| RouteBehaviour.DeleteTwice | myblog_server/routes/posts.js:111-115 | A second delete of the same id answers 404 and changes nothing. |
| RouteBehaviour.UpdateThenGet | myblog_server/routes/posts.js:93-97 | An updated post reads back with the new fields and its original date. |
| RouteBehaviour.OnlyCreateValidates | myblog_server/routes/posts.js:63-65 | An empty title is refused by create but stored by update. |
| Schema.CreateTable | myblog_server/db/database.js:12-23 | An existing table is kept as is. A missing one is created empty with a fresh sequence. |
| Schema.SeedIfEmpty | myblog_server/db/database.js:26-98 | An empty table gets exactly the three samples under the next three ids. A non-empty one is unchanged. |
| Schema.SeedInsertsThree | myblog_server/db/database.js:34-95 | Seeding adds three rows, all above the old sequence value. |
| Schema.Startup | myblog_server/db/database.js:12-98 | Start-up always leaves a non-empty, valid table. |
| Schema.StartupKeepsExistingPosts | myblog_server/db/database.js:27 | A table with posts starts up with exactly those posts. |
| Schema.StartupIdempotent | myblog_server/db/database.js:26-27 | Starting up again over the result changes nothing. |
| Schema.ReseedUsesFreshIds | myblog_server/db/database.js:27-34 | A table emptied by deletes is reseeded under ids above every id it ever had. |
| Schema.SortOrderedThree | myblog_server/routes/posts.js:25 | Three rows already newest first keep their order. |
| Schema.FreshDatabaseList | myblog_server/db/database.js:34-95 | A brand-new database lists its samples as ids 1, 2, 3, newest first by their dates. |
| Worker.ExpectedKey | myblog_worker/src/index.js:21 | The key is the binding when it is non-empty and `123456` otherwise, so it is never empty. |
| Worker.Verify | myblog_worker/src/index.js:35-37 | 200 `{status: 'ok'}` exactly when the header matches the key, otherwise 401 `未授权：密码错误`. |
| Worker.Handle | myblog_worker/src/index.js:19-27 | The answer is 401 exactly for a guarded route without the right key, and then nothing changes. Unknown routes get 404 `接口不存在`. The table stays valid. |
| Worker.Serve | myblog_server/server.js:13-23 | The local server never answers 401 and keeps the table valid. |
| Worker.RefusedChangesNothing | myblog_worker/src/index.js:23-25 | A request without the right key never changes the table. |
| Worker.ReadsAreOpen | myblog_worker/src/index.js:40-89 | List and single-post reads ignore the header and match the local server. |
| Worker.AuthorizedMatchesServer | myblog_worker/src/index.js:92-155 | With the right key, every posts route behaves exactly as the local server's, in the model, where the Worker's update is given the server's behaviour for an omitted optional field (see D1 under Left out). |
| Worker.MissingOrEmptyKeyRefused | myblog_worker/src/index.js:20-24 | A missing or empty header is refused on every guarded route, whatever the binding. |
| Worker.FallbackOnlyWhenUnset | myblog_worker/src/index.js:21 | `123456` opens the guard exactly when the binding is unset, empty, or itself `123456`. |
| MusicPlayer.CurrentSong | myblog_app/src/components/ui/MusicPlayer.jsx:88 | The song at the index, or the placeholder `无歌曲` when the index is outside the list. |
| MusicPlayer.ChangeSong | myblog_app/src/components/ui/MusicPlayer.jsx:103-109 | An in-range step is taken as is. Below zero it wraps to the last song, and past the end to the first. On a non-empty list the result is a valid index; on an empty one it is `-1` or `0`. |
| MusicPlayer.ChangeSongIsModular | myblog_app/src/components/ui/MusicPlayer.jsx:103-109 | One step either way is addition modulo the playlist length. |
| MusicPlayer.NextThenPrev | myblog_app/src/components/ui/MusicPlayer.jsx:103-109 | Next then previous, or previous then next, returns to the same song. |
| MusicPlayer.Forward | myblog_app/src/components/ui/MusicPlayer.jsx:103-109 | `k` next presses from a song on a non-empty list always land on a song. |
| MusicPlayer.ForwardIsModular | myblog_app/src/components/ui/MusicPlayer.jsx:103-109 | `k` consecutive next presses land on `(index + k) mod n`. |
| MusicPlayer.Initial | myblog_app/src/components/ui/MusicPlayer.jsx:81-86 | Starts on the first song, paused, at volume 0.7, unmuted and in step with the element. |
| MusicPlayer.Change | myblog_app/src/components/ui/MusicPlayer.jsx:107-108 | Changing song moves the cursor, resets the clock to 0 and changes nothing else. |
| MusicPlayer.TogglePlay | myblog_app/src/components/ui/MusicPlayer.jsx:91-100 | A no-op exactly when the element is unmounted or the song has no source. Otherwise pause when playing and play when paused. |
| MusicPlayer.Perform | myblog_app/src/components/ui/MusicPlayer.jsx:147-148 | The `play`/`pause` events set `isPlaying` and nothing else. |
| MusicPlayer.TogglePlayFlips | myblog_app/src/components/ui/MusicPlayer.jsx:91-100 | Playing flips exactly when there is an element and a source. Pressing twice restores the state. |
| MusicPlayer.EmptyPlaylist | myblog_app/src/components/ui/MusicPlayer.jsx:88-109 | With no songs the cursor is `-1` or `0`, the placeholder shows, and play does nothing. |
| MusicPlayer.BundledPlaylistWraps | myblog_app/src/data/playlist.js:6-22 | On the bundled three songs, previous from the first shows the third, and next from it returns to the first. |
| MusicPlayer.HandleVolumeChangeAsWritten | myblog_app/src/components/ui/MusicPlayer.jsx:112-119 | The new volume reaches state and element. A positive volume clears `isMuted`, but the element's `muted` is left as it was. |
| MusicPlayer.VolumeChangeLeavesElementMuted | myblog_app/src/components/ui/MusicPlayer.jsx:112-126 | From a muted, in-step state, raising the volume leaves the controls unmuted and the element muted. |
| MusicPlayer.HandleVolumeChange | myblog_app/src/components/ui/MusicPlayer.jsx:112-119 | The corrected handler: the same state changes, plus a positive volume unmutes the element. This keeps the element in step with the controls. |
| MusicPlayer.ToggleMute | myblog_app/src/components/ui/MusicPlayer.jsx:121-126 | With the element mounted, it flips the controls' mute and sets the element to match. Unmounted, nothing changes. |
| MusicPlayer.ToggleMuteTwice | myblog_app/src/components/ui/MusicPlayer.jsx:121-126 | Muting twice from an in-step state is no change. |
| MusicPlayer.EndedAsWritten | myblog_app/src/components/ui/MusicPlayer.jsx:146-176 | When a playing track ends, `pause` clears `isPlaying` before `changeSong(1)`, so the player moves to the next song, restarts the clock and ends paused. Nothing else changes. |
| MusicPlayer.EndedStopsUnlikeNext | myblog_app/src/components/ui/MusicPlayer.jsx:146-176 | From a playing state, the next button keeps playing, but the end of a track leaves the player paused on the same next song. |
| MusicPlayer.Step | myblog_app/src/components/ui/MusicPlayer.jsx:91-154 | One action (next, previous, end of track, play/pause, volume, mute), with the corrected volume and end-of-track handlers, keeps the element in step and the cursor on a song. Only the play button changes `isPlaying`. |
| MusicPlayer.EndedContinuesLikeNext | myblog_app/src/components/ui/MusicPlayer.jsx:167-176 | With the correction, the end of a track is the next button, so a playing player keeps playing. |
| MusicPlayer.Run | myblog_app/src/components/ui/MusicPlayer.jsx:91-126 | Over a sequence of `Action`s without the play button, `isPlaying` never changes. |
| MusicPlayer.RunKeepsSynced | myblog_app/src/components/ui/MusicPlayer.jsx:103-126 | Over any sequence of `Action`s, with the corrected volume handler, the element stays in step with the controls and the cursor stays on a song. Hiding and reopening is not an `Action`; it breaks this (`HideReopenLosesSettings`). |
| MusicPlayer.Hide | myblog_app/src/components/ui/MusicPlayer.jsx:179-197 | Hiding renders no `<audio>`, so the element is unmounted; removing it pauses it and clears `isPlaying`. Nothing else changes. |
| MusicPlayer.Reopen | myblog_app/src/components/ui/MusicPlayer.jsx:156-165 | Reopening mounts a new element at volume 1, unmuted; the volume effect does not run again. Nothing else changes. |
| MusicPlayer.HideReopenLosesSettings | myblog_app/src/components/ui/MusicPlayer.jsx:140-197 | After hiding and reopening, a player at a volume other than 1, or muted, is out of step with its element. The first-render player always is. |
| MusicPlayer.SecondsField | myblog_app/src/components/ui/MusicPlayer.jsx:71-72 | The seconds field is always two digits. |
| MusicPlayer.FormatTime | myblog_app/src/components/ui/MusicPlayer.jsx:68-73 | `NaN` shows `0:00`. Every face is digits, a colon, and two digits. |
| MusicPlayer.SecondsFieldParses | myblog_app/src/components/ui/MusicPlayer.jsx:71-72 | The padded seconds field reads back as `s mod 60`. |
| MusicPlayer.FormatTimeRoundTrip | myblog_app/src/components/ui/MusicPlayer.jsx:68-73 | Every face reads back as the whole seconds it shows, so distinct times have distinct faces. `NaN` shows the face of zero. |
| Text.NatToString | myblog_app/src/api/posts.js:139 | The decimal rendering is non-empty, all digits, and has no leading zero. |
| Text.ParseNatToString | myblog_app/src/api/posts.js:139 | The decimal rendering reads back as the number. |
| Text.NatToStringInjective | myblog_app/src/api/posts.js:139 | Distinct numbers render differently. |
| Text.PadStart | myblog_app/src/components/ui/MusicPlayer.jsx:72 | The result is at least as long as the width, and is fill characters followed by the input. |
| Text.TrimEmpty | myblog_app/src/pages/Admin.jsx:42 | `trim()` gives `''` exactly when every character is whitespace. |
| Pages.KeepCategory | myblog_app/src/pages/Blog.jsx:34 | Keeps exactly the posts of the category. |
| Pages.BlogFilter | myblog_app/src/pages/Blog.jsx:32-34 | The `全部` tab shows every post. Any other tab shows exactly the posts of that category. |
| Pages.OfCategorySort | myblog_server/routes/posts.js:13-19 | Filtering by category commutes with the stable newest-first sort. |
| Pages.BlogFilterMatchesServer | myblog_app/src/pages/Blog.jsx:32-34 | Filtering the full list on the client gives exactly the list, in the same order, that the server's category query returns. Posts with equal `createdAt` are in the model's stable order, which SQLite does not promise. |
| Pages.IsHtmlIffFirstVisible | myblog_app/src/pages/Article.jsx:69 | The body is HTML exactly when its first non-whitespace character is `<`. |
| Pages.FormAcceptedByServer | myblog_app/src/pages/Admin.jsx:42-45 | Whatever the form lets through, the server's create accepts. |
| Pages.BlankTitleOnlyFormRefuses | myblog_app/src/pages/Admin.jsx:42 | A one-space title is refused by the form but accepted by the server. |

## Left out

- **HTTP, CORS and JSON transport.** Requests are values and responses are parameters. JSON bodies are a `Json` datatype whose numbers are integers.
- **The Worker's `/api/health` route.** It only returns the current time.
- **The `500` catch paths for database failures other than `NOT NULL`.** A broken database file or a D1 outage has no counterpart in the model, because the table is a value that cannot fail.
- **D1's refusal to bind `undefined`.** A request body field that is missing and one that is `null` are both `None`. The model therefore gives the Worker's update the local server's behaviour: 500 when title or content is missing, and otherwise `NULL` for the absent optional fields.
- **Path ids that are not numbers.** Ids are `nat`; a non-numeric `:id` matches no row in the source, and the model never forms such a request.
  - The article page passes the route's id string to `getPost` unchanged, so `/post/007` and `/post/7` are two cache entries (`post_007`, `post_7`) for one row. The model's `nat` ids give both the single key `post_7`.
- **Cache items that `JSON.parse` accepts but that were not written by `saveToCache`.** The model reads every such item as absent, and the read fetches. The source copies the item into Tier 1 and looks at its `data` field:
  - an item without a truthy `data` (e.g. `"5"`) fails the `cached.data` test, so the read fetches as in the model;
  - an item with a truthy `data` and no `timestamp` (e.g. `{"data":[1]}`) is returned at once, as stale data, with a refresh in the background.
- **`localStorage` throwing partway through the clear loops.** It is either up or down for a whole operation.
- **Enumeration order of `localStorage.key(i)`.** It does not affect the result, and `ClearStorage` picks keys in any order.
- **Concurrency.** A background refresh and a later read interleave only in the order a lemma states.
- **The time between a request and its response.** A fetched entry is stamped with the `now` of the read that sent the request. The source stamps it with `Date.now()` when the response has been parsed, which is later.
- **Order among posts with equal `createdAt`.** `ORDER BY createdAt DESC` leaves their order open, and `CURRENT_TIMESTAMP` has one-second resolution. The model's sort keeps such posts in id order. The order claims of `Pages.BlogFilterMatchesServer` and `Schema.FreshDatabaseList` rest on that choice for equal dates.
- **The seed posts' HTML bodies.** They are replaced by short placeholders; titles, excerpts, categories, read times and dates are as in the source.
- **`IsSpace`.** It covers the ASCII whitespace, no-break space and byte-order mark, not every Unicode space `trim()` removes.
- MusicPlayer.FormatTime: takes whole, non-negative seconds instead of fractional and non-finite ones. For non-negative values, flooring before or after the division gives the same `m:ss`. `Infinity` (a stream without a duration) is not modelled.
- MusicPlayer.Perform: a rejected `play()` is not a separate case. It fires no `play` event, so `isPlaying` stays false, which is `NoOp`'s effect. The expand/collapse toggle, the progress bar seek and the spinning cover are presentation only.
- MusicPlayer.Step: hiding and reopening the player is not an `Action`. Hiding unmounts the `<audio>` element. The reopened element starts at volume 1, unmuted, with none of the listeners, because the effect that attaches them re-runs only when `volume` or `changeSong` changes. `Synced` does not survive this (`MusicPlayer.HideReopenLosesSettings`). The lost listeners are not modelled: on the reopened element, play, pause and the end of a track no longer reach the React state.
- **A post that answers 404.** It is returned as `null` and not cached, so the next read requests it again (`CacheBehaviour.NotFoundIsRefetched`).

## Findings

| source | as written | input that shows it | evidently intended | confidence | as-written member | corrected member |
|---|---|---|---|---|---|---|
| myblog_app/src/components/ui/MusicPlayer.jsx:112-119 | a positive volume sets `isMuted` to false but leaves `audio.muted` true | mute, then drag the slider (shown at 0 while muted) up to 0.5: the icon shows sound on and the element stays silent | raising the volume also unmutes the element | medium, not executed | MusicPlayer.HandleVolumeChangeAsWritten, MusicPlayer.VolumeChangeLeavesElementMuted | MusicPlayer.HandleVolumeChange, MusicPlayer.RunKeepsSynced |
| myblog_app/src/components/ui/MusicPlayer.jsx:146-176 | when a playing track ends, the `pause` event (fired before `ended`) sets `isPlaying` to false, so the auto-play effect loads the next song without playing it | play the first song to its end: the second song is selected and stays paused, while pressing next during playback keeps playing | the end of a track advances into the next song and keeps playing, as the auto-play effect's comment says | medium, not executed | MusicPlayer.EndedAsWritten, MusicPlayer.EndedStopsUnlikeNext | MusicPlayer.Step, MusicPlayer.EndedContinuesLikeNext |
