/** The five handlers of the posts router (`myblog_server/routes/posts.js`),
    each a function from the table and the request to the new table and the
    reply. None of them takes a credential: the local server mounts the
    router without any guard. The request's `now` is the database's
    `CURRENT_TIMESTAMP`. */
module PostRoutes {
  import opened Wrappers
  import opened PostTable

  /** The category tab that stands for "no filter". */
  const AllCategory: string := "全部"
  const DefaultCategory: string := "随想"
  const DefaultReadTime: string := "5 分钟"

  const NotFound: string := "文章不存在"
  const TitleAndContentRequired: string := "标题和内容不能为空"
  const CreatedMessage: string := "文章创建成功"
  const UpdatedMessage: string := "文章更新成功"
  const DeletedMessage: string := "文章删除成功"
  const UpdateFailed: string := "更新文章失败"

  /** The JSON body of a create or update request. A field is `None` when the
      body leaves it out or sets it to `null`. */
  datatype PostInput = PostInput(
    title: Option<string>,
    excerpt: Option<string>,
    content: Option<string>,
    category: Option<string>,
    readTime: Option<string>)

  /** The JSON body of a reply. */
  datatype Body =
    | Posts(items: seq<Summary>)
    | One(post: View)
    | Created(id: nat, message: string)
    | Done(message: string)
    | Error(error: string)
    | Status(status: string)

  datatype Reply = Reply(status: int, body: Body)

  /** The table after a request, and the reply sent. */
  datatype Handled = Handled(table: Table, reply: Reply)

  /** JavaScript truthiness of an optional string. */
  predicate Filled(v: Option<string>) {
    v.Some? && v.value != ""
  }

  /** `v || fallback`. */
  function OrDefault(v: Option<string>, fallback: string): (r: string)
    ensures Filled(v) ==> r == v.value
    ensures !Filled(v) ==> r == fallback
  {
    if Filled(v) then v.value else fallback
  }

  /** `category && category !== '全部'`: the category a list query filters
      by, if any. */
  function CategoryFilter(query: Option<string>): (r: Option<string>)
    ensures r.Some? <==> Filled(query) && query.value != AllCategory
    ensures r.Some? ==> r == query
  {
    if Filled(query) && query.value != AllCategory then query else None
  }

  /** Whether a row belongs to the list a query asks for. */
  predicate Listed(p: Post, query: Option<string>) {
    CategoryFilter(query).None? || p.category == CategoryFilter(query)
  }

  /** `GET /`: the selected rows, newest first, as summaries. Every row the
      query selects is listed exactly once, nothing else is, and the table
      does not change. */
  function List(t: Table, query: Option<string>): (r: Handled)
    requires Valid(t)
    ensures r.table == t && r.reply.status == 200 && r.reply.body.Posts?
    ensures var items := r.reply.body.items;
      && (forall i :: 0 <= i < |items| ==>
            items[i].id in t.rows && items[i] == Summarize(items[i].id, t.rows[items[i].id]))
      && (forall id :: id in IdsOf(items) <==> id in t.rows && Listed(t.rows[id], query))
      && Distinct(IdsOf(items))
      && (forall i, j :: 0 <= i < j < |items| ==>
            t.rows[items[i].id].createdAt >= t.rows[items[j].id].createdAt)
  {
    var ids := ListIds(t, CategoryFilter(query));
    var items := Project(t.rows, ids);
    assert IdsOf(items) == ids;
    Handled(t, Reply(200, Posts(items)))
  }

  /** `GET /:id`: 404 exactly when no row has the id; otherwise that row's
      fields. The table does not change. */
  function Get(t: Table, id: nat): (r: Handled)
    ensures r.table == t
    ensures r.reply.status == 404 <==> id !in t.rows
    ensures id !in t.rows ==> r.reply.body == Error(NotFound)
    ensures id in t.rows ==> r.reply == Reply(200, One(ViewOf(id, t.rows[id])))
  {
    if id in t.rows then Handled(t, Reply(200, One(ViewOf(id, t.rows[id]))))
    else Handled(t, Reply(404, Error(NotFound)))
  }

  /** `POST /`: a missing or empty title or content is refused with 400 and
      no change. Otherwise one row is inserted under a fresh id, with `''`,
      `'随想'` and `'5 分钟'` for a missing excerpt, category and read time,
      and 201 carries the new id. */
  function Create(t: Table, input: PostInput, now: nat): (r: Handled)
    requires Valid(t)
    ensures Valid(r.table)
    ensures !Filled(input.title) || !Filled(input.content) ==>
      r == Handled(t, Reply(400, Error(TitleAndContentRequired)))
    ensures Filled(input.title) && Filled(input.content) ==>
      && r.reply.status == 201
      && r.reply.body.Created?
      && var id := r.reply.body.id;
      && id == t.lastId + 1 && r.table.lastId == id
      && id !in t.rows
      && (forall k :: k in t.rows ==> k < id)
      && r.table.rows == t.rows[id := Post(
           input.title.value,
           Some(OrDefault(input.excerpt, "")),
           input.content.value,
           Some(OrDefault(input.category, DefaultCategory)),
           Some(OrDefault(input.readTime, DefaultReadTime)),
           now, now)]
  {
    if !Filled(input.title) || !Filled(input.content) then
      Handled(t, Reply(400, Error(TitleAndContentRequired)))
    else
      var row := Post(
        input.title.value,
        Some(OrDefault(input.excerpt, "")),
        input.content.value,
        Some(OrDefault(input.category, DefaultCategory)),
        Some(OrDefault(input.readTime, DefaultReadTime)),
        now, now);
      var (id, t') := Insert(t, row);
      Handled(t', Reply(201, Created(id, CreatedMessage)))
  }

  /** `PUT /:id`: 404 and no change for an absent id. Otherwise the five
      fields are overwritten as sent, with no validation and no defaults;
      `createdAt` is kept and `updatedAt` becomes `now`. A missing title or
      content would store `NULL` in a `NOT NULL` column: the statement fails,
      the reply is 500 and nothing changes. */
  function Update(t: Table, id: nat, input: PostInput, now: nat): (r: Handled)
    ensures r.table.lastId == t.lastId
    ensures id !in t.rows ==> r == Handled(t, Reply(404, Error(NotFound)))
    ensures id in t.rows && (input.title.None? || input.content.None?) ==>
      r == Handled(t, Reply(500, Error(UpdateFailed)))
    ensures id in t.rows && input.title.Some? && input.content.Some? ==>
      && r.reply == Reply(200, Done(UpdatedMessage))
      && r.table.rows.Keys == t.rows.Keys
      && r.table.rows[id] == Post(input.title.value, input.excerpt, input.content.value,
                                  input.category, input.readTime, t.rows[id].createdAt, now)
      && (forall other :: other in t.rows && other != id ==> r.table.rows[other] == t.rows[other])
  {
    if id !in t.rows then
      Handled(t, Reply(404, Error(NotFound)))
    else if input.title.None? || input.content.None? then
      Handled(t, Reply(500, Error(UpdateFailed)))
    else
      var p := t.rows[id];
      var row := Post(input.title.value, input.excerpt, input.content.value,
                      input.category, input.readTime, p.createdAt, now);
      Handled(Table(t.rows[id := row], t.lastId), Reply(200, Done(UpdatedMessage)))
  }

  /** `DELETE /:id`: 404 exactly when the statement changed no row;
      otherwise that row, and only it, is gone. The sequence is untouched,
      so the id is never handed out again. */
  function Delete(t: Table, id: nat): (r: Handled)
    ensures r.table.lastId == t.lastId
    ensures r.reply.status == 404 <==> id !in t.rows
    ensures id !in t.rows ==> r.table == t
    ensures id in t.rows ==> r.reply == Reply(200, Done(DeletedMessage))
    ensures id in t.rows ==> r.table.rows.Keys == t.rows.Keys - {id}
    ensures forall k :: k in r.table.rows ==> k in t.rows && r.table.rows[k] == t.rows[k]
  {
    var changes := if id in t.rows then 1 else 0;
    if changes == 0 then Handled(t, Reply(404, Error(NotFound)))
    else Handled(Table(t.rows - {id}, t.lastId), Reply(200, Done(DeletedMessage)))
  }
}
