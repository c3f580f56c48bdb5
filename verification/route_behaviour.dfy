/** Properties of the posts routes across requests: what a create makes
    visible, what a delete takes away for good, and the table invariant that
    every handler keeps. */
module RouteBehaviour {
  import opened Wrappers
  import opened PostTable
  import opened PostRoutes

  /** Every handler keeps every row id within the `AUTOINCREMENT` sequence. */
  lemma HandlersKeepValid(t: Table, id: nat, input: PostInput, now: nat, query: Option<string>)
    requires Valid(t)
    ensures Valid(List(t, query).table)
    ensures Valid(Get(t, id).table)
    ensures Valid(Create(t, input, now).table)
    ensures Valid(Update(t, id, input, now).table)
    ensures Valid(Delete(t, id).table)
  {
  }

  /** A created post reads back under the id the create returned, with the
      fields sent and the defaults for those left out. */
  lemma CreateThenGet(t: Table, input: PostInput, now: nat)
    requires Valid(t)
    requires Filled(input.title) && Filled(input.content)
    ensures var c := Create(t, input, now);
      var id := c.reply.body.id;
      Get(c.table, id).reply == Reply(200, One(View(
        id,
        input.title.value,
        Some(OrDefault(input.excerpt, "")),
        input.content.value,
        Some(OrDefault(input.category, DefaultCategory)),
        Some(OrDefault(input.readTime, DefaultReadTime)),
        Date(now))))
  {
  }

  /** A created post shows up in the unfiltered list and in the list of its
      own category, and in no other category's list. */
  lemma CreateThenList(t: Table, input: PostInput, now: nat, query: string)
    requires Valid(t)
    requires Filled(input.title) && Filled(input.content)
    requires query != "" && query != AllCategory
    ensures var c := Create(t, input, now);
      var id := c.reply.body.id;
      && id in IdsOf(List(c.table, None).reply.body.items)
      && ((id in IdsOf(List(c.table, Some(query)).reply.body.items))
            <==> (OrDefault(input.category, DefaultCategory) == query))
  {
    var c := Create(t, input, now);
    var id := c.reply.body.id;
    assert id in c.table.rows;
    var row := c.table.rows[id];
    assert row.category == Some(OrDefault(input.category, DefaultCategory));
    assert Listed(row, None);
    assert Listed(row, Some(query)) <==> row.category == Some(query);
    assert id in IdsOf(List(c.table, None).reply.body.items);
    assert id in IdsOf(List(c.table, Some(query)).reply.body.items) <==> Listed(row, Some(query));
  }

  /** After a delete the id answers 404, no list mentions it, and the next
      create hands out a larger id: ids are never reused. */
  lemma DeleteIsForever(t: Table, id: nat, input: PostInput, now: nat, query: Option<string>)
    requires Valid(t) && id in t.rows
    requires Filled(input.title) && Filled(input.content)
    ensures var d := Delete(t, id);
      && Get(d.table, id).reply.status == 404
      && id !in IdsOf(List(d.table, query).reply.body.items)
      && Create(d.table, input, now).reply.body.id > id
  {
    var d := Delete(t, id);
    assert Valid(d.table);
  }

  /** Deleting twice: the second delete finds nothing and changes nothing. */
  lemma DeleteTwice(t: Table, id: nat)
    requires id in t.rows
    ensures var d := Delete(t, id);
      d.reply.status == 200 && Delete(d.table, id) == Handled(d.table, Reply(404, Error(NotFound)))
  {
  }

  /** An update reads back with the new fields and the original date. */
  lemma UpdateThenGet(t: Table, id: nat, input: PostInput, now: nat)
    requires id in t.rows && input.title.Some? && input.content.Some?
    ensures Get(Update(t, id, input, now).table, id).reply == Reply(200, One(View(
      id, input.title.value, input.excerpt, input.content.value, input.category, input.readTime,
      Date(t.rows[id].createdAt))))
  {
  }

  /** Create validates and update does not: an empty title is refused by
      the one and stored by the other. */
  lemma OnlyCreateValidates(t: Table, id: nat, content: string, now: nat)
    requires Valid(t) && id in t.rows && content != ""
    ensures var input := PostInput(Some(""), None, Some(content), None, None);
      && Create(t, input, now).reply.status == 400
      && Update(t, id, input, now).reply.status == 200
      && Update(t, id, input, now).table.rows[id].title == ""
  {
  }
}
