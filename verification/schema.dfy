/** Start-up of the local database (`myblog_server/db/database.js`):
    `CREATE TABLE IF NOT EXISTS`, then three sample posts only when the
    table is empty. `now` is `CURRENT_TIMESTAMP` at start-up. */
module Schema {
  import opened Wrappers
  import opened PostTable

  /** A sample post: every column the seed statement sets. */
  datatype SeedPost = SeedPost(title: string, excerpt: string, content: string, category: string, readTime: string, createdAt: nat)

  /** The three sample posts, in insertion order. Their HTML bodies are
      stood in for by short placeholders; their dates are written on the
      abstract clock. */
  const Sample1: SeedPost := SeedPost(
    "探索现代前端开发的艺术",
    "从设计系统到组件架构，让我们深入了解如何打造优雅的用户界面。",
    "<p>sample 1</p>", "前端开发", "8 分钟", 20260110_000000)
  const Sample2: SeedPost := SeedPost(
    "简约设计的哲学思考",
    "少即是多。探讨如何在设计中保持克制，创造更有力量的作品。",
    "<p>sample 2</p>", "设计思考", "5 分钟", 20260105_000000)
  const Sample3: SeedPost := SeedPost(
    "代码中的诗意",
    "编程不仅是逻辑的表达，更是一种创造性的艺术形式。",
    "<p>sample 3</p>", "随想", "6 分钟", 20251228_000000)

  /** `CREATE TABLE IF NOT EXISTS posts`: a missing table is created empty
      with a fresh sequence; an existing one is returned untouched. */
  function CreateTable(existing: Option<Table>): (r: Table)
    ensures existing.Some? ==> r == existing.value
    ensures existing.None? ==> r.rows == map[] && r.lastId == 0 && Valid(r)
  {
    match existing
    case Some(t) => t
    case None => Empty
  }

  /** The row the seed statement writes; `updatedAt` takes its default. */
  function SeedRow(s: SeedPost, now: nat): Post {
    Post(s.title, Some(s.excerpt), s.content, Some(s.category), Some(s.readTime), s.createdAt, now)
  }

  /** The rows an empty table holds after seeding. */
  function SeededRows(base: nat, now: nat): map<nat, Post> {
    map[base + 1 := SeedRow(Sample1, now), base + 2 := SeedRow(Sample2, now), base + 3 := SeedRow(Sample3, now)]
  }

  /** `if (count.count === 0)`: an empty table gets the three samples, in
      order, under the next three ids; any other table is left alone. */
  function SeedIfEmpty(t: Table, now: nat): (r: Table)
    requires Valid(t)
    ensures Valid(r)
    ensures |t.rows| != 0 ==> r == t
    ensures |t.rows| == 0 ==> r == Table(SeededRows(t.lastId, now), t.lastId + 3)
  {
    if |t.rows| == 0 then
      assert t.rows == map[];
      var (_, t1) := Insert(t, SeedRow(Sample1, now));
      var (_, t2) := Insert(t1, SeedRow(Sample2, now));
      var (_, t3) := Insert(t2, SeedRow(Sample3, now));
      t3
    else t
  }

  /** Seeding inserts exactly three posts, all under ids above the old
      sequence value. */
  lemma SeedInsertsThree(t: Table, now: nat)
    requires Valid(t) && |t.rows| == 0
    ensures |SeedIfEmpty(t, now).rows| == 3
    ensures forall id :: id in SeedIfEmpty(t, now).rows ==> id > t.lastId
  {
    var r := SeedIfEmpty(t, now);
    assert r.rows.Keys == {t.lastId + 1, t.lastId + 2, t.lastId + 3};
  }

  /** The whole start-up sequence. It always ends with posts in the table. */
  function Startup(existing: Option<Table>, now: nat): (r: Table)
    requires existing.Some? ==> Valid(existing.value)
    ensures Valid(r)
    ensures |r.rows| > 0
  {
    var t := CreateTable(existing);
    var r := SeedIfEmpty(t, now);
    assert |t.rows| == 0 ==> t.lastId + 1 in r.rows;
    r
  }

  /** A table that already has posts starts up with exactly those posts. */
  lemma StartupKeepsExistingPosts(t: Table, now: nat)
    requires Valid(t) && |t.rows| > 0
    ensures Startup(Some(t), now) == t
  {
  }

  /** Restarting is harmless: a second start-up over the first one's table
      changes nothing, whenever it happens. */
  lemma StartupIdempotent(existing: Option<Table>, now: nat, later: nat)
    requires existing.Some? ==> Valid(existing.value)
    ensures Startup(Some(Startup(existing, now)), later) == Startup(existing, now)
  {
  }

  /** A table emptied by deletes is reseeded under fresh ids, above every id
      it ever had: the sequence is not reset. */
  lemma ReseedUsesFreshIds(t: Table, now: nat)
    requires Valid(t) && |t.rows| == 0
    ensures forall id :: id in Startup(Some(t), now).rows ==> id > t.lastId
  {
    SeedInsertsThree(t, now);
  }

  /** Three rows already newest first stay in that order. */
  lemma SortOrderedThree(rows: map<nat, Post>, a: nat, b: nat, c: nat)
    requires a in rows && b in rows && c in rows
    requires rows[a].createdAt >= rows[b].createdAt >= rows[c].createdAt
    ensures SortByDate(rows, [a, b, c]) == [a, b, c]
  {
    assert [a, b, c][1..] == [b, c];
    assert [b, c][1..] == [c];
    assert [c][1..] == [];
    InsertInFront(rows, c, []);
    assert SortByDate(rows, [c]) == [c];
    InsertInFront(rows, b, [c]);
    assert SortByDate(rows, [b, c]) == [b, c];
    InsertInFront(rows, a, [b, c]);
  }

  /** A brand-new database holds the three samples under ids 1, 2, 3. */
  lemma FreshDatabaseRows(now: nat)
    ensures Startup(None, now) == Table(SeededRows(0, now), 3)
  {
  }

  /** The unfiltered selection of the seeded table, in id order. */
  lemma SeededSelection(now: nat)
    ensures Selected(Table(SeededRows(0, now), 3), None) == [1, 2, 3]
  {
    var rows := SeededRows(0, now);
    assert IdsUpTo(rows, 1) == [1];
    assert IdsUpTo(rows, 2) == [1, 2];
    assert IdsUpTo(rows, 3) == [1, 2, 3];
  }

  /** A brand-new database lists its samples newest first: ids 1, 2, 3. */
  lemma FreshDatabaseList(now: nat)
    ensures ListIds(Startup(None, now), None) == [1, 2, 3]
  {
    FreshDatabaseRows(now);
    SeededSelection(now);
    var rows := SeededRows(0, now);
    SortOrderedThree(rows, 1, 2, 3);
  }
}
