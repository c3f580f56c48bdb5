/** The `posts` table both back ends run their statements against
    (`myblog_server/db/database.js`, the D1 binding of `myblog_worker`), as a
    value: the rows by id plus the `AUTOINCREMENT` high-water mark.

    `createdAt` and `updatedAt` are readings of an abstract clock, a natural
    number whose decimal digits are `YYYYMMDDhhmmss`, so that `DATE(createdAt)`
    is the reading divided by 10^6. */
module PostTable {
  import opened Wrappers

  /** One row. `title` and `content` are `NOT NULL`; the other text columns
      may hold `NULL` (`None`). */
  datatype Post = Post(
    title: string,
    excerpt: Option<string>,
    content: string,
    category: Option<string>,
    readTime: Option<string>,
    createdAt: nat,
    updatedAt: nat)

  /** The rows by id, and the largest id ever handed out (SQLite's
      `sqlite_sequence` entry for the table). */
  datatype Table = Table(rows: map<nat, Post>, lastId: nat)

  /** Every row id was handed out by the sequence. */
  predicate Valid(t: Table) {
    forall id :: id in t.rows ==> 1 <= id <= t.lastId
  }

  const Empty: Table := Table(map[], 0)

  /** `DATE(createdAt)` on the abstract clock. */
  function Date(clock: nat): nat {
    clock / 1_000_000
  }

  /** The id `AUTOINCREMENT` hands to the next insert. */
  function NextId(t: Table): nat {
    t.lastId + 1
  }

  /** An `INSERT`: the row gets the next id and the sequence advances. The
      id is one above the largest ever handed out, not above the largest
      still present, so the id of a deleted row is never handed out again. */
  function Insert(t: Table, p: Post): (r: (nat, Table))
    requires Valid(t)
    ensures r.0 == t.lastId + 1
    ensures r.0 !in t.rows
    ensures forall id :: id in t.rows ==> id < r.0
    ensures r.1.rows == t.rows[r.0 := p]
    ensures r.1.lastId == r.0 && Valid(r.1)
  {
    var id := NextId(t);
    (id, Table(t.rows[id := p], id))
  }

  /** The projection `SELECT id, title, excerpt, category, readTime,
      DATE(createdAt) AS date` of a list row. */
  datatype Summary = Summary(
    id: nat,
    title: string,
    excerpt: Option<string>,
    category: Option<string>,
    readTime: Option<string>,
    date: nat)

  /** The projection of a single-post row, which adds `content`. */
  datatype View = View(
    id: nat,
    title: string,
    excerpt: Option<string>,
    content: string,
    category: Option<string>,
    readTime: Option<string>,
    date: nat)

  function Summarize(id: nat, p: Post): Summary {
    Summary(id, p.title, p.excerpt, p.category, p.readTime, Date(p.createdAt))
  }

  function ViewOf(id: nat, p: Post): View {
    View(id, p.title, p.excerpt, p.content, p.category, p.readTime, Date(p.createdAt))
  }

  predicate AllIn(rows: map<nat, Post>, ids: seq<nat>) {
    forall i :: 0 <= i < |ids| ==> ids[i] in rows
  }

  predicate Distinct(ids: seq<nat>) {
    forall i, j :: 0 <= i < j < |ids| ==> ids[i] != ids[j]
  }

  /** The ids of `rows` in `[1, n]`, ascending. */
  function IdsUpTo(rows: map<nat, Post>, n: nat): (r: seq<nat>)
    ensures AllIn(rows, r)
    ensures forall i, j :: 0 <= i < j < |r| ==> r[i] < r[j]
    ensures forall id :: id in r <==> id in rows && 1 <= id <= n
    decreases n
  {
    if n == 0 then []
    else IdsUpTo(rows, n - 1) + (if n in rows then [n] else [])
  }

  /** `WHERE category = ?`: the rows whose category is exactly `c`; a `NULL`
      category matches nothing. */
  function OfCategory(rows: map<nat, Post>, ids: seq<nat>, c: string): (r: seq<nat>)
    requires AllIn(rows, ids)
    ensures AllIn(rows, r)
    ensures forall id :: id in r <==> id in ids && rows[id].category == Some(c)
    ensures multiset(r) <= multiset(ids)
  {
    if ids == [] then []
    else
      var rest := OfCategory(rows, ids[1..], c);
      assert ids == [ids[0]] + ids[1..];
      if rows[ids[0]].category == Some(c) then [ids[0]] + rest else rest
  }

  /** `ORDER BY createdAt DESC`. */
  predicate NewestFirst(rows: map<nat, Post>, ids: seq<nat>)
    requires AllIn(rows, ids)
  {
    forall i, j :: 0 <= i < j < |ids| ==> rows[ids[i]].createdAt >= rows[ids[j]].createdAt
  }

  /** Places `id` before the first row that is not newer than it. */
  function InsertByDate(rows: map<nat, Post>, id: nat, sorted: seq<nat>): (r: seq<nat>)
    requires id in rows && AllIn(rows, sorted) && NewestFirst(rows, sorted)
    ensures AllIn(rows, r) && NewestFirst(rows, r)
    ensures multiset(r) == multiset(sorted) + multiset{id}
    ensures |r| == |sorted| + 1
    ensures r[0] == id || (sorted != [] && r[0] == sorted[0])
    decreases |sorted|
  {
    if sorted == [] || rows[id].createdAt >= rows[sorted[0]].createdAt then
      [id] + sorted
    else
      var rest := InsertByDate(rows, id, sorted[1..]);
      assert sorted == [sorted[0]] + sorted[1..];
      var r := [sorted[0]] + rest;
      assert rows[r[0]].createdAt >= rows[r[1]].createdAt;
      assert forall k :: 1 <= k < |r| ==> rows[r[1]].createdAt >= rows[r[k]].createdAt;
      r
  }

  /** Insertion sort, newest first; rows with equal `createdAt` keep their
      relative order. */
  function SortByDate(rows: map<nat, Post>, ids: seq<nat>): (r: seq<nat>)
    requires AllIn(rows, ids)
    ensures AllIn(rows, r) && NewestFirst(rows, r)
    ensures multiset(r) == multiset(ids)
    decreases |ids|
  {
    if ids == [] then []
    else
      assert ids == [ids[0]] + ids[1..];
      InsertByDate(rows, ids[0], SortByDate(rows, ids[1..]))
  }

  /** A row at least as new as the head of a sorted list goes in front. */
  lemma InsertInFront(rows: map<nat, Post>, id: nat, sorted: seq<nat>)
    requires id in rows && AllIn(rows, sorted) && NewestFirst(rows, sorted)
    requires sorted != [] ==> rows[id].createdAt >= rows[sorted[0]].createdAt
    ensures InsertByDate(rows, id, sorted) == [id] + sorted
  {
  }

  /** A row older than the head of a sorted list goes somewhere after it. */
  lemma InsertBehind(rows: map<nat, Post>, id: nat, sorted: seq<nat>)
    requires id in rows && AllIn(rows, sorted) && NewestFirst(rows, sorted)
    requires sorted != [] && rows[id].createdAt < rows[sorted[0]].createdAt
    ensures NewestFirst(rows, sorted[1..])
    ensures InsertByDate(rows, id, sorted) == [sorted[0]] + InsertByDate(rows, id, sorted[1..])
  {
    assert forall i :: 0 <= i < |sorted[1..]| ==> sorted[1..][i] == sorted[i + 1];
  }

  /** A duplicate-free sequence holds each of its elements once. */
  lemma {:induction false} CountInDistinct(a: seq<nat>, x: nat)
    requires Distinct(a) && x in a
    ensures multiset(a)[x] == 1
    decreases |a|
  {
    assert a == [a[0]] + a[1..];
    if a[0] == x {
      assert x !in a[1..];
    } else {
      CountInDistinct(a[1..], x);
    }
  }

  /** A value at two positions is counted at least twice. */
  lemma CountOfRepeat(b: seq<nat>, i: nat, j: nat)
    requires i < j < |b| && b[i] == b[j]
    ensures multiset(b)[b[i]] >= 2
  {
    assert b == b[..i] + [b[i]] + b[i + 1..j] + [b[j]] + b[j + 1..];
  }

  /** Every sub-multiset of a duplicate-free sequence is duplicate-free. */
  lemma DistinctSubsequence(a: seq<nat>, b: seq<nat>)
    requires Distinct(a) && multiset(b) <= multiset(a)
    ensures Distinct(b)
  {
    forall i, j | 0 <= i < j < |b| ensures b[i] != b[j] {
      if b[i] == b[j] {
        CountOfRepeat(b, i, j);
        assert b[i] in multiset(a);
        CountInDistinct(a, b[i]);
        assert false;
      }
    }
  }

  /** An ascending sequence has no duplicates. */
  lemma AscendingIsDistinct(ids: seq<nat>)
    requires forall i, j :: 0 <= i < j < |ids| ==> ids[i] < ids[j]
    ensures Distinct(ids)
  {
  }

  /** The rows a list query selects, by id: all of them, or those of one
      category when `category` is `Some`. */
  function Selected(t: Table, category: Option<string>): (ids: seq<nat>)
    requires Valid(t)
    ensures AllIn(t.rows, ids) && Distinct(ids)
    ensures forall id :: id in ids <==>
      id in t.rows && (category.Some? ==> t.rows[id].category == category)
  {
    var all := IdsUpTo(t.rows, t.lastId);
    AscendingIsDistinct(all);
    match category
    case None => all
    case Some(c) =>
      var r := OfCategory(t.rows, all, c);
      DistinctSubsequence(all, r);
      r
  }

  /** The two list statements: the selected rows, newest first, projected.
      Each selected row appears exactly once and nothing else appears. */
  function ListIds(t: Table, category: Option<string>): (ids: seq<nat>)
    requires Valid(t)
    ensures AllIn(t.rows, ids) && NewestFirst(t.rows, ids) && Distinct(ids)
    ensures forall id :: id in ids <==>
      id in t.rows && (category.Some? ==> t.rows[id].category == category)
  {
    var sel := Selected(t, category);
    var r := SortByDate(t.rows, sel);
    DistinctSubsequence(sel, r);
    assert forall id :: id in r <==> id in multiset(sel);
    r
  }

  function Project(rows: map<nat, Post>, ids: seq<nat>): (r: seq<Summary>)
    requires AllIn(rows, ids)
    ensures |r| == |ids|
    ensures forall i :: 0 <= i < |ids| ==> r[i] == Summarize(ids[i], rows[ids[i]])
  {
    if ids == [] then [] else [Summarize(ids[0], rows[ids[0]])] + Project(rows, ids[1..])
  }

  /** The ids of a list of summaries, in order. */
  function IdsOf(items: seq<Summary>): (ids: seq<nat>)
    ensures |ids| == |items|
    ensures forall i :: 0 <= i < |items| ==> ids[i] == items[i].id
  {
    if items == [] then [] else [items[0].id] + IdsOf(items[1..])
  }
}
