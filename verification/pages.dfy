/** The three checks the pages make on posts they hold: the blog page's
    category tabs (`Blog.jsx`), the article page's HTML test (`Article.jsx`)
    and the admin form's blank check (`Admin.jsx`). */
module Pages {
  import opened Wrappers
  import opened Text
  import opened PostTable
  import opened PostRoutes

  /** `allPosts.filter(post => post.category === activeCategory)`: a `null`
      category equals no tab. Order is kept. */
  function KeepCategory(posts: seq<Summary>, c: string): (r: seq<Summary>)
    ensures forall p :: p in r <==> p in posts && p.category == Some(c)
    ensures |r| <= |posts|
  {
    if posts == [] then []
    else
      var rest := KeepCategory(posts[1..], c);
      assert posts == [posts[0]] + posts[1..];
      if posts[0].category == Some(c) then [posts[0]] + rest else rest
  }

  /** The blog page's visible posts: all of them on the `'全部'` tab, those
      of the active category otherwise. */
  function BlogFilter(posts: seq<Summary>, active: string): (r: seq<Summary>)
    ensures active == AllCategory ==> r == posts
    ensures forall p :: p in r <==> p in posts && (active == AllCategory || p.category == Some(active))
  {
    if active == AllCategory then posts else KeepCategory(posts, active)
  }

  /** Keeping one category of a newest-first list keeps it newest first. */
  lemma {:induction false} OfCategoryKeepsOrder(rows: map<nat, Post>, ids: seq<nat>, c: string)
    requires AllIn(rows, ids) && NewestFirst(rows, ids)
    ensures NewestFirst(rows, OfCategory(rows, ids, c))
    decreases |ids|
  {
    if ids != [] {
      assert ids == [ids[0]] + ids[1..];
      OfCategoryKeepsOrder(rows, ids[1..], c);
      var rest := OfCategory(rows, ids[1..], c);
      assert forall k :: 0 <= k < |rest| ==> rest[k] in ids[1..];
    }
  }

  /** The head of a newest-first list is at least as new as anything in it. */
  lemma HeadIsNewest(rows: map<nat, Post>, ids: seq<nat>, x: nat)
    requires AllIn(rows, ids) && NewestFirst(rows, ids) && x in ids
    ensures rows[ids[0]].createdAt >= rows[x].createdAt
  {
    var k :| 0 <= k < |ids| && ids[k] == x;
    if k > 0 {
      assert rows[ids[0]].createdAt >= rows[ids[k]].createdAt;
    }
  }

  /** Filtering a list with a known head. */
  lemma OfCategoryCons(rows: map<nat, Post>, x: nat, s: seq<nat>, c: string)
    requires x in rows && AllIn(rows, s)
    ensures OfCategory(rows, [x] + s, c) ==
      if rows[x].category == Some(c) then [x] + OfCategory(rows, s, c) else OfCategory(rows, s, c)
  {
    assert ([x] + s)[1..] == s;
  }

  /** The row at the head of the filter of a sorted list is no newer than
      the list's head. */
  lemma FilteredHeadNotNewer(rows: map<nat, Post>, s: seq<nat>, c: string)
    requires AllIn(rows, s) && NewestFirst(rows, s) && OfCategory(rows, s, c) != []
    ensures rows[s[0]].createdAt >= rows[OfCategory(rows, s, c)[0]].createdAt
  {
    var f := OfCategory(rows, s, c);
    assert f[0] in f;
    HeadIsNewest(rows, s, f[0]);
  }

  /** Inserting a row newer than everything, then filtering. */
  lemma OfCategoryInsertFront(rows: map<nat, Post>, x: nat, s: seq<nat>, c: string)
    requires x in rows && AllIn(rows, s) && NewestFirst(rows, s) && NewestFirst(rows, OfCategory(rows, s, c))
    requires s == [] || rows[x].createdAt >= rows[s[0]].createdAt
    ensures OfCategory(rows, InsertByDate(rows, x, s), c) ==
      if rows[x].category == Some(c) then InsertByDate(rows, x, OfCategory(rows, s, c))
      else OfCategory(rows, s, c)
  {
    InsertInFront(rows, x, s);
    OfCategoryCons(rows, x, s, c);
    var f := OfCategory(rows, s, c);
    if rows[x].category == Some(c) {
      if f != [] {
        FilteredHeadNotNewer(rows, s, c);
      }
      InsertInFront(rows, x, f);
    }
  }

  /** Inserting a row older than the head, then filtering, given the same
      for the tail. */
  lemma OfCategoryInsertBehind(rows: map<nat, Post>, x: nat, s: seq<nat>, c: string)
    requires x in rows && AllIn(rows, s) && NewestFirst(rows, s) && NewestFirst(rows, OfCategory(rows, s, c))
    requires s != [] && rows[x].createdAt < rows[s[0]].createdAt
    requires NewestFirst(rows, OfCategory(rows, s[1..], c))
    requires rows[x].category == Some(c) ==>
      OfCategory(rows, InsertByDate(rows, x, s[1..]), c) == InsertByDate(rows, x, OfCategory(rows, s[1..], c))
    requires rows[x].category != Some(c) ==>
      OfCategory(rows, InsertByDate(rows, x, s[1..]), c) == OfCategory(rows, s[1..], c)
    ensures rows[x].category == Some(c) ==>
      OfCategory(rows, InsertByDate(rows, x, s), c) == InsertByDate(rows, x, OfCategory(rows, s, c))
    ensures rows[x].category != Some(c) ==>
      OfCategory(rows, InsertByDate(rows, x, s), c) == OfCategory(rows, s, c)
  {
    InsertBehind(rows, x, s);
  }

  /** Filtering after inserting one id is inserting it, if it is kept, into
      the filtered list. */
  lemma {:induction false} OfCategoryInsert(rows: map<nat, Post>, x: nat, s: seq<nat>, c: string)
    requires x in rows && AllIn(rows, s) && NewestFirst(rows, s)
    ensures NewestFirst(rows, OfCategory(rows, s, c))
    ensures OfCategory(rows, InsertByDate(rows, x, s), c) ==
      if rows[x].category == Some(c) then InsertByDate(rows, x, OfCategory(rows, s, c))
      else OfCategory(rows, s, c)
    decreases |s|
  {
    OfCategoryKeepsOrder(rows, s, c);
    if s == [] || rows[x].createdAt >= rows[s[0]].createdAt {
      OfCategoryInsertFront(rows, x, s, c);
    } else {
      InsertBehind(rows, x, s);
      assert AllIn(rows, s[1..]);
      OfCategoryInsert(rows, x, s[1..], c);
      OfCategoryInsertBehind(rows, x, s, c);
    }
  }

  /** The stable newest-first sort and the category filter commute. */
  lemma {:induction false} OfCategorySort(rows: map<nat, Post>, ids: seq<nat>, c: string)
    requires AllIn(rows, ids)
    ensures OfCategory(rows, SortByDate(rows, ids), c) == SortByDate(rows, OfCategory(rows, ids, c))
    decreases |ids|
  {
    if ids != [] {
      assert ids == [ids[0]] + ids[1..];
      var sorted := SortByDate(rows, ids[1..]);
      OfCategorySort(rows, ids[1..], c);
      OfCategoryInsert(rows, ids[0], sorted, c);
      var f := OfCategory(rows, ids, c);
      if rows[ids[0]].category == Some(c) {
        assert f == [ids[0]] + OfCategory(rows, ids[1..], c);
        assert f[1..] == OfCategory(rows, ids[1..], c);
      }
    }
  }

  /** Summarising and filtering commute: a summary carries its row's
      category. */
  lemma {:induction false} KeepCategoryProject(rows: map<nat, Post>, ids: seq<nat>, c: string)
    requires AllIn(rows, ids)
    ensures KeepCategory(Project(rows, ids), c) == Project(rows, OfCategory(rows, ids, c))
    decreases |ids|
  {
    if ids != [] {
      assert ids == [ids[0]] + ids[1..];
      var all := Project(rows, ids);
      assert all[1..] == Project(rows, ids[1..]);
      KeepCategoryProject(rows, ids[1..], c);
      var f := OfCategory(rows, ids, c);
      if rows[ids[0]].category == Some(c) {
        assert f[1..] == OfCategory(rows, ids[1..], c);
      }
    }
  }

  /** The server's category list is its full list with the other
      categories dropped. */
  lemma ListIdsOfCategory(t: Table, c: string)
    requires Valid(t)
    ensures ListIds(t, Some(c)) == OfCategory(t.rows, ListIds(t, None), c)
  {
    var all := Selected(t, None);
    assert Selected(t, Some(c)) == OfCategory(t.rows, all, c);
    OfCategorySort(t.rows, all, c);
  }

  /** The blog page fetches every post once and filters on the client; on
      any tab it shows exactly the list, in exactly the order, that the
      server's own category query would return. */
  lemma BlogFilterMatchesServer(t: Table, tab: string)
    requires Valid(t) && tab != ""
    ensures BlogFilter(List(t, None).reply.body.items, tab) == List(t, Some(tab)).reply.body.items
  {
    var everything := List(t, None).reply.body.items;
    assert everything == Project(t.rows, ListIds(t, None));
    if tab != AllCategory {
      assert List(t, Some(tab)).reply.body.items == Project(t.rows, ListIds(t, Some(tab)));
      ListIdsOfCategory(t, tab);
      KeepCategoryProject(t.rows, ListIds(t, None), tab);
    }
  }

  /** `article.content.trim().startsWith('<')`: the body is rendered as HTML
      when its first non-blank character is `<`. */
  predicate IsHtml(content: string) {
    StartsWith(Trim(content), "<")
  }

  /** `IsHtml` holds exactly when some `<` has nothing but whitespace before
      it. */
  lemma IsHtmlIffFirstVisible(content: string)
    ensures IsHtml(content) <==>
      exists i :: 0 <= i < |content| && content[i] == '<' && forall j :: 0 <= j < i ==> IsSpace(content[j])
  {
    var a := TrimStart(content);
    var k := |content| - |a|;
    if a != [] {
      assert a[0] == content[k];
      assert TrimEnd(a) != [];
      assert Trim(content)[0] == a[0];
      assert IsHtml(content) <== content[k] == '<';
    }
    if exists i :: 0 <= i < |content| && content[i] == '<' && forall j :: 0 <= j < i ==> IsSpace(content[j]) {
      var i :| 0 <= i < |content| && content[i] == '<' && forall j :: 0 <= j < i ==> IsSpace(content[j]);
      assert k == i;
    }
    if IsHtml(content) {
      assert content[k] == '<';
    }
  }

  /** `!title.trim() || !content.trim()`: the admin form refuses a blank
      title or body before sending anything. */
  predicate CanSubmit(title: string, content: string) {
    Trim(title) != "" && Trim(content) != ""
  }

  /** A title or body the form lets through is non-empty, so the
      server's create accepts what the form sends. */
  lemma FormAcceptedByServer(t: Table, title: string, content: string, input: PostInput, now: nat)
    requires Valid(t) && CanSubmit(title, content)
    requires input.title == Some(title) && input.content == Some(content)
    ensures Create(t, input, now).reply.status == 201
  {
    TrimEmpty(title);
    TrimEmpty(content);
    assert Filled(input.title) && Filled(input.content);
  }

  /** The form is stricter than the server: a title of one space is
      refused by the form and stored by the server. */
  lemma BlankTitleOnlyFormRefuses(t: Table, input: PostInput, now: nat)
    requires Valid(t) && input.title == Some(" ") && Filled(input.content)
    ensures !CanSubmit(" ", input.content.value)
    ensures Create(t, input, now).reply.status == 201
  {
    TrimEmpty(" ");
  }
}
