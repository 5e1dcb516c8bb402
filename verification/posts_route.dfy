/** `GET /api/posts` (the public, paginated feed) and `POST /api/posts`
    (creating a post as the authenticated user). The collection is a
    sequence of posts in insertion order; the full-text match of a
    `search` term is a parameter. */
module PostsRoute {
  import opened Wrappers
  import opened JsString
  import opened ObjectId
  import opened UserModel
  import opened PostModel
  import opened Http

  const DefaultPage: nat := 1
  const DefaultLimit: nat := 10

  /** Query parameters after `parseInt`; None is a missing or empty parameter. */
  datatype FeedQuery = FeedQuery(page: Option<int>, limit: Option<int>, search: string, author: string)

  datatype Pagination = Pagination(page: int, limit: int, total: nat, pages: nat)

  datatype Feed = Feed(posts: seq<Post>, pagination: Pagination)

  /** The full-text `$text` match of a search term against a post. */
  type TextMatch = (string, Post) -> bool

  /** `(page - 1) * limit`: the number of posts before the page. */
  function Skip(page: int, limit: int): nat
    requires page >= 1 && limit >= 1
  {
    (page - 1) * limit
  }

  /** `Math.ceil(total / limit)`: the fewest pages of `limit` posts that hold `total`. */
  function PageCount(total: nat, limit: nat): (pages: nat)
    requires limit >= 1
    ensures pages * limit >= total
    ensures total > 0 ==> (pages - 1) * limit < total
    ensures total == 0 ==> pages == 0
  {
    var q := total / limit;
    if q * limit == total then q else q + 1
  }

  /** Posts from newest to oldest by `createdAt`. */
  predicate NewestFirst(s: seq<Post>) {
    forall i, j | 0 <= i < j < |s| :: s[i].createdAt >= s[j].createdAt
  }

  function Insert(p: Post, s: seq<Post>): (r: seq<Post>)
    requires NewestFirst(s)
    ensures NewestFirst(r)
    ensures multiset(r) == multiset(s) + multiset{p}
    ensures |r| == |s| + 1
    ensures forall k | 0 <= k < |r| :: r[k] == p || r[k] in s
  {
    if s == [] || p.createdAt >= s[0].createdAt then
      PrependNewest(p, s);
      [p] + s
    else
      var rest := Insert(p, s[1..]);
      assert s == [s[0]] + s[1..];
      NoNewerThanHead(s, p, rest);
      PrependNewest(s[0], rest);
      [s[0]] + rest
  }

  /** What `Insert` puts after the head of `s`, when `p` is older than
      the head, is no newer than the head. */
  lemma NoNewerThanHead(s: seq<Post>, p: Post, rest: seq<Post>)
    requires NewestFirst(s) && s != [] && p.createdAt < s[0].createdAt
    requires forall k | 0 <= k < |rest| :: rest[k] == p || rest[k] in s[1..]
    ensures rest != [] ==> rest[0].createdAt <= s[0].createdAt
  {
    if rest != [] && rest[0] != p {
      var m :| 0 <= m < |s[1..]| && s[1..][m] == rest[0];
      assert s[m + 1] == rest[0];
    }
  }

  /** A post no older than the head of a sorted feed can go in front of it. */
  lemma PrependNewest(p: Post, s: seq<Post>)
    requires NewestFirst(s)
    requires s != [] ==> s[0].createdAt <= p.createdAt
    ensures NewestFirst([p] + s)
  {
    var r := [p] + s;
    forall i, j | 0 <= i < j < |r| ensures r[i].createdAt >= r[j].createdAt {
      if i == 0 {
        assert r[j] == s[j - 1];
      } else {
        assert r[i] == s[i - 1] && r[j] == s[j - 1];
      }
    }
  }

  /** The feed in the order of `sort({ createdAt: -1 })`. */
  function SortNewestFirst(s: seq<Post>): (r: seq<Post>)
    ensures NewestFirst(r)
    ensures multiset(r) == multiset(s)
    ensures |r| == |s|
    ensures forall k | 0 <= k < |r| :: r[k] in s
  {
    if s == [] then []
    else
      var rest := SortNewestFirst(s[1..]);
      assert s == [s[0]] + s[1..];
      var r := Insert(s[0], rest);
      assert multiset(r) == multiset(s);
      forall k | 0 <= k < |r| ensures r[k] in s {
        assert r[k] in multiset(s);
      }
      r
  }

  /** The query of the feed: the text match when `search` is given and the
      author when `author` is given. */
  predicate Matches(p: Post, search: string, author: Option<Oid>, textMatch: TextMatch) {
    && (search != "" ==> textMatch(search, p))
    && (author.Some? ==> p.author == author.value)
  }

  /** `Post.find(query)` in collection order. */
  function Find(posts: seq<Post>, search: string, author: Option<Oid>, textMatch: TextMatch)
    : (r: seq<Post>)
    ensures |r| <= |posts|
    ensures forall p | p in r :: p in posts && Matches(p, search, author, textMatch)
    ensures forall p | p in posts && Matches(p, search, author, textMatch) :: p in r
    ensures forall p :: multiset(r)[p] == if Matches(p, search, author, textMatch) then multiset(posts)[p] else 0
  {
    if posts == [] then []
    else
      var rest := Find(posts[1..], search, author, textMatch);
      assert forall p | p in posts[1..] :: p in posts;
      var r := if Matches(posts[0], search, author, textMatch) then [posts[0]] + rest else rest;
      FindCounts(posts, search, author, textMatch, rest, r);
      r
  }

  /** One step of `Find` keeps the count of every post: a matching post as
      often as it is stored, any other not at all. */
  lemma FindCounts(posts: seq<Post>, search: string, author: Option<Oid>, textMatch: TextMatch,
                   rest: seq<Post>, r: seq<Post>)
    requires posts != []
    requires forall p :: multiset(rest)[p] == if Matches(p, search, author, textMatch) then multiset(posts[1..])[p] else 0
    requires r == if Matches(posts[0], search, author, textMatch) then [posts[0]] + rest else rest
    ensures forall p :: multiset(r)[p] == if Matches(p, search, author, textMatch) then multiset(posts)[p] else 0
  {
    assert posts == [posts[0]] + posts[1..];
    assert multiset(posts) == multiset{posts[0]} + multiset(posts[1..]);
    if Matches(posts[0], search, author, textMatch) {
      assert multiset(r) == multiset{posts[0]} + multiset(rest);
    }
  }

  /** `.skip(skip).limit(limit)`. */
  function Window(s: seq<Post>, skip: nat, limit: nat): (r: seq<Post>)
    ensures |r| <= limit
    ensures skip >= |s| ==> r == []
    ensures forall k | 0 <= k < |r| :: skip + k < |s| && r[k] == s[skip + k]
    ensures skip + limit <= |s| ==> |r| == limit
    ensures skip <= |s| < skip + limit ==> |r| == |s| - skip
  {
    var from := if skip < |s| then skip else |s|;
    var to := if skip + limit < |s| then skip + limit else |s|;
    s[from..to]
  }

  /** One page of the matching posts: newest first, `limit` of them from
      position `Skip(page, limit)`, with the pagination figures. */
  function FeedPage(matching: seq<Post>, page: int, limit: int): (feed: Feed)
    requires page >= 1 && limit >= 1
    ensures feed.pagination == Pagination(page, limit, |matching|, PageCount(|matching|, limit))
    ensures Skip(page, limit) + limit <= |matching| ==> |feed.posts| == limit
    ensures Skip(page, limit) <= |matching| < Skip(page, limit) + limit ==>
              |feed.posts| == |matching| - Skip(page, limit)
    ensures Skip(page, limit) >= |matching| ==> feed.posts == []
    ensures NewestFirst(feed.posts)
    ensures forall k | 0 <= k < |feed.posts| ::
              && Skip(page, limit) + k < |matching|
              && feed.posts[k] == SortNewestFirst(matching)[Skip(page, limit) + k]
    ensures forall k | 0 <= k < |feed.posts| :: feed.posts[k] in matching
  {
    var sorted := SortNewestFirst(matching);
    var window := Window(sorted, Skip(page, limit), limit);
    WindowOfSorted(sorted, Skip(page, limit), limit);
    Feed(window, Pagination(page, limit, |matching|, PageCount(|matching|, limit)))
  }

  /** The author filter of a query: None when no author is given, and a
      failed cast when the given author is not an ObjectId. */
  function AuthorFilter(author: string): (r: Option<Option<Oid>>)
    ensures r == Some(None) <==> author == ""
    ensures r.None? <==> author != "" && Cast(author).None?
    ensures r.Some? && r.value.Some? ==> Cast(author) == r.value
  {
    if author == "" then Some(None)
    else
      match Cast(author)
      case None => None
      case Some(id) => Some(Some(id))
  }

  /** `GET /api/posts`. A page below 1 gives a negative skip, which the
      database rejects, and an `author` that does not cast to an ObjectId
      makes the query throw; both are answered 500. */
  function GetPosts(posts: seq<Post>, q: FeedQuery, textMatch: TextMatch): (r: Response<Feed>)
    requires q.limit.Some? ==> q.limit.value >= 1
    ensures r.Error? <==> q.page.GetOr(DefaultPage) < 1 || (q.author != "" && Cast(q.author).None?)
    ensures r.Error? ==> r == InternalError()
    ensures r.Json? ==> r.status == Ok
    ensures r.Json? ==>
              var author := if q.author == "" then None else Cast(q.author);
              r.data == FeedPage(Find(posts, q.search, author, textMatch),
                                 q.page.GetOr(DefaultPage), q.limit.GetOr(DefaultLimit))
    ensures r.Json? ==>
              var author := if q.author == "" then None else Cast(q.author);
              forall k | 0 <= k < |r.data.posts| ::
                r.data.posts[k] in posts && Matches(r.data.posts[k], q.search, author, textMatch)
  {
    var page := q.page.GetOr(DefaultPage);
    if page < 1 then InternalError()
    else
      match AuthorFilter(q.author)
      case None => InternalError()
      case Some(author) =>
        var matching := Find(posts, q.search, author, textMatch);
        Json(Ok, FeedPage(matching, page, q.limit.GetOr(DefaultLimit)))
  }

  lemma WindowOfSorted(s: seq<Post>, skip: nat, limit: nat)
    requires NewestFirst(s)
    ensures NewestFirst(Window(s, skip, limit))
    ensures forall k | 0 <= k < |Window(s, skip, limit)| :: Window(s, skip, limit)[k] in s
  {
    var w := Window(s, skip, limit);
    forall i, j | 0 <= i < j < |w| ensures w[i].createdAt >= w[j].createdAt {
      assert w[i] == s[skip + i] && w[j] == s[skip + j];
    }
  }

  lemma MulCancelLess(a: nat, b: nat, m: nat)
    requires m >= 1 && a * m < b * m
    ensures a < b
  {
  }

  /** The page holding position `i` of `total` posts is within `pages`. */
  lemma PageOfPosition(i: nat, total: nat, limit: nat)
    requires limit >= 1 && i < total
    ensures i / limit + 1 <= PageCount(total, limit)
    ensures Skip(i / limit + 1, limit) + i % limit == i
  {
    var q := i / limit;
    assert q * limit + i % limit == i;
    MulCancelLess(q, PageCount(total, limit), limit);
  }

  /** The post at position `i` of the newest-first matches is entry
      `offset` of the page that starts `offset` posts before it. */
  lemma EntryOnPage(matching: seq<Post>, page: int, limit: int, offset: nat, i: nat)
    requires page >= 1 && limit >= 1 && offset < limit
    requires Skip(page, limit) + offset == i && i < |matching|
    ensures offset < |FeedPage(matching, page, limit).posts|
    ensures FeedPage(matching, page, limit).posts[offset] == SortNewestFirst(matching)[i]
  {
  }

  /** Paging covers the feed: the post at position `i` of the newest-first
      matches is entry `i % limit` of page `i / limit + 1`, and that page is
      within `pages`. */
  lemma {:induction false} EveryMatchOnItsPage(matching: seq<Post>, limit: nat, i: nat)
    requires limit >= 1 && i < |matching|
    ensures var feed := FeedPage(matching, i / limit + 1, limit);
            && i / limit + 1 <= feed.pagination.pages
            && i % limit < |feed.posts|
            && feed.posts[i % limit] == SortNewestFirst(matching)[i]
  {
    PageOfPosition(i, |matching|, limit);
    EntryOnPage(matching, i / limit + 1, limit, i % limit, i);
  }

  /** The JSON body of `POST /api/posts`. */
  datatype PostBody = PostBody(title: Option<string>, content: Option<string>)

  datatype PostCreated = PostCreated(message: string, post: Post)

  const TitleContentRequired := "Title and content are required"
  const TitleTooLongMessage := "Title cannot exceed 200 characters"
  const PostCreatedMessage := "Post created successfully"

  predicate IdInUse(posts: seq<Post>, id: Oid) {
    exists k | 0 <= k < |posts| :: posts[k].id == id
  }

  /** `POST /api/posts` as written, for the authenticated `user` (the gate
      supplies it). `id` is the ObjectId the new document receives and `now`
      the time of the save. A schema violation thrown by `save()` and a
      duplicate `_id` both land in the catch block and are answered 500. */
  function CreatePost(posts: seq<Post>, user: PublicUser, body: PostBody, id: Oid, now: int)
    : (r: (seq<Post>, Response<PostCreated>))
    ensures r.1.status in {Created, BadRequest, ServerError}
    ensures r.1.status != Created ==> r.0 == posts
    ensures !Truthy(body.title) || !Truthy(body.content) ==>
              r.1 == Error(BadRequest, TitleContentRequired)
    ensures Truthy(body.title) && Truthy(body.content) && |body.title.value| > TitleMaxLength ==>
              r.1 == Error(BadRequest, TitleTooLongMessage)
    ensures Truthy(body.title) && Truthy(body.content) && |body.title.value| <= TitleMaxLength
            && (!Validate(body.title.value, body.content.value).Passed() || IdInUse(posts, id)) ==>
              r == (posts, InternalError())
    ensures r.1.status == Created ==>
              && r.1.Json?
              && r.0 == posts + [r.1.data.post]
              && r.1.data.message == PostCreatedMessage
              && var p := r.1.data.post;
                 && p.id == id && !IdInUse(posts, id)
                 && p.author == user.id
                 && p.title == Trim(body.title.value) && p.content == Trim(body.content.value)
                 && p.createdAt == now && p.updatedAt == now
                 && SchemaValid(p)
  {
    if !Truthy(body.title) || !Truthy(body.content) then
      (posts, Error(BadRequest, TitleContentRequired))
    else if |body.title.value| > TitleMaxLength then
      (posts, Error(BadRequest, TitleTooLongMessage))
    else
      match NewPost(id, body.title.value, body.content.value, user.id, now)
      case Failure(_) => (posts, InternalError())
      case Success(post) =>
        if IdInUse(posts, id) then (posts, InternalError())
        else (posts + [post], Json(Created, PostCreated(PostCreatedMessage, post)))
  }

  /** A request that passes the handler's checks and the schema's, given
      a free id, creates the post. */
  lemma CreatePostAccepts(posts: seq<Post>, user: PublicUser, body: PostBody, id: Oid, now: int)
    requires Truthy(body.title) && Truthy(body.content)
    requires |body.title.value| <= TitleMaxLength
    requires Validate(body.title.value, body.content.value).Passed()
    requires !IdInUse(posts, id)
    ensures CreatePost(posts, user, body, id, now).1.status == Created
  {
    var created := NewPost(id, body.title.value, body.content.value, user.id, now);
    assert created.Success?;
    var post := created.value;
    assert CreatePost(posts, user, body, id, now)
           == (posts + [post], Json(Created, PostCreated(PostCreatedMessage, post)));
  }

  /** A title of spaces passes both checks of the handler, is trimmed to
      the empty string by the schema, and the failed `save()` is answered
      500 rather than 400. */
  lemma WhitespaceTitleIsServerError(posts: seq<Post>, user: PublicUser, id: Oid, now: int)
    ensures CreatePost(posts, user, PostBody(Some(" "), Some("text")), id, now)
            == (posts, InternalError())
  {
    assert Trim(" ") == "";
  }

  /** `POST /api/posts` with the required-field check made on the trimmed
      title and content, which is what the schema requires. */
  function CreatePostChecked(posts: seq<Post>, user: PublicUser, body: PostBody, id: Oid, now: int)
    : (r: (seq<Post>, Response<PostCreated>))
    ensures r.1.status in {Created, BadRequest, ServerError}
    ensures r.1.status != Created ==> r.0 == posts
    ensures !Truthy(body.title) || !Truthy(body.content)
            || Trim(body.title.value) == "" || Trim(body.content.value) == "" ==>
              r.1 == Error(BadRequest, TitleContentRequired)
    ensures Truthy(body.title) && Truthy(body.content)
            && Trim(body.title.value) != "" && Trim(body.content.value) != ""
            && |body.title.value| > TitleMaxLength ==>
              r.1 == Error(BadRequest, TitleTooLongMessage)
    ensures Truthy(body.title) && Truthy(body.content)
            && Trim(body.title.value) != "" && Trim(body.content.value) != ""
            && |body.title.value| <= TitleMaxLength && !IdInUse(posts, id) ==>
              r.1.status == Created
    ensures r.1.status == ServerError <==>
              && Truthy(body.title) && Truthy(body.content)
              && Trim(body.title.value) != "" && Trim(body.content.value) != ""
              && |body.title.value| <= TitleMaxLength
              && IdInUse(posts, id)
    ensures r.1.status == Created ==>
              && r.1.Json?
              && r.0 == posts + [r.1.data.post]
              && r.1.data.post.author == user.id
              && SchemaValid(r.1.data.post)
  {
    if !Truthy(body.title) || !Truthy(body.content)
       || Trim(body.title.value) == "" || Trim(body.content.value) == "" then
      (posts, Error(BadRequest, TitleContentRequired))
    else if |body.title.value| > TitleMaxLength then
      (posts, Error(BadRequest, TitleTooLongMessage))
    else
      assert NewPost(id, body.title.value, body.content.value, user.id, now).Success?;
      CreatePost(posts, user, body, id, now)
  }

  /** The correction only turns the 500 of a blank title or content into
      the 400 of a missing one; every other request gets the same answer. */
  lemma CheckedAgreesOtherwise(posts: seq<Post>, user: PublicUser, body: PostBody, id: Oid, now: int)
    requires Truthy(body.title) && Truthy(body.content)
    requires Trim(body.title.value) != "" && Trim(body.content.value) != ""
    ensures CreatePostChecked(posts, user, body, id, now) == CreatePost(posts, user, body, id, now)
  {
  }
}
