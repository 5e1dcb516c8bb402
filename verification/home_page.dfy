/** The feed page of the client: `truncateContent`, the pagination
    controls and the search form. */
module HomePage {
  import opened Wrappers
  import opened PostModel
  import opened Http
  import opened PostsRoute

  const DefaultMaxLength: nat := 150
  const Ellipsis := "..."
  const FeedLimit: nat := 10

  /** `truncateContent(content, maxLength = 150)`. */
  function TruncateContent(content: string, maxLength: nat := DefaultMaxLength): (r: string)
    ensures |content| <= maxLength ==> r == content
    ensures |content| > maxLength ==> |r| == maxLength + |Ellipsis|
    ensures |content| > maxLength ==> r[maxLength..] == Ellipsis
  {
    if |content| <= maxLength then content else content[..maxLength] + Ellipsis
  }

  /** A preview keeps the start of the content: its first
      `min(|content|, maxLength)` characters are the content's, and it is
      at most three characters longer than `maxLength`. */
  lemma TruncateKeepsPrefix(content: string, maxLength: nat)
    ensures var keep := if |content| <= maxLength then |content| else maxLength;
            var r := TruncateContent(content, maxLength);
            && keep <= |r| && r[..keep] == content[..keep]
            && |r| <= maxLength + |Ellipsis|
  {
  }

  /** The numbered page buttons: `1..pages`, in increasing order. */
  function PageButtons(pages: nat): (r: seq<nat>)
    ensures |r| == pages
    ensures forall i | 0 <= i < |r| :: r[i] == i + 1
    ensures forall i, j | 0 <= i < j < |r| :: r[i] < r[j]
    ensures forall k :: k in r <==> 1 <= k <= pages
  {
    var r := seq(pages, i => i + 1);
    assert forall k | 1 <= k <= pages :: k in r by {
      forall k | 1 <= k <= pages ensures k in r {
        assert r[k - 1] == k;
      }
    }
    r
  }

  /** The pagination bar is shown only with more than one page, that is,
      when the server reports more posts than fit on one page. */
  function ShowNav(pagination: Option<Pagination>): (show: bool)
    ensures show ==> pagination.Some?
    ensures pagination.Some? && pagination.value.limit >= 1
            && pagination.value.pages == PageCount(pagination.value.total, pagination.value.limit) ==>
              (show <==> pagination.value.total > pagination.value.limit)
  {
    var show := pagination.Some? && pagination.value.pages > 1;
    if pagination.Some? && pagination.value.limit >= 1 then
      MoreThanOnePage(pagination.value.total, pagination.value.limit);
      show
    else show
  }

  /** More than one page exactly when the posts overflow a single page. */
  lemma MoreThanOnePage(total: nat, limit: nat)
    requires limit >= 1
    ensures PageCount(total, limit) > 1 <==> total > limit
  {
    var pages := PageCount(total, limit);
    if pages > 1 {
      assert (pages - 1) * limit >= limit;
    } else {
      assert pages * limit <= limit;
    }
  }

  /** The Previous button is disabled on the first page, so from a page
      within range it never leads below page 1. */
  function PreviousDisabled(currentPage: int): (disabled: bool)
    ensures currentPage >= 1 && !disabled ==> currentPage - 1 >= 1
    ensures currentPage == 1 ==> disabled
    ensures currentPage != 1 ==> !disabled
  {
    currentPage == 1
  }

  /** The Next button is disabled on the last page, so from a page within
      range it never leads beyond `pages`. */
  function NextDisabled(currentPage: int, pages: int): (disabled: bool)
    ensures currentPage <= pages && !disabled ==> currentPage + 1 <= pages
    ensures currentPage == pages ==> disabled
    ensures currentPage != pages ==> !disabled
  {
    currentPage == pages
  }

  /** The page state of the feed and the request each change sends. */
  datatype HomeState = HomeState(currentPage: int, searchTerm: string)

  /** `fetchPosts(page, search)`: the query string it builds, as the server
      reads it. */
  function FetchQuery(page: int, search: string): (q: FeedQuery)
    ensures q.page == Some(page) && q.limit == Some(FeedLimit)
    ensures q.search == search && q.author == ""
  {
    FeedQuery(Some(page), Some(FeedLimit), search, "")
  }

  /** `handleSearch`: back to page 1 and a fetch of it. */
  function SubmitSearch(s: HomeState): (r: (HomeState, FeedQuery))
    ensures r.0.currentPage == 1 && r.0.searchTerm == s.searchTerm
    ensures r.1 == FetchQuery(1, s.searchTerm)
  {
    (s.(currentPage := 1), FetchQuery(1, s.searchTerm))
  }

  /** `handlePageChange(page)`. */
  function ChangePage(s: HomeState, page: int): (r: HomeState)
    ensures r.currentPage == page && r.searchTerm == s.searchTerm
  {
    s.(currentPage := page)
  }

  /** From a page within `1..pages`, every enabled control leads to a page
      within `1..pages`. */
  lemma NavigationStaysInRange(s: HomeState, pages: nat)
    requires pages > 1 && 1 <= s.currentPage <= pages
    ensures !PreviousDisabled(s.currentPage) ==> 1 <= ChangePage(s, s.currentPage - 1).currentPage <= pages
    ensures !NextDisabled(s.currentPage, pages) ==> 1 <= ChangePage(s, s.currentPage + 1).currentPage <= pages
    ensures forall k | k in PageButtons(pages) :: 1 <= ChangePage(s, k).currentPage <= pages
  {
  }

  /** What a fetch of page `page` receives from `GET /api/posts`: the page of
      the matches of `search` from every author, ten per page; a page below
      1 is answered 500. */
  lemma FetchedFeed(posts: seq<Post>, page: int, search: string, textMatch: TextMatch)
    ensures var r := GetPosts(posts, FetchQuery(page, search), textMatch);
            && (page < 1 ==> r == InternalError())
            && (page >= 1 ==> r == Json(Ok, FeedPage(Find(posts, search, None, textMatch), page, FeedLimit)))
  {
  }

  /** A submitted search shows the newest ten matches of the search term:
      page 1 of the feed, newest first, starting with the first match. */
  lemma SearchFetchesFirstPage(posts: seq<Post>, s: HomeState, textMatch: TextMatch)
    ensures var r := GetPosts(posts, SubmitSearch(s).1, textMatch);
            var sorted := SortNewestFirst(Find(posts, s.searchTerm, None, textMatch));
            var shown := if |sorted| < FeedLimit then |sorted| else FeedLimit;
            && r.Json? && r.status == Ok
            && r.data.posts == sorted[..shown]
            && r.data.pagination.page == 1
            && r.data.pagination.total == |sorted|
  {
    FetchedFeed(posts, 1, s.searchTerm, textMatch);
    FirstPageIsPrefix(Find(posts, s.searchTerm, None, textMatch), FeedLimit);
  }

  /** Page 1 is the start of the newest-first feed. */
  lemma FirstPageIsPrefix(matching: seq<Post>, limit: nat)
    requires limit >= 1
    ensures var sorted := SortNewestFirst(matching);
            var shown := if |sorted| < limit then |sorted| else limit;
            FeedPage(matching, 1, limit).posts == sorted[..shown]
  {
    var feed := FeedPage(matching, 1, limit);
    var sorted := SortNewestFirst(matching);
    var shown := if |sorted| < limit then |sorted| else limit;
    assert Skip(1, limit) == 0;
    assert |feed.posts| == shown;
    assert forall k | 0 <= k < shown :: feed.posts[k] == sorted[k];
  }
}
