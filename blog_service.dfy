/**
 * The read side of the blog service: lookups by id that fail with a typed
 * not-found error, listings that hand on one repository query each, and the
 * pagination metadata for a page request.
 */
module BlogService {
  import opened Wrappers
  import opened Posts
  import opened PostRepository
  import Pagination

  /** The service's `NoSuchBlogPostException`: a lookup found no post. */
  datatype NotFound = NoSuchBlogPost

  /** `getPost`: the post stored under `id`, draft or not. */
  function GetPost(st: Store, id: int): (r: Result<Post, NotFound>)
    ensures r.Success? <==> id in st.byId
    ensures r.Success? ==> r.value == st.byId[id]
  {
    match FindOne(st, id)
    case Some(p) => Success(p)
    case None => Failure(NoSuchBlogPost)
  }

  /** `getPublishedPost`: the post stored under `id`, unless it is a draft. */
  function GetPublishedPost(st: Store, id: int): (r: Result<Post, NotFound>)
    ensures r.Success? <==> id in st.byId && !st.byId[id].draft
    ensures r.Success? ==> r.value == st.byId[id] && !r.value.draft
  {
    match FindByIdAndDraftFalse(st, id)
    case Some(p) => Success(p)
    case None => Failure(NoSuchBlogPost)
  }

  /** A published lookup that succeeds finds the same post as the plain lookup. */
  lemma PublishedLookupAgrees(st: Store, id: int)
    ensures GetPublishedPost(st, id).Success? ==> GetPost(st, id) == GetPublishedPost(st, id)
  {}

  /** A draft is found by the plain lookup and hidden from the published one. */
  lemma DraftHiddenFromPublishedLookup(st: Store, id: int)
    requires id in st.byId && st.byId[id].draft
    ensures GetPost(st, id) == Success(st.byId[id])
    ensures GetPublishedPost(st, id) == Failure(NoSuchBlogPost)
  {}

  /** An id with no post fails both lookups with the not-found error. */
  lemma MissingPostNotFound(st: Store, id: int)
    requires id !in st.byId
    ensures GetPost(st, id) == Failure(NoSuchBlogPost)
    ensures GetPublishedPost(st, id) == Failure(NoSuchBlogPost)
  {}

  /** In a consistent repository, a successful lookup returns the post carrying the requested id. */
  lemma LookupFindsOwnId(st: Store, id: int)
    requires Valid(st)
    ensures GetPost(st, id).Success? ==> GetPost(st, id).value.id == id
    ensures GetPublishedPost(st, id).Success? ==> GetPublishedPost(st, id).value.id == id
  {}

  /** In a consistent repository, every listed post can be looked up by its id. */
  lemma ListedPostIsFindable(st: Store, i: nat)
    requires Valid(st) && i < |st.rows|
    ensures GetPost(st, st.rows[i].id) == Success(st.rows[i])
    ensures !st.rows[i].draft ==> GetPublishedPost(st, st.rows[i].id) == Success(st.rows[i])
  {}

  /** `mostRecentPosts(pageable)`: the requested page of the published posts, in store order. */
  function MostRecentPosts(st: Store, req: PageRequest): (r: seq<Post>)
    ensures |r| <= req.size
    ensures |r| == if Offset(req) < |Select(DraftFalse, st.rows)|
      then Min(req.size, |Select(DraftFalse, st.rows)| - Offset(req)) else 0
    ensures forall i :: 0 <= i < |r| ==> !r[i].draft
    ensures forall i :: 0 <= i < |r| ==> Offset(req) + i < |Select(DraftFalse, st.rows)| && r[i] == Select(DraftFalse, st.rows)[Offset(req) + i]
  {
    FindPage(st, DraftFalse, req)
  }

  /** `mostRecentPosts(category, pageable)`: as above, restricted to one category. */
  function MostRecentPostsInCategory(st: Store, category: Category, req: PageRequest): (r: seq<Post>)
    ensures |r| <= req.size
    ensures |r| == if Offset(req) < |Select(CategoryAndDraftFalse(category), st.rows)|
      then Min(req.size, |Select(CategoryAndDraftFalse(category), st.rows)| - Offset(req)) else 0
    ensures forall i :: 0 <= i < |r| ==> !r[i].draft && r[i].category == category
    ensures forall i :: 0 <= i < |r| ==>
      Offset(req) + i < |Select(CategoryAndDraftFalse(category), st.rows)| && r[i] == Select(CategoryAndDraftFalse(category), st.rows)[Offset(req) + i]
  {
    FindPage(st, CategoryAndDraftFalse(category), req)
  }

  /** `mostRecentBroadcastPosts(pageable)`: the requested page of the published broadcast posts. */
  function MostRecentBroadcastPosts(st: Store, req: PageRequest): (r: seq<Post>)
    ensures |r| <= req.size
    ensures |r| == if Offset(req) < |Select(BroadcastAndDraftFalse(true), st.rows)|
      then Min(req.size, |Select(BroadcastAndDraftFalse(true), st.rows)| - Offset(req)) else 0
    ensures forall i :: 0 <= i < |r| ==> !r[i].draft && r[i].broadcast
    ensures forall i :: 0 <= i < |r| ==>
      Offset(req) + i < |Select(BroadcastAndDraftFalse(true), st.rows)| && r[i] == Select(BroadcastAndDraftFalse(true), st.rows)[Offset(req) + i]
  {
    FindPage(st, BroadcastAndDraftFalse(true), req)
  }

  /** `allPosts(pageable)`: the requested page of every post, drafts included, in store order. */
  function AllPosts(st: Store, req: PageRequest): (r: seq<Post>)
    ensures |r| <= req.size
    ensures forall i :: 0 <= i < |r| ==> Offset(req) + i < |st.rows| && r[i] == st.rows[Offset(req) + i]
    ensures |r| == if Offset(req) < |st.rows| then Min(req.size, |st.rows| - Offset(req)) else 0
  {
    SelectEverything(st.rows);
    FindPage(st, Everything, req)
  }

  /** `paginationInfo(pageRequest)`: the 1-based current page and the page count over all posts. */
  function PaginationInfo(st: Store, req: PageRequest): (info: Pagination.PaginationInfo)
    ensures info.currentPage == req.page + 1
    ensures info.totalPages * req.size >= |st.rows|
    ensures info.totalPages > 0 ==> (info.totalPages - 1) * req.size < |st.rows|
  {
    Pagination.Of(req, Count(st))
  }

  /** The pages `allPosts` fills are exactly those below the reported page count. */
  lemma AllPostsPageFilledIffCounted(st: Store, req: PageRequest)
    ensures |AllPosts(st, req)| > 0 <==> req.page < PaginationInfo(st, req).totalPages
  {
    Pagination.PageHoldsItems(|st.rows|, req.page, req.size);
  }

  /**
   * Every published post is listed by `mostRecentPosts`: at position `k` of the
   * published posts it is on page `k / size`, and that page is one the
   * pagination metadata counts.
   */
  lemma PublishedPostIsListed(st: Store, k: nat, size: PageSize)
    requires k < |Select(DraftFalse, st.rows)|
    ensures k % size < |MostRecentPosts(st, PageRequest(k / size, size))|
    ensures MostRecentPosts(st, PageRequest(k / size, size))[k % size] == Select(DraftFalse, st.rows)[k]
    ensures k / size < PaginationInfo(st, PageRequest(k / size, size)).totalPages
  {
    var req := PageRequest(k / size, size);
    PageCovers(Select(DraftFalse, st.rows), k, size);
    Pagination.PageHoldsItems(|st.rows|, req.page, size);
  }

  /** The listing tests: one published post on the first page is listed as it is. */
  lemma ListPostsExample(p: Post)
    requires !p.draft
    ensures MostRecentPosts(Store(map[], [p]), PageRequest(0, 10)) == [p]
  {
    assert Select(DraftFalse, [p]) == [p];
  }

  /** The category listing test: one published ENGINEERING post is listed as it is. */
  lemma ListPostsForCategoryExample(p: Post)
    requires !p.draft && p.category == Engineering
    ensures MostRecentPostsInCategory(Store(map[], [p]), Engineering, PageRequest(0, 10)) == [p]
  {
    assert Select(CategoryAndDraftFalse(Engineering), [p]) == [p];
  }

  /** The broadcast listing test: one published broadcast post is listed as it is. */
  lemma ListBroadcastsExample(p: Post)
    requires !p.draft && p.broadcast
    ensures MostRecentBroadcastPosts(Store(map[], [p]), PageRequest(0, 10)) == [p]
  {
    assert Select(BroadcastAndDraftFalse(true), [p]) == [p];
  }

  /** The `allPosts` test: a draft and a published post are both listed, in store order. */
  lemma AllPostsExample(draft: Post, published: Post)
    requires draft.draft && !published.draft
    ensures AllPosts(Store(map[], [draft, published]), PageRequest(0, 10)) == [draft, published]
  {}

  /** The pagination tests: one post, and 101 posts, at ten per page, on the first page. */
  lemma PaginationExamples(one: seq<Post>, many: seq<Post>)
    requires |one| == 1 && |many| == 101
    ensures PaginationInfo(Store(map[], one), PageRequest(0, 10)) == Pagination.PaginationInfo(1, 1)
    ensures PaginationInfo(Store(map[], many), PageRequest(0, 10)) == Pagination.PaginationInfo(1, 11)
  {}
}
