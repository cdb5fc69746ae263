# Blog post query service — a Dafny model

This project models the read side of the blog's `BlogService`:

- looking a post up by id, with a typed not-found error instead of a null;
- looking up a published post, meaning one that is not a draft;
- the four listings: most recent posts, most recent posts of a category, most recent broadcast posts, and all posts;
- the pagination metadata shown with a listing;
- the first-paragraph excerpt shown for a post in a listing.

`BlogService.java` is not part of this model. Its behaviour is taken from the assertions of its unit tests, `src/test/java/org/springframework/site/blog/BlogService_QueryTests.java`.

Modules:

- `Wrappers` (`wrappers.dfy`): `Option` and `Result`.
- `Posts` (`posts.dfy`): `Post`, `Category`, and `PageRequest`, which is a 0-based page number with a positive page size.
- `PostRepository` (`post_repository.dfy`): the repository as a value, `Store`.
  - `byId` maps each id to its post. It answers `findOne` and `findByIdAndDraftFalse`.
  - `rows` holds every post in the repository's listing order. Each derived listing query keeps the posts it selects (`Select`) and cuts out the requested page (`Window`). `count()` is the number of rows.
  - `Valid` says the two views describe one repository: each post is stored under its own id, and the listed posts are the stored ones. The service operations do not require it, since each answers from one repository query; the lemmas about lookups and listings together assume it.
- `Pagination` (`pagination.dfy`): the current page and the total page count.
- `Excerpt` (`excerpt.dfy`): `extractFirstParagraph`.
- `BlogService` (`blog_service.dfy`): the service operations and the properties that link them.

The service is stateless. Every operation is a function of the repository content and its arguments.

## Model

| member | source | states |
|---|---|---|
| `BlogService.GetPost` | src/test/java/org/springframework/site/blog/BlogService_QueryTests.java:47-53 | succeeds exactly when the repository holds a post under the id, and then returns that post, draft or not |
| `BlogService.GetPublishedPost` | src/test/java/org/springframework/site/blog/BlogService_QueryTests.java:55-61 | succeeds exactly when the post under the id exists and is not a draft, and then returns it |
| `BlogService.MissingPostNotFound` | src/test/java/org/springframework/site/blog/BlogService_QueryTests.java:63-75 | an id with no post makes both lookups fail with `NoSuchBlogPost`, never a null |
| `BlogService.DraftHiddenFromPublishedLookup` | src/test/java/org/springframework/site/blog/BlogService_QueryTests.java:55-61 | a draft is returned by the plain lookup and is not found by the published lookup |
| `BlogService.PublishedLookupAgrees` | src/test/java/org/springframework/site/blog/BlogService_QueryTests.java:47-61 | when the published lookup succeeds, the plain lookup returns the same post |
| `BlogService.MostRecentPosts` | src/test/java/org/springframework/site/blog/BlogService_QueryTests.java:77-87 | returns the requested page of the published posts unchanged: exactly as many posts as that page of the selection holds, none a draft, each the published post at the matching position of the repository order |
| `BlogService.MostRecentPostsInCategory` | src/test/java/org/springframework/site/blog/BlogService_QueryTests.java:89-99 | returns the requested page of the published posts of the category unchanged: the page's full length, each post at its position in that selection, none a draft and all of the category |
| `BlogService.MostRecentBroadcastPosts` | src/test/java/org/springframework/site/blog/BlogService_QueryTests.java:124-134 | returns the requested page of the published broadcast posts unchanged: the page's full length, each post at its position in that selection, none a draft and all broadcast |
| `BlogService.AllPosts` | src/test/java/org/springframework/site/blog/BlogService_QueryTests.java:136-146 | returns the requested page of all posts, drafts included, in repository order and with the full page length |
| `BlogService.ListPostsForCategoryExample` | src/test/java/org/springframework/site/blog/BlogService_QueryTests.java:89-99 | a single published ENGINEERING post on the first page of ten is listed as it is |
| `BlogService.ListBroadcastsExample` | src/test/java/org/springframework/site/blog/BlogService_QueryTests.java:124-134 | a single published broadcast post on the first page of ten is listed as it is |
| `BlogService.LookupFindsOwnId` | src/test/java/org/springframework/site/blog/BlogService_QueryTests.java:47-61 | in a consistent repository, a successful lookup returns the post carrying the requested id |
| `BlogService.ListedPostIsFindable` | src/test/java/org/springframework/site/blog/BlogService_QueryTests.java:47-61 | in a consistent repository, every listed post is returned by the lookup of its id, and by the published lookup when it is not a draft |
| `BlogService.ListPostsExample` | src/test/java/org/springframework/site/blog/BlogService_QueryTests.java:77-87 | a single published post on the first page of ten is listed as it is |
| `BlogService.AllPostsExample` | src/test/java/org/springframework/site/blog/BlogService_QueryTests.java:136-146 | a draft followed by a published post are both listed, in that order |
| `BlogService.PaginationInfo` | src/test/java/org/springframework/site/blog/BlogService_QueryTests.java:101-115 | the current page is the 0-based request page plus one; the page count is the least number of pages that holds all `count()` posts |
| `BlogService.PaginationExamples` | src/test/java/org/springframework/site/blog/BlogService_QueryTests.java:101-115 | 1 post at ten per page gives page 1 of 1, and 101 posts give page 1 of 11 |
| `BlogService.AllPostsPageFilledIffCounted` | src/test/java/org/springframework/site/blog/BlogService_QueryTests.java:101-146 | a page of `allPosts` holds posts exactly when its number is below the reported page count |
| `BlogService.PublishedPostIsListed` | src/test/java/org/springframework/site/blog/BlogService_QueryTests.java:77-115 | the published post at position k appears on page k / size of `mostRecentPosts`, at position k % size, and that page is below the reported page count |
| `Pagination.Of` | src/test/java/org/springframework/site/blog/BlogService_QueryTests.java:101-115 | metadata for a request and a total: a 1-based current page and a page count that covers the total with no page left empty |
| `Pagination.TotalPages` | src/test/java/org/springframework/site/blog/BlogService_QueryTests.java:110-114 | the pages hold every item, and dropping the last page would leave an item out |
| `Pagination.TotalPagesIsLeast` | src/test/java/org/springframework/site/blog/BlogService_QueryTests.java:110-114 | no smaller number of pages holds every item, so the count is the ceiling of total / size |
| `Pagination.PageHoldsItems` | src/test/java/org/springframework/site/blog/BlogService_QueryTests.java:101-115 | a page starts before the end of the items exactly when its number is below the page count |
| `PostRepository.Select` | src/test/java/org/springframework/site/blog/BlogService_QueryTests.java:84-143 | a query returns no more posts than it is given, and every post it returns meets its predicate |
| `PostRepository.SelectCounts` | src/test/java/org/springframework/site/blog/BlogService_QueryTests.java:84-143 | a query keeps every selected post as often as it occurs and drops every other post |
| `PostRepository.SelectAppend` | src/test/java/org/springframework/site/blog/BlogService_QueryTests.java:84-143 | a query keeps the relative order of the posts it selects |
| `PostRepository.SelectEverything` | src/test/java/org/springframework/site/blog/BlogService_QueryTests.java:143-145 | `findAll` selects every post, unchanged |
| `PostRepository.SelectAllMatching` | src/test/java/org/springframework/site/blog/BlogService_QueryTests.java:84-86 | a query returns a sequence unchanged when all of its posts meet the predicate |
| `PostRepository.Window` | src/test/java/org/springframework/site/blog/BlogService_QueryTests.java:79-86 | a page has at most `size` posts, starts at position page * size, and is as long as the remaining posts allow |
| `PostRepository.PageCovers` | src/test/java/org/springframework/site/blog/BlogService_QueryTests.java:79-86 | every position k lies on page k / size, at position k % size of that page |
| `PostRepository.FindPage` | src/test/java/org/springframework/site/blog/BlogService_QueryTests.java:84-143 | a page of a derived query is exactly the requested window of its selection: its full length, each post meeting the query and at its position in the selection |
| `Excerpt.FirstBreak` | src/test/java/org/springframework/site/blog/BlogService_QueryTests.java:120 | finds the first blank line at or after a position, or reports that there is none |
| `Excerpt.FirstParagraph` | src/test/java/org/springframework/site/blog/BlogService_QueryTests.java:120-121 | a prefix of the text, ending before the first blank line: no blank line starts inside it, and it is followed by the end of the text or by a blank line |
| `Excerpt.LastSpaceAtOrBefore` | src/test/java/org/springframework/site/blog/BlogService_QueryTests.java:121 | finds the last space at or before a position, or reports that there is none |
| `Excerpt.ExtractFirstParagraph` | src/test/java/org/springframework/site/blog/BlogService_QueryTests.java:117-122 | a prefix of the first paragraph, no longer than the budget, and the whole paragraph when it fits. Otherwise the cut falls before the last space at or before position `maxLength`, or at `maxLength` itself when there is no such space. A budget of zero or less gives the empty excerpt |
| `Excerpt.HardCutExample` | src/test/java/org/springframework/site/blog/BlogService_QueryTests.java:119 | `("xxxxx", 2)` gives `"xx"` |
| `Excerpt.ParagraphBreakExample` | src/test/java/org/springframework/site/blog/BlogService_QueryTests.java:120 | `("xx\n\nxxx", 20)` gives `"xx"` |
| `Excerpt.WordBoundaryExample` | src/test/java/org/springframework/site/blog/BlogService_QueryTests.java:121 | `("xx xx\n\nxxx", 4)` gives `"xx"` |

## Left out

- `BlogService.java` is not part of this model. The lookups, the listings and the pagination formula are modelled from what the tests assert about them.
- `Excerpt.ExtractFirstParagraph`: lengths, cuts and searches count characters (Unicode scalar values), whereas Java strings count UTF-16 code units. For text outside the Basic Multilingual Plane, such as emoji, the budget and the hard cut differ from Java's, and Java can split a surrogate pair where the model cannot.
- `Excerpt.ExtractFirstParagraph`: the algorithm behind `extractFirstParagraph` is not visible. This definition is one that meets the three asserted examples. Its general properties hold for this definition; the source does not promise them.
- The test named `nonPublishedPost` (lines 70-75) stubs the published lookup but calls `getPost`. So it pins only the missing-post case of `getPost`. `BlogService.DraftHiddenFromPublishedLookup` follows from modelling `getPublishedPost` as the repository's id-and-not-draft query. No test exercises that draft case.
- `Pagination.TotalPages`: with no posts the page count is 0, the plain ceiling. No test pins that case.
- The page count covers `count()`, all posts including drafts. That is what the tests stub. For the published listings it can therefore report pages that are empty.
- `BlogPostsPageRequest`: its 1-based page number and its page size are not visible. Listings take a 0-based `PageRequest` directly.
- Spring Data `Page`: the service returns only its content. The total-count part of a page is not modelled.
- The repository's sort order ("most recent first"): this is the repository's job. The model keeps whatever order `rows` has. The service adds no sorting.
- `MarkdownService`: injected at construction; none of the tested query calls use it. It is not part of this model.
- Repository failures such as connectivity or I/O: the service passes them through unchanged. They are not modelled.
- Java `long` and `int` widths: page numbers and counts are unbounded naturals. No overflow is modelled.
- `Category`: only `ENGINEERING` appears in the tests. `Releases` and `NewsAndEvents` stand in for the other members of the closed enumeration.
