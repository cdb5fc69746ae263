/** The entities the blog query layer reads: posts, their categories and page requests. */
module Posts {

  /** The closed set of post categories. Only ENGINEERING is named in the tests. */
  datatype Category = Engineering | Releases | NewsAndEvents

  /**
   * A blog post. A draft is not publicly visible; a broadcast post is featured
   * in the broadcast listing.
   */
  datatype Post = Post(id: int, category: Category, draft: bool, broadcast: bool, content: string)

  /** Page sizes are positive, as a page request refuses a size below one. */
  type PageSize = n: nat | n >= 1 witness 1

  /** A window over an ordered result: a 0-based page number and a page size. */
  datatype PageRequest = PageRequest(page: nat, size: PageSize)

  /** The position of the first item of the requested page. */
  function Offset(req: PageRequest): nat {
    req.page * req.size
  }

  /** Position `k` of a listing is on page `k / size`, at position `k % size` of that page. */
  lemma PageOfPosition(k: nat, size: PageSize)
    ensures Offset(PageRequest(k / size, size)) + k % size == k
    ensures k % size < size
  {}
}
