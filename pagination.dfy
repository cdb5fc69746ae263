/** Pagination metadata shown beside a listing. */
module Pagination {
  import opened Posts

  /** The 1-based page being shown and the number of pages in all. */
  datatype PaginationInfo = PaginationInfo(currentPage: nat, totalPages: nat)

  /**
   * The number of pages of `size` items needed for `total` items: the ceiling
   * of `total / size`. No items need no pages.
   */
  function TotalPages(total: nat, size: PageSize): (n: nat)
    ensures n * size >= total
    ensures n > 0 ==> (n - 1) * size < total
  {
    var q := (total + size - 1) / size;
    assert (total + size - 1) == q * size + (total + size - 1) % size;
    assert q > 0 ==> (q - 1) * size == q * size - size;
    q
  }

  /** Fewer pages than `TotalPages` cannot hold every item. */
  lemma TotalPagesIsLeast(total: nat, size: PageSize, m: nat)
    requires m * size >= total
    ensures TotalPages(total, size) <= m
  {
    var n := TotalPages(total, size);
    if n > m {
      MulMono(m, n - 1, size);
    }
  }

  lemma MulMono(a: nat, b: nat, c: nat)
    requires a <= b
    ensures a * c <= b * c
  {}

  /** Page `page` of a `total`-item listing holds an item exactly when it is below the page count. */
  lemma PageHoldsItems(total: nat, page: nat, size: PageSize)
    ensures Offset(PageRequest(page, size)) < total <==> page < TotalPages(total, size)
  {
    var n := TotalPages(total, size);
    if page < n {
      MulMono(page, n - 1, size);
    } else {
      MulMono(n, page, size);
    }
  }

  /** The metadata for page request `req` over `total` items: pages are shown 1-based. */
  function Of(req: PageRequest, total: nat): (info: PaginationInfo)
    ensures info.currentPage >= 1 && info.currentPage - 1 == req.page
    ensures info.totalPages * req.size >= total
    ensures info.totalPages > 0 ==> (info.totalPages - 1) * req.size < total
  {
    PaginationInfo(req.page + 1, TotalPages(total, req.size))
  }
}
