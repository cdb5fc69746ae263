/**
 * The post repository the service delegates to, as a value: what each of its
 * derived queries answers for a given content. Storage, sorting and the query
 * language are the repository's concern; here its content is a map from id to
 * post and the sequence of all posts in listing order (most recent first).
 */
module PostRepository {
  import opened Wrappers
  import opened Posts

  datatype Store = Store(byId: map<int, Post>, rows: seq<Post>)

  /**
   * The two views describe one repository: every post is stored under its own
   * id, and the listed posts are exactly the stored ones.
   */
  predicate Valid(st: Store) {
    && (forall id :: id in st.byId ==> st.byId[id].id == id)
    && (forall i :: 0 <= i < |st.rows| ==> st.rows[i].id in st.byId && st.byId[st.rows[i].id] == st.rows[i])
    && (forall id :: id in st.byId ==> st.byId[id] in st.rows)
  }

  /** The selection predicate of each derived listing query. */
  datatype Query =
    | DraftFalse                                 // findByDraftFalse
    | CategoryAndDraftFalse(category: Category)  // findByCategoryAndDraftFalse
    | BroadcastAndDraftFalse(broadcast: bool)    // findByBroadcastAndDraftFalse
    | Everything                                 // findAll

  predicate Matches(q: Query, p: Post) {
    match q
    case DraftFalse => !p.draft
    case CategoryAndDraftFalse(c) => p.category == c && !p.draft
    case BroadcastAndDraftFalse(b) => p.broadcast == b && !p.draft
    case Everything => true
  }

  /** The posts of `s` that `q` selects, in the order of `s`. */
  function Select(q: Query, s: seq<Post>): (r: seq<Post>)
    ensures |r| <= |s|
    ensures forall i :: 0 <= i < |r| ==> Matches(q, r[i])
  {
    if s == [] then []
    else if Matches(q, s[0]) then [s[0]] + Select(q, s[1..])
    else Select(q, s[1..])
  }

  /** Selecting from a concatenation selects from each part, keeping their order. */
  lemma {:induction false} SelectAppend(q: Query, a: seq<Post>, b: seq<Post>)
    ensures Select(q, a + b) == Select(q, a) + Select(q, b)
  {
    if a == [] {
      assert a + b == b;
    } else {
      assert (a + b)[1..] == a[1..] + b;
      SelectAppend(q, a[1..], b);
    }
  }

  /** Selection keeps every selected post as often as it occurs, and drops every other one. */
  lemma {:induction false} SelectCounts(q: Query, s: seq<Post>, p: Post)
    ensures multiset(Select(q, s))[p] == if Matches(q, p) then multiset(s)[p] else 0
  {
    if s != [] {
      assert s == [s[0]] + s[1..];
      SelectCounts(q, s[1..], p);
    }
  }

  /** The unfiltered query returns its input unchanged. */
  lemma {:induction false} SelectEverything(s: seq<Post>)
    ensures Select(Everything, s) == s
  {
    if s != [] {
      SelectEverything(s[1..]);
    }
  }

  /** A query changes nothing on a sequence all of whose posts it selects. */
  lemma {:induction false} SelectAllMatching(q: Query, s: seq<Post>)
    requires forall i :: 0 <= i < |s| ==> Matches(q, s[i])
    ensures Select(q, s) == s
  {
    if s != [] {
      SelectAllMatching(q, s[1..]);
    }
  }

  /** The page `req` of `s`: at most `req.size` posts, starting at position `page * size`. */
  function Window(s: seq<Post>, req: PageRequest): (r: seq<Post>)
    ensures |r| <= req.size
    ensures |r| == if Offset(req) < |s| then Min(req.size, |s| - Offset(req)) else 0
    ensures forall i :: 0 <= i < |r| ==> Offset(req) + i < |s| && r[i] == s[Offset(req) + i]
  {
    var lo := Min(Offset(req), |s|);
    s[lo..Min(lo + req.size, |s|)]
  }

  function Min(a: int, b: int): int { if a <= b then a else b }

  /** Position `k` of `s` is on page `k / size`, at position `k % size` of that page. */
  lemma PageCovers(s: seq<Post>, k: nat, size: PageSize)
    requires k < |s|
    ensures Offset(PageRequest(k / size, size)) <= k
    ensures k % size < |Window(s, PageRequest(k / size, size))|
    ensures Window(s, PageRequest(k / size, size))[k % size] == s[k]
  {
    PageOfPosition(k, size);
  }

  /** Repository `findOne(id)`. */
  function FindOne(st: Store, id: int): Option<Post> {
    if id in st.byId then Some(st.byId[id]) else None
  }

  /** Repository `findByIdAndDraftFalse(id)`: the lookup excludes drafts in the query itself. */
  function FindByIdAndDraftFalse(st: Store, id: int): Option<Post> {
    if id in st.byId && !st.byId[id].draft then Some(st.byId[id]) else None
  }

  /** The page `req` of the posts that `q` selects. */
  function FindPage(st: Store, q: Query, req: PageRequest): (r: seq<Post>)
    ensures |r| <= req.size
    ensures forall i :: 0 <= i < |r| ==> Matches(q, r[i])
    ensures |r| == if Offset(req) < |Select(q, st.rows)| then Min(req.size, |Select(q, st.rows)| - Offset(req)) else 0
    ensures forall i :: 0 <= i < |r| ==>
      Offset(req) + i < |Select(q, st.rows)| && r[i] == Select(q, st.rows)[Offset(req) + i]
  {
    Window(Select(q, st.rows), req)
  }

  /** Repository `count()`: the number of all posts, drafts included. */
  function Count(st: Store): nat {
    |st.rows|
  }
}
