/**
  `paginate_posts`: a listing cut into pages of `PostsPerPage` posts, the
  page chosen by the optional `page` query parameter. Which page a missing,
  non-numeric or out-of-range parameter selects is the framework paginator's
  `get_page` rule, restated here: no number gives page 1, a number below 1
  or beyond the last page gives the last page.
*/
module Paging {
  import opened Wrappers
  import opened Seqs

  /** `settings.POSTS_PER_PAGE`. */
  const PostsPerPage: nat := 10

  datatype Page<T> = Page(items: seq<T>, number: nat, numPages: nat)

  /** Number of pages of a listing of `count` items; an empty listing has one empty page. */
  function NumPages(count: nat): (n: nat)
    ensures n >= 1
    ensures count > 0 ==> (n - 1) * PostsPerPage < count <= n * PostsPerPage
  {
    if count == 0 then 1 else (count - 1) / PostsPerPage + 1
  }

  /** The page `get_page` settles on for the query parameter `param` (None: absent or not a number). */
  function PageNumber(param: Option<int>, count: nat): (n: nat)
    ensures 1 <= n <= NumPages(count)
  {
    match param
    case None => 1
    case Some(k) => if 1 <= k <= NumPages(count) then k else NumPages(count)
  }

  function PageStart(n: nat): nat
    requires n >= 1
  {
    (n - 1) * PostsPerPage
  }

  /** `Paginator(s, PostsPerPage).get_page(param)`. */
  function Paginate<T>(s: seq<T>, param: Option<int>): (p: Page<T>)
    ensures |p.items| <= PostsPerPage
    ensures 1 <= p.number <= p.numPages && p.numPages == NumPages(|s|)
    ensures forall x :: x in p.items ==> x in s
  {
    var n := PageNumber(param, |s|);
    var start := PageStart(n);
    var end := if start + PostsPerPage <= |s| then start + PostsPerPage else |s|;
    Page(s[start..end], n, NumPages(|s|))
  }

  /** A page number below 1 or beyond the last page selects the last page; a valid one is kept. */
  lemma PageClamping<T>(s: seq<T>, k: int)
    ensures 1 <= k <= NumPages(|s|) ==> Paginate(s, Some(k)).number == k
    ensures (k < 1 || k > NumPages(|s|)) ==> Paginate(s, Some(k)).number == NumPages(|s|)
    ensures k > NumPages(|s|) ==> Paginate(s, Some(k)) == Paginate(s, Some(NumPages(|s|)))
  {
  }

  /** Item `j` of a page is item `(number - 1) * PostsPerPage + j` of the listing. */
  lemma PageItemIndex<T>(s: seq<T>, param: Option<int>, j: nat)
    requires j < |Paginate(s, param).items|
    ensures PageStart(Paginate(s, param).number) + j < |s|
    ensures Paginate(s, param).items[j] == s[PageStart(Paginate(s, param).number) + j]
  {
  }

  /** Every item of the listing is on page `k / PostsPerPage + 1`, at position `k % PostsPerPage`. */
  lemma EveryItemOnItsPage<T>(s: seq<T>, k: nat)
    requires k < |s|
    ensures Paginate(s, Some(k / PostsPerPage + 1)).number == k / PostsPerPage + 1
    ensures k % PostsPerPage < |Paginate(s, Some(k / PostsPerPage + 1)).items|
    ensures Paginate(s, Some(k / PostsPerPage + 1)).items[k % PostsPerPage] == s[k]
  {
    var n := k / PostsPerPage + 1;
    assert PageStart(n) == k - k % PostsPerPage;
    assert n <= NumPages(|s|);
  }

  /** A page keeps the listing's order (and any other pairwise rule). */
  lemma PageKeepsOrder<T>(s: seq<T>, param: Option<int>, R: (T, T) -> bool)
    requires Pairwise(s, R)
    ensures Pairwise(Paginate(s, param).items, R)
  {
    var p := Paginate(s, param);
    forall i, j | 0 <= i < j < |p.items| ensures R(p.items[i], p.items[j]) {
      PageItemIndex(s, param, i);
      PageItemIndex(s, param, j);
    }
  }

  /** Without a `page` parameter the first page is shown: the listing's first items, newest first. */
  lemma FirstPageByDefault<T>(s: seq<T>)
    ensures Paginate(s, None).number == 1
    ensures Paginate(s, None).items == s[..if |s| < PostsPerPage then |s| else PostsPerPage]
    ensures s != [] ==> Paginate(s, None).items[0] == s[0]
  {
  }

  /** A listing of between one and two pages: page 1 is full and page 2 holds the rest. */
  lemma SecondPageHoldsRest<T>(s: seq<T>)
    requires PostsPerPage < |s| <= 2 * PostsPerPage
    ensures |Paginate(s, None).items| == PostsPerPage
    ensures |Paginate(s, Some(2)).items| == |s| - PostsPerPage
    ensures Paginate(s, None).items + Paginate(s, Some(2)).items == s
  {
    assert NumPages(|s|) == 2;
  }

  /** Twelve posts (one set up for the whole test class plus eleven more) give a page of ten and a page of two. */
  lemma TwelvePosts<T>(s: seq<T>)
    requires |s| == 12
    ensures |Paginate(s, None).items| == PostsPerPage == 10
    ensures |Paginate(s, Some(2)).items| == |s| - PostsPerPage == 2
  {
    SecondPageHoldsRest(s);
  }
}
