/**
 * `paginate`: from the start page's "last page" link, the listing URLs of
 * pages 2..N, where N is the link's `page` query parameter. Every failure on
 * the way gives an empty plan, so pagination degrades to a single page.
 */
module Pagination {
  import opened Wrappers
  import opened Strings
  import opened Urls
  import opened Documents

  const PageKey := "page"

  /**
   * The parsed last-page URL and the page number it names, or `None` for each
   * early return: no last-page link, a link without `href`, a URL that does not
   * parse, no (or an empty) `page` parameter, a first `page` value that `int`
   * rejects. `parseUrl` stands for `urlparse` followed by `parse_qs`, with
   * `None` for the `ValueError` they may raise.
   */
  function LastPage(page: Document, parseUrl: string -> Option<Url>): Option<(Url, int)> {
    match page.lastPageLink
    case None => None
    case Some(link) =>
      if link.href == [] then None
      else match parseUrl(link.href[0])
        case None => None
        case Some(url) =>
          match Get(url.query, PageKey)
          case None => None
          case Some(values) =>
            if values == [] then None
            else match ParseInt(values[0])
              case None => None
              case Some(n) => Some((url, n))
  }

  /** `url` with its query's `page` entry set to `[str(n)]`. */
  function WithPage(url: Url, n: nat): Url {
    url.(query := Put(url.query, PageKey, [NatToString(n)]))
  }

  /** How many numbers `range(2, n + 1)` yields. */
  function PageCount(n: int): nat {
    if n < 2 then 0 else n - 1
  }

  /** The URLs for the pages `range(2, n + 1)`, built from the last-page URL. */
  function PagesUpTo(url: Url, n: int): (plan: seq<Url>)
    ensures |plan| == PageCount(n)
    ensures forall k :: 0 <= k < |plan| ==> plan[k] == WithPage(url, k + 2)
  {
    seq(PageCount(n), k requires 0 <= k => WithPage(url, k + 2))
  }

  /** The pagination plan: the URLs `paginate` yields, in the order it yields them. */
  function PaginationPlan(page: Document, parseUrl: string -> Option<Url>): seq<Url> {
    match LastPage(page, parseUrl)
    case None => []
    case Some((url, n)) => PagesUpTo(url, n)
  }

  /**
   * `paginate`, with its early returns in `LastPage`; the generator loop
   * updates the query dict in place on every iteration, and each yielded URL
   * carries the query as it is then.
   */
  method Paginate(page: Document, parseUrl: string -> Option<Url>) returns (plan: seq<Url>)
    ensures plan == PaginationPlan(page, parseUrl)
  {
    plan := [];
    var last := LastPage(page, parseUrl);
    if last.None? {
      return;
    }
    var (url, n) := last.value;
    var query := url.query;
    var pageIdx := 2;
    while pageIdx <= n
      invariant 2 <= pageIdx <= PageCount(n) + 2
      invariant plan == PagesUpTo(url, pageIdx - 1)
      invariant pageIdx == 2 ==> query == url.query
      invariant pageIdx > 2 ==> url.(query := query) == WithPage(url, pageIdx - 1)
    {
      if pageIdx > 2 {
        PutPut(url.query, PageKey, [NatToString(pageIdx - 1)], [NatToString(pageIdx)]);
      }
      query := Put(query, PageKey, [NatToString(pageIdx)]);
      PagesUpToNext(url, pageIdx - 1);
      plan := plan + [url.(query := query)];
      pageIdx := pageIdx + 1;
    }
  }

  /** One more iteration of `range` adds the URL for the next page at the end. */
  lemma PagesUpToNext(url: Url, m: int)
    requires m >= 1
    ensures PagesUpTo(url, m + 1) == PagesUpTo(url, m) + [WithPage(url, m + 1)]
  {
  }

  lemma PlanOfLastPage(page: Document, parseUrl: string -> Option<Url>, url: Url, n: int)
    requires LastPage(page, parseUrl) == Some((url, n))
    ensures PaginationPlan(page, parseUrl) == PagesUpTo(url, n)
  {
  }

  /** Each of the five malformed inputs gives an empty plan. */
  lemma EmptyPlanCases(page: Document, parseUrl: string -> Option<Url>)
    ensures page.lastPageLink.None? ==> PaginationPlan(page, parseUrl) == []
    ensures page.lastPageLink.Some? && page.lastPageLink.value.href == [] ==>
              PaginationPlan(page, parseUrl) == []
    ensures page.lastPageLink.Some? && page.lastPageLink.value.href != [] &&
            parseUrl(page.lastPageLink.value.href[0]).None? ==>
              PaginationPlan(page, parseUrl) == []
    ensures page.lastPageLink.Some? && page.lastPageLink.value.href != [] &&
            parseUrl(page.lastPageLink.value.href[0]).Some? &&
            Get(parseUrl(page.lastPageLink.value.href[0]).value.query, PageKey) in {None, Some([])} ==>
              PaginationPlan(page, parseUrl) == []
    ensures page.lastPageLink.Some? && page.lastPageLink.value.href != [] &&
            parseUrl(page.lastPageLink.value.href[0]).Some? &&
            Get(parseUrl(page.lastPageLink.value.href[0]).value.query, PageKey).Some? &&
            Get(parseUrl(page.lastPageLink.value.href[0]).value.query, PageKey).value != [] &&
            ParseInt(Get(parseUrl(page.lastPageLink.value.href[0]).value.query, PageKey).value[0]).None? ==>
              PaginationPlan(page, parseUrl) == []
  {
  }

  /**
   * For a last page `n`, the plan has `max(0, n - 1)` URLs; the k-th asks for
   * page `k + 2` and differs from the last-page URL in nothing else: the other
   * components, the other query keys and the order of the keys are kept.
   */
  lemma PlanShape(page: Document, parseUrl: string -> Option<Url>, url: Url, n: int)
    requires LastPage(page, parseUrl) == Some((url, n))
    ensures |PaginationPlan(page, parseUrl)| == if n < 2 then 0 else n - 1
    ensures forall k :: 0 <= k < |PaginationPlan(page, parseUrl)| ==>
              var u := PaginationPlan(page, parseUrl)[k];
              && u.scheme == url.scheme && u.netloc == url.netloc && u.path == url.path
              && u.params == url.params && u.fragment == url.fragment
              && Get(u.query, PageKey) == Some([NatToString(k + 2)])
              && Keys(u.query) == Keys(url.query)
              && forall key :: key != PageKey ==> Get(u.query, key) == Get(url.query, key)
  {
    PlanOfLastPage(page, parseUrl, url, n);
    var plan := PagesUpTo(url, n);
    assert Get(url.query, PageKey).Some?;
    forall k | 0 <= k < |plan|
      ensures Get(plan[k].query, PageKey) == Some([NatToString(k + 2)])
      ensures Keys(plan[k].query) == Keys(url.query)
      ensures forall key :: key != PageKey ==> Get(plan[k].query, key) == Get(url.query, key)
    {
      var values := [NatToString(k + 2)];
      assert plan[k].query == Put(url.query, PageKey, values);
      GetPut(url.query, PageKey, values, PageKey);
      PutKeepsKeys(url.query, PageKey, values);
      forall key | key != PageKey
        ensures Get(plan[k].query, key) == Get(url.query, key)
      {
        GetPut(url.query, PageKey, values, key);
      }
    }
  }

  /** The page number a listing URL asks for, read back as `paginate` reads it. */
  function PageNumber(url: Url): Option<int> {
    match Get(url.query, PageKey)
    case None => None
    case Some(values) => if values == [] then None else ParseInt(values[0])
  }

  /** Reading the plan back: its URLs ask for pages 2, 3, ... in increasing order. */
  lemma PlanPages(page: Document, parseUrl: string -> Option<Url>)
    ensures forall k :: 0 <= k < |PaginationPlan(page, parseUrl)| ==>
              PageNumber(PaginationPlan(page, parseUrl)[k]) == Some(k + 2)
  {
    match LastPage(page, parseUrl)
    case None =>
    case Some((url, n)) =>
      PlanOfLastPage(page, parseUrl, url, n);
      var plan := PagesUpTo(url, n);
      forall k | 0 <= k < |plan|
        ensures PageNumber(plan[k]) == Some(k + 2)
      {
        PageNumberOfWithPage(url, k + 2);
      }
  }

  lemma PageNumberOfWithPage(url: Url, m: nat)
    ensures PageNumber(WithPage(url, m)) == Some(m)
  {
    GetPut(url.query, PageKey, [NatToString(m)], PageKey);
    ParseIntOfNatToString(m);
  }
}
