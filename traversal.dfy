/**
 * The catalog traversal: `parse_item`, `parse_page` and `parse`. The results
 * of the concurrent fetches are gathered in the order they were asked for
 * (`asyncio.gather` keeps that order), so the traversal is a function of what
 * the site returns for each URL.
 */
module Traversal {
  import opened Wrappers
  import opened Strings
  import opened Urls
  import opened Documents
  import opened Links
  import opened Pagination

  /**
   * The catalog site as the traverser reaches it: `fetch` is `fetch_page`
   * (`None` when the request fails), `parseUrl` is `urlparse` followed by
   * `parse_qs`, `unparseUrl` is `urlencode` followed by `urlunparse`.
   */
  datatype Catalog = Catalog(fetch: string -> Option<Document>,
                             parseUrl: string -> Option<Url>,
                             unparseUrl: Url -> string)

  /** `str(article.string)`: Python renders a missing `.string` as `"None"`. */
  function ArticleString(e: Element): string {
    match e.str
    case None => "None"
    case Some(s) => s
  }

  /**
   * `parse_item`: `None` when the item page does not load or has no article
   * element, otherwise the article text with surrounding whitespace stripped.
   */
  function ParseItem(c: Catalog, itemUrl: string): (r: Option<string>)
    ensures r.Some? <==> c.fetch(itemUrl).Some? && c.fetch(itemUrl).value.article.Some?
    ensures r.Some? ==> r.value == Trim(ArticleString(c.fetch(itemUrl).value.article.value))
    ensures r.Some? ==> Trim(r.value) == r.value
  {
    match c.fetch(itemUrl)
    case None => None
    case Some(page) =>
      match page.article
      case None => None
      case Some(e) => TrimIdempotent(ArticleString(e)); Some(Trim(ArticleString(e)))
  }

  /** The gathered `parse_item` results for `urls`, in the same order. */
  function ParseItems(c: Catalog, urls: seq<string>): (r: seq<Option<string>>)
    ensures |r| == |urls| && forall i :: 0 <= i < |urls| ==> r[i] == ParseItem(c, urls[i])
  {
    seq(|urls|, i requires 0 <= i < |urls| => ParseItem(c, urls[i]))
  }

  /** The results for the items a listing page links to. */
  function PageItems(c: Catalog, page: Document): seq<Option<string>> {
    ParseItems(c, ItemHrefs(page.itemLinks))
  }

  /** `parse_page`: nothing when the listing page does not load. */
  function ParsePage(c: Catalog, url: string): seq<Option<string>> {
    match c.fetch(url)
    case None => []
    case Some(page) => PageItems(c, page)
  }

  /** The results of every page of the pagination plan, page by page. */
  function OtherPages(c: Catalog, page: Document): (r: seq<seq<Option<string>>>)
    ensures |r| == |PaginationPlan(page, c.parseUrl)|
    ensures forall i :: 0 <= i < |r| ==> r[i] == ParsePage(c, c.unparseUrl(PaginationPlan(page, c.parseUrl)[i]))
  {
    var plan := PaginationPlan(page, c.parseUrl);
    seq(|plan|, i requires 0 <= i < |plan| => ParsePage(c, c.unparseUrl(plan[i])))
  }

  /** `itertools.chain(*parts)` */
  function Concat<T>(parts: seq<seq<T>>): seq<T> {
    if parts == [] then [] else parts[0] + Concat(parts[1..])
  }

  /** The filter `if item`: keeps the results that are neither `None` nor empty. */
  function KeepArticles(items: seq<Option<string>>): seq<string> {
    if items == [] then []
    else (if items[0].Some? && items[0].value != "" then [items[0].value] else [])
         + KeepArticles(items[1..])
  }

  /** `parse`: the start page's items, then every other page's items. */
  function Parse(c: Catalog, startUrl: string): seq<string> {
    match c.fetch(startUrl)
    case None => []
    case Some(page) => KeepArticles(PageItems(c, page) + Concat(OtherPages(c, page)))
  }

  lemma {:induction false} KeepArticlesAppend(a: seq<Option<string>>, b: seq<Option<string>>)
    ensures KeepArticles(a + b) == KeepArticles(a) + KeepArticles(b)
  {
    if a == [] {
      assert a + b == b;
    } else {
      assert (a + b)[0] == a[0];
      assert (a + b)[1..] == a[1..] + b;
      KeepArticlesAppend(a[1..], b);
    }
  }

  /** Filtering a chain is chaining the filtered parts. */
  lemma {:induction false} KeepArticlesConcat(parts: seq<seq<Option<string>>>)
    ensures KeepArticles(Concat(parts)) ==
            Concat(seq(|parts|, i requires 0 <= i < |parts| => KeepArticles(parts[i])))
  {
    var kept := seq(|parts|, i requires 0 <= i < |parts| => KeepArticles(parts[i]));
    if parts != [] {
      KeepArticlesAppend(parts[0], Concat(parts[1..]));
      KeepArticlesConcat(parts[1..]);
      assert kept[1..] == seq(|parts[1..]|, i requires 0 <= i < |parts[1..]| => KeepArticles(parts[1..][i]));
    }
  }

  /** A string survives the filter exactly when it is a non-empty result. */
  lemma {:induction false} KeepArticlesMembers(items: seq<Option<string>>, s: string)
    ensures s in KeepArticles(items) <==> s != "" && Some(s) in items
  {
    if items != [] {
      KeepArticlesMembers(items[1..], s);
      assert items == [items[0]] + items[1..];
    }
  }

  lemma {:induction false} ConcatMembers<T>(parts: seq<seq<T>>, x: T)
    ensures x in Concat(parts) <==> exists i :: 0 <= i < |parts| && x in parts[i]
  {
    if parts != [] {
      ConcatMembers(parts[1..], x);
      if x in Concat(parts[1..]) {
        var i :| 0 <= i < |parts[1..]| && x in parts[1..][i];
        assert x in parts[i + 1];
      }
      if exists i :: 0 <= i < |parts| && x in parts[i] {
        var i :| 0 <= i < |parts| && x in parts[i];
        if i > 0 {
          assert x in parts[1..][i - 1];
        }
      }
    }
  }

  /**
   * The articles of a traversal are exactly the non-empty results of the start
   * page's items and of every paginated page's items; nothing when the start
   * page does not load.
   */
  lemma ParseMembers(c: Catalog, startUrl: string, s: string)
    ensures c.fetch(startUrl).None? ==> Parse(c, startUrl) == []
    ensures c.fetch(startUrl).Some? ==>
              var page := c.fetch(startUrl).value;
              (s in Parse(c, startUrl) <==>
                 s != "" && (Some(s) in PageItems(c, page)
                             || exists i :: 0 <= i < |OtherPages(c, page)| && Some(s) in OtherPages(c, page)[i]))
  {
    if c.fetch(startUrl).Some? {
      var page := c.fetch(startUrl).value;
      var all := PageItems(c, page) + Concat(OtherPages(c, page));
      KeepArticlesMembers(all, s);
      ConcatMembers(OtherPages(c, page), Some(s));
    }
  }

  /**
   * Order: the start page's articles come first, then each paginated page's,
   * in plan order, each page keeping its items' order.
   */
  lemma ParseOrder(c: Catalog, startUrl: string)
    ensures c.fetch(startUrl).Some? ==>
              var page := c.fetch(startUrl).value;
              var others := OtherPages(c, page);
              Parse(c, startUrl) ==
                KeepArticles(PageItems(c, page))
                + Concat(seq(|others|, i requires 0 <= i < |others| => KeepArticles(others[i])))
  {
    if c.fetch(startUrl).Some? {
      var page := c.fetch(startUrl).value;
      KeepArticlesAppend(PageItems(c, page), Concat(OtherPages(c, page)));
      KeepArticlesConcat(OtherPages(c, page));
    }
  }

  /** Every result of `ParseItems` is already stripped. */
  lemma ItemResultStripped(c: Catalog, urls: seq<string>, s: string)
    requires Some(s) in ParseItems(c, urls)
    ensures Trim(s) == s
  {
    var k :| 0 <= k < |urls| && ParseItems(c, urls)[k] == Some(s);
    assert ParseItem(c, urls[k]) == Some(s);
  }

  /** Every article a traversal yields is non-empty and already stripped. */
  lemma ParseArticlesStripped(c: Catalog, startUrl: string, s: string)
    requires s in Parse(c, startUrl)
    ensures s != "" && Trim(s) == s
    ensures !IsSpace(s[0]) && !IsSpace(s[|s| - 1])
  {
    ParseMembers(c, startUrl, s);
    var page := c.fetch(startUrl).value;
    if Some(s) in PageItems(c, page) {
      ItemResultStripped(c, ItemHrefs(page.itemLinks), s);
    } else {
      var i :| 0 <= i < |OtherPages(c, page)| && Some(s) in OtherPages(c, page)[i];
      var u := c.unparseUrl(PaginationPlan(page, c.parseUrl)[i]);
      assert OtherPages(c, page)[i] == ParsePage(c, u);
      var other := c.fetch(u).value;
      ItemResultStripped(c, ItemHrefs(other.itemLinks), s);
    }
    TrimIsCore(s);
  }

  /** A listing page none of whose item links has an `href` contributes no article. */
  lemma PageWithoutItems(c: Catalog, page: Document)
    requires forall i :: 0 <= i < |page.itemLinks| ==> page.itemLinks[i].href == []
    ensures PageItems(c, page) == [] && KeepArticles(PageItems(c, page)) == []
  {
    NoHrefNoItems(page.itemLinks);
  }
}
