# SM-promo-parser: the decision and transformation rules, in Dafny

`parse_sm_articles.py` scrapes article codes from the paginated product catalog of a
sports shop and posts each code as a comment under a VK wall post. Most of the file is
asynchronous HTTP plumbing. This project models the rules inside that plumbing whose
results can be stated exactly, and proves what they promise:

- **Pagination plan** (`paginate`, module `Pagination`). The start page's "last page"
  link names a page `N` in its `page` query parameter. The plan is the listing URLs for
  pages 2..N, each one the last-page URL with only `page` rewritten. Any malformed
  input gives an empty plan. The generator loop, with the query dict rewritten in
  place, is the method `Paginate`.
- **Item links** (`get_item_links`, module `Links`): the first `href` of every item
  link that has one, in document order. The method `GetItemLinks` is the generator loop.
- **Challenge resolver** (`iwaf_challenge`, module `Challenge`). Off the challenge path
  it accepts the response. On the challenge path it finds the leftmost greedy match of
  `iwaf_js_cookie_[^']+` in the body, stores that cookie in the session's cookie jar
  under the response URL, and asks for a retry. The class `CatalogSession` holds the
  jar that the method `IwafChallenge` updates.
- **Traversal** (`parse_item`, `parse_page`, `parse`, module `Traversal`). Item results
  are stripped article texts. The output is the start page's results, then each
  paginated page's results, with `None` and empty results dropped.
- **VK API** (module `VkApi`): the retry classification `eval_resp_vk`, the form body of
  `comment_for_post`, and how `comment_for_post` reports each reply.

Supporting modules: `Wrappers` (Option), `Strings` (Python's `str.strip`, `str.split`
with a one-character separator, `str(n)` and `int(s)`), `Urls` (a parsed URL whose
query is an ordered map from key to value list, plus dict lookup and assignment) and
`Documents` (the parts of a parsed HTML page that the selectors reach).

Collaborators the code calls but does not define are parameters:
- the `Catalog` datatype holds the page fetch (`fetch_page`, `None` on failure), the
  URL parser (`urlparse` + `parse_qs`) and the URL serializer (`urlencode` +
  `urlunparse`);
- the VK client's replies come in as `PostResult` values;
- a reply that is not JSON is `None`.

Order is kept: `asyncio.gather` returns results in the order its tasks were given,
and `itertools.chain` keeps the order of its parts. The model proves that the output
of a traversal is the start page's articles followed by each paginated page's
articles, in plan order, each page in the order of its item links.

## Model

| member | source | states |
|---|---|---|
| `Strings.Trim` | parse_sm_articles.py:49 | `str.strip()`; its meaning is proved in `TrimIsCore`, `TrimEmptyIffAllSpace` and `TrimIdempotent` |
| `Strings.Split` | parse_sm_articles.py:191 | `str.split('_')`: at least one piece and no piece holds the separator; `SplitJoin` and `SplitCount` prove that it is the inverse of joining and how many pieces it gives |
| `Strings.ParseInt` | parse_sm_articles.py:99-102 | `int()` with `None` for its `ValueError` (apart from the digit-count limit), skipping the whitespace `int()` skips; `ParseIntOfNatToString` proves that it reads back every number `str` writes |
| `Strings.NatToString` | parse_sm_articles.py:105 | `str(page_idx)`: at least one character; `NatToStringDigits` proves it is all decimal digits and `ParseIntOfNatToString` that `int()` reads it back as `page_idx` |
| `Strings.TrimIsCore` | parse_sm_articles.py:49 | `strip()` returns the slice of its input left after removing a whitespace prefix and a whitespace suffix, and neither end of the result is whitespace |
| `Strings.TrimEmptyIffAllSpace` | parse_sm_articles.py:49 | `strip()` returns the empty string exactly when every character is Python whitespace, so a whitespace-only article ends up as an empty result |
| `Strings.TrimIdempotent` | parse_sm_articles.py:49 | stripping an already stripped text changes nothing |
| `Strings.SplitJoin` | parse_sm_articles.py:191 | joining the pieces of `split('_')` with `_` gives back the post id |
| `Strings.SplitCount` | parse_sm_articles.py:191 | `split('_')` gives one more piece than there are underscores |
| `Strings.ParseIntOfNatToString` | parse_sm_articles.py:99-105 | `int(str(n)) == n` for every `n >= 0`: the `page` value written into a plan URL reads back as its page number |
| `Urls.Get` | parse_sm_articles.py:94 | `query.get(key)`, the values of the first entry for `key`; `GetPut` and `GetUnique` characterize it |
| `Urls.Put` | parse_sm_articles.py:105 | `query[key] = values`: a present key keeps its place and gets the new values, every other entry is kept, and a new key is appended; `GetPut`, `PutKeepsKeys` and `PutPut` characterize it |
| `Urls.GetPut` | parse_sm_articles.py:105 | after `query['page'] = v`, `page` maps to `v` and every other key maps to what it did before |
| `Urls.PutKeepsKeys` | parse_sm_articles.py:105 | overwriting a key that is present keeps the query's keys and their order |
| `Urls.PutPut` | parse_sm_articles.py:104-105 | the in-place rewrite on each iteration leaves the query as a single rewrite of the original would |
| `Urls.GetUnique` | parse_sm_articles.py:89 | in a query with distinct keys, as `parse_qs` returns it, every entry is the one `query.get` finds for its key |
| `Urls.PutUniqueKeys` | parse_sm_articles.py:105 | assigning to a query with distinct keys keeps its keys distinct |
| `Pagination.LastPage` | parse_sm_articles.py:77-102 | the early returns of `paginate` and the page number it reads; `EmptyPlanCases` proves that each malformed input ends the plan |
| `Pagination.PaginationPlan` | parse_sm_articles.py:77-106 | the URLs `paginate` yields; `Paginate` is proved to compute it, and `PlanShape` and `PlanPages` characterize it |
| `Pagination.Paginate` | parse_sm_articles.py:77-106 | the loop over `range(2, N + 1)` that rewrites `page` in place yields exactly the pagination plan, URL by URL, in order |
| `Pagination.EmptyPlanCases` | parse_sm_articles.py:78-102 | the plan is empty when there is no last-page link, when the link has no `href`, when the URL does not parse, when there is no (or an empty) `page` value, and when the first `page` value is not an integer |
| `Pagination.PlanShape` | parse_sm_articles.py:104-106 | for a last page `N` the plan has `max(0, N - 1)` URLs; the k-th has `page = [str(k + 2)]`, the same scheme, host, path, params and fragment, the same other query values and the same key order |
| `Pagination.PlanPages` | parse_sm_articles.py:99-106 | read back the way `paginate` reads a URL, the k-th plan URL asks for page `k + 2`, so the plan lists pages 2, 3, ... in increasing order |
| `Links.ItemHrefs` | parse_sm_articles.py:63-74 | the URLs `get_item_links` yields; `GetItemLinks` computes it, and `ItemHrefsPositions`, `ItemHrefsFromLinks` and `NoHrefNoItems` characterize it |
| `Links.GetItemLinks` | parse_sm_articles.py:63-74 | the generator loop yields exactly the item URLs of the specification function, in order |
| `Links.ItemHrefsAppend` | parse_sm_articles.py:69-74 | the links of two consecutive runs of the page yield the first run's URLs followed by the second run's |
| `Links.ItemHrefsPositions` | parse_sm_articles.py:69-74 | there is one URL per link with an `href`; the link at position `i` yields `href[0]` at the position given by the number of earlier links that have an `href` |
| `Links.ItemHrefsFromLinks` | parse_sm_articles.py:69-74 | every yielded URL is the first `href` of some link, and there are no more URLs than links |
| `Links.NoHrefNoItems` | parse_sm_articles.py:64-74 | a page with no item links, or with none that has an `href`, yields nothing |
| `Challenge.Search` | parse_sm_articles.py:36 | the regular-expression search finds a match exactly when the body has the prefix followed by a non-quote somewhere; the match is the leftmost such place, and it extends up to the next single quote or to the end |
| `Challenge.Token` | parse_sm_articles.py:114-119 | `result.group(0)`, or `None` when the search fails; `TokenShape` and `QuotedToken` characterize it |
| `Challenge.TokenShape` | parse_sm_articles.py:114-119 | the token is a piece of the body that starts with `iwaf_js_cookie_`, has at least one more character and contains no single quote |
| `Challenge.QuotedToken` | parse_sm_articles.py:114-119 | a token written in single quotes in the body is found whole |
| `Challenge.ParseCookie` | parse_sm_articles.py:120 | the token gives a cookie exactly when it contains `=`; the name is the text before the first `=`; the value is the text after it up to the first `;` or the end, and contains no `;` |
| `Challenge.CookieOfNameValue` | parse_sm_articles.py:120 | `name=value` parses back to that name and value when the name has no `=` and the value has no `;` |
| `Challenge.CookieWithAttributes` | parse_sm_articles.py:120 | `name=value;attrs` parses to that name and value whatever the attributes are, when the name has no `=` and the value has no `;` |
| `Challenge.AfterChallenge` | parse_sm_articles.py:110-120 | the jar after one evaluation; `AfterChallengeFrame` and `ChallengeExample` characterize it |
| `Challenge.CatalogSession.IwafChallenge` | parse_sm_articles.py:109-121 | the evaluator accepts exactly when the path is not `/iwaf-challenge`; the jar afterwards is the old jar updated by `AfterChallenge` |
| `Challenge.AfterChallengeFrame` | parse_sm_articles.py:109-121 | the jar does not change off the challenge path, when no token is found, or when the token has no `=`; otherwise only the entry for the response URL changes, the parsed cookie is set there, that entry gains no other name (the model keeps one pair per token), and its other cookies keep their values |
| `Challenge.ChallengeExample` | parse_sm_articles.py:109-121 | after a challenge page with body `'iwaf_js_cookie_ABC123=xyz'`, the jar holds cookie `iwaf_js_cookie_ABC123` with value `xyz` for the response URL |
| `Traversal.ParseItem` | parse_sm_articles.py:40-49 | an item gives a result exactly when its page loads and has an article element; the result is the article's text (`"None"` when the element has no single string) with surrounding whitespace stripped, and stripping it again changes nothing |
| `Traversal.ArticleString` | parse_sm_articles.py:49 | `str(article.string)`: the element's single string, or `"None"` when it has none; `ParseItem` strips it |
| `Traversal.ParseItems` | parse_sm_articles.py:57-60 | the gather over `parse_item`: one result per item URL, the i-th being `ParseItem` of the i-th URL |
| `Traversal.ParsePage` | parse_sm_articles.py:52-60 | `parse_page`: no results when the listing page does not load, else one result per item URL, in order; `PageWithoutItems` covers a page without item links |
| `Traversal.Parse` | parse_sm_articles.py:174-187 | `parse`; `ParseMembers`, `ParseOrder` and `ParseArticlesStripped` prove which articles it yields, in what order and in what form |
| `Traversal.OtherPages` | parse_sm_articles.py:183-185 | the gather over `paginate`: one result list per plan URL, the i-th being `ParsePage` of the i-th plan URL |
| `Traversal.Concat` | parse_sm_articles.py:187 | `itertools.chain`; `ConcatMembers` proves its membership and `KeepArticlesConcat` that filtering commutes with it |
| `Traversal.KeepArticles` | parse_sm_articles.py:187 | the `if item` filter; `KeepArticlesMembers` proves which strings survive and `KeepArticlesAppend` that the order is kept |
| `Traversal.KeepArticlesAppend` | parse_sm_articles.py:187 | filtering two consecutive result lists gives the two filtered lists, one after the other |
| `Traversal.KeepArticlesConcat` | parse_sm_articles.py:187 | filtering the chain of all pages is the chain of the filtered pages |
| `Traversal.KeepArticlesMembers` | parse_sm_articles.py:187 | a string survives the `if item` filter exactly when it is a non-empty result |
| `Traversal.ConcatMembers` | parse_sm_articles.py:187 | an element is in the chain of several lists exactly when it is in one of them |
| `Traversal.ParseMembers` | parse_sm_articles.py:174-187 | there are no articles when the start page does not load; otherwise an article is in the output exactly when it is a non-empty result of the start page's items or of some paginated page's items |
| `Traversal.ParseOrder` | parse_sm_articles.py:179-187 | the output is the start page's kept articles followed by each paginated page's kept articles, in plan order |
| `Traversal.ParseArticlesStripped` | parse_sm_articles.py:40-49 | every article in the output is non-empty and has no whitespace at either end |
| `Traversal.PageWithoutItems` | parse_sm_articles.py:52-74 | a listing page whose item links have no `href` contributes no article |
| `VkApi.EvalReply` | parse_sm_articles.py:217-230 | `eval_resp_vk`; `EvalReplyCases` proves its classification and `EvalReplyOrderIrrelevant` that the order of its two checks does not matter |
| `VkApi.EvalReplyCases` | parse_sm_articles.py:217-230 | a reply that is not JSON means retry; no error object means accept; a code in {1, 6, 10} means retry; a code in {5, 9, 29, 223} means accept; any other or missing code means retry |
| `VkApi.EvalReplyOrderIrrelevant` | parse_sm_articles.py:28-29 | the retry and never-retry code sets are disjoint, so checking the never-retry set first gives the same verdict on every reply |
| `VkApi.CommentBody` | parse_sm_articles.py:190-198 | a body exists exactly when the post id contains exactly one `_`; then the owner id and post id are the two sides of it, and token, message and `v = 5.131` are passed through |
| `VkApi.CommentBodyOfTarget` | parse_sm_articles.py:190-198 | for a target `owner + "_" + id` where neither side contains `_`, the body carries exactly that owner and that id |
| `VkApi.CommentOutcome` | parse_sm_articles.py:200-214 | how `comment_for_post` reports a transport error, a reply that is not JSON, an accepted comment and a rejection; `AcceptedReplyOutcome` ties it to `EvalReply` |
| `VkApi.AcceptedReplyOutcome` | parse_sm_articles.py:200-230 | the evaluator accepts a reply exactly when `comment_for_post` reports it as posted or as rejected with a never-retry code; a reply reported as posted is always accepted |

## Left out

- Retrying: the retry loop, exponential backoff, attempt ceiling, `raise_for_status` and connection limit (`make_client`, lines 146-171). They belong to `aiohttp_retry` and `aiohttp`, whose code is not part of this model.
- Network I/O and concurrency: `fetch_page`, `client.get`/`client.post`, `resp.text()`/`resp.json()`, and the `asyncio.gather` fan-out. Fetch results are inputs (`Option` values and `PostResult`), and gathered results are in task order.
- HTML parsing and CSS selectors (BeautifulSoup). A page is a `Document` listing the item links, the last-page link and the article element the selectors would find.
- Links without `href`: the model skips them, as the warnings at lines 74 and 84 intend. The source does not. For a missing attribute the HTML library's `get_attribute_list` returns `[None]`, not an empty list, so the checks at lines 71 and 83 always pass. `get_item_links` then yields `None` for such a link, and fetching `None` raises an error that the `except aiohttp.ClientError` in `fetch_page` does not catch. In `paginate`, `None` reaches `urlparse`, and the plan still comes out empty through a later early return.
- URL handling: `urlparse`, `parse_qs`, `urlencode` and `urlunparse` are the abstract `parseUrl` and `unparseUrl` of `Catalog`. Plan URLs are parsed `Url` records, not serialized strings. Percent-encoding and `parse_qs` blank-value rules are not modelled.
- Challenge.ParseCookie: `BaseCookie` is simplified to name-before-`=` and value-up-to-`;`. Its character classes, quoting and cookie attributes are not modelled. Only the first `name=value` pair of a token is kept. `BaseCookie` also returns the pairs after a `;`, and the jar stores them too: `'iwaf_js_cookie_A=1; foo=2'` sets `foo` as well in the source. Those later pairs are dropped.
- Challenge.AfterChallenge: stores one cookie per challenge, the first pair of the token, where `update_cookies` stores every pair `BaseCookie` returns. The one-name frame of `AfterChallengeFrame` ("that entry gains no other name") describes this simplification, not the source.
- Challenge.CatalogSession.IwafChallenge: the jar is keyed by the response URL. aiohttp's domain and path scoping, expiry and attributes are not modelled. Whether the body is read at all is an effect the model cannot observe, so "off the challenge path the body is not read" is not stated.
- ParseInt: models `int()` as optional surrounding whitespace, an optional sign and ASCII digits. The whitespace is `str.isspace`'s set except U+001C..U+001F, which `int()` does not skip; a string holding one of those is rejected. Digit-group underscores and non-ASCII decimal digits, which `int()` also accepts, are not modelled. `int()`'s limit on the length of a decimal string is not modelled either. CPython 3.11 and later, and the 3.7-3.10 security releases, default to 4300 digits and raise `ValueError` beyond it. A longer `page` value therefore ends the plan in the source but not in the model.
- Split: only the one-character separator `_` that the code uses.
- VkApi.EvalReply: `error_code` is modelled as an optional integer. A missing or `null` code, or a string code, is in neither set, so the verdict is retry. Not modelled: a float or boolean code equal to a listed code, such as `5.0`, which is in the never-retry set, or `true`, which equals `1` and is in the retry set. Also not modelled: an array or object code, for which the set test at line 228 raises `TypeError`. Also not modelled: an `error` that is truthy but not an object (`"error": "denied"`), for which `error.get` raises at lines 212 and 227. Non-dict JSON replies are not modelled.
- Urls.Put: `Query` allows a key to appear twice, while `parse_qs` returns a dict. On a query with a repeated key, `Put` rewrites only the first entry. `UniqueKeys`, `GetUnique` and `PutUniqueKeys` state the dict case.
- `resp.json()` raising a content-type error instead of a JSON decode error is not modelled.
- The relay fan-out in `parse_then_send` (lines 233-254), its placeholder `articles = ['TEST']`, and the actual POST in `comment_for_post` are not modelled. The body construction and the reply handling are modelled.
- `parse_args`, `main` and the OAuth authorize-URL flow (lines 136-143, 257-283): command-line and entry-point code.
- Warnings and logging (lines 19-21 and each `warnings.warn`): they do not affect any returned value.
