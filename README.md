# uniapp-crawler: the site crawler, modelled in Dafny

The crawler mirrors the uni-app documentation site into a local directory.
`crawl_page(url)` does these steps in order:

1. It returns at once for a URL already in the module-level `visited` set.
2. Otherwise it adds the URL to `visited`, then fetches and parses the page.
3. It saves the raw page text as `<title>.html`, or `untitled.html` when the page has no title element. Every `/` and every space in the title becomes `_`.
4. It recurses, in document order, into every anchor whose `href` passes the link filter.

The link filter keeps an `href` when all three hold:

- it is non-empty;
- its authority is empty or exactly `uniapp.dcloud.io`;
- its resolution against `https://uniapp.dcloud.io/` starts with `https://uniapp.dcloud.io/`.

Every link is resolved against that base URL, never against the page it was found on.

The project has these modules:

- `LinkFilter` (link_filter.dfy) holds the filter and `Links`, the ordered list of URLs a page leads to. `urljoin` and `urlparse(..).netloc` are not re-implemented. They are the two function fields of a `UrlLib` value. Reference resolution is section 5.2 of RFC 3986 and the authority component is section 3.2 of RFC 3986.
- `PageStore` (page_store.dfy) holds the title sanitiser, the file name and the write into the output directory. The directory is a `map` from file name to content, and a later write under the same name replaces the earlier one.
- `CrawlSpec` (crawl_spec.dfy) holds two mutually recursive functions. `CrawlFrom` gives the result of one `crawl_page` call as a function of `visited` and the directory before the call. `CrawlAnchors` does the same for its loop over anchors. Each returns a `Run`: the new `visited`, the new directory, the URLs fetched in order, and whether the call returned normally.
- `CrawlProperties` (crawl_properties.dfy) holds the lemmas that relate several steps of a run.
- `Crawler` (crawler.dfy) holds the imperative crawler. It is a class with fields `visited`, `store` and a ghost `log` of fetched URLs. `CrawlPage` is proved equal to `CrawlFrom`, and `FollowAnchors` is proved equal to `CrawlAnchors`. `FollowAnchors` is the `for` loop of `crawl_page`, written as a method of its own. The two methods call each other just as the loop calls `crawl_page`.

Fetching and parsing a page is one given total function, `Site.fetch`. It maps a URL to a `Page`: the title element, the raw text and the `href` of every anchor in document order.

The title element has three cases, because `soup.title.string` is None when the title element has no child, several children, or one child element without a single string. `save_page` then calls `replace` on None, which raises `AttributeError`. Nothing in the script catches it, so it leaves every enclosing `crawl_page` and ends the crawl. The model returns `ok == false` for this, and every enclosing loop stops.

**Termination.** The source just recurses. The model instead assumes a finite set of URLs, `Site.universe`, that contains the start URL and every URL a page of the universe leads to (`Closed`). Each recursive call is measured by `|universe - visited|`; fuel is not used.

The output directory starts as whatever earlier runs left in it. The code has no maximum depth, no check that skips pages whose file already exists, and no retry after a failed request, so the model has none of these either.

## Model

| member | source | states |
|---|---|---|
| LinkFilter.IsInternalLink | app/crawler.py:11-12 | Defines `is_internal_link`: the reference is non-empty and its authority, as `urlparse(..).netloc` gives it, is empty or exactly `uniapp.dcloud.io`. |
| LinkFilter.Resolve | app/crawler.py:33 | Defines `urljoin(BASE_URL, href)`: every reference is resolved against the base URL, never against the page it was found on. |
| LinkFilter.Follows | app/crawler.py:34 | Defines the test the loop applies before recursing: the reference is internal and its resolution starts with BASE_URL. |
| LinkFilter.Links | app/crawler.py:31-34 | Every URL a page leads to starts with BASE_URL and is `urljoin(BASE_URL, href)` of one of the page's `href` values that passes the filter. Every followed `href` contributes its resolved URL. This row covers membership; order and multiplicity are in the two rows below. |
| LinkFilter.LinksAppend | app/crawler.py:31-34 | The links of two consecutive runs of anchors are the links of the first run followed by those of the second, so document order is kept. |
| LinkFilter.LinksOfOne | app/crawler.py:33-34 | A single anchor leads to exactly its one resolved URL when it passes the filter, and to nothing otherwise. |
| PageStore.ReplaceChar | app/crawler.py:15 | `str.replace` of one character keeps the length and replaces exactly the positions that held that character. |
| PageStore.SafeTitle | app/crawler.py:15 | The sanitised title has the title's length and contains no `/` and no space. Each `/` or space becomes `_`, and every other character is kept. |
| PageStore.SafeTitleIdempotent | app/crawler.py:15 | Sanitising a sanitised title changes nothing. |
| PageStore.FileName | app/crawler.py:16 | The file name is the sanitised title followed by `.html`. It contains no `/`, so on a Linux file system the write lands directly in the output directory. |
| PageStore.UntitledFileName | app/crawler.py:28 | A page with no title element is written to `untitled.html`. |
| PageStore.FileNameCollision | app/crawler.py:15-16 | Two titles share a file name exactly when they have the same length and agree everywhere once `/` and space count as `_`. On a case-sensitive file system that does not normalise names, equal names are exactly the names of one file. |
| PageStore.Save | app/crawler.py:16-17 | After a write, the directory maps the title's file name to the content, and every other entry is as before. A same-named earlier page is overwritten. |
| CrawlSpec.TitleOf | app/crawler.py:28 | Defines the title a page is saved under: `untitled` without a title element, the element's single string otherwise. It is None when the element has no single string, which stands for the `AttributeError` that `replace` on None raises at line 15. |
| CrawlSpec.CrawlFrom | app/crawler.py:19-29 | `visited` only grows, by exactly the URLs fetched. No URL is fetched twice, and none that was visited before the call. Each fetched URL is in the universe. A new URL is the first one fetched. |
| CrawlSpec.CrawlAnchors | app/crawler.py:31-35 | The anchor loop keeps the same invariants: `visited` grows by exactly the fetched URLs, with no URL fetched twice and none fetched that was already visited. |
| CrawlSpec.VisitedIsNoOp | app/crawler.py:20-21 | A call on a visited URL fetches nothing and leaves `visited` and the directory unchanged. A call on any other URL fetches something. |
| CrawlProperties.FetchCount | app/crawler.py:19-25 | The number of fetches equals the number of newly visited URLs. It is at most the number of URLs of the universe not yet visited. |
| CrawlProperties.PageProvenance | app/crawler.py:31-35 | After the first, every URL a crawl fetches is a link of a page the same crawl fetched earlier. |
| CrawlProperties.AnchorsProvenance | app/crawler.py:31-35 | Every URL the anchor loop fetches is one of the page's links, or a link of a page fetched earlier in the loop. |
| CrawlProperties.InBoundary | app/crawler.py:11-12 | Every URL a crawl recurses into starts with BASE_URL. It equals `urljoin(BASE_URL, h)` for an `href` `h` that is non-empty and whose authority is empty or `uniapp.dcloud.io`. |
| CrawlProperties.CrawlComplete | app/crawler.py:19-35 | A crawl that returns normally has visited its start URL and every followed link of every page it fetched. |
| CrawlProperties.AnchorsComplete | app/crawler.py:31-35 | An anchor loop that returns normally has visited every followed link of its anchors and every followed link of every page it fetched. |
| CrawlProperties.ReachableFetched | app/crawler.py:19-35 | A crawl that returns normally fetches the end of every chain of links from its start whose URLs were all unvisited. |
| CrawlProperties.FetchedReachable | app/crawler.py:19-35 | Every URL a crawl fetches is the end of such a chain of links from its start. |
| CrawlProperties.FetchedExactlyReachable | app/crawler.py:19-35 | A crawl that returns normally fetches exactly the URLs reachable from its start through links not visited before it. |
| CrawlProperties.AnchorsFirstFetch | app/crawler.py:31-35 | The loop's first fetch is the first anchor, in document order, that passes the filter and leads to an unvisited URL. |
| CrawlProperties.AnchorsSkipTo | app/crawler.py:31-35 | The loop passes over the anchors before the first followed one whose URL is new. It then crawls that anchor's whole subtree and, unless that raised, goes on with the anchors after it. |
| CrawlProperties.NextFetch | app/crawler.py:31-35 | Right after a page, the crawl fetches the first of its followed links, in document order, that was not yet visited. That link's whole subtree is fetched next, before any later sibling: depth-first order. |
| CrawlProperties.SaveFetched | app/crawler.py:28-29 | Saving a fetched page writes its text under its file name and leaves every other name alone. A page whose title raises writes nothing. |
| CrawlProperties.SaveAllAppend | app/crawler.py:29 | Saving the pages of `a + b` equals saving those of `a`, then those of `b`. |
| CrawlProperties.StoreReplaysFetches | app/crawler.py:19-29 | The directory a crawl leaves is the starting directory with every fetched page saved in fetch order. |
| CrawlProperties.AnchorsReplayFetches | app/crawler.py:31-35 | The directory the anchor loop leaves is its starting directory with every page it fetched saved in fetch order. |
| CrawlProperties.SaveAllUntouched | app/crawler.py:16-17 | A file name that no saved page uses keeps its earlier content, or stays absent. |
| CrawlProperties.SaveAllLastWins | app/crawler.py:16-17 | Under each file name, the directory holds the text of the last page saved under that name. |
| CrawlProperties.SavedPages | app/crawler.py:28-29 | After a crawl, every fetched page that could be saved is in the directory under its name. It holds the text of the last fetched page of that name. A page without a title element is found under `untitled.html`. |
| Crawler.Crawler.constructor | app/crawler.py:9 | A new process starts with nothing visited and nothing fetched. Its output directory is the given one that earlier runs left, because `os.makedirs(..., exist_ok=True)` at line 38 keeps existing files. |
| Crawler.Crawler.SavePage | app/crawler.py:14-17 | `save_page` replaces the directory with `Save` of the old one and changes nothing else. |
| Crawler.Crawler.CrawlPage | app/crawler.py:19-29 | The method leaves `visited`, the directory and the fetch log as `CrawlFrom` of the old state gives them. Its result says whether the call returned normally. So the call fetches no URL twice, and `visited` only grows. |
| Crawler.Crawler.FollowAnchors | app/crawler.py:31-35 | The loop leaves `visited`, the directory and the fetch log as `CrawlAnchors` of the old state gives them. |
| Crawler.MirrorSite | app/crawler.py:37-39 | The script's run from BASE_URL, with an empty `visited` and the output directory `dir0` it finds, ends in the state `CrawlFrom(site, BASE_URL, {}, dir0)`. Together with `SaveAllUntouched`, files in `dir0` that no crawled page overwrites are kept. |

## Left out

- `app/translate.py`, all of it: a script that loads an API key, reads each saved file, flattens it to text and sends it to an external translation service. It has no logic of its own to model.
- `requests.get` and the HTML parser are replaced by the total function `Site.fetch`, which assumes every request returns. The call at app/crawler.py:25 has no timeout, so one request that never answers blocks the crawl forever; that is not modelled. A transport exception from `requests.get` would end the crawl, and that is not modelled either. The HTTP status code is ignored by the source too.
- The internals of `urljoin` and `urlparse` are left uninterpreted as `UrlLib`. A `ValueError` they may raise on a malformed host is not modelled.
- File I/O and `os.makedirs`: the output directory is a map. Errors from `open` (a name too long, a NUL character in the title) are not modelled.
- The directory map compares file names exactly, as a case-sensitive file system that does not normalise names does (the usual Linux file systems). The model does not describe other file systems:
  - On a case-insensitive volume (the default on macOS and Windows), titles such as `API` and `api` open one file. The later page then overwrites the earlier one, so `FileNameCollision`, `SaveAllUntouched` and `SaveAllLastWins` do not describe the disk there.
  - macOS also treats the NFC and NFD spellings of a title as one name.
  - On Windows, a `\` in a title is a path separator, so that write does not land directly in the output directory.
  - On Windows, text mode also writes each `\n` of the page as `\r\n`.
- The `print` progress line.
- Python's recursion depth limit: a chain of nested `crawl_page` calls deep enough to raise `RecursionError` is not modelled.
- Sites with infinitely many reachable URLs: no finite universe is closed for them. On such a site the script either never ends, or ends when an exception is raised, for example by a title without a single string. Neither run is described by the model, which requires the finite, closed universe described above.
