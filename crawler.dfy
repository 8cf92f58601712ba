/**
 * The crawler itself: the module-level `visited` set and the output directory
 * as the state of one object, `save_page` and the recursive `crawl_page` as
 * methods that change it, and the script's entry point.
 */
module Crawler {
  import opened Wrappers
  import opened LinkFilter
  import opened PageStore
  import opened CrawlSpec

  /**
   * The anchor loop's whole run `whole` is the URLs `done` fetched so far
   * followed by the run `rest` of the anchors still to come.
   */
  ghost predicate Continues(whole: Run, done: seq<string>, rest: Run)
  {
    whole.visited == rest.visited && whole.store == rest.store &&
    whole.fetched == done + rest.fetched && whole.ok == rest.ok
  }

  class Crawler {
    /** The site as the crawler sees it: fetch-and-parse, the URL library, the finite URL universe. */
    const site: Site
    /** URLs whose crawl has begun; never shrinks. */
    var visited: set<string>
    /** The output directory, from file name to page text. */
    var store: map<string, string>
    /** Every URL fetched so far, in fetch order. */
    ghost var log: seq<string>

    /**
     * A fresh process: nothing visited, nothing fetched, and the output
     * directory as the previous runs left it (`os.makedirs` with `exist_ok`
     * keeps existing files).
     */
    constructor (site: Site, dir0: map<string, string>)
      ensures this.site == site && visited == {} && store == dir0 && log == []
    {
      this.site := site;
      visited := {};
      store := dir0;
      log := [];
    }

    /** `save_page(title, content)`: writes `<safe title>.html`, replacing any earlier file of that name. */
    method SavePage(title: string, content: string)
      modifies this
      ensures store == Save(old(store), title, content)
      ensures visited == old(visited) && log == old(log)
    {
      store := store[FileName(title) := content];
    }

    /**
     * `crawl_page(url)`. The result is false when an exception left the call
     * (a title element without a single string), which ends every enclosing
     * call too.
     */
    method CrawlPage(url: string) returns (ok: bool)
      requires Closed(site) && url in site.universe
      modifies this
      ensures visited == CrawlFrom(site, url, old(visited), old(store)).visited
      ensures store == CrawlFrom(site, url, old(visited), old(store)).store
      ensures log == old(log) + CrawlFrom(site, url, old(visited), old(store)).fetched
      ensures ok == CrawlFrom(site, url, old(visited), old(store)).ok
      decreases |site.universe - visited|, 0
    {
      if url in visited {
        assert log + [] == log;
        return true;
      }
      visited := visited + {url};
      var page := site.fetch(url);
      log := log + [url];
      var title := TitleOf(page.title);
      if title.None? {
        return false;
      }
      SavePage(title.value, page.text);
      DiffStrict(site.universe, old(visited), url);
      ok := FollowAnchors(page.hrefs);
      ConcatAssoc(old(log), [url], CrawlAnchors(site, page.hrefs, old(visited) + {url}, Save(old(store), title.value, page.text)).fetched);
    }

    /**
     * The loop of `crawl_page` over the page's anchors, in document order:
     * each reference that passes the link filter is crawled in turn; an
     * exception from one of those crawls ends the loop.
     */
    method FollowAnchors(hrefs: seq<string>) returns (ok: bool)
      requires Closed(site) && LinksIn(site, hrefs)
      modifies this
      ensures visited == CrawlAnchors(site, hrefs, old(visited), old(store)).visited
      ensures store == CrawlAnchors(site, hrefs, old(visited), old(store)).store
      ensures log == old(log) + CrawlAnchors(site, hrefs, old(visited), old(store)).fetched
      ensures ok == CrawlAnchors(site, hrefs, old(visited), old(store)).ok
      decreases |site.universe - visited|, 1
    {
      ghost var whole := CrawlAnchors(site, hrefs, visited, store);
      ghost var done: seq<string> := [];
      var i := 0;
      while i < |hrefs|
        invariant 0 <= i <= |hrefs|
        invariant old(visited) <= visited
        invariant log == old(log) + done
        invariant LinksIn(site, hrefs[i..])
        invariant Continues(whole, done, CrawlAnchors(site, hrefs[i..], visited, store))
      {
        var href := hrefs[i];
        var fullUrl := Resolve(site.lib, href);
        if IsInternalLink(site.lib, href) && StartsWith(fullUrl, BASE_URL) {
          AnchorsFollow(site, hrefs, i, visited, store);
          ghost var first := CrawlFrom(site, fullUrl, visited, store);
          DiffShrinks(site.universe, old(visited), visited);
          var childOk := CrawlPage(fullUrl);
          ConcatAssoc(old(log), done, first.fetched);
          if !childOk {
            return false;
          }
          ConcatAssoc(done, first.fetched, CrawlAnchors(site, hrefs[i + 1..], visited, store).fetched);
          done := done + first.fetched;
        } else {
          AnchorsSkip(site, hrefs, i, visited, store);
        }
        i := i + 1;
      }
      assert whole.fetched == done + [];
      assert done + [] == done;
      return true;
    }
  }

  /**
   * The script's entry point: a fresh crawler crawls the site from BASE_URL
   * into the output directory `dir0` that earlier runs left behind.
   */
  method MirrorSite(site: Site, dir0: map<string, string>) returns (crawler: Crawler, ok: bool)
    requires Closed(site) && BASE_URL in site.universe
    ensures fresh(crawler) && crawler.site == site
    ensures crawler.visited == CrawlFrom(site, BASE_URL, {}, dir0).visited
    ensures crawler.store == CrawlFrom(site, BASE_URL, {}, dir0).store
    ensures crawler.log == CrawlFrom(site, BASE_URL, {}, dir0).fetched
    ensures ok == CrawlFrom(site, BASE_URL, {}, dir0).ok
  {
    crawler := new Crawler(site, dir0);
    ok := crawler.CrawlPage(BASE_URL);
  }
}
