/**
 * What one call of `crawl_page` does, as functions of the state before it.
 *
 * Fetching a URL and parsing the response are one given total function
 * `Site.fetch`. The crawl terminates because the site has a finite set of URLs,
 * `Site.universe`, that holds every URL a page of it leads to; each call either
 * returns at once or first adds a new URL of that universe to `visited`.
 */
module CrawlSpec {
  import opened Wrappers
  import opened LinkFilter
  import opened PageStore

  /**
   * The `<title>` element as the crawler reads it: absent, present with a
   * single string (`soup.title.string`), or present without one (no child,
   * several children, or one child element without a single string), in
   * which case `.string` is None.
   */
  datatype TitleTag = NoTitle | TitleString(text: string) | TitleWithoutString

  /** A fetched and parsed page: its title, its raw text, and the `href` of every anchor in document order. */
  datatype Page = Page(title: TitleTag, text: string, hrefs: seq<string>)

  datatype Site = Site(fetch: string -> Page, lib: UrlLib, universe: set<string>)

  /**
   * A run of `crawl_page`: the visited set and output directory it leaves,
   * the URLs it fetched in order, and whether it returned normally (false when
   * an exception left it).
   */
  datatype Run = Run(visited: set<string>, store: map<string, string>, fetched: seq<string>, ok: bool)

  /**
   * The title a page is saved under; None when `save_page` is handed None and
   * its `replace` raises.
   */
  function TitleOf(tag: TitleTag): Option<string>
  {
    match tag
    case NoTitle => Some(UNTITLED)
    case TitleString(s) => Some(s)
    case TitleWithoutString => None
  }

  ghost predicate LinksIn(site: Site, hrefs: seq<string>)
  {
    forall h :: h in hrefs && Follows(site.lib, h) ==> Resolve(site.lib, h) in site.universe
  }

  /** Every URL a page of the universe leads to is in the universe. */
  ghost predicate Closed(site: Site)
  {
    forall u :: u in site.universe ==> LinksIn(site, site.fetch(u).hrefs)
  }

  /** The URLs the page at `u` leads to, in document order. */
  function Children(site: Site, u: string): seq<string>
  {
    Links(site.lib, site.fetch(u).hrefs)
  }

  predicate NoDup(s: seq<string>)
  {
    forall i, j :: 0 <= i < j < |s| ==> s[i] != s[j]
  }

  lemma DiffShrinks(u: set<string>, a: set<string>, b: set<string>)
    requires a <= b
    ensures |u - b| <= |u - a|
  {
    assert u - b <= u - a;
    SubsetCard(u - b, u - a);
  }

  lemma DiffStrict(u: set<string>, a: set<string>, x: string)
    requires x in u && x !in a
    ensures |u - (a + {x})| < |u - a|
  {
    assert u - (a + {x}) == (u - a) - {x};
  }

  lemma {:induction false} SubsetCard(a: set<string>, b: set<string>)
    requires a <= b
    ensures |a| <= |b|
    decreases b
  {
    if a != {} {
      var x :| x in a;
      SubsetCard(a - {x}, b - {x});
    }
  }

  /** A run that completed `first` and then `rest`. */
  function Then(first: Run, rest: Run): Run
  {
    Run(rest.visited, rest.store, first.fetched + rest.fetched, rest.ok)
  }

  /** `crawl_page(url)` started with `visited` and the output directory `store`. */
  function CrawlFrom(site: Site, url: string, visited: set<string>, store: map<string, string>): (r: Run)
    requires Closed(site) && url in site.universe
    ensures visited <= r.visited
    ensures forall u :: u in r.visited <==> u in visited || u in r.fetched
    ensures NoDup(r.fetched)
    ensures forall i :: 0 <= i < |r.fetched| ==> r.fetched[i] !in visited && r.fetched[i] in site.universe
    ensures url !in visited ==> |r.fetched| > 0 && r.fetched[0] == url
    decreases |site.universe - visited|, 0, 0
  {
    if url in visited then Run(visited, store, [], true)
    else
      var page := site.fetch(url);
      match TitleOf(page.title)
      case None => Run(visited + {url}, store, [url], false)
      case Some(title) =>
        DiffStrict(site.universe, visited, url);
        var rest := CrawlAnchors(site, page.hrefs, visited + {url}, Save(store, title, page.text));
        Run(rest.visited, rest.store, [url] + rest.fetched, rest.ok)
  }

  /**
   * `crawl_page` on a URL already visited returns at once: it fetches
   * nothing, writes nothing and leaves `visited` as it was; on any other URL it
   * fetches at least that page.
   */
  lemma VisitedIsNoOp(site: Site, url: string, visited: set<string>, store: map<string, string>)
    requires Closed(site) && url in site.universe
    ensures url in visited <==> CrawlFrom(site, url, visited, store).fetched == []
    ensures url in visited ==> CrawlFrom(site, url, visited, store) == Run(visited, store, [], true)
  {
  }

  /**
   * The loop over a page's anchors, from the anchor `hrefs[0]` on: each
   * followed one is crawled in turn; an exception from one ends the loop.
   */
  function CrawlAnchors(site: Site, hrefs: seq<string>, visited: set<string>, store: map<string, string>): (r: Run)
    requires Closed(site) && LinksIn(site, hrefs)
    ensures visited <= r.visited
    ensures forall u :: u in r.visited <==> u in visited || u in r.fetched
    ensures NoDup(r.fetched)
    ensures forall i :: 0 <= i < |r.fetched| ==> r.fetched[i] !in visited && r.fetched[i] in site.universe
    decreases |site.universe - visited|, 1, |hrefs|
  {
    if hrefs == [] then Run(visited, store, [], true)
    else
      assert LinksIn(site, hrefs[1..]) by {
        assert forall h :: h in hrefs[1..] ==> h in hrefs;
      }
      if Follows(site.lib, hrefs[0]) then
        var first := CrawlFrom(site, Resolve(site.lib, hrefs[0]), visited, store);
        if !first.ok then first
        else
          DiffShrinks(site.universe, visited, first.visited);
          Then(first, CrawlAnchors(site, hrefs[1..], first.visited, first.store))
      else
        CrawlAnchors(site, hrefs[1..], visited, store)
  }

  // The two lemmas below unfold one step of CrawlAnchors at position i of the
  // anchors; the loop of Crawler.FollowAnchors uses them.

  /** The anchor loop passes over an anchor that is not followed. */
  lemma AnchorsSkip(site: Site, hrefs: seq<string>, i: nat, visited: set<string>, store: map<string, string>)
    requires Closed(site) && LinksIn(site, hrefs) && i < |hrefs| && !Follows(site.lib, hrefs[i])
    ensures LinksIn(site, hrefs[i..]) && LinksIn(site, hrefs[i + 1..])
    ensures CrawlAnchors(site, hrefs[i..], visited, store) == CrawlAnchors(site, hrefs[i + 1..], visited, store)
  {
  }

  /**
   * The anchor loop crawls a followed anchor and, unless that crawl raised,
   * goes on with the next anchor from the state it left.
   */
  lemma AnchorsFollow(site: Site, hrefs: seq<string>, i: nat, visited: set<string>, store: map<string, string>)
    requires Closed(site) && LinksIn(site, hrefs) && i < |hrefs| && Follows(site.lib, hrefs[i])
    ensures LinksIn(site, hrefs[i..]) && LinksIn(site, hrefs[i + 1..])
    ensures Resolve(site.lib, hrefs[i]) in site.universe
    ensures var first := CrawlFrom(site, Resolve(site.lib, hrefs[i]), visited, store);
      CrawlAnchors(site, hrefs[i..], visited, store) ==
        if first.ok then Then(first, CrawlAnchors(site, hrefs[i + 1..], first.visited, first.store)) else first
  {
  }

  /** Associativity of concatenation, stated for the proofs about the fetch log. */
  lemma ConcatAssoc(a: seq<string>, b: seq<string>, c: seq<string>)
    ensures a + b + c == a + (b + c)
  {
  }
}
