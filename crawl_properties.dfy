/**
 * Properties of a crawl run that relate several steps of it: how many pages
 * are fetched, where every fetched URL comes from, the order of the fetches,
 * and what the output directory holds at the end.
 */
module CrawlProperties {
  import opened Wrappers
  import opened LinkFilter
  import opened PageStore
  import opened CrawlSpec

  // ---------------------------------------------------------------------
  // At most one fetch per URL

  lemma {:induction false} NoDupCard(s: seq<string>)
    requires NoDup(s)
    ensures |set x | x in s| == |s|
  {
    if s != [] {
      NoDupCard(s[1..]);
      assert (set x | x in s) == (set x | x in s[1..]) + {s[0]};
      assert s[0] !in (set x | x in s[1..]);
    }
  }

  /**
   * A crawl fetches exactly one page per URL it newly visits, so no more pages
   * than the universe has URLs not yet visited.
   */
  lemma FetchCount(site: Site, url: string, visited: set<string>, store: map<string, string>)
    requires Closed(site) && url in site.universe
    ensures var r := CrawlFrom(site, url, visited, store);
      |r.fetched| == |r.visited - visited| <= |site.universe - visited|
  {
    var r := CrawlFrom(site, url, visited, store);
    assert r.visited - visited == set x | x in r.fetched;
    NoDupCard(r.fetched);
    SubsetCard(r.visited - visited, site.universe - visited);
  }

  // ---------------------------------------------------------------------
  // Where fetched URLs come from

  ghost predicate LinkedEarlier(site: Site, f: seq<string>, i: int)
    requires 0 <= i < |f|
  {
    exists j :: 0 <= j < i && f[i] in Children(site, f[j])
  }

  /** After the first, every URL of `f` is a link of a page listed before it. */
  ghost predicate FromEarlier(site: Site, f: seq<string>)
  {
    forall i :: 0 < i < |f| ==> LinkedEarlier(site, f, i)
  }

  /** Every URL of `f` is one of `links` or a link of a page listed before it. */
  ghost predicate FromLinksOrEarlier(site: Site, links: seq<string>, f: seq<string>)
  {
    forall i :: 0 <= i < |f| ==> f[i] in links || LinkedEarlier(site, f, i)
  }

  /** A page fetched before the fetches of its anchor loop is where those fetches come from. */
  lemma ConsProvenance(site: Site, url: string, g: seq<string>)
    requires FromLinksOrEarlier(site, Children(site, url), g)
    ensures FromEarlier(site, [url] + g)
  {
    var f := [url] + g;
    forall i | 0 < i < |f| ensures LinkedEarlier(site, f, i) {
      assert f[i] == g[i - 1];
      if g[i - 1] in Children(site, url) {
        assert f[i] in Children(site, f[0]);
      } else {
        assert LinkedEarlier(site, g, i - 1);
        var j :| 0 <= j < i - 1 && g[i - 1] in Children(site, g[j]);
        assert f[j + 1] == g[j];
      }
    }
  }

  /**
   * The fetches of one crawl that starts at one of `links`, followed by
   * fetches that come from a part of `links` or from pages before them.
   */
  lemma ConcatProvenance(site: Site, links: seq<string>, later: seq<string>, a: seq<string>, b: seq<string>)
    requires a != [] ==> a[0] in links && FromEarlier(site, a)
    requires forall v :: v in later ==> v in links
    requires FromLinksOrEarlier(site, later, b)
    ensures FromLinksOrEarlier(site, links, a + b)
  {
    var f := a + b;
    var n := |a|;
    forall i | 0 <= i < |f| ensures f[i] in links || LinkedEarlier(site, f, i) {
      if i < n {
        assert f[i] == a[i];
        if i > 0 {
          assert LinkedEarlier(site, a, i);
          var j :| 0 <= j < i && a[i] in Children(site, a[j]);
          assert f[j] == a[j];
        }
      } else {
        assert f[i] == b[i - n];
        if b[i - n] !in later {
          assert LinkedEarlier(site, b, i - n);
          var j :| 0 <= j < i - n && b[i - n] in Children(site, b[j]);
          assert f[j + n] == b[j];
        }
      }
    }
  }

  /**
   * After the first, every URL a crawl fetches is a link of a page the same
   * crawl fetched before it.
   */
  lemma {:induction false} PageProvenance(site: Site, url: string, visited: set<string>, store: map<string, string>)
    requires Closed(site) && url in site.universe
    ensures FromEarlier(site, CrawlFrom(site, url, visited, store).fetched)
    decreases |site.universe - visited|, 0, 0
  {
    if url !in visited {
      var page := site.fetch(url);
      if TitleOf(page.title).Some? {
        var saved := Save(store, TitleOf(page.title).value, page.text);
        DiffStrict(site.universe, visited, url);
        AnchorsProvenance(site, page.hrefs, visited + {url}, saved);
        ConsProvenance(site, url, CrawlAnchors(site, page.hrefs, visited + {url}, saved).fetched);
      }
    }
  }

  /** Every URL the anchor loop fetches is one of the anchors' links or a link of a page fetched before it. */
  lemma {:induction false} AnchorsProvenance(site: Site, hrefs: seq<string>, visited: set<string>, store: map<string, string>)
    requires Closed(site) && LinksIn(site, hrefs)
    ensures FromLinksOrEarlier(site, Links(site.lib, hrefs), CrawlAnchors(site, hrefs, visited, store).fetched)
    decreases |site.universe - visited|, 1, |hrefs|
  {
    if hrefs != [] {
      assert forall h :: h in hrefs[1..] ==> h in hrefs;
      var links := Links(site.lib, hrefs);
      var later := Links(site.lib, hrefs[1..]);
      assert forall v :: v in later ==> v in links;
      if Follows(site.lib, hrefs[0]) {
        var target := Resolve(site.lib, hrefs[0]);
        var first := CrawlFrom(site, target, visited, store);
        PageProvenance(site, target, visited, store);
        assert target in links;
        if first.ok {
          DiffShrinks(site.universe, visited, first.visited);
          var rest := CrawlAnchors(site, hrefs[1..], first.visited, first.store);
          AnchorsProvenance(site, hrefs[1..], first.visited, first.store);
          ConcatProvenance(site, links, later, first.fetched, rest.fetched);
        } else {
          ConcatProvenance(site, links, later, first.fetched, []);
          assert first.fetched + [] == first.fetched;
        }
      } else {
        AnchorsProvenance(site, hrefs[1..], visited, store);
      }
    }
  }

  /**
   * Every URL a crawl recurses into starts with BASE_URL and is the
   * resolution, against BASE_URL, of a followed reference: non-empty, with an
   * authority that is empty or the site's host.
   */
  lemma InBoundary(site: Site, url: string, visited: set<string>, store: map<string, string>)
    requires Closed(site) && url in site.universe
    ensures forall i :: 0 < i < |CrawlFrom(site, url, visited, store).fetched| ==>
      var u := CrawlFrom(site, url, visited, store).fetched[i];
      StartsWith(u, BASE_URL) &&
      exists h :: h != [] && (site.lib.netloc(h) == "" || site.lib.netloc(h) == HOST) &&
                  u == site.lib.urljoin(BASE_URL, h)
  {
    var f := CrawlFrom(site, url, visited, store).fetched;
    PageProvenance(site, url, visited, store);
    assert forall k :: 0 < k < |f| ==> LinkedEarlier(site, f, k);
    forall i | 0 < i < |f|
      ensures StartsWith(f[i], BASE_URL)
      ensures exists h :: h != [] && (site.lib.netloc(h) == "" || site.lib.netloc(h) == HOST) &&
                          f[i] == site.lib.urljoin(BASE_URL, h)
    {
      assert LinkedEarlier(site, f, i);
      var j :| 0 <= j < i && f[i] in Children(site, f[j]);
      var h :| h in site.fetch(f[j]).hrefs && Follows(site.lib, h) && Resolve(site.lib, h) == f[i];
    }
  }

  // ---------------------------------------------------------------------
  // Every followed link is reached

  /** Every link of a page the run fetched is visited when the run ends. */
  ghost predicate LinksVisited(site: Site, r: Run)
  {
    forall u, v :: u in r.fetched && v in Children(site, u) ==> v in r.visited
  }

  /**
   * A crawl that returns normally has visited its start URL and every link of
   * every page it fetched; `FetchedExactlyReachable` builds on it.
   */
  lemma {:induction false} CrawlComplete(site: Site, url: string, visited: set<string>, store: map<string, string>)
    requires Closed(site) && url in site.universe
    ensures CrawlFrom(site, url, visited, store).ok ==>
      url in CrawlFrom(site, url, visited, store).visited &&
      LinksVisited(site, CrawlFrom(site, url, visited, store))
    decreases |site.universe - visited|, 0, 0
  {
    if url !in visited {
      var page := site.fetch(url);
      if TitleOf(page.title).Some? {
        var saved := Save(store, TitleOf(page.title).value, page.text);
        DiffStrict(site.universe, visited, url);
        AnchorsComplete(site, page.hrefs, visited + {url}, saved);
      }
    }
  }

  /**
   * An anchor loop that returns normally has visited every link of its
   * anchors and every link of every page it fetched.
   */
  lemma {:induction false} AnchorsComplete(site: Site, hrefs: seq<string>, visited: set<string>, store: map<string, string>)
    requires Closed(site) && LinksIn(site, hrefs)
    ensures CrawlAnchors(site, hrefs, visited, store).ok ==>
      (forall v :: v in Links(site.lib, hrefs) ==> v in CrawlAnchors(site, hrefs, visited, store).visited) &&
      LinksVisited(site, CrawlAnchors(site, hrefs, visited, store))
    decreases |site.universe - visited|, 1, |hrefs|
  {
    if hrefs != [] {
      assert forall h :: h in hrefs[1..] ==> h in hrefs;
      if Follows(site.lib, hrefs[0]) {
        var target := Resolve(site.lib, hrefs[0]);
        var first := CrawlFrom(site, target, visited, store);
        CrawlComplete(site, target, visited, store);
        if first.ok {
          DiffShrinks(site.universe, visited, first.visited);
          AnchorsComplete(site, hrefs[1..], first.visited, first.store);
        }
      } else {
        AnchorsComplete(site, hrefs[1..], visited, store);
      }
    }
  }

  /**
   * A chain of links that avoids `visited`: each URL after the first is a
   * link of the page before it, and none was visited.
   */
  ghost predicate Path(site: Site, visited: set<string>, p: seq<string>)
  {
    |p| > 0 &&
    (forall i :: 0 <= i < |p| ==> p[i] !in visited) &&
    (forall i :: 0 < i < |p| ==> p[i] in Children(site, p[i - 1]))
  }

  /** `v` can be reached from `url` through links, none of them visited. */
  ghost predicate Reachable(site: Site, visited: set<string>, url: string, v: string)
  {
    exists p :: Path(site, visited, p) && p[0] == url && p[|p| - 1] == v
  }

  /** A crawl that returns normally fetches the end of every unvisited chain of links from its start. */
  lemma {:induction false} ReachableFetched(site: Site, url: string, visited: set<string>, store: map<string, string>, p: seq<string>)
    requires Closed(site) && url in site.universe
    requires Path(site, visited, p) && p[0] == url
    ensures CrawlFrom(site, url, visited, store).ok ==> p[|p| - 1] in CrawlFrom(site, url, visited, store).fetched
    decreases |p|
  {
    var r := CrawlFrom(site, url, visited, store);
    if r.ok && |p| > 1 {
      var q := p[..|p| - 1];
      assert Path(site, visited, q);
      ReachableFetched(site, url, visited, store, q);
      CrawlComplete(site, url, visited, store);
      assert p[|p| - 1] in Children(site, q[|q| - 1]);
    }
  }

  /** A path extended by one unvisited link of its last page is a path. */
  lemma PathExtend(site: Site, visited: set<string>, p: seq<string>, v: string)
    requires Path(site, visited, p) && v !in visited && v in Children(site, p[|p| - 1])
    ensures Path(site, visited, p + [v]) && (p + [v])[0] == p[0] && (p + [v])[|p|] == v
  {
  }

  /**
   * In a list of unvisited URLs that starts with `url` and where each later
   * URL is a link of an earlier one, every URL is reachable from `url`.
   */
  lemma {:induction false} EarlierReachable(site: Site, visited: set<string>, url: string, f: seq<string>, i: nat)
    requires FromEarlier(site, f) && i < |f| && f[0] == url
    requires forall k :: 0 <= k < |f| ==> f[k] !in visited
    ensures Reachable(site, visited, url, f[i])
    decreases i
  {
    if i == 0 {
      assert Path(site, visited, [url]);
    } else {
      assert LinkedEarlier(site, f, i);
      var j :| 0 <= j < i && f[i] in Children(site, f[j]);
      EarlierReachable(site, visited, url, f, j);
      var p :| Path(site, visited, p) && p[0] == url && p[|p| - 1] == f[j];
      PathExtend(site, visited, p, f[i]);
    }
  }

  /** Every URL a crawl fetches is reachable from its start through unvisited links. */
  lemma FetchedReachable(site: Site, url: string, visited: set<string>, store: map<string, string>, i: nat)
    requires Closed(site) && url in site.universe
    requires i < |CrawlFrom(site, url, visited, store).fetched|
    ensures Reachable(site, visited, url, CrawlFrom(site, url, visited, store).fetched[i])
  {
    VisitedIsNoOp(site, url, visited, store);
    PageProvenance(site, url, visited, store);
    EarlierReachable(site, visited, url, CrawlFrom(site, url, visited, store).fetched, i);
  }

  /**
   * A crawl that returns normally fetches exactly the URLs reachable from its
   * start through links that were not visited before it.
   */
  lemma FetchedExactlyReachable(site: Site, url: string, visited: set<string>, store: map<string, string>)
    requires Closed(site) && url in site.universe
    ensures CrawlFrom(site, url, visited, store).ok ==>
      forall v :: v in CrawlFrom(site, url, visited, store).fetched <==> Reachable(site, visited, url, v)
  {
    var f := CrawlFrom(site, url, visited, store).fetched;
    forall v | v in f
      ensures Reachable(site, visited, url, v)
    {
      var i :| 0 <= i < |f| && f[i] == v;
      FetchedReachable(site, url, visited, store, i);
    }
    forall v | Reachable(site, visited, url, v)
      ensures CrawlFrom(site, url, visited, store).ok ==> v in f
    {
      var p :| Path(site, visited, p) && p[0] == url && p[|p| - 1] == v;
      ReachableFetched(site, url, visited, store, p);
    }
  }

  // ---------------------------------------------------------------------
  // Document order

  /**
   * The anchor loop's first fetch is the first anchor, in document order,
   * that is followed and leads to a URL not yet visited.
   */
  lemma {:induction false} AnchorsFirstFetch(site: Site, hrefs: seq<string>, visited: set<string>, store: map<string, string>, k: nat)
    requires Closed(site) && LinksIn(site, hrefs)
    requires k < |hrefs| && Follows(site.lib, hrefs[k]) && Resolve(site.lib, hrefs[k]) !in visited
    requires forall i :: 0 <= i < k && Follows(site.lib, hrefs[i]) ==> Resolve(site.lib, hrefs[i]) in visited
    ensures var f := CrawlAnchors(site, hrefs, visited, store).fetched;
      |f| > 0 && f[0] == Resolve(site.lib, hrefs[k])
  {
    assert forall h :: h in hrefs[1..] ==> h in hrefs;
    if k > 0 {
      AnchorsFirstFetch(site, hrefs[1..], visited, store, k - 1);
    }
  }

  /**
   * The anchor loop passes over every anchor before the first followed one
   * whose URL is new, then crawls that one's whole subtree and, unless that
   * raised, goes on with the anchors after it.
   */
  lemma {:induction false} AnchorsSkipTo(site: Site, hrefs: seq<string>, visited: set<string>, store: map<string, string>, k: nat)
    requires Closed(site) && LinksIn(site, hrefs)
    requires k < |hrefs| && Follows(site.lib, hrefs[k]) && Resolve(site.lib, hrefs[k]) !in visited
    requires forall i :: 0 <= i < k && Follows(site.lib, hrefs[i]) ==> Resolve(site.lib, hrefs[i]) in visited
    ensures Resolve(site.lib, hrefs[k]) in site.universe && LinksIn(site, hrefs[k + 1..])
    ensures var c := CrawlFrom(site, Resolve(site.lib, hrefs[k]), visited, store);
      CrawlAnchors(site, hrefs, visited, store) ==
        if c.ok then Then(c, CrawlAnchors(site, hrefs[k + 1..], c.visited, c.store)) else c
  {
    assert forall h :: h in hrefs[1..] ==> h in hrefs;
    assert hrefs[k] in hrefs;
    assert forall h :: h in hrefs[k + 1..] ==> h in hrefs;
    if k > 0 {
      if Follows(site.lib, hrefs[0]) {
        VisitedIsNoOp(site, Resolve(site.lib, hrefs[0]), visited, store);
        var rest := CrawlAnchors(site, hrefs[1..], visited, store);
        assert [] + rest.fetched == rest.fetched;
      }
      AnchorsSkipTo(site, hrefs[1..], visited, store, k - 1);
      assert hrefs[1..][k - 1] == hrefs[k];
      assert hrefs[1..][k..] == hrefs[k + 1..];
    }
  }

  /**
   * Right after the page at `url`, a crawl fetches the page of its first
   * followed anchor, in document order, whose URL was new; that page's own
   * subtree comes before any later sibling.
   */
  lemma NextFetch(site: Site, url: string, visited: set<string>, store: map<string, string>, k: nat)
    requires Closed(site) && url in site.universe && url !in visited
    requires TitleOf(site.fetch(url).title).Some?
    requires var hrefs := site.fetch(url).hrefs;
      k < |hrefs| && Follows(site.lib, hrefs[k]) && Resolve(site.lib, hrefs[k]) !in visited + {url} &&
      forall i :: 0 <= i < k && Follows(site.lib, hrefs[i]) ==> Resolve(site.lib, hrefs[i]) in visited + {url}
    ensures var f := CrawlFrom(site, url, visited, store).fetched;
      |f| > 1 && f[0] == url && f[1] == Resolve(site.lib, site.fetch(url).hrefs[k])
    ensures var page := site.fetch(url);
      var c := CrawlFrom(site, Resolve(site.lib, page.hrefs[k]), visited + {url},
                         Save(store, TitleOf(page.title).value, page.text));
      var f := CrawlFrom(site, url, visited, store).fetched;
      1 + |c.fetched| <= |f| && f[1..1 + |c.fetched|] == c.fetched
  {
    var page := site.fetch(url);
    var title := TitleOf(page.title).value;
    var saved := Save(store, title, page.text);
    AnchorsSkipTo(site, page.hrefs, visited + {url}, saved, k);
    var c := CrawlFrom(site, Resolve(site.lib, page.hrefs[k]), visited + {url}, saved);
    PageThenLoop(site, url, visited, store);
    PrefixAfterHead(url, CrawlAnchors(site, page.hrefs, visited + {url}, saved).fetched, c.fetched);
  }

  /** A new URL whose title can be saved is fetched, then its anchor loop runs. */
  lemma PageThenLoop(site: Site, url: string, visited: set<string>, store: map<string, string>)
    requires Closed(site) && url in site.universe && url !in visited
    requires TitleOf(site.fetch(url).title).Some?
    ensures LinksIn(site, site.fetch(url).hrefs)
    ensures var page := site.fetch(url);
      CrawlFrom(site, url, visited, store).fetched ==
        [url] + CrawlAnchors(site, page.hrefs, visited + {url}, Save(store, TitleOf(page.title).value, page.text)).fetched
  {
  }

  lemma PrefixAfterHead(u: string, s: seq<string>, p: seq<string>)
    requires |p| <= |s| && s[..|p|] == p
    ensures 1 + |p| <= |[u] + s| && ([u] + s)[1..1 + |p|] == p
  {
    assert ([u] + s)[1..] == s;
  }

  // ---------------------------------------------------------------------
  // The output directory

  /** The file name the page at `u` is saved under, None when saving it raises. */
  function SavedName(site: Site, u: string): Option<string>
  {
    match TitleOf(site.fetch(u).title)
    case None => None
    case Some(t) => Some(FileName(t))
  }

  /** `save_page` for the page at `u`; nothing is written when it raises. */
  function SaveFetched(site: Site, store: map<string, string>, u: string): (r: map<string, string>)
    ensures SavedName(site, u).Some? ==>
              SavedName(site, u).value in r && r[SavedName(site, u).value] == site.fetch(u).text
    ensures forall k :: Some(k) != SavedName(site, u) ==>
              (k in r <==> k in store) && (k in store ==> r[k] == store[k])
  {
    match TitleOf(site.fetch(u).title)
    case None => store
    case Some(t) => Save(store, t, site.fetch(u).text)
  }

  /** Saves the pages of `urls` one after another, as `save_page` would. */
  function SaveAll(site: Site, store: map<string, string>, urls: seq<string>): map<string, string>
    decreases |urls|
  {
    if urls == [] then store else SaveAll(site, SaveFetched(site, store, urls[0]), urls[1..])
  }

  lemma {:induction false} SaveAllAppend(site: Site, store: map<string, string>, a: seq<string>, b: seq<string>)
    ensures SaveAll(site, store, a + b) == SaveAll(site, SaveAll(site, store, a), b)
    decreases |a|
  {
    if a == [] {
      assert a + b == b;
    } else {
      assert (a + b)[0] == a[0] && (a + b)[1..] == a[1..] + b;
      SaveAllAppend(site, SaveFetched(site, store, a[0]), a[1..], b);
    }
  }

  /**
   * The output directory a crawl leaves is the one it started with, with every
   * fetched page saved in fetch order.
   */
  lemma {:induction false} StoreReplaysFetches(site: Site, url: string, visited: set<string>, store: map<string, string>)
    requires Closed(site) && url in site.universe
    ensures var r := CrawlFrom(site, url, visited, store); r.store == SaveAll(site, store, r.fetched)
    decreases |site.universe - visited|, 0, 0
  {
    if url !in visited {
      var page := site.fetch(url);
      if TitleOf(page.title).Some? {
        var title := TitleOf(page.title).value;
        DiffStrict(site.universe, visited, url);
        var saved := Save(store, title, page.text);
        var rest := CrawlAnchors(site, page.hrefs, visited + {url}, saved);
        assert CrawlFrom(site, url, visited, store) == Run(rest.visited, rest.store, [url] + rest.fetched, rest.ok);
        AnchorsReplayFetches(site, page.hrefs, visited + {url}, saved);
        SaveAllAppend(site, store, [url], rest.fetched);
        assert SaveFetched(site, store, url) == saved;
        assert SaveAll(site, store, [url]) == SaveAll(site, saved, []);
      } else {
        assert SaveFetched(site, store, url) == store;
        assert SaveAll(site, store, [url]) == SaveAll(site, store, []);
      }
    }
  }

  lemma {:induction false} AnchorsReplayFetches(site: Site, hrefs: seq<string>, visited: set<string>, store: map<string, string>)
    requires Closed(site) && LinksIn(site, hrefs)
    ensures var r := CrawlAnchors(site, hrefs, visited, store); r.store == SaveAll(site, store, r.fetched)
    decreases |site.universe - visited|, 1, |hrefs|
  {
    if hrefs != [] {
      assert forall h :: h in hrefs[1..] ==> h in hrefs;
      if Follows(site.lib, hrefs[0]) {
        var target := Resolve(site.lib, hrefs[0]);
        var first := CrawlFrom(site, target, visited, store);
        StoreReplaysFetches(site, target, visited, store);
        if first.ok {
          DiffShrinks(site.universe, visited, first.visited);
          var rest := CrawlAnchors(site, hrefs[1..], first.visited, first.store);
          AnchorsReplayFetches(site, hrefs[1..], first.visited, first.store);
          SaveAllAppend(site, store, first.fetched, rest.fetched);
        }
      } else {
        AnchorsReplayFetches(site, hrefs[1..], visited, store);
      }
    }
  }

  /** A name no page in `urls` is saved under keeps its earlier content, or stays absent. */
  lemma {:induction false} SaveAllUntouched(site: Site, store: map<string, string>, urls: seq<string>, name: string)
    requires forall i :: 0 <= i < |urls| ==> SavedName(site, urls[i]) != Some(name)
    ensures var out := SaveAll(site, store, urls);
      (name in out <==> name in store) && (name in store ==> out[name] == store[name])
    decreases |urls|
  {
    if urls != [] {
      assert forall j :: 0 <= j < |urls| - 1 ==> urls[1..][j] == urls[j + 1];
      SaveAllUntouched(site, SaveFetched(site, store, urls[0]), urls[1..], name);
    }
  }

  /** Under each name, saving pages in order leaves the text of the last page saved under it. */
  lemma {:induction false} SaveAllLastWins(site: Site, store: map<string, string>, urls: seq<string>, name: string, i: nat)
    requires i < |urls| && SavedName(site, urls[i]) == Some(name)
    requires forall j :: i < j < |urls| ==> SavedName(site, urls[j]) != Some(name)
    ensures var out := SaveAll(site, store, urls); name in out && out[name] == site.fetch(urls[i]).text
    decreases |urls|
  {
    var next := SaveFetched(site, store, urls[0]);
    assert forall j :: 0 <= j < |urls| - 1 ==> urls[1..][j] == urls[j + 1];
    if i == 0 {
      SaveAllUntouched(site, next, urls[1..], name);
    } else {
      SaveAllLastWins(site, next, urls[1..], name, i - 1);
    }
  }

  /**
   * Every page a crawl fetched and saved is in the output directory under its
   * name, holding the text of the last fetched page of that name; in
   * particular a page without a title element is found under `untitled.html`.
   */
  lemma SavedPages(site: Site, url: string, visited: set<string>, store: map<string, string>, r: Run, i: nat)
    requires Closed(site) && url in site.universe && r == CrawlFrom(site, url, visited, store)
    requires i < |r.fetched| && SavedName(site, r.fetched[i]).Some?
    requires forall j :: i < j < |r.fetched| ==> SavedName(site, r.fetched[j]) != SavedName(site, r.fetched[i])
    ensures SavedName(site, r.fetched[i]).value in r.store
    ensures r.store[SavedName(site, r.fetched[i]).value] == site.fetch(r.fetched[i]).text
    ensures site.fetch(r.fetched[i]).title == NoTitle ==> SavedName(site, r.fetched[i]) == Some(UNTITLED + ".html")
  {
    var name := SavedName(site, r.fetched[i]).value;
    StoreReplaysFetches(site, url, visited, store);
    assert r.store == SaveAll(site, store, r.fetched);
    SaveAllLastWins(site, store, r.fetched, name, i);
    UntitledFileName();
  }
}
