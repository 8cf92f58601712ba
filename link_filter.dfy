/**
 * The link filter of the crawler: which discovered `href` values are followed,
 * and the absolute URL each one is followed to.
 *
 * URL resolution (`urljoin`) and authority extraction (`urlparse(..).netloc`)
 * are library code; they stay uninterpreted and are passed in as a `UrlLib`.
 */
module LinkFilter {

  /** The crawl root, also the prefix every followed URL must start with. */
  const BASE_URL: string := "https://uniapp.dcloud.io/"

  /** The only non-empty authority an internal link may carry. */
  const HOST: string := "uniapp.dcloud.io"

  /**
   * The URL library the crawler relies on:
   * `urljoin(base, ref)` resolves a reference against a base URL (section 5.2 of RFC 3986),
   * `netloc(ref)` is the authority component of a reference (section 3.2 of RFC 3986).
   */
  datatype UrlLib = UrlLib(urljoin: (string, string) -> string, netloc: string -> string)

  predicate StartsWith(s: string, prefix: string)
  {
    |prefix| <= |s| && s[..|prefix|] == prefix
  }

  /** `is_internal_link`: a non-empty reference whose authority is empty or the site's host. */
  predicate IsInternalLink(lib: UrlLib, href: string)
  {
    href != [] && (lib.netloc(href) == "" || lib.netloc(href) == HOST)
  }

  /** Every reference is resolved against BASE_URL, never against the page it was found on. */
  function Resolve(lib: UrlLib, href: string): string
  {
    lib.urljoin(BASE_URL, href)
  }

  /** The test the crawl loop applies to each anchor before recursing. */
  predicate Follows(lib: UrlLib, href: string)
  {
    IsInternalLink(lib, href) && StartsWith(Resolve(lib, href), BASE_URL)
  }

  /**
   * The URLs a page's anchors lead the crawler to, in document order,
   * one per followed reference (duplicates kept).
   */
  function Links(lib: UrlLib, hrefs: seq<string>): (r: seq<string>)
    ensures |r| <= |hrefs|
    ensures forall v :: v in r ==>
              StartsWith(v, BASE_URL) &&
              exists h :: h in hrefs && Follows(lib, h) && Resolve(lib, h) == v
    ensures forall h :: h in hrefs && Follows(lib, h) ==> Resolve(lib, h) in r
  {
    if hrefs == [] then []
    else
      var rest := Links(lib, hrefs[1..]);
      assert forall h :: h in hrefs[1..] ==> h in hrefs;
      if Follows(lib, hrefs[0]) then [Resolve(lib, hrefs[0])] + rest else rest
  }

  /**
   * The links of consecutive runs of anchors are the links of each, in the
   * same order: with the one-anchor case, which gives `[Resolve(lib, h)]` for
   * a followed `h` and `[]` otherwise, this fixes both order and multiplicity.
   */
  lemma {:induction false} LinksAppend(lib: UrlLib, a: seq<string>, b: seq<string>)
    ensures Links(lib, a + b) == Links(lib, a) + Links(lib, b)
  {
    if a == [] {
      assert a + b == b;
    } else {
      assert (a + b)[0] == a[0] && (a + b)[1..] == a[1..] + b;
      LinksAppend(lib, a[1..], b);
    }
  }

  /** One anchor leads to its resolved URL when it passes the filter, and nowhere otherwise. */
  lemma LinksOfOne(lib: UrlLib, h: string)
    ensures Links(lib, [h]) == if Follows(lib, h) then [Resolve(lib, h)] else []
  {
    assert [h][1..] == [];
  }
}
