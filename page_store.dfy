/**
 * The page store of the crawler: `save_page` turns a page title into a file
 * name and writes the page into the output directory. The directory is a map
 * from file name to content; a later write under the same name replaces the
 * earlier one.
 */
module PageStore {

  /** Name under which a page without a title element is saved. */
  const UNTITLED: string := "untitled"

  /** `s.replace(c, d)` for a single character `c`: every occurrence, left to right. */
  function ReplaceChar(s: string, c: char, d: char): (r: string)
    ensures |r| == |s|
    ensures forall i :: 0 <= i < |s| ==> r[i] == (if s[i] == c then d else s[i])
  {
    if s == [] then [] else [if s[0] == c then d else s[0]] + ReplaceChar(s[1..], c, d)
  }

  /** What sanitising does to one character. */
  function Sanitise(c: char): char
  {
    if c == '/' || c == ' ' then '_' else c
  }

  /** The sanitised title: slashes first, then spaces, each become an underscore. */
  function SafeTitle(title: string): (r: string)
    ensures |r| == |title|
    ensures '/' !in r && ' ' !in r
    ensures forall i :: 0 <= i < |title| ==> r[i] == Sanitise(title[i])
  {
    ReplaceChar(ReplaceChar(title, '/', '_'), ' ', '_')
  }

  /** Sanitising an already sanitised title changes nothing. */
  lemma SafeTitleIdempotent(title: string)
    ensures SafeTitle(SafeTitle(title)) == SafeTitle(title)
  {
  }

  /** The name of the file inside the output directory: `<safe title>.html`. */
  function FileName(title: string): (r: string)
    ensures |r| == |title| + 5
    ensures r[..|title|] == SafeTitle(title) && r[|title|..] == ".html"
    ensures '/' !in r
  {
    SafeTitle(title) + ".html"
  }

  /** A title without slash or space is its own sanitised form. */
  lemma SafeTitleOfClean(title: string)
    requires '/' !in title && ' ' !in title
    ensures SafeTitle(title) == title
  {
  }

  /** A page without a title element is written to `untitled.html`. */
  lemma UntitledFileName()
    ensures FileName(UNTITLED) == UNTITLED + ".html"
  {
    assert '/' !in UNTITLED && ' ' !in UNTITLED;
    SafeTitleOfClean(UNTITLED);
  }

  /**
   * Two titles are written to the same file exactly when they have the same
   * length and agree at every position once slashes and spaces count as
   * underscores: `a b`, `a/b` and `a_b` all become `a_b.html`.
   */
  lemma FileNameCollision(t1: string, t2: string)
    ensures FileName(t1) == FileName(t2) <==>
              |t1| == |t2| && forall i :: 0 <= i < |t1| ==> Sanitise(t1[i]) == Sanitise(t2[i])
  {
  }

  /** The output directory after `save_page(title, content)`. */
  function Save(store: map<string, string>, title: string, content: string): (r: map<string, string>)
    ensures FileName(title) in r && r[FileName(title)] == content
    ensures r.Keys == store.Keys + {FileName(title)}
    ensures forall k :: k in store && k != FileName(title) ==> r[k] == store[k]
  {
    store[FileName(title) := content]
  }
}
