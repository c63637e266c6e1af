/**
 * get_search_results: the search URL built from the query, and the hrefs matched on the
 * results page turned into product links. Fetching and CSS selection are outside the
 * model; the matched hrefs arrive in document order.
 */
module SearchResults {

  const Origin := "https://www.amazon.com"
  const SearchPrefix := "https://www.amazon.com/s?k="

  /** `f"https://www.amazon.com/s?k={query}"`, the query embedded as it is. */
  function SearchUrl(query: string): (url: string)
    ensures SearchPrefix <= url
    ensures url[|SearchPrefix|..] == query
  {
    SearchPrefix + query
  }

  /** Different queries ask for different result pages. */
  lemma SearchUrlInjective(q1: string, q2: string)
    requires SearchUrl(q1) == SearchUrl(q2)
    ensures q1 == q2
  {
    assert q1 == SearchUrl(q1)[|SearchPrefix|..];
  }

  predicate StartsWithSlash(s: string) {
    |s| > 0 && s[0] == '/'
  }

  /** A site-relative href gets the origin in front; anything else passes through. */
  function NormalizeLink(href: string): (link: string)
    ensures StartsWithSlash(href) ==> link == Origin + href
    ensures !StartsWithSlash(href) ==> link == href
  {
    if StartsWithSlash(href) then Origin + href else href
  }

  /** Normalising a normalised link changes nothing. */
  lemma NormalizeLinkIdempotent(href: string)
    ensures NormalizeLink(NormalizeLink(href)) == NormalizeLink(href)
    ensures !StartsWithSlash(NormalizeLink(href))
  {
    if StartsWithSlash(href) {
      assert NormalizeLink(href)[0] == 'h';
    }
  }

  /** The harvested links: one per matched href, in the same order. */
  function Harvested(hrefs: seq<string>): (links: seq<string>)
    ensures |links| == |hrefs|
  {
    seq(|hrefs|, i requires 0 <= i < |hrefs| => NormalizeLink(hrefs[i]))
  }

  /** Harvesting a second time changes nothing. */
  lemma HarvestedIdempotent(hrefs: seq<string>)
    ensures Harvested(Harvested(hrefs)) == Harvested(hrefs)
  {
    forall i | 0 <= i < |hrefs|
      ensures Harvested(Harvested(hrefs))[i] == Harvested(hrefs)[i]
    {
      NormalizeLinkIdempotent(hrefs[i]);
    }
  }

  /** Lines 82-90: the loop that appends each (possibly rewritten) href. */
  method GetSearchResults(hrefs: seq<string>) returns (productLinks: seq<string>)
    ensures productLinks == Harvested(hrefs)
    ensures forall i :: 0 <= i < |hrefs| ==>
      productLinks[i] == (if StartsWithSlash(hrefs[i]) then Origin + hrefs[i] else hrefs[i])
  {
    productLinks := [];
    var i := 0;
    while i < |hrefs|
      invariant 0 <= i <= |hrefs|
      invariant productLinks == Harvested(hrefs)[..i]
    {
      var href := hrefs[i];
      if StartsWithSlash(href) {
        href := Origin + href;
      }
      productLinks := productLinks + [href];
      i := i + 1;
    }
  }
}
