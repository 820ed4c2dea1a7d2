/**
 * The listing adapters of history-brief/scrapers/html-scraper.js: one page
 * per site, at most five candidate elements, one item per element that has
 * a title and a link. The page fetch and the CSS selection are outside the
 * model: an adapter is given the texts picked out of each candidate element,
 * in document order, or the fetch failure.
 */
module HtmlScraper {
  import opened Wrappers
  import opened Text
  import opened DateUtils
  import opened Records
  import opened Links

  /** The constants of one adapter. */
  datatype Site = Site(name: string, origin: string, category: string, kind: string)

  const PassesComposes := Site("Pass\U{E9}s Compos\U{E9}s", "https://passes-composes.com", "Maison d'\U{E9}dition", "publisher")
  const Puf := Site("PUF", "https://www.puf.com", "Maison d'\U{E9}dition", "publisher")
  const Cnrs := Site("CNRS \U{C9}ditions", "https://www.cnrseditions.fr", "Maison d'\U{E9}dition", "publisher")
  const Ehess := Site("EHESS", "https://www.ehess.fr", "\U{C9}tablissement", "institution")

  /** Number of candidate elements examined. */
  const MaxItems := 5
  /** Longest description kept. */
  const MaxDescription := 200

  /** A candidate element, untrimmed: its first heading's text, its first anchor's `href`, its first paragraph's text. */
  datatype Element = Element(title: string, href: Option<string>, description: string)

  /** A url not starting with `http` gets the site origin in front. */
  function SiteUrl(site: Site, url: string): (u: string)
    ensures StartsWith(url, "http") ==> u == url
    ensures !StartsWith(url, "http") ==> u == site.origin + url
  {
    Resolve(LinkRule(site.origin, None, false), url)
  }

  /** The item of an element: none without a title or a link; dated with the clock. */
  function ElementItem(site: Site, el: Element, now: int): Option<Record> {
    var title := Trim(el.title);
    if title != "" && Truthy(el.href) then
      Some(Record(
        Some(title),
        Some(SiteUrl(site, el.href.value)),
        None,
        Take(Trim(el.description), MaxDescription),
        Instant(now),
        site.name,
        site.kind,
        Some(site.category)))
    else None
  }

  /** `ElementItem` as a function of the element. */
  function ItemMaker(site: Site, now: int): Element -> Option<Record> {
    el => ElementItem(site, el, now)
  }

  /** What an adapter returns: nothing when the page fails, else the items of the first five elements. */
  function HtmlOutput(site: Site, page: Result<seq<Element>>, now: int): seq<Record> {
    if page.Failure? then [] else FilterMap(Take(page.value, MaxItems), ItemMaker(site, now))
  }

  /** `scrapePassesComposes`, `scrapePUF`, `scrapeCNRSEditions` and `scrapeEHESS`, with the site's constants as `site`. */
  method ScrapeHtmlSite(site: Site, page: Result<seq<Element>>, now: int) returns (items: seq<Record>)
    ensures items == HtmlOutput(site, page, now)
  {
    if page.Failure? {
      return [];
    }
    var candidates := Take(page.value, MaxItems);
    ghost var f := ItemMaker(site, now);
    items := [];
    for i := 0 to |candidates|
      invariant items == FilterMap(candidates[..i], f)
    {
      FilterMapStep(candidates, i, f);
      var el := candidates[i];
      var title := Trim(el.title);
      var url := el.href;
      if title != "" && Truthy(url) {
        var u := url.value;
        if !StartsWith(u, "http") {
          u := site.origin + u;
        }
        items := items + [Record(
          Some(title),
          Some(u),
          None,
          Take(Trim(el.description), MaxDescription),
          Instant(now),
          site.name,
          site.kind,
          Some(site.category))];
      }
    }
    assert candidates[..|candidates|] == candidates;
  }

  /** Each adapter returns at most five items. */
  lemma AtMostFive(site: Site, page: Result<seq<Element>>, now: int)
    ensures |HtmlOutput(site, page, now)| <= MaxItems
  {
    if page.Success? {
      FilterMapLength(Take(page.value, MaxItems), ItemMaker(site, now));
    }
  }

  /** An element among the first five yields an item iff its trimmed title is non-empty and its link is present. */
  lemma ItemIff(site: Site, el: Element, now: int)
    ensures ElementItem(site, el, now).Some? <==> Trim(el.title) != "" && Truthy(el.href)
  {
  }

  /** Every item is one of the first five elements' items: dated now, with a title, a short description and the site's constants. */
  lemma ItemShape(site: Site, elements: seq<Element>, now: int, r: Record)
    requires r in HtmlOutput(site, Success(elements), now)
    ensures exists i :: (0 <= i < |elements| && i < MaxItems && ElementItem(site, elements[i], now) == Some(r))
    ensures r.date == Instant(now)
    ensures r.title.Some? && r.title.value != "" && r.url.Some?
    ensures |r.description| <= MaxDescription
    ensures r.source == site.name && r.kind == site.kind && r.category == Some(site.category)
  {
    var f := ItemMaker(site, now);
    var candidates := Take(elements, MaxItems);
    FilterMapMember(candidates, f, r);
    var i :| 0 <= i < |candidates| && f(candidates[i]) == Some(r);
    assert candidates[i] == elements[i];
    assert ElementItem(site, elements[i], now) == Some(r);
  }

  /** EHESS items are institutions filed under `Établissement`; the other sites give publishers filed under `Maison d'édition`. */
  lemma CategoryBySite(site: Site, elements: seq<Element>, now: int)
    requires site in {PassesComposes, Puf, Cnrs, Ehess}
    ensures site == Ehess ==> forall r :: r in HtmlOutput(site, Success(elements), now) ==>
      r.kind == "institution" && r.category == Some("\U{C9}tablissement")
    ensures site != Ehess ==> forall r :: r in HtmlOutput(site, Success(elements), now) ==>
      r.kind == "publisher" && r.category == Some("Maison d'\U{E9}dition")
  {
    forall r | r in HtmlOutput(site, Success(elements), now)
      ensures r.kind == site.kind && r.category == Some(site.category)
    {
      ItemShape(site, elements, now, r);
    }
  }
}
