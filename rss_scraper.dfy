/**
 * `scrapeRSS` of histoire-digest/scrapers/rss-scraper.js: the items of a
 * feed that are undated or at most one day old, as records, the first five.
 * The feed fetch and parse are outside the model: the adapter is given the
 * parsed items, or the failure.
 */
module RssScraper {
  import opened Wrappers
  import opened Text
  import opened DateUtils
  import opened Records

  /** The source descriptor's fields the adapter copies. */
  datatype RssSource = RssSource(name: string, category: string, kind: string)

  /** Number of records kept per feed. */
  const MaxItems := 5

  /** The filter: an item without `pubDate` passes; a dated one passes iff its date is not before `subDays(now, 1)`. */
  predicate Recent(item: FeedItem, p: Platform) {
    !Truthy(item.pubDate)
    || (var t := TimeValue(DateObject(item.pubDate.value, p.parse), p);
        t.Some? && t.value >= p.daysBefore(p.now, 1))
  }

  /** The items that pass the filter, in feed order. */
  function Survivors(items: seq<FeedItem>, p: Platform): (r: seq<FeedItem>)
    ensures |r| <= |items|
    ensures forall x :: x in r <==> x in items && Recent(x, p)
  {
    if items == [] then []
    else
      var front := Survivors(items[..|items| - 1], p);
      var last := items[|items| - 1];
      assert items == items[..|items| - 1] + [last];
      front + (if Recent(last, p) then [last] else [])
  }

  /** One item survives alone iff it passes the filter. */
  lemma SurvivorsSingle(x: FeedItem, p: Platform)
    ensures Survivors([x], p) == if Recent(x, p) then [x] else []
  {
    assert [x][..0] == [];
  }

  /** The filter distributes over concatenation: survivors keep their feed order and their multiplicity. */
  lemma {:induction false} SurvivorsConcat(a: seq<FeedItem>, b: seq<FeedItem>, p: Platform)
    ensures Survivors(a + b, p) == Survivors(a, p) + Survivors(b, p)
    decreases |b|
  {
    if b == [] {
      assert a + b == a;
    } else {
      var front := b[..|b| - 1];
      var last := b[|b| - 1];
      SurvivorsConcat(a, front, p);
      assert (a + b)[..|a + b| - 1] == a + front;
      assert (a + b)[|a + b| - 1] == last;
    }
  }

  /** The map step: the record of one item. */
  function ToRecord(source: RssSource, item: FeedItem, p: Platform): Record {
    Record(
      item.title,
      item.link,
      None,
      OrElse(item.contentSnippet, OrElse(item.content, "")),
      if Truthy(item.pubDate) then DateObject(item.pubDate.value, p.parse) else Instant(p.now),
      source.name,
      source.kind,
      Some(source.category))
  }

  /** The records of a sequence of items. */
  function ToRecords(source: RssSource, items: seq<FeedItem>, p: Platform): (r: seq<Record>)
    ensures |r| == |items|
    ensures forall i :: 0 <= i < |items| ==> r[i] == ToRecord(source, items[i], p)
  {
    if items == [] then [] else ToRecords(source, items[..|items| - 1], p) + [ToRecord(source, items[|items| - 1], p)]
  }

  /** `scrapeRSS(source)`: filter, map, then the first five; nothing when the feed fails. */
  function ScrapeRss(source: RssSource, feed: Result<seq<FeedItem>>, p: Platform): seq<Record> {
    if feed.Failure? then [] else Take(ToRecords(source, Survivors(feed.value, p), p), MaxItems)
  }

  /** At most five records. */
  lemma AtMostFive(source: RssSource, feed: Result<seq<FeedItem>>, p: Platform)
    ensures |ScrapeRss(source, feed, p)| <= MaxItems
  {
  }

  /** Filtering before the cap: the records are those of the first five surviving items, in feed order. */
  lemma FirstFiveSurvivors(source: RssSource, items: seq<FeedItem>, p: Platform)
    ensures var out := ScrapeRss(source, Success(items), p);
      var kept := Survivors(items, p);
      |out| == (if |kept| < MaxItems then |kept| else MaxItems)
      && forall i :: 0 <= i < |out| ==> out[i] == ToRecord(source, kept[i], p)
  {
  }

  /** An undated item is always kept by the filter, and dated with the clock. */
  lemma UndatedKept(source: RssSource, item: FeedItem, p: Platform)
    requires !Truthy(item.pubDate)
    ensures Recent(item, p)
    ensures ToRecord(source, item, p).date == Instant(p.now)
  {
  }

  /** A dated item passes exactly at the threshold: the bound is inclusive. */
  lemma ThresholdIncluded(item: FeedItem, p: Platform)
    requires Truthy(item.pubDate) && p.parse(item.pubDate.value) == Some(p.daysBefore(p.now, 1))
    ensures Recent(item, p)
  {
  }

  /** No record carries an Invalid Date: an unparsable `pubDate` fails the filter. */
  lemma RecordsAreValid(source: RssSource, items: seq<FeedItem>, p: Platform, r: Record)
    requires r in ScrapeRss(source, Success(items), p)
    ensures r.date.Instant?
    ensures r.source == source.name && r.kind == source.kind && r.category == Some(source.category)
  {
    var out := ScrapeRss(source, Success(items), p);
    var kept := Survivors(items, p);
    var i :| 0 <= i < |out| && out[i] == r;
    FirstFiveSurvivors(source, items, p);
    assert kept[i] in kept;
  }

  /** Title, link and text are copied from the item, the text without truncation. */
  lemma FieldsCopied(source: RssSource, item: FeedItem, p: Platform)
    ensures var r := ToRecord(source, item, p);
      r.title == item.title && r.url == item.link
      && (Truthy(item.contentSnippet) ==> r.description == item.contentSnippet.value)
      && (!Truthy(item.contentSnippet) && Truthy(item.content) ==> r.description == item.content.value)
      && (!Truthy(item.contentSnippet) && !Truthy(item.content) ==> r.description == "")
  {
  }
}
