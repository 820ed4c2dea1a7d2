/**
 * The podcast adapters of history-brief/scrapers/podcasts-scraper.js: the
 * two HTML adapters (Storiavoce, OpCit), which visit episode pages, and the
 * feed adapter used for Concordance des temps and Le cours de l'histoire.
 *
 * As for the publishers, the network, the HTML parser and the feed parser
 * are outside the model: an HTML adapter is given the listing's hrefs and a
 * `web` function from a link to the texts its selectors pick out of that
 * episode page; the feed adapter is given the parsed items.
 */
module Podcasts {
  import opened Wrappers
  import opened Text
  import opened DateUtils
  import opened Records
  import opened Links
  import opened Guests

  /** The constants of one HTML adapter; `spotify` marks the one that prefers a Spotify link to the episode page. */
  datatype Show = Show(name: string, links: LinkRule, spotify: bool)

  const Storiavoce := Show("Storiavoce", LinkRule("https://storiavoce.com", None, true), false)
  const OpCit := Show("OpCit", LinkRule("https://ihmc.ens.psl.eu", None, true), true)

  /** The two shows read from a feed. */
  const Concordance := "Concordance des temps"
  const CoursDeLHistoire := "Le cours de l'histoire"

  /** Number of collected episode links visited. */
  const MaxEpisodes := 15
  /** The recency window, in months, an episode must fall into. */
  const RecentMonths := 1
  /** Longest description kept. */
  const MaxDescription := 300
  /** Author of an episode whose guests are not found. */
  const UnknownGuests := "Invit\U{E9}s non sp\U{E9}cifi\U{E9}s"

  /** A selected date element: its `datetime` attribute, if any, and its text. */
  datatype TimeElem = TimeElem(datetime: Option<string>, text: string)

  /**
   * The texts an episode page yields, untrimmed: first title element, first
   * guests element, the text of all description-like elements together (searched
   * for guests), first description element, the date elements, and the
   * `href` of every anchor whose href holds `spotify`.
   */
  datatype EpisodePage = EpisodePage(
    title: string,
    guests: string,
    descriptionText: string,
    description: string,
    times: seq<TimeElem>,
    spotifyHrefs: seq<string>)

  /** The guests: the guests element's text, else the `avec` capture of the description text, else "". */
  function PageGuests(page: EpisodePage): (g: string)
    ensures Trim(page.guests) != "" ==> g == Trim(page.guests)
    ensures Trim(page.guests) == "" ==> g == (match Capture(page.descriptionText, Sentence) case Some(c) => c case None => "")
  {
    var guests := Trim(page.guests);
    if guests != "" then guests
    else
      match Capture(page.descriptionText, Sentence)
      case Some(c) => c
      case None => guests
  }

  /** With an empty guests element, the guests are the trimmed capture of the match the engine reports in the description text. */
  lemma PageGuestsFromDescription(page: EpisodePage, m: AvecMatch)
    requires Trim(page.guests) == "" && EngineMatch(page.descriptionText, Sentence, m)
    ensures PageGuests(page) == Trim(page.descriptionText[m.captureStart..m.captureEnd])
  {
    assert Capture(page.descriptionText, Sentence) == Some(Trim(page.descriptionText[m.captureStart..m.captureEnd]));
  }

  /** The text a date element is read from: its `datetime` attribute, unless absent or empty. */
  function TimeText(t: TimeElem): string {
    OrElse(t.datetime, t.text)
  }

  /** `pubDate` after the `.each` over the date elements: the date read at the last one, or none without elements. */
  function EpisodeDate(times: seq<TimeElem>, extract: string -> Option<Date>): Option<Date> {
    if times == [] then None else extract(TimeText(times[|times| - 1]))
  }

  /** The `.each` over the date elements: each one overwrites the date. */
  method SelectEpisodeDate(times: seq<TimeElem>, parse: string -> Option<int>) returns (d: Option<Date>)
    ensures d == EpisodeDate(times, Extractor(parse))
  {
    d := None;
    for i := 0 to |times|
      invariant d == EpisodeDate(times[..i], Extractor(parse))
    {
      d := ExtractDateFromText(TimeText(times[i]), parse);
      assert times[..i + 1][i] == times[i];
    }
    assert times[..|times|] == times;
  }

  /** The record url: the last Spotify href when the show prefers one and it is non-empty, else the episode link. */
  function EpisodeUrl(show: Show, link: string, page: EpisodePage): (u: string)
    ensures !show.spotify || page.spotifyHrefs == [] ==> u == link
    ensures show.spotify && page.spotifyHrefs != [] && page.spotifyHrefs[|page.spotifyHrefs| - 1] != "" ==>
      u == page.spotifyHrefs[|page.spotifyHrefs| - 1]
  {
    if show.spotify && page.spotifyHrefs != [] then OrElse(Some(page.spotifyHrefs[|page.spotifyHrefs| - 1]), link)
    else link
  }

  /** The `.each` over the Spotify anchors: each one overwrites the link. */
  method SelectSpotifyLink(hrefs: seq<string>) returns (spotifyLink: Option<string>)
    ensures hrefs == [] <==> spotifyLink.None?
    ensures hrefs != [] ==> spotifyLink == Some(hrefs[|hrefs| - 1])
  {
    spotifyLink := None;
    for i := 0 to |hrefs|
      invariant i == 0 <==> spotifyLink.None?
      invariant i > 0 ==> spotifyLink == Some(hrefs[i - 1])
    {
      spotifyLink := Some(hrefs[i]);
    }
  }

  /** The record of an episode. */
  function EpisodeRecord(show: Show, link: string, page: EpisodePage, date: Date): Record {
    Record(
      Some(Trim(page.title)),
      Some(EpisodeUrl(show, link, page)),
      Some(OrElse(Some(PageGuests(page)), UnknownGuests)),
      Take(Trim(page.description), MaxDescription),
      date,
      show.name,
      "podcast",
      None)
  }

  /** An episode record: the page's guests or `Invités non spécifiés`, and the first 300 characters of the trimmed description. */
  lemma EpisodeRecordShape(show: Show, link: string, page: EpisodePage, date: Date)
    ensures var r := EpisodeRecord(show, link, page, date);
      r.author.Some? && r.author.value != "" && |r.description| <= MaxDescription
      && r.kind == "podcast" && r.source == show.name && r.date == date
    ensures var r := EpisodeRecord(show, link, page, date);
      (PageGuests(page) != "" ==> r.author == Some(PageGuests(page)))
      && (PageGuests(page) == "" ==> r.author == Some(UnknownGuests))
    ensures var r := EpisodeRecord(show, link, page, date); var t := Trim(page.description);
      |r.description| == (if |t| < MaxDescription then |t| else MaxDescription) && r.description == t[..|r.description|]
  {
  }

  /** The record a visited episode link contributes: none when the page fails or its date is missing or not recent. */
  function VisitEpisode(show: Show, link: string, web: string -> Result<EpisodePage>, extract: string -> Option<Date>, p: Platform): Option<Record> {
    if web(link).Failure? then None
    else
      var date := EpisodeDate(web(link).value.times, extract);
      if IsWithinMonths(date, RecentMonths, p) then Some(EpisodeRecord(show, link, web(link).value, date.value)) else None
  }

  /** `VisitEpisode` as a function of the link. */
  function EpisodeVisitor(show: Show, web: string -> Result<EpisodePage>, extract: string -> Option<Date>, p: Platform): string -> Option<Record> {
    link => VisitEpisode(show, link, web, extract, p)
  }

  /** What an HTML adapter returns: nothing when the listing fails, else the records of the first 15 links. */
  function ShowOutput(show: Show, listing: Result<seq<Option<string>>>, web: string -> Result<EpisodePage>, extract: string -> Option<Date>, p: Platform): seq<Record> {
    if listing.Failure? then [] else FilterMap(Take(Collected(show.links, listing.value), MaxEpisodes), EpisodeVisitor(show, web, extract, p))
  }

  /** The body of the adapter's loop for one episode link: fetch the page, read its date and url, and build the record if recent. */
  method VisitEpisodeLink(show: Show, link: string, web: string -> Result<EpisodePage>, p: Platform) returns (episode: Option<Record>)
    ensures episode == VisitEpisode(show, link, web, Extractor(p.parse), p)
  {
    var page := web(link);
    if page.Failure? {
      return None;
    }
    var pubDate := SelectEpisodeDate(page.value.times, p.parse);
    var finalUrl := link;
    if show.spotify {
      var spotifyLink := SelectSpotifyLink(page.value.spotifyHrefs);
      finalUrl := OrElse(spotifyLink, link);
    }
    episode := None;
    if pubDate.Some? && IsWithinMonths(pubDate, RecentMonths, p) {
      var guests := PageGuests(page.value);
      episode := Some(Record(
        Some(Trim(page.value.title)),
        Some(finalUrl),
        Some(OrElse(Some(guests), UnknownGuests)),
        Take(Trim(page.value.description), MaxDescription),
        pubDate.value,
        show.name,
        "podcast",
        None));
    }
  }

  /** `scrapeStoriavoce` and `scrapeOpCit`, with the adapter's constants as `show`. */
  method ScrapeShow(show: Show, listing: Result<seq<Option<string>>>, web: string -> Result<EpisodePage>, p: Platform)
    returns (episodes: seq<Record>)
    ensures episodes == ShowOutput(show, listing, web, Extractor(p.parse), p)
  {
    if listing.Failure? {
      return [];
    }
    var episodeLinks := CollectLinks(show.links, listing.value);
    var visit := Take(episodeLinks, MaxEpisodes);
    ghost var f := EpisodeVisitor(show, web, Extractor(p.parse), p);
    episodes := [];
    for i := 0 to |visit|
      invariant episodes == FilterMap(visit[..i], f)
    {
      FilterMapStep(visit, i, f);
      var episode := VisitEpisodeLink(show, visit[i], web, p);
      if episode.Some? {
        episodes := episodes + [episode.value];
      }
    }
    assert visit[..|visit|] == visit;
  }

  /** Each HTML adapter returns at most 15 records. */
  lemma ShowAtMostFifteen(show: Show, listing: Result<seq<Option<string>>>, web: string -> Result<EpisodePage>, extract: string -> Option<Date>, p: Platform)
    ensures |ShowOutput(show, listing, web, extract, p)| <= MaxEpisodes
  {
    if listing.Success? {
      FilterMapLength(Take(Collected(show.links, listing.value), MaxEpisodes), EpisodeVisitor(show, web, extract, p));
    }
  }

  /** Every record is a recent, dated episode of this show whose page was one of the first 15 links. */
  lemma ShowRecordShape(show: Show, listing: Result<seq<Option<string>>>, web: string -> Result<EpisodePage>, extract: string -> Option<Date>, p: Platform, r: Record)
    requires r in ShowOutput(show, listing, web, extract, p)
    ensures listing.Success?
    ensures exists link :: (link in Take(Collected(show.links, listing.value), MaxEpisodes) && web(link).Success?
      && Some(r.date) == EpisodeDate(web(link).value.times, extract)
      && r.url == Some(EpisodeUrl(show, link, web(link).value)))
    ensures r.kind == "podcast" && r.source == show.name
    ensures r.author.Some? && r.author.value != ""
    ensures |r.description| <= MaxDescription
    ensures IsWithinMonths(Some(r.date), RecentMonths, p)
  {
    var links := Take(Collected(show.links, listing.value), MaxEpisodes);
    FilterMapMember(links, EpisodeVisitor(show, web, extract, p), r);
    var i :| 0 <= i < |links| && EpisodeVisitor(show, web, extract, p)(links[i]) == Some(r);
    var link := links[i];
    assert VisitEpisode(show, link, web, extract, p) == Some(r);
    var date := EpisodeDate(web(link).value.times, extract);
    assert r == EpisodeRecord(show, link, web(link).value, date.value);
    EpisodeRecordShape(show, link, web(link).value, date.value);
    assert link in links;
  }

  /** An episode link that loads with a date inside the window, and the record it yields. */
  ghost predicate KeptEpisode(show: Show, link: string, web: string -> Result<EpisodePage>, extract: string -> Option<Date>, p: Platform, r: Record) {
    web(link).Success?
    && IsWithinMonths(EpisodeDate(web(link).value.times, extract), RecentMonths, p)
    && r == EpisodeRecord(show, link, web(link).value, EpisodeDate(web(link).value.times, extract).value)
  }

  /** A link keeps its record exactly when the visitor yields it. */
  lemma VisitEpisodeKept(show: Show, link: string, web: string -> Result<EpisodePage>, extract: string -> Option<Date>, p: Platform, r: Record)
    ensures EpisodeVisitor(show, web, extract, p)(link) == Some(r) <==> KeptEpisode(show, link, web, extract, p, r)
  {
  }

  /** A record is produced iff one of the first 15 collected links loads with a date inside the 1-month window; the record is that episode's. */
  lemma ShowMember(show: Show, hrefs: seq<Option<string>>, web: string -> Result<EpisodePage>, extract: string -> Option<Date>, p: Platform, r: Record)
    ensures r in ShowOutput(show, Success(hrefs), web, extract, p) <==>
      exists link :: link in Take(Collected(show.links, hrefs), MaxEpisodes) && KeptEpisode(show, link, web, extract, p, r)
  {
    var links := Take(Collected(show.links, hrefs), MaxEpisodes);
    var f := EpisodeVisitor(show, web, extract, p);
    assert ShowOutput(show, Success(hrefs), web, extract, p) == FilterMap(links, f);
    FilterMapMember(links, f, r);
    forall i | 0 <= i < |links|
      ensures f(links[i]) == Some(r) <==> KeptEpisode(show, links[i], web, extract, p, r)
    {
      VisitEpisodeKept(show, links[i], web, extract, p, r);
    }
    assert (exists i :: 0 <= i < |links| && f(links[i]) == Some(r))
      <==> exists link :: link in links && KeptEpisode(show, link, web, extract, p, r);
  }

  /** Only the last date element counts: anything before a non-empty run of elements is overwritten. */
  lemma EpisodeDateLastWins(a: seq<TimeElem>, b: seq<TimeElem>, extract: string -> Option<Date>)
    requires b != []
    ensures EpisodeDate(a + b, extract) == EpisodeDate(b, extract)
    ensures EpisodeDate(a + [b[|b| - 1]], extract) == extract(TimeText(b[|b| - 1]))
  {
    assert (a + b)[|a + b| - 1] == b[|b| - 1];
  }

  /** A page without date elements gives no episode, however recent its content. */
  lemma UndatedEpisodeDropped(show: Show, link: string, web: string -> Result<EpisodePage>, extract: string -> Option<Date>, p: Platform)
    requires web(link).Success? && web(link).value.times == []
    ensures VisitEpisode(show, link, web, extract, p).None?
  {
  }

  // ---------------------------------------------------------------------
  // The feed adapter
  // ---------------------------------------------------------------------

  /** `new Date(item.pubDate)` when the item has a non-empty `pubDate`. */
  function ItemDate(item: FeedItem, parse: string -> Option<int>): (d: Option<Date>)
    ensures d.Some? <==> Truthy(item.pubDate)
  {
    if Truthy(item.pubDate) then Some(DateObject(item.pubDate.value, parse)) else None
  }

  /** The guests of a feed item: the title's capture up to `-` or `:`, else the snippet's capture up to `.`, `!` or `?`, else "". */
  function RssGuests(item: FeedItem): (g: string)
    ensures item.title.Some? && Capture(item.title.value, TitlePart).Some? ==> g == Capture(item.title.value, TitlePart).value
    ensures (item.title.None? || Capture(item.title.value, TitlePart).None?)
      && item.contentSnippet.Some? && Capture(item.contentSnippet.value, Sentence).Some?
      ==> g == Capture(item.contentSnippet.value, Sentence).value
    ensures (item.title.None? || Capture(item.title.value, TitlePart).None?)
      && (item.contentSnippet.None? || Capture(item.contentSnippet.value, Sentence).None?)
      ==> g == ""
  {
    var titleMatch := if item.title.Some? then Capture(item.title.value, TitlePart) else None;
    var descMatch := if item.contentSnippet.Some? then Capture(item.contentSnippet.value, Sentence) else None;
    if titleMatch.Some? then titleMatch.value
    else if descMatch.Some? then descMatch.value
    else ""
  }

  /** A title that matches decides the guests: the trimmed capture of the engine's match, up to `-` or `:`. */
  lemma RssGuestsFromTitle(item: FeedItem, m: AvecMatch)
    requires item.title.Some? && EngineMatch(item.title.value, TitlePart, m)
    ensures RssGuests(item) == Trim(item.title.value[m.captureStart..m.captureEnd])
  {
    assert Capture(item.title.value, TitlePart) == Some(Trim(item.title.value[m.captureStart..m.captureEnd]));
  }

  /** Without a matching title, a matching snippet decides: the trimmed capture up to `.`, `!` or `?`. */
  lemma RssGuestsFromSnippet(item: FeedItem, m: AvecMatch)
    requires item.title.None? || forall t :: !IsAvecMatch(item.title.value, TitlePart, t)
    requires item.contentSnippet.Some? && EngineMatch(item.contentSnippet.value, Sentence, m)
    ensures RssGuests(item) == Trim(item.contentSnippet.value[m.captureStart..m.captureEnd])
  {
    assert Capture(item.contentSnippet.value, Sentence) == Some(Trim(item.contentSnippet.value[m.captureStart..m.captureEnd]));
  }

  /** `contentSnippet || content || ''`. */
  function ItemText(item: FeedItem): string {
    OrElse(item.contentSnippet, OrElse(item.content, ""))
  }

  /** The record of a feed item: title and link copied as they are, even when absent. */
  function FeedRecord(name: string, item: FeedItem, date: Date): Record {
    Record(
      item.title,
      item.link,
      Some(OrElse(Some(RssGuests(item)), UnknownGuests)),
      Take(ItemText(item), MaxDescription),
      date,
      name,
      "podcast",
      None)
  }

  /** The record a feed item contributes: none when it is undated or not recent. */
  function FeedEpisode(name: string, item: FeedItem, p: Platform): Option<Record> {
    var date := ItemDate(item, p.parse);
    if IsWithinMonths(date, RecentMonths, p) then Some(FeedRecord(name, item, date.value)) else None
  }

  /** `FeedEpisode` as a function of the item. */
  function FeedVisitor(name: string, p: Platform): FeedItem -> Option<Record> {
    item => FeedEpisode(name, item, p)
  }

  /** What the feed adapter returns: nothing when the feed fails, else the recent items in feed order. */
  function FeedOutput(name: string, feed: Result<seq<FeedItem>>, p: Platform): seq<Record> {
    if feed.Failure? then [] else FilterMap(feed.value, FeedVisitor(name, p))
  }

  /** `scrapeRadioFranceRSS(url, podcastName)`, given the parsed feed. */
  method ScrapeRadioFranceRss(name: string, feed: Result<seq<FeedItem>>, p: Platform) returns (episodes: seq<Record>)
    ensures episodes == FeedOutput(name, feed, p)
  {
    if feed.Failure? {
      return [];
    }
    var items := feed.value;
    ghost var f := FeedVisitor(name, p);
    episodes := [];
    for i := 0 to |items|
      invariant episodes == FilterMap(items[..i], f)
    {
      FilterMapStep(items, i, f);
      var item := items[i];
      var pubDate := if Truthy(item.pubDate) then Some(DateObject(item.pubDate.value, p.parse)) else None;
      if pubDate.Some? && IsWithinMonths(pubDate, RecentMonths, p) {
        var guests := "";
        var titleMatch := if item.title.Some? then Capture(item.title.value, TitlePart) else None;
        var descMatch := if item.contentSnippet.Some? then Capture(item.contentSnippet.value, Sentence) else None;
        if titleMatch.Some? {
          guests := titleMatch.value;
        } else if descMatch.Some? {
          guests := descMatch.value;
        }
        episodes := episodes + [Record(
          item.title,
          item.link,
          Some(OrElse(Some(guests), UnknownGuests)),
          Take(OrElse(item.contentSnippet, OrElse(item.content, "")), MaxDescription),
          pubDate.value,
          name,
          "podcast",
          None)];
      }
    }
    assert items[..|items|] == items;
  }

  /** `scrapeConcordanceDesTemps`. */
  method ScrapeConcordance(feed: Result<seq<FeedItem>>, p: Platform) returns (episodes: seq<Record>)
    ensures episodes == FeedOutput(Concordance, feed, p)
  {
    episodes := ScrapeRadioFranceRss(Concordance, feed, p);
  }

  /** `scrapeLeCoursDelHistoire`. */
  method ScrapeCoursDeLHistoire(feed: Result<seq<FeedItem>>, p: Platform) returns (episodes: seq<Record>)
    ensures episodes == FeedOutput(CoursDeLHistoire, feed, p)
  {
    episodes := ScrapeRadioFranceRss(CoursDeLHistoire, feed, p);
  }

  /** A feed item is kept iff it is dated, its date is valid and recent; kept items stay in feed order. */
  lemma FeedMember(name: string, items: seq<FeedItem>, p: Platform, r: Record)
    ensures r in FeedOutput(name, Success(items), p) <==>
      exists i :: 0 <= i < |items| && Truthy(items[i].pubDate)
        && IsWithinMonths(Some(DateObject(items[i].pubDate.value, p.parse)), RecentMonths, p)
        && r == FeedRecord(name, items[i], DateObject(items[i].pubDate.value, p.parse))
  {
    FilterMapMember(items, FeedVisitor(name, p), r);
    forall i | 0 <= i < |items|
      ensures FeedVisitor(name, p)(items[i]) == FeedEpisode(name, items[i], p)
    {
    }
  }

  /** The feed adapter's records: valid dates in the window, an author, a short description, this show's name. */
  lemma FeedRecordShape(name: string, items: seq<FeedItem>, p: Platform, r: Record)
    requires r in FeedOutput(name, Success(items), p)
    ensures r.date.Instant? && IsWithinMonths(Some(r.date), RecentMonths, p)
    ensures r.author.Some? && r.author.value != ""
    ensures |r.description| <= MaxDescription
    ensures r.source == name && r.kind == "podcast"
  {
    FeedMember(name, items, p, r);
  }

  /** The feed adapter's output over concatenated feeds is the concatenation: order is preserved. */
  lemma FeedOrder(name: string, a: seq<FeedItem>, b: seq<FeedItem>, p: Platform)
    ensures FeedOutput(name, Success(a + b), p) == FeedOutput(name, Success(a), p) + FeedOutput(name, Success(b), p)
  {
    FilterMapConcat(a, b, FeedVisitor(name, p));
  }
}
