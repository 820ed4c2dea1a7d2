/**
 * The publisher adapters of history-brief/scrapers/publishers-scraper.js
 * (CNRS Éditions, PUF, Passés Composés). The three functions share one
 * shape and differ only in their constants, gathered here in `Publisher`.
 *
 * The network and the HTML parser are outside the model: an adapter is
 * given the hrefs of the listing page's anchors (or the listing's fetch
 * failure) and a `web` function from a link to the texts the selectors
 * pick out of that book page (or the page's fetch failure).
 */
module Publishers {
  import opened Wrappers
  import opened Text
  import opened DateUtils
  import opened Records
  import opened Links

  /** Which detail elements set the publication date: those whose lower-cased text holds a keyword, or all of them. */
  datatype DateRule = Labelled(keywords: seq<string>) | Every

  /** The constants of one adapter. */
  datatype Publisher = Publisher(name: string, links: LinkRule, dates: DateRule)

  const Cnrs := Publisher(
    "CNRS \U{C9}ditions",
    LinkRule("https://www.cnrseditions.fr", Some("/catalogue/"), false),
    Labelled(["parution", "publication"]))

  const Puf := Publisher(
    "PUF",
    LinkRule("https://www.puf.com", Some("/content/"), false),
    Every)

  const PassesComposes := Publisher(
    "Pass\U{E9}s Compos\U{E9}s",
    LinkRule("https://passes-composes.com", Some("/livre/"), false),
    Labelled(["parution", "sortie"]))

  /** Number of collected links visited. */
  const MaxBooks := 20
  /** The recency window, in months, a book must fall into. */
  const RecentMonths := 2
  /** Longest description kept. */
  const MaxDescription := 300
  /** Author of a book page without one. */
  const UnknownAuthor := "Auteur inconnu"

  /** A selected detail element: its text, and the text of its next sibling ("" when there is none). */
  datatype DetailRow = DetailRow(text: string, nextText: string)

  /** The texts a book page yields, untrimmed: first title, author and description elements, the detail elements, the body. */
  datatype BookPage = BookPage(title: string, author: string, description: string, rows: seq<DetailRow>, body: string)

  /** The element sets the date. */
  predicate RowMatches(rule: DateRule, row: DetailRow) {
    match rule
    case Labelled(keywords) => exists k :: k in keywords && Contains(Lower(row.text), k)
    case Every => true
  }

  /** The text an element's date is read from: labelled rows read their next sibling's text, falling back to their own. */
  function RowText(rule: DateRule, row: DetailRow): string {
    match rule
    case Labelled(_) => OrElse(Some(row.nextText), row.text)
    case Every => row.text
  }

  /** The position of the last element that sets the date. */
  function LastMatch(rule: DateRule, rows: seq<DetailRow>): (r: Option<nat>)
    ensures r.None? ==> forall i :: 0 <= i < |rows| ==> !RowMatches(rule, rows[i])
    ensures r.Some? ==> r.value < |rows| && RowMatches(rule, rows[r.value])
    ensures r.Some? ==> forall j :: r.value < j < |rows| ==> !RowMatches(rule, rows[j])
  {
    if rows == [] then None
    else if RowMatches(rule, rows[|rows| - 1]) then Some(|rows| - 1)
    else
      var r := LastMatch(rule, rows[..|rows| - 1]);
      assert forall i :: 0 <= i < |rows| - 1 ==> rows[..|rows| - 1][i] == rows[i];
      r
  }

  /** The value `publicationDate` holds after the `.each` over the detail elements: the date read at the last matching element. */
  function LastRowDate(rule: DateRule, rows: seq<DetailRow>, extract: string -> Option<Date>): Option<Date>
  {
    match LastMatch(rule, rows)
    case Some(i) => extract(RowText(rule, rows[i]))
    case None => None
  }

  /** One more element: it sets the date when it matches, otherwise the date stays. */
  lemma LastRowDateStep(rule: DateRule, rows: seq<DetailRow>, i: nat, extract: string -> Option<Date>)
    requires i < |rows|
    ensures LastRowDate(rule, rows[..i + 1], extract)
      == if RowMatches(rule, rows[i]) then extract(RowText(rule, rows[i])) else LastRowDate(rule, rows[..i], extract)
  {
    assert rows[..i + 1][..i] == rows[..i];
    assert rows[..i + 1][i] == rows[i];
  }

  /** The `.each` over the detail elements: every matching element overwrites the date. */
  method SelectPublicationDate(rule: DateRule, rows: seq<DetailRow>, parse: string -> Option<int>) returns (d: Option<Date>)
    ensures d == LastRowDate(rule, rows, Extractor(parse))
  {
    ghost var extract := Extractor(parse);
    d := None;
    for i := 0 to |rows|
      invariant d == LastRowDate(rule, rows[..i], extract)
    {
      LastRowDateStep(rule, rows, i, extract);
      if RowMatches(rule, rows[i]) {
        var text := RowText(rule, rows[i]);
        d := ExtractDateFromText(text, parse);
        assert d == extract(text);
      }
    }
    assert rows[..|rows|] == rows;
  }

  /** An element that matches but holds no date wipes out the dates found before it. */
  lemma EmptyLastRowClears(rows: seq<DetailRow>, parse: string -> Option<int>)
    ensures LastRowDate(Every, rows + [DetailRow("", "")], Extractor(parse)).None?
  {
    assert LastMatch(Every, rows + [DetailRow("", "")]) == Some(|rows|);
  }

  /** `publicationDate` after the body fallback, which runs only when no element set a date. */
  function BookDate(pub: Publisher, page: BookPage, extract: string -> Option<Date>): Option<Date> {
    var d := LastRowDate(pub.dates, page.rows, extract);
    if d.None? then extract(page.body) else d
  }

  /** An Invalid Date from the elements is truthy: it stops the fallback, and the book is not kept. */
  lemma InvalidDateBlocksFallback(pub: Publisher, page: BookPage, extract: string -> Option<Date>, p: Platform)
    requires LastRowDate(pub.dates, page.rows, extract) == Some(Invalid)
    ensures BookDate(pub, page, extract) == Some(Invalid)
    ensures !IsWithinMonths(BookDate(pub, page, extract), RecentMonths, p)
  {
  }

  /** The record pushed for a kept book. */
  function BookRecord(pub: Publisher, link: string, page: BookPage, date: Date): Record {
    Record(
      Some(Trim(page.title)),
      Some(link),
      Some(OrElse(Some(Trim(page.author)), UnknownAuthor)),
      Take(Trim(page.description), MaxDescription),
      date,
      pub.name,
      "publisher",
      None)
  }

  /** A book record: the trimmed author or `Auteur inconnu`, and the first 300 characters of the trimmed description. */
  lemma BookRecordShape(pub: Publisher, link: string, page: BookPage, date: Date)
    ensures var r := BookRecord(pub, link, page, date);
      r.author.Some? && r.author.value != "" && |r.description| <= MaxDescription
      && r.kind == "publisher" && r.source == pub.name && r.category.None? && r.url == Some(link) && r.date == date
    ensures var r := BookRecord(pub, link, page, date);
      (Trim(page.author) != "" ==> r.author == Some(Trim(page.author)))
      && (Trim(page.author) == "" ==> r.author == Some(UnknownAuthor))
    ensures var r := BookRecord(pub, link, page, date); var t := Trim(page.description);
      |r.description| == (if |t| < MaxDescription then |t| else MaxDescription) && r.description == t[..|r.description|]
  {
  }

  /** The record a visited link contributes: none when its page fails to load or its date is not recent. */
  function Visit(pub: Publisher, link: string, web: string -> Result<BookPage>, extract: string -> Option<Date>, p: Platform): Option<Record> {
    if web(link).Failure? then None
    else
      var date := BookDate(pub, web(link).value, extract);
      if IsWithinMonths(date, RecentMonths, p) then Some(BookRecord(pub, link, web(link).value, date.value)) else None
  }

  /** `Visit` as a function of the link. */
  function Visitor(pub: Publisher, web: string -> Result<BookPage>, extract: string -> Option<Date>, p: Platform): string -> Option<Record> {
    link => Visit(pub, link, web, extract, p)
  }

  /** What the adapter returns: nothing when the listing fails, else the records of the first collected links. */
  function PublisherOutput(pub: Publisher, listing: Result<seq<Option<string>>>, web: string -> Result<BookPage>, extract: string -> Option<Date>, p: Platform): seq<Record> {
    if listing.Failure? then [] else FilterMap(Take(Collected(pub.links, listing.value), MaxBooks), Visitor(pub, web, extract, p))
  }

  /** `scrapeCNRSEditions`, `scrapePUF` and `scrapePassesComposes`, with the adapter's constants as `pub`. */
  method ScrapePublisher(pub: Publisher, listing: Result<seq<Option<string>>>, web: string -> Result<BookPage>, p: Platform)
    returns (books: seq<Record>)
    ensures books == PublisherOutput(pub, listing, web, Extractor(p.parse), p)
  {
    if listing.Failure? {
      return [];
    }
    var bookLinks := CollectLinks(pub.links, listing.value);
    var visit := Take(bookLinks, MaxBooks);
    ghost var f := Visitor(pub, web, Extractor(p.parse), p);
    books := [];
    for i := 0 to |visit|
      invariant books == FilterMap(visit[..i], f)
    {
      FilterMapStep(visit, i, f);
      var link := visit[i];
      var page := web(link);
      if page.Success? {
        var publicationDate := SelectPublicationDate(pub.dates, page.value.rows, p.parse);
        if publicationDate.None? {
          publicationDate := ExtractDateFromText(page.value.body, p.parse);
        }
        if publicationDate.Some? && IsWithinMonths(publicationDate, RecentMonths, p) {
          books := books + [BookRecord(pub, link, page.value, publicationDate.value)];
        }
      }
    }
    assert visit[..|visit|] == visit;
  }

  /** Each adapter returns at most 20 records. */
  lemma AtMostTwenty(pub: Publisher, listing: Result<seq<Option<string>>>, web: string -> Result<BookPage>, extract: string -> Option<Date>, p: Platform)
    ensures |PublisherOutput(pub, listing, web, extract, p)| <= MaxBooks
  {
    if listing.Success? {
      FilterMapLength(Take(Collected(pub.links, listing.value), MaxBooks), Visitor(pub, web, extract, p));
    }
  }

  /** Every record is a recent book of this publisher, at one of its first 20 links, with an author and a short description. */
  lemma RecordShape(pub: Publisher, listing: Result<seq<Option<string>>>, web: string -> Result<BookPage>, extract: string -> Option<Date>, p: Platform, r: Record)
    requires r in PublisherOutput(pub, listing, web, extract, p)
    ensures listing.Success? && r.url.Some? && r.url.value in Take(Collected(pub.links, listing.value), MaxBooks)
    ensures web(r.url.value).Success? && Some(r.date) == BookDate(pub, web(r.url.value).value, extract)
    ensures r.kind == "publisher" && r.source == pub.name && r.category.None?
    ensures r.author.Some? && r.author.value != ""
    ensures |r.description| <= MaxDescription
    ensures IsWithinMonths(Some(r.date), RecentMonths, p)
  {
    var links := Take(Collected(pub.links, listing.value), MaxBooks);
    FilterMapMember(links, Visitor(pub, web, extract, p), r);
    var i :| 0 <= i < |links| && Visitor(pub, web, extract, p)(links[i]) == Some(r);
    var link := links[i];
    assert Visit(pub, link, web, extract, p) == Some(r);
    var date := BookDate(pub, web(link).value, extract);
    assert r == BookRecord(pub, link, web(link).value, date.value);
    BookRecordShape(pub, link, web(link).value, date.value);
  }

  /** A book link that loads with a date inside the window, and the record it yields. */
  ghost predicate KeptBook(pub: Publisher, link: string, web: string -> Result<BookPage>, extract: string -> Option<Date>, p: Platform, r: Record) {
    web(link).Success?
    && IsWithinMonths(BookDate(pub, web(link).value, extract), RecentMonths, p)
    && r == BookRecord(pub, link, web(link).value, BookDate(pub, web(link).value, extract).value)
  }

  /** A link keeps its record exactly when the visitor yields it. */
  lemma VisitKept(pub: Publisher, link: string, web: string -> Result<BookPage>, extract: string -> Option<Date>, p: Platform, r: Record)
    ensures Visitor(pub, web, extract, p)(link) == Some(r) <==> KeptBook(pub, link, web, extract, p, r)
  {
  }

  /** A record is produced iff one of the first 20 collected links loads with a date inside the 2-month window; the record is that book's. */
  lemma PublisherMember(pub: Publisher, hrefs: seq<Option<string>>, web: string -> Result<BookPage>, extract: string -> Option<Date>, p: Platform, r: Record)
    ensures r in PublisherOutput(pub, Success(hrefs), web, extract, p) <==>
      exists link :: link in Take(Collected(pub.links, hrefs), MaxBooks) && KeptBook(pub, link, web, extract, p, r)
  {
    var links := Take(Collected(pub.links, hrefs), MaxBooks);
    var f := Visitor(pub, web, extract, p);
    assert PublisherOutput(pub, Success(hrefs), web, extract, p) == FilterMap(links, f);
    FilterMapMember(links, f, r);
    forall i | 0 <= i < |links|
      ensures f(links[i]) == Some(r) <==> KeptBook(pub, links[i], web, extract, p, r)
    {
      VisitKept(pub, links[i], web, extract, p, r);
    }
    assert (exists i :: 0 <= i < |links| && f(links[i]) == Some(r))
      <==> exists link :: link in links && KeptBook(pub, link, web, extract, p, r);
  }

  /** A book page that fails to load contributes nothing and does not affect the others. */
  lemma FailedPageSkipped(pub: Publisher, a: seq<string>, link: string, b: seq<string>, web: string -> Result<BookPage>, extract: string -> Option<Date>, p: Platform)
    requires web(link).Failure?
    ensures FilterMap(a + [link] + b, Visitor(pub, web, extract, p)) == FilterMap(a + b, Visitor(pub, web, extract, p))
  {
    var f := Visitor(pub, web, extract, p);
    FilterMapConcat(a + [link], b, f);
    FilterMapConcat(a, [link], f);
    FilterMapConcat(a, b, f);
    assert [link][..0] == [];
  }

  /** A relative catalogue href that occurs twice on the CNRS listing is visited twice. */
  lemma RepeatedRelativeVisitedTwice()
    ensures Collected(Cnrs.links, [Some("/catalogue/x"), Some("/catalogue/x")])
         == ["https://www.cnrseditions.fr/catalogue/x", "https://www.cnrseditions.fr/catalogue/x"]
  {
    var rule := Cnrs.links;
    var h := "/catalogue/x";
    assert StartsWith(h, "/catalogue/");
    assert !StartsWith(h, "http") by { assert h[0] != "http"[0]; }
    assert StartsWith(rule.origin, "http");
    assert rule.origin + h == "https://www.cnrseditions.fr/catalogue/x";
    RelativeAlwaysAppended(rule, [], h);
    RelativeAlwaysAppended(rule, [Some(h)], h);
    assert [Some(h)] + [Some(h)] == [Some(h), Some(h)];
    assert [] + [Some(h)] == [Some(h)];
  }
}
