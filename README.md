# history-brief ingestion pipeline, modelled in Dafny

This project models the ingestion side of *history-brief*, a small aggregator. The aggregator collects recent French history publications — new books from three publishers, podcast episodes from two websites and two Radio France feeds, and items from generic HTML and RSS sources. It normalises them into records and drops the ones it has already seen.

The model covers:

- **Date normalisation** (`DatePatterns`, `DateUtils`). This covers the French month table, `parseFrenchDate`, `extractDateFromText` and the recency predicates.
  - Each regular expression is a declarative predicate (what a match is) plus a left-to-right matcher.
  - For the date patterns, the lemmas prove that the matcher returns the leftmost match and that the split at a given position is unique.
- **Deduplication** (`Storage`). This covers the key that `generateHash` digests, the missing-file rule of `loadSeenItems`, and `filterNewItems`.
  - `filterNewItems` is a method of the `SeenStore` class, which owns the seen file and counts the writes to it.
  - The method is proved against the specification function `NewItems`.
- **Link collection** (`Links`). This is the href loop shared by the publisher and podcast adapters, proved against the function `Collected`.
- **Guest extraction** (`Guests`). These are the `avec\s+(...)` captures.
  - White space belongs both to `\s+` and to the negated class, so the engine's preference (longest `\s+` first, then the longest capture, with backtracking) is modelled and proved.
- **Adapters**:
  - publisher book pages (`Publishers`);
  - podcast pages and feeds (`Podcasts`);
  - the generic HTML listings (`HtmlScraper`);
  - the generic RSS filter/map/slice chain (`RssScraper`).

  Each imperative adapter is a method with loops. Its postcondition ties its result to a specification function, and the lemmas state what that function guarantees.
- **The orchestrator** (`Orchestrator`). `scrapeAll` concatenates the seven adapter outputs in call order.

Everything the JavaScript takes from its runtime is a parameter:

- the clock;
- `new Date(string)`;
- the local-time meaning of `new Date(y, m, d)`;
- date-fns `subMonths`, `subWeeks` and `subDays`.

These are the fields of `DateUtils.Platform`. The pages and feeds arrive as the texts the selectors pick out, and a failed fetch is a `Failure`.

Some of the code's behaviour departs from what its names and comments suggest. The model follows the code:

- **Duplicates within one run are all emitted.** The name `filterNewItems` and the saved set suggest each key is let through once. The loop at history-brief/utils/storage.js:54-60 tests only the set loaded at the start, not the keys it adds. `Storage.InRunDuplicatesEmitted` and `Storage.NewItemsCount` state what the code does.
- **Publisher books are kept for 2 months.** The comment at history-brief/scrapers/index.js:25 says "6 months". The code at history-brief/scrapers/publishers-scraper.js:82, 157 and 235 uses 2 months (`Publishers.RecentMonths`).
- **A relative href that repeats is collected twice.** The `!bookLinks.includes(href)` test at history-brief/scrapers/publishers-scraper.js:43 suggests links are meant to be unique. But a relative href is compared before prefixing, against links that already carry the origin, so it is collected again (`Links.RelativeAlwaysAppended`).
- **Day and month are not range-checked.** `D/M/YYYY` is read as day/month/year even when the numbers are out of range, e.g. `45/99/2024` (`DateExamples.SlashWithoutRangeCheck`).

## Model

| member | source | states |
|---|---|---|
| DatePatterns.DmyAt | history-brief/utils/date-utils.js:35 | a match found at a position is a genuine `(\d{1,2})\s+(\w+)\s+(\d{4})` split starting there |
| DatePatterns.DmyAtComplete | history-brief/utils/date-utils.js:35 | every split of the day-month-year pattern starting at a position is the one the matcher finds, so the split is unique |
| DatePatterns.FindDmy | history-brief/utils/date-utils.js:35 | the scan returns a match with no match starting earlier, and returns none only when no position has a match |
| DatePatterns.FindDmyLeftmost | history-brief/utils/date-utils.js:35 | `match` without the `g` flag returns exactly the leftmost match, and null iff the pattern matches nowhere |
| DatePatterns.MyAt | history-brief/utils/date-utils.js:47 | a match found at a position is a genuine `(\w+)\s+(\d{4})` split starting there |
| DatePatterns.MyAtComplete | history-brief/utils/date-utils.js:47 | the month-year split at a position is unique |
| DatePatterns.FindMy | history-brief/utils/date-utils.js:47 | the scan returns a match with no match starting earlier, and none only when there is none |
| DatePatterns.FindMyLeftmost | history-brief/utils/date-utils.js:47 | the month-year `match` returns exactly the leftmost match, and null iff there is none |
| DatePatterns.SlashAt | history-brief/utils/date-utils.js:106 | a match found at a position is a genuine `(\d{1,2})\/(\d{1,2})\/(\d{4})` split starting there |
| DatePatterns.SlashAtComplete | history-brief/utils/date-utils.js:106 | the slash split at a position is unique, so greedy `\d{1,2}` never needs to back off |
| DatePatterns.FindSlash | history-brief/utils/date-utils.js:106 | the scan returns a match with no match starting earlier, and none only when there is none |
| DatePatterns.FindSlashLeftmost | history-brief/utils/date-utils.js:106 | the slash `match` returns exactly the leftmost match, and null iff there is none |
| DatePatterns.BareYearHasNoWordedMatch | history-brief/utils/date-utils.js:58 | a text of exactly four digits matches neither French pattern, so the bare-year branch is reached |
| DateUtils.MonthLookup | history-brief/utils/date-utils.js:11-24 | an own key yields its table number, a month 1..12; a name inherited from `Object.prototype` that is not an own key yields the inherited value; the result is undefined iff the key is neither |
| DateUtils.DateObject | history-brief/utils/date-utils.js:65 | `new Date(text)` is an Invalid Date iff the runtime cannot parse the text, and otherwise the instant the runtime parses |
| DateUtils.NativeDate | history-brief/utils/date-utils.js:65-68 | the last attempt yields a date iff the runtime parses the text, and that date is exactly the parsed instant |
| DateUtils.ParseFrenchDate | history-brief/utils/date-utils.js:29-30 | an empty input gives null |
| DateUtils.ExtractDateFromText | history-brief/utils/date-utils.js:102-103 | an empty input gives null |
| DateUtils.DayMonthYearFirst | history-brief/utils/date-utils.js:35-43 | when the leftmost day-month-year match has a truthy table value, the result is that match's (year, month - 1, day), whatever follows |
| DateUtils.MonthYearSecond | history-brief/utils/date-utils.js:47-55 | only the leftmost day-month-year match is tried; if its month is unknown, the leftmost month-year match with a truthy month decides, with day 1 |
| DateUtils.BareYearThird | history-brief/utils/date-utils.js:58-62 | a normalised text of exactly four digits is January 1st of that year |
| DateUtils.NativeDateLast | history-brief/utils/date-utils.js:64-70 | when no pattern decides, the result is `new Date(dateStr)` on the original text if valid, else null |
| DateUtils.WordsAreNotAccentedKeys | history-brief/utils/date-utils.js:13-23 | no string of `\w` characters equals an accented table key |
| DateUtils.AccentedKeysUnreachable | history-brief/utils/date-utils.js:13-23 | the month group of either French pattern never captures `février`, `fév`, `août`, `aoû`, `décembre` or `déc` |
| DateUtils.AccentedKeysNeverDecide | history-brief/utils/date-utils.js:40-52 | a successful month lookup is always on an ASCII key |
| DateUtils.SlashFirst | history-brief/utils/date-utils.js:106-112 | the leftmost `D/M/YYYY` match takes precedence over every French form, read as day/month/year |
| DateUtils.FrenchWithoutSlash | history-brief/utils/date-utils.js:115 | with no slash match, `extractDateFromText` is exactly `parseFrenchDate` |
| DateUtils.RecencyBoundaryExcluded | history-brief/utils/date-utils.js:76-89 | a missing date, an Invalid Date and a date equal to the threshold are never recent, for months and for weeks |
| DateUtils.RecencyMonotone | history-brief/utils/date-utils.js:76-80 | a later date is recent whenever an earlier one is, and a wider window admits what a narrower one does |
| DateExamples.NormalizeKeeps | history-brief/utils/date-utils.js:32 | lower-casing and trimming leave alone a text with no ASCII capitals, no Kelvin sign and no surrounding white space |
| DateExamples.ConstructorTextMatch | history-brief/utils/date-utils.js:35 | in "1 constructor 2024" the leftmost day-month-year match captures the word `constructor` |
| DateExamples.ConstructorMonth | history-brief/utils/date-utils.js:35-40 | the leftmost day-month-year match of "1 constructor 2024" is a genuine match, and `FRENCH_MONTHS["constructor"]` is an inherited value, not undefined |
| DateExamples.InheritedKeyGivesInvalidDate | history-brief/utils/date-utils.js:40-42 | "1 constructor 2024" yields an Invalid Date instead of falling through to later attempts |
| DateExamples.SlashTextLeftmost | history-brief/utils/date-utils.js:106 | "45/99/2024" is itself the leftmost slash match |
| DateExamples.SlashTextFields | history-brief/utils/date-utils.js:108-110 | its captures read as day 45, month 99, year 2024 |
| DateExamples.SlashWithoutRangeCheck | history-brief/utils/date-utils.js:106-111 | "45/99/2024" becomes `new Date(2024, 98, 45)`: no range check on day or month |
| Storage.KeyIgnoresContent | history-brief/utils/storage.js:17-19 | records that agree on title, url and source have the same key, whatever their description, date or author |
| Storage.KeyCollision | history-brief/utils/storage.js:18 | title `a-b` with url `c` and title `a` with url `b-c` have the same key |
| Storage.LoadSeen | history-brief/utils/storage.js:25-35 | a stored list loads as its set; a missing file (ENOENT) loads as the empty set; any other read error or unparsable content fails |
| Storage.NewItemsMember | history-brief/utils/storage.js:54-60 | an item is emitted iff it is in the input and its key was not in the loaded set |
| Storage.NewItemsCount | history-brief/utils/storage.js:56 | an item with an unseen key is emitted as many times as it occurs in the input; one with a seen key never is |
| Storage.NewItemsSingle | history-brief/utils/storage.js:56-58 | one item is emitted iff its key is not in the loaded set |
| Storage.NewItemsConcat | history-brief/utils/storage.js:54-60 | filtering a concatenation filters each part, so the output is an order-preserving subsequence of the input |
| Storage.InRunDuplicatesEmitted | history-brief/utils/storage.js:56 | two identical items with an unseen key in one run are both emitted |
| Storage.KeySetMember | history-brief/utils/storage.js:58 | a key is in the input's key set iff some input item has it |
| Storage.SavedSetCoversInput | history-brief/utils/storage.js:52-62 | loaded set ∪ keys of the emitted items = loaded set ∪ keys of every input item |
| Storage.FilterIdempotent | history-brief/utils/storage.js:54-62 | starting from the saved set, a second run on the same items emits nothing |
| Storage.SelectNew | history-brief/utils/storage.js:51-60 | the loop emits exactly `NewItems` and accumulates loaded set ∪ input keys |
| Storage.SeenStore.Save | history-brief/utils/storage.js:41-44 | the file then holds exactly the given set, and one more write is counted |
| Storage.SeenStore.FilterNewItems | history-brief/utils/storage.js:49-63 | on a load error, the error propagates and nothing is written; otherwise the result is `NewItems` of the loaded set, and the file is written exactly once with loaded set ∪ input keys |
| Links.CollectLinks | history-brief/scrapers/publishers-scraper.js:41-49 | the href loop produces exactly `Collected`: an eligible href is pushed, prefixed when relative, unless the raw href is already in the list |
| Links.CollectedLength | history-brief/scrapers/publishers-scraper.js:41-49 | at most one link per anchor |
| Links.CollectedVerbatim | history-brief/scrapers/publishers-scraper.js:44-46 | with an `http` origin, every stored link starts with `http` (or `//` where kept) |
| Links.CollectedMember | history-brief/scrapers/publishers-scraper.js:43-47 | a link is stored iff some present, non-empty, marker-bearing href resolves to it |
| Links.RelativeAlwaysAppended | history-brief/scrapers/publishers-scraper.js:43-47 | an eligible relative href is appended, prefixed, every time it occurs |
| Links.AbsoluteNoDuplicates | history-brief/scrapers/publishers-scraper.js:43 | when every eligible href is absolute, no link is stored twice |
| Guests.AvecAt | history-brief/scrapers/podcasts-scraper.js:64 | the engine's match at a position is a genuine `avec\s+([^.!?]+)` match there |
| Guests.AvecAtPreferred | history-brief/scrapers/podcasts-scraper.js:64 | a match exists at a position iff the engine finds one, and the engine's match has the longest `\s+`, then the longest capture, of all matches there |
| Guests.FindAvec | history-brief/scrapers/podcasts-scraper.js:64 | the scan returns the engine's match at the first position that has one |
| Guests.FindAvecLeftmost | history-brief/scrapers/podcasts-scraper.js:64 | `match` is null iff the pattern matches nowhere; otherwise it is the preferred match at the leftmost position |
| Guests.FindAvecIsEngineMatch | history-brief/scrapers/podcasts-scraper.js:64 | the leftmost scan finds the reported match (leftmost, then preferred), that match is the only one, and the scan finds nothing iff nothing matches |
| Guests.EngineMatchExists | history-brief/scrapers/podcasts-scraper.js:64 | whenever the pattern matches somewhere, there is a reported match, starting no later |
| Guests.Capture | history-brief/scrapers/podcasts-scraper.js:64-66 | null iff the case-insensitive pattern matches nowhere; otherwise exactly the trimmed capture of the reported match (leftmost, then longest `\s+`, then longest capture) |
| Guests.CaptureHasNoStops | history-brief/scrapers/podcasts-scraper.js:64-66 | the guests text never contains the characters that end the capture |
| Guests.OnlySpaceBeforeStop | history-brief/scrapers/podcasts-scraper.js:64-66 | with only white space between `avec` and a stop, the engine backtracks one space into the capture and the trimmed guests are empty |
| Publishers.LastMatch | history-brief/scrapers/publishers-scraper.js:67-73 | the chosen element matches and no later element does; none iff no element matches |
| Publishers.LastRowDateStep | history-brief/scrapers/publishers-scraper.js:69-72 | each matching element overwrites the date, possibly with null; others leave it |
| Publishers.SelectPublicationDate | history-brief/scrapers/publishers-scraper.js:66-73 | the loop leaves the date read at the last matching element |
| Publishers.EmptyLastRowClears | history-brief/scrapers/publishers-scraper.js:145-148 | a last matching element without a date wipes out the earlier dates |
| Publishers.InvalidDateBlocksFallback | history-brief/scrapers/publishers-scraper.js:76-82 | an Invalid Date from the elements is truthy: the body fallback is skipped and the book is dropped |
| Publishers.BookRecordShape | history-brief/scrapers/publishers-scraper.js:83-91 | the author is the trimmed author text when non-empty and `Auteur inconnu` otherwise; the description is the first min(300, length) characters of the trimmed description; type `publisher`, the publisher's name, the visited link and the given date |
| Publishers.ScrapePublisher | history-brief/scrapers/publishers-scraper.js:32-104 | the adapter returns `PublisherOutput`: [] when the listing fails, else the kept books among the first 20 collected links, in order |
| Publishers.AtMostTwenty | history-brief/scrapers/publishers-scraper.js:54 | each publisher adapter returns at most 20 records |
| Publishers.PublisherMember | history-brief/scrapers/publishers-scraper.js:54-91 | a record is produced iff one of the first 20 collected links loads with a date inside the 2-month window, and the record is that book's |
| Publishers.RecordShape | history-brief/scrapers/publishers-scraper.js:82-91 | every record comes from one of the first 20 links whose page loaded, carries that page's date, and is within 2 months |
| Publishers.FailedPageSkipped | history-brief/scrapers/publishers-scraper.js:93-95 | a book page that fails contributes nothing and leaves the other books unchanged |
| Publishers.RepeatedRelativeVisitedTwice | history-brief/scrapers/publishers-scraper.js:43-47 | the same relative catalogue href twice on the CNRS listing gives the same link twice |
| Podcasts.PageGuests | history-brief/scrapers/podcasts-scraper.js:60-68 | the trimmed guests element wins when non-empty; otherwise the `avec` capture of the description text, or "" when the pattern does not match |
| Podcasts.PageGuestsFromDescription | history-brief/scrapers/podcasts-scraper.js:60-67 | with an empty guests element, the guests are the trimmed capture of the match reported in the description text, up to `.`, `!` or `?` |
| Podcasts.EpisodeDateLastWins | history-brief/scrapers/podcasts-scraper.js:73-77 | only the last date element counts: elements before a non-empty run are overwritten, and the date is the one read from the last element |
| Podcasts.SelectEpisodeDate | history-brief/scrapers/podcasts-scraper.js:73-77 | the loop leaves the date of the last element, read from `datetime` unless empty, else from the text |
| Podcasts.EpisodeUrl | history-brief/scrapers/podcasts-scraper.js:159-164 | for OpCit, the last Spotify href when there is one; otherwise the episode link |
| Podcasts.SelectSpotifyLink | history-brief/scrapers/podcasts-scraper.js:159-162 | the loop leaves the last Spotify href, and null iff there is none |
| Podcasts.EpisodeRecordShape | history-brief/scrapers/podcasts-scraper.js:81-89 | the author is the page's guests when non-empty and `Invités non spécifiés` otherwise; the description is the first min(300, length) characters of the trimmed description; type `podcast`, the show's name and the given date |
| Podcasts.VisitEpisodeLink | history-brief/scrapers/podcasts-scraper.js:53-94 | one pass of the episode loop yields exactly `VisitEpisode`: nothing when the page fails or its date is missing or not recent, else the episode record |
| Podcasts.ScrapeShow | history-brief/scrapers/podcasts-scraper.js:28-102 | the adapter returns `ShowOutput`: [] when the listing fails, else the recent episodes among the first 15 links, in order |
| Podcasts.ShowAtMostFifteen | history-brief/scrapers/podcasts-scraper.js:50 | each HTML podcast adapter returns at most 15 records |
| Podcasts.ShowMember | history-brief/scrapers/podcasts-scraper.js:50-90 | a record is produced iff one of the first 15 collected links loads with a date inside the 1-month window, and the record is that episode's |
| Podcasts.ShowRecordShape | history-brief/scrapers/podcasts-scraper.js:80-90 | every record comes from one of the first 15 links whose page loaded, carries its last date element's date and its url choice, and is within 1 month |
| Podcasts.UndatedEpisodeDropped | history-brief/scrapers/podcasts-scraper.js:73-80 | a page without date elements gives no episode |
| Podcasts.ItemDate | history-brief/scrapers/podcasts-scraper.js:201 | an item has a date object iff its `pubDate` is present and non-empty |
| Podcasts.RssGuests | history-brief/scrapers/podcasts-scraper.js:206-214 | the title capture up to `-` or `:` wins; otherwise the snippet capture up to `.`, `!` or `?`; otherwise "" |
| Podcasts.RssGuestsFromTitle | history-brief/scrapers/podcasts-scraper.js:207-211 | a matching title decides: the guests are the trimmed capture of the match reported in the title |
| Podcasts.RssGuestsFromSnippet | history-brief/scrapers/podcasts-scraper.js:206-214 | with no title match, a matching snippet decides: the trimmed capture of the match reported in the snippet |
| Podcasts.ScrapeRadioFranceRss | history-brief/scrapers/podcasts-scraper.js:194-234 | the feed loop returns `FeedOutput`: [] when the feed fails, else a record for each recent item |
| Podcasts.ScrapeConcordance | history-brief/scrapers/podcasts-scraper.js:239-244 | Concordance des temps is the feed adapter under that name |
| Podcasts.ScrapeCoursDeLHistoire | history-brief/scrapers/podcasts-scraper.js:249-254 | Le cours de l'histoire is the feed adapter under that name |
| Podcasts.FeedMember | history-brief/scrapers/podcasts-scraper.js:200-226 | a record is produced iff some item is dated, valid and within 1 month, and the record is that item's |
| Podcasts.FeedRecordShape | history-brief/scrapers/podcasts-scraper.js:216-224 | feed records carry valid recent dates, a non-empty author, a description of at most 300 characters and the show's name |
| Podcasts.FeedOrder | history-brief/scrapers/podcasts-scraper.js:200-226 | the output over concatenated feeds is the concatenation of the outputs, so feed order is kept |
| HtmlScraper.SiteUrl | history-brief/scrapers/html-scraper.js:30-32 | a url starting with `http` is kept; any other gets the site origin in front |
| HtmlScraper.ScrapeHtmlSite | history-brief/scrapers/html-scraper.js:11-51 | the adapter returns `HtmlOutput`: [] when the page fails, else the items of the first five elements |
| HtmlScraper.AtMostFive | history-brief/scrapers/html-scraper.js:24 | each HTML adapter returns at most five items |
| HtmlScraper.ItemIff | history-brief/scrapers/html-scraper.js:29 | an element yields an item iff its trimmed title is non-empty and its first link's href is present and non-empty |
| HtmlScraper.ItemShape | history-brief/scrapers/html-scraper.js:33-41 | every item comes from one of the first five elements, is dated now, has a title, a description of at most 200 characters and the site's constants |
| HtmlScraper.CategoryBySite | history-brief/scrapers/html-scraper.js:165-173 | for every item of the output, EHESS items are `institution` / `Établissement`; the other three sites give `publisher` / `Maison d'édition` |
| RssScraper.Survivors | histoire-digest/scrapers/rss-scraper.js:23-28 | the filter keeps exactly the undated items and those dated on or after now minus one day |
| RssScraper.SurvivorsSingle | histoire-digest/scrapers/rss-scraper.js:23-28 | a single item survives iff it passes the filter |
| RssScraper.SurvivorsConcat | histoire-digest/scrapers/rss-scraper.js:23-28 | the filter distributes over concatenation, so survivors keep their feed order and their multiplicity |
| RssScraper.ToRecords | histoire-digest/scrapers/rss-scraper.js:29-37 | the map gives one record per item, in order |
| RssScraper.AtMostFive | histoire-digest/scrapers/rss-scraper.js:38 | at most five records per feed |
| RssScraper.FirstFiveSurvivors | histoire-digest/scrapers/rss-scraper.js:23-38 | the records are those of the first five surviving items: the filter runs before the cap |
| RssScraper.UndatedKept | histoire-digest/scrapers/rss-scraper.js:25 | an undated item always passes and is dated now |
| RssScraper.ThresholdIncluded | histoire-digest/scrapers/rss-scraper.js:27 | an item dated exactly one day before now passes: the bound is inclusive |
| RssScraper.RecordsAreValid | histoire-digest/scrapers/rss-scraper.js:26-36 | no record carries an Invalid Date, and source, category and type are the descriptor's |
| RssScraper.FieldsCopied | histoire-digest/scrapers/rss-scraper.js:30-32 | title and link are copied; the description is `contentSnippet || content || ''`, untruncated |
| Orchestrator.ScrapeAll | history-brief/scrapers/index.js:21-54 | the result is the seven outputs concatenated in call order |
| Orchestrator.FlattenLength | history-brief/scrapers/index.js:23-53 | the result's length is the sum of the outputs' lengths |
| Orchestrator.FlattenSplit | history-brief/scrapers/index.js:28-50 | the result splits at every adapter boundary |
| Orchestrator.Contiguous | history-brief/scrapers/index.js:28-50 | each adapter's records appear unchanged and contiguous, at the offset given by the earlier outputs |
| Orchestrator.SevenOutputs | history-brief/scrapers/index.js:28-50 | the result is CNRS ++ PUF ++ Passés Composés ++ Storiavoce ++ OpCit ++ Concordance ++ Cours de l'histoire, and its length is their sum |

## Left out

- Network and parsing libraries. `node-fetch`, the HTML parser's CSS selection and `rss-parser` are left out. The adapters take the extracted hrefs, texts and feed items as inputs, and any fetch or parse failure as a `Failure`.
- Per-page fetches are modelled as a function of the URL. Within one run, a link visited twice is assumed to return the same page.
- Delays between requests (`delay`) and all console output are left out.
- MD5. `generateHash` is modelled by the string it digests (`Storage.Key`). Two items share a hash exactly when they share that string; MD5 collisions are ignored.
- The JSON format of the seen file. `Storage.SeenFile` holds one of three things: the set `new Set(JSON.parse(data))` builds, content for which that throws, or a read error with its code. The set can come from an array of keys, from `null` (the empty set) or from a JSON string (its characters). Content throws when it does not parse, or when it parses to something that is neither null nor iterable.
- Failures of `mkdir` and `writeFile` are not modelled.
- `new Date(string)`, the local-time reading of `new Date(y, m, d)` and date-fns arithmetic are parameters (`DateUtils.Platform`).
  - JavaScript's normalisation of out-of-range day or month values is not modelled. A `Civil` date holds the raw triple.
  - Two-digit years are not modelled either.
- The clock is read once per run (`Platform.now`). The source calls `new Date()` separately for each item and each recency check.
- `toLowerCase` is modelled for the characters whose lower case is a single ASCII letter: `A`..`Z` and the Kelvin sign U+212A, which becomes `k`. Other characters are kept as they are. Their lower case is never an ASCII letter, so keeping them changes neither `\w`, `\s`, the month names nor the keywords. The exception is a character whose lower case is longer, such as U+0130, whose lower case is `i` followed by U+0307; such characters are not modelled.
- String lengths in `slice(0, n)` count code points. JavaScript counts UTF-16 units, which differ outside the Basic Multilingual Plane.
- `DateUtils.ParseFrenchDate` and `DateUtils.ExtractDateFromText`: the JavaScript null/undefined argument is not modelled, only the empty string. Every caller passes a string.
- `getTodayFormatted` is not modelled: it does locale formatting.
- The downstream client (history-brief/notion/client.js), the CLI entry point and configuration loading are not part of this model.
- history-club-site is not part of this model.
