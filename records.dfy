/**
 * The candidate record every adapter produces, and the item shape that
 * `rss-parser` hands to the feed adapters.
 */
module Records {
  import opened Wrappers
  import opened DateUtils

  /**
   * A candidate record. `None` in `title`, `url`, `author` or `category`
   * stands for a property that is `undefined` (feed items without a title
   * or link, records of adapters that set no author or category).
   * `kind` is the record's `type` property.
   */
  datatype Record = Record(
    title: Option<string>,
    url: Option<string>,
    author: Option<string>,
    description: string,
    date: Date,
    source: string,
    kind: string,
    category: Option<string>)

  /** One item of a parsed RSS feed: each property may be missing. */
  datatype FeedItem = FeedItem(
    title: Option<string>,
    link: Option<string>,
    pubDate: Option<string>,
    contentSnippet: Option<string>,
    content: Option<string>)
}
