/** The shapes the pipeline reads from its upstream services. Every network or
    parser call of the source is replaced by one of these values, given to the
    model as input: a parsed feed, a search response, or the error the call
    raised. */
module Upstream {
  import opened Wrappers

  /** One feedparser entry, with the attributes the fetchers read.
      A missing `title`, `link` or `id` reads as "" (`getattr(entry, "title", "")`);
      `content` lists the `value` of each content item (absent when the item has
      none); `published`/`updated` stand for the ISO text of `published_parsed`/
      `updated_parsed` when present. `Malformed` is an entry whose processing
      raises: `idRead` is `Some(id)` when `entry.get("id", "")` still reads as
      `id` and only a later read (title, authors, date) raises, `None` when
      reading the id raises already. Only the arXiv loop reads the id first. */
  datatype FeedEntry =
    | Entry(
        title: string, link: string, id: string,
        content: seq<Option<string>>, summary: Option<string>, description: Option<string>,
        authors: seq<Option<string>>,
        published: Option<string>, updated: Option<string>)
    | Malformed(idRead: Option<string>)

  /** `feedparser.parse(url)` as the fetch loops use it: the entries, or an
      exception. */
  datatype FeedOutcome = Parsed(entries: seq<FeedEntry>) | Raised

  /** `feedparser.parse(url)` as `preview_feed` uses it: the `bozo` flag, the
      feed title and the entries. */
  datatype ParsedFeed = ParsedFeed(bozo: bool, title: Option<string>, entries: seq<FeedEntry>)

  /** One item of a GitHub repository search. `fullName == None` is an item
      without `full_name`, which raises `KeyError`. */
  datatype Repo = Repo(
    fullName: Option<string>, htmlUrl: Option<string>, stars: Option<int>,
    topics: seq<string>, description: Option<string>,
    pushedAt: Option<string>, createdAt: Option<string>)

  /** One GitHub search request: the items, an HTTP error status, or any other
      exception raised before the items are read (network, JSON). */
  datatype QueryOutcome = Items(repos: seq<Repo>) | HttpError(code: int) | Failed

  /** One Tavily search result. `BadResult` raises when read. */
  datatype SearchResult =
    | Result(title: Option<string>, url: Option<string>, content: Option<string>, publishedDate: Option<string>)
    | BadResult

  /** One Tavily search call: the results, or an exception. */
  datatype SearchOutcome = Results(results: seq<SearchResult>) | SearchFailed
}
