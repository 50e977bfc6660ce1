/** The request handlers of app.py that hold logic of their own: the
    defaults of feed and site registration, the entry loop that
    `api_add_feed` runs on a newly registered feed, and the refresh that runs
    the four fetchers in order and adds up their counts. */
module Api {
  import opened Wrappers
  import opened TextUtil
  import opened Normalizer
  import opened Upstream
  import opened ArticleStore
  import opened CandidateBatch
  import F = FeedFetcher
  import G = GithubFetcher
  import X = ArxivFetcher
  import T = TavilyFetcher

  /** A JSON request body, with the string fields the handlers read. */
  type Body = map<string, string>

  const DefaultCategory: string := "AI Models"

  /** `data.get(key, default).strip()` */
  function Field(data: Body, key: string, default: string): string {
    Strip(if key in data then data[key] else default)
  }

  /** `data.get("category", "AI Models").strip()`, for feeds and sites alike. */
  function FormCategory(data: Body): (r: string)
    ensures "category" !in data ==> r == DefaultCategory
    ensures "category" in data ==> r == Strip(data["category"])
  {
    if "category" !in data then
      assert DefaultCategory[0] == 'A' && DefaultCategory[|DefaultCategory| - 1] == 's';
      StripOfTrimmed(DefaultCategory);
      Field(data, "category", DefaultCategory)
    else Field(data, "category", DefaultCategory)
  }

  // ---------------------------------------------------------------------------
  // Registration defaults
  // ---------------------------------------------------------------------------

  /** What `preview_feed` returns. */
  datatype Preview = Preview(title: string, entryCount: nat)

  /** `preview_feed`: `None` when it raises, which it does exactly when the
      parser flagged the feed and found no entry. */
  function PreviewFeed(parsed: ParsedFeed, unescape: Unescaper): (r: Option<Preview>)
    ensures r.None? <==> parsed.bozo && parsed.entries == []
    ensures r.Some? ==> r.value.entryCount == |parsed.entries| && Tidy(r.value.title)
    ensures r.Some? ==> r.value.title == CleanHtml(parsed.title.GetOr(""), unescape)
  {
    if parsed.bozo && parsed.entries == [] then None
    else Some(Preview(CleanHtml(parsed.title.GetOr(""), unescape), |parsed.entries|))
  }

  /** `name or info.get("title") or url`: the name a feed is registered under. */
  function FeedName(given: string, previewTitle: string, url: string): (r: string)
    ensures given != [] ==> r == given
    ensures given == [] && previewTitle != [] ==> r == previewTitle
    ensures given == [] && previewTitle == [] ==> r == url
    ensures url != [] ==> r != []
  {
    if given != [] then given else if previewTitle != [] then previewTitle else url
  }

  /** `name or urlparse(url).netloc or url`: the name a site is registered under. */
  function SiteName(given: string, url: string, netloc: T.Netloc): (r: string)
    ensures given != [] ==> r == given
    ensures given == [] && netloc(url) != [] ==> r == netloc(url)
    ensures given == [] && netloc(url) == [] ==> r == url
    ensures url != [] ==> r != []
  {
    if given != [] then given else T.HostOrUrl(netloc, url)
  }

  // ---------------------------------------------------------------------------
  // The entry loop of `api_add_feed`
  // ---------------------------------------------------------------------------

  /** The excerpt source of the handler: the first content item's value, else
      the summary, else nothing; the description is never read. */
  function ImmediateSummaryRaw(e: FeedEntry): string
    requires e.Entry?
  {
    if e.content != [] then e.content[0].GetOr("") else e.summary.GetOr("")
  }

  /** The record one entry yields in the handler's loop; there is no keyword
      filter. */
  function ImmediateRecord(name: string, category: string, e: FeedEntry, unescape: Unescaper): (r: Option<Candidate>)
    requires e.Entry?
    ensures r.Some? <==> CleanHtml(e.title, unescape) != [] && e.link != []
    ensures r.Some? ==> F.Emittable(r.value) && r.value.title == CleanHtml(e.title, unescape) && r.value.url == e.link
    ensures r.Some? ==> r.value.source == name && r.value.category == category
    ensures r.Some? ==> r.value.summary <= CleanHtml(ImmediateSummaryRaw(e), unescape)
    ensures r.Some? ==> |r.value.summary| == if |CleanHtml(ImmediateSummaryRaw(e), unescape)| <= SummaryLimit
                                              then |CleanHtml(ImmediateSummaryRaw(e), unescape)| else SummaryLimit
    ensures r.Some? ==> r.value.published == ParseDate(e.published, e.updated)
  {
    var title := CleanHtml(e.title, unescape);
    if title == [] || e.link == [] then None
    else
      Some(Candidate(title, e.link, name, category,
                     Truncate(CleanHtml(ImmediateSummaryRaw(e), unescape), SummaryLimit),
                     ParseDate(e.published, e.updated)))
  }

  /** The records of the handler's loop, up to the first entry that raises. */
  function ImmediateRun(name: string, category: string, entries: seq<FeedEntry>, unescape: Unescaper): seq<Candidate> {
    if entries == [] || entries[0].Malformed? then []
    else
      var rest := ImmediateRun(name, category, entries[1..], unescape);
      match ImmediateRecord(name, category, entries[0], unescape)
      case Some(c) => [c] + rest
      case None => rest
  }

  /** Some entry raises: the loop has no `try`, so the request fails. */
  predicate Raises(entries: seq<FeedEntry>) {
    exists k :: 0 <= k < |entries| && entries[k].Malformed?
  }

  /** For an entry with content or a summary, the handler makes the same
      record as `fetch_all_feeds` does for a feed without keywords. */
  lemma ImmediateMatchesFetcher(name: string, url: string, category: string, e: FeedEntry, unescape: Unescaper)
    requires e.Entry? && (e.content != [] || e.summary.Some?)
    ensures ImmediateRecord(name, category, e, unescape) == F.EntryCandidate(F.FeedConfig(name, url, category, []), e, unescape)
  {
    assert ImmediateSummaryRaw(e) == F.SummaryRaw(e);
  }

  /** An entry with only a description gets an empty excerpt in the handler,
      where `fetch_all_feeds` would use the description. */
  lemma ImmediateSkipsDescription(name: string, category: string, e: FeedEntry, unescape: Unescaper)
    requires e.Entry? && e.content == [] && e.summary.None? && ImmediateRecord(name, category, e, unescape).Some?
    requires unescape([]) == []
    ensures ImmediateRecord(name, category, e, unescape).value.summary == []
  {
    CleanHtmlEmpty(unescape);
  }

  /** Keywords never drop an entry in the handler: whatever the fetcher keeps
      for any keyword list, the handler keeps too. */
  lemma ImmediateIgnoresKeywords(name: string, url: string, category: string, keywords: seq<string>,
                                 e: FeedEntry, unescape: Unescaper)
    requires e.Entry? && F.EntryCandidate(F.FeedConfig(name, url, category, keywords), e, unescape).Some?
    ensures ImmediateRecord(name, category, e, unescape).Some?
  {
  }

  /** Every record of the handler's loop is emittable and carries the name
      and category the feed was registered with. */
  lemma {:induction false} ImmediateRunRecords(name: string, category: string, entries: seq<FeedEntry>, unescape: Unescaper)
    ensures forall k :: 0 <= k < |ImmediateRun(name, category, entries, unescape)| ==>
              var c := ImmediateRun(name, category, entries, unescape)[k];
              F.Emittable(c) && c.source == name && c.category == category
    decreases |entries|
  {
    if entries != [] && entries[0].Entry? {
      var all := ImmediateRun(name, category, entries, unescape);
      var rest := ImmediateRun(name, category, entries[1..], unescape);
      ImmediateRunRecords(name, category, entries[1..], unescape);
      var rec := ImmediateRecord(name, category, entries[0], unescape);
      if rec.Some? {
        assert all == [rec.value] + rest;
        forall k | 0 <= k < |all|
          ensures F.Emittable(all[k]) && all[k].source == name && all[k].category == category
        {
          if k > 0 {
            assert all[k] == rest[k - 1];
          }
        }
      } else {
        assert all == rest;
      }
    }
  }

  lemma ImmediateRunStep(name: string, category: string, entries: seq<FeedEntry>, j: nat, done: seq<Candidate>, unescape: Unescaper)
    requires j < |entries|
    requires done + ImmediateRun(name, category, entries[j..], unescape) == ImmediateRun(name, category, entries, unescape)
    ensures entries[j].Malformed? ==> done == ImmediateRun(name, category, entries, unescape)
    ensures entries[j].Entry? && ImmediateRecord(name, category, entries[j], unescape).None? ==>
              done + ImmediateRun(name, category, entries[j + 1..], unescape) == ImmediateRun(name, category, entries, unescape)
    ensures entries[j].Entry? && ImmediateRecord(name, category, entries[j], unescape).Some? ==>
              (done + [ImmediateRecord(name, category, entries[j], unescape).value])
              + ImmediateRun(name, category, entries[j + 1..], unescape) == ImmediateRun(name, category, entries, unescape)
  {
    assert entries[j..][0] == entries[j] && entries[j..][1..] == entries[j + 1..];
    if entries[j].Malformed? {
      ConcatEmpty(done);
    } else if ImmediateRecord(name, category, entries[j], unescape).Some? {
      ConcatAssoc(done, [ImmediateRecord(name, category, entries[j], unescape).value],
                  ImmediateRun(name, category, entries[j + 1..], unescape));
    }
  }

  /** The body of the handler's loop for one well-formed entry: no record
      when the cleaned title or the link is empty. */
  method EntryRecord(name: string, category: string, entry: FeedEntry, unescape: Unescaper)
    returns (record: Option<Candidate>)
    requires entry.Entry?
    ensures record == ImmediateRecord(name, category, entry, unescape)
  {
    var title := CleanHtml(entry.title, unescape);
    var entryUrl := entry.link;
    if title == [] || entryUrl == [] {
      return None;
    }
    var summaryRaw := "";
    if entry.content != [] {
      summaryRaw := entry.content[0].GetOr("");
    } else if entry.summary.Some? {
      summaryRaw := entry.summary.value;
    }
    assert summaryRaw == ImmediateSummaryRaw(entry);
    record := Some(Candidate(title, entryUrl, name, category, Truncate(CleanHtml(summaryRaw, unescape), SummaryLimit),
                             ParseDate(entry.published, entry.updated)));
  }

  /** The loop over `parsed.entries` in `api_add_feed`; `raised` when an
      entry raised out of it. */
  method CollectImmediate(name: string, category: string, entries: seq<FeedEntry>, unescape: Unescaper)
    returns (articles: seq<Candidate>, raised: bool)
    ensures raised <==> Raises(entries)
    ensures articles == ImmediateRun(name, category, entries, unescape)
  {
    articles, raised := [], false;
    var j := 0;
    while j < |entries|
      invariant 0 <= j <= |entries|
      invariant articles + ImmediateRun(name, category, entries[j..], unescape) == ImmediateRun(name, category, entries, unescape)
      invariant forall k :: 0 <= k < j ==> entries[k].Entry?
    {
      var entry := entries[j];
      ImmediateRunStep(name, category, entries, j, articles, unescape);
      if entry.Malformed? {
        raised := true;
        return;
      }
      j := j + 1;
      var record := EntryRecord(name, category, entry, unescape);
      if record.Some? {
        articles := articles + [record.value];
      }
    }
    assert entries[j..] == [];
    ConcatEmpty(articles);
  }

  // ---------------------------------------------------------------------------
  // Registration handlers
  // ---------------------------------------------------------------------------

  /** The JSON a registration handler answers with: 400 for a missing URL or
      an unreadable feed, 409 when the row cannot be added, the new row and
      its fetch count otherwise; `Crashed` is an exception out of the
      handler after the row was added. */
  datatype AddResponse =
    | UrlRequired
    | Unreadable
    | AlreadyExists
    | Created(id: nat, name: string, url: string, category: string, fetched: nat)
    | Crashed

  /** The part of `api_add_feed` after the row is added: parse the feed
      again and insert what its entries yield; `None` when the parse or an
      entry raised, which fails the request. */
  method FetchNewFeed(store: Store, name: string, category: string, parsed: FeedOutcome, unescape: Unescaper)
    returns (fetched: Option<nat>)
    requires store.Valid()
    modifies store
    ensures store.Valid()
    ensures store.feeds == old(store.feeds) && store.nextFeedId == old(store.nextFeedId)
    ensures parsed.Raised? || Raises(parsed.entries) ==> fetched.None? && unchanged(store)
    ensures parsed.Parsed? && !Raises(parsed.entries) ==>
              var run := ImmediateRun(name, category, parsed.entries, unescape);
              && fetched == Some(|run|)
              && store.articles == Ingest(old(store.articles), old(store.clock), run).0
              && store.clock == Ingest(old(store.articles), old(store.clock), run).1
  {
    if parsed.Raised? {
      return None;
    }
    var articles, raised := CollectImmediate(name, category, parsed.entries, unescape);
    if raised {
      return None;
    }
    if articles != [] {
      ghost var rows0, clock0 := store.articles, store.clock;
      store.InsertArticles(articles);
      assert store.articles == Ingest(rows0, clock0, articles).0;
      assert store.clock == Ingest(rows0, clock0, articles).1;
    }
    fetched := Some(|articles|);
  }

  /** `api_add_feed`: `preview` is what the preview's parse gave, `parsed`
      what the second parse, for the immediate fetch, gave. */
  method ApiAddFeed(store: Store, data: Body, preview: ParsedFeed, parsed: FeedOutcome, unescape: Unescaper)
    returns (resp: AddResponse)
    requires store.Valid()
    modifies store
    ensures store.Valid()
    ensures Field(data, "url", "") == [] ==> resp == UrlRequired && unchanged(store)
    ensures Field(data, "url", "") != [] && PreviewFeed(preview, unescape).None? ==> resp == Unreadable && unchanged(store)
    ensures Field(data, "url", "") != [] && PreviewFeed(preview, unescape).Some? && FeedUrlTaken(old(store.feeds), Field(data, "url", "")) ==>
              && resp == AlreadyExists && store.articles == old(store.articles) && store.feeds == old(store.feeds)
              && store.nextFeedId == old(store.nextFeedId) && store.clock == old(store.clock)
    ensures Field(data, "url", "") != [] && PreviewFeed(preview, unescape).Some? && !FeedUrlTaken(old(store.feeds), Field(data, "url", "")) ==>
              var url := Field(data, "url", "");
              var name := FeedName(Field(data, "name", ""), PreviewFeed(preview, unescape).value.title, url);
              var category := FormCategory(data);
              && store.feeds == old(store.feeds) + [CustomFeed(old(store.nextFeedId), name, url, category, old(store.clock))]
              && store.nextFeedId == old(store.nextFeedId) + 1
              && (parsed.Raised? || Raises(parsed.entries) ==>
                    resp == Crashed && store.articles == old(store.articles) && store.clock == old(store.clock) + 1)
              && (parsed.Parsed? && !Raises(parsed.entries) ==>
                    var run := ImmediateRun(name, category, parsed.entries, unescape);
                    && resp == Created(old(store.nextFeedId), name, url, category, |run|)
                    && store.articles == Ingest(old(store.articles), old(store.clock) + 1, run).0
                    && store.clock == Ingest(old(store.articles), old(store.clock) + 1, run).1)
  {
    var url := Field(data, "url", "");
    var name := Field(data, "name", "");
    var category := Field(data, "category", DefaultCategory);
    assert category == FormCategory(data);
    if url == [] {
      return UrlRequired;
    }
    var info := PreviewFeed(preview, unescape);
    if info.None? {
      return Unreadable;
    }
    if name == [] {
      name := if info.value.title != [] then info.value.title else url;
    }
    var added := store.AddCustomFeed(name, url, category);
    if added.UrlTaken? {
      return AlreadyExists;
    }
    var fetched := FetchNewFeed(store, name, category, parsed, unescape);
    if fetched.None? {
      return Crashed;
    }
    resp := Created(added.id, name, url, category, fetched.value);
  }

  /** The site `api_add_site` registers for a request body. */
  function NewSite(data: Body, netloc: T.Netloc): T.Site {
    var url := Field(data, "url", "");
    T.Site(SiteName(Field(data, "name", ""), url, netloc), url, FormCategory(data), Some(Field(data, "query", "")))
  }

  /** `api_add_site`: `siteId` is the id `add_scraped_site` gives the new
      row, `None` when it raises; the site is then scraped at once. `sent`
      lists the searches made. */
  method ApiAddSite(store: Store, data: Body, netloc: T.Netloc, siteId: Option<nat>,
                    apiKey: string, clientInstalled: bool, outcomes: seq<SearchOutcome>)
    returns (resp: AddResponse, sent: seq<T.Search>)
    requires store.Valid() && |outcomes| == 1
    modifies store
    ensures store.Valid()
    ensures store.feeds == old(store.feeds) && store.nextFeedId == old(store.nextFeedId)
    ensures Field(data, "url", "") == [] ==> resp == UrlRequired && sent == [] && unchanged(store)
    ensures Field(data, "url", "") != [] && siteId.None? ==> resp == AlreadyExists && sent == [] && unchanged(store)
    ensures Field(data, "url", "") != [] && siteId.Some? && !T.Enabled(apiKey, clientInstalled) ==>
              var site := NewSite(data, netloc);
              && resp == Created(siteId.value, site.name, site.url, site.category, 0) && sent == []
              && store.articles == old(store.articles) && store.clock == old(store.clock)
    ensures Field(data, "url", "") != [] && siteId.Some? && T.Enabled(apiKey, clientInstalled) ==>
              var site := NewSite(data, netloc);
              var run := T.SitesRun([site], outcomes);
              && resp == Created(siteId.value, site.name, site.url, site.category, |run|)
              && sent == [T.SiteSearch(site, netloc)]
              && store.articles == Ingest(old(store.articles), old(store.clock), run).0
              && store.clock == Ingest(old(store.articles), old(store.clock), run).1
  {
    sent := [];
    var url := Field(data, "url", "");
    var name := Field(data, "name", "");
    var category := Field(data, "category", DefaultCategory);
    var query := Field(data, "query", "");
    if url == [] {
      return UrlRequired, sent;
    }
    if name == [] {
      name := if netloc(url) != [] then netloc(url) else url;
    }
    if siteId.None? {
      return AlreadyExists, sent;
    }
    var site := T.Site(name, url, category, Some(query));
    assert site == NewSite(data, netloc);
    assert T.SitesToScrape(Some([site]), []) == [site];
    var fetched;
    fetched, sent := T.FetchTavilySites(store, apiKey, clientInstalled, Some([site]), [], outcomes, netloc);
    T.SearchesOfOne(site, netloc);
    resp := Created(siteId.value, name, url, category, fetched);
  }

  // ---------------------------------------------------------------------------
  // Refresh
  // ---------------------------------------------------------------------------

  /** The table and the clock after the batches are inserted one after
      another, each by a fetcher's final insert. */
  function IngestAll(rows: seq<Article>, clock: nat, batches: seq<seq<Candidate>>): (seq<Article>, nat)
    decreases |batches|
  {
    if batches == [] then (rows, clock)
    else
      var next := Ingest(rows, clock, batches[0]);
      IngestAll(next.0, next.1, batches[1..])
  }

  /** The sum of the batch sizes. */
  function TotalCount(batches: seq<seq<Candidate>>): nat {
    if batches == [] then 0 else |batches[0]| + TotalCount(batches[1..])
  }

  /** The batches of one refresh, in the order the fetchers run: the feeds,
      GitHub, arXiv, then Tavily (nothing when it is disabled). */
  function RefreshBatches(customFeeds: seq<CustomFeed>, builtins: seq<F.FeedConfig>, feedOutcomes: seq<FeedOutcome>,
                          githubOutcomes: seq<QueryOutcome>, arxivOutcomes: seq<FeedOutcome>,
                          tavilyEnabled: bool, sites: seq<T.Site>, siteOutcomes: seq<SearchOutcome>,
                          unescape: Unescaper): seq<seq<Candidate>>
    requires |feedOutcomes| == |builtins| + |customFeeds|
    requires |githubOutcomes| == |G.Labels| && |arxivOutcomes| == |X.Labels| && |siteOutcomes| == |sites|
  {
    [F.FeedsRun(builtins + F.CustomFeedConfigs(customFeeds), feedOutcomes, unescape),
     G.QueriesRun(G.Labels, githubOutcomes, {}).0,
     X.QueriesRun(X.Labels, arxivOutcomes, {}, unescape).0,
     if tavilyEnabled then T.SitesRun(sites, siteOutcomes) else []]
  }

  /** Ingesting a list of batches in two parts is ingesting the first part,
      then the second from where it left off. */
  lemma {:induction false} IngestAllAppend(rows: seq<Article>, clock: nat, a: seq<seq<Candidate>>, b: seq<seq<Candidate>>)
    ensures IngestAll(rows, clock, a + b) == IngestAll(IngestAll(rows, clock, a).0, IngestAll(rows, clock, a).1, b)
    decreases |a|
  {
    if a == [] {
      assert a + b == b;
    } else {
      assert (a + b)[0] == a[0] && (a + b)[1..] == a[1..] + b;
      var next := Ingest(rows, clock, a[0]);
      IngestAllAppend(next.0, next.1, a[1..], b);
    }
  }

  /** The table only grows: every row already there stays, unchanged, in
      its place, and the clock never goes back. */
  lemma {:induction false} IngestAllExtends(rows: seq<Article>, clock: nat, batches: seq<seq<Candidate>>)
    ensures var r := IngestAll(rows, clock, batches);
            |rows| <= |r.0| && r.0[..|rows|] == rows && clock <= r.1
    decreases |batches|
  {
    if batches != [] {
      var next := Ingest(rows, clock, batches[0]);
      IngestAllExtends(next.0, next.1, batches[1..]);
      var r := IngestAll(next.0, next.1, batches[1..]);
      assert r.0[..|next.0|][..|rows|] == r.0[..|rows|];
    }
  }

  /** A row a fetcher inserts is never replaced by a fetcher that runs after
      it: the table after the first `i` batches is a prefix of the final one. */
  lemma EarlierBatchesKept(rows: seq<Article>, clock: nat, batches: seq<seq<Candidate>>, i: nat)
    requires i <= |batches|
    ensures var mid := IngestAll(rows, clock, batches[..i]).0;
            var r := IngestAll(rows, clock, batches).0;
            |mid| <= |r| && r[..|mid|] == mid
  {
    assert batches == batches[..i] + batches[i..];
    IngestAllAppend(rows, clock, batches[..i], batches[i..]);
    var mid := IngestAll(rows, clock, batches[..i]);
    IngestAllExtends(mid.0, mid.1, batches[i..]);
  }

  /** After a refresh every URL of every batch is in the table. */
  lemma {:induction false} IngestAllPresent(rows: seq<Article>, clock: nat, batches: seq<seq<Candidate>>)
    ensures forall i, k :: 0 <= i < |batches| && 0 <= k < |batches[i]| ==> HasUrl(IngestAll(rows, clock, batches).0, batches[i][k].url)
    decreases |batches|
  {
    if batches != [] {
      var next := Ingest(rows, clock, batches[0]);
      IngestAllPresent(next.0, next.1, batches[1..]);
      IngestAllExtends(next.0, next.1, batches[1..]);
      var r := IngestAll(rows, clock, batches).0;
      forall i, k | 0 <= i < |batches| && 0 <= k < |batches[i]| ensures HasUrl(r, batches[i][k].url) {
        if i == 0 {
          var j :| 0 <= j < |next.0| && next.0[j].url == batches[0][k].url;
          assert r[j] == r[..|next.0|][j];
        } else {
          assert batches[i] == batches[1..][i - 1];
        }
      }
    }
  }

  /** `_refresh_all`: the four fetchers in order, on the stored custom feeds
      and scraped sites; the counts each returned. */
  method RefreshAll(store: Store, builtins: seq<F.FeedConfig>, feedOutcomes: seq<FeedOutcome>,
                    githubOutcomes: seq<QueryOutcome>, arxivOutcomes: seq<FeedOutcome>,
                    apiKey: string, clientInstalled: bool, sites: seq<T.Site>, siteOutcomes: seq<SearchOutcome>,
                    unescape: Unescaper, netloc: T.Netloc)
    returns (counts: seq<nat>)
    requires store.Valid()
    requires |feedOutcomes| == |builtins| + |store.feeds|
    requires |githubOutcomes| == |G.Labels| && |arxivOutcomes| == |X.Labels| && |siteOutcomes| == |sites|
    modifies store
    ensures store.Valid()
    ensures store.feeds == old(store.feeds) && store.nextFeedId == old(store.nextFeedId)
    ensures var batches := RefreshBatches(old(store.GetCustomFeeds()), builtins, feedOutcomes, githubOutcomes, arxivOutcomes,
                                          T.Enabled(apiKey, clientInstalled), sites, siteOutcomes, unescape);
            && counts == [|batches[0]|, |batches[1]|, |batches[2]|, |batches[3]|]
            && store.articles == IngestAll(old(store.articles), old(store.clock), batches).0
            && store.clock == IngestAll(old(store.articles), old(store.clock), batches).1
  {
    ghost var b0 := F.FeedsRun(builtins + F.CustomFeedConfigs(store.GetCustomFeeds()), feedOutcomes, unescape);
    ghost var b1 := G.QueriesRun(G.Labels, githubOutcomes, {}).0;
    ghost var b2 := X.QueriesRun(X.Labels, arxivOutcomes, {}, unescape).0;
    ghost var b3 := if T.Enabled(apiKey, clientInstalled) then T.SitesRun(sites, siteOutcomes) else [];
    assert RefreshBatches(store.GetCustomFeeds(), builtins, feedOutcomes, githubOutcomes, arxivOutcomes,
                          T.Enabled(apiKey, clientInstalled), sites, siteOutcomes, unescape) == [b0, b1, b2, b3];
    ghost var rows0, clock0 := store.articles, store.clock;
    var rss := F.FetchAllFeeds(store, builtins, feedOutcomes, unescape);
    ghost var rows1, clock1 := store.articles, store.clock;
    var gh := G.FetchGithubRepos(store, githubOutcomes);
    ghost var rows2, clock2 := store.articles, store.clock;
    var arxiv := X.FetchArxivPapers(store, arxivOutcomes, unescape);
    ghost var rows3, clock3 := store.articles, store.clock;
    var tavily, _ := T.FetchTavilySites(store, apiKey, clientInstalled, None, sites, siteOutcomes, netloc);
    counts := [rss, gh, arxiv, tavily];
    RefreshSteps(rows0, clock0, b0, b1, b2, b3, rows1, clock1, rows2, clock2, rows3, clock3, store.articles, store.clock);
  }

  lemma RefreshSteps(rows0: seq<Article>, clock0: nat, b0: seq<Candidate>, b1: seq<Candidate>, b2: seq<Candidate>, b3: seq<Candidate>,
                     rows1: seq<Article>, clock1: nat, rows2: seq<Article>, clock2: nat,
                     rows3: seq<Article>, clock3: nat, rows4: seq<Article>, clock4: nat)
    requires rows1 == Ingest(rows0, clock0, b0).0 && clock1 == Ingest(rows0, clock0, b0).1
    requires rows2 == Ingest(rows1, clock1, b1).0 && clock2 == Ingest(rows1, clock1, b1).1
    requires rows3 == Ingest(rows2, clock2, b2).0 && clock3 == Ingest(rows2, clock2, b2).1
    requires rows4 == Ingest(rows3, clock3, b3).0 && clock4 == Ingest(rows3, clock3, b3).1
    ensures IngestAll(rows0, clock0, [b0, b1, b2, b3]) == (rows4, clock4)
  {
    var bs := [b0, b1, b2, b3];
    assert bs[1..] == [b1, b2, b3] && [b1, b2, b3][1..] == [b2, b3] && [b2, b3][1..] == [b3] && [b3][1..] == [];
    assert IngestAll(rows3, clock3, [b3]) == (rows4, clock4);
    assert IngestAll(rows2, clock2, [b2, b3]) == (rows4, clock4);
    assert IngestAll(rows1, clock1, [b1, b2, b3]) == (rows4, clock4);
  }

  lemma TotalCountOfFour(b0: seq<Candidate>, b1: seq<Candidate>, b2: seq<Candidate>, b3: seq<Candidate>)
    ensures TotalCount([b0, b1, b2, b3]) == |b0| + |b1| + |b2| + |b3|
  {
    assert [b0, b1, b2, b3][1..] == [b1, b2, b3] && [b1, b2, b3][1..] == [b2, b3] && [b2, b3][1..] == [b3] && [b3][1..] == [];
    assert TotalCount([b3]) == |b3|;
    assert TotalCount([b2, b3]) == |b2| + |b3|;
    assert TotalCount([b1, b2, b3]) == |b1| + |b2| + |b3|;
  }

  /** `api_refresh`: the refresh, then the sum of the four counts and the
      store's statistics. */
  method ApiRefresh(store: Store, builtins: seq<F.FeedConfig>, feedOutcomes: seq<FeedOutcome>,
                    githubOutcomes: seq<QueryOutcome>, arxivOutcomes: seq<FeedOutcome>,
                    apiKey: string, clientInstalled: bool, sites: seq<T.Site>, siteOutcomes: seq<SearchOutcome>,
                    unescape: Unescaper, netloc: T.Netloc)
    returns (fetched: nat, stats: Stats)
    requires store.Valid()
    requires |feedOutcomes| == |builtins| + |store.feeds|
    requires |githubOutcomes| == |G.Labels| && |arxivOutcomes| == |X.Labels| && |siteOutcomes| == |sites|
    modifies store
    ensures store.Valid()
    ensures store.feeds == old(store.feeds) && store.nextFeedId == old(store.nextFeedId)
    ensures var batches := RefreshBatches(old(store.GetCustomFeeds()), builtins, feedOutcomes, githubOutcomes, arxivOutcomes,
                                          T.Enabled(apiKey, clientInstalled), sites, siteOutcomes, unescape);
            && fetched == TotalCount(batches)
            && store.articles == IngestAll(old(store.articles), old(store.clock), batches).0
            && store.clock == IngestAll(old(store.articles), old(store.clock), batches).1
    ensures stats == store.GetStats()
  {
    var counts := RefreshAll(store, builtins, feedOutcomes, githubOutcomes, arxivOutcomes,
                             apiKey, clientInstalled, sites, siteOutcomes, unescape, netloc);
    fetched := counts[0] + counts[1] + counts[2] + counts[3];
    ghost var batches := RefreshBatches(old(store.GetCustomFeeds()), builtins, feedOutcomes, githubOutcomes, arxivOutcomes,
                                        T.Enabled(apiKey, clientInstalled), sites, siteOutcomes, unescape);
    TotalCountOfFour(batches[0], batches[1], batches[2], batches[3]);
    assert batches == [batches[0], batches[1], batches[2], batches[3]];
    stats := store.GetStats();
  }
}
