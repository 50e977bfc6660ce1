/** `fetch_all_feeds` (fetcher.py): read every built-in and registered feed,
    turn its entries into article records, filter them by the feed's optional
    keywords, and insert the whole run into the store. */
module FeedFetcher {
  import opened Wrappers
  import opened TextUtil
  import opened Normalizer
  import opened Upstream
  import opened ArticleStore
  import opened CandidateBatch

  /** One feed the loop visits: an entry of `FEEDS` or a registered custom feed
      (which never has keywords). */
  datatype FeedConfig = FeedConfig(name: string, url: string, category: string, filterKeywords: seq<string>)

  /** What every record handed to the store by the feed loop satisfies. */
  predicate Emittable(c: Candidate) {
    c.title != [] && c.url != [] && |c.summary| <= SummaryLimit
  }

  /** The excerpt source: the first content item's value, else the summary,
      else the description, else nothing. */
  function SummaryRaw(e: FeedEntry): string
    requires e.Entry?
  {
    if e.content != [] then e.content[0].GetOr("")
    else if e.summary.Some? then e.summary.value
    else if e.description.Some? then e.description.value
    else ""
  }

  /** The record one well-formed entry of `feed` yields, if any. */
  function EntryCandidate(feed: FeedConfig, e: FeedEntry, unescape: Unescaper): (r: Option<Candidate>)
    requires e.Entry?
    ensures r.Some? ==> Emittable(r.value) && Tidy(r.value.title)
    ensures r.Some? ==> r.value.url == e.link && r.value.source == feed.name && r.value.category == feed.category
    ensures r.Some? ==> r.value.title == CleanHtml(e.title, unescape)
    ensures r.Some? ==> |r.value.summary| <= |CleanHtml(SummaryRaw(e), unescape)|
                        && r.value.summary == CleanHtml(SummaryRaw(e), unescape)[..|r.value.summary|]
    ensures r.Some? ==> |r.value.summary| == if |CleanHtml(SummaryRaw(e), unescape)| <= SummaryLimit
                                              then |CleanHtml(SummaryRaw(e), unescape)| else SummaryLimit
    ensures r.Some? ==> r.value.published == ParseDate(e.published, e.updated)
    ensures feed.filterKeywords == [] ==> (r.Some? <==> CleanHtml(e.title, unescape) != [] && e.link != [])
    ensures feed.filterKeywords != [] ==>
              (r.Some? <==> CleanHtml(e.title, unescape) != [] && e.link != []
                            && MatchesFilter(CleanHtml(e.title, unescape) + " "
                                             + Truncate(CleanHtml(SummaryRaw(e), unescape), SummaryLimit),
                                             feed.filterKeywords))
    ensures r.Some? && feed.filterKeywords != [] ==>
              MatchesFilter(r.value.title + " " + r.value.summary, feed.filterKeywords)
  {
    var title := CleanHtml(e.title, unescape);
    if title == [] || e.link == [] then None
    else
      var summary := Truncate(CleanHtml(SummaryRaw(e), unescape), SummaryLimit);
      if !KeepEntry(feed.filterKeywords, title, summary) then None
      else Some(Candidate(title, e.link, feed.name, feed.category, summary, ParseDate(e.published, e.updated)))
  }

  /** The records of one feed: entries in order, until one raises. */
  function EntriesRun(feed: FeedConfig, entries: seq<FeedEntry>, unescape: Unescaper): seq<Candidate> {
    if entries == [] || entries[0].Malformed? then []
    else
      var rest := EntriesRun(feed, entries[1..], unescape);
      match EntryCandidate(feed, entries[0], unescape)
      case Some(c) => [c] + rest
      case None => rest
  }

  function FeedContribution(feed: FeedConfig, outcome: FeedOutcome, unescape: Unescaper): seq<Candidate> {
    match outcome
    case Parsed(entries) => EntriesRun(feed, entries, unescape)
    case Raised => []
  }

  /** The records of a whole run over `feeds`, `outcomes[i]` being what
      parsing `feeds[i].url` gave. */
  function FeedsRun(feeds: seq<FeedConfig>, outcomes: seq<FeedOutcome>, unescape: Unescaper): seq<Candidate>
    requires |feeds| == |outcomes|
  {
    if feeds == [] then []
    else FeedContribution(feeds[0], outcomes[0], unescape) + FeedsRun(feeds[1..], outcomes[1..], unescape)
  }

  /** Every record of a feed is emittable and carries the feed's name and
      category. */
  lemma {:induction false} EntriesRunEmittable(feed: FeedConfig, entries: seq<FeedEntry>, unescape: Unescaper)
    ensures forall k :: 0 <= k < |EntriesRun(feed, entries, unescape)| ==>
              var c := EntriesRun(feed, entries, unescape)[k];
              Emittable(c) && c.source == feed.name && c.category == feed.category
    decreases |entries|
  {
    if entries != [] && entries[0].Entry? {
      EntriesRunEmittable(feed, entries[1..], unescape);
    }
  }

  /** Every record of a whole run is emittable: a title, a link and an excerpt
      of at most 500 characters. */
  lemma {:induction false} FeedsRunEmittable(feeds: seq<FeedConfig>, outcomes: seq<FeedOutcome>, unescape: Unescaper)
    requires |feeds| == |outcomes|
    ensures forall k :: 0 <= k < |FeedsRun(feeds, outcomes, unescape)| ==> Emittable(FeedsRun(feeds, outcomes, unescape)[k])
    decreases |feeds|
  {
    if feeds != [] {
      var head := FeedContribution(feeds[0], outcomes[0], unescape);
      if outcomes[0].Parsed? {
        EntriesRunEmittable(feeds[0], outcomes[0].entries, unescape);
      }
      FeedsRunEmittable(feeds[1..], outcomes[1..], unescape);
      var tail := FeedsRun(feeds[1..], outcomes[1..], unescape);
      assert forall k :: 0 <= k < |head + tail| ==> (head + tail)[k] == if k < |head| then head[k] else tail[k - |head|];
    }
  }

  /** A run over two lists of feeds is the first run followed by the second. */
  lemma {:induction false} FeedsRunAppend(f1: seq<FeedConfig>, o1: seq<FeedOutcome>,
                                          f2: seq<FeedConfig>, o2: seq<FeedOutcome>, unescape: Unescaper)
    requires |f1| == |o1| && |f2| == |o2|
    ensures FeedsRun(f1 + f2, o1 + o2, unescape) == FeedsRun(f1, o1, unescape) + FeedsRun(f2, o2, unescape)
    decreases |f1|
  {
    if f1 == [] {
      assert f1 + f2 == f2 && o1 + o2 == o2;
    } else {
      assert (f1 + f2)[0] == f1[0] && (o1 + o2)[0] == o1[0];
      assert (f1 + f2)[1..] == f1[1..] + f2 && (o1 + o2)[1..] == o1[1..] + o2;
      FeedsRunAppend(f1[1..], o1[1..], f2, o2, unescape);
    }
  }

  /** A feed whose parsing raises contributes nothing, and costs neither the
      records of the feeds before it nor those of the feeds after it. */
  lemma FeedFailureIsolated(feeds: seq<FeedConfig>, outcomes: seq<FeedOutcome>, k: nat, unescape: Unescaper)
    requires |feeds| == |outcomes| && k < |feeds| && outcomes[k].Raised?
    ensures FeedsRun(feeds, outcomes, unescape)
            == FeedsRun(feeds[..k], outcomes[..k], unescape) + FeedsRun(feeds[k + 1..], outcomes[k + 1..], unescape)
  {
    assert feeds == feeds[..k] + feeds[k..] && outcomes == outcomes[..k] + outcomes[k..];
    FeedsRunAppend(feeds[..k], outcomes[..k], feeds[k..], outcomes[k..], unescape);
    assert feeds[k..][1..] == feeds[k + 1..] && outcomes[k..][1..] == outcomes[k + 1..];
    assert FeedContribution(feeds[k], outcomes[k], unescape) == [];
    assert FeedsRun(feeds[k..], outcomes[k..], unescape) == FeedsRun(feeds[k + 1..], outcomes[k + 1..], unescape);
  }

  /** An entry that raises ends its feed: the records of the entries before it
      are kept, the entries after it are not read. */
  lemma {:induction false} EntryFailureKeepsEarlier(feed: FeedConfig, entries: seq<FeedEntry>, k: nat, unescape: Unescaper)
    requires k < |entries| && entries[k].Malformed?
    ensures EntriesRun(feed, entries, unescape) == EntriesRun(feed, entries[..k], unescape)
    decreases k
  {
    if k > 0 {
      assert entries[..k][1..] == entries[1..][..k - 1];
      EntryFailureKeepsEarlier(feed, entries[1..], k - 1, unescape);
    }
  }

  /** One more entry of the loop: what it contributes, followed by the rest of
      the feed's run, is still the feed's whole run. */
  lemma EntriesRunStep(feed: FeedConfig, entries: seq<FeedEntry>, j: nat, done: seq<Candidate>, unescape: Unescaper)
    requires j < |entries|
    requires done + EntriesRun(feed, entries[j..], unescape) == EntriesRun(feed, entries, unescape)
    ensures entries[j].Malformed? ==> done == EntriesRun(feed, entries, unescape)
    ensures entries[j].Entry? && EntryCandidate(feed, entries[j], unescape).None? ==>
              done + EntriesRun(feed, entries[j + 1..], unescape) == EntriesRun(feed, entries, unescape)
    ensures entries[j].Entry? && EntryCandidate(feed, entries[j], unescape).Some? ==>
              (done + [EntryCandidate(feed, entries[j], unescape).value]) + EntriesRun(feed, entries[j + 1..], unescape)
              == EntriesRun(feed, entries, unescape)
  {
    assert entries[j..][0] == entries[j] && entries[j..][1..] == entries[j + 1..];
    if entries[j].Malformed? {
      ConcatEmpty(done);
    } else {
      var rest := EntriesRun(feed, entries[j + 1..], unescape);
      if EntryCandidate(feed, entries[j], unescape).Some? {
        ConcatAssoc(done, [EntryCandidate(feed, entries[j], unescape).value], rest);
      }
    }
  }

  /** The entry loop of one feed in `fetch_all_feeds`: `continue` for a
      skipped entry; an entry that raises leaves the feed's `try`. */
  method CollectEntries(feed: FeedConfig, entries: seq<FeedEntry>, unescape: Unescaper)
    returns (articles: seq<Candidate>)
    ensures articles == EntriesRun(feed, entries, unescape)
  {
    articles := [];
    var j := 0;
    while j < |entries|
      invariant 0 <= j <= |entries|
      invariant articles + EntriesRun(feed, entries[j..], unescape) == EntriesRun(feed, entries, unescape)
    {
      var entry := entries[j];
      EntriesRunStep(feed, entries, j, articles, unescape);
      if entry.Malformed? {
        return;
      }
      j := j + 1;
      var title := CleanHtml(entry.title, unescape);
      var url := entry.link;
      if title == [] || url == [] {
        assert EntryCandidate(feed, entry, unescape) == None;
        continue;
      }
      var summaryRaw := "";
      if entry.content != [] {
        summaryRaw := entry.content[0].GetOr("");
      } else if entry.summary.Some? {
        summaryRaw := entry.summary.value;
      } else if entry.description.Some? {
        summaryRaw := entry.description.value;
      }
      assert summaryRaw == SummaryRaw(entry);
      var summary := Truncate(CleanHtml(summaryRaw, unescape), SummaryLimit);
      if feed.filterKeywords != [] && !MatchesFilter(title + " " + summary, feed.filterKeywords) {
        assert EntryCandidate(feed, entry, unescape) == None;
        continue;
      }
      var record := Candidate(title, url, feed.name, feed.category, summary, ParseDate(entry.published, entry.updated));
      assert EntryCandidate(feed, entry, unescape) == Some(record);
      articles := articles + [record];
    }
    assert entries[j..] == [];
    ConcatEmpty(articles);
  }

  /** One more feed of the loop: the records so far plus this feed's
      contribution, followed by the rest of the run, is still the whole run. */
  lemma FeedsRunStep(feeds: seq<FeedConfig>, outcomes: seq<FeedOutcome>, i: nat, done: seq<Candidate>, unescape: Unescaper)
    requires |feeds| == |outcomes| && i < |feeds|
    requires done + FeedsRun(feeds[i..], outcomes[i..], unescape) == FeedsRun(feeds, outcomes, unescape)
    ensures (done + FeedContribution(feeds[i], outcomes[i], unescape)) + FeedsRun(feeds[i + 1..], outcomes[i + 1..], unescape)
            == FeedsRun(feeds, outcomes, unescape)
  {
    var head := FeedContribution(feeds[i], outcomes[i], unescape);
    var tail := FeedsRun(feeds[i + 1..], outcomes[i + 1..], unescape);
    assert FeedsRun(feeds[i..], outcomes[i..], unescape) == head + tail by {
      assert feeds[i..][0] == feeds[i] && outcomes[i..][0] == outcomes[i];
      assert feeds[i..][1..] == feeds[i + 1..] && outcomes[i..][1..] == outcomes[i + 1..];
    }
    ConcatAssoc(done, head, tail);
  }


  /** The feed loop of `fetch_all_feeds`, up to the insert: one `try` per feed,
      so a feed that raises is skipped and the loop goes on. */
  method CollectFeedArticles(feeds: seq<FeedConfig>, outcomes: seq<FeedOutcome>, unescape: Unescaper)
    returns (articles: seq<Candidate>)
    requires |feeds| == |outcomes|
    ensures articles == FeedsRun(feeds, outcomes, unescape)
  {
    articles := [];
    var i := 0;
    assert feeds[i..] == feeds && outcomes[i..] == outcomes;
    while i < |feeds|
      invariant 0 <= i <= |feeds|
      invariant articles + FeedsRun(feeds[i..], outcomes[i..], unescape) == FeedsRun(feeds, outcomes, unescape)
    {
      var fromFeed := [];
      if outcomes[i].Parsed? {
        fromFeed := CollectEntries(feeds[i], outcomes[i].entries, unescape);
      }
      assert fromFeed == FeedContribution(feeds[i], outcomes[i], unescape);
      FeedsRunStep(feeds, outcomes, i, articles, unescape);
      articles := articles + fromFeed;
      i := i + 1;
    }
    assert feeds[i..] == [];
  }

  /** `[{"name": f["name"], "url": f["url"], "category": f["category"]} for f in get_custom_feeds()]` */
  function CustomFeedConfigs(feeds: seq<CustomFeed>): (r: seq<FeedConfig>)
    ensures |r| == |feeds|
    ensures forall i :: 0 <= i < |r| ==> r[i] == FeedConfig(feeds[i].name, feeds[i].url, feeds[i].category, [])
  {
    seq(|feeds|, i requires 0 <= i < |feeds| => FeedConfig(feeds[i].name, feeds[i].url, feeds[i].category, []))
  }

  /** `fetch_all_feeds`: built-in feeds, then the registered ones newest first;
      `outcomes[i]` is what parsing the i-th of them gave. The count returned is
      the number of records handed to `insert_articles`. */
  method FetchAllFeeds(store: Store, builtins: seq<FeedConfig>, outcomes: seq<FeedOutcome>, unescape: Unescaper)
    returns (count: nat)
    requires store.Valid()
    requires |outcomes| == |builtins| + |store.feeds|
    modifies store
    ensures store.Valid()
    ensures store.feeds == old(store.feeds) && store.nextFeedId == old(store.nextFeedId)
    ensures var run := FeedsRun(builtins + CustomFeedConfigs(old(store.GetCustomFeeds())), outcomes, unescape);
            && count == |run|
            && store.articles == Ingest(old(store.articles), old(store.clock), run).0
            && store.clock == Ingest(old(store.articles), old(store.clock), run).1
  {
    ghost var rows0, clock0 := store.articles, store.clock;
    var allFeeds := builtins + CustomFeedConfigs(store.GetCustomFeeds());
    var articles := CollectFeedArticles(allFeeds, outcomes, unescape);
    if articles != [] {
      store.InsertArticles(articles);
      assert store.articles == Ingest(rows0, clock0, articles).0;
      assert store.clock == Ingest(rows0, clock0, articles).1;
    }
    count := |articles|;
  }
}
