/** `fetch_tavily_sites` (fetcher.py): one Tavily search per scraped site,
    restricted to the site's host, and the results with a title and a URL
    inserted into the store. */
module TavilyFetcher {
  import opened Wrappers
  import opened TextUtil
  import opened Normalizer
  import opened Upstream
  import opened ArticleStore
  import opened CandidateBatch

  /** `urllib.parse.urlparse(url).netloc`, left uninterpreted. */
  type Netloc = string -> string

  /** One scraped site as the loop reads it; `query` is `site.get("query")`. */
  datatype Site = Site(name: string, url: string, category: string, query: Option<string>)

  /** The arguments of one `client.search` call. */
  datatype Search = Search(query: string, domain: string)

  const DefaultQuery: string := "AI gaming news"

  // ---------------------------------------------------------------------------
  // One site, one result
  // ---------------------------------------------------------------------------

  /** `urlparse(url).netloc or url` */
  function HostOrUrl(netloc: Netloc, url: string): (r: string)
    ensures netloc(url) != [] ==> r == netloc(url)
    ensures netloc(url) == [] ==> r == url
  {
    if netloc(url) != [] then netloc(url) else url
  }

  /** `(site.get("query") or "").strip() or "AI gaming news"`: never blank,
      and the given query itself whenever it has a non-blank character. */
  function SiteQuery(query: Option<string>): (r: string)
    ensures r != []
    ensures Strip(query.GetOr("")) == [] ==> r == DefaultQuery
    ensures Strip(query.GetOr("")) != [] ==> r == Strip(query.GetOr(""))
  {
    var q := Strip(query.GetOr(""));
    if q != [] then q else DefaultQuery
  }

  /** The search the loop sends for `site`. */
  function SiteSearch(site: Site, netloc: Netloc): Search {
    Search(SiteQuery(site.query), HostOrUrl(netloc, site.url))
  }

  /** The record one result yields: none when its stripped title or URL is
      blank; the excerpt is the raw content cut to 500 characters. */
  function ResultRecord(site: Site, r: SearchResult): (c: Option<Candidate>)
    requires r.Result?
    ensures c.Some? <==> Strip(r.title.GetOr("")) != [] && Strip(r.url.GetOr("")) != []
    ensures c.Some? ==> c.value.title == Strip(r.title.GetOr("")) && c.value.url == Strip(r.url.GetOr(""))
    ensures c.Some? ==> c.value.source == site.name && c.value.category == site.category
    ensures c.Some? ==> |c.value.summary| <= SummaryLimit && c.value.summary <= r.content.GetOr("")
    ensures c.Some? && |r.content.GetOr("")| <= SummaryLimit ==> c.value.summary == r.content.GetOr("")
    ensures c.Some? ==> |c.value.summary| == if |r.content.GetOr("")| <= SummaryLimit
                                             then |r.content.GetOr("")| else SummaryLimit
    ensures c.Some? ==> c.value.published == r.publishedDate
  {
    var title := Strip(r.title.GetOr(""));
    var url := Strip(r.url.GetOr(""));
    if title == [] || url == [] then None
    else Some(Candidate(title, url, site.name, site.category, Truncate(r.content.GetOr(""), SummaryLimit), r.publishedDate))
  }

  /** What every record of the Tavily loop satisfies. */
  predicate Scraped(c: Candidate) {
    c.title != [] && c.url != [] && !IsSpace(c.title[0]) && !IsSpace(c.url[0])
    && !IsSpace(c.title[|c.title| - 1]) && !IsSpace(c.url[|c.url| - 1])
    && |c.summary| <= SummaryLimit
  }

  // ---------------------------------------------------------------------------
  // The run as a function of the search answers
  // ---------------------------------------------------------------------------

  /** The records of one site's results, until a result raises. */
  function ResultsRun(site: Site, results: seq<SearchResult>): seq<Candidate> {
    if results == [] || results[0].BadResult? then []
    else
      var rest := ResultsRun(site, results[1..]);
      match ResultRecord(site, results[0])
      case Some(c) => [c] + rest
      case None => rest
  }

  function SiteContribution(site: Site, outcome: SearchOutcome): seq<Candidate> {
    match outcome
    case Results(results) => ResultsRun(site, results)
    case SearchFailed => []
  }

  /** The records of the whole loop, `outcomes[i]` being the answer to the
      search for `sites[i]`. */
  function SitesRun(sites: seq<Site>, outcomes: seq<SearchOutcome>): seq<Candidate>
    requires |sites| == |outcomes|
  {
    if sites == [] then []
    else SiteContribution(sites[0], outcomes[0]) + SitesRun(sites[1..], outcomes[1..])
  }

  /** The searches the loop sends, one per site, in order. */
  function Searches(sites: seq<Site>, netloc: Netloc): (r: seq<Search>)
    ensures |r| == |sites|
    decreases |sites|
  {
    if sites == [] then []
    else Searches(sites[..|sites| - 1], netloc) + [SiteSearch(sites[|sites| - 1], netloc)]
  }

  /** The function runs at all: a non-blank `TAVILY_API_KEY` and an
      importable client. */
  predicate Enabled(apiKey: string, clientInstalled: bool) {
    Strip(apiKey) != [] && clientInstalled
  }

  /** The sites visited: the ones passed in, else the stored ones. */
  function SitesToScrape(sites: Option<seq<Site>>, stored: seq<Site>): seq<Site> {
    match sites
    case Some(s) => s
    case None => stored
  }

  // ---------------------------------------------------------------------------
  // Properties of the run
  // ---------------------------------------------------------------------------

  lemma ResultRecordScraped(site: Site, r: SearchResult)
    requires r.Result? && ResultRecord(site, r).Some?
    ensures Scraped(ResultRecord(site, r).value)
  {
    var c := ResultRecord(site, r).value;
    assert c.title == Strip(r.title.GetOr("")) && c.url == Strip(r.url.GetOr(""));
  }

  lemma {:induction false} ResultsRunScraped(site: Site, results: seq<SearchResult>)
    ensures forall k :: 0 <= k < |ResultsRun(site, results)| ==>
              var c := ResultsRun(site, results)[k];
              Scraped(c) && c.source == site.name && c.category == site.category
    decreases |results|
  {
    if results != [] && results[0].Result? {
      var all := ResultsRun(site, results);
      var rest := ResultsRun(site, results[1..]);
      ResultsRunScraped(site, results[1..]);
      var rec := ResultRecord(site, results[0]);
      if rec.Some? {
        ResultRecordScraped(site, results[0]);
        assert all == [rec.value] + rest;
        forall k | 0 <= k < |all|
          ensures Scraped(all[k]) && all[k].source == site.name && all[k].category == site.category
        {
          if k > 0 {
            assert all[k] == rest[k - 1];
          }
        }
      } else {
        assert all == rest;
      }
    }
  }

  /** Every record of the loop has a non-blank stripped title and URL and an
      excerpt of at most 500 characters, and comes from one of the sites. */
  lemma {:induction false} SitesRunScraped(sites: seq<Site>, outcomes: seq<SearchOutcome>)
    requires |sites| == |outcomes|
    ensures forall k :: 0 <= k < |SitesRun(sites, outcomes)| ==>
              var c := SitesRun(sites, outcomes)[k];
              Scraped(c) && exists i :: 0 <= i < |sites| && c.source == sites[i].name && c.category == sites[i].category
    decreases |sites|
  {
    if sites != [] {
      var head := SiteContribution(sites[0], outcomes[0]);
      var tail := SitesRun(sites[1..], outcomes[1..]);
      if outcomes[0].Results? {
        ResultsRunScraped(sites[0], outcomes[0].results);
      }
      SitesRunScraped(sites[1..], outcomes[1..]);
      forall k | 0 <= k < |head + tail|
        ensures Scraped((head + tail)[k])
                && exists i :: 0 <= i < |sites| && (head + tail)[k].source == sites[i].name
                               && (head + tail)[k].category == sites[i].category
      {
        if k < |head| {
          assert (head + tail)[k] == head[k];
          assert sites[0].name == head[k].source;
        } else {
          var c := tail[k - |head|];
          assert (head + tail)[k] == c;
          var i :| 0 <= i < |sites[1..]| && c.source == sites[1..][i].name && c.category == sites[1..][i].category;
          assert sites[1..][i] == sites[i + 1];
        }
      }
    }
  }

  /** A run over two lists of sites is the first run followed by the second. */
  lemma {:induction false} SitesRunAppend(s1: seq<Site>, o1: seq<SearchOutcome>, s2: seq<Site>, o2: seq<SearchOutcome>)
    requires |s1| == |o1| && |s2| == |o2|
    ensures SitesRun(s1 + s2, o1 + o2) == SitesRun(s1, o1) + SitesRun(s2, o2)
    decreases |s1|
  {
    if s1 == [] {
      assert s1 + s2 == s2 && o1 + o2 == o2;
    } else {
      assert (s1 + s2)[0] == s1[0] && (o1 + o2)[0] == o1[0];
      assert (s1 + s2)[1..] == s1[1..] + s2 && (o1 + o2)[1..] == o1[1..] + o2;
      SitesRunAppend(s1[1..], o1[1..], s2, o2);
      ConcatAssoc(SiteContribution(s1[0], o1[0]), SitesRun(s1[1..], o1[1..]), SitesRun(s2, o2));
    }
  }

  /** A site whose search raises contributes nothing, and the sites before
      and after it keep their records. */
  lemma SiteFailureIsolated(sites: seq<Site>, outcomes: seq<SearchOutcome>, k: nat)
    requires |sites| == |outcomes| && k < |sites| && outcomes[k].SearchFailed?
    ensures SitesRun(sites, outcomes) == SitesRun(sites[..k], outcomes[..k]) + SitesRun(sites[k + 1..], outcomes[k + 1..])
  {
    assert sites == sites[..k] + sites[k..] && outcomes == outcomes[..k] + outcomes[k..];
    SitesRunAppend(sites[..k], outcomes[..k], sites[k..], outcomes[k..]);
    assert sites[k..][1..] == sites[k + 1..] && outcomes[k..][1..] == outcomes[k + 1..];
    assert SitesRun(sites[k..], outcomes[k..]) == SitesRun(sites[k + 1..], outcomes[k + 1..]);
  }

  /** A result that raises ends its site: the records of the results before
      it are kept. */
  lemma {:induction false} BadResultKeepsEarlier(site: Site, results: seq<SearchResult>, k: nat)
    requires k < |results| && results[k].BadResult?
    ensures ResultsRun(site, results) == ResultsRun(site, results[..k])
    decreases k
  {
    if k > 0 {
      assert results[..k][1..] == results[1..][..k - 1];
      BadResultKeepsEarlier(site, results[1..], k - 1);
    }
  }

  // ---------------------------------------------------------------------------
  // The loops
  // ---------------------------------------------------------------------------

  lemma ResultsRunStep(site: Site, results: seq<SearchResult>, j: nat, done: seq<Candidate>)
    requires j < |results|
    requires done + ResultsRun(site, results[j..]) == ResultsRun(site, results)
    ensures results[j].BadResult? ==> done == ResultsRun(site, results)
    ensures results[j].Result? && ResultRecord(site, results[j]).None? ==>
              done + ResultsRun(site, results[j + 1..]) == ResultsRun(site, results)
    ensures results[j].Result? && ResultRecord(site, results[j]).Some? ==>
              (done + [ResultRecord(site, results[j]).value]) + ResultsRun(site, results[j + 1..]) == ResultsRun(site, results)
  {
    assert results[j..][0] == results[j] && results[j..][1..] == results[j + 1..];
    if results[j].BadResult? {
      ConcatEmpty(done);
    } else if ResultRecord(site, results[j]).Some? {
      ConcatAssoc(done, [ResultRecord(site, results[j]).value], ResultsRun(site, results[j + 1..]));
    }
  }

  /** The result loop of one site. */
  method CollectResults(site: Site, results: seq<SearchResult>) returns (articles: seq<Candidate>)
    ensures articles == ResultsRun(site, results)
  {
    articles := [];
    var j := 0;
    while j < |results|
      invariant 0 <= j <= |results|
      invariant articles + ResultsRun(site, results[j..]) == ResultsRun(site, results)
    {
      var r := results[j];
      ResultsRunStep(site, results, j, articles);
      if r.BadResult? {
        return;
      }
      j := j + 1;
      var title := Strip(r.title.GetOr(""));
      var url := Strip(r.url.GetOr(""));
      if title == [] || url == [] {
        continue;
      }
      var record := Candidate(title, url, site.name, site.category, Truncate(r.content.GetOr(""), SummaryLimit), r.publishedDate);
      assert ResultRecord(site, r) == Some(record);
      articles := articles + [record];
    }
    assert results[j..] == [];
    ConcatEmpty(articles);
  }

  lemma SitesRunStep(sites: seq<Site>, outcomes: seq<SearchOutcome>, i: nat, done: seq<Candidate>)
    requires |sites| == |outcomes| && i < |sites|
    requires done + SitesRun(sites[i..], outcomes[i..]) == SitesRun(sites, outcomes)
    ensures (done + SiteContribution(sites[i], outcomes[i])) + SitesRun(sites[i + 1..], outcomes[i + 1..])
            == SitesRun(sites, outcomes)
  {
    assert sites[i..][0] == sites[i] && outcomes[i..][0] == outcomes[i];
    assert sites[i..][1..] == sites[i + 1..] && outcomes[i..][1..] == outcomes[i + 1..];
    ConcatAssoc(done, SiteContribution(sites[i], outcomes[i]), SitesRun(sites[i + 1..], outcomes[i + 1..]));
  }

  lemma SearchesSnoc(sites: seq<Site>, i: nat, netloc: Netloc)
    requires i < |sites|
    ensures Searches(sites[..i + 1], netloc) == Searches(sites[..i], netloc) + [SiteSearch(sites[i], netloc)]
  {
    assert sites[..i + 1][..i] == sites[..i];
  }

  lemma SearchesOfOne(site: Site, netloc: Netloc)
    ensures Searches([site], netloc) == [SiteSearch(site, netloc)]
  {
    assert [site][..0] == [];
  }

  /** Search `i` is the one for site `i`: its domain and its query. */
  lemma {:induction false} SearchesAt(sites: seq<Site>, netloc: Netloc)
    ensures forall i :: 0 <= i < |sites| ==> Searches(sites, netloc)[i] == SiteSearch(sites[i], netloc)
    decreases |sites|
  {
    if sites != [] {
      var init := sites[..|sites| - 1];
      SearchesAt(init, netloc);
      var r := Searches(sites, netloc);
      assert r == Searches(init, netloc) + [SiteSearch(sites[|sites| - 1], netloc)];
      forall i | 0 <= i < |sites| ensures r[i] == SiteSearch(sites[i], netloc) {
        if i < |init| {
          assert sites[i] == init[i] && r[i] == Searches(init, netloc)[i];
        } else {
          assert i == |Searches(init, netloc)|;
        }
      }
    }
  }

  /** The domain and query computed for one site at the top of the loop. */
  method SearchFor(site: Site, netloc: Netloc) returns (search: Search)
    ensures search == SiteSearch(site, netloc)
  {
    var domain := if netloc(site.url) != [] then netloc(site.url) else site.url;
    var query := Strip(site.query.GetOr(""));
    if query == [] {
      query := DefaultQuery;
    }
    search := Search(query, domain);
  }

  /** The site loop, up to the insert: the searches sent and the records
      collected; a site whose search or results raise is skipped. */
  method CollectSites(sites: seq<Site>, outcomes: seq<SearchOutcome>, netloc: Netloc)
    returns (articles: seq<Candidate>, searches: seq<Search>)
    requires |sites| == |outcomes|
    ensures articles == SitesRun(sites, outcomes)
    ensures searches == Searches(sites, netloc)
  {
    articles, searches := [], [];
    var i := 0;
    while i < |sites|
      invariant 0 <= i <= |sites|
      invariant articles + SitesRun(sites[i..], outcomes[i..]) == SitesRun(sites, outcomes)
      invariant searches == Searches(sites[..i], netloc)
    {
      var site := sites[i];
      var search := SearchFor(site, netloc);
      SearchesSnoc(sites, i, netloc);
      searches := searches + [search];
      SitesRunStep(sites, outcomes, i, articles);
      var found := [];
      if outcomes[i].Results? {
        found := CollectResults(site, outcomes[i].results);
      }
      assert found == SiteContribution(site, outcomes[i]);
      articles := articles + found;
      i := i + 1;
    }
    assert sites[i..] == [] && sites[..i] == sites;
    ConcatEmpty(articles);
  }

  /** `fetch_tavily_sites(sites)`: nothing without an API key or the client
      library; otherwise the searches for the given sites (the stored ones
      when `sites` is `None`), then one insert of everything collected. The
      count returned is the number of records handed to `insert_articles`. */
  method FetchTavilySites(store: Store, apiKey: string, clientInstalled: bool, sites: Option<seq<Site>>,
                          stored: seq<Site>, outcomes: seq<SearchOutcome>, netloc: Netloc)
    returns (count: nat, searches: seq<Search>)
    requires store.Valid()
    requires |outcomes| == |SitesToScrape(sites, stored)|
    modifies store
    ensures store.Valid()
    ensures store.feeds == old(store.feeds) && store.nextFeedId == old(store.nextFeedId)
    ensures !Enabled(apiKey, clientInstalled) ==>
              count == 0 && searches == [] && store.articles == old(store.articles) && store.clock == old(store.clock)
    ensures Enabled(apiKey, clientInstalled) ==>
              var run := SitesRun(SitesToScrape(sites, stored), outcomes);
              && count == |run|
              && searches == Searches(SitesToScrape(sites, stored), netloc)
              && store.articles == Ingest(old(store.articles), old(store.clock), run).0
              && store.clock == Ingest(old(store.articles), old(store.clock), run).1
  {
    ghost var rows0, clock0 := store.articles, store.clock;
    count, searches := 0, [];
    if Strip(apiKey) == [] || !clientInstalled {
      return;
    }
    var chosen := if sites.Some? then sites.value else stored;
    assert chosen == SitesToScrape(sites, stored);
    if chosen == [] {
      assert SitesRun(chosen, outcomes) == [] && Searches(chosen, netloc) == [];
      return;
    }
    var articles;
    articles, searches := CollectSites(chosen, outcomes, netloc);
    if articles != [] {
      store.InsertArticles(articles);
      assert store.articles == Ingest(rows0, clock0, articles).0;
      assert store.clock == Ingest(rows0, clock0, articles).1;
    }
    count := |articles|;
  }
}
