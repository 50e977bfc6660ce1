# AI gaming news reader: ingestion core in Dafny

This project models the ingestion core of a small news reader about AI in
games. The reader collects article records from four kinds of source and
stores them in one SQLite table whose URL column is unique. The sources are
RSS/Atom feeds, a GitHub repository search, an arXiv paper search and Tavily
site searches. The project also models the web handlers that register a feed
or a site, the refresh that runs all four fetchers, and the `.env` loader at
the top of `app.py`.

Each module stands for one part of the program:

- `TextUtil` (text.dfy): Python's `str.split`, `" ".join`, `str.strip`,
  `str.lower`, `in` on strings, slicing `[:n]` and `str.partition`, each with
  the properties the code relies on.
- `Normalizer` (normalize.dfy): `_clean_html`, `_matches_filter`, the keyword
  decision of the feed loop and the date choice of `_parse_date`.
- `NumberText` (number.dfy): `format(n, ",")`, used for the star count of a
  GitHub summary. It is proved to round-trip and to group digits by three.
- `ArticleStore` (store.dfy): the two tables of `db.py`. The class `Store`
  holds them as sequences of rows in insertion order, plus a clock that
  stands for `CURRENT_TIMESTAMP`. Its methods are `insert_articles`,
  `add_custom_feed` and `delete_custom_feed`. Its functions are
  `get_custom_feeds`, `get_articles` and `get_stats`.
- `Upstream` (upstream.dfy): what the fetchers read from feedparser, the
  GitHub API and the Tavily client.
- `FeedFetcher`, `GithubFetcher`, `ArxivFetcher` and `TavilyFetcher`: the four
  fetch loops of `fetcher.py`. Each loop is a method proved equal to a
  recursive function of the upstream answers. Lemmas about that function
  state what the loop promises: deduplication, error isolation, the shape of
  every record, and the circuit break on a GitHub 403.
- `ArxivDedup` (arxiv_dedup.dfy): the first-version-wins rule of the arXiv
  loop, entry by entry and query by query. It is proved for any loop that
  keeps the first item of each key, and for any run that threads `seen`
  through its queries; the arXiv loops are shown to be such loops.
- `EnvLoader` (env.dfy): the `.env` loader, with `os.environ` as a class
  whose `SetDefault` never replaces a value and raises for a
  new variable `putenv` refuses (an empty name, or a NUL character).
- `Api` (api.dfy): `api_add_feed`, `api_add_site`, `_refresh_all` and
  `api_refresh`.

Network answers are inputs. Every call to an upstream service is a value,
given in the order the loop makes its calls:

- `FeedOutcome`: a parsed feed, or `Raised` when the parse raised.
- `QueryOutcome`: the items of a search, an HTTP error code, or `Failed`.
- `SearchOutcome`: the results of a search, or `SearchFailed`.

An entry or result that raises when read (`Malformed`, `BadResult`, a
repository without `full_name`) ends the `try` block it is in, as it does in
the code. A `Malformed` arXiv entry whose id still reads raises only after
its key joined `seen`, so a later version of that paper is skipped. Two library calls are parameters, left uninterpreted:
`html.unescape` (`Unescaper`) and `urlparse(url).netloc` (`Netloc`).

Two points where the loops differ from each other:

- Not every stored summary is cut to 500 characters. The feed, arXiv and
  Tavily loops cut it; the GitHub summary (fetcher.py:169) is never cut, so
  `GithubFetcher` does not bound it.
- The feed loop takes the excerpt from content, else the summary, else the
  description. The entry loop of `api_add_feed` (app.py:122-126) has no
  description fallback. `Api.ImmediateSkipsDescription` states the
  difference.

## Model

| member | source | states |
|---|---|---|
| TextUtil.Words | fetcher.py:53 | every word `split()` yields is non-empty and holds no whitespace |
| TextUtil.WordsKeepText | fetcher.py:53 | the words of `split()` laid end to end are the non-whitespace characters of the text, in order |
| TextUtil.WordsAreRuns | fetcher.py:53 | each word stands in the text as a maximal run, with whitespace or an end of the text on each side, and the words come in text order without overlap |
| TextUtil.JoinEnds | fetcher.py:169 | `sep.join(ws)` starts with the first item and ends with the last |
| TextUtil.WordsOfJoin | fetcher.py:53 | splitting words joined by single spaces gives back exactly those words |
| TextUtil.JoinIsTidy | fetcher.py:53 | words joined by single spaces have no leading, trailing or doubled whitespace |
| TextUtil.CollapseIsTidy | fetcher.py:53 | `" ".join(s.split())` is tidy and has the same words as `s` |
| TextUtil.Strip | app.py:14 | the result neither starts nor ends with whitespace, and it is empty exactly when the input is all whitespace |
| TextUtil.StripKeepsMiddle | app.py:14 | the stripped text is a contiguous slice of the input with only whitespace cut off on either side |
| TextUtil.StripOfTrimmed | app.py:14 | text without surrounding whitespace is left unchanged by strip |
| TextUtil.Lower | fetcher.py:67 | lowering keeps the length and maps each character on its own |
| TextUtil.LowerIdempotent | fetcher.py:67-68 | lowering twice is lowering once |
| TextUtil.Truncate | fetcher.py:108 | `s[:n]` is the prefix of `s` of length `min(len(s), n)` |
| TextUtil.Partition | app.py:16 | `partition("=")` splits at the first `=`: before + `=` + after is the line, and before holds no `=` |
| TextUtil.PartitionAtFirst | app.py:16 | partitioning `k + "=" + v` with no `=` in `k` gives back `(k, v)` |
| NumberText.Grouped | fetcher.py:162 | the grouped number is non-empty and starts and ends with a digit |
| NumberText.GroupedLeadingGroup | fetcher.py:162 | the digits before the first comma, or the end, number one to three, with no leading zero unless the number is 0 |
| NumberText.WithCommasRoundTrip | fetcher.py:162 | taking the commas out of `format(n, ",")` leaves the digits of the magnitude, after a minus sign for a negative number |
| NumberText.GroupedRoundTrip | fetcher.py:162 | removing the commas from `format(n, ",")` leaves digits whose value is `n` |
| NumberText.GroupedCommaSpacing | fetcher.py:162 | every comma is followed by exactly three digits before the next comma or the end |
| NumberText.UncommaAppend | fetcher.py:162 | removing commas distributes over concatenation |
| NumberText.DigitsValueAppend | fetcher.py:162 | the value of a concatenation of digit strings is the first value shifted by the second's length plus the second |
| Normalizer.StripTagsLeavesNoTag | fetcher.py:51 | after `re.sub(r"<[^>]+>", " ", ...)` no `<` followed by a tag body and `>` remains |
| Normalizer.StripTagsChars | fetcher.py:51 | every character left after tag removal is a space or a character of the input |
| Normalizer.StripTagsPlainText | fetcher.py:51 | text without `<` is left as it is by tag removal |
| Normalizer.CleanHtml | fetcher.py:49-53 | the cleaned text is tidy: no leading or trailing whitespace, only single plain spaces between words |
| Normalizer.CleanHtmlEmpty | fetcher.py:51-53 | a missing or empty value cleans to the empty string |
| Normalizer.MatchesFilterIff | fetcher.py:65-68 | the filter holds iff some lower-cased keyword occurs in the lower-cased text; it is false with no keywords |
| Normalizer.MatchesFilterIgnoresCase | fetcher.py:67 | lowering the text first does not change the filter's answer |
| Normalizer.KeepEntry | fetcher.py:110-112 | an entry is kept when the feed has no keywords, and otherwise iff some keyword occurs in `title + " " + summary`, ignoring case |
| Normalizer.ParseDate | fetcher.py:56-62 | the published stamp wins when present, else the updated one, else there is no date |
| ArticleStore.InsertAll | db.py:69-78 | the old rows stay as a prefix, every URL of the batch is in the table afterwards, and every new row is stamped with the insert's time |
| ArticleStore.InsertAllKeepsUrlsUnique | db.py:73 | `INSERT OR IGNORE` keeps the URL column unique |
| ArticleStore.InsertKeepsTableValid | db.py:69-78 | after an insert the table is URL-unique and no row is stamped later than the insert |
| ArticleStore.InsertAllAddsOnlyBatch | db.py:73-76 | every added row comes from a record of the batch whose URL was not yet in the table |
| ArticleStore.FirstInBatchWins | db.py:71-77 | for a URL new to the table, the first record of the batch carrying it is the row stored |
| ArticleStore.InsertAllPresent | db.py:73 | a batch whose URLs are all present leaves the table unchanged |
| ArticleStore.InsertAllIdempotent | db.py:69-78 | inserting the same batch again, at any later time, changes nothing |
| ArticleStore.RemoveBySource | db.py:65 | the rows left are exactly those whose source differs from the name, and the table stays URL-unique |
| ArticleStore.FindFeed | db.py:60-62 | the lookup finds a feed with the id, or reports that none has it |
| ArticleStore.RemoveFeedMembers | db.py:63 | the feeds left are exactly those whose id differs |
| ArticleStore.RemoveFeedWellFormed | db.py:63 | deleting a feed keeps URLs distinct, ids and `added_at` stamps increasing, and every id below the next one |
| ArticleStore.StrLtTotal | db.py:89 | TEXT comparison under binary collation is a strict total order |
| ArticleStore.StrLtTransitive | db.py:89 | TEXT comparison is transitive |
| ArticleStore.NewerTotal | db.py:89 | any two articles are comparable under `ORDER BY published DESC, fetched_at DESC` |
| ArticleStore.NewerTransitive | db.py:89 | that order is transitive |
| ArticleStore.InsertByRecency | db.py:89 | inserting into a sorted list keeps it sorted and adds exactly the one row |
| ArticleStore.SortByRecency | db.py:89 | the result is sorted newest first and is a permutation of the rows |
| ArticleStore.FilterByKeyword | db.py:83-88 | the rows kept are exactly those whose title or summary contains the keyword, ignoring case |
| ArticleStore.TopOfSorted | db.py:89-90 | the first `n` rows of the sorted table are sorted, come from the table, and are newer than every row left out |
| ArticleStore.NewestFirst | db.py:42 | the feeds listed newest first are the same feeds in strictly decreasing `added_at` order |
| ArticleStore.MaxFetched | db.py:109-111 | the latest `fetched_at` is the stamp of some row and no row has a later one |
| ArticleStore.Store.constructor | db.py:13-36 | a new database has both tables empty |
| ArticleStore.Store.InsertArticles | db.py:69-78 | the table becomes the insert-or-ignore of the batch, stamped now; the feeds are untouched; the invariant is kept |
| ArticleStore.Store.AddCustomFeed | db.py:47-54 | a taken URL raises and changes nothing; otherwise the new row gets the next id and the current time |
| ArticleStore.Store.DeleteCustomFeed | db.py:57-66 | the feed row goes, and the articles of its name go only when the feed existed |
| ArticleStore.Store.GetCustomFeeds | db.py:39-44 | all registered feeds, newest first |
| ArticleStore.Store.GetArticles | db.py:81-103 | at most `limit` matching rows, sorted newest first, and newer than every matching row left out |
| ArticleStore.Store.GetStats | db.py:106-115 | the row count, and the latest `fetched_at` (none exactly when the table is empty) |
| FeedFetcher.EntryCandidate | fetcher.py:93-123 | a record has the cleaned title, the entry's link, the feed's name and category, the cleaned excerpt cut to its first 500 characters, and the parsed date; with no keywords it exists iff the title and link are non-empty, with keywords iff they are and the title, a space and the cut excerpt match a keyword |
| FeedFetcher.EntriesRunEmittable | fetcher.py:93-123 | every record of one feed has a title, a URL, a summary of at most 500 characters, and the feed's name and category |
| FeedFetcher.FeedsRunEmittable | fetcher.py:89-125 | every record of the whole run has a title, a URL and a bounded summary |
| FeedFetcher.FeedsRunAppend | fetcher.py:89 | the run over two lists of feeds is the run over the first followed by the run over the second |
| FeedFetcher.FeedFailureIsolated | fetcher.py:124-125 | a feed whose parse raises contributes nothing and does not affect the other feeds |
| FeedFetcher.EntryFailureKeepsEarlier | fetcher.py:91-125 | an entry that raises drops itself and the entries after it, and keeps the records before it |
| FeedFetcher.CollectEntries | fetcher.py:93-123 | the entry loop yields exactly the run function's records |
| FeedFetcher.CollectFeedArticles | fetcher.py:89-125 | the feed loop yields exactly the run function's records |
| FeedFetcher.CustomFeedConfigs | fetcher.py:85-88 | each registered feed becomes a feed with its name, URL and category, and no keywords |
| FeedFetcher.FetchAllFeeds | fetcher.py:82-131 | returns the number of records of the run over the built-in then the registered feeds, and inserts them only when there are any |
| GithubFetcher.SummaryParts | fetcher.py:154-162 | the description when non-empty, the topics when any, and always the star count, in that order |
| GithubFetcher.RepoSummaryShape | fetcher.py:154-169 | the summary starts with the description when there is one, always ends with the star count, and is the star count alone with neither description nor topics |
| GithubFetcher.RepoRecord | fetcher.py:164-171 | the record carries the full name, the page URL, the query's label, the category "GitHub", the summary and the push date |
| GithubFetcher.RepoPublished | fetcher.py:170 | `pushed_at` when non-empty, else `created_at` |
| GithubFetcher.ReposRunFresh | fetcher.py:148-152 | records of one query have distinct URLs, none already seen, and all are recorded as seen |
| GithubFetcher.ReposRunLabelled | fetcher.py:164-171 | every record carries the query's label and the category "GitHub" |
| GithubFetcher.QueriesRunFresh | fetcher.py:137-182 | across all queries no repository URL is emitted twice |
| GithubFetcher.ForbiddenEndsRun | fetcher.py:172-179 | a 403 answer ends the run: only the queries before it contribute |
| GithubFetcher.AnswersAfterForbiddenIgnored | fetcher.py:179 | after a 403 the answers to later queries make no difference |
| GithubFetcher.OtherFailureSkipsQuery | fetcher.py:180-182 | another HTTP error or exception skips only that query |
| GithubFetcher.EarlierQueriesKept | fetcher.py:139-182 | the records of the first `k` queries are a prefix of the whole run |
| GithubFetcher.CollectRepos | fetcher.py:148-171 | the item loop yields exactly the run function's records and seen set |
| GithubFetcher.CollectGithubRepos | fetcher.py:136-183 | the query loop, with its break on 403, yields exactly the run function's records |
| GithubFetcher.FetchGithubRepos | fetcher.py:134-188 | returns the number of records of the run over `GITHUB_QUERIES` and inserts them only when there are any |
| ArxivFetcher.TrailingDigits | fetcher.py:238 | counts the maximal run of digits at the end of the id |
| ArxivFetcher.StripVersion | fetcher.py:238 | the key is a prefix of the id, and differs from it only by a removed `v` plus digits at the end |
| ArxivFetcher.StripVersionOfVersioned | fetcher.py:238 | `base + "v" + digits` has key `base` |
| ArxivFetcher.StripVersionOfUnversioned | fetcher.py:238 | an id with no `v` plus digits at its end is its own key |
| ArxivFetcher.VersionsShareKey | fetcher.py:237-238 | two versions of the same paper have the same key |
| ArxivFetcher.ReplaceNewlines | fetcher.py:243 | every newline of the title becomes a space and nothing else changes |
| ArxivFetcher.AuthorNames | fetcher.py:247-249 | the names of at most the first three authors, in order, a missing name read as empty |
| ArxivFetcher.PaperSummary | fetcher.py:250-254 | the abstract alone with no authors; otherwise the names, then " et al." when there are more than three, then a dash and the abstract |
| ArxivFetcher.PaperRecord | fetcher.py:243-263 | every field of the record: the cleaned title with newlines made spaces, the paper key as URL, the query's label, the category "Research", the author-prefixed abstract cut to 500 characters, and the chosen date |
| ArxivFetcher.PapersRunFresh | fetcher.py:236-263 | records of one query have distinct keys, none already seen, and all are recorded as seen |
| ArxivFetcher.PapersRunShaped | fetcher.py:256-263 | every record has category "Research" and a summary of at most 500 characters |
| ArxivFetcher.QueriesRunFresh | fetcher.py:224-265 | across all queries no paper key is emitted twice, and every record is shaped |
| ArxivFetcher.CollectPapers | fetcher.py:236-263 | the entry loop yields exactly the run function's records and seen set, including the key added by an entry that raises after `seen.add` |
| ArxivFetcher.CollectArxivPapers | fetcher.py:223-265 | the query loop yields exactly the run function's records |
| ArxivFetcher.FetchArxivPapers | fetcher.py:221-271 | returns the number of records of the run over `ARXIV_QUERIES` and inserts them only when there are any |
| ArxivDedup.DedupRunSources | fetcher.py:236-241 | every record of a loop that keeps the first item of each key is the record of an item the loop reaches that is well formed and carries a non-empty key, neither in `seen` nor carried by an earlier item |
| ArxivDedup.DedupRunComplete | fetcher.py:236-241 | conversely, every such item has its record among the loop's records |
| ArxivDedup.DedupRunRaiseHides | fetcher.py:239-262 | a malformed item that raises after its new key joined `seen` leaves no record with that key |
| ArxivDedup.DedupRunSeesKey | fetcher.py:239-241 | every non-empty key the loop reaches is in `seen` when it ends |
| ArxivDedup.PapersRunIsDedup | fetcher.py:236-263 | the arXiv entry loop is such a loop; a malformed entry whose id still reads carries the key of that id |
| ArxivDedup.PapersRunSources | fetcher.py:236-263 | every record of one query is the record of an entry that yields one, at any position in the query |
| ArxivDedup.PapersRunComplete | fetcher.py:236-263 | every entry that yields a record has it among the query's records |
| ArxivDedup.PapersRunRaiseHides | fetcher.py:238-262 | an entry that raises after `seen.add` leaves no record of its key in the query, and leaves the key in `seen` |
| ArxivDedup.ChainWitnesses | fetcher.py:224-265 | every record of a run that threads `seen` through its queries is a record of one query, run from the `seen` that query starts with |
| ArxivDedup.ChainComplete | fetcher.py:224-265 | conversely, every record of every query is a record of the run |
| ArxivDedup.ChainHides | fetcher.py:224-265 | when each query adds the keys of its records to `seen`, a key one query adds without a record is carried by no record of the run |
| ArxivDedup.QueriesRunIsChain | fetcher.py:224-265 | the arXiv run threads `seen` through its queries in that way |
| ArxivDedup.QueryStepperFresh | fetcher.py:236-263 | each arXiv query only adds to `seen`, and each of its records carries a key it adds |
| ArxivDedup.QueriesRunSources | fetcher.py:224-265 | every record of the run is the record of an entry that yields one in its query, counted from the `seen` that query starts with |
| ArxivDedup.FirstVersionWins | fetcher.py:237-241 | an entry of any query, at any position, that yields a record gives the run's one record with that key |
| ArxivDedup.RaisedFirstVersionHidesLater | fetcher.py:237-262 | an entry of any query, at any position, that raises after adding its new key hides that paper: no record of the run carries the key |
| TavilyFetcher.HostOrUrl | fetcher.py:300 | the host of the URL, or the URL itself when it has none |
| TavilyFetcher.SiteQuery | fetcher.py:301 | the stripped query, or "AI gaming news" when it is missing or blank; never empty |
| TavilyFetcher.ResultRecord | fetcher.py:310-321 | a record exists iff the stripped title and URL are non-empty; it carries them, the site's name and category, the content cut to its first 500 characters (exactly 500 when longer), and the published date |
| TavilyFetcher.ResultRecordScraped | fetcher.py:310-319 | every such record has a non-empty title and URL without surrounding whitespace and a bounded summary |
| TavilyFetcher.ResultsRunScraped | fetcher.py:309-321 | every record of one site is well formed and carries that site's name and category |
| TavilyFetcher.SitesRunScraped | fetcher.py:299-323 | every record of the run is well formed and comes from one of the sites |
| TavilyFetcher.SitesRunAppend | fetcher.py:299 | the run over two lists of sites is the run over the first followed by the run over the second |
| TavilyFetcher.SiteFailureIsolated | fetcher.py:322-323 | a site whose search raises contributes nothing and does not affect the other sites |
| TavilyFetcher.BadResultKeepsEarlier | fetcher.py:309-322 | a result that raises drops itself and the later results of that site |
| TavilyFetcher.SearchesAt | fetcher.py:299-308 | the `i`-th search sent is the one for the `i`-th site: its query and its domain |
| TavilyFetcher.SearchFor | fetcher.py:300-301 | the domain and query computed at the top of the loop |
| TavilyFetcher.CollectResults | fetcher.py:309-321 | the result loop yields exactly the run function's records |
| TavilyFetcher.CollectSites | fetcher.py:299-323 | the site loop yields exactly the run function's records and sends one search per site |
| TavilyFetcher.FetchTavilySites | fetcher.py:278-329 | without an API key or the client library nothing is searched or stored; otherwise the given sites, else the stored ones, are searched and their records inserted |
| EnvLoader.ParseLine | app.py:14-16 | a line assigns iff its stripped text is non-empty, is not a comment, and holds `=` |
| EnvLoader.ParseLineSplitsAtFirstEquals | app.py:16-17 | the key is the stripped text before the first `=`, the value the stripped text after it |
| EnvLoader.ParseAssignment | app.py:14-17 | a plain `KEY=VALUE` line assigns the value to the key |
| EnvLoader.SetDefaultRaisesIff | app.py:17 | `setdefault` raises iff the key is absent and `putenv` refuses it; otherwise the key holds its old value, or the new one |
| EnvLoader.LoadKeepsExisting | app.py:17 | a variable already set keeps its value, even when a line raises |
| EnvLoader.LoadKeys | app.py:13-17 | a file read to its end adds exactly the keys its lines assign; one that raised adds no other key |
| EnvLoader.RaisedStops | app.py:13-17 | after a line raised, no later line changes anything |
| EnvLoader.LoadAppend | app.py:13 | reading a file in two pieces is reading it whole |
| EnvLoader.RefusedLineRaises | app.py:17 | a line assigning a new key `putenv` refuses raises, leaving the environment the earlier lines made |
| EnvLoader.EmptyNameRaises | app.py:16-17 | a file with a `=VALUE` line always raises |
| EnvLoader.EarliestLineWins | app.py:17 | for a new key, the first line assigning it sets its value and later ones are ignored, unless a line up to it raised |
| EnvLoader.IgnoredLineHasNoEffect | app.py:15 | a blank line, a comment or a line without `=` changes nothing wherever it stands |
| EnvLoader.Environ.SetDefault | app.py:17 | `setdefault` sets a key only when it is absent, and raises with nothing changed when `putenv` refuses the new variable |
| EnvLoader.ApplyLine | app.py:14-17 | the loop body applies one line's assignment, if any, with `setdefault` |
| EnvLoader.LoadDotEnv | app.py:11-17 | no file changes nothing; otherwise the environment, and whether an exception escaped, are those of applying the lines in order up to the first that raises |
| Api.FormCategory | app.py:93 | "AI Models" when the body has no category, else the stripped value given |
| Api.PreviewFeed | fetcher.py:71-79 | the preview raises iff the parse is broken and has no entries; otherwise it has the entry count and the feed's title cleaned of markup, which is tidy |
| Api.FeedName | app.py:104-105 | the given name, else the feed's title, else the URL; never empty for a URL |
| Api.SiteName | app.py:166-168 | the given name, else the URL's host, else the URL; never empty for a URL |
| Api.ImmediateRecord | app.py:118-132 | a record exists iff the cleaned title and the link are non-empty; it carries them, the feed's name and category, the cleaned excerpt cut to its first 500 characters, and the parsed date |
| Api.ImmediateMatchesFetcher | app.py:117-132 | for an entry with content or a summary, the handler makes the same record as the feed loop does for a feed without keywords |
| Api.ImmediateSkipsDescription | app.py:122-126 | with neither content nor a summary, the handler stores an empty summary |
| Api.ImmediateIgnoresKeywords | app.py:117-132 | every entry the feed loop would keep under any keywords gives a record in the handler too |
| Api.ImmediateRunRecords | app.py:117-132 | every record has a title, a URL, a bounded summary, and the new feed's name and category |
| Api.EntryRecord | app.py:118-132 | the loop body yields the entry's record, or none |
| Api.CollectImmediate | app.py:117-132 | the loop yields the run function's records, and raises iff some entry is malformed |
| Api.FetchNewFeed | app.py:115-134 | a parse or an entry that raises stores nothing; otherwise the records are inserted only when there are any |
| Api.ApiAddFeed | app.py:88-137 | a blank URL gives 400, an unreadable feed 400, a taken URL 409, each changing nothing; otherwise the feed row is added and the new feed's articles are inserted, or the handler fails after the row was added |
| Api.ApiAddSite | app.py:155-180 | a blank URL gives 400, a taken site 409, each changing nothing; otherwise the one new site is searched and its records inserted |
| Api.IngestAllAppend | app.py:24-28 | ingesting batches in two groups is ingesting them all in order |
| Api.IngestAllExtends | app.py:24-28 | ingesting never removes or reorders a row and never moves the clock back |
| Api.EarlierBatchesKept | app.py:24-28 | the table after the first batches is a prefix of the table after all of them |
| Api.IngestAllPresent | app.py:24-28 | after a refresh every URL any fetcher emitted is in the table |
| Api.RefreshAll | app.py:24-28 | feeds, GitHub, arXiv and Tavily run in that order, each inserting its own batch; the counts are the four batch sizes |
| Api.ApiRefresh | app.py:53-59 | the fetched count is the sum of the four runs and the stats are those of the table after them |

Some functions carry no contract of their own: they are the reference
definitions that the rows above state properties of.

- `TextUtil.Join`, `Collapse`, `Flatten`, `Unspaced`, `WordStarts`: `WordsOfJoin`, `JoinIsTidy`, `JoinEnds`, `CollapseIsTidy`, `WordsKeepText`, `WordsAreRuns`.
- `NumberText.WithCommas`, `Uncomma`, `DigitsValue`: `GroupedRoundTrip`, `GroupedCommaSpacing`, `GroupedLeadingGroup`, `WithCommasRoundTrip`.
- `Normalizer.StripTags`, `MatchesFilter`: `StripTagsLeavesNoTag`, `StripTagsChars`, `StripTagsPlainText`, `MatchesFilterIff`, `MatchesFilterIgnoresCase`.
- `GithubFetcher.RepoUrl`, `TopicsText`, `StarsText`, `RepoSummary`: `RepoRecord`, `SummaryParts`, `RepoSummaryShape`.
- `ArxivFetcher.IdKey`, `PaperKey`: `StripVersion`, `VersionsShareKey`, `PaperRecord`.
- `ArticleStore.Ingest` and `Api.IngestAll`: `InsertAll`, the `InsertAll*` lemmas and the `IngestAll*` lemmas.
- `EnvLoader.Settable`, `SetDefaultOutcome`, `Load`: `SetDefaultRaisesIff`, `Environ.SetDefault`, `LoadKeys`, `LoadKeepsExisting`, `EarliestLineWins`, `LoadDotEnv`.
- The run functions `FeedFetcher.EntriesRun` and `FeedsRun`, `GithubFetcher.ReposRun` and `QueriesRun`, `ArxivFetcher.PapersRun` and `QueriesRun`, `TavilyFetcher.ResultsRun` and `SitesRun`, and `Api.ImmediateRun`: each loop method's `ensures` equates the loop with its run function, and the lemmas named after the run function state what the loop promises.
- `ArxivDedup.DedupRun` and `ChainRun`: the generic loops that the `ArxivDedup` rows are proved for.

## Left out

- Network, threads and the scheduler: upstream answers are inputs, and the 30-minute interval job and `atexit` are not modelled.
- Flask routing, JSON encoding and HTTP status codes: a handler returns an `AddResponse` value.
- `api_articles`, `api_status`, `api_get_feeds` and `api_delete_feed` only pass a store call through; those store calls are modelled (`Store.GetArticles`, `Store.GetStats`, `Store.GetCustomFeeds`, `Store.DeleteCustomFeed`).
- `api_preview_feed` (app.py:77-85) calls `preview_feed`, which `Api.PreviewFeed` models; its own 400 answers, for a missing `url` parameter and for an exception from `preview_feed`, are not modelled.
- `api_get_sites` and `api_delete_site` (app.py:151-152, 184-186) pass through `get_scraped_sites` and `delete_scraped_site`, which are not modelled (see the next line).
- `get_scraped_sites`, `add_scraped_site` and `delete_scraped_site` are not part of this model: the stored sites and the new site's id (`None` for the 409 answer) are inputs.
- `feeds.py` (the built-in `FEEDS` list) is an input of `FetchAllFeeds`.
- Logging with `print`, including the distinct messages for a rate limit and a plain 403, is not modelled.
- The request headers and `GITHUB_TOKEN`, the search URLs and parameters, and the search strings of `GITHUB_QUERIES` and `ARXIV_QUERIES` only reach the network; only the labels are kept.
- Normalizer.CleanHtml: states only that the result is tidy, because `html.unescape` is a parameter; which characters survive tag removal is stated by `StripTagsChars` and `StripTagsLeavesNoTag`.
- Normalizer.ParseDate: chooses between the published and updated stamps only; the `mktime`/`isoformat` conversion and its local time zone are not modelled.
- TextUtil.Lower: lowers ASCII letters only, not Python's full Unicode case mapping; `LIKE` in SQLite is ASCII-only too.
- ArticleStore.FilterByKeyword: treats `%` and `_` in the keyword as plain characters, not as `LIKE` wildcards.
- ArxivFetcher.StripVersion: `\d` is read as the ASCII digits 0-9.
- TavilyFetcher.HostOrUrl: `urlparse` is taken to return a host for every URL and never to raise. On a malformed URL such as `http://[x` it raises `ValueError`. At fetcher.py:300 that call stands outside the per-site `try`, so the error would abort the whole `fetch_tavily_sites` run. The model does not capture that abort.
- Api.SiteName: for the same reason, the 500 answer `api_add_site` gives when `urlparse` raises (app.py:168) is not modelled.
- GithubFetcher.FetchGithubRepos: two exceptions that escape a fetcher are not modelled. If `exc.read()` raises inside the 403 handler (fetcher.py:174), the exception leaves `fetch_github_repos` before `insert_articles`, the repos collected so far are lost, and `_refresh_all` and `api_refresh` stop there; the model always ends the run at a 403 with the earlier records inserted (`ForbiddenEndsRun`). Likewise a `sqlite3` error raised by `insert_articles` (db.py:69-78) would abort any of the four fetchers and the refresh; the model's `Store.InsertArticles` always succeeds.
- Fields of a type other than the one the code expects are not modelled; a JSON `null` is read as the missing field.
- GithubFetcher.StarsText: a `null` star count would raise inside `format`; the model reads it as the missing field, 0.
- `splitlines()` of the `.env` file: the file is given as its list of lines.
- The exception escaping the `.env` loop aborts the import of `app.py`; the model returns it as `raised` and models nothing after it. `Settable` follows POSIX `putenv`; Windows rules are not modelled.
- `fetched_at` and `added_at` are a counter that ticks once per write, not wall-clock text.
