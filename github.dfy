/** `fetch_github_repos` (fetcher.py): run every repository search of
    `GITHUB_QUERIES`, keep each repository URL once across the whole run, and
    insert the records into the store. A 403 answer ends the run; any other
    error ends only the query it hit. */
module GithubFetcher {
  import opened Wrappers
  import opened TextUtil
  import opened NumberText
  import opened Upstream
  import opened ArticleStore
  import opened CandidateBatch

  /** The labels of `GITHUB_QUERIES`, in order: the source each query's
      records carry. The search strings themselves only reach the upstream
      search, whose answers are inputs here. */
  const Labels: seq<string> := [
    "GitHub · Text-to-3D",
    "GitHub · Text-to-3D",
    "GitHub · Text-to-Image",
    "GitHub · Video / World Models",
    "GitHub · World Models",
    "GitHub · Audio AI",
    "GitHub · Game AI",
    "GitHub · Game Agents",
    "GitHub · RL in Games",
    "GitHub · Proc-Gen",
    "GitHub · NVIDIA / AMD",
    "GitHub · Game Engines"
  ]

  const Category: string := "GitHub"

  /** The HTTP status that ends the whole run. */
  const Forbidden: int := 403

  /** The number of topics the summary lists at most. */
  const MaxTopics: nat := 6

  /** `repo.get("html_url", "")`, with a JSON `null` read as empty too. */
  function RepoUrl(repo: Repo): string {
    repo.htmlUrl.GetOr("")
  }

  /** `", ".join(repo.get("topics", [])[:6])` */
  function TopicsText(repo: Repo): string {
    Join(", ", if |repo.topics| <= MaxTopics then repo.topics else repo.topics[..MaxTopics])
  }

  function StarsText(repo: Repo): string {
    "★ " + WithCommas(repo.stars.GetOr(0)) + " stars"
  }

  /** The pieces of the summary: the description when there is one, the
      topics when there are any, and always the star count, in that order. */
  function SummaryParts(repo: Repo): (parts: seq<string>)
    ensures 1 <= |parts| <= 3 && parts[|parts| - 1] == StarsText(repo)
    ensures |parts| == 1 + (if repo.description.GetOr("") != "" then 1 else 0)
                         + (if TopicsText(repo) != "" then 1 else 0)
    ensures repo.description.GetOr("") != "" ==> parts[0] == repo.description.value
    ensures TopicsText(repo) != "" ==> parts[|parts| - 2] == "Topics: " + TopicsText(repo)
  {
    var desc := repo.description.GetOr("");
    (if desc != "" then [desc] else [])
    + (if TopicsText(repo) != "" then ["Topics: " + TopicsText(repo)] else [])
    + [StarsText(repo)]
  }

  /** `" | ".join(summary_parts)` */
  function RepoSummary(repo: Repo): string {
    Join(" | ", SummaryParts(repo))
  }

  /** `repo.get("pushed_at") or repo.get("created_at")` */
  function RepoPublished(repo: Repo): (r: Option<string>)
    ensures repo.pushedAt.Some? && repo.pushedAt.value != "" ==> r == repo.pushedAt
    ensures !(repo.pushedAt.Some? && repo.pushedAt.value != "") ==> r == repo.createdAt
  {
    if repo.pushedAt.Some? && repo.pushedAt.value != "" then repo.pushedAt else repo.createdAt
  }

  /** The pieces of the summary joined by " | ": it starts with the
      description when there is one and always ends with the star count. */
  lemma RepoSummaryShape(repo: Repo)
    ensures var s, stars := RepoSummary(repo), StarsText(repo);
            |stars| <= |s| && s[|s| - |stars|..] == stars
    ensures var s, d := RepoSummary(repo), repo.description.GetOr("");
            d != "" ==> |d| <= |s| && s[..|d|] == d
    ensures repo.description.GetOr("") == "" && TopicsText(repo) == "" ==> RepoSummary(repo) == StarsText(repo)
  {
    JoinEnds(" | ", SummaryParts(repo));
  }

  /** The record of a repository (fetcher.py:164-171): its full name, its
      page URL, the query's label, the category "GitHub", the summary and the
      push date. */
  function RepoRecord(source: string, repo: Repo): (c: Candidate)
    requires repo.fullName.Some?
    ensures c.title == repo.fullName.value && c.url == repo.htmlUrl.GetOr("")
    ensures c.source == source && c.category == Category
    ensures c.summary == RepoSummary(repo) && c.published == RepoPublished(repo)
  {
    Candidate(repo.fullName.value, RepoUrl(repo), source, Category, RepoSummary(repo), RepoPublished(repo))
  }

  // ---------------------------------------------------------------------------
  // The run as a function of the search answers
  // ---------------------------------------------------------------------------

  /** The records of one query's items and the `seen` set after them. An item
      with an empty or already seen URL is skipped; an item without
      `full_name` raises after its URL joined `seen`, which ends the query. */
  function ReposRun(source: string, repos: seq<Repo>, seen: set<string>): (seq<Candidate>, set<string>)
  {
    if repos == [] then ([], seen)
    else
      var url := RepoUrl(repos[0]);
      if url == "" || url in seen then ReposRun(source, repos[1..], seen)
      else if repos[0].fullName.None? then ([], seen + {url})
      else
        var (rest, finalSeen) := ReposRun(source, repos[1..], seen + {url});
        ([RepoRecord(source, repos[0])] + rest, finalSeen)
  }

  /** One query: its records, the `seen` set after it, and whether the run stops. */
  function QueryStep(source: string, outcome: QueryOutcome, seen: set<string>): (seq<Candidate>, set<string>, bool) {
    match outcome
    case Items(repos) =>
      var (records, seen') := ReposRun(source, repos, seen);
      (records, seen', false)
    case HttpError(code) => ([], seen, code == Forbidden)
    case Failed => ([], seen, false)
  }

  /** The records of the queries labelled `labels`, `outcomes[i]` being the
      answer to query `i`, starting from `seen`; and the `seen` set at the end. */
  function QueriesRun(labels: seq<string>, outcomes: seq<QueryOutcome>, seen: set<string>): (seq<Candidate>, set<string>)
    requires |labels| == |outcomes|
  {
    if labels == [] then ([], seen)
    else
      var (records, seen', stop) := QueryStep(labels[0], outcomes[0], seen);
      if stop then (records, seen')
      else
        var (rest, finalSeen) := QueriesRun(labels[1..], outcomes[1..], seen');
        (records + rest, finalSeen)
  }

  // ---------------------------------------------------------------------------
  // Properties of the run
  // ---------------------------------------------------------------------------

  /** Within one query: no empty URL, no URL seen before, none twice; and
      every URL emitted is remembered. */
  lemma {:induction false} ReposRunFresh(source: string, repos: seq<Repo>, seen: set<string>)
    ensures FreshUrls(ReposRun(source, repos, seen).0, seen)
    ensures Recorded(ReposRun(source, repos, seen).0, ReposRun(source, repos, seen).1)
    ensures seen <= ReposRun(source, repos, seen).1
    decreases |repos|
  {
    if repos != [] {
      var url := RepoUrl(repos[0]);
      if url == "" || url in seen {
        ReposRunFresh(source, repos[1..], seen);
        assert ReposRun(source, repos, seen) == ReposRun(source, repos[1..], seen);
      } else if repos[0].fullName.Some? {
        var seen' := seen + {url};
        ReposRunFresh(source, repos[1..], seen');
        var (rest, finalSeen) := ReposRun(source, repos[1..], seen');
        var c := RepoRecord(source, repos[0]);
        FreshCons(c, rest, seen, finalSeen);
      }
    }
  }

  /** Every record of a query carries the query's label and the GitHub category. */
  lemma {:induction false} ReposRunLabelled(source: string, repos: seq<Repo>, seen: set<string>)
    ensures forall i :: 0 <= i < |ReposRun(source, repos, seen).0| ==>
              ReposRun(source, repos, seen).0[i].source == source && ReposRun(source, repos, seen).0[i].category == Category
    decreases |repos|
  {
    if repos != [] {
      var url := RepoUrl(repos[0]);
      if url == "" || url in seen {
        ReposRunLabelled(source, repos[1..], seen);
        assert ReposRun(source, repos, seen) == ReposRun(source, repos[1..], seen);
      } else if repos[0].fullName.Some? {
        ReposRunLabelled(source, repos[1..], seen + {url});
        var rest := ReposRun(source, repos[1..], seen + {url}).0;
        var r := [RepoRecord(source, repos[0])] + rest;
        assert ReposRun(source, repos, seen).0 == r;
        forall i | 0 <= i < |r| ensures r[i].source == source && r[i].category == Category {
          if i > 0 { assert r[i] == rest[i - 1]; }
        }
      }
    }
  }

  /** No URL is emitted twice in a run, none is empty, and none was in `seen`
      before the run. */
  lemma {:induction false} QueriesRunFresh(labels: seq<string>, outcomes: seq<QueryOutcome>, seen: set<string>)
    requires |labels| == |outcomes|
    ensures FreshUrls(QueriesRun(labels, outcomes, seen).0, seen)
    ensures Recorded(QueriesRun(labels, outcomes, seen).0, QueriesRun(labels, outcomes, seen).1)
    ensures seen <= QueriesRun(labels, outcomes, seen).1
    decreases |labels|
  {
    if labels != [] {
      var source := labels[0];
      var (records, seen', stop) := QueryStep(source, outcomes[0], seen);
      if outcomes[0].Items? {
        ReposRunFresh(source, outcomes[0].repos, seen);
      }
      if !stop {
        QueriesRunFresh(labels[1..], outcomes[1..], seen');
        var (rest, finalSeen) := QueriesRun(labels[1..], outcomes[1..], seen');
        FreshConcat(records, rest, seen, seen');
        RecordedConcat(records, rest, seen', finalSeen);
      }
    }
  }

  /** After a 403 on query `k`, no later query is looked at: the run over all
      queries is the run over the first `k` (`break`). */
  lemma {:induction false} ForbiddenEndsRun(labels: seq<string>, outcomes: seq<QueryOutcome>, seen: set<string>, k: nat)
    requires |labels| == |outcomes| && k < |labels|
    requires outcomes[k] == HttpError(Forbidden)
    ensures QueriesRun(labels, outcomes, seen) == QueriesRun(labels[..k], outcomes[..k], seen)
    decreases k
  {
    if k > 0 {
      var (records, seen', stop) := QueryStep(labels[0], outcomes[0], seen);
      if !stop {
        assert labels[..k][1..] == labels[1..][..k - 1] && outcomes[..k][1..] == outcomes[1..][..k - 1];
        ForbiddenEndsRun(labels[1..], outcomes[1..], seen', k - 1);
      }
    } else {
      assert labels[..0] == [];
    }
  }

  /** Only the answers up to the first 403 matter: two runs whose answers
      agree up to and including a 403 on query `k` give the same records. */
  lemma AnswersAfterForbiddenIgnored(labels: seq<string>, outcomes: seq<QueryOutcome>, other: seq<QueryOutcome>,
                                     seen: set<string>, k: nat)
    requires |labels| == |outcomes| == |other| && k < |labels|
    requires outcomes[k] == HttpError(Forbidden) && outcomes[..k + 1] == other[..k + 1]
    ensures QueriesRun(labels, outcomes, seen) == QueriesRun(labels, other, seen)
  {
    ForbiddenEndsRun(labels, outcomes, seen, k);
    assert other[k] == other[..k + 1][k];
    ForbiddenEndsRun(labels, other, seen, k);
    assert outcomes[..k] == outcomes[..k + 1][..k] && other[..k] == other[..k + 1][..k];
  }

  /** Any other failure of query `k` (another HTTP status, or any other
      exception) only skips that query: the run is the run without it. */
  lemma {:induction false} OtherFailureSkipsQuery(labels: seq<string>, outcomes: seq<QueryOutcome>, seen: set<string>, k: nat)
    requires |labels| == |outcomes| && k < |labels|
    requires outcomes[k] == Failed || (outcomes[k].HttpError? && outcomes[k].code != Forbidden)
    ensures QueriesRun(labels, outcomes, seen)
            == QueriesRun(labels[..k] + labels[k + 1..], outcomes[..k] + outcomes[k + 1..], seen)
    decreases k
  {
    var qs, os := labels[..k] + labels[k + 1..], outcomes[..k] + outcomes[k + 1..];
    if k == 0 {
      assert qs == labels[1..] && os == outcomes[1..];
      assert QueriesRun(labels, outcomes, seen) == ([] + QueriesRun(labels[1..], outcomes[1..], seen).0, QueriesRun(labels[1..], outcomes[1..], seen).1);
      assert [] + QueriesRun(labels[1..], outcomes[1..], seen).0 == QueriesRun(labels[1..], outcomes[1..], seen).0;
    } else {
      var (records, seen', stop) := QueryStep(labels[0], outcomes[0], seen);
      assert qs[0] == labels[0] && os[0] == outcomes[0];
      assert qs[1..] == labels[1..][..k - 1] + labels[1..][k..];
      assert os[1..] == outcomes[1..][..k - 1] + outcomes[1..][k..];
      if !stop {
        OtherFailureSkipsQuery(labels[1..], outcomes[1..], seen', k - 1);
      }
    }
  }

  /** Records of earlier queries are kept whatever the later queries do: the
      run over the first `k` queries is a prefix of the whole run. */
  lemma {:induction false} EarlierQueriesKept(labels: seq<string>, outcomes: seq<QueryOutcome>, seen: set<string>, k: nat)
    requires |labels| == |outcomes| && k <= |labels|
    ensures var whole := QueriesRun(labels, outcomes, seen).0;
            var early := QueriesRun(labels[..k], outcomes[..k], seen).0;
            |early| <= |whole| && whole[..|early|] == early
    decreases k
  {
    if k == 0 {
      assert labels[..0] == [];
    } else {
      var (records, seen', stop) := QueryStep(labels[0], outcomes[0], seen);
      assert labels[..k][0] == labels[0] && outcomes[..k][0] == outcomes[0];
      if !stop {
        assert labels[..k][1..] == labels[1..][..k - 1] && outcomes[..k][1..] == outcomes[1..][..k - 1];
        EarlierQueriesKept(labels[1..], outcomes[1..], seen', k - 1);
        var whole := QueriesRun(labels[1..], outcomes[1..], seen').0;
        var early := QueriesRun(labels[1..][..k - 1], outcomes[1..][..k - 1], seen').0;
        assert (records + whole)[..|records + early|] == records + whole[..|early|];
      }
    }
  }

  // ---------------------------------------------------------------------------
  // The loop
  // ---------------------------------------------------------------------------

  /** The item loop of one query. */
  method CollectRepos(source: string, repos: seq<Repo>, seen0: set<string>)
    returns (records: seq<Candidate>, seen: set<string>)
    ensures (records, seen) == ReposRun(source, repos, seen0)
  {
    records, seen := [], seen0;
    var j := 0;
    while j < |repos|
      invariant 0 <= j <= |repos|
      invariant records + ReposRun(source, repos[j..], seen).0 == ReposRun(source, repos, seen0).0
      invariant ReposRun(source, repos[j..], seen).1 == ReposRun(source, repos, seen0).1
    {
      var repo := repos[j];
      assert repos[j..][0] == repo && repos[j..][1..] == repos[j + 1..];
      j := j + 1;
      var url := RepoUrl(repo);
      if url == "" || url in seen {
        continue;
      }
      seen := seen + {url};
      if repo.fullName.None? {
        ConcatEmpty(records);
        return;
      }
      var record := RepoRecord(source, repo);
      ConcatAssoc(records, [record], ReposRun(source, repos[j..], seen).0);
      records := records + [record];
    }
    ConcatEmpty(records);
  }

  /** One more query of the loop: either the run stops here and the records
      so far are all of it, or they grow by this query's records. */
  lemma QueriesRunStep(labels: seq<string>, outcomes: seq<QueryOutcome>, i: nat,
                       done: seq<Candidate>, seen: set<string>, whole: seq<Candidate>)
    requires |labels| == |outcomes| && i < |labels|
    requires done + QueriesRun(labels[i..], outcomes[i..], seen).0 == whole
    ensures var step := QueryStep(labels[i], outcomes[i], seen);
            && (step.2 ==> step.0 == [] && done == whole)
            && (!step.2 ==> (done + step.0) + QueriesRun(labels[i + 1..], outcomes[i + 1..], step.1).0 == whole)
  {
    assert labels[i..][0] == labels[i] && outcomes[i..][0] == outcomes[i];
    assert labels[i..][1..] == labels[i + 1..] && outcomes[i..][1..] == outcomes[i + 1..];
    var step := QueryStep(labels[i], outcomes[i], seen);
    if step.2 {
      ConcatEmpty(done);
    } else {
      ConcatAssoc(done, step.0, QueriesRun(labels[i + 1..], outcomes[i + 1..], step.1).0);
    }
  }

  /** The query loop of `fetch_github_repos`, up to the insert: `break` on a
      403, go on to the next query after any other failure. */
  method CollectGithubRepos(labels: seq<string>, outcomes: seq<QueryOutcome>) returns (repos: seq<Candidate>)
    requires |outcomes| == |labels|
    ensures repos == QueriesRun(labels, outcomes, {}).0
  {
    repos := [];
    var seen: set<string> := {};
    ghost var whole := QueriesRun(labels, outcomes, {}).0;
    var i := 0;
    while i < |labels|
      invariant 0 <= i <= |labels|
      invariant repos + QueriesRun(labels[i..], outcomes[i..], seen).0 == whole
    {
      var source := labels[i];
      QueriesRunStep(labels, outcomes, i, repos, seen, whole);
      ghost var step := QueryStep(source, outcomes[i], seen);
      match outcomes[i] {
        case Items(items) =>
          var found, seen' := CollectRepos(source, items, seen);
          assert found == step.0 && seen' == step.1 && !step.2;
          repos, seen := repos + found, seen';
        case HttpError(code) =>
          if code == Forbidden {
            return;
          }
          assert step.0 == [] && step.1 == seen && !step.2;
          ConcatEmpty(repos);
        case Failed =>
          assert step.0 == [] && step.1 == seen && !step.2;
          ConcatEmpty(repos);
      }
      i := i + 1;
    }
    assert labels[i..] == [];
    ConcatEmpty(repos);
  }

  /** `fetch_github_repos`: `outcomes[i]` is the answer to the i-th search.
      Returns the number of records handed to `insert_articles`. */
  method FetchGithubRepos(store: Store, outcomes: seq<QueryOutcome>) returns (count: nat)
    requires store.Valid()
    requires |outcomes| == |Labels|
    modifies store
    ensures store.Valid()
    ensures store.feeds == old(store.feeds) && store.nextFeedId == old(store.nextFeedId)
    ensures var run := QueriesRun(Labels, outcomes, {}).0;
            && count == |run|
            && store.articles == Ingest(old(store.articles), old(store.clock), run).0
            && store.clock == Ingest(old(store.articles), old(store.clock), run).1
  {
    ghost var rows0, clock0 := store.articles, store.clock;
    var repos := CollectGithubRepos(Labels, outcomes);
    if repos != [] {
      store.InsertArticles(repos);
      assert store.articles == Ingest(rows0, clock0, repos).0;
      assert store.clock == Ingest(rows0, clock0, repos).1;
    }
    count := |repos|;
  }
}
