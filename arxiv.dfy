/** `fetch_arxiv_papers` (fetcher.py): run every arXiv search of
    `ARXIV_QUERIES`, keep each paper once across the whole run whatever its
    version, prefix the abstract with up to three author names, and insert
    the records into the store. */
module ArxivFetcher {
  import opened Wrappers
  import opened TextUtil
  import opened NumberText
  import opened Normalizer
  import opened Upstream
  import opened ArticleStore
  import opened CandidateBatch

  /** The labels of `ARXIV_QUERIES`, in order: the source each query's
      records carry. The `search_query` strings themselves only reach the
      upstream API, whose answers are inputs here. */
  const Labels: seq<string> := [
    "arXiv · Text-to-3D",
    "arXiv · Neural Rendering",
    "arXiv · Video / World Models",
    "arXiv · Text-to-Image",
    "arXiv · Audio AI",
    "arXiv · RL / Game Agents",
    "arXiv · Game AI",
    "arXiv · LLMs in Games"
  ]

  const Category: string := "Research"

  /** The number of author names the summary lists at most. */
  const MaxAuthors: nat := 3

  const EtAl: string := " et al."

  const Dash: string := " — "

  // ---------------------------------------------------------------------------
  // The paper key: the id without its version
  // ---------------------------------------------------------------------------

  /** The number of decimal digits `s` ends with. */
  function TrailingDigits(s: string): (k: nat)
    ensures k <= |s|
    ensures forall i :: |s| - k <= i < |s| ==> IsDigit(s[i])
    ensures k < |s| ==> !IsDigit(s[|s| - k - 1])
  {
    if s == [] || !IsDigit(s[|s| - 1]) then 0
    else TrailingDigits(s[..|s| - 1]) + 1
  }

  /** `re.sub(r"v\d+$", "", s)`: a `v` followed by one or more digits at the
      very end is removed. */
  function StripVersion(s: string): (r: string)
    ensures |r| <= |s| && r == s[..|r|]
    ensures r != s ==> |s| - |r| >= 2 && s[|r|] == 'v' && AllDigits(s[|r| + 1..])
  {
    var k := TrailingDigits(s);
    if 1 <= k < |s| && s[|s| - k - 1] == 'v' then s[..|s| - k - 1] else s
  }

  /** A versioned id loses exactly its version. */
  lemma StripVersionOfVersioned(base: string, digits: string)
    requires digits != [] && AllDigits(digits)
    ensures StripVersion(base + "v" + digits) == base
  {
    var s := base + "v" + digits;
    var k := TrailingDigits(s);
    assert s[|s| - |digits|..] == digits;
    assert s[|base|] == 'v';
    assert s[..|base|] == base;
  }

  /** An id that does not end in `v` and digits is its own key. */
  lemma StripVersionOfUnversioned(s: string)
    requires !exists j :: 0 <= j < |s| - 1 && s[j] == 'v' && AllDigits(s[j + 1..])
    ensures StripVersion(s) == s
  {
  }

  /** Two versions of one paper have the same key. */
  lemma VersionsShareKey(base: string, d1: string, d2: string)
    requires d1 != [] && AllDigits(d1) && d2 != [] && AllDigits(d2)
    ensures StripVersion(base + "v" + d1) == StripVersion(base + "v" + d2)
  {
    StripVersionOfVersioned(base, d1);
    StripVersionOfVersioned(base, d2);
  }

  /** `re.sub(r"v\d+$", "", id.strip())` */
  function IdKey(id: string): string {
    StripVersion(Strip(id))
  }

  /** The key of a well-formed entry, from `entry.get("id", "")`. */
  function PaperKey(e: FeedEntry): string
    requires e.Entry?
  {
    IdKey(e.id)
  }

  // ---------------------------------------------------------------------------
  // One record
  // ---------------------------------------------------------------------------

  /** `s.replace("\n", " ")` */
  function ReplaceNewlines(s: string): (r: string)
    ensures |r| == |s| && '\n' !in r
    ensures forall i :: 0 <= i < |s| ==> r[i] == if s[i] == '\n' then ' ' else s[i]
  {
    seq(|s|, i requires 0 <= i < |s| => if s[i] == '\n' then ' ' else s[i])
  }

  /** `[a.get("name", "") for a in authors[:3]]` */
  function AuthorNames(authors: seq<Option<string>>): (names: seq<string>)
    ensures |names| == if |authors| <= MaxAuthors then |authors| else MaxAuthors
    ensures forall i :: 0 <= i < |names| ==> names[i] == authors[i].GetOr("")
  {
    var firsts := if |authors| <= MaxAuthors then authors else authors[..MaxAuthors];
    seq(|firsts|, i requires 0 <= i < |firsts| => firsts[i].GetOr(""))
  }

  /** The summary before truncation: the abstract, after the first three
      author names and " et al." when there are more than three authors. */
  function PaperSummary(authors: seq<Option<string>>, abstractText: string): (r: string)
    ensures authors == [] ==> r == abstractText
    ensures authors != [] && |authors| <= MaxAuthors ==> r == Join(", ", AuthorNames(authors)) + Dash + abstractText
    ensures |authors| > MaxAuthors ==> r == Join(", ", AuthorNames(authors)) + EtAl + Dash + abstractText
  {
    var names := AuthorNames(authors);
    if names != [] then
      var suffix := if |authors| > MaxAuthors then EtAl else "";
      Join(", ", names) + suffix + Dash + abstractText
    else abstractText
  }

  function PaperRecord(source: string, e: FeedEntry, unescape: Unescaper): (c: Candidate)
    requires e.Entry?
    ensures c.url == PaperKey(e) && c.source == source && c.category == Category
    ensures c.title == CleanHtml(ReplaceNewlines(e.title), unescape)
    ensures c.summary == Truncate(PaperSummary(e.authors, CleanHtml(e.summary.GetOr(""), unescape)), SummaryLimit)
    ensures |c.summary| <= SummaryLimit
    ensures c.published == ParseDate(e.published, e.updated)
  {
    var title := CleanHtml(ReplaceNewlines(e.title), unescape);
    var abstractText := CleanHtml(e.summary.GetOr(""), unescape);
    Candidate(title, PaperKey(e), source, Category,
              Truncate(PaperSummary(e.authors, abstractText), SummaryLimit),
              ParseDate(e.published, e.updated))
  }

  // ---------------------------------------------------------------------------
  // The run as a function of the search answers
  // ---------------------------------------------------------------------------

  /** The records of one query's entries and the `seen` set after them. An
      entry with an empty or already seen key is skipped; an entry that raises
      ends the query, after its key joined `seen` when the raise comes only
      after `seen.add`. */
  function PapersRun(source: string, entries: seq<FeedEntry>, seen: set<string>, unescape: Unescaper)
    : (seq<Candidate>, set<string>)
  {
    if entries == [] then ([], seen)
    else match entries[0]
      case Malformed(None) => ([], seen)
      case Malformed(Some(id)) =>
        var key := IdKey(id);
        if key == "" || key in seen then PapersRun(source, entries[1..], seen, unescape)
        else ([], seen + {key})
      case Entry(_, _, _, _, _, _, _, _, _) =>
        var key := PaperKey(entries[0]);
        if key == "" || key in seen then PapersRun(source, entries[1..], seen, unescape)
        else
          var (rest, finalSeen) := PapersRun(source, entries[1..], seen + {key}, unescape);
          ([PaperRecord(source, entries[0], unescape)] + rest, finalSeen)
  }

  function QueryStep(source: string, outcome: FeedOutcome, seen: set<string>, unescape: Unescaper)
    : (seq<Candidate>, set<string>)
  {
    match outcome
    case Parsed(entries) => PapersRun(source, entries, seen, unescape)
    case Raised => ([], seen)
  }

  /** The records of the queries labelled `labels`, `outcomes[i]` being what
      parsing the answer to query `i` gave, starting from `seen`. */
  function QueriesRun(labels: seq<string>, outcomes: seq<FeedOutcome>, seen: set<string>, unescape: Unescaper)
    : (seq<Candidate>, set<string>)
    requires |labels| == |outcomes|
  {
    if labels == [] then ([], seen)
    else
      var (records, seen') := QueryStep(labels[0], outcomes[0], seen, unescape);
      var (rest, finalSeen) := QueriesRun(labels[1..], outcomes[1..], seen', unescape);
      (records + rest, finalSeen)
  }

  // ---------------------------------------------------------------------------
  // Properties of the run
  // ---------------------------------------------------------------------------

  /** What every record of the run satisfies: its category, and an excerpt
      of at most 500 characters. */
  predicate PaperShaped(c: Candidate) {
    c.category == Category && |c.summary| <= SummaryLimit
  }

  lemma {:induction false} PapersRunFresh(source: string, entries: seq<FeedEntry>, seen: set<string>, unescape: Unescaper)
    ensures FreshUrls(PapersRun(source, entries, seen, unescape).0, seen)
    ensures Recorded(PapersRun(source, entries, seen, unescape).0, PapersRun(source, entries, seen, unescape).1)
    ensures seen <= PapersRun(source, entries, seen, unescape).1
    decreases |entries|
  {
    if entries != [] && entries[0].Malformed? && entries[0].idRead.Some? {
      var key := IdKey(entries[0].idRead.value);
      if key == "" || key in seen {
        PapersRunFresh(source, entries[1..], seen, unescape);
      }
    } else if entries != [] && entries[0].Entry? {
      var key := PaperKey(entries[0]);
      if key == "" || key in seen {
        PapersRunFresh(source, entries[1..], seen, unescape);
        assert PapersRun(source, entries, seen, unescape) == PapersRun(source, entries[1..], seen, unescape);
      } else {
        PapersRunFresh(source, entries[1..], seen + {key}, unescape);
        var (rest, finalSeen) := PapersRun(source, entries[1..], seen + {key}, unescape);
        var c := PaperRecord(source, entries[0], unescape);
        FreshCons(c, rest, seen, finalSeen);
      }
    }
  }

  lemma {:induction false} PapersRunShaped(source: string, entries: seq<FeedEntry>, seen: set<string>, unescape: Unescaper)
    ensures forall i :: 0 <= i < |PapersRun(source, entries, seen, unescape).0| ==>
              PaperShaped(PapersRun(source, entries, seen, unescape).0[i])
    decreases |entries|
  {
    if entries != [] && entries[0].Malformed? && entries[0].idRead.Some? {
      var key := IdKey(entries[0].idRead.value);
      if key == "" || key in seen {
        PapersRunShaped(source, entries[1..], seen, unescape);
      }
    } else if entries != [] && entries[0].Entry? {
      var key := PaperKey(entries[0]);
      if key == "" || key in seen {
        PapersRunShaped(source, entries[1..], seen, unescape);
        assert PapersRun(source, entries, seen, unescape) == PapersRun(source, entries[1..], seen, unescape);
      } else {
        PapersRunShaped(source, entries[1..], seen + {key}, unescape);
        var rest := PapersRun(source, entries[1..], seen + {key}, unescape).0;
        var r := [PaperRecord(source, entries[0], unescape)] + rest;
        assert PapersRun(source, entries, seen, unescape).0 == r;
        forall i | 0 <= i < |r| ensures PaperShaped(r[i]) {
          if i > 0 { assert r[i] == rest[i - 1]; }
        }
      }
    }
  }

  /** No paper is emitted twice in a run (two versions of one paper count as
      one), none with an empty key, and every excerpt is at most 500 characters. */
  lemma {:induction false} QueriesRunFresh(labels: seq<string>, outcomes: seq<FeedOutcome>, seen: set<string>, unescape: Unescaper)
    requires |labels| == |outcomes|
    ensures FreshUrls(QueriesRun(labels, outcomes, seen, unescape).0, seen)
    ensures Recorded(QueriesRun(labels, outcomes, seen, unescape).0, QueriesRun(labels, outcomes, seen, unescape).1)
    ensures seen <= QueriesRun(labels, outcomes, seen, unescape).1
    ensures forall i :: 0 <= i < |QueriesRun(labels, outcomes, seen, unescape).0| ==>
              PaperShaped(QueriesRun(labels, outcomes, seen, unescape).0[i])
    decreases |labels|
  {
    if labels != [] {
      var (records, seen') := QueryStep(labels[0], outcomes[0], seen, unescape);
      if outcomes[0].Parsed? {
        PapersRunFresh(labels[0], outcomes[0].entries, seen, unescape);
        PapersRunShaped(labels[0], outcomes[0].entries, seen, unescape);
      }
      QueriesRunFresh(labels[1..], outcomes[1..], seen', unescape);
      var (rest, finalSeen) := QueriesRun(labels[1..], outcomes[1..], seen', unescape);
      FreshConcat(records, rest, seen, seen');
      RecordedConcat(records, rest, seen', finalSeen);
      assert forall i :: 0 <= i < |records + rest| ==> (records + rest)[i] == if i < |records| then records[i] else rest[i - |records|];
    }
  }

  // ---------------------------------------------------------------------------
  // The loop
  // ---------------------------------------------------------------------------

  /** One more entry of the loop: what it contributes, followed by the rest
      of the query's run from the updated `seen`, is still the whole run. */
  lemma PapersRunStep(source: string, entries: seq<FeedEntry>, j: nat, done: seq<Candidate>, seen: set<string>,
                      total: (seq<Candidate>, set<string>), unescape: Unescaper)
    requires j < |entries|
    requires done + PapersRun(source, entries[j..], seen, unescape).0 == total.0
    requires PapersRun(source, entries[j..], seen, unescape).1 == total.1
    ensures entries[j] == Malformed(None) ==> done == total.0 && seen == total.1
    ensures (entries[j].Entry? && (PaperKey(entries[j]) == "" || PaperKey(entries[j]) in seen))
            || (entries[j].Malformed? && entries[j].idRead.Some?
                && (IdKey(entries[j].idRead.value) == "" || IdKey(entries[j].idRead.value) in seen)) ==>
              done + PapersRun(source, entries[j + 1..], seen, unescape).0 == total.0
              && PapersRun(source, entries[j + 1..], seen, unescape).1 == total.1
    ensures entries[j].Malformed? && entries[j].idRead.Some?
            && IdKey(entries[j].idRead.value) != "" && IdKey(entries[j].idRead.value) !in seen ==>
              done == total.0 && seen + {IdKey(entries[j].idRead.value)} == total.1
    ensures entries[j].Entry? && PaperKey(entries[j]) != "" && PaperKey(entries[j]) !in seen ==>
              var seen' := seen + {PaperKey(entries[j])};
              (done + [PaperRecord(source, entries[j], unescape)]) + PapersRun(source, entries[j + 1..], seen', unescape).0 == total.0
              && PapersRun(source, entries[j + 1..], seen', unescape).1 == total.1
  {
    assert entries[j..][0] == entries[j] && entries[j..][1..] == entries[j + 1..];
    if entries[j].Malformed? {
      ConcatEmpty(done);
    } else {
      var key := PaperKey(entries[j]);
      if key != "" && key !in seen {
        var rest := PapersRun(source, entries[j + 1..], seen + {key}, unescape);
        ConcatAssoc(done, [PaperRecord(source, entries[j], unescape)], rest.0);
      }
    }
  }

  /** The entry loop of one query. */
  method CollectPapers(source: string, entries: seq<FeedEntry>, seen0: set<string>, unescape: Unescaper)
    returns (records: seq<Candidate>, seen: set<string>)
    ensures (records, seen) == PapersRun(source, entries, seen0, unescape)
  {
    records, seen := [], seen0;
    ghost var total := PapersRun(source, entries, seen0, unescape);
    var j := 0;
    while j < |entries|
      invariant 0 <= j <= |entries|
      invariant records + PapersRun(source, entries[j..], seen, unescape).0 == total.0
      invariant PapersRun(source, entries[j..], seen, unescape).1 == total.1
    {
      var entry := entries[j];
      PapersRunStep(source, entries, j, records, seen, total, unescape);
      if entry == Malformed(None) {
        return;
      }
      j := j + 1;
      var rawId := if entry.Entry? then entry.id else entry.idRead.value;
      var paperUrl := StripVersion(Strip(rawId));
      if paperUrl == "" || paperUrl in seen {
        continue;
      }
      seen := seen + {paperUrl};
      if entry.Malformed? {
        return;
      }
      var title := CleanHtml(ReplaceNewlines(entry.title), unescape);
      var abstractText := CleanHtml(entry.summary.GetOr(""), unescape);
      var names := AuthorNames(entry.authors);
      var summary := abstractText;
      if names != [] {
        var suffix := if |entry.authors| > MaxAuthors then EtAl else "";
        summary := Join(", ", names) + suffix + Dash + abstractText;
      }
      var record := Candidate(title, paperUrl, source, Category, Truncate(summary, SummaryLimit),
                              ParseDate(entry.published, entry.updated));
      assert record == PaperRecord(source, entry, unescape);
      records := records + [record];
    }
    assert entries[j..] == [];
    ConcatEmpty(records);
  }

  /** One more query of the loop: the records so far grow by this query's. */
  lemma QueriesRunStep(labels: seq<string>, outcomes: seq<FeedOutcome>, i: nat,
                       done: seq<Candidate>, seen: set<string>, whole: seq<Candidate>, unescape: Unescaper)
    requires |labels| == |outcomes| && i < |labels|
    requires done + QueriesRun(labels[i..], outcomes[i..], seen, unescape).0 == whole
    ensures var (records, seen') := QueryStep(labels[i], outcomes[i], seen, unescape);
            (done + records) + QueriesRun(labels[i + 1..], outcomes[i + 1..], seen', unescape).0 == whole
  {
    assert labels[i..][0] == labels[i] && outcomes[i..][0] == outcomes[i];
    assert labels[i..][1..] == labels[i + 1..] && outcomes[i..][1..] == outcomes[i + 1..];
    var (records, seen') := QueryStep(labels[i], outcomes[i], seen, unescape);
    ConcatAssoc(done, records, QueriesRun(labels[i + 1..], outcomes[i + 1..], seen', unescape).0);
  }

  /** The query loop of `fetch_arxiv_papers`, up to the insert: a query whose
      parsing raises is skipped. */
  method CollectArxivPapers(labels: seq<string>, outcomes: seq<FeedOutcome>, unescape: Unescaper)
    returns (papers: seq<Candidate>)
    requires |outcomes| == |labels|
    ensures papers == QueriesRun(labels, outcomes, {}, unescape).0
  {
    papers := [];
    var seen: set<string> := {};
    var i := 0;
    while i < |labels|
      invariant 0 <= i <= |labels|
      invariant papers + QueriesRun(labels[i..], outcomes[i..], seen, unescape).0 == QueriesRun(labels, outcomes, {}, unescape).0
    {
      QueriesRunStep(labels, outcomes, i, papers, seen, QueriesRun(labels, outcomes, {}, unescape).0, unescape);
      if outcomes[i].Parsed? {
        var found, seen' := CollectPapers(labels[i], outcomes[i].entries, seen, unescape);
        papers, seen := papers + found, seen';
      } else {
        ConcatEmpty(papers);
      }
      i := i + 1;
    }
    assert labels[i..] == [];
    ConcatEmpty(papers);
  }

  /** `fetch_arxiv_papers`: `outcomes[i]` is what parsing the answer to the
      i-th search gave. Returns the number of records handed to
      `insert_articles`. */
  method FetchArxivPapers(store: Store, outcomes: seq<FeedOutcome>, unescape: Unescaper) returns (count: nat)
    requires store.Valid()
    requires |outcomes| == |Labels|
    modifies store
    ensures store.Valid()
    ensures store.feeds == old(store.feeds) && store.nextFeedId == old(store.nextFeedId)
    ensures var run := QueriesRun(Labels, outcomes, {}, unescape).0;
            && count == |run|
            && store.articles == Ingest(old(store.articles), old(store.clock), run).0
            && store.clock == Ingest(old(store.articles), old(store.clock), run).1
  {
    ghost var rows0, clock0 := store.articles, store.clock;
    var papers := CollectArxivPapers(Labels, outcomes, unescape);
    if papers != [] {
      store.InsertArticles(papers);
      assert store.articles == Ingest(rows0, clock0, papers).0;
      assert store.clock == Ingest(rows0, clock0, papers).1;
    }
    count := |papers|;
  }
}
