/** Facts about a batch of records handed to `insert_articles` that the
    fetch loops share: the run-wide `seen` sets of the GitHub and arXiv loops
    and the way each loop appends one query's records to the run. */
module CandidateBatch {
  import opened ArticleStore

  /** No record has an empty URL or one from `seen`, and no two records share a URL. */
  predicate FreshUrls(records: seq<Candidate>, seen: set<string>) {
    && (forall i :: 0 <= i < |records| ==> records[i].url != "" && records[i].url !in seen)
    && (forall i, j :: 0 <= i < j < |records| ==> records[i].url != records[j].url)
  }

  /** Every URL of `records` is in `seen`. */
  predicate Recorded(records: seq<Candidate>, seen: set<string>) {
    forall i :: 0 <= i < |records| ==> records[i].url in seen
  }

  lemma FreshConcat(a: seq<Candidate>, b: seq<Candidate>, seen: set<string>, seen': set<string>)
    requires FreshUrls(a, seen) && Recorded(a, seen') && seen <= seen' && FreshUrls(b, seen')
    ensures FreshUrls(a + b, seen)
  {
    forall i, j | 0 <= i < j < |a + b| ensures (a + b)[i].url != (a + b)[j].url {
      if j >= |a| {
        assert (a + b)[j] == b[j - |a|];
        if i < |a| { assert (a + b)[i] == a[i]; }
      }
    }
  }

  lemma RecordedConcat(a: seq<Candidate>, b: seq<Candidate>, seen: set<string>, seen': set<string>)
    requires Recorded(a, seen) && seen <= seen' && Recorded(b, seen')
    ensures Recorded(a + b, seen')
  {
    forall i | 0 <= i < |a + b| ensures (a + b)[i].url in seen' {
      if i < |a| { assert (a + b)[i] == a[i]; } else { assert (a + b)[i] == b[i - |a|]; }
    }
  }

  /** A record with a new URL in front of a batch that is fresh once that
      URL is remembered. */
  lemma FreshCons(c: Candidate, rest: seq<Candidate>, seen: set<string>, finalSeen: set<string>)
    requires c.url != "" && c.url !in seen
    requires FreshUrls(rest, seen + {c.url}) && Recorded(rest, finalSeen) && seen + {c.url} <= finalSeen
    ensures FreshUrls([c] + rest, seen) && Recorded([c] + rest, finalSeen)
  {
    assert FreshUrls([c], seen) && Recorded([c], seen + {c.url});
    FreshConcat([c], rest, seen, seen + {c.url});
    RecordedConcat([c], rest, seen + {c.url}, finalSeen);
  }

  /** In a fresh batch a URL picks out one record. */
  lemma SameUrlSameRecord(records: seq<Candidate>, seen: set<string>, i: nat, j: nat)
    requires FreshUrls(records, seen) && i < |records| && j < |records| && records[i].url == records[j].url
    ensures i == j
  {
  }

  lemma ConcatEmpty<T>(a: seq<T>)
    ensures a + [] == a
  {
  }

  lemma ConcatAssoc<T>(a: seq<T>, b: seq<T>, c: seq<T>)
    ensures (a + b) + c == a + (b + c)
  {
  }
}
