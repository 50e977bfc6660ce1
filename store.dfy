/** db.py: the `articles` table (URL-unique, insert-or-ignore) and the
    `custom_feeds` table, held in memory by one `Store` object. SQL row ids of
    articles, connections and collations are not modelled; the store's
    `clock` stands for `CURRENT_TIMESTAMP`. */
module ArticleStore {
  import opened Wrappers
  import opened TextUtil

  /** One dict of the batch given to `insert_articles`. */
  datatype Candidate = Candidate(
    title: string, url: string, source: string, category: string,
    summary: string, published: Option<string>)

  /** One row of the `articles` table. */
  datatype Article = Article(
    title: string, url: string, source: string, category: string,
    summary: string, published: Option<string>, fetchedAt: nat)

  /** One row of the `custom_feeds` table. */
  datatype CustomFeed = CustomFeed(id: nat, name: string, url: string, category: string, addedAt: nat)

  /** Outcome of `add_custom_feed`: the new row id, or the UNIQUE(url) violation. */
  datatype AddFeedResult = Added(id: nat) | UrlTaken

  /** What `get_stats` returns. */
  datatype Stats = Stats(total: nat, lastFetched: Option<nat>)

  // ---------------------------------------------------------------------------
  // The articles table as a sequence of rows in insertion order
  // ---------------------------------------------------------------------------

  predicate UniqueUrls(rows: seq<Article>) {
    forall i, j :: 0 <= i < j < |rows| ==> rows[i].url != rows[j].url
  }

  predicate HasUrl(rows: seq<Article>, url: string) {
    exists i :: 0 <= i < |rows| && rows[i].url == url
  }

  function ToRow(c: Candidate, now: nat): Article {
    Article(c.title, c.url, c.source, c.category, c.summary, c.published, now)
  }

  /** `INSERT OR IGNORE` of one record: a URL already present leaves the table as it is. */
  function InsertOne(rows: seq<Article>, c: Candidate, now: nat): seq<Article> {
    if HasUrl(rows, c.url) then rows else rows + [ToRow(c, now)]
  }

  /** `executemany` of `INSERT OR IGNORE` over a batch, record by record. */
  function InsertAll(rows: seq<Article>, batch: seq<Candidate>, now: nat): (r: seq<Article>)
    ensures |rows| <= |r| && r[..|rows|] == rows
    ensures forall k :: 0 <= k < |batch| ==> HasUrl(r, batch[k].url)
    ensures forall i :: |rows| <= i < |r| ==> r[i].fetchedAt == now
    decreases |batch|
  {
    if batch == [] then rows
    else
      var next := InsertOne(rows, batch[0], now);
      var r := InsertAll(next, batch[1..], now);
      assert r[..|next|] == next;
      assert HasUrl(next, batch[0].url) by {
        if !HasUrl(rows, batch[0].url) { assert next[|rows|].url == batch[0].url; }
      }
      assert HasUrl(r, batch[0].url) by {
        var j :| 0 <= j < |next| && next[j].url == batch[0].url;
        assert r[j] == next[j];
      }
      assert forall k :: 1 <= k < |batch| ==> batch[k] == batch[1..][k - 1];
      r
  }

  /** The table never holds two rows with the same URL. */
  lemma {:induction false} InsertAllKeepsUrlsUnique(rows: seq<Article>, batch: seq<Candidate>, now: nat)
    requires UniqueUrls(rows)
    ensures UniqueUrls(InsertAll(rows, batch, now))
    decreases |batch|
  {
    if batch != [] {
      InsertAllKeepsUrlsUnique(InsertOne(rows, batch[0], now), batch[1..], now);
    }
  }

  lemma InsertAllStep(rows: seq<Article>, batch: seq<Candidate>, i: nat, now: nat)
    requires i < |batch|
    ensures InsertAll(rows, batch[i..], now) == InsertAll(InsertOne(rows, batch[i], now), batch[i + 1..], now)
  {
    assert batch[i..][0] == batch[i] && batch[i..][1..] == batch[i + 1..];
  }

  /** After a batch stamped `now`, the table is still URL-unique and every
      stamp is at most `now`. */
  lemma InsertKeepsTableValid(rows: seq<Article>, batch: seq<Candidate>, now: nat)
    requires UniqueUrls(rows) && forall k :: 0 <= k < |rows| ==> rows[k].fetchedAt < now
    ensures UniqueUrls(InsertAll(rows, batch, now))
    ensures forall k :: 0 <= k < |InsertAll(rows, batch, now)| ==> InsertAll(rows, batch, now)[k].fetchedAt < now + 1
  {
    InsertAllKeepsUrlsUnique(rows, batch, now);
    var r := InsertAll(rows, batch, now);
    forall k | 0 <= k < |r| ensures r[k].fetchedAt < now + 1 {
      if k < |rows| { assert r[k] == r[..|rows|][k]; }
    }
  }

  /** Every row the batch adds comes from a record of the batch whose URL was
      not yet in the table. */
  lemma {:induction false} InsertAllAddsOnlyBatch(rows: seq<Article>, batch: seq<Candidate>, now: nat, i: nat)
    requires |rows| <= i < |InsertAll(rows, batch, now)|
    ensures exists k :: 0 <= k < |batch| && InsertAll(rows, batch, now)[i] == ToRow(batch[k], now)
                        && !HasUrl(rows, batch[k].url)
    decreases |batch|
  {
    var next := InsertOne(rows, batch[0], now);
    var r := InsertAll(next, batch[1..], now);
    assert InsertAll(rows, batch, now) == r;
    if i < |next| {
      assert !HasUrl(rows, batch[0].url) && next == rows + [ToRow(batch[0], now)];
      assert r[i] == r[..|next|][i] == next[i] == ToRow(batch[0], now);
    } else {
      InsertAllAddsOnlyBatch(next, batch[1..], now, i);
      var k :| 0 <= k < |batch[1..]| && r[i] == ToRow(batch[1..][k], now) && !HasUrl(next, batch[1..][k].url);
      InsertOneKeepsUrls(rows, batch[0], now, batch[1..][k].url);
      assert batch[1..][k] == batch[k + 1];
    }
  }

  lemma InsertOneKeepsUrls(rows: seq<Article>, c: Candidate, now: nat, url: string)
    ensures HasUrl(rows, url) ==> HasUrl(InsertOne(rows, c, now), url)
  {
    if HasUrl(rows, url) {
      var j :| 0 <= j < |rows| && rows[j].url == url;
      assert InsertOne(rows, c, now)[j] == rows[j];
    }
  }

  /** Within one batch the first record for a URL new to the table is the one
      stored: a later record with the same URL is ignored. */
  lemma {:induction false} FirstInBatchWins(rows: seq<Article>, batch: seq<Candidate>, now: nat, k: nat)
    requires k < |batch| && !HasUrl(rows, batch[k].url)
    requires forall j :: 0 <= j < k ==> batch[j].url != batch[k].url
    ensures exists i :: |rows| <= i < |InsertAll(rows, batch, now)|
                        && InsertAll(rows, batch, now)[i] == ToRow(batch[k], now)
    decreases |batch|
  {
    var next := InsertOne(rows, batch[0], now);
    var r := InsertAll(rows, batch, now);
    if k == 0 {
      assert next[|rows|] == ToRow(batch[0], now);
      assert r[..|next|] == next;
      assert r[|rows|] == ToRow(batch[0], now);
    } else {
      assert batch[1..][k - 1] == batch[k];
      assert !HasUrl(next, batch[k].url);
      FirstInBatchWins(next, batch[1..], now, k - 1);
    }
  }

  /** Re-inserting records whose URLs are all present changes nothing. */
  lemma {:induction false} InsertAllPresent(rows: seq<Article>, batch: seq<Candidate>, now: nat)
    requires forall k :: 0 <= k < |batch| ==> HasUrl(rows, batch[k].url)
    ensures InsertAll(rows, batch, now) == rows
    decreases |batch|
  {
    if batch != [] {
      assert forall k :: 0 <= k < |batch[1..]| ==> batch[1..][k] == batch[k + 1];
      InsertAllPresent(rows, batch[1..], now);
    }
  }

  /** Inserting the same batch twice leaves the table as inserting it once. */
  lemma InsertAllIdempotent(rows: seq<Article>, batch: seq<Candidate>, now: nat, later: nat)
    ensures InsertAll(InsertAll(rows, batch, now), batch, later) == InsertAll(rows, batch, now)
  {
    InsertAllPresent(InsertAll(rows, batch, now), batch, later);
  }

  /** What a fetcher's final `if articles: insert_articles(articles)` does to
      the table and to the clock. */
  function Ingest(rows: seq<Article>, clock: nat, batch: seq<Candidate>): (seq<Article>, nat) {
    if batch == [] then (rows, clock) else (InsertAll(rows, batch, clock), clock + 1)
  }

  // ---------------------------------------------------------------------------
  // Cascade delete and feed rows
  // ---------------------------------------------------------------------------

  /** `DELETE FROM articles WHERE source = ?`. */
  function RemoveBySource(rows: seq<Article>, name: string): (r: seq<Article>)
    ensures forall a :: a in r <==> a in rows && a.source != name
    ensures |r| <= |rows|
    ensures UniqueUrls(rows) ==> UniqueUrls(r)
  {
    if rows == [] then []
    else
      var rest := RemoveBySource(rows[1..], name);
      assert forall a :: a in rows <==> a == rows[0] || a in rows[1..];
      if rows[0].source == name then rest
      else
        assert UniqueUrls(rows) ==> rows[0].url !in set a | a in rest :: a.url;
        [rows[0]] + rest
  }

  /** `SELECT name FROM custom_feeds WHERE id = ?`. */
  function FindFeed(feeds: seq<CustomFeed>, id: nat): (r: Option<CustomFeed>)
    ensures r.Some? ==> r.value in feeds && r.value.id == id
    ensures r.None? ==> forall f :: f in feeds ==> f.id != id
  {
    if feeds == [] then None
    else if feeds[0].id == id then Some(feeds[0])
    else FindFeed(feeds[1..], id)
  }

  /** `DELETE FROM custom_feeds WHERE id = ?`. */
  function RemoveFeed(feeds: seq<CustomFeed>, id: nat): seq<CustomFeed> {
    if feeds == [] then []
    else if feeds[0].id == id then RemoveFeed(feeds[1..], id)
    else [feeds[0]] + RemoveFeed(feeds[1..], id)
  }

  /** Exactly the rows with another id survive the delete. */
  lemma {:induction false} RemoveFeedMembers(feeds: seq<CustomFeed>, id: nat)
    ensures forall f :: f in RemoveFeed(feeds, id) <==> f in feeds && f.id != id
    decreases |feeds|
  {
    if feeds != [] {
      RemoveFeedMembers(feeds[1..], id);
      assert forall f :: f in feeds <==> f == feeds[0] || f in feeds[1..];
    }
  }

  /** The first row of a well-formed feed table was registered before every other. */
  lemma HeadBeforeRest(feeds: seq<CustomFeed>, nextId: nat, clock: nat)
    requires feeds != [] && FeedsWellFormed(feeds, nextId, clock)
    ensures forall x :: x in feeds[1..] ==> FeedBefore(feeds[0], x)
  {
    forall x | x in feeds[1..] ensures FeedBefore(feeds[0], x) {
      var j :| 0 <= j < |feeds[1..]| && feeds[1..][j] == x;
      assert x == feeds[j + 1];
    }
  }

  /** Deleting a feed row keeps the table's invariants. */
  lemma {:induction false} RemoveFeedWellFormed(feeds: seq<CustomFeed>, id: nat, nextId: nat, clock: nat)
    requires FeedsWellFormed(feeds, nextId, clock)
    ensures FeedsWellFormed(RemoveFeed(feeds, id), nextId, clock)
    decreases |feeds|
  {
    if feeds != [] {
      var rest := RemoveFeed(feeds[1..], id);
      assert FeedsWellFormed(feeds[1..], nextId, clock) by {
        assert forall f :: f in feeds[1..] ==> f in feeds;
      }
      RemoveFeedWellFormed(feeds[1..], id, nextId, clock);
      RemoveFeedMembers(feeds[1..], id);
      if feeds[0].id != id {
        var r := [feeds[0]] + rest;
        assert RemoveFeed(feeds, id) == r;
        HeadBeforeRest(feeds, nextId, clock);
        forall i, j | 0 <= i < j < |r| ensures FeedBefore(r[i], r[j]) {
          assert r[j] == rest[j - 1];
          if i == 0 {
            assert rest[j - 1] in rest;
          } else {
            assert r[i] == rest[i - 1];
          }
        }
        assert forall f :: f in r ==> f == feeds[0] || f in rest;
      }
    }
  }

  lemma FeedsWellFormedLater(feeds: seq<CustomFeed>, nextId: nat, clock: nat)
    requires FeedsWellFormed(feeds, nextId, clock)
    ensures FeedsWellFormed(feeds, nextId, clock + 1)
  {
  }

  predicate FeedUrlTaken(feeds: seq<CustomFeed>, url: string) {
    exists i :: 0 <= i < |feeds| && feeds[i].url == url
  }

  /** `a` was registered before `b`: distinct URLs, increasing ids and stamps. */
  predicate FeedBefore(a: CustomFeed, b: CustomFeed) {
    a.url != b.url && a.id < b.id && a.addedAt < b.addedAt
  }

  /** The invariants SQLite keeps for `custom_feeds`: unique URL, AUTOINCREMENT
      ids, `added_at` stamps in insertion order. */
  predicate FeedsWellFormed(feeds: seq<CustomFeed>, nextId: nat, clock: nat) {
    && (forall i, j :: 0 <= i < j < |feeds| ==> FeedBefore(feeds[i], feeds[j]))
    && (forall f :: f in feeds ==> 1 <= f.id < nextId && f.addedAt < clock)
  }

  // ---------------------------------------------------------------------------
  // get_articles: LIKE filter, ORDER BY published DESC, fetched_at DESC, LIMIT
  // ---------------------------------------------------------------------------

  /** Binary-collation comparison of TEXT values: code point by code point. */
  predicate StrLt(a: string, b: string) {
    if a == [] then b != []
    else if b == [] then false
    else if a[0] != b[0] then a[0] < b[0]
    else StrLt(a[1..], b[1..])
  }

  lemma {:induction false} StrLtTotal(a: string, b: string)
    ensures a == b || StrLt(a, b) || StrLt(b, a)
    ensures !(StrLt(a, b) && StrLt(b, a))
    decreases |a|
  {
    if a != [] && b != [] && a[0] == b[0] {
      StrLtTotal(a[1..], b[1..]);
      if a[1..] == b[1..] { assert a == [a[0]] + a[1..] && b == [b[0]] + b[1..]; }
    }
  }

  lemma {:induction false} StrLtTransitive(a: string, b: string, c: string)
    requires StrLt(a, b) && StrLt(b, c)
    ensures StrLt(a, c)
    decreases |a|
  {
    if a != [] && a[0] == b[0] && b[0] == c[0] {
      StrLtTransitive(a[1..], b[1..], c[1..]);
    }
  }

  /** SQLite orders NULL below every TEXT value. */
  predicate PublishedLt(p: Option<string>, q: Option<string>) {
    match p
    case None => q.Some?
    case Some(s) => q.Some? && StrLt(s, q.value)
  }

  /** `a` may be listed before `b` under `ORDER BY published DESC, fetched_at DESC`. */
  predicate Newer(a: Article, b: Article) {
    PublishedLt(b.published, a.published)
    || (a.published == b.published && a.fetchedAt >= b.fetchedAt)
  }

  lemma NewerTotal(a: Article, b: Article)
    ensures Newer(a, b) || Newer(b, a)
  {
    if a.published.Some? && b.published.Some? {
      StrLtTotal(a.published.value, b.published.value);
    }
  }

  lemma NewerTransitive(a: Article, b: Article, c: Article)
    requires Newer(a, b) && Newer(b, c)
    ensures Newer(a, c)
  {
    if a.published.Some? && b.published.Some? && c.published.Some? {
      var x, y, z := a.published.value, b.published.value, c.published.value;
      if StrLt(z, y) && StrLt(y, x) {
        StrLtTransitive(z, y, x);
      }
    }
  }

  predicate SortedByRecency(s: seq<Article>) {
    forall i, j :: 0 <= i < j < |s| ==> Newer(s[i], s[j])
  }

  lemma SortedCons(y: Article, t: seq<Article>)
    requires SortedByRecency(t)
    requires forall j :: 0 <= j < |t| ==> Newer(y, t[j])
    ensures SortedByRecency([y] + t)
  {
    forall i, j | 0 <= i < j < |[y] + t| ensures Newer(([y] + t)[i], ([y] + t)[j]) {
      assert ([y] + t)[j] == t[j - 1];
      if i > 0 { assert ([y] + t)[i] == t[i - 1]; }
    }
  }

  lemma NewerThanSorted(x: Article, s: seq<Article>)
    requires SortedByRecency(s) && s != [] && Newer(x, s[0])
    ensures forall j :: 0 <= j < |s| ==> Newer(x, s[j])
  {
    forall j | 0 <= j < |s| ensures Newer(x, s[j]) {
      if j > 0 { NewerTransitive(x, s[0], s[j]); }
    }
  }

  lemma NewerThanInserted(x: Article, s: seq<Article>, rest: seq<Article>)
    requires SortedByRecency(s) && s != [] && Newer(s[0], x)
    requires multiset(rest) == multiset(s[1..]) + multiset{x}
    ensures forall j :: 0 <= j < |rest| ==> Newer(s[0], rest[j])
  {
    forall j | 0 <= j < |rest| ensures Newer(s[0], rest[j]) {
      assert rest[j] in multiset(rest);
      if rest[j] != x {
        assert rest[j] in multiset(s[1..]);
        var k :| 0 <= k < |s[1..]| && s[1..][k] == rest[j];
        assert s[k + 1] == rest[j];
      }
    }
  }

  function InsertByRecency(x: Article, s: seq<Article>): (r: seq<Article>)
    requires SortedByRecency(s)
    ensures SortedByRecency(r)
    ensures multiset(r) == multiset(s) + multiset{x}
    decreases |s|
  {
    if s == [] then [x]
    else if Newer(x, s[0]) then
      NewerThanSorted(x, s);
      SortedCons(x, s);
      [x] + s
    else
      NewerTotal(x, s[0]);
      var rest := InsertByRecency(x, s[1..]);
      NewerThanInserted(x, s, rest);
      SortedCons(s[0], rest);
      assert s == [s[0]] + s[1..];
      [s[0]] + rest
  }

  /** Insertion sort by recency: a sorted permutation of the rows. */
  function SortByRecency(s: seq<Article>): (r: seq<Article>)
    ensures SortedByRecency(r)
    ensures multiset(r) == multiset(s)
  {
    if s == [] then []
    else
      assert s == [s[0]] + s[1..];
      InsertByRecency(s[0], SortByRecency(s[1..]))
  }

  /** `title LIKE '%kw%' OR summary LIKE '%kw%'`, with LIKE's ASCII case folding. */
  predicate LikeMatch(a: Article, keyword: string) {
    Contains(Lower(a.title), Lower(keyword)) || Contains(Lower(a.summary), Lower(keyword))
  }

  function FilterByKeyword(rows: seq<Article>, keyword: string): (r: seq<Article>)
    ensures multiset(r) <= multiset(rows)
    ensures forall a :: a in r <==> a in rows && LikeMatch(a, keyword)
  {
    if rows == [] then []
    else
      assert rows == [rows[0]] + rows[1..];
      var rest := FilterByKeyword(rows[1..], keyword);
      if LikeMatch(rows[0], keyword) then [rows[0]] + rest else rest
  }

  /** The rows the WHERE clause of `get_articles` admits (`if keyword:`). */
  function Matching(rows: seq<Article>, keyword: Option<string>): seq<Article> {
    if keyword.Some? && keyword.value != [] then FilterByKeyword(rows, keyword.value) else rows
  }

  /** Cutting a sorted permutation of `rows` after `n` keeps `n` rows of
      `rows`, none older than a row that was cut off. */
  lemma TopOfSorted(rows: seq<Article>, sorted: seq<Article>, n: nat)
    requires SortedByRecency(sorted) && multiset(sorted) == multiset(rows)
    requires n <= |sorted|
    ensures SortedByRecency(sorted[..n])
    ensures multiset(sorted[..n]) <= multiset(rows)
    ensures forall a :: a in sorted[..n] ==> a in rows
    ensures forall a, b :: a in rows && a !in sorted[..n] && b in sorted[..n] ==> Newer(b, a)
  {
    assert sorted == sorted[..n] + sorted[n..];
    assert multiset(sorted) == multiset(sorted[..n]) + multiset(sorted[n..]);
    forall a | a in sorted[..n] ensures a in rows {
      assert a in multiset(sorted);
    }
    forall a, b | a in rows && a !in sorted[..n] && b in sorted[..n] ensures Newer(b, a) {
      assert a in multiset(sorted);
      var j :| 0 <= j < |sorted| && sorted[j] == a;
      var i :| 0 <= i < n && sorted[i] == b;
      assert j >= n;
    }
  }

  /** The feed rows in reverse insertion order. */
  function NewestFirst(feeds: seq<CustomFeed>): (r: seq<CustomFeed>)
    requires forall i, j :: 0 <= i < j < |feeds| ==> feeds[i].addedAt < feeds[j].addedAt
    ensures |r| == |feeds|
    ensures forall f :: f in r <==> f in feeds
    ensures forall i, j :: 0 <= i < j < |r| ==> r[i].addedAt > r[j].addedAt
  {
    if feeds == [] then []
    else
      var last := |feeds| - 1;
      var rest := NewestFirst(feeds[..last]);
      assert feeds == feeds[..last] + [feeds[last]];
      assert forall f :: f in rest ==> f.addedAt < feeds[last].addedAt;
      [feeds[last]] + rest
  }

  function MaxFetched(rows: seq<Article>): (m: nat)
    requires rows != []
    ensures exists i :: 0 <= i < |rows| && rows[i].fetchedAt == m
    ensures forall i :: 0 <= i < |rows| ==> rows[i].fetchedAt <= m
  {
    if |rows| == 1 then rows[0].fetchedAt
    else
      var m := MaxFetched(rows[1..]);
      assert forall i :: 1 <= i < |rows| ==> rows[i] == rows[1..][i - 1];
      if rows[0].fetchedAt >= m then rows[0].fetchedAt else m
  }

  // ---------------------------------------------------------------------------
  // The store object
  // ---------------------------------------------------------------------------

  class Store {
    var articles: seq<Article>
    var feeds: seq<CustomFeed>
    var nextFeedId: nat
    var clock: nat

    ghost predicate Valid()
      reads this
    {
      && UniqueUrls(articles)
      && (forall i :: 0 <= i < |articles| ==> articles[i].fetchedAt < clock)
      && FeedsWellFormed(feeds, nextFeedId, clock)
      && nextFeedId >= 1
    }

    /** `init_db` on a fresh database: both tables empty. */
    constructor ()
      ensures Valid()
      ensures articles == [] && feeds == [] && nextFeedId == 1
    {
      articles, feeds, nextFeedId, clock := [], [], 1, 0;
    }

    /** `insert_articles`: insert-or-ignore every record of the batch, in order,
        all stamped with the same `fetched_at`. */
    method InsertArticles(batch: seq<Candidate>)
      requires Valid()
      modifies this
      ensures Valid()
      ensures articles == InsertAll(old(articles), batch, old(clock))
      ensures feeds == old(feeds) && nextFeedId == old(nextFeedId) && clock == old(clock) + 1
    {
      var now := clock;
      var rows := articles;
      var i := 0;
      while i < |batch|
        invariant 0 <= i <= |batch|
        invariant InsertAll(rows, batch[i..], now) == InsertAll(articles, batch, now)
        invariant unchanged(this)
      {
        var c := batch[i];
        InsertAllStep(rows, batch, i, now);
        if !HasUrl(rows, c.url) {
          rows := rows + [ToRow(c, now)];
        }
        i := i + 1;
      }
      assert batch[i..] == [];
      InsertKeepsTableValid(articles, batch, now);
      FeedsWellFormedLater(feeds, nextFeedId, clock);
      articles, clock := rows, clock + 1;
    }

    /** `add_custom_feed`: a new row with the next id, unless the URL is
        already registered (the UNIQUE constraint raises). */
    method AddCustomFeed(name: string, url: string, category: string) returns (r: AddFeedResult)
      requires Valid()
      modifies this
      ensures Valid()
      ensures articles == old(articles)
      ensures FeedUrlTaken(old(feeds), url) ==>
                r == UrlTaken && feeds == old(feeds) && nextFeedId == old(nextFeedId) && clock == old(clock)
      ensures !FeedUrlTaken(old(feeds), url) ==>
                && r == Added(old(nextFeedId))
                && feeds == old(feeds) + [CustomFeed(old(nextFeedId), name, url, category, old(clock))]
                && nextFeedId == old(nextFeedId) + 1 && clock == old(clock) + 1
    {
      if exists i :: 0 <= i < |feeds| && feeds[i].url == url {
        r := UrlTaken;
      } else {
        r := Added(nextFeedId);
        var f := CustomFeed(nextFeedId, name, url, category, clock);
        forall g | g in feeds ensures FeedBefore(g, f) {
          var i :| 0 <= i < |feeds| && feeds[i] == g;
        }
        var fs := feeds + [f];
        forall i, j | 0 <= i < j < |fs| ensures FeedBefore(fs[i], fs[j]) {
          if j == |feeds| { assert fs[i] in feeds; } else { assert fs[i] == feeds[i] && fs[j] == feeds[j]; }
        }
        assert forall g :: g in fs ==> g == f || g in feeds;
        assert FeedsWellFormed(fs, nextFeedId + 1, clock + 1);
        feeds := fs;
        nextFeedId, clock := nextFeedId + 1, clock + 1;
      }
    }

    /** `delete_custom_feed`: remove the feed row, and when it existed every
        article whose `source` is that feed's name. */
    method DeleteCustomFeed(id: nat)
      requires Valid()
      modifies this
      ensures Valid()
      ensures feeds == RemoveFeed(old(feeds), id)
      ensures FindFeed(old(feeds), id).Some? ==>
                articles == RemoveBySource(old(articles), FindFeed(old(feeds), id).value.name)
      ensures FindFeed(old(feeds), id).None? ==> articles == old(articles)
      ensures nextFeedId == old(nextFeedId) && clock == old(clock)
    {
      var feed := FindFeed(feeds, id);
      RemoveFeedWellFormed(feeds, id, nextFeedId, clock);
      feeds := RemoveFeed(feeds, id);
      if feed.Some? {
        articles := RemoveBySource(articles, feed.value.name);
      }
    }

    /** `get_custom_feeds`: every feed row, newest `added_at` first. */
    function GetCustomFeeds(): (r: seq<CustomFeed>)
      reads this
      requires Valid()
      ensures |r| == |feeds|
      ensures forall f :: f in r <==> f in feeds
      ensures forall i, j :: 0 <= i < j < |r| ==> r[i].addedAt > r[j].addedAt
    {
      NewestFirst(feeds)
    }

    /** `get_articles(keyword, limit)`. */
    function GetArticles(keyword: Option<string>, limit: int): (r: seq<Article>)
      reads this
      ensures limit >= 0 ==> |r| == if |Matching(articles, keyword)| <= limit then |Matching(articles, keyword)| else limit
      ensures limit < 0 ==> |r| == |Matching(articles, keyword)|
      ensures multiset(r) <= multiset(Matching(articles, keyword))
      ensures forall a :: a in r ==> a in articles
      ensures keyword.Some? && keyword.value != [] ==> forall a :: a in r ==> LikeMatch(a, keyword.value)
      ensures SortedByRecency(r)
      ensures forall a, b :: a in Matching(articles, keyword) && a !in r && b in r ==> Newer(b, a)
    {
      var matching := Matching(articles, keyword);
      var sorted := SortByRecency(matching);
      // SQLite: a negative LIMIT means no limit.
      assert |sorted| == |multiset(sorted)| == |multiset(matching)| == |matching|;
      var n := if limit < 0 || |sorted| <= limit then |sorted| else limit;
      TopOfSorted(matching, sorted, n);
      sorted[..n]
    }

    /** `get_stats`: the row count and the latest `fetched_at`, none when empty. */
    function GetStats(): (s: Stats)
      reads this
      ensures s.total == |articles|
      ensures s.lastFetched.None? <==> articles == []
      ensures s.lastFetched.Some? ==>
                && (exists i :: 0 <= i < |articles| && articles[i].fetchedAt == s.lastFetched.value)
                && (forall i :: 0 <= i < |articles| ==> articles[i].fetchedAt <= s.lastFetched.value)
    {
      Stats(|articles|, if articles == [] then None else Some(MaxFetched(articles)))
    }
  }
}
