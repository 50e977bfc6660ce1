/** The deduplication rule of `fetch_arxiv_papers` (fetcher.py:236-262),
    stated entry by entry: a paper's record comes from the first entry of the
    run that carries its key, wherever that entry stands, and a first entry
    that raises after `seen.add` hides the paper for the rest of the run.

    The rule is first proved for any loop that reads a key per item, skips an
    empty or seen key, and adds the key before building the item's record
    (`DedupRun`); `PapersRunIsDedup` shows the arXiv entry loop is one. */
module ArxivDedup {
  import opened Wrappers
  import opened Normalizer
  import opened Upstream
  import opened ArticleStore
  import opened CandidateBatch
  import opened ArxivFetcher

  // ---------------------------------------------------------------------------
  // A loop that keeps the first item of each key
  // ---------------------------------------------------------------------------

  // `KeyAt`, `OkAt`, `RecordAt` and `KeyOfRecord` only apply their function
  // argument. They give the quantifiers below a named term to trigger on,
  // and keep the solver from unfolding the arXiv key and record functions
  // inside the generic proofs.
  function KeyAt<E>(keyOf: E -> Option<string>, e: E): Option<string> {
    keyOf(e)
  }

  predicate OkAt<E>(ok: E -> bool, e: E) {
    ok(e)
  }

  function RecordAt<E, R>(record: E -> R, e: E): R {
    record(e)
  }

  function KeyOfRecord<R>(recordKey: R -> string, c: R): string {
    recordKey(c)
  }

  /** The keys the items carry (`keyOf` is `None` for an item whose key
      cannot be read). */
  function CarriedKeys<E>(items: seq<E>, keyOf: E -> Option<string>): set<string> {
    if items == [] then {}
    else (match KeyAt(keyOf, items[0]) case Some(k) => {k} case None => {}) + CarriedKeys(items[1..], keyOf)
  }

  /** `key` is new at item `j` of a loop started from `seen`: it is
      non-empty, not in `seen`, and no earlier item carries it. */
  predicate NewAt<E>(items: seq<E>, j: nat, seen: set<string>, key: string, keyOf: E -> Option<string>)
    requires j <= |items|
  {
    key != "" && key !in seen && key !in CarriedKeys(items[..j], keyOf)
  }

  /** Item `j` ends the loop: reading its key raises, or it is malformed
      (not `ok`) and raises after adding its new key. */
  predicate EndsAt<E>(items: seq<E>, j: nat, seen: set<string>, keyOf: E -> Option<string>, ok: E -> bool)
    requires j < |items|
  {
    KeyAt(keyOf, items[j]).None? || (!OkAt(ok, items[j]) && NewAt(items, j, seen, KeyAt(keyOf, items[j]).value, keyOf))
  }

  /** The loop reaches item `j`: no earlier item ended it. */
  predicate Reached<E>(items: seq<E>, j: nat, seen: set<string>, keyOf: E -> Option<string>, ok: E -> bool)
    requires j <= |items|
  {
    forall i :: 0 <= i < j ==> !EndsAt(items, i, seen, keyOf, ok)
  }

  /** Item `k` gives a record: it is well formed, the loop reaches it, and
      it is the first item carrying its new key. */
  predicate Yields<E>(items: seq<E>, k: nat, seen: set<string>, keyOf: E -> Option<string>, ok: E -> bool) {
    && k < |items| && OkAt(ok, items[k]) && KeyAt(keyOf, items[k]).Some?
    && NewAt(items, k, seen, KeyAt(keyOf, items[k]).value, keyOf) && Reached(items, k, seen, keyOf, ok)
  }

  /** `seen` after the loop has read the first item without ending. */
  function HeadSeen<E>(items: seq<E>, seen: set<string>, keyOf: E -> Option<string>): set<string>
    requires items != []
  {
    match KeyAt(keyOf, items[0])
    case Some(k0) => if k0 != "" && k0 !in seen then seen + {k0} else seen
    case None => seen
  }

  /** The records of the loop and `seen` after it. */
  function DedupRun<E, R>(items: seq<E>, seen: set<string>, keyOf: E -> Option<string>, ok: E -> bool, record: E -> R)
    : (seq<R>, set<string>)
  {
    if items == [] then ([], seen)
    else match KeyAt(keyOf, items[0])
      case None => ([], seen)
      case Some(key) =>
        if key == "" || key in seen then DedupRun(items[1..], seen, keyOf, ok, record)
        else if !OkAt(ok, items[0]) then ([], seen + {key})
        else
          var (rest, finalSeen) := DedupRun(items[1..], seen + {key}, keyOf, ok, record);
          ([RecordAt(record, items[0])] + rest, finalSeen)
  }

  lemma CarriedKeysHead<E>(items: seq<E>, i: nat, keyOf: E -> Option<string>)
    requires i + 1 <= |items|
    ensures CarriedKeys(items[..i + 1], keyOf)
              == (match KeyAt(keyOf, items[0]) case Some(k) => {k} case None => {}) + CarriedKeys(items[1..][..i], keyOf)
  {
    assert items[..i + 1][0] == items[0];
    assert items[..i + 1][1..] == items[1..][..i];
  }

  /** An item before `j` carries its key into the keys of `items[..j]`. */
  lemma {:induction false} CarriedBefore<E>(items: seq<E>, k: nat, j: nat, key: string, keyOf: E -> Option<string>)
    requires k < j <= |items| && KeyAt(keyOf, items[k]) == Some(key)
    ensures key in CarriedKeys(items[..j], keyOf)
    decreases k
  {
    CarriedKeysHead(items, j - 1, keyOf);
    if k > 0 {
      assert items[1..][k - 1] == items[k];
      CarriedBefore(items[1..], k - 1, j - 1, key, keyOf);
    }
  }

  lemma NewAtShift<E>(items: seq<E>, seen: set<string>, i: nat, key: string, keyOf: E -> Option<string>)
    requires i + 1 <= |items|
    ensures NewAt(items[1..], i, HeadSeen(items, seen, keyOf), key, keyOf) <==> NewAt(items, i + 1, seen, key, keyOf)
  {
    CarriedKeysHead(items, i, keyOf);
  }

  lemma EndsAtShift<E>(items: seq<E>, seen: set<string>, i: nat, keyOf: E -> Option<string>, ok: E -> bool)
    requires i + 1 < |items|
    ensures EndsAt(items[1..], i, HeadSeen(items, seen, keyOf), keyOf, ok) <==> EndsAt(items, i + 1, seen, keyOf, ok)
  {
    assert items[1..][i] == items[i + 1];
    if KeyAt(keyOf, items[i + 1]).Some? {
      NewAtShift(items, seen, i, KeyAt(keyOf, items[i + 1]).value, keyOf);
    }
  }

  lemma ReachedShift<E>(items: seq<E>, seen: set<string>, k: nat, keyOf: E -> Option<string>, ok: E -> bool)
    requires k + 1 <= |items|
    ensures Reached(items, k + 1, seen, keyOf, ok)
            <==> !EndsAt(items, 0, seen, keyOf, ok) && Reached(items[1..], k, HeadSeen(items, seen, keyOf), keyOf, ok)
  {
    var seen1 := HeadSeen(items, seen, keyOf);
    if Reached(items, k + 1, seen, keyOf, ok) {
      forall i | 0 <= i < k ensures !EndsAt(items[1..], i, seen1, keyOf, ok) {
        EndsAtShift(items, seen, i, keyOf, ok);
      }
    }
    if !EndsAt(items, 0, seen, keyOf, ok) && Reached(items[1..], k, seen1, keyOf, ok) {
      forall i | 0 <= i < k + 1 ensures !EndsAt(items, i, seen, keyOf, ok) {
        if i > 0 { EndsAtShift(items, seen, i - 1, keyOf, ok); }
      }
    }
  }

  lemma YieldsShift<E>(items: seq<E>, seen: set<string>, k: nat, keyOf: E -> Option<string>, ok: E -> bool)
    requires k + 1 < |items|
    ensures Yields(items, k + 1, seen, keyOf, ok)
            <==> !EndsAt(items, 0, seen, keyOf, ok) && Yields(items[1..], k, HeadSeen(items, seen, keyOf), keyOf, ok)
  {
    assert items[1..][k] == items[k + 1];
    ReachedShift(items, seen, k, keyOf, ok);
    if KeyAt(keyOf, items[k + 1]).Some? {
      NewAtShift(items, seen, k, KeyAt(keyOf, items[k + 1]).value, keyOf);
    }
  }

  /** A first item that does not end the loop contributes its record when
      it yields one, and the loop goes on from `HeadSeen`. */
  lemma DedupRunHead<E, R>(items: seq<E>, seen: set<string>, keyOf: E -> Option<string>, ok: E -> bool, record: E -> R)
    requires items != [] && !EndsAt(items, 0, seen, keyOf, ok)
    ensures var rest := DedupRun(items[1..], HeadSeen(items, seen, keyOf), keyOf, ok, record);
            DedupRun(items, seen, keyOf, ok, record)
              == (if Yields(items, 0, seen, keyOf, ok) then ([RecordAt(record, items[0])] + rest.0, rest.1) else rest)
  {
  }

  lemma {:induction false} DedupRunSeenGrows<E, R>(items: seq<E>, seen: set<string>, keyOf: E -> Option<string>, ok: E -> bool,
                                                   record: E -> R)
    ensures seen <= DedupRun(items, seen, keyOf, ok, record).1
    decreases |items|
  {
    if items != [] && KeyAt(keyOf, items[0]).Some? {
      var key := KeyAt(keyOf, items[0]).value;
      if key == "" || key in seen {
        DedupRunSeenGrows(items[1..], seen, keyOf, ok, record);
      } else if OkAt(ok, items[0]) {
        DedupRunSeenGrows(items[1..], seen + {key}, keyOf, ok, record);
      }
    }
  }

  /** Every record of the loop comes from an item that yields it: `ks[i]`
      is the item record `i` was built from. */
  lemma {:induction false} DedupRunSources<E, R>(items: seq<E>, seen: set<string>, keyOf: E -> Option<string>, ok: E -> bool,
                                                 record: E -> R)
    returns (ks: seq<nat>)
    ensures |ks| == |DedupRun(items, seen, keyOf, ok, record).0|
    ensures forall i :: 0 <= i < |ks| ==>
              Yields(items, ks[i], seen, keyOf, ok) && DedupRun(items, seen, keyOf, ok, record).0[i] == RecordAt(record, items[ks[i]])
    decreases |items|
  {
    if items == [] || EndsAt(items, 0, seen, keyOf, ok) {
      ks := [];
    } else {
      var seen1 := HeadSeen(items, seen, keyOf);
      var rest := DedupRun(items[1..], seen1, keyOf, ok, record).0;
      DedupRunHead(items, seen, keyOf, ok, record);
      var ks' := DedupRunSources(items[1..], seen1, keyOf, ok, record);
      var shifted := seq(|ks'|, j requires 0 <= j < |ks'| => ks'[j] + 1);
      forall j | 0 <= j < |ks'|
        ensures Yields(items, shifted[j], seen, keyOf, ok) && rest[j] == RecordAt(record, items[shifted[j]])
      {
        YieldsShift(items, seen, ks'[j], keyOf, ok);
        assert items[1..][ks'[j]] == items[ks'[j] + 1];
      }
      if Yields(items, 0, seen, keyOf, ok) {
        ks := [0] + shifted;
        var records := DedupRun(items, seen, keyOf, ok, record).0;
        assert records == [RecordAt(record, items[0])] + rest;
        forall i | 0 <= i < |ks| ensures Yields(items, ks[i], seen, keyOf, ok) && records[i] == RecordAt(record, items[ks[i]]) {
          if i > 0 {
            assert ks[i] == shifted[i - 1] && records[i] == rest[i - 1];
          }
        }
      } else {
        ks := shifted;
      }
    }
  }

  /** Every item that yields a record has it in the loop's records. */
  lemma {:induction false} DedupRunComplete<E, R>(items: seq<E>, seen: set<string>, keyOf: E -> Option<string>, ok: E -> bool,
                                                  record: E -> R, k: nat)
    requires Yields(items, k, seen, keyOf, ok)
    ensures RecordAt(record, items[k]) in DedupRun(items, seen, keyOf, ok, record).0
    decreases k
  {
    assert !EndsAt(items, 0, seen, keyOf, ok) by {
      if k > 0 { assert Reached(items, k, seen, keyOf, ok); }
    }
    DedupRunHead(items, seen, keyOf, ok, record);
    if k > 0 {
      YieldsShift(items, seen, k - 1, keyOf, ok);
      DedupRunComplete(items[1..], HeadSeen(items, seen, keyOf), keyOf, ok, record, k - 1);
      assert items[1..][k - 1] == items[k];
    }
  }

  /** A non-empty key the loop reaches is in `seen` once the loop is over. */
  lemma {:induction false} DedupRunSeesKey<E, R>(items: seq<E>, seen: set<string>, keyOf: E -> Option<string>, ok: E -> bool,
                                                 record: E -> R, j: nat, key: string)
    requires j < |items| && KeyAt(keyOf, items[j]) == Some(key) && key != "" && Reached(items, j, seen, keyOf, ok)
    ensures key in DedupRun(items, seen, keyOf, ok, record).1
    decreases j
  {
    if j > 0 {
      assert !EndsAt(items, 0, seen, keyOf, ok);
      DedupRunHead(items, seen, keyOf, ok, record);
      ReachedShift(items, seen, j - 1, keyOf, ok);
      assert items[1..][j - 1] == items[j];
      DedupRunSeesKey(items[1..], HeadSeen(items, seen, keyOf), keyOf, ok, record, j - 1, key);
    } else {
      DedupRunSeenGrows(items, seen, keyOf, ok, record);
      if key !in seen && OkAt(ok, items[0]) {
        DedupRunSeenGrows(items[1..], seen + {key}, keyOf, ok, record);
      }
    }
  }

  /** A malformed item that raises after adding its new key leaves no
      record with that key. */
  lemma DedupRunRaiseHides<E, R>(items: seq<E>, seen: set<string>, keyOf: E -> Option<string>, ok: E -> bool,
                                 record: E -> R, recordKey: R -> string, j: nat, key: string)
    requires forall e :: OkAt(ok, e) && KeyAt(keyOf, e).Some? ==> KeyOfRecord(recordKey, RecordAt(record, e)) == KeyAt(keyOf, e).value
    requires j < |items| && !OkAt(ok, items[j]) && KeyAt(keyOf, items[j]) == Some(key) && NewAt(items, j, seen, key, keyOf)
    ensures var records := DedupRun(items, seen, keyOf, ok, record).0;
            forall i :: 0 <= i < |records| ==> KeyOfRecord(recordKey, records[i]) != key
  {
    var records := DedupRun(items, seen, keyOf, ok, record).0;
    var ks := DedupRunSources(items, seen, keyOf, ok, record);
    forall i | 0 <= i < |records| ensures KeyOfRecord(recordKey, records[i]) != key {
      var k := ks[i];
      assert Yields(items, k, seen, keyOf, ok) && records[i] == RecordAt(record, items[k]);
      if KeyAt(keyOf, items[k]).value == key {
        if k < j {
          CarriedBefore(items, k, j, key, keyOf);
        } else {
          CarriedBefore(items, j, k, key, keyOf);
        }
      }
    }
  }

  // ---------------------------------------------------------------------------
  // A run of queries that threads `seen` from one query to the next
  // ---------------------------------------------------------------------------

  // Like `KeyAt`: applies `step`, as a named term for the quantifiers below.
  function StepAt<O, R>(step: (string, O, set<string>) -> (seq<R>, set<string>), query: string, o: O, seen: set<string>)
    : (seq<R>, set<string>)
  {
    step(query, o, seen)
  }

  /** The records of the queries labelled `labels`, `os[q]` being the answer
      to query `q`, and `seen` after them. */
  function ChainRun<O, R>(labels: seq<string>, os: seq<O>, seen: set<string>, step: (string, O, set<string>) -> (seq<R>, set<string>))
    : (seq<R>, set<string>)
    requires |labels| == |os|
  {
    if labels == [] then ([], seen)
    else
      var first := StepAt(step, labels[0], os[0], seen);
      var rest := ChainRun(labels[1..], os[1..], first.1, step);
      (first.0 + rest.0, rest.1)
  }

  /** `seen` when query `q` starts. */
  function ChainSeen<O, R>(labels: seq<string>, os: seq<O>, seen: set<string>, step: (string, O, set<string>) -> (seq<R>, set<string>),
                           q: nat): set<string>
    requires |labels| == |os| && q <= |labels|
    decreases q
  {
    if q == 0 then seen else ChainSeen(labels[1..], os[1..], StepAt(step, labels[0], os[0], seen).1, step, q - 1)
  }

  /** The records query `q` gives from the `seen` it starts with. */
  function QueryRecords<O, R>(labels: seq<string>, os: seq<O>, seen: set<string>, step: (string, O, set<string>) -> (seq<R>, set<string>),
                              q: nat): seq<R>
    requires |labels| == |os| && q < |labels|
  {
    StepAt(step, labels[q], os[q], ChainSeen(labels, os, seen, step, q)).0
  }

  lemma QueryRecordsNext<O, R>(labels: seq<string>, os: seq<O>, seen: set<string>, step: (string, O, set<string>) -> (seq<R>, set<string>),
                               q: nat)
    requires |labels| == |os| && q + 1 < |labels|
    ensures ChainSeen(labels, os, seen, step, q + 1) == ChainSeen(labels[1..], os[1..], StepAt(step, labels[0], os[0], seen).1, step, q)
    ensures QueryRecords(labels, os, seen, step, q + 1)
              == QueryRecords(labels[1..], os[1..], StepAt(step, labels[0], os[0], seen).1, step, q)
  {
    assert labels[1..][q] == labels[q + 1] && os[1..][q] == os[q + 1];
  }

  /** Every record of the run is record `ms[i]` of query `qs[i]`. */
  lemma {:induction false} ChainWitnesses<O, R>(labels: seq<string>, os: seq<O>, seen: set<string>,
                                                step: (string, O, set<string>) -> (seq<R>, set<string>))
    returns (qs: seq<nat>, ms: seq<nat>)
    requires |labels| == |os|
    ensures |qs| == |ms| == |ChainRun(labels, os, seen, step).0|
    ensures forall i :: 0 <= i < |qs| ==>
              && qs[i] < |labels| && ms[i] < |QueryRecords(labels, os, seen, step, qs[i])|
              && ChainRun(labels, os, seen, step).0[i] == QueryRecords(labels, os, seen, step, qs[i])[ms[i]]
    decreases |labels|
  {
    if labels == [] {
      qs, ms := [], [];
    } else {
      var records := ChainRun(labels, os, seen, step).0;
      var (first, seen1) := StepAt(step, labels[0], os[0], seen);
      var rest := ChainRun(labels[1..], os[1..], seen1, step).0;
      assert records == first + rest;
      var qs', ms' := ChainWitnesses(labels[1..], os[1..], seen1, step);
      qs := seq(|first|, _ => 0) + seq(|qs'|, j requires 0 <= j < |qs'| => qs'[j] + 1);
      ms := seq(|first|, j => j) + ms';
      forall i | 0 <= i < |qs|
        ensures && qs[i] < |labels| && ms[i] < |QueryRecords(labels, os, seen, step, qs[i])|
                && records[i] == QueryRecords(labels, os, seen, step, qs[i])[ms[i]]
      {
        if i < |first| {
          assert qs[i] == 0 && ms[i] == i && records[i] == first[i];
        } else {
          var j := i - |first|;
          assert qs[i] == qs'[j] + 1 && ms[i] == ms'[j] && records[i] == rest[j];
          QueryRecordsNext(labels, os, seen, step, qs'[j]);
        }
      }
    }
  }

  /** Every record of every query is a record of the run. */
  lemma {:induction false} ChainComplete<O, R>(labels: seq<string>, os: seq<O>, seen: set<string>,
                                               step: (string, O, set<string>) -> (seq<R>, set<string>), q: nat, m: nat)
    requires |labels| == |os| && q < |labels| && m < |QueryRecords(labels, os, seen, step, q)|
    ensures QueryRecords(labels, os, seen, step, q)[m] in ChainRun(labels, os, seen, step).0
    decreases q
  {
    var seen1 := StepAt(step, labels[0], os[0], seen).1;
    if q > 0 {
      QueryRecordsNext(labels, os, seen, step, q - 1);
      ChainComplete(labels[1..], os[1..], seen1, step, q - 1, m);
    }
  }

  /** Each query only adds to `seen`. */
  ghost predicate StepGrows<O(!new), R>(step: (string, O, set<string>) -> (seq<R>, set<string>)) {
    forall query, o, seen :: seen <= StepAt(step, query, o, seen).1
  }

  /** Each record of a query has a key that was not in `seen` before the
      query and is in it after. */
  ghost predicate StepFresh<O(!new), R>(step: (string, O, set<string>) -> (seq<R>, set<string>), recordKey: R -> string) {
    forall query, o, seen, i :: 0 <= i < |StepAt(step, query, o, seen).0| ==>
      && KeyOfRecord(recordKey, StepAt(step, query, o, seen).0[i]) !in seen
      && KeyOfRecord(recordKey, StepAt(step, query, o, seen).0[i]) in StepAt(step, query, o, seen).1
  }

  lemma {:induction false} ChainSeenGrows<O(!new), R>(labels: seq<string>, os: seq<O>, seen: set<string>,
                                                step: (string, O, set<string>) -> (seq<R>, set<string>), q: nat)
    requires StepGrows(step) && |labels| == |os| && q <= |labels|
    ensures seen <= ChainSeen(labels, os, seen, step, q)
    decreases q
  {
    if q > 0 {
      var seen1 := StepAt(step, labels[0], os[0], seen).1;
      assert seen <= seen1;
      ChainSeenGrows(labels[1..], os[1..], seen1, step, q - 1);
    }
  }

  /** No record of the run has a key that was in `seen` before it. */
  lemma {:induction false} ChainFresh<O(!new), R>(labels: seq<string>, os: seq<O>, seen: set<string>,
                                            step: (string, O, set<string>) -> (seq<R>, set<string>), recordKey: R -> string)
    requires StepGrows(step) && StepFresh(step, recordKey) && |labels| == |os|
    ensures forall i :: 0 <= i < |ChainRun(labels, os, seen, step).0| ==>
              KeyOfRecord(recordKey, ChainRun(labels, os, seen, step).0[i]) !in seen
    decreases |labels|
  {
    if labels != [] {
      var records := ChainRun(labels, os, seen, step).0;
      var (first, seen1) := StepAt(step, labels[0], os[0], seen);
      var rest := ChainRun(labels[1..], os[1..], seen1, step).0;
      assert records == first + rest;
      assert seen <= seen1;
      ChainFresh(labels[1..], os[1..], seen1, step, recordKey);
      forall i | 0 <= i < |records| ensures KeyOfRecord(recordKey, records[i]) !in seen {
        if i < |first| {
          assert records[i] == first[i];
        } else {
          assert records[i] == rest[i - |first|];
        }
      }
    }
  }

  /** A key that query `q` puts into `seen` without giving a record of it
      is carried by no record of the run. */
  lemma {:induction false} ChainHides<O(!new), R>(labels: seq<string>, os: seq<O>, seen: set<string>,
                                            step: (string, O, set<string>) -> (seq<R>, set<string>), recordKey: R -> string,
                                            q: nat, key: string)
    requires StepGrows(step) && StepFresh(step, recordKey)
    requires |labels| == |os| && q < |labels|
    requires key !in ChainSeen(labels, os, seen, step, q)
    requires key in StepAt(step, labels[q], os[q], ChainSeen(labels, os, seen, step, q)).1
    requires forall i :: 0 <= i < |QueryRecords(labels, os, seen, step, q)| ==>
               KeyOfRecord(recordKey, QueryRecords(labels, os, seen, step, q)[i]) != key
    ensures forall i :: 0 <= i < |ChainRun(labels, os, seen, step).0| ==>
              KeyOfRecord(recordKey, ChainRun(labels, os, seen, step).0[i]) != key
    decreases q
  {
    var records := ChainRun(labels, os, seen, step).0;
    var (first, seen1) := StepAt(step, labels[0], os[0], seen);
    var rest := ChainRun(labels[1..], os[1..], seen1, step).0;
    assert records == first + rest;
    if q == 0 {
      ChainFresh(labels[1..], os[1..], seen1, step, recordKey);
    } else {
      QueryRecordsNext(labels, os, seen, step, q - 1);
      assert labels[1..][q - 1] == labels[q] && os[1..][q - 1] == os[q];
      ChainSeenGrows(labels[1..], os[1..], seen1, step, q - 1);
      ChainHides(labels[1..], os[1..], seen1, step, recordKey, q - 1, key);
    }
    forall i | 0 <= i < |records| ensures KeyOfRecord(recordKey, records[i]) != key {
      if i < |first| {
        assert records[i] == first[i];
        if q == 0 {
          assert first == QueryRecords(labels, os, seen, step, 0);
        } else {
          assert KeyOfRecord(recordKey, first[i]) in seen1;
        }
      } else {
        assert records[i] == rest[i - |first|];
        if q == 0 {
          assert key in seen1;
        }
      }
    }
  }

  // ---------------------------------------------------------------------------
  // The arXiv entry loop is such a loop
  // ---------------------------------------------------------------------------

  /** The key an entry puts into `seen` when the loop reaches it: none for an
      entry whose id cannot be read. */
  function EntryKey(e: FeedEntry): Option<string> {
    match e
    case Entry(_, _, _, _, _, _, _, _, _) => Some(PaperKey(e))
    case Malformed(Some(id)) => Some(IdKey(id))
    case Malformed(None) => None
  }

  predicate WellFormed(e: FeedEntry) {
    e.Entry?
  }

  /** The record of an entry (a placeholder for a malformed one, which never
      gives a record). */
  function RecordOf(source: string, unescape: Unescaper, e: FeedEntry): Candidate {
    if e.Entry? then PaperRecord(source, e, unescape) else Candidate("", "", source, Category, "", None)
  }

  function Recorder(source: string, unescape: Unescaper): FeedEntry -> Candidate {
    e => RecordOf(source, unescape, e)
  }

  /** The arXiv entry loop keeps the first entry of each paper key. */
  lemma {:induction false} PapersRunIsDedup(source: string, entries: seq<FeedEntry>, seen: set<string>, unescape: Unescaper)
    ensures PapersRun(source, entries, seen, unescape) == DedupRun(entries, seen, EntryKey, WellFormed, Recorder(source, unescape))
    decreases |entries|
  {
    if entries != [] && EntryKey(entries[0]).Some? {
      var key := EntryKey(entries[0]).value;
      if key == "" || key in seen {
        PapersRunIsDedup(source, entries[1..], seen, unescape);
      } else if entries[0].Entry? {
        PapersRunIsDedup(source, entries[1..], seen + {key}, unescape);
      }
    }
  }

  /** Entry `k` of a query started from `seen` gives a record. */
  predicate PaperYields(entries: seq<FeedEntry>, k: nat, seen: set<string>) {
    Yields(entries, k, seen, EntryKey, WellFormed)
  }

  /** `ks[i]` is the entry record `i` of one query was built from. */
  lemma PapersRunWitnesses(source: string, entries: seq<FeedEntry>, seen: set<string>, unescape: Unescaper)
    returns (ks: seq<nat>)
    ensures |ks| == |PapersRun(source, entries, seen, unescape).0|
    ensures forall i :: 0 <= i < |ks| ==>
              PaperYields(entries, ks[i], seen) && PapersRun(source, entries, seen, unescape).0[i] == PaperRecord(source, entries[ks[i]], unescape)
  {
    var records := PapersRun(source, entries, seen, unescape).0;
    var recorder := Recorder(source, unescape);
    PapersRunIsDedup(source, entries, seen, unescape);
    assert records == DedupRun(entries, seen, EntryKey, WellFormed, recorder).0;
    ks := DedupRunSources(entries, seen, EntryKey, WellFormed, recorder);
    forall i | 0 <= i < |ks| ensures PaperYields(entries, ks[i], seen) && records[i] == PaperRecord(source, entries[ks[i]], unescape) {
      assert Yields(entries, ks[i], seen, EntryKey, WellFormed) && records[i] == RecordAt(recorder, entries[ks[i]]);
    }
  }

  /** `c` is the record of an entry that yields one in its query. */
  ghost predicate FromYieldingPaper(source: string, entries: seq<FeedEntry>, seen: set<string>, unescape: Unescaper, c: Candidate) {
    exists k: nat :: PaperYields(entries, k, seen) && c == RecordOf(source, unescape, entries[k])
  }

  /** Every record of one query comes from an entry that yields it. */
  lemma PapersRunSources(source: string, entries: seq<FeedEntry>, seen: set<string>, unescape: Unescaper)
    ensures var records := PapersRun(source, entries, seen, unescape).0;
            forall i :: 0 <= i < |records| ==> FromYieldingPaper(source, entries, seen, unescape, records[i])
  {
    var records := PapersRun(source, entries, seen, unescape).0;
    var ks := PapersRunWitnesses(source, entries, seen, unescape);
    forall i | 0 <= i < |records| ensures FromYieldingPaper(source, entries, seen, unescape, records[i]) {
      assert PaperYields(entries, ks[i], seen) && records[i] == RecordOf(source, unescape, entries[ks[i]]);
    }
  }

  /** Every entry that yields a record has it in its query's records. */
  lemma PapersRunComplete(source: string, entries: seq<FeedEntry>, seen: set<string>, unescape: Unescaper, k: nat)
    requires PaperYields(entries, k, seen)
    ensures PaperRecord(source, entries[k], unescape) in PapersRun(source, entries, seen, unescape).0
  {
    PapersRunIsDedup(source, entries, seen, unescape);
    DedupRunComplete(entries, seen, EntryKey, WellFormed, Recorder(source, unescape), k);
    assert Recorder(source, unescape)(entries[k]) == PaperRecord(source, entries[k], unescape);
  }

  /** An entry that raises after adding its new key leaves no record of
      that paper in its query, and the key in `seen` after it. */
  lemma PapersRunRaiseHides(source: string, entries: seq<FeedEntry>, seen: set<string>, unescape: Unescaper, j: nat)
    requires j < |entries| && entries[j].Malformed? && entries[j].idRead.Some?
    requires NewAt(entries, j, seen, IdKey(entries[j].idRead.value), EntryKey)
    requires Reached(entries, j, seen, EntryKey, WellFormed)
    ensures var run := PapersRun(source, entries, seen, unescape);
            && (forall i :: 0 <= i < |run.0| ==> run.0[i].url != IdKey(entries[j].idRead.value))
            && IdKey(entries[j].idRead.value) in run.1
  {
    var key := IdKey(entries[j].idRead.value);
    var recorder := Recorder(source, unescape);
    PapersRunIsDedup(source, entries, seen, unescape);
    assert EntryKey(entries[j]) == Some(key);
    DedupRunRaiseHides(entries, seen, EntryKey, WellFormed, recorder, (c: Candidate) => c.url, j, key);
    DedupRunSeesKey(entries, seen, EntryKey, WellFormed, recorder, j, key);
  }

  // ---------------------------------------------------------------------------
  // The whole run
  // ---------------------------------------------------------------------------

  function QueryStepper(unescape: Unescaper): (string, FeedOutcome, set<string>) -> (seq<Candidate>, set<string>) {
    (query: string, outcome: FeedOutcome, seen: set<string>) => QueryStep(query, outcome, seen, unescape)
  }

  // The key of a record, as a function value for `ChainHides`.
  function CandidateUrl(c: Candidate): string {
    c.url
  }

  /** The arXiv run threads `seen` through its queries. */
  lemma {:induction false} QueriesRunIsChain(labels: seq<string>, outcomes: seq<FeedOutcome>, seen: set<string>, unescape: Unescaper)
    requires |labels| == |outcomes|
    ensures QueriesRun(labels, outcomes, seen, unescape) == ChainRun(labels, outcomes, seen, QueryStepper(unescape))
    decreases |labels|
  {
    if labels != [] {
      QueriesRunIsChain(labels[1..], outcomes[1..], QueryStep(labels[0], outcomes[0], seen, unescape).1, unescape);
    }
  }

  /** Each arXiv query only adds to `seen`, and its records carry keys it
      adds. */
  lemma QueryStepperFresh(unescape: Unescaper)
    ensures StepGrows(QueryStepper(unescape)) && StepFresh(QueryStepper(unescape), CandidateUrl)
  {
    forall query, outcome, seen
      ensures seen <= StepAt(QueryStepper(unescape), query, outcome, seen).1
      ensures forall i :: 0 <= i < |StepAt(QueryStepper(unescape), query, outcome, seen).0| ==>
                && KeyOfRecord(CandidateUrl, StepAt(QueryStepper(unescape), query, outcome, seen).0[i]) !in seen
                && KeyOfRecord(CandidateUrl, StepAt(QueryStepper(unescape), query, outcome, seen).0[i])
                     in StepAt(QueryStepper(unescape), query, outcome, seen).1
    {
      if outcome.Parsed? {
        PapersRunFresh(query, outcome.entries, seen, unescape);
      }
    }
  }

  /** `seen` when query `q` of the run starts. */
  function SeenBefore(labels: seq<string>, outcomes: seq<FeedOutcome>, seen: set<string>, unescape: Unescaper, q: nat)
    : set<string>
    requires |labels| == |outcomes| && q <= |labels|
  {
    ChainSeen(labels, outcomes, seen, QueryStepper(unescape), q)
  }

  /** Entry `k` of query `q` gives a record, counted from the `seen` set
      that query starts with. */
  predicate RunYields(labels: seq<string>, outcomes: seq<FeedOutcome>, seen: set<string>, unescape: Unescaper, q: nat, k: nat)
    requires |labels| == |outcomes|
  {
    q < |labels| && outcomes[q].Parsed? && PaperYields(outcomes[q].entries, k, SeenBefore(labels, outcomes, seen, unescape, q))
  }

  /** The record entry `k` of query `q` gives (`PaperRecord` when the entry
      is well formed, as a yielding one is). */
  function RunRecord(labels: seq<string>, outcomes: seq<FeedOutcome>, unescape: Unescaper, q: nat, k: nat): Candidate
    requires |labels| == |outcomes| && q < |labels| && outcomes[q].Parsed? && k < |outcomes[q].entries|
  {
    RecordOf(labels[q], unescape, outcomes[q].entries[k])
  }

  /** `c` is the record of some entry that yields one in its query. */
  ghost predicate FromYieldingEntry(labels: seq<string>, outcomes: seq<FeedOutcome>, seen: set<string>, unescape: Unescaper,
                                    c: Candidate)
    requires |labels| == |outcomes|
  {
    exists q: nat, k: nat :: RunYields(labels, outcomes, seen, unescape, q, k) && c == RunRecord(labels, outcomes, unescape, q, k)
  }

  /** Every record of the run comes from an entry that yields it in its
      query, counted from the `seen` set that query starts with. */
  lemma QueriesRunSources(labels: seq<string>, outcomes: seq<FeedOutcome>, seen: set<string>, unescape: Unescaper)
    requires |labels| == |outcomes|
    ensures var records := QueriesRun(labels, outcomes, seen, unescape).0;
            forall i :: 0 <= i < |records| ==> FromYieldingEntry(labels, outcomes, seen, unescape, records[i])
  {
    var records := QueriesRun(labels, outcomes, seen, unescape).0;
    QueriesRunIsChain(labels, outcomes, seen, unescape);
    var qs, ms := ChainWitnesses(labels, outcomes, seen, QueryStepper(unescape));
    forall i | 0 <= i < |records| ensures FromYieldingEntry(labels, outcomes, seen, unescape, records[i]) {
      var q := qs[i];
      var before := SeenBefore(labels, outcomes, seen, unescape, q);
      assert records[i] == QueryStep(labels[q], outcomes[q], before, unescape).0[ms[i]];
      var ks := PapersRunWitnesses(labels[q], outcomes[q].entries, before, unescape);
      var k := ks[ms[i]];
      assert RunYields(labels, outcomes, seen, unescape, q, k) && records[i] == RunRecord(labels, outcomes, unescape, q, k);
    }
  }

  /** First seen wins (fetcher.py:237-241): an entry that yields a record in
      its query gives the run's one record of that paper, wherever it stands
      in the query and whichever query it is in. */
  lemma FirstVersionWins(labels: seq<string>, outcomes: seq<FeedOutcome>, seen: set<string>, unescape: Unescaper, q: nat, k: nat)
    requires |labels| == |outcomes| && RunYields(labels, outcomes, seen, unescape, q, k)
    ensures PaperRecord(labels[q], outcomes[q].entries[k], unescape) in QueriesRun(labels, outcomes, seen, unescape).0
    ensures var records := QueriesRun(labels, outcomes, seen, unescape).0;
            var c := PaperRecord(labels[q], outcomes[q].entries[k], unescape);
            forall i :: 0 <= i < |records| && records[i].url == c.url ==> records[i] == c
  {
    var records := QueriesRun(labels, outcomes, seen, unescape).0;
    var c := PaperRecord(labels[q], outcomes[q].entries[k], unescape);
    var before := SeenBefore(labels, outcomes, seen, unescape, q);
    PapersRunComplete(labels[q], outcomes[q].entries, before, unescape, k);
    var first := QueryRecords(labels, outcomes, seen, QueryStepper(unescape), q);
    assert first == PapersRun(labels[q], outcomes[q].entries, before, unescape).0;
    var m :| 0 <= m < |first| && first[m] == c;
    ChainComplete(labels, outcomes, seen, QueryStepper(unescape), q, m);
    QueriesRunIsChain(labels, outcomes, seen, unescape);
    assert c in records;
    QueriesRunFresh(labels, outcomes, seen, unescape);
    var n :| 0 <= n < |records| && records[n] == c;
    forall i | 0 <= i < |records| && records[i].url == c.url ensures records[i] == c {
      SameUrlSameRecord(records, seen, i, n);
    }
  }

  /** A first entry that raises after `seen.add` (fetcher.py:241-262) hides
      its paper for the whole run: no record of the run carries its key,
      whichever query it is in and wherever it stands there. */
  lemma RaisedFirstVersionHidesLater(labels: seq<string>, outcomes: seq<FeedOutcome>, seen: set<string>,
                                     unescape: Unescaper, q: nat, j: nat)
    requires |labels| == |outcomes| && q < |labels| && outcomes[q].Parsed?
    requires j < |outcomes[q].entries| && outcomes[q].entries[j].Malformed? && outcomes[q].entries[j].idRead.Some?
    requires NewAt(outcomes[q].entries, j, SeenBefore(labels, outcomes, seen, unescape, q),
                   IdKey(outcomes[q].entries[j].idRead.value), EntryKey)
    requires Reached(outcomes[q].entries, j, SeenBefore(labels, outcomes, seen, unescape, q), EntryKey, WellFormed)
    ensures var records := QueriesRun(labels, outcomes, seen, unescape).0;
            forall i :: 0 <= i < |records| ==> records[i].url != IdKey(outcomes[q].entries[j].idRead.value)
  {
    var key := IdKey(outcomes[q].entries[j].idRead.value);
    var records := QueriesRun(labels, outcomes, seen, unescape).0;
    var before := SeenBefore(labels, outcomes, seen, unescape, q);
    PapersRunRaiseHides(labels[q], outcomes[q].entries, before, unescape, j);
    QueryStepperFresh(unescape);
    ChainHides(labels, outcomes, seen, QueryStepper(unescape), CandidateUrl, q, key);
    QueriesRunIsChain(labels, outcomes, seen, unescape);
    forall i | 0 <= i < |records| ensures records[i].url != key {
      assert KeyOfRecord(CandidateUrl, records[i]) != key;
    }
  }
}
