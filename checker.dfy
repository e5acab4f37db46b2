/**
 * The loop of `main` that queries the registrar: for every TLD, batch by
 * batch, send the candidates, append the available domains to the TLD's
 * bucket, log the progress and sleep when another batch of the same TLD
 * follows. The log line and the sleep are events of a trace.
 */
module Checker {
  import opened Wrappers
  import opened Seqs
  import opened Batching
  import opened Availability

  /** The pause between two requests for the same TLD. */
  const DELAY_SECONDS: nat := 4

  /** `available_domains`: the available domains found per TLD. */
  type Report = map<string, seq<string>>

  /** What the loop does besides updating the report, in order. */
  datatype Event =
    | Query(domains: seq<string>)
    | Progress(tld: string, processed: nat, total: nat)
    | Sleep(seconds: nat)

  /** `[f"{word}{tld}" for word in ws]`. */
  function Candidates(ws: seq<string>, tld: string): (domains: seq<string>)
    ensures |domains| == |ws|
  {
    seq(|ws|, j requires 0 <= j < |ws| => ws[j] + tld)
  }

  lemma CandidatesConcat(a: seq<string>, b: seq<string>, tld: string)
    ensures Candidates(a + b, tld) == Candidates(a, tld) + Candidates(b, tld)
  {
  }

  /** The domains of the k-th request for `tld`. */
  function BatchDomains(words: seq<string>, tld: string, k: nat): seq<string>
    requires k < NumBatches(|words|)
  {
    Candidates(Batch(words, k), tld)
  }

  /** `{tld: [] for tld in tlds}`. */
  function InitialReport(tlds: seq<string>): (report: Report)
    ensures forall t :: t in report ==> report[t] == []
  {
    map t | t in tlds :: []
  }

  /** Lines 199-202 for one response: append the available domains to the bucket of `tld`. */
  function Record(report: Report, tld: string, results: seq<DomainResult>): (r: Report)
    requires tld in report
    ensures r.Keys == report.Keys
  {
    report[tld := report[tld] + Found(results)]
  }

  /** Recording a response touches only the bucket of its TLD and only appends to it. */
  lemma RecordOnlyAppends(report: Report, tld: string, results: seq<DomainResult>)
    requires tld in report
    ensures Record(report, tld, results).Keys == report.Keys
    ensures Record(report, tld, results)[tld] == report[tld] + Found(results)
    ensures forall t :: t in report && t != tld ==> Record(report, tld, results)[t] == report[t]
  {
  }

  /** The domains the first k batches of `tld` found available, in order. */
  function TldFound(tld: string, words: seq<string>, api: Api, k: nat): seq<string>
    requires k <= NumBatches(|words|)
  {
    if k == 0 then []
    else TldFound(tld, words, api, k - 1) + Found(CheckBatch(api, BatchDomains(words, tld, k - 1)))
  }

  /** The report after the first k batches of `tld`, starting from `report`: the bucket
      of `tld` has gained what those batches found, and no other bucket has changed. */
  function TldReport(report: Report, tld: string, words: seq<string>, api: Api, k: nat): (r: Report)
    requires tld in report && k <= NumBatches(|words|)
    ensures r.Keys == report.Keys
  {
    report[tld := report[tld] + TldFound(tld, words, api, k)]
  }

  /** What batch k of `tld` logs and whether it sleeps (lines 196-212). */
  function BatchEvents(tld: string, words: seq<string>, k: nat): (events: seq<Event>)
    requires k < NumBatches(|words|)
    ensures 2 <= |events| <= 3 && events[0].Query? && events[1].Progress?
  {
    [Query(BatchDomains(words, tld, k)), Progress(tld, Processed(|words|, k), |words|)]
    + (if BatchStart(k) + BATCH_SIZE < |words| then [Sleep(DELAY_SECONDS)] else [])
  }

  /** The events of the first k batches of `tld`. */
  function TldTrace(tld: string, words: seq<string>, k: nat): seq<Event>
    requires k <= NumBatches(|words|)
  {
    if k == 0 then [] else TldTrace(tld, words, k - 1) + BatchEvents(tld, words, k - 1)
  }

  /** What the first j TLDs added to the bucket of `t`: the finds of every
      occurrence of `t` among them (a TLD listed twice is checked twice). */
  function Bucket(tlds: seq<string>, words: seq<string>, api: Api, j: nat, t: string): seq<string>
    requires j <= |tlds|
  {
    if j == 0 then []
    else
      Bucket(tlds, words, api, j - 1, t)
      + if tlds[j - 1] == t then TldFound(t, words, api, NumBatches(|words|)) else []
  }

  /** The report once the first j TLDs are done: a bucket per parsed TLD. */
  function ReportAfter(tlds: seq<string>, words: seq<string>, api: Api, j: nat): Report
    requires j <= |tlds|
  {
    map t | t in tlds :: Bucket(tlds, words, api, j, t)
  }

  /** The events once the first j TLDs are done. */
  function TraceAfter(tlds: seq<string>, words: seq<string>, j: nat): seq<Event>
    requires j <= |tlds|
  {
    if j == 0 then [] else TraceAfter(tlds, words, j - 1) + TldTrace(tlds[j - 1], words, NumBatches(|words|))
  }

  /** The report the loop leaves behind. */
  function RunReport(tlds: seq<string>, words: seq<string>, api: Api): Report {
    ReportAfter(tlds, words, api, |tlds|)
  }

  /** The events of the whole loop. */
  function RunTrace(tlds: seq<string>, words: seq<string>): seq<Event> {
    TraceAfter(tlds, words, |tlds|)
  }

  /** Lines 199-202: the `for result in results` loop appending to the bucket of `tld`. */
  method AppendAvailable(report: Report, tld: string, results: seq<DomainResult>) returns (updated: Report)
    requires tld in report
    ensures updated == Record(report, tld, results)
  {
    updated := report;
    var m := 0;
    RecordNothing(report, tld, results);
    while m < |results|
      invariant 0 <= m <= |results|
      invariant tld in updated
      invariant updated == Record(report, tld, results[..m])
    {
      RecordStep(report, tld, results, m);
      if results[m].available {
        updated := updated[tld := updated[tld] + [results[m].domain]];
      }
      m := m + 1;
    }
    assert results[..m] == results;
  }

  /** Before the first result nothing is recorded. */
  lemma RecordNothing(report: Report, tld: string, results: seq<DomainResult>)
    requires tld in report
    ensures Record(report, tld, results[..0]) == report
  {
    assert results[..0] == [];
    assert report[tld] + [] == report[tld];
  }

  /** One more result appends that result's domain to the bucket when it is available. */
  lemma RecordStep(report: Report, tld: string, results: seq<DomainResult>, m: nat)
    requires tld in report && m < |results|
    ensures var before := Record(report, tld, results[..m]);
            Record(report, tld, results[..m + 1])
            == if results[m].available then before[tld := before[tld] + [results[m].domain]] else before
  {
    var init, last := results[..m], results[m];
    assert results[..m + 1][..m] == init;
    assert results[..m + 1][m] == last;
    var bucket := report[tld] + Found(init);
    if last.available {
      assert Found(results[..m + 1]) == Found(init) + [last.domain];
      assert report[tld] + (Found(init) + [last.domain]) == bucket + [last.domain];
    } else {
      assert Found(results[..m + 1]) == Found(init);
    }
  }

  /** The Python slice of iteration k is batch k. */
  lemma SliceIsBatch(words: seq<string>, k: nat)
    requires k < NumBatches(|words|)
    ensures BatchStart(k) < |words|
    ensures words[BatchStart(k)..Min(BatchStart(k) + BATCH_SIZE, |words|)] == Batch(words, k)
  {
    BatchExists(|words|, k);
  }

  /** Lines 196-212 for the batch starting at `i`, the k-th: build the
      candidates, query, record, log the progress, sleep unless it was the last. */
  method CheckOneBatch(updated: Report, tld: string, words: seq<string>, api: Api, i: nat, ghost k: nat)
    returns (next: Report, logged: seq<Event>)
    requires tld in updated
    requires k < NumBatches(|words|) && i == BatchStart(k)
    ensures next == Record(updated, tld, CheckBatch(api, BatchDomains(words, tld, k)))
    ensures logged == BatchEvents(tld, words, k)
  {
    var n := |words|;
    SliceIsBatch(words, k);
    var batch := Candidates(words[i..Min(i + BATCH_SIZE, n)], tld);
    assert batch == BatchDomains(words, tld, k);
    var results := CheckBatch(api, batch);
    next := AppendAvailable(updated, tld, results);
    var processed := Min(i + BATCH_SIZE, n);
    logged := [Query(batch), Progress(tld, processed, n)];
    if i + BATCH_SIZE < n {
      logged := logged + [Sleep(DELAY_SECONDS)];
    }
  }

  /** Lines 193-212: every batch of one TLD, in order. */
  method CheckTld(report: Report, tld: string, words: seq<string>, api: Api) returns (updated: Report, events: seq<Event>)
    requires tld in report
    ensures updated == TldReport(report, tld, words, api, NumBatches(|words|))
    ensures events == TldTrace(tld, words, NumBatches(|words|))
  {
    updated, events := report, [];
    var n := |words|;
    var i := 0;
    ghost var k: nat := 0;
    TldReportNone(report, tld, words, api);
    while i < n
      invariant k <= NumBatches(n) && i == BatchStart(k)
      invariant i < n <==> k < NumBatches(n)
      invariant updated == TldReport(report, tld, words, api, k)
      invariant events == TldTrace(tld, words, k)
      decreases n - i
    {
      BatchExists(n, k);
      TldReportStep(report, tld, words, api, k);
      var logged;
      updated, logged := CheckOneBatch(updated, tld, words, api, i, k);
      events := events + logged;
      i := i + BATCH_SIZE;
      k := k + 1;
      BatchExists(n, k);
    }
  }

  /** Lines 190-212 of `main`: the report starts with an empty bucket per TLD,
      then every TLD is checked in turn. */
  method CheckDomains(tlds: seq<string>, words: seq<string>, api: Api) returns (report: Report, trace: seq<Event>)
    ensures report == RunReport(tlds, words, api)
    ensures trace == RunTrace(tlds, words)
  {
    report := InitialReport(tlds);
    ReportBeforeAll(tlds, words, api);
    trace := [];
    var j := 0;
    while j < |tlds|
      invariant j <= |tlds|
      invariant report == ReportAfter(tlds, words, api, j)
      invariant trace == TraceAfter(tlds, words, j)
    {
      var events;
      ReportAfterStep(tlds, words, api, j);
      report, events := CheckTld(report, tlds[j], words, api);
      trace := trace + events;
      j := j + 1;
    }
  }

  // ---------------------------------------------------------------------------
  // The report

  /** The report has a bucket for every parsed TLD and for nothing else, and every
      bucket starts empty. */
  lemma ReportHasEveryTld(tlds: seq<string>, words: seq<string>, api: Api)
    ensures forall t :: t in RunReport(tlds, words, api) <==> t in tlds
    ensures forall t :: t in tlds ==> InitialReport(tlds)[t] == []
  {
  }

  /** The loop starts from the report of no TLDs done. */
  lemma ReportBeforeAll(tlds: seq<string>, words: seq<string>, api: Api)
    ensures InitialReport(tlds) == ReportAfter(tlds, words, api, 0)
  {
  }

  /** Checking the j-th TLD turns the report of the first j TLDs into the report of the first j + 1. */
  lemma ReportAfterStep(tlds: seq<string>, words: seq<string>, api: Api, j: nat)
    requires j < |tlds|
    ensures tlds[j] in ReportAfter(tlds, words, api, j)
    ensures ReportAfter(tlds, words, api, j + 1)
         == TldReport(ReportAfter(tlds, words, api, j), tlds[j], words, api, NumBatches(|words|))
  {
    var before, after := ReportAfter(tlds, words, api, j), ReportAfter(tlds, words, api, j + 1);
    var checked := TldReport(before, tlds[j], words, api, NumBatches(|words|));
    forall t | t in tlds ensures after[t] == checked[t] {
      if t != tlds[j] {
        assert Bucket(tlds, words, api, j, t) + [] == Bucket(tlds, words, api, j, t);
      }
    }
  }

  /** Before the first batch the report is the one `tld` started from. */
  lemma TldReportNone(report: Report, tld: string, words: seq<string>, api: Api)
    requires tld in report
    ensures TldReport(report, tld, words, api, 0) == report
  {
    assert report[tld] + [] == report[tld];
  }

  /** Batch k of `tld` records its response on top of the first k batches. */
  lemma TldReportStep(report: Report, tld: string, words: seq<string>, api: Api, k: nat)
    requires tld in report && k < NumBatches(|words|)
    ensures TldReport(report, tld, words, api, k + 1)
         == Record(TldReport(report, tld, words, api, k), tld, CheckBatch(api, BatchDomains(words, tld, k)))
  {
    var found := Found(CheckBatch(api, BatchDomains(words, tld, k)));
    var before := TldFound(tld, words, api, k);
    assert TldFound(tld, words, api, k + 1) == before + found;
    assert report[tld] + (before + found) == (report[tld] + before) + found;
  }

  /** Checking `tld` leaves the bucket of any other TLD alone. */
  lemma TldReportFrame(report: Report, tld: string, words: seq<string>, api: Api, k: nat, t: string)
    requires tld in report && k <= NumBatches(|words|)
    requires t in report && t != tld
    ensures TldReport(report, tld, words, api, k)[t] == report[t]
  {
  }

  /** Buckets never shrink: a later batch of the same TLD only extends what an earlier one found. */
  lemma {:induction false} TldFoundGrows(tld: string, words: seq<string>, api: Api, k1: nat, k2: nat)
    requires k1 <= k2 <= NumBatches(|words|)
    ensures TldFound(tld, words, api, k1) <= TldFound(tld, words, api, k2)
    decreases k2
  {
    if k1 < k2 {
      TldFoundGrows(tld, words, api, k1, k2 - 1);
      PrefixAppend(TldFound(tld, words, api, k1), TldFound(tld, words, api, k2 - 1),
                   Found(CheckBatch(api, BatchDomains(words, tld, k2 - 1))));
    }
  }

  /** Buckets never shrink over the whole run. */
  lemma {:induction false} ReportGrows(tlds: seq<string>, words: seq<string>, api: Api, j1: nat, j2: nat, t: string)
    requires j1 <= j2 <= |tlds|
    ensures Bucket(tlds, words, api, j1, t) <= Bucket(tlds, words, api, j2, t)
    decreases j2
  {
    if j1 < j2 {
      ReportGrows(tlds, words, api, j1, j2 - 1, t);
      PrefixAppend(Bucket(tlds, words, api, j1, t), Bucket(tlds, words, api, j2 - 1, t),
                   if tlds[j2 - 1] == t then TldFound(t, words, api, NumBatches(|words|)) else []);
    }
  }

  lemma PrefixAppend(a: seq<string>, b: seq<string>, c: seq<string>)
    requires a <= b
    ensures a <= b + c
  {
    assert (b + c)[..|a|] == b[..|a|];
  }

  /** A failed request leaves the report as it was; the loop goes on with the next batch. */
  lemma FailedBatchKeepsReport(report: Report, tld: string, words: seq<string>, api: Api, k: nat)
    requires tld in report && k < NumBatches(|words|)
    requires api(BatchDomains(words, tld, k)).RequestFailed?
    ensures TldReport(report, tld, words, api, k + 1) == TldReport(report, tld, words, api, k)
  {
    var before := TldFound(tld, words, api, k);
    assert TldFound(tld, words, api, k + 1) == before + [];
    assert before + [] == before;
  }

  /** The available candidates for `tld` among the words of the first k batches, in word order. */
  function AvailableUpTo(words: seq<string>, tld: string, available: string -> bool, k: nat): seq<string> {
    Filter(Candidates(words[..Min(BatchStart(k), |words|)], tld), available)
  }

  /** Against such a registrar the batches of `tld` find the available candidates
      of the words done so far, in word order. */
  lemma {:induction false} TldFoundOfAnsweringApi(tld: string, words: seq<string>, available: string -> bool, k: nat)
    requires k <= NumBatches(|words|)
    ensures TldFound(tld, words, HonestRegistrar(available), k) == AvailableUpTo(words, tld, available, k)
  {
    if k == 0 {
      CandidatesNone(tld, words, HonestRegistrar(available), available);
    } else {
      TldFoundOfAnsweringApi(tld, words, available, k - 1);
      HonestBatch(tld, words, available, k);
    }
  }

  /** One more batch answered honestly finds the available candidates of that batch. */
  lemma HonestBatch(tld: string, words: seq<string>, available: string -> bool, k: nat)
    requires 0 < k <= NumBatches(|words|)
    requires TldFound(tld, words, HonestRegistrar(available), k - 1) == AvailableUpTo(words, tld, available, k - 1)
    ensures TldFound(tld, words, HonestRegistrar(available), k) == AvailableUpTo(words, tld, available, k)
  {
    var batch := BatchDomains(words, tld, k - 1);
    HonestReply(available, batch);
    FoundOfHonest(batch, available);
    CandidatesStep(words, tld, available, k);
  }

  lemma CandidatesNone(tld: string, words: seq<string>, api: Api, available: string -> bool)
    ensures TldFound(tld, words, api, 0) == AvailableUpTo(words, tld, available, 0)
  {
    assert words[..Min(BatchStart(0), |words|)] == [];
  }

  /** The candidates of the words up to batch k are those up to batch k - 1 followed by
      those of batch k - 1. */
  lemma CandidatesUpToStep(words: seq<string>, tld: string, k: nat)
    requires 0 < k <= NumBatches(|words|)
    ensures Candidates(words[..Min(BatchStart(k), |words|)], tld)
         == Candidates(words[..Min(BatchStart(k - 1), |words|)], tld) + BatchDomains(words, tld, k - 1)
  {
    BatchExists(|words|, k - 1);
    var done := words[..BatchStart(k - 1)];
    assert words[..Min(BatchStart(k - 1), |words|)] == done;
    assert words[..Min(BatchStart(k), |words|)] == done + Batch(words, k - 1);
    CandidatesConcat(done, Batch(words, k - 1), tld);
  }

  /** The available candidates of the words up to batch k are those up to batch k - 1
      followed by those of batch k - 1. */
  lemma CandidatesStep(words: seq<string>, tld: string, available: string -> bool, k: nat)
    requires 0 < k <= NumBatches(|words|)
    ensures AvailableUpTo(words, tld, available, k)
         == AvailableUpTo(words, tld, available, k - 1)
            + Filter(BatchDomains(words, tld, k - 1), available)
  {
    CandidatesUpToStep(words, tld, k);
    FilterConcat(Candidates(words[..Min(BatchStart(k - 1), |words|)], tld), BatchDomains(words, tld, k - 1), available);
  }

  /** With each TLD listed once, the final bucket of a TLD is exactly its available
      candidates in word order. */
  lemma RunReportOfAnsweringApi(tlds: seq<string>, words: seq<string>, available: string -> bool, t: string)
    requires forall a, b :: 0 <= a < b < |tlds| ==> tlds[a] != tlds[b]
    requires t in tlds
    ensures RunReport(tlds, words, HonestRegistrar(available))[t] == Filter(Candidates(words, t), available)
  {
    var n := NumBatches(|words|);
    TldFoundOfAnsweringApi(t, words, available, n);
    BatchExists(|words|, n);
    assert words[..Min(BatchStart(n), |words|)] == words;
    BucketOfListedOnce(tlds, words, HonestRegistrar(available), |tlds|, t);
    assert tlds[..|tlds|] == tlds;
  }

  /** A TLD listed twice is checked twice: its bucket holds the finds of both passes. */
  lemma TldListedTwice(t: string, words: seq<string>, api: Api)
    ensures RunReport([t, t], words, api)[t]
         == TldFound(t, words, api, NumBatches(|words|)) + TldFound(t, words, api, NumBatches(|words|))
    ensures RunTrace([t, t], words) == TldTrace(t, words, NumBatches(|words|)) + TldTrace(t, words, NumBatches(|words|))
  {
    var found := TldFound(t, words, api, NumBatches(|words|));
    assert Bucket([t, t], words, api, 1, t) == [] + found;
    assert [] + found == found;
    var trace := TldTrace(t, words, NumBatches(|words|));
    assert TraceAfter([t, t], words, 1) == [] + trace;
    assert [] + trace == trace;
  }

  /** A TLD listed once gets its finds exactly once, when its turn has come. */
  lemma {:induction false} BucketOfListedOnce(tlds: seq<string>, words: seq<string>, api: Api, j: nat, t: string)
    requires forall a, b :: 0 <= a < b < |tlds| ==> tlds[a] != tlds[b]
    requires j <= |tlds|
    ensures Bucket(tlds, words, api, j, t) == if t in tlds[..j] then TldFound(t, words, api, NumBatches(|words|)) else []
  {
    var found := TldFound(t, words, api, NumBatches(|words|));
    BucketRepeats(tlds, words, api, j, t);
    CountListedOnce(tlds, j, t);
    assert Repeat(found, 1) == [] + found;
    assert [] + found == found;
  }

  /** In a list without repetitions, a TLD among the first j is counted once there. */
  lemma {:induction false} CountListedOnce(tlds: seq<string>, j: nat, t: string)
    requires forall a, b :: 0 <= a < b < |tlds| ==> tlds[a] != tlds[b]
    requires j <= |tlds|
    ensures Count(tlds[..j], t) == if t in tlds[..j] then 1 else 0
  {
    if j > 0 {
      CountListedOnce(tlds, j - 1, t);
      TakeOneMore(tlds, j, t);
      assert tlds[..j][..j - 1] == tlds[..j - 1];
    }
  }

  /** How often `t` is listed. */
  function Count(ts: seq<string>, t: string): (n: nat)
    ensures n <= |ts|
  {
    if ts == [] then 0
    else Count(ts[..|ts| - 1], t) + (if ts[|ts| - 1] == t then 1 else 0)
  }

  /** `xs` written out `n` times in a row. */
  function Repeat(xs: seq<string>, n: nat): (r: seq<string>)
    ensures |r| == n * |xs|
  {
    if n == 0 then [] else Repeat(xs, n - 1) + xs
  }

  /** Each listing of `t` runs all its batches once more and appends the same finds again,
      so after the first j TLDs its bucket holds its finds once per listing so far. */
  lemma {:induction false} BucketRepeats(tlds: seq<string>, words: seq<string>, api: Api, j: nat, t: string)
    requires j <= |tlds|
    ensures Bucket(tlds, words, api, j, t) == Repeat(TldFound(t, words, api, NumBatches(|words|)), Count(tlds[..j], t))
  {
    if j > 0 {
      BucketRepeats(tlds, words, api, j - 1, t);
      var found := TldFound(t, words, api, NumBatches(|words|));
      var before := Count(tlds[..j - 1], t);
      assert tlds[..j][..j - 1] == tlds[..j - 1];
      if tlds[j - 1] == t {
        assert Count(tlds[..j], t) == before + 1;
        assert Repeat(found, before + 1) == Repeat(found, before) + found;
      } else {
        assert Count(tlds[..j], t) == before;
        assert Bucket(tlds, words, api, j, t) == Bucket(tlds, words, api, j - 1, t) + [];
      }
    }
  }

  /** The saved bucket of a listed TLD: its finds once per listing, whether or not the list repeats. */
  lemma RunReportRepeats(tlds: seq<string>, words: seq<string>, api: Api, t: string)
    requires t in tlds
    ensures RunReport(tlds, words, api)[t] == Repeat(TldFound(t, words, api, NumBatches(|words|)), Count(tlds, t))
  {
    BucketRepeats(tlds, words, api, |tlds|, t);
    assert tlds[..|tlds|] == tlds;
  }

  /** The trace is the traces of the TLDs one after another, a repeated TLD included:
      after the first j TLDs, the TLD at position j contributes its whole trace next. */
  lemma TraceAfterStep(tlds: seq<string>, words: seq<string>, j: nat)
    requires j < |tlds|
    ensures TraceAfter(tlds, words, j + 1) == TraceAfter(tlds, words, j) + TldTrace(tlds[j], words, NumBatches(|words|))
  {
  }

  /** In a list without repetitions, the j-th element is not among the ones before it,
      and any other value is among the first j exactly when it is among the first j - 1. */
  lemma TakeOneMore(tlds: seq<string>, j: nat, t: string)
    requires forall a, b :: 0 <= a < b < |tlds| ==> tlds[a] != tlds[b]
    requires 0 < j <= |tlds|
    ensures tlds[j - 1] == t ==> t !in tlds[..j - 1] && t in tlds[..j]
    ensures tlds[j - 1] != t ==> (t in tlds[..j] <==> t in tlds[..j - 1])
  {
    assert tlds[..j] == tlds[..j - 1] + [tlds[j - 1]];
    if tlds[j - 1] == t {
      forall a | 0 <= a < j - 1
        ensures tlds[a] != t
      {
        assert tlds[a] != tlds[j - 1];
      }
    }
  }

  // ---------------------------------------------------------------------------
  // The trace

  /** The batches sent, in order. */
  function Queries(trace: seq<Event>): seq<seq<string>> {
    if trace == [] then []
    else
      var last := trace[|trace| - 1];
      Queries(trace[..|trace| - 1]) + (if last.Query? then [last.domains] else [])
  }

  /** The number of sleeps. */
  function Sleeps(trace: seq<Event>): nat {
    if trace == [] then 0
    else Sleeps(trace[..|trace| - 1]) + (if trace[|trace| - 1].Sleep? then 1 else 0)
  }

  lemma {:induction false} QueriesConcat(a: seq<Event>, b: seq<Event>)
    ensures Queries(a + b) == Queries(a) + Queries(b)
    decreases |b|
  {
    if b == [] {
      assert a + b == a;
    } else {
      QueriesConcat(a, b[..|b| - 1]);
      assert (a + b)[..|a + b| - 1] == a + b[..|b| - 1];
    }
  }

  lemma {:induction false} SleepsConcat(a: seq<Event>, b: seq<Event>)
    ensures Sleeps(a + b) == Sleeps(a) + Sleeps(b)
    decreases |b|
  {
    if b == [] {
      assert a + b == a;
    } else {
      SleepsConcat(a, b[..|b| - 1]);
      assert (a + b)[..|a + b| - 1] == a + b[..|b| - 1];
    }
  }

  /** The sleep condition of line 211 holds exactly when another batch of the TLD follows. */
  lemma SleepOnlyBetweenBatches(tld: string, words: seq<string>, k: nat)
    requires k < NumBatches(|words|)
    ensures BatchEvents(tld, words, k)
         == [Query(BatchDomains(words, tld, k)), Progress(tld, Processed(|words|, k), |words|)]
            + (if k + 1 < NumBatches(|words|) then [Sleep(DELAY_SECONDS)] else [])
  {
    SleepIffMoreBatches(|words|, k);
  }

  /** The requests for one TLD are its batches, in order. */
  lemma {:induction false} TldQueries(tld: string, words: seq<string>, k: nat)
    requires k <= NumBatches(|words|)
    ensures |Queries(TldTrace(tld, words, k))| == k
    ensures forall i :: 0 <= i < k ==> Queries(TldTrace(tld, words, k))[i] == BatchDomains(words, tld, i)
  {
    if k > 0 {
      TldQueries(tld, words, k - 1);
      QueriesConcat(TldTrace(tld, words, k - 1), BatchEvents(tld, words, k - 1));
      BatchCounts(tld, words, k - 1);
    }
  }

  /** Together the requests for one TLD carry every word with that TLD appended,
      once each and in word order. */
  lemma {:induction false} TldQueriedDomains(tld: string, words: seq<string>, k: nat)
    requires k <= NumBatches(|words|)
    ensures Flatten(Queries(TldTrace(tld, words, k))) == Candidates(words[..Min(BatchStart(k), |words|)], tld)
  {
    if k == 0 {
      assert words[..Min(BatchStart(0), |words|)] == [];
    } else {
      var prev := Queries(TldTrace(tld, words, k - 1));
      assert Flatten(prev) == Candidates(words[..Min(BatchStart(k - 1), |words|)], tld) by {
        TldQueriedDomains(tld, words, k - 1);
      }
      assert Queries(TldTrace(tld, words, k)) == prev + [BatchDomains(words, tld, k - 1)] by {
        QueriesConcat(TldTrace(tld, words, k - 1), BatchEvents(tld, words, k - 1));
        BatchCounts(tld, words, k - 1);
      }
      FlattenSnoc(prev, BatchDomains(words, tld, k - 1));
      CandidatesUpToStep(words, tld, k);
    }
  }

  lemma FlattenSnoc<T>(xss: seq<seq<T>>, xs: seq<T>)
    ensures Flatten(xss + [xs]) == Flatten(xss) + xs
  {
    assert (xss + [xs])[..|xss|] == xss;
  }

  /** Every request carries between 1 and BATCH_SIZE domains. */
  lemma TldQuerySizes(tld: string, words: seq<string>)
    ensures forall q :: q in Queries(TldTrace(tld, words, NumBatches(|words|))) ==> 1 <= |q| <= BATCH_SIZE
  {
    var k := NumBatches(|words|);
    TldQueries(tld, words, k);
    BatchSizes(words);
    forall q | q in Queries(TldTrace(tld, words, k)) ensures 1 <= |q| <= BATCH_SIZE {
      var i :| 0 <= i < k && Queries(TldTrace(tld, words, k))[i] == q;
      assert Batches(words)[i] == Batch(words, i);
    }
  }

  /** One batch logs one request, and one sleep unless it is the last of its TLD. */
  lemma BatchCounts(tld: string, words: seq<string>, k: nat)
    requires k < NumBatches(|words|)
    ensures Queries(BatchEvents(tld, words, k)) == [BatchDomains(words, tld, k)]
    ensures Sleeps(BatchEvents(tld, words, k)) == if k + 1 < NumBatches(|words|) then 1 else 0
  {
    SleepIffMoreBatches(|words|, k);
    var q, p := Query(BatchDomains(words, tld, k)), Progress(tld, Processed(|words|, k), |words|);
    assert [q, p][..1] == [q];
    assert [q][..0] == [];
    assert Queries([q]) == [BatchDomains(words, tld, k)] && Sleeps([q]) == 0;
    assert Queries([q, p]) == [BatchDomains(words, tld, k)] && Sleeps([q, p]) == 0;
    assert ([q, p] + [Sleep(DELAY_SECONDS)])[..2] == [q, p];
  }

  /** One TLD sleeps once between each two of its batches: ceil(n / BATCH_SIZE) - 1 times. */
  lemma {:induction false} TldSleeps(tld: string, words: seq<string>, k: nat)
    requires 0 < k <= NumBatches(|words|)
    ensures Sleeps(TldTrace(tld, words, k)) == if k < NumBatches(|words|) then k else k - 1
  {
    SleepsConcat(TldTrace(tld, words, k - 1), BatchEvents(tld, words, k - 1));
    BatchCounts(tld, words, k - 1);
    if k > 1 {
      TldSleeps(tld, words, k - 1);
    } else {
      assert TldTrace(tld, words, 0) == [];
    }
  }

  /** The last event of a TLD is the progress line `n/n`: no sleep follows its last batch. */
  lemma TldEndsWithFullProgress(tld: string, words: seq<string>)
    requires |words| > 0
    ensures TldTrace(tld, words, NumBatches(|words|)) != []
    ensures var t := TldTrace(tld, words, NumBatches(|words|));
            t[|t| - 1] == Progress(tld, |words|, |words|)
  {
    var k := NumBatches(|words|);
    BatchExists(|words|, 0);
    SleepIffMoreBatches(|words|, k - 1);
    ProgressFacts(|words|, k - 1);
  }

  /** Between any two requests of the trace there is a sleep. */
  ghost predicate Paced(trace: seq<Event>) {
    forall a, b :: 0 <= a < b < |trace| && trace[a].Query? && trace[b].Query? ==>
      exists c :: a < c < b && trace[c].Sleep?
  }

  /** The requests for one TLD are paced, and until its last batch the trace of a TLD ends in a sleep. */
  lemma {:induction false} TldTracePaced(tld: string, words: seq<string>, k: nat)
    requires k <= NumBatches(|words|)
    ensures Paced(TldTrace(tld, words, k))
    ensures k == 0 <==> TldTrace(tld, words, k) == []
    ensures 0 < k < NumBatches(|words|) ==>
              var t := TldTrace(tld, words, k); t[|t| - 1] == Sleep(DELAY_SECONDS)
  {
    if k > 0 {
      var prev := TldTrace(tld, words, k - 1);
      var step := BatchEvents(tld, words, k - 1);
      var t := prev + step;
      TldTracePaced(tld, words, k - 1);
      SleepIffMoreBatches(|words|, k - 1);
      forall a, b | 0 <= a < b < |t| && t[a].Query? && t[b].Query?
        ensures exists c :: a < c < b && t[c].Sleep?
      {
        if b < |prev| {
          assert prev[a].Query? && prev[b].Query?;
          var c :| a < c < b && prev[c].Sleep?;
          assert t[c] == prev[c];
        } else {
          assert step[b - |prev|].Query?;
          assert b == |prev|;
          assert t[|prev| - 1] == prev[|prev| - 1];
        }
      }
    }
  }

  /** Lines 211-212 pace the batches of one TLD only: with two TLDs the last request
      of the first is followed by the first request of the second with no sleep in between. */
  lemma NoSleepBetweenTlds(first: string, second: string, words: seq<string>)
    requires |words| > 0
    ensures !Paced(RunTrace([first, second], words))
  {
    var k := NumBatches(|words|);
    var a := TldTrace(first, words, k);
    var b := TldTrace(second, words, k);
    BatchExists(|words|, 0);
    SleepIffMoreBatches(|words|, k - 1);
    var head := TldTrace(first, words, k - 1);
    assert a == head + [Query(BatchDomains(words, first, k - 1)), Progress(first, Processed(|words|, k - 1), |words|)];
    TldFirstIsQuery(second, words, k);
    var trace := RunTrace([first, second], words);
    assert TraceAfter([first, second], words, 1) == a;
    assert trace == a + b;
    var i, j := |a| - 2, |a|;
    assert trace[i].Query? && trace[j].Query?;
    forall c | i < c < j ensures !trace[c].Sleep? {
      assert c == |a| - 1;
    }
  }

  lemma {:induction false} TldFirstIsQuery(tld: string, words: seq<string>, k: nat)
    requires 0 < k <= NumBatches(|words|)
    ensures TldTrace(tld, words, k) != [] && TldTrace(tld, words, k)[0].Query?
  {
    if k > 1 {
      TldFirstIsQuery(tld, words, k - 1);
    }
  }
}
