/**
 * `DomainChecker.check_batch`: one request to the registrar for a batch of
 * domains. The request itself is an oracle: what came back, as a `Reply`.
 */
module Availability {
  import opened Wrappers
  import opened Seqs

  /** One entry of the response's `"domains"` list. */
  datatype DomainResult = DomainResult(domain: string, available: bool)

  /** What one request produced: a `RequestException` (connection failure,
      timeout, an error status from `raise_for_status`, a body that is not
      JSON), or a decoded body whose `"domains"` key may be missing. */
  datatype Reply = RequestFailed | Answered(domains: Option<seq<DomainResult>>)

  /** The registrar, as seen by the program: a reply for every batch sent. */
  type Api = seq<string> -> Reply

  /** `check_batch`: the `"domains"` list of the reply, and `[]` when the
      request failed or the key is missing. */
  function CheckBatch(api: Api, batch: seq<string>): (results: seq<DomainResult>)
    ensures api(batch).RequestFailed? ==> results == []
    ensures api(batch).Answered? && api(batch).domains.None? ==> results == []
    ensures api(batch).Answered? && api(batch).domains.Some? ==> results == api(batch).domains.value
  {
    match api(batch)
    case RequestFailed => []
    case Answered(None) => []
    case Answered(Some(domains)) => domains
  }

  /** The domains `main` appends for one response: those whose `available`
      is truthy, in response order. */
  function Found(results: seq<DomainResult>): (found: seq<string>)
    ensures |found| <= |results|
  {
    if results == [] then []
    else
      var init := Found(results[..|results| - 1]);
      var last := results[|results| - 1];
      if last.available then init + [last.domain] else init
  }

  /** The found domains keep the order of the response: they are the domains of the
      available results, one per result. */
  lemma {:induction false} FoundIsFilter(results: seq<DomainResult>)
    ensures Found(results) == Domains(Filter(results, (r: DomainResult) => r.available))
  {
    if results != [] {
      var init, last := results[..|results| - 1], results[|results| - 1];
      FoundIsFilter(init);
      FilterConcat(init, [last], (r: DomainResult) => r.available);
      assert init + [last] == results;
      assert Filter([last], (r: DomainResult) => r.available) == (if last.available then [last] else []);
      DomainsConcat(Filter(init, (r: DomainResult) => r.available), if last.available then [last] else []);
    }
  }

  /** `[r.domain for r in results]`. */
  function Domains(results: seq<DomainResult>): (domains: seq<string>)
    ensures |domains| == |results|
  {
    seq(|results|, j requires 0 <= j < |results| => results[j].domain)
  }

  lemma DomainsConcat(a: seq<DomainResult>, b: seq<DomainResult>)
    ensures Domains(a + b) == Domains(a) + Domains(b)
  {
  }

  /** A response that answers for each domain of the batch, in order. */
  function Honest(batch: seq<string>, available: string -> bool): (results: seq<DomainResult>)
    ensures |results| == |batch|
  {
    seq(|batch|, j requires 0 <= j < |batch| => DomainResult(batch[j], available(batch[j])))
  }

  /** Answering honestly, the found domains are the available ones of the batch, in batch order. */
  lemma {:induction false} FoundOfHonest(batch: seq<string>, available: string -> bool)
    ensures Found(Honest(batch, available)) == Filter(batch, available)
  {
    if batch != [] {
      var init, last := batch[..|batch| - 1], batch[|batch| - 1];
      var results := Honest(batch, available);
      FoundOfHonest(init, available);
      assert results[..|batch| - 1] == Honest(init, available);
      assert results[|batch| - 1] == DomainResult(last, available(last));
      assert Found(results) == Filter(init, available) + (if available(last) then [last] else []);
      FilterConcat(init, [last], available);
      assert Filter([last], available) == (if available(last) then [last] else []);
      assert init + [last] == batch;
    }
  }

  /** The registrar that answers for every domain it is asked about, in order,
      with `available` deciding which are free. */
  function HonestRegistrar(available: string -> bool): Api {
    (batch: seq<string>) => Answered(Some(Honest(batch, available)))
  }

  /** The honest registrar's reply is read back as it was sent. */
  lemma HonestReply(available: string -> bool, batch: seq<string>)
    ensures CheckBatch(HonestRegistrar(available), batch) == Honest(batch, available)
  {
  }
}
