/**
 * `main` from start to finish: validate the options, require the registrar
 * credentials, parse the TLD list, load the words, stop when none are left,
 * then run the checking loop. Every `sys.exit(1)` and `parser.error` is an
 * error value; the environment, the dictionary file and the registrar are
 * parameters.
 */
module Program {
  import opened Wrappers
  import opened Seqs
  import opened Text
  import opened Arguments
  import opened Dictionary
  import opened Batching
  import opened Availability
  import opened Checker

  /** The options of `parse_arguments` that reach the model; `tlds` is `None`
      when `--tlds` was not given. */
  datatype Args = Args(length: Option<int>, minLength: Option<int>, maxLength: Option<int>, tlds: Option<string>)

  /** Why `main` stopped before checking anything. */
  datatype RunError =
    | InvalidLengths(reason: LengthError)
    | MissingCredentials
    | DictionaryUnreadable
    | NoWordsFound

  /** What a completed run leaves behind: the report saved to `available.json`
      and the events of the loop. */
  datatype Finished = Finished(report: Report, trace: seq<Event>)

  /** `--tlds`, with its default. */
  function TldOption(args: Args): (s: string)
    ensures args.tlds.None? ==> s == DEFAULT_TLD
    ensures args.tlds.Some? ==> s == args.tlds.value
  {
    if args.tlds.Some? then args.tlds.value else DEFAULT_TLD
  }

  /** Without `--tlds` the program checks `.com` and nothing else. */
  lemma DefaultTlds(args: Args)
    requires args.tlds.None?
    ensures ParseTlds(TldOption(args)) == [".com"]
  {
    var tlds := [DEFAULT_TLD];
    assert IsCleanPiece(tlds[0]) && ',' !in tlds[0];
    ParseJoinedTlds(tlds);
    assert Join(tlds, ',') == DEFAULT_TLD;
  }

  /** `load_credentials` succeeds: both variables are set and not empty. */
  predicate HasCredentials(apiKey: Option<string>, apiSecret: Option<string>) {
    apiKey.Some? && apiKey.value != "" && apiSecret.Some? && apiSecret.value != ""
  }

  /** The words `main` goes on with, once the options and the file are good. */
  function Words(args: Args, lines: seq<string>): seq<string> {
    LoadWords(lines, args.length, args.minLength, args.maxLength)
  }

  /** `main`. `dictionary` is the lines of the dictionary file, `None` when it
      cannot be opened or read. */
  method Run(args: Args, apiKey: Option<string>, apiSecret: Option<string>,
             dictionary: Option<seq<string>>, api: Api) returns (r: Result<Finished, RunError>)
    ensures ValidateLengths(args.length, args.minLength, args.maxLength).Fail? ==>
              r == Err(InvalidLengths(ValidateLengths(args.length, args.minLength, args.maxLength).error))
    ensures LengthsAccepted(args.length, args.minLength, args.maxLength) && !HasCredentials(apiKey, apiSecret) ==>
              r == Err(MissingCredentials)
    ensures (LengthsAccepted(args.length, args.minLength, args.maxLength) && HasCredentials(apiKey, apiSecret)
             && dictionary.None?) ==> r == Err(DictionaryUnreadable)
    ensures (LengthsAccepted(args.length, args.minLength, args.maxLength) && HasCredentials(apiKey, apiSecret)
             && dictionary.Some? && Words(args, dictionary.value) == []) ==> r == Err(NoWordsFound)
    ensures r.Ok? <==> LengthsAccepted(args.length, args.minLength, args.maxLength) && HasCredentials(apiKey, apiSecret)
                       && dictionary.Some? && Words(args, dictionary.value) != []
    ensures r.Ok? ==>
              var tlds, words := ParseTlds(TldOption(args)), Words(args, dictionary.value);
              r.value.report == RunReport(tlds, words, api) && r.value.trace == RunTrace(tlds, words)
  {
    var validation := ValidateLengths(args.length, args.minLength, args.maxLength);
    if validation.Fail? {
      return Err(InvalidLengths(validation.error));
    }
    if !HasCredentials(apiKey, apiSecret) {
      return Err(MissingCredentials);
    }
    var tlds := ParseTlds(TldOption(args));
    if dictionary.None? {
      return Err(DictionaryUnreadable);
    }
    var words := LoadWords(dictionary.value, args.length, args.minLength, args.maxLength);
    if words == [] {
      return Err(NoWordsFound);
    }
    var report, trace := CheckDomains(tlds, words, api);
    return Ok(Finished(report, trace));
  }

  /** A registrar that reports `cat.com` free and everything else taken. */
  function CatOnly(): Api {
    HonestRegistrar((d: string) => d == "cat.com")
  }

  /** The words `cat` and `dog` with the default TLD make one request carrying both domains. */
  lemma CatAndDogBatch()
    ensures NumBatches(2) == 1
    ensures BatchDomains(["cat", "dog"], ".com", 0) == ["cat.com", "dog.com"]
  {
    var words: seq<string>, tld := ["cat", "dog"], ".com";
    BatchExists(|words|, 0);
    assert Batch(words, 0) == words;
    var batch := BatchDomains(words, tld, 0);
    assert "cat" + ".com" == "cat.com" && "dog" + ".com" == "dog.com";
    assert batch[0] == "cat.com" && batch[1] == "dog.com";
  }

  /** Only `cat.com` is saved. */
  lemma CatAndDogReport()
    ensures RunReport([".com"], ["cat", "dog"], CatOnly()) == map[".com" := ["cat.com"]]
  {
    var words, tld, api := ["cat", "dog"], ".com", CatOnly();
    CatAndDogBatch();
    var results := CheckBatch(api, ["cat.com", "dog.com"]);
    assert results == [DomainResult("cat.com", true), DomainResult("dog.com", false)];
    assert results[..1] == [DomainResult("cat.com", true)];
    assert results[..1][..0] == [];
    assert Found(results) == ["cat.com"];
    assert TldFound(tld, words, api, 1) == ["cat.com"];
    assert Bucket([tld], words, api, 1, tld) == ["cat.com"];
  }

  /** The only batch is logged with progress 2/2 and is not followed by a sleep. */
  lemma CatAndDogTrace()
    ensures RunTrace([".com"], ["cat", "dog"]) == [Query(["cat.com", "dog.com"]), Progress(".com", 2, 2)]
  {
    var words, tld := ["cat", "dog"], ".com";
    CatAndDogBatch();
    assert TldTrace(tld, words, 1) == [Query(["cat.com", "dog.com"]), Progress(tld, 2, 2)];
    assert TraceAfter([tld], words, 1) == TldTrace(tld, words, 1);
  }

  /** The domains free in the second example: `cat.com` and `dog.io`. */
  function CatComDogIoFree(): string -> bool {
    (d: string) => d == "cat.com" || d == "dog.io"
  }

  /** A registrar with `cat.com` and `dog.io` free. */
  function CatComDogIo(): Api {
    HonestRegistrar(CatComDogIoFree())
  }

  /** The available candidates of `cat` and `dog` for one TLD. */
  lemma CatComDogIoBucket(tld: string)
    requires tld == ".com" || tld == ".io"
    ensures Filter(Candidates(["cat", "dog"], tld), CatComDogIoFree())
         == if tld == ".com" then ["cat.com"] else ["dog.io"]
  {
    var c := Candidates(["cat", "dog"], tld);
    assert c == ["cat" + tld, "dog" + tld];
    assert "cat" + ".com" == "cat.com" && "dog" + ".com" == "dog.com";
    assert "cat" + ".io" == "cat.io" && "dog" + ".io" == "dog.io";
    assert c[1..] == ["dog" + tld] && c[1..][1..] == [];
  }

  /** Two TLDs, each with one free domain: every TLD gets its own bucket with its own finds. */
  lemma CatComDogIoReport()
    ensures RunReport([".com", ".io"], ["cat", "dog"], CatComDogIo()) == map[".com" := ["cat.com"], ".io" := ["dog.io"]]
  {
    var tlds, words := [".com", ".io"], ["cat", "dog"];
    var report := RunReport(tlds, words, CatComDogIo());
    var expected := map[".com" := ["cat.com"], ".io" := ["dog.io"]];
    assert tlds[0] != tlds[1];
    ReportHasEveryTld(tlds, words, CatComDogIo());
    assert report.Keys == expected.Keys;
    RunReportOfAnsweringApi(tlds, words, CatComDogIoFree(), ".com");
    CatComDogIoBucket(".com");
    assert report[".com"] == expected[".com"];
    RunReportOfAnsweringApi(tlds, words, CatComDogIoFree(), ".io");
    CatComDogIoBucket(".io");
    assert report[".io"] == expected[".io"];
    forall k | k in report
      ensures report[k] == expected[k]
    {
      assert k == ".com" || k == ".io";
    }
  }
}
