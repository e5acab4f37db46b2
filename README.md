# worded_domain_checkr in Dafny

This project models the command-line domain checker `worded_domain_checkr.py`. The checker:

1. validates the word-length options;
2. requires the registrar credentials;
3. splits the comma-separated `--tlds` option;
4. loads the dictionary, keeping the stripped, lower-cased, letter-only lines of the requested length;
5. asks the registrar, one TLD after another, about every `word + tld`. The words go in batches of 70 (`BATCH_SIZE`), with a 4-second pause (`DELAY_SECONDS`) between two batches of the same TLD;
6. collects the domains reported available, per TLD, in the report it saves to `available.json`.

Modules follow the program's parts:

- `Wrappers` holds `Option`, `Result` and `Outcome`.
- `Seqs` holds a list-comprehension filter and the subsequence relation.
- `Text` holds ASCII `strip`, `lower`, `isalpha` and `split(",")`.
- `Arguments` covers the length validation of `parse_arguments` and the TLD parsing of `main`.
- `Dictionary` covers `load_dictionary_words`.
- `Batching` covers `range(0, len(words), BATCH_SIZE)` and its slices.
- `Availability` covers `DomainChecker.check_batch`. The registrar is an oracle `Api` from a batch to a `Reply`: a failed request, or a decoded body with or without a `"domains"` list.
- `Checker` covers the checking loop of `main`. `AppendAvailable`, `CheckTld` and `CheckDomains` are `while` loops. `CheckOneBatch` is the straight-line body of the batch loop. Each method is proved against specification functions: `Record`, `Record` with `BatchEvents`, `TldReport`/`TldTrace`, or `RunReport`/`RunTrace`. The loop's observable actions are an `Event` trace: the query sent, the progress line, the sleep.
- `Program` covers `main` from start to finish. Every `sys.exit(1)` and `parser.error` is an error value. The environment variables, the dictionary file and the registrar are parameters.

## Model

| member | source | states |
|---|---|---|
| Arguments.ValidateLengths | worded_domain_checkr.py:93-139 | the options pass exactly when one of `--length`/`--min-length` is given, it is at least 1, and `--max-length` comes only with `--min-length` and is not below it; every rejection names a condition that really fails |
| Arguments.Message | worded_domain_checkr.py:126-139 | every refusal comes with a message |
| Arguments.StripPieces | worded_domain_checkr.py:171 | the comprehension keeps at most one TLD per piece |
| Arguments.StripPiecesKeepOut | worded_domain_checkr.py:171 | every kept piece is non-empty and stripped, and a character no piece held (the comma) is in none of them |
| Arguments.ParseTlds | worded_domain_checkr.py:171 | every parsed TLD is non-empty, has no whitespace at either end, and contains no comma |
| Arguments.StripPiecesIsFilter | worded_domain_checkr.py:171 | the comprehension is the stripped pieces with the empty ones dropped |
| Arguments.ParseTldsKeepsOrder | worded_domain_checkr.py:171 | the TLDs are the non-empty stripped pieces of the comma split, in the order written |
| Arguments.ParseJoinedTlds | worded_domain_checkr.py:171 | a list of clean, comma-free TLDs joined with commas parses back to the same list |
| Arguments.StripPiecesClean | worded_domain_checkr.py:171 | pieces that are already clean and non-empty pass the comprehension unchanged |
| Text.Split | worded_domain_checkr.py:171 | `split(",")` yields at least one piece, and no piece holds the separator |
| Text.JoinSplit | worded_domain_checkr.py:171 | joining the pieces of a split with the separator gives back the string |
| Text.SplitJoin | worded_domain_checkr.py:171 | splitting a join of separator-free pieces gives back the pieces |
| Text.SplitPrefix | worded_domain_checkr.py:171 | a separator-free prefix only extends the first piece of a split |
| Text.StripLeft | worded_domain_checkr.py:58 | `lstrip` removes a prefix made only of whitespace and leaves a string that does not start with whitespace |
| Text.StripRight | worded_domain_checkr.py:58 | `rstrip` removes a suffix made only of whitespace and leaves a string that does not end with whitespace |
| Text.Strip | worded_domain_checkr.py:58 | the result has no whitespace at either end and is no longer than the input |
| Text.StripRemovesOnlySpace | worded_domain_checkr.py:58 | the result is a contiguous slice of the input, and everything cut off on either side is whitespace |
| Text.StripKeepsOut | worded_domain_checkr.py:171 | stripping never introduces a character, so a stripped TLD piece still has no comma |
| Text.StrippedIsFixpoint | worded_domain_checkr.py:58 | a string already free of end whitespace is left alone |
| Text.StripIdempotent | worded_domain_checkr.py:58 | stripping twice is stripping once |
| Text.StripEmptyIffBlank | worded_domain_checkr.py:58 | a line is dropped by `if line.strip()` exactly when it is all whitespace |
| Text.IsSpace | worded_domain_checkr.py:58 | the characters `strip()` removes on ASCII; none of them is a letter |
| Text.IsAlpha | worded_domain_checkr.py:70 | `isalpha()` on ASCII: non-empty and letters only, so never with whitespace at either end |
| Text.LowerChar | worded_domain_checkr.py:58 | an upper-case letter becomes the lower-case letter at the same place in the alphabet, and every other character is kept |
| Text.Lower | worded_domain_checkr.py:58 | `lower()` keeps the length, turns each upper-case letter into its lower-case counterpart, keeps every other character, and leaves no upper case |
| Text.LowerExample | worded_domain_checkr.py:58 | `"Cat".lower()` is `"cat"` |
| Text.LowerKeepsStripped | worded_domain_checkr.py:58 | lower-casing a stripped line keeps it stripped |
| Text.LowerOfLower | worded_domain_checkr.py:58 | lower-casing a string without upper case changes nothing |
| Text.AlphaWithoutUpper | worded_domain_checkr.py:58-70 | a lower-cased line that passes `isalpha` is a word of lower-case letters |
| Text.LowerWordFacts | worded_domain_checkr.py:58-70 | a lower-case word is stripped, alphabetic and free of upper case |
| Dictionary.Normalize | worded_domain_checkr.py:58 | the stripped, lower-cased non-blank lines, never more than the lines read |
| Dictionary.NormalizedLineClean | worded_domain_checkr.py:58 | a line that is not blank normalizes to a non-empty line, stripped and free of upper case |
| Dictionary.NormalizeIsClean | worded_domain_checkr.py:58 | every normalized line is non-empty, stripped and free of upper case |
| Dictionary.SizeFilter | worded_domain_checkr.py:61-67 | the length filters drop words and never add one; `SizeFilterIsOneFilter` states which remain |
| Dictionary.SizeFilterIsOneFilter | worded_domain_checkr.py:61-67 | the exact-length filter, or else the min and max filters in turn, keep exactly the words whose length matches the options in force |
| Dictionary.LoadWords | worded_domain_checkr.py:55-73 | the loaded words are the normalized lines that match the length options and are alphabetic, in file order; each is such a line, each such line is loaded, and each loaded word is lower-case letters only |
| Dictionary.LoadWordsKeepsOrder | worded_domain_checkr.py:55-73 | the loaded words are a subsequence of the normalized lines |
| Dictionary.CleanDictionaryLoadsUnchanged | worded_domain_checkr.py:55-73 | a dictionary of lower-case words that all match the length options loads unchanged |
| Dictionary.NormalizeClean | worded_domain_checkr.py:58 | normalization leaves lower-case words unchanged |
| Batching.NumBatches | worded_domain_checkr.py:195 | the number of iterations is the least count of 70-word batches that covers the words |
| Batching.Batch | worded_domain_checkr.py:196 | a batch holds 1 to 70 words |
| Batching.Processed | worded_domain_checkr.py:207 | the progress count is at most the word count and lies past the batch start, at most 70 beyond it |
| Batching.BatchExists | worded_domain_checkr.py:195 | the k-th iteration of `range(0, n, BATCH_SIZE)` exists exactly when its start is below n |
| Batching.Batches | worded_domain_checkr.py:195-196 | there are `ceil(n / 70)` batches |
| Batching.FlattenBatchesPrefix | worded_domain_checkr.py:195-196 | the first k batches are the first `min(70k, n)` words |
| Batching.BatchesPartition | worded_domain_checkr.py:195-196 | the batches together are the words, in order, each word once |
| Batching.BatchSizes | worded_domain_checkr.py:195-196 | every batch but the last holds 70 words, the last holds 1 to 70, and the count is the least that covers the words |
| Batching.ProgressFacts | worded_domain_checkr.py:207-208 | the progress count is positive, at most the word count, strictly increasing, and reaches the word count exactly on the last batch |
| Batching.SleepIffMoreBatches | worded_domain_checkr.py:211 | the sleep guard `i + BATCH_SIZE < len(words)` holds exactly when another batch follows |
| Availability.CheckBatch | worded_domain_checkr.py:39-52 | a failed request and a body without `"domains"` both give `[]`; otherwise the result is the `"domains"` list as received |
| Availability.Found | worded_domain_checkr.py:199-202 | a response yields at most one found domain per result |
| Availability.FoundIsFilter | worded_domain_checkr.py:199-202 | the appended domains are those of the available results, in response order |
| Availability.Domains | worded_domain_checkr.py:199-200 | one domain per result |
| Availability.DomainsConcat | worded_domain_checkr.py:199-200 | the domains of two result lists together are the domains of each in turn |
| Availability.Honest | worded_domain_checkr.py:49 | a registrar that answers truthfully answers for every domain sent |
| Availability.FoundOfHonest | worded_domain_checkr.py:199-202 | against a truthful answer, the found domains are exactly the available ones of the batch, in batch order |
| Availability.HonestReply | worded_domain_checkr.py:39-49 | the truthful registrar's `"domains"` list is what `check_batch` returns |
| Checker.Candidates | worded_domain_checkr.py:196 | one candidate domain per word |
| Checker.CandidatesConcat | worded_domain_checkr.py:196 | the candidates of two word lists together are the candidates of each in turn |
| Checker.InitialReport | worded_domain_checkr.py:190 | every bucket of the new report starts empty |
| Checker.Record | worded_domain_checkr.py:199-202 | recording a response keeps the report's keys; `RecordOnlyAppends` states the buckets |
| Checker.RecordOnlyAppends | worded_domain_checkr.py:199-202 | a response adds its found domains to the end of the current TLD's bucket and touches no other bucket or key |
| Checker.AppendAvailable | worded_domain_checkr.py:199-202 | the loop over one response leaves the report that `Record` specifies |
| Checker.RecordStep | worded_domain_checkr.py:199-202 | each result appends its domain when available, and otherwise changes nothing |
| Checker.SliceIsBatch | worded_domain_checkr.py:196 | `words[i:i + BATCH_SIZE]` is the k-th batch |
| Checker.CheckOneBatch | worded_domain_checkr.py:196-212 | one iteration records the batch's response and emits query, progress and, unless it is the last batch, a sleep |
| Checker.CheckTld | worded_domain_checkr.py:195-212 | the batch loop of one TLD leaves the report `TldReport` specifies and the events `TldTrace` specifies |
| Checker.CheckDomains | worded_domain_checkr.py:190-212 | the whole loop leaves the report `RunReport` specifies and the events `RunTrace` specifies |
| Checker.TldReport | worded_domain_checkr.py:195-202 | the batches of one TLD never add or remove a key of the report |
| Checker.ReportHasEveryTld | worded_domain_checkr.py:190 | the report has a key exactly for each listed TLD, each starting empty |
| Checker.ReportBeforeAll | worded_domain_checkr.py:190 | before the first TLD the report is the initial one |
| Checker.ReportAfterStep | worded_domain_checkr.py:192-212 | each TLD of the list runs its batches on the report left by the TLDs before it |
| Checker.TldReportNone | worded_domain_checkr.py:195 | no batches leave the report unchanged |
| Checker.TldReportStep | worded_domain_checkr.py:195-202 | each batch records its own response |
| Checker.TldReportFrame | worded_domain_checkr.py:202 | the batches of one TLD leave every other TLD's bucket unchanged |
| Checker.TldFoundGrows | worded_domain_checkr.py:202 | what a TLD has found only grows by appending as batches go by |
| Checker.ReportGrows | worded_domain_checkr.py:192-202 | a bucket only grows by appending as the TLD loop proceeds |
| Checker.PrefixAppend | worded_domain_checkr.py:202 | appending keeps what is already in a bucket |
| Checker.FailedBatchKeepsReport | worded_domain_checkr.py:50-52 | a batch whose request fails adds nothing, and the loop goes on with the next batch |
| Checker.TldFoundOfAnsweringApi | worded_domain_checkr.py:195-202 | against a truthful registrar, after k batches a TLD has found the available candidates of the first `min(70k, n)` words, in word order |
| Checker.HonestBatch | worded_domain_checkr.py:196-202 | one more truthful batch extends the finds by that batch's available candidates |
| Checker.CandidatesNone | worded_domain_checkr.py:195 | before any batch, nothing is found and no word is covered |
| Checker.CandidatesUpToStep | worded_domain_checkr.py:196 | the words covered by k batches are those covered by k - 1 batches followed by the k-th batch |
| Checker.CandidatesStep | worded_domain_checkr.py:196-202 | the available candidates so far grow by those of the next batch |
| Checker.RunReportOfAnsweringApi | worded_domain_checkr.py:190-212 | for distinct TLDs and a truthful registrar, each saved bucket is exactly the available `word + tld` domains, in dictionary order |
| Checker.TakeOneMore | worded_domain_checkr.py:190-192 | in a TLD list without repetitions, the j-th TLD is not among those before it |
| Checker.BucketOfListedOnce | worded_domain_checkr.py:190-212 | with distinct TLDs, a bucket holds its TLD's finds once the TLD has run, and is empty before that |
| Checker.Count | worded_domain_checkr.py:190-192 | how often a TLD is listed, never more than the list is long |
| Checker.Repeat | worded_domain_checkr.py:202 | a list written out n times has n times its length |
| Checker.BucketRepeats | worded_domain_checkr.py:190-202 | after the first j listed TLDs, the bucket of `t` holds its finds once per listing of `t` among them, for any list, repeats included |
| Checker.RunReportRepeats | worded_domain_checkr.py:190-215 | the saved bucket of a listed TLD is its finds repeated as often as the TLD is listed |
| Checker.TraceAfterStep | worded_domain_checkr.py:192-212 | the TLD at each position, repeated or not, contributes its whole trace after those of the TLDs before it |
| Checker.TldListedTwice | worded_domain_checkr.py:190-212 | for the list `[t, t]`: the bucket holds the finds twice and the trace is the TLD's trace twice, so every request is sent twice |
| Checker.QueriesConcat | worded_domain_checkr.py:197 | the requests of two traces together are those of each in turn |
| Checker.SleepsConcat | worded_domain_checkr.py:212 | the sleeps of two traces together add up |
| Checker.BatchEvents | worded_domain_checkr.py:196-212 | an iteration logs a request, then a progress line, then at most a sleep |
| Checker.SleepOnlyBetweenBatches | worded_domain_checkr.py:196-212 | each iteration logs its query and progress, and sleeps exactly when another batch follows |
| Checker.BatchCounts | worded_domain_checkr.py:197-212 | each iteration sends one request, and sleeps once or, on the last batch, not at all |
| Checker.TldQueries | worded_domain_checkr.py:195-197 | k batches send exactly k requests, the i-th carrying the i-th batch's domains |
| Checker.TldQueriedDomains | worded_domain_checkr.py:195-197 | the requests of k batches carry the candidates of the first `min(70k, n)` words, in order |
| Checker.FlattenSnoc | worded_domain_checkr.py:195-197 | one more batch's domains come after those already sent |
| Checker.TldQuerySizes | worded_domain_checkr.py:195-197 | every request carries between 1 and 70 domains |
| Checker.TldSleeps | worded_domain_checkr.py:211-212 | a TLD with N batches sleeps N - 1 times |
| Checker.TldEndsWithFullProgress | worded_domain_checkr.py:207-208 | a TLD's last logged progress is `len(words)/len(words)` |
| Checker.TldTracePaced | worded_domain_checkr.py:211-212 | between any two requests for one TLD there is a sleep, and until the last batch the trace ends with a sleep |
| Checker.NoSleepBetweenTlds | worded_domain_checkr.py:192-212 | the last request for one TLD and the first request for the next have no sleep between them |
| Checker.TldFirstIsQuery | worded_domain_checkr.py:195-197 | a TLD with words starts with a request |
| Program.HasCredentials | worded_domain_checkr.py:147-152 | both variables are set and non-empty, as `not api_key or not api_secret` rejects `None` and `""` |
| Program.DefaultTlds | worded_domain_checkr.py:110-114 | without `--tlds`, the parsed TLD list is exactly `[".com"]` |
| Program.TldOption | worded_domain_checkr.py:110-114 | `--tlds` defaults to `.com` |
| Program.Run | worded_domain_checkr.py:166-215 | errors come in source order: length validation, then missing credentials, then an unreadable dictionary, then no words. The run succeeds exactly when none applies, and then saves `RunReport` and logs `RunTrace` for the parsed TLDs and loaded words |
| Program.CatAndDogBatch | worded_domain_checkr.py:195-196 | two words form one batch |
| Program.CatAndDogReport | worded_domain_checkr.py:190-202 | with only `cat.com` free, `{".com": ["cat.com"]}` is saved |
| Program.CatAndDogTrace | worded_domain_checkr.py:195-212 | that run sends one request, logs progress 2/2 and does not sleep |
| Program.CatComDogIoBucket | worded_domain_checkr.py:196-202 | the free candidates of `cat` and `dog` under `.com` and under `.io` |
| Program.CatComDogIoReport | worded_domain_checkr.py:190-212 | `--tlds .com,.io` with `cat.com` and `dog.io` free saves `{".com": ["cat.com"], ".io": ["dog.io"]}` |
| Seqs.Filter | worded_domain_checkr.py:62-70 | a comprehension filter never lengthens its input |
| Seqs.FilterMembers | worded_domain_checkr.py:62-70 | every kept element comes from the input and satisfies the condition |

## Left out

- The HTTP request of `check_batch` is not modelled: the URL, the headers, the `checkType` parameter, the JSON encoding and the 30-second timeout. The registrar is the `Api` oracle. Every `RequestException` that `check_batch` catches (connection failure, timeout, an error status, a body that is not JSON) is the single `RequestFailed` reply.
- Replies that crash `main` are not modelled. `check_batch` catches only `RequestException`. Replies of the following shapes raise past it and stop the program before `save_results`, so nothing is saved:
  - a successful body that decodes to anything but a JSON object: a list, string, number, `true`, `false` or `null` (`AttributeError` at `.get("domains", [])`);
  - a `"domains"` value that is `null`, a number or a boolean (`TypeError` in `for result in results`);
  - an entry of `"domains"` that is not an object (`AttributeError` at `result.get`).

  `Reply` cannot express these, so `Program.Run` always completes once the options and the dictionary are good.
- The `Api` oracle is a function of the batch. It gives the same reply every time the same batch is sent, within one TLD (a dictionary with repeated words) or across passes (a TLD listed twice). The real registrar need not be consistent: a second request may fail where the first succeeded. Checker.BucketRepeats, Checker.RunReportRepeats and Checker.TldListedTwice rely on this: every round of finds for a repeated TLD is the same.
- `DomainResult` treats `available` as a boolean and `domain` as present. Python truthiness of other JSON values, and `result.get("domain")` giving `None`, are not modelled.
- File I/O is not modelled. The dictionary is given as its lines, or `None` when it cannot be opened or read (`FileNotFoundError` and `IOError` both exit). The `--dict` option and its default path are left out.
- `.env` loading (`load_dotenv`) is not modelled. The two environment variables are parameters of `Program.Run`.
- argparse itself is not modelled. `Program.Args` holds the parsed `--length`, `--min-length`, `--max-length` and `--tlds`. `--length` with `--min-length` is argparse's own mutual-exclusion error and is checked first in `Arguments.ValidateLengths`. Type errors from `type=int` happen before validation and are not modelled.
- `time.sleep` is a `Sleep(DELAY_SECONDS)` event and elapses no time.
- Logging is left out except the progress line, which is a `Progress` event. The per-domain "Available"/"Taken" lines, the "Loaded"/"Checking" lines and the final `Complete! Found N available domains` summary are not modelled.
- `save_results` is not modelled: the file write and its `IOError`, which is logged and ignored. The saved value is the `report` of `Program.Finished`.
- `strip`, `lower` and `isalpha` are modelled on ASCII only. Unicode whitespace beyond the ASCII separators, non-ASCII case mappings and non-ASCII letters are not modelled.
- The dictionary filters on the length of the lower-cased line. Because `lower` is length-preserving in this model, Unicode case changes that alter length are not modelled.
- The report is a `map`, which has no key order. `json.dump` writes the keys in the order of their first listing in `--tlds`.
- Arguments.Message: the mutual-exclusion message is right only when `--length` comes first on the command line. argparse names the option given later.
- Checker.RunReportOfAnsweringApi is stated only for a list of distinct TLDs and a registrar that answers truthfully. For any list, repeats included, Checker.RunReportRepeats states what the code does instead.
- Three behaviours of the program are modelled as they are:
  - The program sleeps only between two batches of the same TLD, never between TLDs (Checker.NoSleepBetweenTlds).
  - An empty TLD list is not an error: it saves an empty report.
  - The program keeps no failed-batch count and reports no full or partial success: a failed request only logs an error.
