# Parliamentary hearing pipeline — a Dafny model of its core

The application takes YouTube links to French parliamentary hearings and a
theme. For each link it:

1. extracts the audio;
2. transcribes it in ten-minute windows with Deepgram;
3. cuts the transcript into token-bounded chunks;
4. asks a language model for a structured analysis of each chunk;
5. merges the chunk analyses into one analysis.

With more than one link it also asks for a consolidated analysis of all
hearings. Around this pipeline sit:

- a retry decorator with exponential back-off and a per-attempt timeout;
- a remaining-time helper;
- a collector that writes one JSON file per operation, summarises the
  directory and purges old files;
- the input validators.

This project models that core as pure Dafny functions over immutable
datatypes, and proves what each step promises.

Modules (one file each, in dependency order):

- `Base` (`base.dfy`) holds `Option`, `Result`, the decoded-JSON value
  `Json` with Python truthiness, and `Comprehend`, a list comprehension
  with a filter.
- `Text` (`text.dfy`) holds the `str` methods the core uses, on ASCII
  whitespace: `strip`, `lstrip`, `rstrip`, `split(sep)`, `split()`,
  `join` and `replace`.
- `Urls` (`urls.dfy`) holds the part of `urllib.parse` that video-id
  extraction goes through: `urlsplit`, `urlparse`, `parse_qs` and
  `unquote`.
- `Retry` (`retry.dfy`) holds the `async_retry` attempt loop and
  `TimeoutContext`.
  - The wrapped coroutine is a script: call `k` returns `Ok`, raises, or
    times out.
  - Sleeps and `on_retry` calls are recorded as events.
- `Prompts` (`prompts.dfy`) holds `str.format` on the two prompt
  templates.
- `Analysis` (`analysis.dfy`) holds:
  - `_chunk_transcript`, with the tokenizer as an abstract `measure`;
  - `_combine_analyses`;
  - `_analyze_chunk` and `analyze_individual`;
  - `analyze_consolidated`, with the language model as a script of
    attempt outcomes per prompt.
- `Transcription` (`transcription.dfy`) holds the window list of
  `transcribe`, the all-or-nothing `gather`, `_combine_chunks` and
  `format_transcript`.
- `Metrics` (`metrics.dfy`) holds:
  - `QualityMetrics` and its mutators, and `to_dict`;
  - `save_metrics`, `get_metrics_summary` and `cleanup_old_metrics`, over
    a directory modelled as a map from file stem to stored file.
- `Validators` (`validators.dfy`) holds `is_valid_youtube_url`,
  `validate_urls`, `validate_theme` and `extract_video_id`.
- `App` (`app.dfy`) holds `process_url`, `generate_consolidated_analysis`,
  and the form handler's validation and `len(valid_urls) > 1` rule.

External calls are parameters:

- the clock, the `strftime` stamp and the directory listing;
- how a file write ended;
- the duration `ffprobe` reports;
- the Deepgram and model scripts;
- `json.dumps`;
- the audio extractor, transcriber, analyzer and clean-up stages of
  `process_url`.

Some behaviour is stated in two forms. The source as written raises where
it evidently means not to (see Findings). In those places the model keeps
both forms:

- an `…AsWritten` member that follows the code;
- the corrected member, which the rest of the model uses.

## Model

| member | source | states |
|---|---|---|
| Retry.AsyncRetry | src/utils/retry.py:41-83 | at most `max_retries + 1` calls; a returned value is the value of the last call made; the wrapper returns `None` without calling exactly when `max_retries < 0`; `RetryError` comes only after every attempt was made, caused by a timeout exactly when the last attempt timed out, and otherwise by the last attempt's matched exception |
| Retry.LoopFacts | src/utils/retry.py:47-80 | from any iteration on: calls bounded by the remaining iterations; a returned value or escaping exception comes from the last call made; an escaping exception is one outside `exceptions`; `RetryError` is raised from the final attempt's failure |
| Retry.RunWithRetry | src/utils/retry.py:43-80 | the loop written with early returns, as the decorator writes it, computes the same outcome, call count and events as the recursive model |
| Retry.BetweenEvents | src/utils/retry.py:62-72 | after a retried failure there is exactly one sleep, of `current_delay`, preceded by `on_retry(e, attempt)` exactly when a callback was given |
| Retry.LoopRetryStep | src/utils/retry.py:62-72 | a matched exception before the last attempt calls back, sleeps, multiplies the delay by `backoff`, and goes on |
| Retry.LoopTimeoutStep | src/utils/retry.py:56-60 | a timed-out attempt adds one call and no event, and leaves the delay unchanged |
| Retry.LoopFinalStep | src/utils/retry.py:50-54 | a success returns at once; an unmatched exception escapes at once; a matched exception on the last attempt raises `RetryError` from it at once; none of these sleeps or calls back |
| Retry.LoopEnd | src/utils/retry.py:79-80 | past the last iteration the loop raises `RetryError` from the last exception, or returns `None` when there was none |
| Retry.DelayAfterClosedForm | src/utils/retry.py:45 | `current_delay` after `n` sleeps is `delay * backoff^n` |
| Retry.FirstDecisiveAttempt | src/utils/retry.py:47-77 | when attempts `0..k-1` time out or raise matched exceptions and attempt `k` succeeds or raises an unmatched exception, exactly `k + 1` calls are made and the outcome is attempt `k`'s |
| Retry.SleepSchedule | src/utils/retry.py:62-72 | the j-th sleep of a call lasts `delay * backoff^j`, whatever timeouts came between; there are as many `on_retry` calls as sleeps with a callback, none without |
| Retry.LoopCallbackCount | src/utils/retry.py:64-66 | from any iteration on, one callback per sleep when a callback was given, none otherwise |
| Retry.LoopRecoveryCallbacks | src/utils/retry.py:62-72 | matched failures of attempts `a..k-1` followed by a success give the callbacks `on_retry(e_j, j)` in order |
| Retry.RecoversAfterFailures | src/utils/retry.py:47-72 | `k <= max_retries` matched failures then a success return the success value after exactly `k + 1` calls, `k` sleeps and, with a callback, the calls `on_retry(e_j, j)` for `j < k` |
| Retry.AlwaysFailing | src/utils/retry.py:62-77 | matched failures on every attempt: `RetryError` from the last failure after `max_retries + 1` calls and `max_retries` sleeps totalling `delay * (1 + backoff + … + backoff^(max_retries-1))` |
| Retry.SumDelaysGeometric | src/utils/retry.py:71-72 | the total of the first `n` sleeps times `backoff - 1` is `delay * (backoff^n - 1)` |
| Retry.AllTimeouts | src/utils/retry.py:56-60 | timeouts on every attempt: `RetryError` caused by the timeout after `max_retries + 1` calls, with no sleep and no callback |
| Retry.WithoutExceptions | src/utils/retry.py:47-60 | an operation that never raises is never slept after; nothing escapes; a `RetryError` can only be a timeout; a first-attempt success is the only call |
| Retry.Remaining | src/utils/retry.py:98-106 | `remaining()` is never negative, is positive exactly before the deadline, and while positive adds up with the elapsed time to the timeout |
| Retry.Check | src/utils/retry.py:108-116 | `check()` raises exactly when the elapsed time has reached the timeout |
| Retry.SleepWithin | src/utils/retry.py:118-130 | `sleep(d)` raises without sleeping exactly when `d` exceeds the remaining time |
| Retry.SleepConsumesRemaining | src/utils/retry.py:98-130 | a positive sleep that `sleep` lets through lowers the remaining time by its duration, and leaves the deadline reached exactly when it used all of it |
| Prompts.Format | src/modules/analysis.py:99-102 | `str.format` fails only by naming a field of the template that has no keyword argument |
| Prompts.FormatSucceedsIff | src/modules/analysis.py:99-102 | `str.format` succeeds exactly when every field of the template has a keyword argument |
| Prompts.FormatIgnoresExtraArguments | src/modules/analysis.py:236-239 | keyword arguments that no field names do not change the result |
| Prompts.IndividualPromptAsWrittenRaises | src/modules/analysis.py:99-102 | the call passes `transcription=` and `theme=` while the template names `{transcript}`: it raises `KeyError('transcript')` for every chunk and theme |
| Prompts.ConsolidatedPromptAsWrittenRaises | src/modules/analysis.py:236-239 | the call passes `analyses=` while the template names `{analysis_files}`: it raises `KeyError('analysis_files')` for every input |
| Prompts.IndividualPromptCorrected | src/prompts/individual.py:69-71 | with the keyword the template names, the prompt is the instructions, the transcript, the theme line and the theme |
| Prompts.ConsolidatedPromptCorrected | src/prompts/consolidated.py:65-67 | with the keyword the template names, the prompt is the instructions, the serialised analyses, the theme line and the theme |
| Analysis.Sentences | src/modules/analysis.py:53 | `transcript.split('. ')` has at least one piece, and joining the pieces with `'. '` gives the transcript back |
| Analysis.GroupsPartitionSentences | src/modules/analysis.py:53-71 | concatenating the chunks' sentence lists gives exactly the sentences; there is at least one chunk for a non-empty list; no chunk is empty; each chunk is within `max_tokens` or is a single sentence; a chunk was closed only because the next sentence would have pushed it over `max_tokens` |
| Analysis.GreedyBudget | src/modules/analysis.py:58-68 | each chunk's summed measure is at most `max_tokens`, unless it is a single sentence |
| Analysis.GreedyClosing | src/modules/analysis.py:61-65 | a chunk is closed only when its tokens plus the next sentence's exceed `max_tokens` |
| Analysis.ChunkTranscriptLoop | src/modules/analysis.py:53-78 | the loop as written, with its running chunk and token count, returns the chunks of the greedy grouping |
| Analysis.ChunksNotEmpty | src/modules/analysis.py:53-71 | `_chunk_transcript` returns at least one chunk for every transcript, the empty one included |
| Analysis.ChunksRejoin | src/modules/analysis.py:63-71 | every chunk is its sentences joined by `'. '` plus a closing `'.'`; dropping that `'.'` and joining the chunks with `'. '` gives the transcript back |
| Analysis.FinalChunkDoubleDot | src/modules/analysis.py:63-71 | a transcript that already ends with `'.'` yields a last chunk ending in `'..'` |
| Analysis.CombineSucceedsIff | src/modules/analysis.py:176-196 | `_combine_analyses` succeeds exactly when the first record has the three scalar fields and every record has the seven list fields as values `extend` accepts (a list, a string or an object); an empty list is exactly the `IndexError` case |
| Analysis.CombineMerges | src/modules/analysis.py:176-196 | a successful merge has exactly the ten keys; `identification`, `participants` and `structure` come from the first record; each list field is what `extend` takes from that field of every record, concatenated in record order: the items of a list, the characters of a string, the keys of an object |
| Analysis.ObjectAnnexesMerge | src/modules/analysis.py:176-196 | a reply whose `annexes` is the object `{"lois": []}` merges, and contributes its key `"lois"` to the merged `annexes` |
| Analysis.NumberAnnexesFail | src/modules/analysis.py:189-196 | a reply whose `annexes` is a number fails with `TypeError` on that field of that record |
| Analysis.CombineFirstError | src/modules/analysis.py:177-196 | any failure other than the empty list names a record: the first one when it lacks a scalar field, and otherwise a record lacking a list field, every earlier record having all of them |
| Analysis.CombinedIsRecord | src/modules/analysis.py:176-196 | the merge is itself a record `_combine_analyses` accepts, with the scalars of the first input and the gathered lists |
| Analysis.CombinedExtensional | src/modules/analysis.py:176-196 | two inputs that agree on the first record's scalars and on each gathered list field merge to the same record |
| Analysis.CombineIdempotent | src/modules/analysis.py:176-196 | merging a single merged analysis gives it back |
| Analysis.CombineAppend | src/modules/analysis.py:176-196 | merging two runs of records at once equals merging the two merges |
| Analysis.AnalyzeChunkAsWrittenRaises | src/modules/analysis.py:85-125 | as written, every `_analyze_chunk` call raises `RetryError` from the formatting `KeyError` after four attempts and sleeps of 1, 2 and 4 seconds, without reaching the model |
| Analysis.AnalyzeChunks | src/modules/analysis.py:144-147 | chunk calls run one after the other in chunk order; the values kept are those of the calls that returned, as a prefix; the first call that raises ends the loop |
| Analysis.FirstChunkRaises | src/modules/analysis.py:144-147 | when the first chunk call raises, no value is kept and no other chunk is tried |
| Analysis.AnalyzeIndividualContract | src/modules/analysis.py:138-162 | `analyze_individual` returns a value exactly when every chunk call returns and the values are mergeable; the value is then the merge of the chunk values in chunk order; otherwise it returns `None` |
| Analysis.AnalyzeIndividualAsWrittenFails | src/modules/analysis.py:99-162 | as written, `analyze_individual` returns `None` for every transcript, and only the first chunk is ever sent |
| Analysis.FormatForConsolidationContract | src/modules/analysis.py:223-234 | the list is built exactly when every analysis has the six forwarded fields; then it holds one record per analysis, in input order, labelled `audition` 1 to n; otherwise the exception names the first analysis lacking a field |
| Analysis.LabelledFields | src/modules/analysis.py:225-233 | a labelled record holds `audition` and the six forwarded fields with the analysis's values, and nothing else |
| Analysis.ConsolidationPromptCarriesRecords | src/modules/analysis.py:236-239 | with well-formed analyses, the corrected prompt carries the serialised labelled records and the theme |
| Analysis.ConsolidatedNeverRetriesFailures | src/modules/analysis.py:208-262 | because the body turns every exception into `None`, the retry wrapper never sleeps and lets nothing escape; a `RetryError` can only come from timeouts; without a first-attempt timeout there is one call, returning the model's value or `None` |
| Analysis.AnalyzeConsolidatedAsWrittenReturnsNone | src/modules/analysis.py:236-262 | as written, `analyze_consolidated` makes one call, which returns `None`, for every input and model |
| Transcription.WindowsFrom | src/modules/transcription.py:137-139 | window k starts at `k * 600` and ends at `min(k * 600 + 600, duration)`; no window is empty; the last ends at the duration; there are none exactly when the duration is not positive |
| Transcription.WindowsPartition | src/modules/transcription.py:137-139 | the windows tile `[0, duration)`: the first starts at 0, each ends where the next starts, the last ends at the duration, none is longer than 600 seconds, and there are `ceil(duration / 600)` of them |
| Transcription.WindowsCover | src/modules/transcription.py:137-139 | every instant of the audio falls in exactly one window |
| Transcription.AlternativeTexts | src/modules/transcription.py:185-187 | the alternatives' transcripts are kept in order, skipping those without one |
| Transcription.CombineChunksAppend | src/modules/transcription.py:179-189 | combining two batches of responses joins their texts with one blank, and a batch with no transcript adds nothing |
| Transcription.CombinePlain | src/modules/transcription.py:179-189 | responses holding one transcript each combine to those transcripts joined by single blanks, in order |
| Transcription.Gather | src/modules/transcription.py:147 | `gather` yields a value exactly when every window's call returned, with one value per window |
| Transcription.Present | src/modules/transcription.py:150 | the filter keeps only present responses, from the results, and is empty exactly when all are `None` |
| Transcription.MergeContract | src/modules/transcription.py:147-155 | the transcript exists exactly when every window call returned and at least one response is present; it is then the combined present responses in window order |
| Transcription.TranscribeContract | src/modules/transcription.py:125-167 | `transcribe` yields a text exactly when the file exists, the duration is positive, every window's retried call returns, and at least one returns a response; the text is the combined responses in window order |
| Transcription.FailingWindow | src/modules/transcription.py:32-72 | one window whose four attempts all raise makes the whole transcription `None`, after sleeps of 1, 2 and 4 seconds for that window |
| Transcription.RecoveredRun | src/modules/transcription.py:32-33 | a window that succeeds within its three retries returns its response |
| Transcription.RecoveringWindows | src/modules/transcription.py:137-162 | when every window recovers within its retries with a transcript, the result is the windows' transcripts joined by blanks in window order |
| Transcription.RangeStarts | src/modules/transcription.py:138-139 | `range(0, stop, 600)` raises `TypeError` for a float bound, and for an integer bound gives one start per window |
| Transcription.TranscribeAsWrittenFails | src/modules/transcription.py:132-167 | as written, with `_get_audio_duration` returning a float, `transcribe` returns `None` for every input |
| Transcription.TranscribeTwoWindows | src/modules/transcription.py:137-162 | a 1200-second file whose two windows both answer "bonjour" gives `None` as written and "bonjour bonjour" corrected |
| Transcription.GlueKeepsWords | src/modules/transcription.py:209-212 | removing the blanks before a mark keeps the characters in order, and leaves no later word starting with that mark |
| Transcription.ReplaceOnJoin | src/modules/transcription.py:209-212 | `replace(' ' + c, c)` on single-blank-separated words glues each word starting with `c` onto the one before |
| Transcription.ReplaceAllOnJoin | src/modules/transcription.py:209-212 | the four replacements in turn keep the characters in order and leave no blank before `,`, `.`, `!` or `?` |
| Transcription.FormatTranscriptContract | src/modules/transcription.py:205-212 | the output keeps the input's non-whitespace characters in order; it is words separated by single blanks with no blank before `,`, `.`, `!` or `?`; it has no whitespace at either end |
| Transcription.FormatOfFormatted | src/modules/transcription.py:205-212 | text already laid out as the function leaves it is returned unchanged |
| Transcription.FormatTranscriptIdempotent | src/modules/transcription.py:205-212 | formatting twice is formatting once |
| Transcription.FormatTranscriptOf | src/modules/transcription.py:191-224 | a missing transcript gives `None` (the raised exception is caught), and a string gives a string |
| Transcription.FormatTranscriptOfContract | src/modules/transcription.py:202-224 | the value returned is stripped, keeps the non-whitespace characters in order, and is a fixed point |
| Metrics.Start | src/utils/metrics.py:14-29 | a new record has the dataclass defaults: no end time, duration or error, success, zero counters and no custom metric |
| Metrics.Complete | src/utils/metrics.py:31-42 | `complete` sets the end time, `duration = end - start`, `success` and `error`, and changes no counter |
| Metrics.CompleteTwice | src/utils/metrics.py:31-42 | a second `complete` overwrites everything the first set |
| Metrics.AddApiCall | src/utils/metrics.py:44-52 | one more call and `tokens` more tokens, nothing else changed |
| Metrics.AddApiCallsCount | src/utils/metrics.py:44-52 | after `n` calls: `n` more calls, the sum of their tokens, nothing else changed |
| Metrics.AddRetry | src/utils/metrics.py:54-56 | one more retry, nothing else changed |
| Metrics.AddMetric | src/utils/metrics.py:58-66 | sets or overwrites exactly one custom metric and keeps the others |
| Metrics.AddMetricOverwrites | src/utils/metrics.py:58-66 | setting a metric twice keeps the second value only |
| Metrics.ToDictKeys | src/utils/metrics.py:75-86 | exactly ten keys, without the start and end times |
| Metrics.ToDictValues | src/utils/metrics.py:75-86 | the operation, success, duration, retries, API calls and API tokens are stored as the record's own values |
| Metrics.SaveKey | src/utils/metrics.py:134-135 | the file stem starts with the operation name |
| Metrics.Save | src/utils/metrics.py:124-143 | an unfinished record is completed as a success first, and a finished one is kept as is; a completed write adds or overwrites exactly the file `operation_stamp`, holding `to_dict` of the finished record; when `open` raises nothing changes; when `open` succeeds and the write then raises, that file is left unparseable; no other file changes |
| Metrics.FailedWriteLosesRecord | src/utils/metrics.py:134-143 | a write that fails after `open`, in the same second as an earlier save of the same operation, leaves that record's file unparseable |
| Metrics.SameSecondOverwrites | src/utils/metrics.py:134-140 | two saves of the same operation with the same stamp leave only the second record |
| Metrics.DistinctKeysKeepBoth | src/utils/metrics.py:134-140 | saves under different stems keep both files |
| Metrics.Contribution | src/utils/metrics.py:166-181 | an unparseable file adds nothing; a parsed file always counts one operation; a parsed file without `success` adds nothing else |
| Metrics.Step | src/utils/metrics.py:166-181 | the loop body adds, in order, the count, the success, then the four sums, stopping at the first value that cannot be added |
| Metrics.SummaryLoop | src/utils/metrics.py:155-190 | the loop over the listed files returns the summary of the totals |
| Metrics.Ratio | src/utils/metrics.py:185-187 | `x / n if n > 0 else 0`: zero for no record, and otherwise a value that times `n` gives `x` |
| Metrics.SummaryIgnoresOrder | src/utils/metrics.py:155-190 | the summary does not depend on the order `glob` lists the files in |
| Metrics.SummarySkips | src/utils/metrics.py:156-181 | files the operation filter rejects, and files that do not parse, change nothing |
| Metrics.MissingSuccessCountsOnly | src/utils/metrics.py:171-181 | a parsed record without `success` adds one operation and nothing else, and the scan goes on |
| Metrics.ContributionOfSaved | src/utils/metrics.py:75-86 | a saved, finished record contributes exactly its own success, duration, retries, calls and tokens |
| Metrics.SummaryOfSaved | src/utils/metrics.py:145-190 | over saved, finished records, every record is counted, the success rate is the share of successful ones, and the averages and totals are those of the records' own fields |
| Metrics.EmptySummary | src/utils/metrics.py:183-190 | with nothing counted, the success rate and both averages are 0 |
| Metrics.Cleanup | src/utils/metrics.py:199-204 | keeps exactly the files whose mtime is not strictly older than `now - days * 86400`, unchanged |
| Metrics.CleanupIdempotent | src/utils/metrics.py:199-204 | cleaning twice at the same time removes nothing more |
| Metrics.CleanupMonotone | src/utils/metrics.py:199-204 | a later cutoff keeps a subset of the files |
| Metrics.FreshSaveSurvives | src/utils/metrics.py:199-204 | a record saved at the time of the clean-up survives it, for any non-negative retention |
| Validators.ValidShape | src/utils/validators.py:10-26 | a URL is valid exactly when, stripped, it starts with one of the accepted scheme, host and path prefixes followed by an id character |
| Validators.ValidFromShape | src/utils/validators.py:19-26 | every accepted prefix followed by an id character passes |
| Validators.ShapeFromValid | src/utils/validators.py:15-26 | a URL that passes has one of the accepted prefixes, followed by an id character |
| Validators.ValidIgnoresSurroundingSpace | src/utils/validators.py:26 | surrounding whitespace does not change the verdict |
| Validators.ValidWithAnyTail | src/utils/validators.py:19-26 | anything may follow the first id character |
| Validators.SplitRuns | src/utils/validators.py:58 | `re.split(r'[\n,]+', s)` gives at least one piece, none holding a separator |
| Validators.ValidateUrlsContract | src/utils/validators.py:49-63 | every URL returned is non-empty, stripped, valid and free of separators |
| Validators.CleanedFrom | src/utils/validators.py:58 | each kept piece is the stripped, non-empty form of an input piece |
| Validators.ValidOnlySubseq | src/utils/validators.py:61 | the kept URLs come from the list and are valid |
| Validators.RunsAsSingles | src/utils/validators.py:58 | splitting on runs of separators or on single separators keeps the same non-blank pieces |
| Validators.ValidateUrlsAppend | src/utils/validators.py:54-63 | two lists pasted with a separator between them validate to the two results in order |
| Validators.ValidateUrlsOfLines | src/utils/validators.py:54-63 | URLs of the kind `validate_urls` returns, one per line, validate to themselves |
| Validators.ValidateUrlsIdempotent | src/utils/validators.py:49-63 | validating the result again, one URL per line, changes nothing |
| Validators.StripHashes | src/utils/validators.py:73 | `lstrip('#')` removes exactly the leading `#`s |
| Validators.ThemeRegexIsCharset | src/utils/validators.py:79 | the anchored regular expression accepts exactly the non-empty strings of class characters |
| Validators.ValidateThemeCharset | src/utils/validators.py:65-80 | a theme is valid exactly when, after its leading `#`s, it has 3 to 50 characters, all letters, digits, `_`, `-` or whitespace |
| Validators.HashIgnored | src/utils/validators.py:72-73 | a leading `#` does not change the verdict |
| Validators.InnerHashRejected | src/utils/validators.py:65-80 | a `#` after another character is never accepted |
| Validators.ExtractVideoId | src/utils/validators.py:33-34 | an invalid URL gives `None` |
| Validators.ExtractOfValid | src/utils/validators.py:28-47 | a valid URL always yields an id, which starts with the id run the check matched after the prefix |
| Validators.ExtractRoundTrip | src/utils/validators.py:28-47 | the id of a bare URL of any accepted shape is given back whole |
| Validators.IdOfShape | src/utils/validators.py:36-45 | on every accepted shape the parsed URL yields an id that starts with the id run, and is that run when nothing follows |
| Validators.IdOfShortPath | src/utils/validators.py:38-39 | on `youtu.be` the id is the path after its `/` |
| Validators.IdOfRoutePath | src/utils/validators.py:44-45 | under `/v/` and `/embed/` the id is the third `/`-separated piece of the path |
| Validators.IdOfWatchQuery | src/utils/validators.py:42-43 | on `/watch` the id is the first `v` query value |
| App.ProcessUrl | app.py:60-110 | the run succeeds exactly when it returns the transcript and analysis; a failure records its error text; the stages called are a prefix of extract, transcribe, analyze, clean-up |
| App.ProcessUrlShortCircuits | app.py:74-97 | a stage is called exactly when every earlier stage passed: the transcriber after a clean extraction, the analyzer after a non-empty transcript, the clean-up after a non-empty analysis |
| App.ProcessUrlSucceedsIff | app.py:74-105 | success exactly when every stage passes and the clean-up returns; the result then holds that transcript and that analysis |
| App.ProcessUrlErrors | app.py:74-110 | the error is the extractor's own text, the fixed transcription or analysis message for an empty result, or the text of the exception a stage raised |
| App.ProcessUrlReadsOnlyItsCalls | app.py:60-110 | two sets of collaborators that agree on the calls made give the same run |
| App.ProcessUrlWithAnalyzerAsWritten | app.py:89-94 | with the analyzer as written, a run that gets past transcription ends with the analysis failure, and the clean-up is never called |
| App.ProcessAll | app.py:126-127 | one result per URL |
| App.ErrorsEmptyIff | app.py:130-131 | no error is collected exactly when every result succeeded |
| App.ErrorsAreTheFailures | app.py:130 | the collected errors are exactly the errors of the failed results |
| App.GenerateConsolidated | app.py:112-150 | the consolidator is asked exactly when every URL succeeded; otherwise the value is `None`; a recorded success implies it was asked |
| App.GenerateConsolidatedContract | app.py:123-145 | the consolidator gets the analyses of all URLs in URL order; otherwise the run returns `None` and records the errors joined by newlines in URL order; its value is the consolidator's, or `None` when it raises |
| App.OneFailureStopsConsolidation | app.py:126-134 | a single failing URL, anywhere in the list, stops the consolidation, and its error appears in the recorded text |
| App.Submit | app.py:183-219 | an accepted form processes exactly the validated URLs, one result each, in the executor pass |
| App.SubmitContract | app.py:183-219 | refused for no valid URL, checked first, and then for an invalid theme; the results shown are those of the executor pass; consolidation is attempted exactly when both pass and more than one URL is valid; it processes every URL again, with its own calls, and a kept consolidation needs every URL of that second pass processed |

## Left out

- Character classes are ASCII only. Whitespace is the ASCII subset of
  `str.isspace`, and `\w` and `\s` are the ASCII word and space
  characters. Python's Unicode classes are wider.
- `Urls.Unquote` decodes only `%XX` escapes naming ASCII characters.
  Multi-byte UTF-8 escapes are kept as they are. The ids this matters for
  contain no `%`.
- `Urls.UrlSplit` follows the CPython 3.12 `urlsplit` for the inputs the
  validators produce. It leaves out the NFKC check and the bracketed IPv6
  checks of the network location. Those raise `ValueError` only on
  non-ASCII or bracketed hosts, which never pass the check.
- The names `get_logger` and `DEEPGRAM_CONFIG` are used but never imported
  (src/modules/transcription.py:29 and :52).
  - The first makes creating a `Transcriber` raise.
  - The second makes every window request raise.
  - The model treats both names as defined. `ChunkRun` is the request
    with its options in place.
- Numbers in the metrics are `real`, not Python floats. Rounding is not
  modelled.
- The clock, `strftime`, the directory listing, file writes, `stat` and
  `unlink` are parameters or a map from stem to file.
- A failing `stat` or `unlink` in `cleanup_old_metrics` is not modelled.
- The shared `current_metrics` field of the collector is not modelled. It
  only remembers the last record started.
- The `input_size` and `output_size` values, and the metrics records that
  `process_url`, `transcribe`, `_chunk_transcript` and the analysis calls
  save, are not modelled. They are I/O side effects that do not change any
  returned value.
- `_get_audio_duration` (ffprobe) and src/modules/audio.py are parameters:
  the audio file's existence, its duration, and the `extract_audio` and
  `cleanup` stages.
- The Deepgram and OpenAI clients, `json.loads` of their replies and
  `json.dumps` are scripts or parameters. A timeout of `wait_for` is an
  attempt outcome.
- The OpenAI client is treated as asynchronous, which the source's is not.
  - src/modules/analysis.py:36 builds the synchronous `openai.OpenAI`
    client.
  - Lines 104 and 241 `await` the object its `chat.completions.create`
    returns. With openai 1.x that raises `TypeError` on every attempt.
    Before 1.0, `openai.OpenAI` does not exist, and building the analyzer
    fails. setup.py does not pin the version.
  - So even with the prompt keywords corrected (see Findings), the source
    reaches no model reply. The corrected members describe the analysis
    once both defects are fixed. This second defect is not modelled.
- Analysis.AnalyzeIndividualContract: the tokenizer (`measure`) is
  assumed never to raise. src/modules/analysis.py:59 calls tiktoken's
  `encode` with its default `disallowed_special="all"`, which raises
  `ValueError` on a sentence containing a special-token string such as
  `<|endoftext|>`. `_chunk_transcript` re-raises it (lines 78-81), and
  `analyze_individual` then returns `None` (lines 159-162). The contract's
  "returns a value exactly when every chunk call returns" does not cover
  that case. The same assumption holds for `Analysis.ChunkTranscript`.
- The model script is indexed by prompt and attempt number, so two
  chunks with identical text get identical replies. The source sends them
  as independent requests. No contract relates two chunk calls.
- Analysis.CombineMerges: an object-valued list field contributes its keys
  in code-point order (`Base.SortedKeys`). Python's `extend` takes them in
  insertion order, which for `json.loads` is document order. The model's
  JSON object is a map and keeps no order. The same holds for
  `Analysis.AnalyzeIndividualContract`, which merges through it.
- Metrics.Save: the content of a file left by a failed write is not
  modelled. It is an empty or cut-off document, which the summary skips
  as unparseable.
- The Streamlit UI is not modelled: session state, the result display and
  the thread-pool fan-out of app.py:152-273.
  - `Submit` keeps only the decisions: validation order, per-URL
    processing, and the `len(valid_urls) > 1` rule.
  - `generate_consolidated_analysis` runs `process_url` on every URL a
    second time. `Submit` takes separate collaborators for the two passes,
    and nothing relates them.
  - The `st.experimental_rerun()` inside the result loop is not modelled.
    It would stop the handler after the first result.
  - The lambda inside the executor comprehension is not modelled. It
    binds `url` late.
- `with_timeout` and `to_json` add nothing beyond `wait_for` and
  `json.dumps` and are not modelled.
- src/config.py, src/utils/logging.py and setup.py are configuration
  only. Logging is not modelled.

## Findings

| source | as written | input that shows it | evidently intended | confidence | as-written member | corrected member |
|---|---|---|---|---|---|---|
| src/modules/analysis.py:99-102 | `INDIVIDUAL_PROMPT.format(transcription=chunk, theme=theme)`, while the template's field is `{transcript}` (src/prompts/individual.py:69) | any chunk: `format` raises `KeyError('transcript')`, the call is attempted four times (three retries), and `analyze_individual` returns `None`, so a `process_url` run that gets past transcription ends with "Échec de l'analyse" | pass the chunk under the name the template uses | high, not executed | Analysis.AnalyzeIndividualAsWrittenFails | Analysis.AnalyzeIndividualContract |
| src/modules/analysis.py:236-239 | `CONSOLIDATED_PROMPT.format(analyses=..., theme=theme)`, while the template's field is `{analysis_files}` (src/prompts/consolidated.py:65) | any list of analyses: `format` raises `KeyError('analysis_files')`, the body catches it, and `analyze_consolidated` returns `None` | pass the serialised analyses under the name the template uses | high, not executed | Analysis.AnalyzeConsolidatedAsWrittenReturnsNone | Analysis.ConsolidationPromptCarriesRecords |
| src/modules/transcription.py:138-139 | `range(0, duration, chunk_size)` with `duration` the float from `_get_audio_duration` | a 1200.0-second file: `range` raises `TypeError`, and `transcribe` returns `None` | step over the duration in 600-second windows | high, not executed | Transcription.TranscribeAsWrittenFails | Transcription.TranscribeContract |
