/** The application layer: `process_url`, which takes one URL through
    extraction, transcription and analysis; `generate_consolidated_analysis`,
    which processes every URL and consolidates only when all succeeded; and
    the rule of the form handler that consolidates only for more than one
    valid URL. The audio extractor, the transcriber, the analyzer and the
    consolidator are parameters: each call gives back a value or the text
    of the exception it raised. */
module App {
  import opened Base
  import opened Text
  import Validators
  import Analysis

  // ---------------------------------------------------------------------
  // Stage calls
  // ---------------------------------------------------------------------

  /** One awaited call: the value it returned, or `str(e)` of the
      exception it raised. */
  datatype Call<+T> = Gave(value: T) | Threw(message: string)

  /** The `(audio_path, error)` pair `extract_audio` returns. */
  datatype Extracted = Extracted(path: Option<string>, error: Option<string>)

  /** The collaborators of `process_url`: `extract_audio(url)`,
      `transcribe(audio_path)`, `analyze_individual(transcript, theme)` and
      `cleanup(audio_path)`. */
  datatype Stages = Stages(
    extract: string -> Call<Extracted>,
    transcribe: Option<string> -> Call<Option<string>>,
    analyze: (string, string) -> Call<Option<Json>>,
    cleanup: Option<string> -> Call<()>)

  /** The stages of `process_url`, in the order it awaits them. */
  datatype Stage = Extract | Transcribe | Analyze | Cleanup

  const StageOrder: seq<Stage> := [Extract, Transcribe, Analyze, Cleanup]

  /** The dictionary `process_url` returns: `{"error": ...}` or
      `{"transcript": ..., "analysis": ...}`. */
  datatype UrlResult = Failed(error: string) | Processed(transcript: string, analysis: Json)

  /** The arguments of the final `metrics.complete(...)`. */
  datatype Completion = Completion(success: bool, error: Option<string>)

  /** One run of `process_url`: its result, the stages it called in order,
      and how it completed its metrics record. */
  datatype UrlRun = UrlRun(result: UrlResult, calls: seq<Stage>, completion: Completion)

  const TranscriptionFailed: string := "Échec de la transcription"
  const AnalysisFailed: string := "Échec de l'analyse"

  /** Python truthiness of an optional string (`if error:`). */
  predicate Present(s: Option<string>)
  {
    s.Some? && s.value != ""
  }

  /** Python truthiness of an optional analysis dictionary. */
  predicate Meaningful(a: Option<Json>)
  {
    a.Some? && a.value.Truthy()
  }

  /** The extraction passed: it returned, without a (non-empty) error. */
  predicate ExtractOk(c: Call<Extracted>)
  {
    c.Gave? && !Present(c.value.error)
  }

  /** The transcription passed: it returned a non-empty text. */
  predicate TranscriptOk(c: Call<Option<string>>)
  {
    c.Gave? && Present(c.value)
  }

  /** The analysis passed: it returned a non-empty dictionary. */
  predicate AnalysisOk(c: Call<Option<Json>>)
  {
    c.Gave? && Meaningful(c.value)
  }

  /** A run that ends with `{"error": e}` after calling `calls`. */
  function Fail(e: string, calls: seq<Stage>): UrlRun
  {
    UrlRun(Failed(e), calls, Completion(false, Some(e)))
  }

  // ---------------------------------------------------------------------
  // process_url
  // ---------------------------------------------------------------------

  /** `process_url(url, theme)`. An exception anywhere in the body is
      caught and reported as its text. */
  function ProcessUrl(url: string, theme: string, st: Stages): (r: UrlRun)
    ensures r.completion.success <==> r.result.Processed?
    ensures r.result.Failed? ==> r.completion.error == Some(r.result.error)
    ensures r.result.Processed? ==> r.completion.error == None
    ensures 1 <= |r.calls| <= |StageOrder| && r.calls == StageOrder[..|r.calls|]
  {
    match st.extract(url)
    case Threw(e) => Fail(e, [Extract])
    case Gave(x) =>
      if Present(x.error) then Fail(x.error.value, [Extract])
      else
        match st.transcribe(x.path)
        case Threw(e) => Fail(e, [Extract, Transcribe])
        case Gave(t) =>
          if !Present(t) then Fail(TranscriptionFailed, [Extract, Transcribe])
          else
            match st.analyze(t.value, theme)
            case Threw(e) => Fail(e, [Extract, Transcribe, Analyze])
            case Gave(a) =>
              if !Meaningful(a) then Fail(AnalysisFailed, [Extract, Transcribe, Analyze])
              else
                match st.cleanup(x.path)
                case Threw(e) => Fail(e, StageOrder)
                case Gave(_) => UrlRun(Processed(t.value, a.value), StageOrder, Completion(true, None))
  }

  /** A later stage is called only when every earlier one passed: the
      transcriber only after a clean extraction, the analyzer only after a
      non-empty transcript, the clean-up only after a non-empty analysis. */
  lemma ProcessUrlShortCircuits(url: string, theme: string, st: Stages)
    ensures var r := ProcessUrl(url, theme, st);
            var x := st.extract(url);
            (Transcribe in r.calls <==> ExtractOk(x))
            && (Analyze in r.calls <==> ExtractOk(x) && TranscriptOk(st.transcribe(x.value.path)))
            && (Cleanup in r.calls <==>
                  ExtractOk(x) && TranscriptOk(st.transcribe(x.value.path))
                  && AnalysisOk(st.analyze(st.transcribe(x.value.path).value.value, theme)))
  {
  }

  /** `process_url` succeeds exactly when every stage passes and the
      clean-up returns; its result then holds the transcript and the
      analysis those stages produced. */
  lemma ProcessUrlSucceedsIff(url: string, theme: string, st: Stages)
    ensures var r := ProcessUrl(url, theme, st);
            var x := st.extract(url);
            r.result.Processed? <==>
              ExtractOk(x) && TranscriptOk(st.transcribe(x.value.path))
              && AnalysisOk(st.analyze(st.transcribe(x.value.path).value.value, theme))
              && st.cleanup(x.value.path).Gave?
    ensures var r := ProcessUrl(url, theme, st);
            var x := st.extract(url);
            r.result.Processed? ==>
              var t := st.transcribe(x.value.path).value.value;
              r.result == Processed(t, st.analyze(t, theme).value.value)
  {
  }

  /** The error a failed run reports names the stage that stopped it: the
      extractor's own text or exception, the fixed transcription or
      analysis message for an empty result, or the text of the exception a
      later stage raised. */
  lemma ProcessUrlErrors(url: string, theme: string, st: Stages)
    ensures var r := ProcessUrl(url, theme, st);
            var x := st.extract(url);
            && (x.Threw? ==> r.result == Failed(x.message))
            && (x.Gave? && Present(x.value.error) ==> r.result == Failed(x.value.error.value))
            && (ExtractOk(x) ==>
                  var t := st.transcribe(x.value.path);
                  && (t.Threw? ==> r.result == Failed(t.message))
                  && (t.Gave? && !Present(t.value) ==> r.result == Failed(TranscriptionFailed))
                  && (TranscriptOk(t) ==>
                        var a := st.analyze(t.value.value, theme);
                        && (a.Threw? ==> r.result == Failed(a.message))
                        && (a.Gave? && !Meaningful(a.value) ==> r.result == Failed(AnalysisFailed))))
  {
  }

  /** `process_url` depends on nothing but the stage calls it makes: two
      sets of collaborators that agree on those calls give the same run. */
  lemma ProcessUrlReadsOnlyItsCalls(url: string, theme: string, st: Stages, su: Stages)
    requires st.extract(url) == su.extract(url)
    requires var x := st.extract(url);
             x.Gave? ==> st.transcribe(x.value.path) == su.transcribe(x.value.path)
                         && st.cleanup(x.value.path) == su.cleanup(x.value.path)
    requires var x := st.extract(url);
             x.Gave? && st.transcribe(x.value.path).Gave? && st.transcribe(x.value.path).value.Some? ==>
               var t := st.transcribe(x.value.path).value.value;
               st.analyze(t, theme) == su.analyze(t, theme)
    ensures ProcessUrl(url, theme, st) == ProcessUrl(url, theme, su)
  {
  }

  /** `analyze_individual` as written, as a stage: it never raises, and
      returns `None` when a chunk call or the merge fails. */
  function AnalyzerAsWritten(text: Analysis.PromptText, model: Analysis.Model, measure: string -> nat)
    : (string, string) -> Call<Option<Json>>
  {
    (t, th) => Gave(Analysis.AnalyzeIndividualWith(t, measure, Analysis.ChunkCallsAsWritten(text, model, th)))
  }

  /** With the analyzer as written, whose prompt never formats, no URL is
      ever processed: a run that gets past transcription always ends with
      the analysis failure, and the clean-up is never called. */
  lemma ProcessUrlWithAnalyzerAsWritten(url: string, theme: string, st: Stages, text: Analysis.PromptText,
                                        model: Analysis.Model, measure: string -> nat)
    requires st.analyze == AnalyzerAsWritten(text, model, measure)
    ensures var r := ProcessUrl(url, theme, st);
            r.result.Failed? && Cleanup !in r.calls
    ensures var r := ProcessUrl(url, theme, st);
            Analyze in r.calls ==> r.result == Failed(AnalysisFailed)
  {
    var x := st.extract(url);
    if ExtractOk(x) && TranscriptOk(st.transcribe(x.value.path)) {
      AnalyzerAsWrittenGivesNone(text, model, measure, st.transcribe(x.value.path).value.value, theme);
    }
  }

  lemma AnalyzerAsWrittenGivesNone(text: Analysis.PromptText, model: Analysis.Model, measure: string -> nat,
                                   t: string, theme: string)
    ensures AnalyzerAsWritten(text, model, measure)(t, theme) == Gave(None)
  {
    Analysis.AnalyzeIndividualAsWrittenFails(text, model, t, theme, measure);
  }

  // ---------------------------------------------------------------------
  // generate_consolidated_analysis
  // ---------------------------------------------------------------------

  /** The results of the gathered `process_url` calls, in URL order. */
  function ProcessAll(urls: seq<string>, theme: string, st: Stages): (r: seq<UrlResult>)
    ensures |r| == |urls|
  {
    seq(|urls|, i requires 0 <= i < |urls| => ProcessUrl(urls[i], theme, st).result)
  }

  /** `[r["error"] for r in results if "error" in r]`. */
  function Errors(results: seq<UrlResult>): seq<string>
  {
    if results == [] then []
    else (if results[0].Failed? then [results[0].error] else []) + Errors(results[1..])
  }

  /** `[r["analysis"] for r in results]`, for results that all succeeded. */
  function Analyses(results: seq<UrlResult>): (r: seq<Json>)
    requires forall i :: 0 <= i < |results| ==> results[i].Processed?
    ensures |r| == |results|
  {
    seq(|results|, i requires 0 <= i < |results| => results[i].analysis)
  }

  /** One run of `generate_consolidated_analysis`: the per-URL results, the
      analyses handed to the consolidator (if it was called), the value
      returned and the metrics completion. */
  datatype Consolidation = Consolidation(
    results: seq<UrlResult>,
    request: Option<seq<Json>>,
    value: Option<Json>,
    completion: Completion)

  /** `generate_consolidated_analysis(urls, theme)`, with
      `analyze_consolidated(analyses, theme)` given by `consolidate`. */
  function GenerateConsolidated(urls: seq<string>, theme: string, st: Stages,
                                consolidate: (seq<Json>, string) -> Call<Option<Json>>): (r: Consolidation)
    ensures r.results == ProcessAll(urls, theme, st)
    ensures r.request.Some? <==> forall i :: 0 <= i < |urls| ==> r.results[i].Processed?
    ensures r.request.None? ==> r.value == None
    ensures r.completion.success ==> r.request.Some?
  {
    var results := ProcessAll(urls, theme, st);
    var errors := Errors(results);
    ErrorsEmptyIff(results);
    if errors != [] then Consolidation(results, None, None, Completion(false, Some(Join(errors, "\n"))))
    else
      var analyses := Analyses(results);
      match consolidate(analyses, theme)
      case Threw(e) => Consolidation(results, Some(analyses), None, Completion(false, Some(e)))
      case Gave(v) => Consolidation(results, Some(analyses), v, Completion(true, None))
  }

  /** No error is collected exactly when every result succeeded. */
  lemma {:induction false} ErrorsEmptyIff(results: seq<UrlResult>)
    ensures Errors(results) == [] <==> forall i :: 0 <= i < |results| ==> results[i].Processed?
    decreases |results|
  {
    if results != [] {
      ErrorsEmptyIff(results[1..]);
      assert forall i :: 1 <= i < |results| ==> results[i] == results[1..][i - 1];
    }
  }

  /** The errors of a concatenation of results are the errors of each part,
      in order. */
  lemma {:induction false} ErrorsAppend(a: seq<UrlResult>, b: seq<UrlResult>)
    ensures Errors(a + b) == Errors(a) + Errors(b)
    decreases |a|
  {
    if a == [] {
      assert a + b == b;
    } else {
      var head := if a[0].Failed? then [a[0].error] else [];
      assert (a + b)[0] == a[0];
      assert (a + b)[1..] == a[1..] + b;
      ErrorsAppend(a[1..], b);
      assert Errors(a + b) == head + Errors(a[1..] + b);
      assert Errors(a) == head + Errors(a[1..]);
    }
  }

  /** Every collected error is the error of some result, and every failed
      result contributes its error: the list is exactly the failed
      results' errors in order. */
  lemma {:induction false} ErrorsAreTheFailures(results: seq<UrlResult>)
    ensures forall e :: e in Errors(results) <==> exists i :: 0 <= i < |results| && results[i] == Failed(e)
    ensures |Errors(results)| <= |results|
    decreases |results|
  {
    if results != [] {
      ErrorsAreTheFailures(results[1..]);
      assert forall i :: 1 <= i < |results| ==> results[i] == results[1..][i - 1];
      forall e | exists i :: 0 <= i < |results| && results[i] == Failed(e)
        ensures e in Errors(results)
      {
        var i :| 0 <= i < |results| && results[i] == Failed(e);
        if i > 0 {
          assert results[1..][i - 1] == Failed(e);
        }
      }
    }
  }

  /** The consolidator is called once, with the analyses of all URLs in URL
      order, exactly when every URL was processed; otherwise the run
      returns `None` and records the errors joined by newlines, in URL
      order. */
  lemma GenerateConsolidatedContract(urls: seq<string>, theme: string, st: Stages,
                                     consolidate: (seq<Json>, string) -> Call<Option<Json>>)
    ensures var r := GenerateConsolidated(urls, theme, st, consolidate);
            r.request.Some? ==>
              |r.request.value| == |urls|
              && forall i :: 0 <= i < |urls| ==>
                   ProcessUrl(urls[i], theme, st).result.Processed?
                   && ProcessUrl(urls[i], theme, st).result.analysis == r.request.value[i]
    ensures var r := GenerateConsolidated(urls, theme, st, consolidate);
            r.request.None? ==>
              r.value == None
              && r.completion == Completion(false, Some(Join(Errors(ProcessAll(urls, theme, st)), "\n")))
              && Errors(ProcessAll(urls, theme, st)) != []
    ensures var r := GenerateConsolidated(urls, theme, st, consolidate);
            r.request.Some? ==>
              (r.completion.success <==> consolidate(r.request.value, theme).Gave?)
              && (consolidate(r.request.value, theme).Gave? ==> r.value == consolidate(r.request.value, theme).value)
              && (consolidate(r.request.value, theme).Threw? ==> r.value == None)
  {
    var results := ProcessAll(urls, theme, st);
    ErrorsEmptyIff(results);
    if Errors(results) == [] {
      assert forall i :: 0 <= i < |urls| ==> results[i] == ProcessUrl(urls[i], theme, st).result;
      assert forall i :: 0 <= i < |urls| ==> Analyses(results)[i] == results[i].analysis;
    }
  }

  /** A single failing URL is enough to stop the consolidation, whatever
      the other URLs give and wherever it stands in the list. */
  lemma OneFailureStopsConsolidation(urls: seq<string>, theme: string, st: Stages,
                                     consolidate: (seq<Json>, string) -> Call<Option<Json>>, k: nat)
    requires k < |urls| && ProcessUrl(urls[k], theme, st).result.Failed?
    ensures GenerateConsolidated(urls, theme, st, consolidate).value == None
    ensures GenerateConsolidated(urls, theme, st, consolidate).request == None
    ensures var c := GenerateConsolidated(urls, theme, st, consolidate).completion;
            c.error.Some? && InText(ProcessUrl(urls[k], theme, st).result.error, c.error.value)
  {
    var results := ProcessAll(urls, theme, st);
    ErrorsAreTheFailures(results);
    var errors := Errors(results);
    var e := results[k].error;
    assert e in errors;
    ErrorOfJoin(errors, e);
  }

  /** `part in text`, for strings. */
  predicate InText(part: string, text: string)
  {
    exists i | 0 <= i <= |text| :: StartsWith(Suffix(text, i), part)
  }

  /** `text[i:]`. */
  function Suffix(text: string, i: nat): string
    requires i <= |text|
  {
    text[i..]
  }

  /** Each piece of a join appears in it. */
  lemma {:induction false} ErrorOfJoin(errors: seq<string>, e: string)
    requires e in errors
    ensures InText(e, Join(errors, "\n"))
    decreases |errors|
  {
    var j := Join(errors, "\n");
    if errors[0] == e {
      JoinStartsWithHead(errors, "\n");
      assert Suffix(j, 0) == j;
    } else {
      assert e in errors[1..];
      ErrorOfJoin(errors[1..], e);
      var rest := Join(errors[1..], "\n");
      var i :| 0 <= i <= |rest| && StartsWith(Suffix(rest, i), e);
      var off := |errors[0]| + 1;
      assert j == (errors[0] + "\n") + rest;
      assert Suffix(j, off + i) == Suffix(rest, i);
    }
  }
  // ---------------------------------------------------------------------
  // The form handler
  // ---------------------------------------------------------------------

  const NoValidUrl: string := "Veuillez entrer au moins une URL YouTube valide."
  const InvalidTheme: string := "Veuillez entrer un thème valide (3-50 caractères)."

  /** What a submission of the form leads to: an error message, or the
      per-URL results in URL order and, when it was attempted, the
      consolidated analysis that was kept. */
  datatype Submission =
    | Rejected(message: string)
    | Accepted(urls: seq<string>, results: seq<UrlResult>, consolidation: Option<Consolidation>, kept: Option<Json>)

  /** The submitted form: validate the URL list, then the theme, process
      each valid URL, and consolidate when there is more than one; a
      consolidated value is kept only when it is truthy. The executor pass
      runs with the collaborators `first`; `generate_consolidated_analysis`
      processes every URL again, with fresh calls, here `again`. */
  function Submit(urlText: string, theme: string, first: Stages, again: Stages,
                  consolidate: (seq<Json>, string) -> Call<Option<Json>>): (r: Submission)
    ensures r.Accepted? ==> r.urls == Validators.ValidateUrls(urlText) && |r.results| == |r.urls|
  {
    var urls := Validators.ValidateUrls(urlText);
    if urls == [] then Rejected(NoValidUrl)
    else if !Validators.ValidateTheme(theme) then Rejected(InvalidTheme)
    else
      var results := ProcessAll(urls, theme, first);
      if |urls| > 1 then
        var g := GenerateConsolidated(urls, theme, again, consolidate);
        Accepted(urls, results, Some(g), if Meaningful(g.value) then g.value else None)
      else Accepted(urls, results, None, None)
  }

  /** The form is refused, URL list first, exactly when no URL is valid or
      the theme is invalid; the results shown are those of the executor
      pass; a consolidation is attempted exactly when both checks pass and
      more than one URL is valid, and a kept value needs every URL of the
      second pass processed. */
  lemma SubmitContract(urlText: string, theme: string, first: Stages, again: Stages,
                       consolidate: (seq<Json>, string) -> Call<Option<Json>>)
    ensures var r := Submit(urlText, theme, first, again, consolidate);
            var urls := Validators.ValidateUrls(urlText);
            && (r == Rejected(NoValidUrl) <==> urls == [])
            && (r == Rejected(InvalidTheme) <==> urls != [] && !Validators.ValidateTheme(theme))
            && (r.Accepted? && r.consolidation.Some? <==>
                  |urls| > 1 && Validators.ValidateTheme(theme))
    ensures var r := Submit(urlText, theme, first, again, consolidate);
            r.Accepted? ==>
              forall i :: 0 <= i < |r.urls| ==> r.results[i] == ProcessUrl(r.urls[i], theme, first).result
    ensures var r := Submit(urlText, theme, first, again, consolidate);
            r.Accepted? && r.consolidation.Some? ==>
              r.consolidation.value.results == ProcessAll(r.urls, theme, again)
    ensures var r := Submit(urlText, theme, first, again, consolidate);
            r.Accepted? && r.kept.Some? ==>
              |r.urls| > 1 && forall i :: 0 <= i < |r.urls| ==> ProcessUrl(r.urls[i], theme, again).result.Processed?
  {
    var urls := Validators.ValidateUrls(urlText);
    var r := Submit(urlText, theme, first, again, consolidate);
    if urls != [] && Validators.ValidateTheme(theme) {
      var results := ProcessAll(urls, theme, first);
      if |urls| > 1 {
        var g := GenerateConsolidated(urls, theme, again, consolidate);
        assert r == Accepted(urls, results, Some(g), if Meaningful(g.value) then g.value else None);
        if r.kept.Some? {
          assert g.request.Some?;
          forall i | 0 <= i < |urls|
            ensures ProcessUrl(urls[i], theme, again).result.Processed?
          {
            assert g.results[i] == ProcessUrl(urls[i], theme, again).result;
          }
        }
      } else {
        assert r == Accepted(urls, results, None, None);
      }
    }
  }
}
