/** The prompt templates and Python's `str.format` on them.

    A template is a run of literal text and named replacement fields. Only
    the fields and the text around them matter here: the instruction text of
    each template is a parameter. */
module Prompts {
  import opened Base

  datatype Piece = Lit(text: string) | Field(name: string)

  type Template = seq<Piece>

  /** The names of the replacement fields of `t`, in order. */
  function Fields(t: Template): seq<string>
  {
    if t == [] then [] else (if t[0].Field? then [t[0].name] else []) + Fields(t[1..])
  }

  /** `template.format(**args)`: each field is replaced by its keyword
      argument; the first field without one raises `KeyError(name)`.
      Keyword arguments that no field names are ignored. */
  function Format(t: Template, args: map<string, string>): (r: Result<string, string>)
    ensures r.Failure? ==> r.error in Fields(t) && r.error !in args
  {
    if t == [] then Success("")
    else
      match t[0]
      case Lit(s) =>
        var rest := Format(t[1..], args);
        if rest.Success? then Success(s + rest.value) else rest
      case Field(name) =>
        if name !in args then Failure(name)
        else
          var rest := Format(t[1..], args);
          if rest.Success? then Success(args[name] + rest.value) else rest
  }

  /** `str.format` succeeds exactly when every field has a keyword argument. */
  lemma {:induction false} FormatSucceedsIff(t: Template, args: map<string, string>)
    ensures Format(t, args).Success? <==> forall i :: 0 <= i < |Fields(t)| ==> Fields(t)[i] in args
  {
    if t != [] {
      FormatSucceedsIff(t[1..], args);
      if t[0].Field? {
        assert Fields(t) == [t[0].name] + Fields(t[1..]);
        if t[0].name in args && Format(t, args).Failure? {
          var i :| 0 <= i < |Fields(t[1..])| && Fields(t[1..])[i] !in args;
          assert Fields(t)[i + 1] == Fields(t[1..])[i];
        }
      } else {
        assert Fields(t) == Fields(t[1..]);
      }
    }
  }

  /** Only the arguments that a field names matter. */
  lemma {:induction false} FormatIgnoresExtraArguments(t: Template, args: map<string, string>, extra: map<string, string>)
    requires forall i :: 0 <= i < |Fields(t)| ==> Fields(t)[i] in args
    requires forall k :: k in extra && k in args ==> extra[k] == args[k]
    ensures Format(t, args + extra) == Format(t, args)
  {
    if t != [] {
      if t[0].Field? {
        assert Fields(t) == [t[0].name] + Fields(t[1..]);
        assert Fields(t)[0] in args;
        forall i | 0 <= i < |Fields(t[1..])|
          ensures Fields(t[1..])[i] in args
        {
          assert Fields(t)[i + 1] == Fields(t[1..])[i];
        }
      } else {
        assert Fields(t) == Fields(t[1..]);
      }
      FormatIgnoresExtraArguments(t[1..], args, extra);
    }
  }

  /** The separator between the transcript field and the theme field in
      the individual template, and between the analyses and the theme in
      the consolidated one. */
  const ThemeLine: string := "\n\nThème principal : "

  /** The individual hearing template: `{transcript}` then `{theme}`. */
  function IndividualPrompt(head: string, tail: string): Template
  {
    [Lit(head), Field("transcript"), Lit(ThemeLine), Field("theme"), Lit(tail)]
  }

  /** The consolidated template: `{analysis_files}` then `{theme}`. */
  function ConsolidatedPrompt(head: string, tail: string): Template
  {
    [Lit(head), Field("analysis_files"), Lit(ThemeLine), Field("theme"), Lit(tail)]
  }

  /** The call in `_analyze_chunk` passes the chunk as `transcription=`. */
  function ChunkArgumentsAsWritten(chunk: string, theme: string): map<string, string>
  {
    map["transcription" := chunk, "theme" := theme]
  }

  /** The call in `analyze_consolidated` passes the analyses as `analyses=`. */
  function ConsolidatedArgumentsAsWritten(analyses: string, theme: string): map<string, string>
  {
    map["analyses" := analyses, "theme" := theme]
  }

  /** As written, formatting the individual prompt raises
      `KeyError('transcript')` whatever the chunk and theme. */
  lemma IndividualPromptAsWrittenRaises(head: string, tail: string, chunk: string, theme: string)
    ensures Format(IndividualPrompt(head, tail), ChunkArgumentsAsWritten(chunk, theme)) == Failure("transcript")
  {
    assert "transcript" !in ChunkArgumentsAsWritten(chunk, theme);
  }

  /** As written, formatting the consolidated prompt raises
      `KeyError('analysis_files')` whatever the analyses and theme. */
  lemma ConsolidatedPromptAsWrittenRaises(head: string, tail: string, analyses: string, theme: string)
    ensures Format(ConsolidatedPrompt(head, tail), ConsolidatedArgumentsAsWritten(analyses, theme)) == Failure("analysis_files")
  {
    assert "analysis_files" !in ConsolidatedArgumentsAsWritten(analyses, theme);
  }

  /** Formatting `[Lit(head), Field(x), Lit(sep), Field(y), Lit(tail)]` when
      both fields have arguments puts each argument verbatim in its place. */
  lemma FormatTwoFields(head: string, x: string, sep: string, y: string, tail: string, args: map<string, string>)
    requires x in args && y in args
    ensures Format([Lit(head), Field(x), Lit(sep), Field(y), Lit(tail)], args)
            == Success(head + args[x] + sep + args[y] + tail)
  {
    var t4: Template := [Lit(tail)];
    var t3: Template := [Field(y)] + t4;
    var t2: Template := [Lit(sep)] + t3;
    var t1: Template := [Field(x)] + t2;
    var t0: Template := [Lit(head)] + t1;
    assert t4[1..] == [] && t3[1..] == t4 && t2[1..] == t3 && t1[1..] == t2 && t0[1..] == t1;
    assert Format(t4, args) == Success(tail + "");
    assert tail + "" == tail;
    assert Format(t3, args) == Success(args[y] + tail);
    assert sep + (args[y] + tail) == sep + args[y] + tail;
    assert Format(t2, args) == Success(sep + args[y] + tail);
    assert args[x] + (sep + args[y] + tail) == args[x] + sep + args[y] + tail;
    assert Format(t1, args) == Success(args[x] + sep + args[y] + tail);
    assert head + (args[x] + sep + args[y] + tail) == head + args[x] + sep + args[y] + tail;
    assert t0 == [Lit(head), Field(x), Lit(sep), Field(y), Lit(tail)];
  }

  /** With the keyword the template names, the individual prompt holds the
      chunk and the theme verbatim. */
  lemma IndividualPromptCorrected(head: string, tail: string, chunk: string, theme: string)
    ensures Format(IndividualPrompt(head, tail), ChunkArguments(chunk, theme))
            == Success(head + chunk + ThemeLine + theme + tail)
  {
    FormatTwoFields(head, "transcript", ThemeLine, "theme", tail, ChunkArguments(chunk, theme));
  }

  /** With the keyword the template names, the consolidated prompt holds
      the serialised analyses and the theme verbatim. */
  lemma ConsolidatedPromptCorrected(head: string, tail: string, analyses: string, theme: string)
    ensures Format(ConsolidatedPrompt(head, tail), ConsolidatedArguments(analyses, theme))
            == Success(head + analyses + ThemeLine + theme + tail)
  {
    FormatTwoFields(head, "analysis_files", ThemeLine, "theme", tail, ConsolidatedArguments(analyses, theme));
  }

  /** The keyword arguments the individual template names. */
  function ChunkArguments(chunk: string, theme: string): map<string, string>
  {
    map["transcript" := chunk, "theme" := theme]
  }

  /** The keyword arguments the consolidated template names. */
  function ConsolidatedArguments(analyses: string, theme: string): map<string, string>
  {
    map["analysis_files" := analyses, "theme" := theme]
  }
}
