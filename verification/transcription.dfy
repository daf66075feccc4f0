/** The transcriber: cutting the audio into ten-minute windows, transcribing
    them concurrently with retries, merging the Deepgram responses into one
    text, and the clean-up pass `format_transcript`. */
module Transcription {
  import opened Base
  import opened Text
  import Retry

  // ---------------------------------------------------------------------
  // Windows
  // ---------------------------------------------------------------------

  /** `chunk_size`: ten minutes, in seconds. */
  const ChunkSeconds: nat := 600

  /** One `(start, end)` pair handed to `_transcribe_chunk`: the start is a
      multiple of `chunk_size`, the end is capped by the duration. */
  datatype Window = Window(start: nat, end: real)

  function Min(a: real, b: real): real
  {
    if a <= b then a else b
  }

  /** The windows starting at `start`, `start + chunk_size`, ... while the
      start lies before `duration`, each ending `chunk_size` later or at
      `duration`, whichever comes first. */
  function WindowsFrom(start: nat, duration: real): (r: seq<Window>)
    ensures r == [] <==> duration <= start as real
    ensures forall k :: 0 <= k < |r| ==> r[k].start == start + k * ChunkSeconds
    ensures forall k :: 0 <= k < |r| ==> r[k].end == Min((start + k * ChunkSeconds + ChunkSeconds) as real, duration)
    ensures forall k :: 0 <= k < |r| ==> r[k].start as real < r[k].end
    ensures r != [] ==> r[|r| - 1].end == duration
    decreases if duration <= start as real then 0 else (duration - start as real).Floor + 1
  {
    if duration <= start as real then []
    else
      var rest := WindowsFrom(start + ChunkSeconds, duration);
      assert forall k :: 1 <= k < |rest| + 1 ==> rest[k - 1].start == start + k * ChunkSeconds;
      [Window(start, Min((start + ChunkSeconds) as real, duration))] + rest
  }

  /** `[(i, min(i + chunk_size, duration)) for i in range(0, duration, chunk_size)]`,
      with `range` stepping over a real-valued duration. */
  function Windows(duration: real): seq<Window>
  {
    WindowsFrom(0, duration)
  }

  /** The windows tile `[0, duration)`: the first starts at 0, each ends
      where the next starts, the last ends at `duration`, none is empty or
      longer than ten minutes, and there are `ceil(duration / 600)` of them. */
  lemma WindowsPartition(duration: real)
    ensures var ws := Windows(duration);
            (ws == [] <==> duration <= 0.0)
            && (ws != [] ==> ws[0].start == 0 && ws[|ws| - 1].end == duration)
            && (forall k :: 0 <= k < |ws| - 1 ==> ws[k].end == ws[k + 1].start as real)
            && (forall k :: 0 <= k < |ws| ==> ws[k].start as real < ws[k].end <= (ws[k].start + ChunkSeconds) as real)
            && (ws != [] ==> ((|ws| - 1) * ChunkSeconds) as real < duration <= (|ws| * ChunkSeconds) as real)
  {
    var ws := Windows(duration);
    if ws != [] {
      var n := |ws|;
      assert ws[n - 1].start == (n - 1) * ChunkSeconds;
      assert ws[n - 1].end == Min(((n - 1) * ChunkSeconds + ChunkSeconds) as real, duration);
    }
  }

  /** Every instant of the audio falls in exactly one window. */
  lemma WindowsCover(duration: real, t: real)
    requires 0.0 <= t < duration
    ensures var ws := Windows(duration);
            exists k :: 0 <= k < |ws| && ws[k].start as real <= t < ws[k].end
    ensures var ws := Windows(duration);
            forall k, m ::
              (0 <= k < |ws| && 0 <= m < |ws| && ws[k].start as real <= t < ws[k].end
               && ws[m].start as real <= t < ws[m].end) ==> k == m
  {
    var ws := Windows(duration);
    WindowsPartition(duration);
    var k := (t / ChunkSeconds as real).Floor;
    assert k as real <= t / 600.0 < k as real + 1.0;
    assert (k * ChunkSeconds) as real <= t < (k * ChunkSeconds + ChunkSeconds) as real;
    assert k < |ws|;
    assert ws[k].start as real <= t < ws[k].end;
  }

  // ---------------------------------------------------------------------
  // Responses
  // ---------------------------------------------------------------------

  /** The parts of a Deepgram response `_combine_chunks` looks at; each key
      may be absent. */
  datatype Alternative = Alternative(transcript: Option<string>)
  datatype Channel = Channel(alternatives: Option<seq<Alternative>>)
  datatype Results = Results(channels: Option<seq<Channel>>)
  datatype Response = Response(results: Option<Results>)

  /** The transcripts of the alternatives that have one, in order. */
  function AlternativeTexts(alts: seq<Alternative>): (r: seq<string>)
    ensures |r| <= |alts|
    ensures (forall i :: 0 <= i < |alts| ==> alts[i].transcript.Some?) ==>
              r == seq(|alts|, i requires 0 <= i < |alts| => alts[i].transcript.value)
  {
    if alts == [] then []
    else
      (match alts[0].transcript case Some(t) => [t] case None => []) + AlternativeTexts(alts[1..])
  }

  /** The transcripts of every channel's alternatives, channel by channel. */
  function ChannelTexts(channels: seq<Channel>): seq<string>
  {
    if channels == [] then []
    else
      (match channels[0].alternatives case Some(alts) => AlternativeTexts(alts) case None => [])
      + ChannelTexts(channels[1..])
  }

  /** The transcripts one response contributes: none unless it has both
      `results` and `results.channels`. */
  function ResponseTexts(response: Response): seq<string>
  {
    match response.results
    case None => []
    case Some(results) =>
      match results.channels
      case None => []
      case Some(channels) => ChannelTexts(channels)
  }

  /** The transcripts of all responses, response by response. */
  function Transcripts(responses: seq<Response>): seq<string>
  {
    if responses == [] then [] else ResponseTexts(responses[0]) + Transcripts(responses[1..])
  }

  lemma {:induction false} TranscriptsAppend(a: seq<Response>, b: seq<Response>)
    ensures Transcripts(a + b) == Transcripts(a) + Transcripts(b)
  {
    if a == [] {
      assert a + b == b;
    } else {
      assert (a + b)[1..] == a[1..] + b;
      TranscriptsAppend(a[1..], b);
    }
  }

  /** `_combine_chunks`: every transcript found, joined with single blanks. */
  function CombineChunks(responses: seq<Response>): string
  {
    Join(Transcripts(responses), " ")
  }

  /** A plain response: one channel with one alternative holding `text`. */
  function Plain(text: string): Response
  {
    Response(Some(Results(Some([Channel(Some([Alternative(Some(text))]))]))))
  }

  lemma PlainTexts(text: string)
    ensures ResponseTexts(Plain(text)) == [text]
  {
    var alts := [Alternative(Some(text))];
    assert AlternativeTexts(alts) == [text] + AlternativeTexts([]);
    assert ChannelTexts([Channel(Some(alts))]) == [text] + ChannelTexts([]);
  }

  /** Combining two batches of responses joins their texts with one blank,
      and a batch with no transcript changes nothing. */
  lemma CombineChunksAppend(a: seq<Response>, b: seq<Response>)
    ensures Transcripts(a) == [] ==> CombineChunks(a + b) == CombineChunks(b)
    ensures Transcripts(b) == [] ==> CombineChunks(a + b) == CombineChunks(a)
    ensures Transcripts(a) != [] && Transcripts(b) != [] ==>
              CombineChunks(a + b) == CombineChunks(a) + " " + CombineChunks(b)
  {
    TranscriptsAppend(a, b);
    if Transcripts(a) != [] && Transcripts(b) != [] {
      JoinAppend(Transcripts(a), Transcripts(b), " ");
    } else {
      assert Transcripts(a + b) == Transcripts(a) || Transcripts(a + b) == Transcripts(b);
    }
  }

  /** Plain responses combine to their texts joined by single blanks, in
      window order. */
  lemma {:induction false} CombinePlain(texts: seq<string>)
    ensures Transcripts(seq(|texts|, i requires 0 <= i < |texts| => Plain(texts[i]))) == texts
    ensures CombineChunks(seq(|texts|, i requires 0 <= i < |texts| => Plain(texts[i]))) == Join(texts, " ")
  {
    var rs := seq(|texts|, i requires 0 <= i < |texts| => Plain(texts[i]));
    if texts != [] {
      CombinePlain(texts[1..]);
      PlainTexts(texts[0]);
      assert rs[1..] == seq(|texts[1..]|, i requires 0 <= i < |texts[1..]| => Plain(texts[1..][i]));
      assert texts == [texts[0]] + texts[1..];
    }
  }

  // ---------------------------------------------------------------------
  // transcribe
  // ---------------------------------------------------------------------

  /** The Deepgram request for a window: what attempt `k` of the retried
      `_transcribe_chunk` call for that window yields. */
  type Deepgram = Window -> nat -> Retry.Attempt<Option<Response>, string>

  /** The decorator arguments of `_transcribe_chunk`: three retries, a
      one-second first delay doubling each time, no callback; the 300-second
      per-attempt timeout shows up as `TimedOut` attempts. */
  const ChunkPolicy: Retry.Policy := Retry.Policy(3, 1.0, 2.0, false)

  /** The retried transcription of one window. */
  function ChunkRun(deepgram: Deepgram, w: Window): Retry.Run<Option<Response>, string>
  {
    Retry.AsyncRetry(deepgram(w), Retry.AnyException, ChunkPolicy)
  }

  /** `asyncio.gather(*tasks)`: the values of all runs in window order when
      every run returns, `None` when one of them raises. */
  function Gather(runs: seq<Retry.Run<Option<Response>, string>>): (r: Option<seq<Option<Response>>>)
    ensures r.Some? <==> forall i :: 0 <= i < |runs| ==> runs[i].outcome.Returned?
    ensures r.Some? ==> |r.value| == |runs|
                        && forall i :: 0 <= i < |runs| ==> r.value[i] == runs[i].outcome.value
  {
    if runs == [] then Some([])
    else if !runs[0].outcome.Returned? then None
    else
      match Gather(runs[1..])
      case None => None
      case Some(rest) => Some([runs[0].outcome.value] + rest)
  }

  /** `[r for r in results if r is not None]`. */
  function Present(results: seq<Option<Response>>): (r: seq<Response>)
    ensures |r| <= |results|
    ensures r == [] <==> forall i :: 0 <= i < |results| ==> results[i].None?
    ensures forall j :: 0 <= j < |r| ==> Some(r[j]) in results
  {
    if results == [] then []
    else
      var rest := Present(results[1..]);
      assert forall j :: 0 <= j < |rest| ==> Some(rest[j]) in results by {
        assert forall x :: x in results[1..] ==> x in results;
      }
      match results[0]
      case None => rest
      case Some(x) => [x] + rest
  }

  lemma {:induction false} PresentOfSome(results: seq<Option<Response>>)
    requires forall i :: 0 <= i < |results| ==> results[i].Some?
    ensures Present(results) == seq(|results|, i requires 0 <= i < |results| => results[i].value)
  {
    if results != [] {
      PresentOfSome(results[1..]);
    }
  }

  /** What the file system and `ffprobe` report about the audio file:
      whether it exists, and the duration `_get_audio_duration` returns
      (`None` when ffprobe fails, raises or runs past its 60 seconds). */
  datatype Audio = Audio(onDisk: bool, duration: Option<real>)

  /** The window runs for a duration. */
  function WindowRuns(deepgram: Deepgram, duration: real): seq<Retry.Run<Option<Response>, string>>
  {
    var ws := Windows(duration);
    seq(|ws|, i requires 0 <= i < |ws| => ChunkRun(deepgram, ws[i]))
  }

  /** What `transcribe` makes of the window runs: `None` when `gather`
      raises or no response came back, otherwise the combined responses. */
  function Merge(runs: seq<Retry.Run<Option<Response>, string>>): Option<string>
  {
    match Gather(runs)
    case None => None
    case Some(results) =>
      var valid := Present(results);
      if valid == [] then None else Some(CombineChunks(valid))
  }

  /** The values the runs return, in order. */
  function Values(runs: seq<Retry.Run<Option<Response>, string>>): seq<Option<Response>>
    requires forall i :: 0 <= i < |runs| ==> runs[i].outcome.Returned?
  {
    seq(|runs|, i requires 0 <= i < |runs| => runs[i].outcome.value)
  }

  lemma MergeContract(runs: seq<Retry.Run<Option<Response>, string>>)
    ensures Merge(runs).Some? <==>
              (forall i :: 0 <= i < |runs| ==> runs[i].outcome.Returned?)
              && (exists i :: 0 <= i < |runs| && runs[i].outcome.value.Some?)
    ensures Merge(runs).Some? ==> Merge(runs).value == CombineChunks(Present(Values(runs)))
  {
    var g := Gather(runs);
    if g.Some? {
      assert g.value == Values(runs);
      if exists i :: 0 <= i < |runs| && runs[i].outcome.value.Some? {
        var i :| 0 <= i < |runs| && runs[i].outcome.value.Some?;
        assert g.value[i].Some?;
      }
    }
  }

  /** `transcribe`, with the duration stepped over as a real number (the
      corrected form of the `range` call): missing file, missing or zero
      duration, a window whose retries run out, and no response at all each
      give `None`. */
  function Transcribe(audio: Audio, deepgram: Deepgram): Option<string>
  {
    if !audio.onDisk then None
    else
      match audio.duration
      case None => None
      case Some(d) => if d == 0.0 then None else Merge(WindowRuns(deepgram, d))
  }

  /** `transcribe` yields a text exactly when the file exists, has a
      positive duration, every window's retried call returns, and at least
      one returns a response; the text combines those responses in window
      order. */
  lemma TranscribeContract(audio: Audio, deepgram: Deepgram)
    ensures Transcribe(audio, deepgram).Some? <==>
              audio.onDisk && audio.duration.Some? && audio.duration.value > 0.0
              && var runs := WindowRuns(deepgram, audio.duration.value);
                 (forall k :: 0 <= k < |runs| ==> runs[k].outcome.Returned?)
                 && (exists k :: 0 <= k < |runs| && runs[k].outcome.value.Some?)
    ensures Transcribe(audio, deepgram).Some? ==>
              Transcribe(audio, deepgram).value
              == CombineChunks(Present(Values(WindowRuns(deepgram, audio.duration.value))))
  {
    if audio.onDisk && audio.duration.Some? {
      var d := audio.duration.value;
      WindowsPartition(d);
      MergeContract(WindowRuns(deepgram, d));
    }
  }

  /** Run `k` is the retried call for window `k`. */
  lemma WindowRun(deepgram: Deepgram, duration: real, k: nat)
    requires k < |Windows(duration)|
    ensures k < |WindowRuns(deepgram, duration)|
    ensures WindowRuns(deepgram, duration)[k] == ChunkRun(deepgram, Windows(duration)[k])
  {
  }

  /** A window whose four attempts all raise makes the whole transcription
      fail, after three sleeps of 1, 2 and 4 seconds for that window. */
  lemma FailingWindow(audio: Audio, deepgram: Deepgram, k: nat)
    requires audio.duration.Some? && k < |Windows(audio.duration.value)|
    requires forall j :: 0 <= j <= 3 ==> deepgram(Windows(audio.duration.value)[k])(j).Raise?
    ensures Transcribe(audio, deepgram) == None
    ensures ChunkRun(deepgram, Windows(audio.duration.value)[k]).calls == 4
    ensures Retry.Sleeps(ChunkRun(deepgram, Windows(audio.duration.value)[k]).events) == [1.0, 2.0, 4.0]
  {
    var w := Windows(audio.duration.value)[k];
    Retry.AlwaysFailing(deepgram(w), Retry.AnyException, ChunkPolicy);
    Retry.SleepSchedule(deepgram(w), Retry.AnyException, ChunkPolicy);
    WindowRun(deepgram, audio.duration.value, k);
    TranscribeContract(audio, deepgram);
  }

  /** A window recovering within its retries returns its response. */
  lemma RecoveredRun(deepgram: Deepgram, w: Window, attempts: nat, response: Response)
    requires attempts <= 3
    requires forall j :: 0 <= j < attempts ==> deepgram(w)(j).Raise?
    requires deepgram(w)(attempts) == Retry.Ok(Some(response))
    ensures ChunkRun(deepgram, w).outcome == Retry.Returned(Some(response))
  {
    Retry.RecoversAfterFailures(deepgram(w), Retry.AnyException, ChunkPolicy, attempts);
  }

  lemma PresentOfPlain(values: seq<Option<Response>>, texts: seq<string>)
    requires |values| == |texts|
    requires forall i :: 0 <= i < |values| ==> values[i] == Some(Plain(texts[i]))
    ensures Present(values) == seq(|texts|, i requires 0 <= i < |texts| => Plain(texts[i]))
  {
    PresentOfSome(values);
  }

  /** Runs that all return plain responses merge into their texts joined
      by single blanks. */
  lemma MergePlain(runs: seq<Retry.Run<Option<Response>, string>>, texts: seq<string>)
    requires |runs| == |texts| > 0
    requires forall k :: 0 <= k < |runs| ==> runs[k].outcome == Retry.Returned(Some(Plain(texts[k])))
    ensures Merge(runs) == Some(Join(texts, " "))
  {
    var values := Values(runs);
    PresentOfPlain(values, texts);
    CombinePlain(texts);
    MergeContract(runs);
    assert values[0].Some?;
  }

  /** Windows that recover within their retries: when attempt `attempts(w)`
      (at most 3) of each window returns a plain response after earlier
      attempts raised, the transcript is the windows' texts joined in
      window order. */
  lemma RecoveringWindows(audio: Audio, deepgram: Deepgram, attempts: Window -> nat, text: Window -> string)
    requires audio.onDisk && audio.duration.Some? && audio.duration.value > 0.0
    requires forall w :: w in Windows(audio.duration.value) ==>
               attempts(w) <= 3
               && (forall j :: 0 <= j < attempts(w) ==> deepgram(w)(j).Raise?)
               && deepgram(w)(attempts(w)) == Retry.Ok(Some(Plain(text(w))))
    ensures var ws := Windows(audio.duration.value);
            Transcribe(audio, deepgram) == Some(Join(seq(|ws|, i requires 0 <= i < |ws| => text(ws[i])), " "))
  {
    var d := audio.duration.value;
    var ws := Windows(d);
    var runs := WindowRuns(deepgram, d);
    var texts := seq(|ws|, i requires 0 <= i < |ws| => text(ws[i]));
    WindowsPartition(d);
    forall k | 0 <= k < |ws|
      ensures runs[k].outcome == Retry.Returned(Some(Plain(texts[k])))
    {
      var w := ws[k];
      assert w in ws;
      RecoveredRun(deepgram, w, attempts(w), Plain(text(w)));
    }
    MergePlain(runs, texts);
  }

  // ---------------------------------------------------------------------
  // transcribe as written
  // ---------------------------------------------------------------------

  /** A Python number: `_get_audio_duration` returns `float(...)`. */
  datatype Number = Int(i: int) | Float(f: real)

  /** `range(0, stop, chunk_size)`: the window starts, or the `TypeError`
      `range` raises for a `float` bound. */
  function RangeStarts(stop: Number): (r: Result<seq<nat>, string>)
    ensures stop.Float? ==> r == Failure("TypeError")
    ensures stop.Int? ==> r.Success? && |r.value| == |Windows(stop.i as real)|
  {
    match stop
    case Float(_) => Failure("TypeError")
    case Int(n) =>
      var ws := Windows(n as real);
      Success(seq(|ws|, i requires 0 <= i < |ws| => ws[i].start))
  }

  /** `transcribe` as written: the duration reaches `range` as a `float`, so
      the comprehension raises for every non-zero duration and the
      surrounding `except` returns `None`. */
  function TranscribeAsWritten(audio: Audio, deepgram: Deepgram): Option<string>
  {
    if !audio.onDisk then None
    else
      match audio.duration
      case None => None
      case Some(d) =>
        if d == 0.0 then None
        else
          match RangeStarts(Float(d))
          case Failure(_) => None
          case Success(_) => Transcribe(audio, deepgram)
  }

  /** As written, no input yields a transcript. */
  lemma TranscribeAsWrittenFails(audio: Audio, deepgram: Deepgram)
    ensures TranscribeAsWritten(audio, deepgram) == None
  {
  }

  /** A Deepgram that answers "bonjour" for every window at the first attempt. */
  function Bonjour(w: Window): nat -> Retry.Attempt<Option<Response>, string>
  {
    (k: nat) => Retry.Ok(Some(Plain("bonjour")))
  }

  /** The corrected `Transcribe` does yield a transcript where the code as
      written does not: a 20-minute file whose two windows each come back
      with "bonjour". */
  lemma TranscribeTwoWindows()
    ensures TranscribeAsWritten(Audio(true, Some(1200.0)), Bonjour) == None
    ensures Transcribe(Audio(true, Some(1200.0)), Bonjour) == Some("bonjour" + " " + "bonjour")
  {
    var ws := Windows(1200.0);
    WindowsPartition(1200.0);
    assert |ws| == 2;
    var texts := ["bonjour", "bonjour"];
    var runs := WindowRuns(Bonjour, 1200.0);
    forall k | 0 <= k < |runs|
      ensures runs[k].outcome == Retry.Returned(Some(Plain(texts[k])))
    {
      RecoveredRun(Bonjour, ws[k], 0, Plain("bonjour"));
    }
    MergePlain(runs, texts);
    assert Join(texts, " ") == "bonjour" + " " + Join(["bonjour"], " ") by {
      assert texts[1..] == ["bonjour"];
    }
  }

  // ---------------------------------------------------------------------
  // format_transcript
  // ---------------------------------------------------------------------

  /** The punctuation `format_transcript` pulls back onto the previous word,
      in the order of its `replace` calls. */
  const Punctuation: seq<char> := [',', '.', '!', '?']

  /** `text.replace(" " + c, c)` for each punctuation mark in turn. */
  function ReplaceAll(text: string, marks: seq<char>): string
    decreases |marks|
  {
    if marks == [] then text
    else ReplaceAll(Replace(text, [' ', marks[0]], [marks[0]]), marks[1..])
  }

  /** `format_transcript`: strip, collapse whitespace runs to one blank,
      then remove the blank before `,`, `.`, `!` and `?`. */
  function FormatTranscript(transcript: string): string
  {
    ReplaceAll(Join(Words(Strip(transcript)), " "), Punctuation)
  }

  /** The words after the blank before `c` is removed: a word starting with
      `c` is glued to the one before it. */
  function Glue(ws: seq<string>, c: char): (r: seq<string>)
    ensures |ws| > 0 ==> |r| > 0 && |r[0]| >= |ws[0]| && r[0][..|ws[0]|] == ws[0]
  {
    if |ws| <= 1 then ws
    else
      var g := Glue(ws[1..], c);
      if |ws[1]| > 0 && ws[1][0] == c then [ws[0] + g[0]] + g[1..] else [ws[0]] + g
  }

  /** No word after the first starts with `c`. */
  predicate NoneStartsWith(ws: seq<string>, c: char)
    requires AllWords(ws)
  {
    forall i :: 1 <= i < |ws| ==> ws[i][0] != c
  }

  lemma {:induction false} GlueKeepsWords(ws: seq<string>, c: char)
    requires AllWords(ws)
    ensures AllWords(Glue(ws, c))
    ensures NoneStartsWith(Glue(ws, c), c)
    ensures forall d :: NoneStartsWith(ws, d) ==> NoneStartsWith(Glue(ws, c), d)
    ensures Flatten(Glue(ws, c)) == Flatten(ws)
  {
    if |ws| > 1 {
      var g := Glue(ws[1..], c);
      GlueKeepsWords(ws[1..], c);
      assert g[0][0] == ws[1][0];
      var r := Glue(ws, c);
      if ws[1][0] == c {
        assert r[1..] == g[1..];
        assert forall i :: 1 <= i < |r| ==> r[i] == g[i];
        assert Flatten(r) == ws[0] + g[0] + Flatten(g[1..]);
      } else {
        assert r[1..] == g;
        assert forall i :: 1 <= i < |r| ==> r[i] == g[i - 1];
      }
      forall d | NoneStartsWith(ws, d)
        ensures NoneStartsWith(r, d)
      {
        assert NoneStartsWith(ws[1..], d) by {
          assert forall i :: 1 <= i < |ws[1..]| ==> ws[1..][i] == ws[i + 1];
        }
        assert ws[1][0] != d;
      }
    }
  }

  lemma {:induction false} GlueOfNone(ws: seq<string>, c: char)
    requires AllWords(ws) && NoneStartsWith(ws, c)
    ensures Glue(ws, c) == ws
  {
    if |ws| > 1 {
      GlueOfNone(ws[1..], c);
    }
  }

  /** Replacing in a word followed by more text leaves the word alone. */
  lemma {:induction false} ReplaceSkipsWord(w: string, rest: string, c: char)
    requires forall i :: 0 <= i < |w| ==> !IsSpace(w[i])
    ensures Replace(w + rest, [' ', c], [c]) == w + Replace(rest, [' ', c], [c])
    decreases |w|
  {
    if w != [] {
      var s := w + rest;
      assert s[1..] == w[1..] + rest;
      if |s| >= 2 {
        assert s[..2][0] == w[0];
      }
      ReplaceSkipsWord(w[1..], rest, c);
      assert [w[0]] + (w[1..] + Replace(rest, [' ', c], [c])) == w + Replace(rest, [' ', c], [c]);
    } else {
      assert w + rest == rest;
    }
  }

  /** After a blank, the pattern `" " + c` matches exactly when the next
      character is `c`. */
  lemma ReplaceAfterBlank(j: string, c: char)
    requires j != [] && !IsSpace(j[0]) && c != ' '
    ensures Replace(" " + j, [' ', c], [c]) == (if j[0] == c then "" else " ") + Replace(j, [' ', c], [c])
  {
    var p := [' ', c];
    var s := " " + j;
    assert s[1..] == j;
    if |j| >= 2 {
      assert j[..2][0] == j[0];
    }
    if j[0] == c {
      assert s[..2] == p;
      assert Replace(j, p, [c]) == [c] + Replace(j[1..], p, [c]);
    } else {
      assert s[..2][1] == j[0];
    }
  }

  /** One step of the replacement along `" ".join(ws)`: the first word is
      kept, and the blank after it goes exactly when the next word starts
      with `c`. */
  lemma ReplaceJoinStep(ws: seq<string>, c: char)
    requires AllWords(ws) && |ws| >= 2 && c != ' '
    ensures Replace(Join(ws, " "), [' ', c], [c])
            == ws[0] + (if ws[1][0] == c then "" else " ") + Replace(Join(ws[1..], " "), [' ', c], [c])
  {
    assert IsWord(ws[0]) && IsWord(ws[1]);
    JoinHeadSplit(ws, " ");
    ReplaceBlankWord(ws[0], Join(ws[1..], " "), c);
  }

  lemma ReplaceBlankWord(w: string, j: string, c: char)
    requires IsWord(w) && j != [] && !IsSpace(j[0]) && c != ' '
    ensures Replace(w + (" " + j), [' ', c], [c])
            == w + (if j[0] == c then "" else " ") + Replace(j, [' ', c], [c])
  {
    var p := [' ', c];
    var x := Replace(" " + j, p, [c]);
    var rj := Replace(j, p, [c]);
    var sep := if j[0] == c then "" else " ";
    ReplaceSkipsWord(w, " " + j, c);
    ReplaceAfterBlank(j, c);
    assert x == sep + rj;
    assert w + (sep + rj) == w + sep + rj;
  }

  /** The same step on the glued words. */
  lemma GlueJoinStep(ws: seq<string>, c: char)
    requires AllWords(ws) && |ws| >= 2
    ensures Join(Glue(ws, c), " ") == ws[0] + (if ws[1][0] == c then "" else " ") + Join(Glue(ws[1..], c), " ")
  {
    var g := Glue(ws[1..], c);
    if ws[1][0] == c {
      JoinPrependToHead(ws[0], g, " ");
      assert ws[0] + "" == ws[0];
    } else {
      assert ([ws[0]] + g)[1..] == g;
    }
  }

  /** `replace(" " + c, c)` on words joined by blanks glues each word that
      starts with `c` to the one before it. */
  lemma {:induction false} ReplaceOnJoin(ws: seq<string>, c: char)
    requires AllWords(ws) && c != ' '
    ensures Replace(Join(ws, " "), [' ', c], [c]) == Join(Glue(ws, c), " ")
  {
    if |ws| == 0 {
    } else if |ws| == 1 {
      ReplaceSkipsWord(ws[0], "", c);
      assert ws[0] + "" == ws[0];
    } else {
      ReplaceOnJoin(ws[1..], c);
      ReplaceJoinStep(ws, c);
      GlueJoinStep(ws, c);
    }
  }

  /** Glue for each mark in turn. */
  function GlueAll(ws: seq<string>, marks: seq<char>): seq<string>
    decreases |marks|
  {
    if marks == [] then ws else GlueAll(Glue(ws, marks[0]), marks[1..])
  }

  lemma {:induction false} ReplaceAllOnJoin(ws: seq<string>, marks: seq<char>)
    requires AllWords(ws)
    requires forall i :: 0 <= i < |marks| ==> marks[i] != ' '
    ensures ReplaceAll(Join(ws, " "), marks) == Join(GlueAll(ws, marks), " ")
    ensures AllWords(GlueAll(ws, marks))
    ensures forall i :: 0 <= i < |marks| ==> NoneStartsWith(GlueAll(ws, marks), marks[i])
    ensures forall d :: NoneStartsWith(ws, d) ==> NoneStartsWith(GlueAll(ws, marks), d)
    ensures Flatten(GlueAll(ws, marks)) == Flatten(ws)
    decreases |marks|
  {
    if marks != [] {
      ReplaceOnJoin(ws, marks[0]);
      GlueKeepsWords(ws, marks[0]);
      ReplaceAllOnJoin(Glue(ws, marks[0]), marks[1..]);
      assert forall i :: 1 <= i < |marks| ==> marks[i] == marks[1..][i - 1];
    }
  }

  lemma {:induction false} GlueAllOfNone(ws: seq<string>, marks: seq<char>)
    requires AllWords(ws)
    requires forall i :: 0 <= i < |marks| ==> NoneStartsWith(ws, marks[i])
    ensures GlueAll(ws, marks) == ws
    decreases |marks|
  {
    if marks != [] {
      GlueOfNone(ws, marks[0]);
      GlueAllOfNone(ws, marks[1..]);
    }
  }

  /** A formatted text: words joined by single blanks, no word after the
      first starting with `,`, `.`, `!` or `?`. */
  predicate Formatted(ws: seq<string>)
  {
    AllWords(ws) && forall i :: 0 <= i < |Punctuation| ==> NoneStartsWith(ws, Punctuation[i])
  }

  /** The words `format_transcript` lays out: formatted, and holding the
      input's non-whitespace characters in order. */
  lemma FormatTranscriptWords(transcript: string) returns (ws: seq<string>)
    ensures Formatted(ws) && FormatTranscript(transcript) == Join(ws, " ")
    ensures Flatten(ws) == Visible(transcript)
  {
    var stripped := Strip(transcript);
    var words := Words(stripped);
    assert AllWords(words);
    ws := PunctuateWords(words);
    VisibleIsFlattenedWords(stripped);
    VisibleStrip(transcript);
  }

  /** The punctuation pass on words joined by blanks. */
  lemma PunctuateWords(words: seq<string>) returns (ws: seq<string>)
    requires AllWords(words)
    ensures Formatted(ws) && ReplaceAll(Join(words, " "), Punctuation) == Join(ws, " ")
    ensures Flatten(ws) == Flatten(words)
  {
    assert forall i :: 0 <= i < |Punctuation| ==> Punctuation[i] != ' ';
    ReplaceAllOnJoin(words, Punctuation);
    ws := GlueAll(words, Punctuation);
  }

  /** `format_transcript` keeps the non-whitespace characters of its input
      in order and lays them out as words separated by single blanks, with
      no blank before `,`, `.`, `!` or `?` and none at either end. */
  lemma FormatTranscriptContract(transcript: string)
    ensures var r := FormatTranscript(transcript);
            exists ws :: Formatted(ws) && r == Join(ws, " ") && Flatten(ws) == Visible(transcript)
    ensures Visible(FormatTranscript(transcript)) == Visible(transcript)
    ensures IsStripped(FormatTranscript(transcript))
  {
    var ws := FormatTranscriptWords(transcript);
    VisibleOfJoin(ws);
    JoinOfWordsIsStripped(ws);
  }

  /** Text already laid out as `format_transcript` leaves it is left unchanged. */
  lemma FormatOfFormatted(ws: seq<string>)
    requires Formatted(ws)
    ensures FormatTranscript(Join(ws, " ")) == Join(ws, " ")
  {
    var j := Join(ws, " ");
    JoinOfWordsIsStripped(ws);
    StripOfStripped(j);
    WordsOfJoin(ws);
    ReplaceAllOnJoin(ws, Punctuation);
    GlueAllOfNone(ws, Punctuation);
  }

  /** Formatting twice is formatting once. */
  lemma FormatTranscriptIdempotent(transcript: string)
    ensures FormatTranscript(FormatTranscript(transcript)) == FormatTranscript(transcript)
  {
    var ws := FormatTranscriptWords(transcript);
    FormatOfFormatted(ws);
  }

  /** `format_transcript` on whatever value it is handed: a value that is
      not a string (`None`, say) has no `strip`, and the raised exception is
      caught into `None`; a string is formatted. */
  function FormatTranscriptOf(transcript: Option<string>): (r: Option<string>)
    ensures r.Some? <==> transcript.Some?
  {
    match transcript
    case None => None
    case Some(t) => Some(FormatTranscript(t))
  }

  /** The value `format_transcript` returns is stripped, keeps the input's
      non-whitespace characters in order, and is a fixed point: handing it
      back gives the same value. */
  lemma FormatTranscriptOfContract(transcript: Option<string>)
    ensures var r := FormatTranscriptOf(transcript);
            r.Some? ==> IsStripped(r.value) && Visible(r.value) == Visible(transcript.value)
    ensures FormatTranscriptOf(FormatTranscriptOf(transcript)) == FormatTranscriptOf(transcript)
  {
    match transcript
    case None =>
    case Some(t) =>
      var ws := FormatTranscriptWords(t);
      VisibleOfJoin(ws);
      JoinOfWordsIsStripped(ws);
      FormatOfFormatted(ws);
  }
}
