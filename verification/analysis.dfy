/** The analysis stage: greedy sentence chunking of a transcript under a
    token budget, the fixed-schema merge of per-chunk analyses, the
    sequential per-chunk analysis of one hearing, and the consolidated
    analysis of several.

    The tokenizer is an abstract `measure` from a sentence to its token
    count, and the language model is a script of attempt outcomes per
    prompt. */
module Analysis {
  import opened Base
  import opened Text
  import Retry
  import Prompts

  /** Sentences are what `transcript.split('. ')` returns. */
  const SentenceSeparator: string := ". "

  /** The default `max_tokens` of `_chunk_transcript`. */
  const DefaultMaxTokens: int := 4000

  function Sentences(transcript: string): (r: seq<string>)
    ensures |r| >= 1
    ensures Join(r, SentenceSeparator) == transcript
  {
    Split(transcript, SentenceSeparator)
  }

  /** The summed token count of a group of sentences. */
  function Tokens(measure: string -> nat, group: seq<string>): nat
  {
    if group == [] then 0 else measure(group[0]) + Tokens(measure, group[1..])
  }

  lemma {:induction false} TokensAppend(measure: string -> nat, group: seq<string>, s: string)
    ensures Tokens(measure, group + [s]) == Tokens(measure, group) + measure(s)
  {
    if group == [] {
      assert [] + [s] == [s];
      assert [s][1..] == [];
    } else {
      assert (group + [s])[1..] == group[1..] + [s];
      TokensAppend(measure, group[1..], s);
    }
  }

  /** The loop of `_chunk_transcript` from sentence `ss[0]` on, with
      `current` the open chunk and `tokens` its running count: a sentence
      closes the open chunk when it would push the count past `maxTokens`
      and the open chunk is not empty; it is then appended either way. */
  function Greedy(measure: string -> nat, maxTokens: int, ss: seq<string>, current: seq<string>, tokens: int)
    : seq<seq<string>>
    decreases |ss|
  {
    if ss == [] then (if current == [] then [] else [current])
    else
      var t := measure(ss[0]);
      if tokens + t > maxTokens && current != [] then
        [current] + Greedy(measure, maxTokens, ss[1..], [ss[0]], t)
      else
        Greedy(measure, maxTokens, ss[1..], current + [ss[0]], tokens + t)
  }

  /** The sentence groups that become chunks. */
  function Groups(measure: string -> nat, maxTokens: int, sentences: seq<string>): seq<seq<string>>
  {
    Greedy(measure, maxTokens, sentences, [], 0)
  }

  /** One chunk: its sentences joined by `'. '`, then a closing `'.'`. */
  function ChunkText(group: seq<string>): string
  {
    Join(group, SentenceSeparator) + "."
  }

  function ChunkTexts(groups: seq<seq<string>>): (r: seq<string>)
    ensures |r| == |groups|
  {
    seq(|groups|, i requires 0 <= i < |groups| => ChunkText(groups[i]))
  }

  /** `_chunk_transcript(transcript, max_tokens)`. */
  function ChunkTranscript(transcript: string, measure: string -> nat, maxTokens: int): seq<string>
  {
    ChunkTexts(Groups(measure, maxTokens, Sentences(transcript)))
  }

  /** The groups laid end to end. */
  function Concat(groups: seq<seq<string>>): seq<string>
  {
    if groups == [] then [] else groups[0] + Concat(groups[1..])
  }

  lemma {:induction false} ConcatAppend(a: seq<seq<string>>, b: seq<seq<string>>)
    ensures Concat(a + b) == Concat(a) + Concat(b)
  {
    if a == [] {
      assert a + b == b;
    } else {
      assert (a + b)[1..] == a[1..] + b;
      ConcatAppend(a[1..], b);
    }
  }

  lemma {:induction false} GreedyConcat(measure: string -> nat, maxTokens: int, ss: seq<string>,
                                        current: seq<string>, tokens: int)
    ensures Concat(Greedy(measure, maxTokens, ss, current, tokens)) == current + ss
    decreases |ss|
  {
    if ss == [] {
      assert current + ss == current;
      if current != [] {
        assert Concat([current]) == current + Concat([]);
      }
    } else {
      var t := measure(ss[0]);
      if tokens + t > maxTokens && current != [] {
        GreedyConcat(measure, maxTokens, ss[1..], [ss[0]], t);
        var rest := Greedy(measure, maxTokens, ss[1..], [ss[0]], t);
        assert ([current] + rest)[1..] == rest;
        assert [ss[0]] + ss[1..] == ss;
      } else {
        GreedyConcat(measure, maxTokens, ss[1..], current + [ss[0]], tokens + t);
        assert current + [ss[0]] + ss[1..] == current + ss;
      }
    }
  }

  lemma {:induction false} GreedyNonEmptyGroups(measure: string -> nat, maxTokens: int, ss: seq<string>,
                                                current: seq<string>, tokens: int)
    ensures forall i :: 0 <= i < |Greedy(measure, maxTokens, ss, current, tokens)| ==>
              Greedy(measure, maxTokens, ss, current, tokens)[i] != []
    decreases |ss|
  {
    if ss != [] {
      var t := measure(ss[0]);
      if tokens + t > maxTokens && current != [] {
        GreedyNonEmptyGroups(measure, maxTokens, ss[1..], [ss[0]], t);
      } else {
        GreedyNonEmptyGroups(measure, maxTokens, ss[1..], current + [ss[0]], tokens + t);
      }
    }
  }

  /** A group is within budget, or it is a single sentence that alone
      exceeds it. */
  predicate WithinBudget(measure: string -> nat, maxTokens: int, group: seq<string>)
  {
    |group| == 1 || Tokens(measure, group) <= maxTokens
  }

  lemma {:induction false} GreedyBudget(measure: string -> nat, maxTokens: int, ss: seq<string>,
                                        current: seq<string>, tokens: int)
    requires tokens == Tokens(measure, current)
    requires current == [] || WithinBudget(measure, maxTokens, current)
    ensures forall i :: 0 <= i < |Greedy(measure, maxTokens, ss, current, tokens)| ==>
              WithinBudget(measure, maxTokens, Greedy(measure, maxTokens, ss, current, tokens)[i])
    decreases |ss|
  {
    if ss != [] {
      var t := measure(ss[0]);
      if tokens + t > maxTokens && current != [] {
        assert Tokens(measure, [ss[0]]) == t by {
          assert [ss[0]][1..] == [];
        }
        GreedyBudget(measure, maxTokens, ss[1..], [ss[0]], t);
      } else {
        TokensAppend(measure, current, ss[0]);
        if current == [] {
          assert current + [ss[0]] == [ss[0]];
        }
        GreedyBudget(measure, maxTokens, ss[1..], current + [ss[0]], tokens + t);
      }
    }
  }

  lemma {:induction false} GreedyHead(measure: string -> nat, maxTokens: int, ss: seq<string>,
                                      current: seq<string>, tokens: int)
    requires current != []
    ensures |Greedy(measure, maxTokens, ss, current, tokens)| >= 1
    ensures Greedy(measure, maxTokens, ss, current, tokens)[0] != []
    ensures Greedy(measure, maxTokens, ss, current, tokens)[0][0] == current[0]
    decreases |ss|
  {
    if ss != [] {
      var t := measure(ss[0]);
      if !(tokens + t > maxTokens && current != []) {
        GreedyHead(measure, maxTokens, ss[1..], current + [ss[0]], tokens + t);
      }
    }
  }

  /** A chunk is closed only because the next sentence would have pushed
      it past the budget. */
  predicate ClosedGreedily(measure: string -> nat, maxTokens: int, groups: seq<seq<string>>)
  {
    forall i :: 0 <= i < |groups| - 1 && groups[i + 1] != [] ==>
      Tokens(measure, groups[i]) + measure(groups[i + 1][0]) > maxTokens
  }

  lemma {:induction false} GreedyClosing(measure: string -> nat, maxTokens: int, ss: seq<string>,
                                         current: seq<string>, tokens: int)
    requires tokens == Tokens(measure, current)
    ensures ClosedGreedily(measure, maxTokens, Greedy(measure, maxTokens, ss, current, tokens))
    decreases |ss|
  {
    if ss != [] {
      var t := measure(ss[0]);
      if tokens + t > maxTokens && current != [] {
        assert Tokens(measure, [ss[0]]) == t by {
          assert [ss[0]][1..] == [];
        }
        GreedyClosing(measure, maxTokens, ss[1..], [ss[0]], t);
        GreedyHead(measure, maxTokens, ss[1..], [ss[0]], t);
        var rest := Greedy(measure, maxTokens, ss[1..], [ss[0]], t);
        var r := [current] + rest;
        forall i | 0 <= i < |r| - 1 && r[i + 1] != []
          ensures Tokens(measure, r[i]) + measure(r[i + 1][0]) > maxTokens
        {
          if i > 0 {
            assert r[i] == rest[i - 1] && r[i + 1] == rest[i];
          }
        }
      } else {
        TokensAppend(measure, current, ss[0]);
        GreedyClosing(measure, maxTokens, ss[1..], current + [ss[0]], tokens + t);
      }
    }
  }

  /** The chunking loses, duplicates and reorders no sentence; no chunk is
      empty; each chunk is within the budget or a single oversized sentence;
      and each chunk was closed only because the next sentence did not fit. */
  lemma {:induction false} GroupsPartitionSentences(measure: string -> nat, maxTokens: int, sentences: seq<string>)
    ensures Concat(Groups(measure, maxTokens, sentences)) == sentences
    ensures sentences != [] ==> |Groups(measure, maxTokens, sentences)| >= 1
    ensures forall i :: 0 <= i < |Groups(measure, maxTokens, sentences)| ==>
              Groups(measure, maxTokens, sentences)[i] != []
              && WithinBudget(measure, maxTokens, Groups(measure, maxTokens, sentences)[i])
    ensures ClosedGreedily(measure, maxTokens, Groups(measure, maxTokens, sentences))
  {
    GreedyConcat(measure, maxTokens, sentences, [], 0);
    assert [] + sentences == sentences;
    GreedyNonEmptyGroups(measure, maxTokens, sentences, [], 0);
    GreedyBudget(measure, maxTokens, sentences, [], 0);
    GreedyClosing(measure, maxTokens, sentences, [], 0);
  }

  /** `_chunk_transcript` as the loop it is written as. */
  method ChunkTranscriptLoop(transcript: string, measure: string -> nat, maxTokens: int) returns (chunks: seq<string>)
    ensures chunks == ChunkTranscript(transcript, measure, maxTokens)
  {
    var sentences := Split(transcript, SentenceSeparator);
    chunks := [];
    var current: seq<string> := [];
    var currentTokens := 0;
    ghost var closed: seq<seq<string>> := [];
    for i := 0 to |sentences|
      invariant chunks == ChunkTexts(closed)
      invariant closed + Greedy(measure, maxTokens, sentences[i..], current, currentTokens)
                == Groups(measure, maxTokens, sentences)
    {
      var sentenceTokens := measure(sentences[i]);
      if currentTokens + sentenceTokens > maxTokens && current != [] {
        CloseStep(measure, maxTokens, sentences, i, closed, current, currentTokens);
        ChunkTextsSnoc(closed, current);
        chunks := chunks + [ChunkText(current)];
        closed := closed + [current];
        current := [];
        currentTokens := 0;
        assert current + [sentences[i]] == [sentences[i]];
      } else {
        JoinStep(measure, maxTokens, sentences, i, closed, current, currentTokens);
      }
      current := current + [sentences[i]];
      currentTokens := currentTokens + sentenceTokens;
    }
    EndStep(measure, maxTokens, sentences, closed, current, currentTokens);
    if current != [] {
      ChunkTextsSnoc(closed, current);
      chunks := chunks + [ChunkText(current)];
      closed := closed + [current];
    }
  }

  /** The loop invariant across a sentence that closes the current chunk. */
  lemma CloseStep(measure: string -> nat, maxTokens: int, ss: seq<string>, i: nat,
                  closed: seq<seq<string>>, current: seq<string>, tokens: int)
    requires i < |ss|
    requires tokens + measure(ss[i]) > maxTokens && current != []
    ensures closed + Greedy(measure, maxTokens, ss[i..], current, tokens)
            == (closed + [current]) + Greedy(measure, maxTokens, ss[i + 1..], [ss[i]], measure(ss[i]))
  {
    GreedyStep(measure, maxTokens, ss, i, current, tokens);
    var rest := Greedy(measure, maxTokens, ss[i + 1..], [ss[i]], measure(ss[i]));
    assert closed + ([current] + rest) == (closed + [current]) + rest;
  }

  /** The loop invariant across a sentence that joins the current chunk. */
  lemma JoinStep(measure: string -> nat, maxTokens: int, ss: seq<string>, i: nat,
                 closed: seq<seq<string>>, current: seq<string>, tokens: int)
    requires i < |ss|
    requires !(tokens + measure(ss[i]) > maxTokens && current != [])
    ensures closed + Greedy(measure, maxTokens, ss[i..], current, tokens)
            == closed + Greedy(measure, maxTokens, ss[i + 1..], current + [ss[i]], tokens + measure(ss[i]))
  {
    GreedyStep(measure, maxTokens, ss, i, current, tokens);
  }

  /** The loop invariant once every sentence is consumed. */
  lemma EndStep(measure: string -> nat, maxTokens: int, ss: seq<string>,
                closed: seq<seq<string>>, current: seq<string>, tokens: int)
    ensures closed + Greedy(measure, maxTokens, ss[|ss|..], current, tokens)
            == if current == [] then closed else closed + [current]
  {
    assert ss[|ss|..] == [];
  }

  /** One sentence of the greedy grouping: it closes the current chunk
      when adding it would exceed the budget, and joins it otherwise. */
  lemma GreedyStep(measure: string -> nat, maxTokens: int, ss: seq<string>, i: nat,
                   current: seq<string>, tokens: int)
    requires i < |ss|
    ensures var t := measure(ss[i]);
            Greedy(measure, maxTokens, ss[i..], current, tokens)
            == if tokens + t > maxTokens && current != []
               then [current] + Greedy(measure, maxTokens, ss[i + 1..], [ss[i]], t)
               else Greedy(measure, maxTokens, ss[i + 1..], current + [ss[i]], tokens + t)
  {
    assert ss[i..][0] == ss[i] && ss[i..][1..] == ss[i + 1..];
  }

  lemma ChunkTextsSnoc(groups: seq<seq<string>>, g: seq<string>)
    ensures ChunkTexts(groups + [g]) == ChunkTexts(groups) + [ChunkText(g)]
  {
  }

  /** A chunk without its closing `'.'`. */
  function DropClosingDot(chunk: string): string
  {
    if chunk == [] then chunk else chunk[..|chunk| - 1]
  }

  function Bodies(chunks: seq<string>): (r: seq<string>)
    ensures |r| == |chunks|
  {
    seq(|chunks|, i requires 0 <= i < |chunks| => DropClosingDot(chunks[i]))
  }

  lemma {:induction false} JoinGroups(groups: seq<seq<string>>, sep: string)
    requires forall i :: 0 <= i < |groups| ==> groups[i] != []
    ensures Join(seq(|groups|, i requires 0 <= i < |groups| => Join(groups[i], sep)), sep) == Join(Concat(groups), sep)
  {
    var js := seq(|groups|, i requires 0 <= i < |groups| => Join(groups[i], sep));
    if |groups| == 1 {
      assert Concat(groups) == groups[0] + Concat([]);
      assert groups[0] + [] == groups[0];
    } else if |groups| > 1 {
      var rest := groups[1..];
      var jrest := seq(|rest|, i requires 0 <= i < |rest| => Join(rest[i], sep));
      assert js[1..] == jrest;
      JoinGroups(rest, sep);
      assert Concat(rest) != [] by {
        assert Concat(rest) == rest[0] + Concat(rest[1..]);
      }
      JoinAppend(groups[0], Concat(rest), sep);
    }
  }

  /** Every chunk ends with the `'.'` the chunker adds, and removing it from
      each chunk and joining the rest with `'. '` gives back the transcript. */
  lemma ChunksRejoin(transcript: string, measure: string -> nat, maxTokens: int)
    ensures forall i :: 0 <= i < |ChunkTranscript(transcript, measure, maxTokens)| ==>
              var c := ChunkTranscript(transcript, measure, maxTokens)[i];
              |c| >= 1 && c[|c| - 1] == '.'
    ensures Join(Bodies(ChunkTranscript(transcript, measure, maxTokens)), SentenceSeparator) == transcript
  {
    var gs := Groups(measure, maxTokens, Sentences(transcript));
    var cs := ChunkTranscript(transcript, measure, maxTokens);
    GroupsPartitionSentences(measure, maxTokens, Sentences(transcript));
    forall i | 0 <= i < |cs|
      ensures DropClosingDot(cs[i]) == Join(gs[i], SentenceSeparator)
    {
      assert cs[i] == Join(gs[i], SentenceSeparator) + ".";
    }
    assert Bodies(cs) == seq(|gs|, i requires 0 <= i < |gs| => Join(gs[i], SentenceSeparator));
    JoinGroups(gs, SentenceSeparator);
  }

  lemma ConcatLast(groups: seq<seq<string>>)
    requires |groups| > 0 && groups[|groups| - 1] != []
    ensures var c := Concat(groups); var g := groups[|groups| - 1];
            |c| > 0 && c[|c| - 1] == g[|g| - 1]
  {
    var n := |groups|;
    ConcatAppend(groups[..n - 1], [groups[n - 1]]);
    assert groups[..n - 1] + [groups[n - 1]] == groups;
    assert Concat([groups[n - 1]]) == groups[n - 1] + Concat([]);
  }

  /** The last sentence of a transcript ending in `'.'` ends in `'.'`. */
  lemma {:induction false} LastSentenceEndsWithDot(transcript: string)
    requires |transcript| > 0 && transcript[|transcript| - 1] == '.'
    ensures var ss := Sentences(transcript); var last := ss[|ss| - 1];
            last != [] && last[|last| - 1] == '.'
  {
    var ss := Sentences(transcript);
    var last := ss[|ss| - 1];
    if |ss| > 1 {
      JoinLastPiece(ss, SentenceSeparator);
    }
  }

  /** A transcript that already ends with `'.'` yields a last chunk ending
      in `'..'`: the chunker appends its `'.'` unconditionally. */
  lemma {:induction false} FinalChunkDoubleDot(transcript: string, measure: string -> nat, maxTokens: int)
    requires |transcript| > 0 && transcript[|transcript| - 1] == '.'
    ensures var cs := ChunkTranscript(transcript, measure, maxTokens);
            |cs| >= 1 && |cs[|cs| - 1]| >= 2 && cs[|cs| - 1][|cs[|cs| - 1]| - 2..] == ".."
  {
    var ss := Sentences(transcript);
    LastSentenceEndsWithDot(transcript);
    var gs := Groups(measure, maxTokens, ss);
    GroupsPartitionSentences(measure, maxTokens, ss);
    var g := gs[|gs| - 1];
    ConcatLast(gs);
    JoinLastChar(g, SentenceSeparator);
    var j := Join(g, SentenceSeparator);
    assert ChunkTranscript(transcript, measure, maxTokens)[|gs| - 1] == j + ".";
  }

  /** The fields `_combine_analyses` copies from the first analysis. */
  const ScalarFields: seq<string> := ["identification", "participants", "structure"]

  /** The fields it concatenates across all analyses, in the order it
      extends them. */
  const ListFields: seq<string> :=
    ["resume", "echanges", "citations", "problematiques", "positionnements", "signaux_faibles", "annexes"]

  /** The exception `_combine_analyses` raises: `IndexError` on an empty
      list, `TypeError` when a record is not a mapping, `KeyError` when it
      lacks a field, `TypeError` when `extend` is given a non-iterable. */
  datatype CombineError =
    | EmptyInput
    | NotAMapping(index: nat)
    | MissingField(index: nat, field: string)
    | NotIterable(index: nat, field: string)

  /** What `list.extend(v)` appends: the items of a list, the
      one-character strings of a string, or the keys of an object (taken
      here in code-point order). Numbers, booleans and `null` are not
      iterable. */
  function Iterate(v: Json): Option<seq<Json>>
  {
    match v
    case JArr(items) => Some(items)
    case JStr(s) => Some(seq(|s|, i requires 0 <= i < |s| => JStr([s[i]])))
    case JObj(fields) =>
      var ks := SortedKeys(fields.Keys);
      Some(seq(|ks|, i requires 0 <= i < |ks| => JStr(ks[i])))
    case _ => None
  }

  /** Record `a` can be read at each of `fields`; with `extend`, each of
      those values is iterable too. */
  predicate HasFields(a: Json, fields: seq<string>, extend: bool)
  {
    fields == [] ||
    (a.JObj? && forall i :: 0 <= i < |fields| ==>
       fields[i] in a.fields && (extend ==> Iterate(a.fields[fields[i]]).Some?))
  }

  /** The first exception raised reading `fields` of record number `index`,
      field by field in order. */
  function FieldProblem(a: Json, index: nat, fields: seq<string>, extend: bool): Option<CombineError>
    decreases |fields|
  {
    if fields == [] then None
    else if !a.JObj? then Some(NotAMapping(index))
    else if fields[0] !in a.fields then Some(MissingField(index, fields[0]))
    else if extend && Iterate(a.fields[fields[0]]).None? then Some(NotIterable(index, fields[0]))
    else FieldProblem(a, index, fields[1..], extend)
  }

  lemma {:induction false} FieldProblemIff(a: Json, index: nat, fields: seq<string>, extend: bool)
    ensures FieldProblem(a, index, fields, extend).None? <==> HasFields(a, fields, extend)
    ensures FieldProblem(a, index, fields, extend).Some? ==>
              !FieldProblem(a, index, fields, extend).value.EmptyInput?
              && FieldProblem(a, index, fields, extend).value.index == index
    decreases |fields|
  {
    if fields != [] && a.JObj? && fields[0] in a.fields && !(extend && Iterate(a.fields[fields[0]]).None?) {
      FieldProblemIff(a, index, fields[1..], extend);
      if HasFields(a, fields[1..], extend) {
        forall i | 0 <= i < |fields|
          ensures fields[i] in a.fields && (extend ==> Iterate(a.fields[fields[i]]).Some?)
        {
          if i > 0 {
            assert fields[i] == fields[1..][i - 1];
          }
        }
      } else {
        var i :| 0 <= i < |fields[1..]| &&
                 !(fields[1..][i] in a.fields && (extend ==> Iterate(a.fields[fields[1..][i]]).Some?));
        assert fields[1..][i] == fields[i + 1];
      }
    } else if fields != [] && a.JObj? {
      assert !(fields[0] in a.fields && (extend ==> Iterate(a.fields[fields[0]]).Some?));
    }
  }

  /** The first record, from number `from` on, whose `fields` cannot all be
      extended from. */
  function FirstBadRecord(analyses: seq<Json>, from: nat, fields: seq<string>): Option<CombineError>
    decreases |analyses| - from
  {
    if from >= |analyses| then None
    else
      match FieldProblem(analyses[from], from, fields, true)
      case Some(e) => Some(e)
      case None => FirstBadRecord(analyses, from + 1, fields)
  }

  lemma {:induction false} FirstBadRecordIff(analyses: seq<Json>, from: nat, fields: seq<string>)
    ensures FirstBadRecord(analyses, from, fields).None? <==>
              forall k :: from <= k < |analyses| ==> HasFields(analyses[k], fields, true)
    ensures FirstBadRecord(analyses, from, fields).Some? ==>
              var e := FirstBadRecord(analyses, from, fields).value;
              !e.EmptyInput? && from <= e.index < |analyses|
              && !HasFields(analyses[e.index], fields, true)
              && forall k :: from <= k < e.index ==> HasFields(analyses[k], fields, true)
    decreases |analyses| - from
  {
    if from < |analyses| {
      FieldProblemIff(analyses[from], from, fields, true);
      FirstBadRecordIff(analyses, from + 1, fields);
    }
  }

  /** `analysis[field]`, or `null` where it would raise. */
  function Lookup(a: Json, field: string): Json
  {
    if a.JObj? && field in a.fields then a.fields[field] else JNull
  }

  /** What `extend(analysis[field])` appends for one record. */
  function ListItems(a: Json, field: string): seq<Json>
  {
    var v := Lookup(a, field);
    if Iterate(v).Some? then Iterate(v).value else []
  }

  /** The in-order concatenation of one list field over all records. */
  function Gather(analyses: seq<Json>, field: string): seq<Json>
  {
    if analyses == [] then [] else ListItems(analyses[0], field) + Gather(analyses[1..], field)
  }

  lemma {:induction false} GatherAppend(xs: seq<Json>, ys: seq<Json>, field: string)
    ensures Gather(xs + ys, field) == Gather(xs, field) + Gather(ys, field)
  {
    if xs == [] {
      assert xs + ys == ys;
    } else {
      assert (xs + ys)[1..] == xs[1..] + ys;
      GatherAppend(xs[1..], ys, field);
    }
  }

  /** The ten keys of the merged analysis. */
  const MergedKeys: set<string> := set k | k in ScalarFields + ListFields

  /** One field of the merged analysis: a scalar is read from the first
      record; a list field gathers that field of every record. */
  function MergedField(analyses: seq<Json>, field: string): Json
    requires analyses != []
  {
    if field in ScalarFields then Lookup(analyses[0], field) else JArr(Gather(analyses, field))
  }

  /** The merged analysis of well-formed records. */
  function Combined(analyses: seq<Json>): Json
    requires analyses != []
  {
    JObj(map k | k in MergedKeys :: MergedField(analyses, k))
  }

  /** The two groups of fields do not share a name. */
  lemma ListNotScalar(i: nat)
    requires i < |ListFields|
    ensures ListFields[i] !in ScalarFields
  {
  }

  lemma CombinedScalar(analyses: seq<Json>, i: nat)
    requires analyses != [] && i < |ScalarFields|
    ensures ScalarFields[i] in Combined(analyses).fields
    ensures Combined(analyses).fields[ScalarFields[i]] == Lookup(analyses[0], ScalarFields[i])
  {
    assert ScalarFields[i] in ScalarFields + ListFields;
  }

  lemma CombinedList(analyses: seq<Json>, i: nat)
    requires analyses != [] && i < |ListFields|
    ensures ListFields[i] in Combined(analyses).fields
    ensures Combined(analyses).fields[ListFields[i]] == JArr(Gather(analyses, ListFields[i]))
  {
    assert ListFields[i] in ScalarFields + ListFields;
    ListNotScalar(i);
  }

  /** `_combine_analyses(analyses)`: the dictionary literal reads the three
      scalar fields of `analyses[0]`, then each record is read field by
      field in `ListFields` order. */
  function Combine(analyses: seq<Json>): Result<Json, CombineError>
  {
    if analyses == [] then Failure(EmptyInput)
    else
      match FieldProblem(analyses[0], 0, ScalarFields, false)
      case Some(e) => Failure(e)
      case None =>
        match FirstBadRecord(analyses, 0, ListFields)
        case Some(e) => Failure(e)
        case None => Success(Combined(analyses))
  }

  /** Records `_combine_analyses` merges without raising. */
  predicate WellFormed(analyses: seq<Json>)
  {
    analyses != []
    && HasFields(analyses[0], ScalarFields, false)
    && forall k :: 0 <= k < |analyses| ==> HasFields(analyses[k], ListFields, true)
  }

  /** The merge: exactly the ten fields; the scalars are those of the first
      record; each list field is that field of every record, in order. */
  ghost predicate MergeOf(analyses: seq<Json>, m: Json)
    requires analyses != []
  {
    m.JObj?
    && (forall k :: k in m.fields <==> k in ScalarFields || k in ListFields)
    && (forall i :: 0 <= i < |ScalarFields| ==> m.fields[ScalarFields[i]] == Lookup(analyses[0], ScalarFields[i]))
    && (forall i :: 0 <= i < |ListFields| ==> m.fields[ListFields[i]] == JArr(Gather(analyses, ListFields[i])))
  }

  /** `_combine_analyses` succeeds exactly on well-formed records, and an
      empty list is the `IndexError` case. */
  lemma {:induction false} CombineSucceedsIff(analyses: seq<Json>)
    ensures Combine(analyses).Success? <==> WellFormed(analyses)
    ensures Combine(analyses) == Failure(EmptyInput) <==> analyses == []
  {
    if analyses != [] {
      FieldProblemIff(analyses[0], 0, ScalarFields, false);
      FirstBadRecordIff(analyses, 0, ListFields);
    }
  }

  /** The value of a successful `_combine_analyses` is the merge. */
  lemma {:induction false} CombineMerges(analyses: seq<Json>)
    requires Combine(analyses).Success?
    ensures analyses != [] && MergeOf(analyses, Combine(analyses).value)
  {
    var m := Combined(analyses);
    assert Combine(analyses).value == m;
    forall i | 0 <= i < |ScalarFields|
      ensures m.fields[ScalarFields[i]] == Lookup(analyses[0], ScalarFields[i])
    {
      CombinedScalar(analyses, i);
    }
    forall i | 0 <= i < |ListFields|
      ensures m.fields[ListFields[i]] == JArr(Gather(analyses, ListFields[i]))
    {
      CombinedList(analyses, i);
    }
  }

  /** A chunk reply whose scalar fields are `null` and whose list fields
      are empty, except `annexes`. */
  function ReplyWithAnnexes(annexes: Json): Json
  {
    JObj(map["identification" := JNull, "participants" := JNull, "structure" := JNull,
             "resume" := JArr([]), "echanges" := JArr([]), "citations" := JArr([]),
             "problematiques" := JArr([]), "positionnements" := JArr([]),
             "signaux_faibles" := JArr([]), "annexes" := annexes])
  }

  lemma IterateSingleKey(k: string, v: Json)
    ensures Iterate(JObj(map[k := v])) == Some([JStr(k)])
  {
    assert map[k := v].Keys == {k};
    var ks := SortedKeys({k});
    assert ks == [k] by {
      assert IsLeast(k, {k}) by { StrLeTotal(k, k); }
      assert {k} - {k} == {};
    }
    assert seq(|ks|, i requires 0 <= i < |ks| => JStr(ks[i])) == [JStr(k)];
  }

  lemma ReplyHasScalars(annexes: Json)
    ensures HasFields(ReplyWithAnnexes(annexes), ScalarFields, false)
  {
  }

  lemma ReplyHasLists(annexes: Json)
    requires Iterate(annexes).Some?
    ensures HasFields(ReplyWithAnnexes(annexes), ListFields, true)
  {
  }

  lemma ReplyWellFormed(annexes: Json)
    requires Iterate(annexes).Some?
    ensures WellFormed([ReplyWithAnnexes(annexes)])
  {
    ReplyHasScalars(annexes);
    ReplyHasLists(annexes);
  }

  /** Merging a single record: each list field is what `extend` takes
      from that field. */
  lemma SingleMergeList(rec: Json, i: nat)
    requires WellFormed([rec]) && i < |ListFields|
    ensures Combine([rec]).Success?
    ensures Lookup(Combine([rec]).value, ListFields[i]) == JArr(ListItems(rec, ListFields[i]))
  {
    CombineSucceedsIff([rec]);
    CombineMerges([rec]);
    assert Gather([rec], ListFields[i]) == ListItems(rec, ListFields[i]) + Gather([], ListFields[i]) by {
      assert [rec][1..] == [];
    }
  }

  /** `extend` with an object appends its keys: a reply whose `annexes` is
      `{"lois": []}` merges, and the merged `annexes` is `["lois"]`. */
  lemma ObjectAnnexesMerge()
    ensures var rec := ReplyWithAnnexes(JObj(map["lois" := JArr([])]));
            Combine([rec]).Success? && Lookup(Combine([rec]).value, "annexes") == JArr([JStr("lois")])
  {
    var annexes := JObj(map["lois" := JArr([])]);
    var rec := ReplyWithAnnexes(annexes);
    IterateSingleKey("lois", JArr([]));
    ReplyWellFormed(annexes);
    SingleMergeList(rec, 6);
    assert rec.fields["annexes"] == annexes;
  }

  /** Reading the list fields of a reply whose `annexes` is not iterable
      stops at `annexes`, the last of them. */
  lemma ReplyListProblem(annexes: Json)
    requires Iterate(annexes).None?
    ensures FieldProblem(ReplyWithAnnexes(annexes), 0, ListFields, true) == Some(NotIterable(0, "annexes"))
  {
    var rec := ReplyWithAnnexes(annexes);
    var fs := ListFields;
    assert FieldProblem(rec, 0, fs[6..], true) == Some(NotIterable(0, "annexes"));
    assert FieldProblem(rec, 0, fs[5..], true) == FieldProblem(rec, 0, fs[6..], true) by { assert fs[5..][1..] == fs[6..]; }
    assert FieldProblem(rec, 0, fs[4..], true) == FieldProblem(rec, 0, fs[5..], true) by { assert fs[4..][1..] == fs[5..]; }
    assert FieldProblem(rec, 0, fs[3..], true) == FieldProblem(rec, 0, fs[4..], true) by { assert fs[3..][1..] == fs[4..]; }
    assert FieldProblem(rec, 0, fs[2..], true) == FieldProblem(rec, 0, fs[3..], true) by { assert fs[2..][1..] == fs[3..]; }
    assert FieldProblem(rec, 0, fs[1..], true) == FieldProblem(rec, 0, fs[2..], true) by { assert fs[1..][1..] == fs[2..]; }
    assert FieldProblem(rec, 0, fs, true) == FieldProblem(rec, 0, fs[1..], true);
  }

  /** A reply whose `annexes` is a number fails with `TypeError` on that
      field. */
  lemma NumberAnnexesFail()
    ensures Combine([ReplyWithAnnexes(JInt(1))]) == Failure(NotIterable(0, "annexes"))
  {
    var rec := ReplyWithAnnexes(JInt(1));
    ReplyHasScalars(JInt(1));
    FieldProblemIff(rec, 0, ScalarFields, false);
    ReplyListProblem(JInt(1));
  }

  /** Any exception other than the empty-list one names the first record
      that cannot be read; every record before it was merged without
      error. */
  lemma {:induction false} CombineFirstError(analyses: seq<Json>)
    requires analyses != [] && Combine(analyses).Failure?
    ensures var e := Combine(analyses).error;
            !e.EmptyInput? && e.index < |analyses|
            && (forall k :: 0 <= k < e.index ==> HasFields(analyses[k], ListFields, true))
            && (!HasFields(analyses[0], ScalarFields, false) || !HasFields(analyses[e.index], ListFields, true))
  {
    FieldProblemIff(analyses[0], 0, ScalarFields, false);
    FirstBadRecordIff(analyses, 0, ListFields);
  }

  /** A merged analysis is itself a well-formed record: reading a field of
      it gives back what was merged into that field. */
  lemma {:induction false} CombinedIsRecord(analyses: seq<Json>)
    requires analyses != []
    ensures HasFields(Combined(analyses), ScalarFields, false)
    ensures HasFields(Combined(analyses), ListFields, true)
    ensures forall i :: 0 <= i < |ScalarFields| ==>
              Lookup(Combined(analyses), ScalarFields[i]) == Lookup(analyses[0], ScalarFields[i])
    ensures forall i :: 0 <= i < |ListFields| ==>
              ListItems(Combined(analyses), ListFields[i]) == Gather(analyses, ListFields[i])
  {
    var m := Combined(analyses);
    forall i | 0 <= i < |ScalarFields|
      ensures ScalarFields[i] in m.fields && m.fields[ScalarFields[i]] == Lookup(analyses[0], ScalarFields[i])
    {
      CombinedScalar(analyses, i);
    }
    forall i | 0 <= i < |ListFields|
      ensures ListFields[i] in m.fields && m.fields[ListFields[i]] == JArr(Gather(analyses, ListFields[i]))
    {
      CombinedList(analyses, i);
    }
  }

  /** Two runs of records with the same scalars first and the same
      gathered lists merge to the same analysis. */
  lemma {:induction false} CombinedExtensional(xs: seq<Json>, ys: seq<Json>)
    requires xs != [] && ys != []
    requires forall i :: 0 <= i < |ScalarFields| ==> Lookup(xs[0], ScalarFields[i]) == Lookup(ys[0], ScalarFields[i])
    requires forall i :: 0 <= i < |ListFields| ==> Gather(xs, ListFields[i]) == Gather(ys, ListFields[i])
    ensures Combined(xs) == Combined(ys)
  {
    forall k | k in MergedKeys
      ensures MergedField(xs, k) == MergedField(ys, k)
    {
      assert k in ScalarFields + ListFields;
      if k in ScalarFields {
        var i :| 0 <= i < |ScalarFields| && ScalarFields[i] == k;
      } else {
        var i :| 0 <= i < |ListFields| && ListFields[i] == k;
      }
    }
  }

  lemma GatherOne(a: Json, field: string)
    ensures Gather([a], field) == ListItems(a, field)
  {
    assert Gather([a], field) == ListItems(a, field) + Gather([], field);
  }

  lemma GatherTwo(a: Json, b: Json, field: string)
    ensures Gather([a, b], field) == ListItems(a, field) + ListItems(b, field)
  {
    assert [a, b][1..] == [b];
    GatherOne(b, field);
  }

  lemma {:induction false} CombineOfWellFormed(analyses: seq<Json>)
    requires WellFormed(analyses)
    ensures Combine(analyses) == Success(Combined(analyses))
  {
    CombineSucceedsIff(analyses);
  }

  /** Merging a single merged analysis gives it back. */
  lemma {:induction false} CombineIdempotent(analyses: seq<Json>)
    requires Combine(analyses).Success?
    ensures Combine([Combine(analyses).value]) == Combine(analyses)
  {
    CombineSucceedsIff(analyses);
    var m := Combined(analyses);
    CombinedIsRecord(analyses);
    assert WellFormed([m]);
    CombineOfWellFormed([m]);
    forall i | 0 <= i < |ListFields|
      ensures Gather([m], ListFields[i]) == Gather(analyses, ListFields[i])
    {
      GatherOne(m, ListFields[i]);
    }
    CombinedExtensional([m], analyses);
  }

  lemma {:induction false} WellFormedAppend(xs: seq<Json>, ys: seq<Json>)
    requires WellFormed(xs) && WellFormed(ys)
    ensures WellFormed(xs + ys) && (xs + ys)[0] == xs[0]
  {
    forall k | 0 <= k < |xs + ys|
      ensures HasFields((xs + ys)[k], ListFields, true)
    {
      if k >= |xs| {
        assert (xs + ys)[k] == ys[k - |xs|];
      }
    }
  }

  lemma {:induction false} MergesWellFormed(xs: seq<Json>, ys: seq<Json>)
    requires xs != [] && ys != []
    ensures WellFormed([Combined(xs), Combined(ys)])
    ensures forall i :: 0 <= i < |ScalarFields| ==>
              Lookup(Combined(xs), ScalarFields[i]) == Lookup(xs[0], ScalarFields[i])
    ensures forall i :: 0 <= i < |ListFields| ==>
              ListItems(Combined(xs), ListFields[i]) == Gather(xs, ListFields[i])
              && ListItems(Combined(ys), ListFields[i]) == Gather(ys, ListFields[i])
  {
    CombinedIsRecord(xs);
    CombinedIsRecord(ys);
  }

  /** Merging is compositional: merging two runs of records at once is
      merging their two merges. */
  lemma {:induction false} CombineAppend(xs: seq<Json>, ys: seq<Json>)
    requires Combine(xs).Success? && Combine(ys).Success?
    ensures Combine(xs + ys) == Combine([Combine(xs).value, Combine(ys).value])
  {
    CombineSucceedsIff(xs);
    CombineSucceedsIff(ys);
    var mx := Combined(xs);
    var my := Combined(ys);
    WellFormedAppend(xs, ys);
    MergesWellFormed(xs, ys);
    CombineOfWellFormed(xs + ys);
    CombineOfWellFormed([mx, my]);
    forall i | 0 <= i < |ListFields|
      ensures Gather([mx, my], ListFields[i]) == Gather(xs + ys, ListFields[i])
    {
      GatherAppend(xs, ys, ListFields[i]);
      GatherTwo(mx, my, ListFields[i]);
    }
    CombinedExtensional([mx, my], xs + ys);
  }

  /** The decorator arguments of `_analyze_chunk` and
      `analyze_consolidated`: three retries, a one-second first delay
      doubling each time, no callback. */
  const ModelPolicy: Retry.Policy := Retry.Policy(3, 1.0, 2.0, false)

  /** The instruction text around the replacement fields of a template. */
  datatype PromptText = PromptText(head: string, tail: string)

  /** The language model: `model(prompt)(k)` is attempt `k` of one
      decorated `_analyze_chunk` (or `analyze_consolidated`) call with that
      prompt, `json.loads` of its reply included. The attempt number
      restarts at every call, so two chunks with identical text get
      identical replies, where the source makes independent requests. */
  type Model = string -> nat -> Retry.Attempt<Json, string>

  /** One run of `_analyze_chunk`'s body: format the prompt, then request.
      A formatting failure raises the `KeyError` naming the missing field. */
  function ChunkAttempt(prompt: Result<string, string>, model: Model): nat -> Retry.Attempt<Json, string>
  {
    (k: nat) => if prompt.Failure? then Retry.Raise(prompt.error) else model(prompt.value)(k)
  }

  /** `_analyze_chunk(chunk, theme)` under its retry decorator, with the
      keyword the template names. */
  function AnalyzeChunk(text: PromptText, model: Model, chunk: string, theme: string): Retry.Run<Json, string>
  {
    var prompt := Prompts.Format(Prompts.IndividualPrompt(text.head, text.tail), Prompts.ChunkArguments(chunk, theme));
    Retry.AsyncRetry(ChunkAttempt(prompt, model), Retry.AnyException, ModelPolicy)
  }

  /** `_analyze_chunk(chunk, theme)` as written, passing `transcription=`. */
  function AnalyzeChunkAsWritten(text: PromptText, model: Model, chunk: string, theme: string): Retry.Run<Json, string>
  {
    var prompt := Prompts.Format(Prompts.IndividualPrompt(text.head, text.tail), Prompts.ChunkArgumentsAsWritten(chunk, theme));
    Retry.AsyncRetry(ChunkAttempt(prompt, model), Retry.AnyException, ModelPolicy)
  }

  /** What `analyze_individual` sees of one chunk call: its value, or
      `None` when it raises. */
  function Returned(run: Retry.Run<Json, string>): Option<Json>
  {
    if run.outcome.Returned? then Some(run.outcome.value) else None
  }

  /** As written, every chunk call raises `RetryError` from the `KeyError`
      of the prompt formatting, after four attempts and sleeps of 1, 2 and
      4 seconds, without ever reaching the model. */
  lemma AnalyzeChunkAsWrittenRaises(text: PromptText, model: Model, chunk: string, theme: string)
    ensures AnalyzeChunkAsWritten(text, model, chunk, theme).outcome == Retry.RetryError(Retry.Raised("transcript"))
    ensures AnalyzeChunkAsWritten(text, model, chunk, theme).calls == 4
    ensures Retry.Sleeps(AnalyzeChunkAsWritten(text, model, chunk, theme).events) == [1.0, 2.0, 4.0]
  {
    Prompts.IndividualPromptAsWrittenRaises(text.head, text.tail, chunk, theme);
    var prompt := Prompts.Format(Prompts.IndividualPrompt(text.head, text.tail), Prompts.ChunkArgumentsAsWritten(chunk, theme));
    assert prompt == Failure("transcript");
    var op := ChunkAttempt(prompt, model);
    assert forall j :: op(j) == Retry.Raise("transcript");
    Retry.AlwaysFailing(op, Retry.AnyException, ModelPolicy);
    Retry.SleepSchedule(op, Retry.AnyException, ModelPolicy);
    var ev := Retry.Sleeps(AnalyzeChunkAsWritten(text, model, chunk, theme).events);
    assert Retry.Pow(2.0, 1) == 2.0 && Retry.Pow(2.0, 2) == 4.0;
    assert ev[0] == 1.0 && ev[1] == 2.0 && ev[2] == 4.0;
  }

  /** The loop of `analyze_individual` over the chunks: the values of the
      chunk calls that returned, in chunk order, and whether one raised. */
  datatype ChunkPass = ChunkPass(results: seq<Json>, raised: bool)

  /** The calls are made one after the other, in chunk order; the first
      that raises ends the loop. */
  function AnalyzeChunks(chunks: seq<string>, analyze: string -> Option<Json>): (r: ChunkPass)
    ensures |r.results| <= |chunks|
    ensures forall i :: 0 <= i < |r.results| ==> analyze(chunks[i]) == Some(r.results[i])
    ensures r.raised <==> |r.results| < |chunks|
    ensures r.raised ==> analyze(chunks[|r.results|]).None?
  {
    if chunks == [] then ChunkPass([], false)
    else
      match analyze(chunks[0])
      case None => ChunkPass([], true)
      case Some(v) =>
        var rest := AnalyzeChunks(chunks[1..], analyze);
        ChunkPass([v] + rest.results, rest.raised)
  }

  /** The chunks `analyze_individual` sends to the model: all of them, or
      those up to and including the first that raises. */
  function Requested(chunks: seq<string>, pass: ChunkPass): seq<string>
    requires |pass.results| <= |chunks|
    requires pass.raised ==> |pass.results| < |chunks|
  {
    chunks[..|pass.results| + if pass.raised then 1 else 0]
  }

  /** `analyze_individual(transcript, theme)` with the chunk calls given by
      `analyze`: `None` once a chunk call raises or the merge raises. */
  function AnalyzeIndividualWith(transcript: string, measure: string -> nat, analyze: string -> Option<Json>): Option<Json>
  {
    var pass := AnalyzeChunks(ChunkTranscript(transcript, measure, DefaultMaxTokens), analyze);
    if pass.raised then None
    else
      match Combine(pass.results)
      case Success(m) => Some(m)
      case Failure(_) => None
  }

  /** `analyze_individual` returns a value exactly when every chunk call
      returns and their values are well-formed, and the value is the merge
      of the chunk values in chunk order (whose fields `CombineMerges`
      describes). */
  lemma {:induction false} AnalyzeIndividualContract(transcript: string, measure: string -> nat, analyze: string -> Option<Json>)
    ensures var chunks := ChunkTranscript(transcript, measure, DefaultMaxTokens);
            var r := AnalyzeIndividualWith(transcript, measure, analyze);
            r.Some? <==>
              (forall i :: 0 <= i < |chunks| ==> analyze(chunks[i]).Some?)
              && WellFormed(AnalyzeChunks(chunks, analyze).results)
    ensures var chunks := ChunkTranscript(transcript, measure, DefaultMaxTokens);
            var r := AnalyzeIndividualWith(transcript, measure, analyze);
            r.Some? ==> |AnalyzeChunks(chunks, analyze).results| == |chunks|
                        && Combine(AnalyzeChunks(chunks, analyze).results) == Success(r.value)
  {
    var chunks := ChunkTranscript(transcript, measure, DefaultMaxTokens);
    var pass := AnalyzeChunks(chunks, analyze);
    CombineSucceedsIff(pass.results);
  }

  /** The chunk calls of `analyze_individual`, made with the keyword the
      template names. */
  function ChunkCalls(text: PromptText, model: Model, theme: string): string -> Option<Json>
  {
    chunk => Returned(AnalyzeChunk(text, model, chunk, theme))
  }

  /** The chunk calls of `analyze_individual` as written. */
  function ChunkCallsAsWritten(text: PromptText, model: Model, theme: string): string -> Option<Json>
  {
    chunk => Returned(AnalyzeChunkAsWritten(text, model, chunk, theme))
  }

  /** `analyze_individual(transcript, theme)`. */
  function AnalyzeIndividual(text: PromptText, model: Model, transcript: string, theme: string, measure: string -> nat): Option<Json>
  {
    AnalyzeIndividualWith(transcript, measure, ChunkCalls(text, model, theme))
  }

  /** `analyze_individual` as written: the first chunk call raises, so the
      result is `None` for every transcript, and no later chunk is tried. */
  lemma {:induction false} AnalyzeIndividualAsWrittenFails(text: PromptText, model: Model, transcript: string, theme: string,
                                                          measure: string -> nat)
    ensures AnalyzeIndividualWith(transcript, measure, ChunkCallsAsWritten(text, model, theme)) == None
    ensures var chunks := ChunkTranscript(transcript, measure, DefaultMaxTokens);
            |chunks| >= 1 && Requested(chunks, AnalyzeChunks(chunks, ChunkCallsAsWritten(text, model, theme))) == chunks[..1]
  {
    var chunks := ChunkTranscript(transcript, measure, DefaultMaxTokens);
    ChunksNotEmpty(transcript, measure, DefaultMaxTokens);
    ChunkCallAsWrittenRaises(text, model, theme, chunks[0]);
    FirstChunkRaises(chunks, ChunkCallsAsWritten(text, model, theme));
  }

  lemma ChunkCallAsWrittenRaises(text: PromptText, model: Model, theme: string, chunk: string)
    ensures ChunkCallsAsWritten(text, model, theme)(chunk) == None
  {
    AnalyzeChunkAsWrittenRaises(text, model, chunk, theme);
  }

  /** `_chunk_transcript` always returns at least one chunk. */
  lemma {:induction false} ChunksNotEmpty(transcript: string, measure: string -> nat, maxTokens: int)
    ensures |ChunkTranscript(transcript, measure, maxTokens)| >= 1
  {
    GroupsPartitionSentences(measure, maxTokens, Sentences(transcript));
  }

  lemma FirstChunkRaises(chunks: seq<string>, analyze: string -> Option<Json>)
    requires |chunks| >= 1 && analyze(chunks[0]) == None
    ensures AnalyzeChunks(chunks, analyze) == ChunkPass([], true)
  {
  }

  /** The fields `analyze_consolidated` forwards for each hearing. */
  const ForwardedFields: seq<string> :=
    ["identification", "participants", "resume", "problematiques", "positionnements", "signaux_faibles"]

  const LabelledKeys: set<string> := {"audition"} + set k | k in ForwardedFields

  /** The record sent for hearing number `n`. */
  function Labelled(a: Json, n: int): Json
  {
    JObj(map k | k in LabelledKeys :: if k == "audition" then JInt(n) else Lookup(a, k))
  }

  /** The records `tag(analyses[k], k + 1)` for `k` from `from` on, or
      the first exception reading `fields` of them. */
  function LabelFrom(analyses: seq<Json>, from: nat, fields: seq<string>, tag: (Json, int) -> Json)
    : Result<seq<Json>, CombineError>
    decreases |analyses| - from
  {
    if from >= |analyses| then Success([])
    else
      match FieldProblem(analyses[from], from, fields, false)
      case Some(e) => Failure(e)
      case None =>
        var rest := LabelFrom(analyses, from + 1, fields, tag);
        if rest.Success? then Success([tag(analyses[from], from + 1)] + rest.value) else rest
  }

  /** The `formatted_analyses` list of `analyze_consolidated`. */
  function FormatForConsolidation(analyses: seq<Json>): Result<seq<Json>, CombineError>
  {
    LabelFrom(analyses, 0, ForwardedFields, Labelled)
  }

  lemma {:induction false} LabelFromContract(analyses: seq<Json>, from: nat, fields: seq<string>, tag: (Json, int) -> Json)
    requires from <= |analyses|
    ensures LabelFrom(analyses, from, fields, tag).Success? <==>
              forall k :: from <= k < |analyses| ==> HasFields(analyses[k], fields, false)
    ensures LabelFrom(analyses, from, fields, tag).Success? ==>
              var r := LabelFrom(analyses, from, fields, tag).value;
              |r| == |analyses| - from
              && forall i :: 0 <= i < |r| ==> r[i] == tag(analyses[from + i], from + i + 1)
    ensures LabelFrom(analyses, from, fields, tag).Failure? ==>
              var e := LabelFrom(analyses, from, fields, tag).error;
              !e.EmptyInput? && from <= e.index < |analyses|
              && !HasFields(analyses[e.index], fields, false)
              && forall k :: from <= k < e.index ==> HasFields(analyses[k], fields, false)
    decreases |analyses| - from
  {
    if from < |analyses| {
      FieldProblemIff(analyses[from], from, fields, false);
      LabelFromContract(analyses, from + 1, fields, tag);
    }
  }

  /** `LabelFromContract` from the first record on. */
  lemma LabelAllContract(analyses: seq<Json>, fields: seq<string>, tag: (Json, int) -> Json)
    ensures LabelFrom(analyses, 0, fields, tag).Success? <==>
              forall k :: 0 <= k < |analyses| ==> HasFields(analyses[k], fields, false)
    ensures LabelFrom(analyses, 0, fields, tag).Success? ==>
              var r := LabelFrom(analyses, 0, fields, tag).value;
              |r| == |analyses| && forall i :: 0 <= i < |r| ==> r[i] == tag(analyses[i], i + 1)
    ensures LabelFrom(analyses, 0, fields, tag).Failure? ==>
              var e := LabelFrom(analyses, 0, fields, tag).error;
              !e.EmptyInput? && e.index < |analyses|
              && !HasFields(analyses[e.index], fields, false)
              && forall k :: 0 <= k < e.index ==> HasFields(analyses[k], fields, false)
  {
    LabelFromContract(analyses, 0, fields, tag);
    var r := LabelFrom(analyses, 0, fields, tag);
    if r.Success? {
      forall i | 0 <= i < |r.value|
        ensures r.value[i] == tag(analyses[i], i + 1)
      {
        assert r.value[i] == tag(analyses[0 + i], 0 + i + 1);
      }
    }
  }

  /** Hearings are labelled `audition` 1 to n in input order, one record per
      analysis; the list is built exactly when every analysis has the six
      forwarded fields, and otherwise the exception names the first that
      lacks one. */
  lemma {:induction false} FormatForConsolidationContract(analyses: seq<Json>)
    ensures FormatForConsolidation(analyses).Success? <==>
              forall k :: 0 <= k < |analyses| ==> HasFields(analyses[k], ForwardedFields, false)
    ensures FormatForConsolidation(analyses).Success? ==>
              var r := FormatForConsolidation(analyses).value;
              |r| == |analyses| && forall i :: 0 <= i < |r| ==> r[i] == Labelled(analyses[i], i + 1)
    ensures FormatForConsolidation(analyses).Failure? ==>
              var e := FormatForConsolidation(analyses).error;
              !e.EmptyInput? && e.index < |analyses|
              && !HasFields(analyses[e.index], ForwardedFields, false)
              && forall k :: 0 <= k < e.index ==> HasFields(analyses[k], ForwardedFields, false)
  {
    LabelAllContract(analyses, ForwardedFields, Labelled);
  }

  /** A labelled record holds the label and the six forwarded fields and
      nothing else: the other fields of the analysis are not sent. */
  lemma {:induction false} LabelledFields(a: Json, n: int)
    requires HasFields(a, ForwardedFields, false)
    ensures var r := Labelled(a, n);
            r.JObj? && "audition" in r.fields && r.fields["audition"] == JInt(n)
            && (forall i :: 0 <= i < |ForwardedFields| ==>
                  ForwardedFields[i] in r.fields && r.fields[ForwardedFields[i]] == a.fields[ForwardedFields[i]])
            && (forall k :: k in r.fields ==> k == "audition" || k in ForwardedFields)
  {
    var r := Labelled(a, n);
    assert r.fields.Keys == LabelledKeys;
    forall i | 0 <= i < |ForwardedFields|
      ensures ForwardedFields[i] in r.fields && r.fields[ForwardedFields[i]] == a.fields[ForwardedFields[i]]
    {
      assert ForwardedFields[i] in LabelledKeys;
    }
  }

  /** One run of `analyze_consolidated`'s body. Every exception is caught
      and turned into `None`: a prompt that cannot be built or a request that
      raises returns `None`. Only a timeout reaches the retry wrapper. */
  function ConsolidatedAttempt(prompt: Option<string>, model: Model): nat -> Retry.Attempt<Option<Json>, string>
  {
    (k: nat) =>
      if prompt.None? then Retry.Ok(None)
      else
        match model(prompt.value)(k)
        case Ok(v) => Retry.Ok(Some(v))
        case Raise(_) => Retry.Ok(None)
        case TimedOut => Retry.TimedOut
  }

  /** The consolidated prompt, with the keyword the template names;
      `dumps` is `json.dumps(..., indent=2)`. */
  function ConsolidationPrompt(text: PromptText, dumps: seq<Json> -> string, analyses: seq<Json>, theme: string): Option<string>
  {
    match FormatForConsolidation(analyses)
    case Failure(_) => None
    case Success(records) =>
      var p := Prompts.Format(Prompts.ConsolidatedPrompt(text.head, text.tail), Prompts.ConsolidatedArguments(dumps(records), theme));
      if p.Success? then Some(p.value) else None
  }

  /** The consolidated prompt as written, passing `analyses=`. */
  function ConsolidationPromptAsWritten(text: PromptText, dumps: seq<Json> -> string, analyses: seq<Json>, theme: string): Option<string>
  {
    match FormatForConsolidation(analyses)
    case Failure(_) => None
    case Success(records) =>
      var p := Prompts.Format(Prompts.ConsolidatedPrompt(text.head, text.tail), Prompts.ConsolidatedArgumentsAsWritten(dumps(records), theme));
      if p.Success? then Some(p.value) else None
  }

  /** With well-formed analyses the prompt carries their labelled records,
      serialised, and the theme. */
  lemma {:induction false} ConsolidationPromptCarriesRecords(text: PromptText, dumps: seq<Json> -> string,
                                                            analyses: seq<Json>, theme: string)
    requires forall k :: 0 <= k < |analyses| ==> HasFields(analyses[k], ForwardedFields, false)
    ensures FormatForConsolidation(analyses).Success?
    ensures ConsolidationPrompt(text, dumps, analyses, theme)
            == Some(text.head + dumps(FormatForConsolidation(analyses).value) + Prompts.ThemeLine + theme + text.tail)
  {
    FormatForConsolidationContract(analyses);
    Prompts.ConsolidatedPromptCorrected(text.head, text.tail, dumps(FormatForConsolidation(analyses).value), theme);
  }

  /** `analyze_consolidated(analyses, theme)` under its retry decorator. */
  function AnalyzeConsolidated(text: PromptText, model: Model, dumps: seq<Json> -> string,
                               analyses: seq<Json>, theme: string): Retry.Run<Option<Json>, string>
  {
    Retry.AsyncRetry(ConsolidatedAttempt(ConsolidationPrompt(text, dumps, analyses, theme), model), Retry.AnyException, ModelPolicy)
  }

  /** `analyze_consolidated` as written. */
  function AnalyzeConsolidatedAsWritten(text: PromptText, model: Model, dumps: seq<Json> -> string,
                                        analyses: seq<Json>, theme: string): Retry.Run<Option<Json>, string>
  {
    Retry.AsyncRetry(ConsolidatedAttempt(ConsolidationPromptAsWritten(text, dumps, analyses, theme), model), Retry.AnyException, ModelPolicy)
  }

  /** Because the body swallows every exception, its retry decorator never
      retries a failure: there is no sleep, no exception escapes, the only
      `RetryError` is one caused by timeouts, and unless the first request
      times out there is exactly one call, returning the model's value or
      `None` when the request raised. */
  lemma {:induction false} ConsolidatedNeverRetriesFailures(text: PromptText, model: Model, dumps: seq<Json> -> string,
                                                           analyses: seq<Json>, theme: string)
    ensures var run := AnalyzeConsolidated(text, model, dumps, analyses, theme);
            run.events == [] && !run.outcome.Escaped?
            && (run.outcome.RetryError? ==> run.outcome.cause == Retry.Timeout)
    ensures var prompt := ConsolidationPrompt(text, dumps, analyses, theme);
            var run := AnalyzeConsolidated(text, model, dumps, analyses, theme);
            prompt.Some? && model(prompt.value)(0).Ok? ==>
              run == Retry.Run(Retry.Returned(Some(model(prompt.value)(0).value)), 1, [])
    ensures var prompt := ConsolidationPrompt(text, dumps, analyses, theme);
            var run := AnalyzeConsolidated(text, model, dumps, analyses, theme);
            prompt.Some? && model(prompt.value)(0).Raise? ==> run == Retry.Run(Retry.Returned(None), 1, [])
    ensures ConsolidationPrompt(text, dumps, analyses, theme).None? ==>
              AnalyzeConsolidated(text, model, dumps, analyses, theme) == Retry.Run(Retry.Returned(None), 1, [])
  {
    var op := ConsolidatedAttempt(ConsolidationPrompt(text, dumps, analyses, theme), model);
    assert forall j :: !op(j).Raise?;
    Retry.WithoutExceptions(op, Retry.AnyException, ModelPolicy);
  }

  /** As written, the prompt never formats, so `analyze_consolidated` makes
      one call, which returns `None`, whatever the analyses and the model. */
  lemma {:induction false} AnalyzeConsolidatedAsWrittenReturnsNone(text: PromptText, model: Model, dumps: seq<Json> -> string,
                                                                  analyses: seq<Json>, theme: string)
    ensures AnalyzeConsolidatedAsWritten(text, model, dumps, analyses, theme) == Retry.Run(Retry.Returned(None), 1, [])
  {
    var prompt := ConsolidationPromptAsWritten(text, dumps, analyses, theme);
    if FormatForConsolidation(analyses).Success? {
      Prompts.ConsolidatedPromptAsWrittenRaises(text.head, text.tail, dumps(FormatForConsolidation(analyses).value), theme);
    }
    assert prompt == None;
    var op := ConsolidatedAttempt(prompt, model);
    assert forall j :: op(j) == Retry.Ok(None);
    Retry.WithoutExceptions(op, Retry.AnyException, ModelPolicy);
  }
}
