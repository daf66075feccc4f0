/** Quality metrics: the per-operation record and its mutators, its
    dictionary form, and the collector that keeps one JSON file per saved
    record, summarises the directory and purges old files. The clock, the
    `strftime` stamp and the directory listing are parameters. */
module Metrics {
  import opened Base
  import opened Text

  // ---------------------------------------------------------------------
  // QualityMetrics
  // ---------------------------------------------------------------------

  /** The `QualityMetrics` dataclass. */
  datatype QualityMetrics = QualityMetrics(
    operation: string,
    startTime: real,
    endTime: Option<real>,
    duration: Option<real>,
    success: bool,
    error: Option<string>,
    retries: int,
    inputSize: Option<int>,
    outputSize: Option<int>,
    apiCalls: int,
    apiTokens: int,
    customMetrics: map<string, real>)

  /** `QualityMetrics(operation=...)` created at time `now`: the dataclass
      defaults. */
  function Start(operation: string, now: real): (m: QualityMetrics)
    ensures m.operation == operation && m.startTime == now
    ensures m.endTime.None? && m.duration.None? && m.error.None? && m.success
    ensures m.retries == 0 && m.apiCalls == 0 && m.apiTokens == 0
    ensures m.inputSize.None? && m.outputSize.None? && m.customMetrics == map[]
  {
    QualityMetrics(operation, now, None, None, true, None, 0, None, None, 0, 0, map[])
  }

  /** The fields `complete` leaves alone. */
  predicate SameCounters(a: QualityMetrics, b: QualityMetrics)
  {
    a.operation == b.operation && a.startTime == b.startTime && a.retries == b.retries
    && a.inputSize == b.inputSize && a.outputSize == b.outputSize
    && a.apiCalls == b.apiCalls && a.apiTokens == b.apiTokens && a.customMetrics == b.customMetrics
  }

  /** `complete(success, error)` at time `now`. */
  function Complete(m: QualityMetrics, now: real, success: bool, error: Option<string>): (r: QualityMetrics)
    ensures r.endTime == Some(now)
    ensures r.duration == Some(now - m.startTime)
    ensures r.success == success && r.error == error
    ensures SameCounters(r, m)
  {
    m.(endTime := Some(now), duration := Some(now - m.startTime), success := success, error := error)
  }

  /** A second `complete` overwrites everything the first one set. */
  lemma CompleteTwice(m: QualityMetrics, t1: real, s1: bool, e1: Option<string>, t2: real, s2: bool, e2: Option<string>)
    ensures Complete(Complete(m, t1, s1, e1), t2, s2, e2) == Complete(m, t2, s2, e2)
  {
  }

  /** `add_api_call(tokens)`. */
  function AddApiCall(m: QualityMetrics, tokens: int): (r: QualityMetrics)
    ensures r.apiCalls == m.apiCalls + 1 && r.apiTokens == m.apiTokens + tokens
    ensures r.(apiCalls := m.apiCalls, apiTokens := m.apiTokens) == m
  {
    m.(apiCalls := m.apiCalls + 1, apiTokens := m.apiTokens + tokens)
  }

  /** `add_retry()`. */
  function AddRetry(m: QualityMetrics): (r: QualityMetrics)
    ensures r.retries == m.retries + 1
    ensures r.(retries := m.retries) == m
  {
    m.(retries := m.retries + 1)
  }

  /** `add_metric(name, value)`. */
  function AddMetric(m: QualityMetrics, name: string, value: real): (r: QualityMetrics)
    ensures name in r.customMetrics && r.customMetrics[name] == value
    ensures r.customMetrics.Keys == m.customMetrics.Keys + {name}
    ensures forall k :: k in m.customMetrics && k != name ==> r.customMetrics[k] == m.customMetrics[k]
    ensures r.(customMetrics := m.customMetrics) == m
  {
    m.(customMetrics := m.customMetrics[name := value])
  }

  /** Setting the same metric twice keeps the second value only. */
  lemma AddMetricOverwrites(m: QualityMetrics, name: string, v1: real, v2: real)
    ensures AddMetric(AddMetric(m, name, v1), name, v2) == AddMetric(m, name, v2)
  {
  }

  function Sum(xs: seq<int>): int
  {
    if xs == [] then 0 else xs[0] + Sum(xs[1..])
  }

  /** A run of `add_api_call` calls, in order. */
  function AddApiCalls(m: QualityMetrics, tokens: seq<int>): QualityMetrics
    decreases |tokens|
  {
    if tokens == [] then m else AddApiCalls(AddApiCall(m, tokens[0]), tokens[1..])
  }

  /** After `n` API calls the record counts `n` more calls and the sum of
      their tokens, and nothing else has changed. */
  lemma {:induction false} AddApiCallsCount(m: QualityMetrics, tokens: seq<int>)
    ensures AddApiCalls(m, tokens).apiCalls == m.apiCalls + |tokens|
    ensures AddApiCalls(m, tokens).apiTokens == m.apiTokens + Sum(tokens)
    ensures AddApiCalls(m, tokens).(apiCalls := m.apiCalls, apiTokens := m.apiTokens) == m
    decreases |tokens|
  {
    if tokens != [] {
      AddApiCallsCount(AddApiCall(m, tokens[0]), tokens[1..]);
    }
  }

  // ---------------------------------------------------------------------
  // to_dict
  // ---------------------------------------------------------------------

  /** The keys of `to_dict`, in its order. */
  const DictKeys: seq<string> :=
    ["operation", "duration", "success", "error", "retries",
     "input_size", "output_size", "api_calls", "api_tokens", "custom_metrics"]

  function OptionalReal(x: Option<real>): Json
  {
    match x case None => JNull case Some(v) => JReal(v)
  }

  function OptionalInt(x: Option<int>): Json
  {
    match x case None => JNull case Some(v) => JInt(v)
  }

  function OptionalStr(x: Option<string>): Json
  {
    match x case None => JNull case Some(v) => JStr(v)
  }

  /** The value `to_dict` stores under `key`. */
  function DictField(m: QualityMetrics, key: string): Json
  {
    if key == "operation" then JStr(m.operation)
    else if key == "duration" then OptionalReal(m.duration)
    else if key == "success" then JBool(m.success)
    else if key == "error" then OptionalStr(m.error)
    else if key == "retries" then JInt(m.retries)
    else if key == "input_size" then OptionalInt(m.inputSize)
    else if key == "output_size" then OptionalInt(m.outputSize)
    else if key == "api_calls" then JInt(m.apiCalls)
    else if key == "api_tokens" then JInt(m.apiTokens)
    else JObj(map k | k in m.customMetrics :: JReal(m.customMetrics[k]))
  }

  /** `to_dict()`. */
  function ToDict(m: QualityMetrics): Json
  {
    JObj(map k | k in DictKeys :: DictField(m, k))
  }

  /** `to_dict` exposes exactly the ten listed fields, without the start
      and end times. */
  lemma ToDictKeys(m: QualityMetrics)
    ensures forall k :: k in ToDict(m).fields <==> k in DictKeys
    ensures |DictKeys| == 10
    ensures "start_time" !in ToDict(m).fields && "end_time" !in ToDict(m).fields
  {
  }

  lemma ToDictLookup(m: QualityMetrics, i: nat)
    requires i < |DictKeys|
    ensures DictKeys[i] in ToDict(m).fields && ToDict(m).fields[DictKeys[i]] == DictField(m, DictKeys[i])
  {
  }

  /** The fields the summary reads back hold the record's own values. */
  lemma ToDictValues(m: QualityMetrics)
    ensures "operation" in ToDict(m).fields && ToDict(m).fields["operation"] == JStr(m.operation)
    ensures "success" in ToDict(m).fields && ToDict(m).fields["success"] == JBool(m.success)
    ensures "duration" in ToDict(m).fields && ToDict(m).fields["duration"] == OptionalReal(m.duration)
    ensures "retries" in ToDict(m).fields && ToDict(m).fields["retries"] == JInt(m.retries)
    ensures "api_calls" in ToDict(m).fields && ToDict(m).fields["api_calls"] == JInt(m.apiCalls)
    ensures "api_tokens" in ToDict(m).fields && ToDict(m).fields["api_tokens"] == JInt(m.apiTokens)
  {
    ToDictLookup(m, 0);
    ToDictLookup(m, 1);
    ToDictLookup(m, 2);
    ToDictLookup(m, 4);
    ToDictLookup(m, 7);
    ToDictLookup(m, 8);
  }

  // ---------------------------------------------------------------------
  // The metrics directory
  // ---------------------------------------------------------------------

  /** A file's content as `json.load` sees it. */
  datatype Content = Unparseable | Parsed(json: Json)

  datatype StoredFile = StoredFile(content: Content, mtime: real)

  /** The `*.json` files of the metrics directory, by file stem. */
  type Store = map<string, StoredFile>

  /** `save_metrics` returns nothing but finishes the record it was given. */
  datatype Saved = Saved(store: Store, metrics: QualityMetrics)

  /** `if not metrics.end_time`: the record is unfinished. */
  predicate Unfinished(m: QualityMetrics)
  {
    m.endTime.None? || m.endTime == Some(0.0)
  }

  /** The file stem `save_metrics` writes to. */
  function SaveKey(operation: string, stamp: string): (k: string)
    ensures StartsWith(k, operation)
  {
    operation + "_" + stamp
  }

  /** How the `with open(filepath, "w")` block of `save_metrics` ends:
      the document is written; `open` raises before creating anything; or
      `open` has created or truncated the file and `to_json` or `write`
      then raises, leaving an empty or cut-off document that `json.load`
      cannot parse. The exception is logged either way. */
  datatype WriteOutcome = Written | OpenFailed | WriteFailed

  /** `save_metrics(metrics)` at time `now` with `strftime` giving `stamp`,
      the write ending as `outcome` says. */
  function Save(store: Store, m: QualityMetrics, now: real, stamp: string, outcome: WriteOutcome): (r: Saved)
    ensures r.metrics.endTime.Some?
    ensures Unfinished(m) ==> r.metrics == Complete(m, now, true, None)
    ensures !Unfinished(m) ==> r.metrics == m
    ensures !outcome.OpenFailed? ==> r.store.Keys == store.Keys + {SaveKey(m.operation, stamp)}
    ensures outcome.Written? ==> r.store[SaveKey(m.operation, stamp)] == StoredFile(Parsed(ToDict(r.metrics)), now)
    ensures outcome.WriteFailed? ==> r.store[SaveKey(m.operation, stamp)] == StoredFile(Unparseable, now)
    ensures !outcome.OpenFailed? ==>
              forall k :: k in store && k != SaveKey(m.operation, stamp) ==> r.store[k] == store[k]
    ensures outcome.OpenFailed? ==> r.store == store
  {
    var finished := if Unfinished(m) then Complete(m, now, true, None) else m;
    var key := SaveKey(m.operation, stamp);
    var store' := match outcome
      case Written => store[key := StoredFile(Parsed(ToDict(finished)), now)]
      case WriteFailed => store[key := StoredFile(Unparseable, now)]
      case OpenFailed => store;
    Saved(store', finished)
  }

  /** A write that fails after `open` in the same second as an earlier save
      of the same operation destroys that earlier record: the summary no
      longer sees it. */
  lemma FailedWriteLosesRecord(store: Store, m1: QualityMetrics, m2: QualityMetrics, t1: real, t2: real,
                               stamp: string)
    requires m1.operation == m2.operation
    ensures var r := Save(Save(store, m1, t1, stamp, Written).store, m2, t2, stamp, WriteFailed).store;
            SaveKey(m1.operation, stamp) in r && r[SaveKey(m1.operation, stamp)].content == Unparseable
  {
  }

  /** Two saves of the same operation in the same second share one file:
      the second overwrites the first. */
  lemma SameSecondOverwrites(store: Store, m1: QualityMetrics, m2: QualityMetrics, t1: real, t2: real, stamp: string)
    requires m1.operation == m2.operation
    ensures var once := Save(store, m2, t2, stamp, Written).store;
            var twice := Save(Save(store, m1, t1, stamp, Written).store, m2, t2, stamp, Written).store;
            twice == once
  {
  }

  /** Saves in different seconds, or of different operations, keep both. */
  lemma DistinctKeysKeepBoth(store: Store, m1: QualityMetrics, m2: QualityMetrics, t1: real, t2: real, s1: string, s2: string)
    requires SaveKey(m1.operation, s1) != SaveKey(m2.operation, s2)
    ensures var r := Save(Save(store, m1, t1, s1, Written).store, m2, t2, s2, Written).store;
            SaveKey(m1.operation, s1) in r && SaveKey(m2.operation, s2) in r
            && r[SaveKey(m1.operation, s1)] == Save(store, m1, t1, s1, Written).store[SaveKey(m1.operation, s1)]
  {
  }

  // ---------------------------------------------------------------------
  // get_metrics_summary
  // ---------------------------------------------------------------------

  /** One file as `glob` lists it. */
  datatype Listed = Listed(stem: string, content: Content)

  /** The running totals of the summary loop. */
  datatype Totals = Totals(operations: nat, successes: nat, duration: real, retries: real,
                           apiCalls: real, apiTokens: real)

  const Zero: Totals := Totals(0, 0, 0.0, 0.0, 0.0, 0.0)

  function Plus(a: Totals, b: Totals): Totals
  {
    Totals(a.operations + b.operations, a.successes + b.successes, a.duration + b.duration,
           a.retries + b.retries, a.apiCalls + b.apiCalls, a.apiTokens + b.apiTokens)
  }

  /** `total += value` for a decoded JSON value: numbers and booleans add,
      anything else raises `TypeError`. */
  function AsNumber(v: Json): Option<real>
  {
    match v
    case JInt(i) => Some(i as real)
    case JReal(r) => Some(r)
    case JBool(b) => Some(if b then 1.0 else 0.0)
    case _ => None
  }

  /** `metrics.get(key, 0)`. */
  function Get(fields: map<string, Json>, key: string): Json
  {
    if key in fields then fields[key] else JInt(0)
  }

  /** What one file adds to the totals. An unparseable file adds nothing;
      a parsed one is counted first, and each later step (the `success`
      lookup, then the four additions in order) happens only if the ones
      before it did not raise. */
  function Contribution(c: Content): (t: Totals)
    ensures c.Unparseable? ==> t == Zero
    ensures c.Parsed? ==> t.operations == 1 && t.successes <= 1
    ensures c.Parsed? && (!c.json.JObj? || "success" !in c.json.fields) ==> t == Totals(1, 0, 0.0, 0.0, 0.0, 0.0)
  {
    match c
    case Unparseable => Zero
    case Parsed(j) =>
      if !j.JObj? || "success" !in j.fields then Totals(1, 0, 0.0, 0.0, 0.0, 0.0)
      else
        var fs := j.fields;
        var s := if fs["success"].Truthy() then 1 else 0;
        match AsNumber(Get(fs, "duration"))
        case None => Totals(1, s, 0.0, 0.0, 0.0, 0.0)
        case Some(d) =>
          match AsNumber(Get(fs, "retries"))
          case None => Totals(1, s, d, 0.0, 0.0, 0.0)
          case Some(r) =>
            match AsNumber(Get(fs, "api_calls"))
            case None => Totals(1, s, d, r, 0.0, 0.0)
            case Some(a) =>
              match AsNumber(Get(fs, "api_tokens"))
              case None => Totals(1, s, d, r, a, 0.0)
              case Some(k) => Totals(1, s, d, r, a, k)
  }

  /** `if operation:` then keep the stems starting with it. */
  predicate Selected(stem: string, operation: Option<string>)
  {
    operation.None? || operation.value == "" || StartsWith(stem, operation.value)
  }

  /** What one listed file adds, after the operation filter. */
  function Counted(f: Listed, operation: Option<string>): Totals
  {
    if Selected(f.stem, operation) then Contribution(f.content) else Zero
  }

  /** The totals of `f` over `files`, scanned in order. */
  function Fold(files: seq<Listed>, f: Listed -> Totals): Totals
  {
    if files == [] then Zero else Plus(f(files[0]), Fold(files[1..], f))
  }

  lemma PlusZero(x: Totals)
    ensures Plus(Zero, x) == x && Plus(x, Zero) == x
  {
  }

  lemma PlusAssociative(x: Totals, y: Totals, z: Totals)
    ensures Plus(Plus(x, y), z) == Plus(x, Plus(y, z))
  {
  }

  lemma {:induction false} FoldAppend(a: seq<Listed>, b: seq<Listed>, f: Listed -> Totals)
    ensures Fold(a + b, f) == Plus(Fold(a, f), Fold(b, f))
  {
    if a == [] {
      assert a + b == b;
      PlusZero(Fold(b, f));
    } else {
      assert (a + b)[1..] == a[1..] + b;
      assert (a + b)[0] == a[0];
      FoldAppend(a[1..], b, f);
      PlusAssociative(f(a[0]), Fold(a[1..], f), Fold(b, f));
    }
  }

  lemma FoldOne(x: Listed, f: Listed -> Totals)
    ensures Fold([x], f) == f(x)
  {
    assert [x][1..] == [];
  }

  lemma FoldSnoc(a: seq<Listed>, x: Listed, f: Listed -> Totals)
    ensures Fold(a + [x], f) == Plus(Fold(a, f), f(x))
  {
    FoldAppend(a, [x], f);
    FoldOne(x, f);
  }

  /** Totals do not depend on the order of the files. */
  lemma {:induction false} FoldPermutation(a: seq<Listed>, b: seq<Listed>, f: Listed -> Totals)
    requires multiset(a) == multiset(b)
    ensures Fold(a, f) == Fold(b, f)
    decreases |a|
  {
    if a == [] {
      assert |b| == |multiset(b)| == 0;
    } else {
      assert a[0] in multiset(b);
      var i :| 0 <= i < |b| && b[i] == a[0];
      var rest := b[..i] + b[i + 1..];
      RemoveMatching(a, b, i);
      FoldPermutation(a[1..], rest, f);
      FoldRemove(b, i, f);
    }
  }

  /** Taking the first element off `a` and a copy of it off `b` keeps the
      two multisets equal. */
  lemma RemoveMatching(a: seq<Listed>, b: seq<Listed>, i: nat)
    requires multiset(a) == multiset(b) && a != [] && i < |b| && b[i] == a[0]
    ensures multiset(a[1..]) == multiset(b[..i] + b[i + 1..])
  {
    var x := a[0];
    var rest := b[..i] + b[i + 1..];
    assert b == b[..i] + [x] + b[i + 1..];
    assert a == [x] + a[1..];
    assert multiset(a) == multiset{x} + multiset(a[1..]);
    assert multiset(b) == multiset(b[..i]) + multiset{x} + multiset(b[i + 1..]);
    assert multiset(rest) == multiset(b[..i]) + multiset(b[i + 1..]);
    forall y
      ensures multiset(a[1..])[y] == multiset(rest)[y]
    {
      calc {
        multiset(a[1..])[y];
        multiset(a)[y] - multiset{x}[y];
        multiset(b)[y] - multiset{x}[y];
        multiset(rest)[y];
      }
    }
  }

  /** The totals over `b` are those of its i-th element plus those of the rest. */
  lemma FoldRemove(b: seq<Listed>, i: nat, f: Listed -> Totals)
    requires i < |b|
    ensures Fold(b, f) == Plus(f(b[i]), Fold(b[..i] + b[i + 1..], f))
  {
    var x := b[i];
    assert b == b[..i] + [x] + b[i + 1..];
    FoldAppend(b[..i] + [x], b[i + 1..], f);
    FoldSnoc(b[..i], x, f);
    FoldAppend(b[..i], b[i + 1..], f);
    Rotate(Fold(b[..i], f), f(x), Fold(b[i + 1..], f));
  }

  lemma Rotate(p: Totals, q: Totals, r: Totals)
    ensures Plus(Plus(p, q), r) == Plus(q, Plus(p, r))
  {
  }

  /** `Counted` for a fixed filter, as a function value. */
  function CountedBy(operation: Option<string>): Listed -> Totals
  {
    (x: Listed) => Counted(x, operation)
  }

  /** The totals after scanning `files` in order. */
  function TotalsOf(files: seq<Listed>, operation: Option<string>): Totals
  {
    Fold(files, CountedBy(operation))
  }

  /** The dictionary `get_metrics_summary` returns. */
  datatype Summary = Summary(totalOperations: nat, successRate: real, averageDuration: real,
                             averageRetries: real, totalApiCalls: real, totalApiTokens: real)

  /** `x / n if n > 0 else 0`. */
  function Ratio(x: real, n: nat): (r: real)
    ensures n == 0 ==> r == 0.0
    ensures n > 0 ==> r * n as real == x
  {
    if n > 0 then x / n as real else 0.0
  }

  function Report(t: Totals): Summary
  {
    Summary(t.operations, Ratio(t.successes as real, t.operations), Ratio(t.duration, t.operations),
            Ratio(t.retries, t.operations), t.apiCalls, t.apiTokens)
  }

  /** `get_metrics_summary(operation)` over the files as `glob` lists them. */
  function GetMetricsSummary(files: seq<Listed>, operation: Option<string>): Summary
  {
    Report(TotalsOf(files, operation))
  }

  /** One pass of the loop body on `f`, as `get_metrics_summary` runs it: the counter
      first, then the `success` lookup, then the four additions, dropping
      the rest of the file's steps at the first exception. */
  method Step(f: Listed, operation: Option<string>, t: Totals) returns (u: Totals)
    ensures u == Plus(t, Counted(f, operation))
  {
    u := t;
    if Selected(f.stem, operation) && f.content.Parsed? {
      var j := f.content.json;
      u := u.(operations := u.operations + 1);
      if j.JObj? && "success" in j.fields {
        var fs := j.fields;
        if fs["success"].Truthy() {
          u := u.(successes := u.successes + 1);
        }
        var d := AsNumber(Get(fs, "duration"));
        if d.Some? {
          u := u.(duration := u.duration + d.value);
          var r := AsNumber(Get(fs, "retries"));
          if r.Some? {
            u := u.(retries := u.retries + r.value);
            var a := AsNumber(Get(fs, "api_calls"));
            if a.Some? {
              u := u.(apiCalls := u.apiCalls + a.value);
              var k := AsNumber(Get(fs, "api_tokens"));
              if k.Some? {
                u := u.(apiTokens := u.apiTokens + k.value);
              }
            }
          }
        }
      }
    }
  }

  /** The summary loop over the listed files. */
  method SummaryLoop(files: seq<Listed>, operation: Option<string>) returns (s: Summary)
    ensures s == GetMetricsSummary(files, operation)
  {
    var t := Zero;
    var i := 0;
    while i < |files|
      invariant 0 <= i <= |files|
      invariant t == TotalsOf(files[..i], operation)
    {
      FoldSnoc(files[..i], files[i], CountedBy(operation));
      assert files[..i + 1] == files[..i] + [files[i]];
      t := Step(files[i], operation, t);
      i := i + 1;
    }
    assert files[..|files|] == files;
    s := Report(t);
  }

  lemma SummaryIgnoresOrder(a: seq<Listed>, b: seq<Listed>, operation: Option<string>)
    requires multiset(a) == multiset(b)
    ensures GetMetricsSummary(a, operation) == GetMetricsSummary(b, operation)
  {
    FoldPermutation(a, b, CountedBy(operation));
  }

  /** Files the filter rejects, and files that do not parse, change nothing. */
  lemma {:induction false} SummarySkips(files: seq<Listed>, other: seq<Listed>, operation: Option<string>)
    requires forall i :: 0 <= i < |other| ==> !Selected(other[i].stem, operation) || other[i].content.Unparseable?
    ensures GetMetricsSummary(files + other, operation) == GetMetricsSummary(files, operation)
  {
    FoldAppend(files, other, CountedBy(operation));
    NothingCounted(other, operation);
    PlusZero(TotalsOf(files, operation));
  }

  lemma {:induction false} NothingCounted(other: seq<Listed>, operation: Option<string>)
    requires forall i :: 0 <= i < |other| ==> !Selected(other[i].stem, operation) || other[i].content.Unparseable?
    ensures TotalsOf(other, operation) == Zero
  {
    if other != [] {
      NothingCounted(other[1..], operation);
      assert Counted(other[0], operation) == Zero;
    }
  }

  /** A parsed file without `success` is counted as an operation and adds
      nothing else, and the scan goes on past it. */
  lemma {:induction false} MissingSuccessCountsOnly(files: seq<Listed>, stem: string, fields: map<string, Json>, more: seq<Listed>,
                                 operation: Option<string>)
    requires "success" !in fields && Selected(stem, operation)
    ensures var t := TotalsOf(files + [Listed(stem, Parsed(JObj(fields)))] + more, operation);
            var u := Plus(TotalsOf(files, operation), TotalsOf(more, operation));
            t == u.(operations := u.operations + 1)
  {
    var x := Listed(stem, Parsed(JObj(fields)));
    var f := CountedBy(operation);
    assert f(x) == Counted(x, operation) == Totals(1, 0, 0.0, 0.0, 0.0, 0.0);
    FoldSnoc(files, x, f);
    FoldAppend(files + [x], more, f);
    assert Fold(files + [x] + more, f) == Plus(Plus(Fold(files, f), f(x)), Fold(more, f));
    PlusOne(Fold(files, f), Fold(more, f));
  }

  lemma PlusOne(p: Totals, q: Totals)
    ensures Plus(Plus(p, Totals(1, 0, 0.0, 0.0, 0.0, 0.0)), q) == Plus(p, q).(operations := Plus(p, q).operations + 1)
  {
  }

  // The summary of records written by `save_metrics`.

  function Successes(ms: seq<QualityMetrics>): nat
  {
    if ms == [] then 0 else (if ms[0].success then 1 else 0) + Successes(ms[1..])
  }

  function TotalDuration(ms: seq<QualityMetrics>): real
    requires forall i :: 0 <= i < |ms| ==> ms[i].duration.Some?
  {
    if ms == [] then 0.0 else ms[0].duration.value + TotalDuration(ms[1..])
  }

  function TotalRetries(ms: seq<QualityMetrics>): int
  {
    if ms == [] then 0 else ms[0].retries + TotalRetries(ms[1..])
  }

  function TotalApiCalls(ms: seq<QualityMetrics>): int
  {
    if ms == [] then 0 else ms[0].apiCalls + TotalApiCalls(ms[1..])
  }

  function TotalApiTokens(ms: seq<QualityMetrics>): int
  {
    if ms == [] then 0 else ms[0].apiTokens + TotalApiTokens(ms[1..])
  }

  /** `files` are the files `save_metrics` wrote for `ms`, in order. */
  predicate SavedAs(files: seq<Listed>, ms: seq<QualityMetrics>)
  {
    |files| == |ms| && forall i :: 0 <= i < |files| ==> files[i].content == Parsed(ToDict(ms[i]))
  }

  /** A finished record contributes exactly its own counters. */
  lemma ContributionOfSaved(m: QualityMetrics)
    requires m.duration.Some?
    ensures Contribution(Parsed(ToDict(m)))
            == Totals(1, if m.success then 1 else 0, m.duration.value, m.retries as real,
                      m.apiCalls as real, m.apiTokens as real)
  {
    ToDictValues(m);
  }

  lemma CountedOfSaved(f: Listed, m: QualityMetrics)
    requires f.content == Parsed(ToDict(m)) && m.duration.Some?
    ensures Counted(f, None)
            == Totals(1, if m.success then 1 else 0, m.duration.value, m.retries as real,
                      m.apiCalls as real, m.apiTokens as real)
  {
    ContributionOfSaved(m);
  }

  lemma {:induction false} TotalsOfSaved(files: seq<Listed>, ms: seq<QualityMetrics>)
    requires SavedAs(files, ms)
    requires forall i :: 0 <= i < |ms| ==> ms[i].duration.Some?
    ensures TotalsOf(files, None)
            == Totals(|ms|, Successes(ms), TotalDuration(ms), TotalRetries(ms) as real,
                      TotalApiCalls(ms) as real, TotalApiTokens(ms) as real)
  {
    if ms != [] {
      TotalsOfSaved(files[1..], ms[1..]);
      CountedOfSaved(files[0], ms[0]);
    }
  }

  /** Over records that `save_metrics` wrote, the summary counts every
      record, its success rate is the share of successful ones, and its
      averages and totals are those of the records' own fields. */
  lemma {:induction false} SummaryOfSaved(files: seq<Listed>, ms: seq<QualityMetrics>)
    requires SavedAs(files, ms)
    requires forall i :: 0 <= i < |ms| ==> ms[i].duration.Some?
    ensures GetMetricsSummary(files, None)
            == Summary(|ms|, Ratio(Successes(ms) as real, |ms|), Ratio(TotalDuration(ms), |ms|),
                       Ratio(TotalRetries(ms) as real, |ms|), TotalApiCalls(ms) as real, TotalApiTokens(ms) as real)
  {
    TotalsOfSaved(files, ms);
  }

  /** With nothing counted, all three ratios are 0. */
  lemma EmptySummary(files: seq<Listed>, operation: Option<string>)
    requires TotalsOf(files, operation).operations == 0
    ensures var s := GetMetricsSummary(files, operation);
            s.totalOperations == 0 && s.successRate == 0.0 && s.averageDuration == 0.0 && s.averageRetries == 0.0
  {
  }

  // ---------------------------------------------------------------------
  // cleanup_old_metrics
  // ---------------------------------------------------------------------

  /** `days * 24 * 60 * 60` seconds before `now`. */
  function Cutoff(now: real, days: int): real
  {
    now - (days * 24 * 60 * 60) as real
  }

  /** `cleanup_old_metrics(days)` at time `now`: each file older than the
      cutoff is deleted. */
  function Cleanup(store: Store, now: real, days: int): (r: Store)
    ensures forall k :: k in r <==> k in store && !(store[k].mtime < Cutoff(now, days))
    ensures forall k :: k in r ==> r[k] == store[k]
  {
    map k | k in store && !(store[k].mtime < Cutoff(now, days)) :: store[k]
  }

  /** Cleaning twice at the same time removes nothing more. */
  lemma CleanupIdempotent(store: Store, now: real, days: int)
    ensures Cleanup(Cleanup(store, now, days), now, days) == Cleanup(store, now, days)
  {
  }

  /** A later cleanup, or a shorter retention, keeps a subset. */
  lemma CleanupMonotone(store: Store, now1: real, days1: int, now2: real, days2: int)
    requires Cutoff(now1, days1) <= Cutoff(now2, days2)
    ensures Cleanup(store, now2, days2).Keys <= Cleanup(store, now1, days1).Keys
  {
  }

  /** A record saved at the time of the cleanup survives it, whatever the
      retention. */
  lemma FreshSaveSurvives(store: Store, m: QualityMetrics, now: real, stamp: string, days: nat)
    ensures SaveKey(m.operation, stamp) in Cleanup(Save(store, m, now, stamp, Written).store, now, days)
  {
  }
}
