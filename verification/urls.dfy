/** The part of Python's `urllib.parse` that `extract_video_id` relies on:
    `urlparse` as CPython 3.12 computes it through `urlsplit`, and
    `parse_qs` with its default arguments. */
module Urls {
  import opened Base
  import opened Text

  // ---------------------------------------------------------------------
  // Searching and cutting
  // ---------------------------------------------------------------------

  /** The position of the first character of `s` that occurs in `cs`, or
      `|s|` when there is none (`str.find`, with `|s|` standing for -1). */
  function FindAny(s: string, cs: string): (i: nat)
    ensures i <= |s|
    ensures forall j :: 0 <= j < i ==> s[j] !in cs
    ensures i < |s| ==> s[i] in cs
  {
    if |s| == 0 || s[0] in cs then 0 else 1 + FindAny(s[1..], cs)
  }

  /** `s.split(c, 1)` when `c` occurs in `s`, and `(s, "")` otherwise: what
      comes before the first `c`, and what comes after it. */
  function Cut(s: string, c: char): (r: (string, string))
    ensures StartsWith(s, r.0) && c !in r.0
    ensures |r.0| < |s| ==> s[|r.0|] == c && r.1 == s[|r.0| + 1..]
    ensures |r.0| == |s| ==> r.1 == ""
  {
    var i := FindAny(s, [c]);
    if i < |s| then (s[..i], s[i + 1..]) else (s, "")
  }

  /** The position of the last `c` in `s` (`str.rfind`). */
  function LastIndex(s: string, c: char): (i: nat)
    requires c in s
    ensures i < |s| && s[i] == c
    ensures forall j :: i < j < |s| ==> s[j] != c
    decreases |s|
  {
    if s[|s| - 1] == c then |s| - 1
    else
      assert c in s[..|s| - 1] by {
        var k :| 0 <= k < |s| && s[k] == c;
        assert s[..|s| - 1][k] == c;
      }
      LastIndex(s[..|s| - 1], c)
  }

  lemma {:induction false} FindAnyAppend(a: string, b: string, cs: string)
    requires forall j :: 0 <= j < |a| ==> a[j] !in cs
    ensures FindAny(a + b, cs) == |a| + FindAny(b, cs)
    decreases |a|
  {
    if a != [] {
      assert (a + b)[0] == a[0];
      assert (a + b)[1..] == a[1..] + b;
      FindAnyAppend(a[1..], b, cs);
    } else {
      assert a + b == b;
    }
  }

  /** Cutting at a character the head does not hold cuts inside the tail. */
  lemma CutAppend(a: string, b: string, c: char)
    requires c !in a
    ensures Cut(a + b, c) == (a + Cut(b, c).0, Cut(b, c).1)
  {
    FindAnyAppend(a, b, [c]);
    var i := FindAny(b, [c]);
    if i < |b| {
      assert (a + b)[..|a| + i] == a + b[..i];
      assert (a + b)[|a| + i + 1..] == b[i + 1..];
    } else {
      assert b[..i] == b;
    }
  }

  /** Cutting at the first occurrence of a character. */
  lemma CutAtFirst(a: string, c: char, b: string)
    requires c !in a
    ensures Cut(a + [c] + b, c) == (a, b)
  {
    var s := a + [c] + b;
    FindAnyAppend(a, [c] + b, [c]);
    assert s == a + ([c] + b);
    assert FindAny([c] + b, [c]) == 0;
    assert s[..|a|] == a && s[|a| + 1..] == b;
  }

  /** Cutting at a character that does not occur changes nothing. */
  lemma CutAbsent(s: string, c: char)
    requires c !in s
    ensures Cut(s, c) == (s, "")
  {
  }

  /** A head free of the cut character survives the cut. */
  lemma CutKeeps(s: string, c: char, q: string)
    requires StartsWith(s, q) && c !in q
    ensures StartsWith(Cut(s, c).0, q)
  {
    var r := Cut(s, c).0;
    assert r[..|q|] == s[..|q|];
  }

  // ---------------------------------------------------------------------
  // Cleaning the input
  // ---------------------------------------------------------------------

  /** `_WHATWG_C0_CONTROL_OR_SPACE`: the characters up to the space. */
  predicate IsControlOrSpace(c: char)
  {
    c <= ' '
  }

  /** `url.lstrip(_WHATWG_C0_CONTROL_OR_SPACE)`. */
  function LStripControls(s: string): (r: string)
    ensures |r| <= |s| && r == s[|s| - |r|..]
    ensures r == [] || !IsControlOrSpace(r[0])
  {
    if |s| > 0 && IsControlOrSpace(s[0]) then LStripControls(s[1..]) else s
  }

  /** `_UNSAFE_URL_BYTES_TO_REMOVE`: tab, carriage return and line feed. */
  predicate IsUnsafe(c: char)
  {
    c == '\t' || c == '\r' || c == '\n'
  }

  /** `url` with every unsafe character removed, wherever it stands. */
  function RemoveUnsafe(s: string): string
  {
    if s == [] then [] else (if IsUnsafe(s[0]) then [] else [s[0]]) + RemoveUnsafe(s[1..])
  }

  lemma {:induction false} RemoveUnsafeAppend(a: string, b: string)
    ensures RemoveUnsafe(a + b) == RemoveUnsafe(a) + RemoveUnsafe(b)
    decreases |a|
  {
    if a == [] {
      assert a + b == b;
    } else {
      assert (a + b)[0] == a[0];
      assert (a + b)[1..] == a[1..] + b;
      RemoveUnsafeAppend(a[1..], b);
    }
  }

  /** Text without unsafe characters is left alone. */
  lemma {:induction false} RemoveUnsafeOfSafe(s: string)
    requires forall i :: 0 <= i < |s| ==> !IsUnsafe(s[i])
    ensures RemoveUnsafe(s) == s
    decreases |s|
  {
    if s != [] {
      RemoveUnsafeOfSafe(s[1..]);
      assert [s[0]] + s[1..] == s;
    }
  }

  /** No unsafe character is left. */
  lemma {:induction false} RemoveUnsafeIsSafe(s: string)
    ensures forall i :: 0 <= i < |RemoveUnsafe(s)| ==> !IsUnsafe(RemoveUnsafe(s)[i])
    decreases |s|
  {
    if s != [] {
      RemoveUnsafeIsSafe(s[1..]);
    }
  }

  /** When `lstrip()` stops at a visible character, the stripping of
      controls and spaces stops there too: every whitespace character is a
      control character or the space. */
  lemma {:induction false} LStripControlsOfLStrip(s: string)
    requires LStrip(s) != [] && !IsControlOrSpace(LStrip(s)[0])
    ensures LStripControls(s) == LStrip(s)
    decreases |s|
  {
    if |s| > 0 && IsSpace(s[0]) {
      LStripControlsOfLStrip(s[1..]);
    }
  }

  // ---------------------------------------------------------------------
  // urlsplit and urlparse
  // ---------------------------------------------------------------------

  predicate IsAsciiLetter(c: char)
  {
    'a' <= c <= 'z' || 'A' <= c <= 'Z'
  }

  /** `scheme_chars`: letters, digits and `+-.`. */
  predicate IsSchemeChar(c: char)
  {
    IsAsciiLetter(c) || '0' <= c <= '9' || c == '+' || c == '-' || c == '.'
  }

  /** `s.lower()` on ASCII text. */
  function Lower(s: string): string
  {
    seq(|s|, i requires 0 <= i < |s| => if 'A' <= s[i] <= 'Z' then (s[i] as int + 32) as char else s[i])
  }

  /** The scheme and what follows its `:`. A scheme is taken only when the
      text before the first `:` is non-empty, starts with a letter and
      holds scheme characters only; it is lower-cased. */
  function SplitScheme(u: string): (r: (string, string))
  {
    var i := FindAny(u, ":");
    if 0 < i < |u| && IsAsciiLetter(u[0]) && forall j :: 0 <= j < i ==> IsSchemeChar(u[j])
    then (Lower(u[..i]), u[i + 1..])
    else ("", u)
  }

  datatype SplitResult = SplitResult(scheme: string, netloc: string, path: string, query: string, fragment: string)

  datatype ParseResult =
    ParseResult(scheme: string, netloc: string, path: string, params: string, query: string, fragment: string)

  /** The path, query and fragment of what follows the network location:
      the fragment after the first `#`, then the query after the first `?`
      before it. */
  function SplitRest(scheme: string, netloc: string, rest: string): (r: SplitResult)
    ensures r.scheme == scheme && r.netloc == netloc
    ensures '?' !in r.path && '#' !in r.path && '#' !in r.query
  {
    var (beforeFragment, fragment) := Cut(rest, '#');
    var (path, query) := Cut(beforeFragment, '?');
    assert '#' !in path by { assert StartsWith(beforeFragment, path); }
    assert '#' !in query by {
      if |path| < |beforeFragment| {
        assert query == beforeFragment[|path| + 1..];
      }
    }
    SplitResult(scheme, netloc, path, query, fragment)
  }

  /** `urlsplit(u)` for a cleaned `u`: the scheme; after `//`, the network
      location up to the first `/`, `?` or `#`; then the path, query and
      fragment. A location with one bracket and not the other raises
      `ValueError`. */
  function SplitClean(u: string): (r: Result<SplitResult, string>)
    ensures r.Success? ==> forall j :: 0 <= j < |r.value.netloc| ==> r.value.netloc[j] !in "/?#"
    ensures r.Success? ==> '?' !in r.value.path && '#' !in r.value.path && '#' !in r.value.query
  {
    var (scheme, afterScheme) := SplitScheme(u);
    var (netloc, rest) :=
      if StartsWith(afterScheme, "//") then
        var d := 2 + FindAny(afterScheme[2..], "/?#");
        (afterScheme[2..d], afterScheme[d..])
      else ("", afterScheme);
    if ('[' in netloc) != (']' in netloc) then Failure("Invalid IPv6 URL")
    else Success(SplitRest(scheme, netloc, rest))
  }

  /** `urlsplit(url)`: leading controls and spaces are stripped, then tabs
      and newlines are removed everywhere. */
  function UrlSplit(url: string): Result<SplitResult, string>
  {
    SplitClean(RemoveUnsafe(LStripControls(url)))
  }

  /** `uses_params`: the schemes whose paths may carry `;` parameters. */
  const UsesParams: seq<string> :=
    ["", "ftp", "hdl", "prospero", "http", "imap", "https", "shttp", "rtsp", "rtsps", "rtspu",
     "sip", "sips", "mms", "sftp", "tel"]

  /** `_splitparams(path)`: the parameters start at the first `;` after the
      last `/`, or at the first `;` when there is no `/`. */
  function SplitParams(path: string): (r: (string, string))
    ensures StartsWith(path, r.0)
    ensures |r.0| == |path| || path[|r.0|] == ';'
  {
    if '/' in path then
      var from := LastIndex(path, '/');
      var i := from + FindAny(path[from..], ";");
      if i < |path| then (path[..i], path[i + 1..]) else (path, "")
    else Cut(path, ';')
  }

  /** The parameters of the last path segment split off when the scheme
      uses them. */
  function ParseOf(s: SplitResult): (r: ParseResult)
    ensures r.scheme == s.scheme && r.netloc == s.netloc && r.query == s.query && r.fragment == s.fragment
    ensures StartsWith(s.path, r.path)
  {
    var (path, params) := if s.scheme in UsesParams && ';' in s.path then SplitParams(s.path) else (s.path, "");
    ParseResult(s.scheme, s.netloc, path, params, s.query, s.fragment)
  }

  /** `urlparse(u)` for a cleaned `u`. */
  function ParseClean(u: string): Result<ParseResult, string>
  {
    match SplitClean(u)
    case Failure(e) => Failure(e)
    case Success(s) => Success(ParseOf(s))
  }

  /** `urlparse(url)`. */
  function UrlParse(url: string): Result<ParseResult, string>
  {
    ParseClean(RemoveUnsafe(LStripControls(url)))
  }

  /** A head free of `;` survives the parameter split. */
  lemma ParamsKeep(path: string, q: string)
    requires StartsWith(path, q) && ';' !in q
    ensures StartsWith(SplitParams(path).0, q)
  {
    var r := SplitParams(path).0;
    assert r[..|q|] == path[..|q|];
  }

  // ---------------------------------------------------------------------
  // parse_qs
  // ---------------------------------------------------------------------

  predicate IsHexDigit(c: char)
  {
    '0' <= c <= '9' || 'a' <= c <= 'f' || 'A' <= c <= 'F'
  }

  function HexValue(c: char): (v: nat)
    requires IsHexDigit(c)
    ensures v < 16
  {
    if '0' <= c <= '9' then c as int - '0' as int
    else if 'a' <= c <= 'f' then c as int - 'a' as int + 10
    else c as int - 'A' as int + 10
  }

  /** `unquote(s)`: a `%` followed by two hex digits naming an ASCII
      character becomes that character; any other `%` stays as it is. */
  function Unquote(s: string): string
    decreases |s|
  {
    if s == [] then []
    else if s[0] == '%' && |s| >= 3 && IsHexDigit(s[1]) && IsHexDigit(s[2]) && HexValue(s[1]) < 8
    then [(HexValue(s[1]) * 16 + HexValue(s[2])) as char] + Unquote(s[3..])
    else [s[0]] + Unquote(s[1..])
  }

  /** `s.replace('+', ' ')`. */
  function PlusToSpace(s: string): string
  {
    seq(|s|, i requires 0 <= i < |s| => if s[i] == '+' then ' ' else s[i])
  }

  /** The fields of `parse_qsl` with its defaults: an empty field, a field
      without `=` and a field whose value is empty are dropped; the name and
      the value have `+` read as a space and escapes decoded. */
  function Fields(pieces: seq<string>): seq<(string, string)>
  {
    if pieces == [] then []
    else
      var (name, value) := Cut(pieces[0], '=');
      (if '=' in pieces[0] && value != "" then [(Unquote(PlusToSpace(name)), Unquote(PlusToSpace(value)))] else [])
      + Fields(pieces[1..])
  }

  /** `parse_qsl(qs)`: the fields are separated by `&`. */
  function ParseQsl(qs: string): seq<(string, string)>
  {
    if qs == "" then [] else Fields(Split(qs, "&"))
  }

  /** The first value recorded for `name`, as `parse_qs` keeps the values
      of each name in order. */
  function Lookup(pairs: seq<(string, string)>, name: string): (r: Option<string>)
    ensures r.Some? ==> (name, r.value) in pairs
    ensures r.None? ==> forall i :: 0 <= i < |pairs| ==> pairs[i].0 != name
  {
    if pairs == [] then None
    else if pairs[0].0 == name then Some(pairs[0].1)
    else Lookup(pairs[1..], name)
  }

  /** `parse_qs(qs).get(name, [None])[0]`. */
  function QueryValue(qs: string, name: string): Option<string>
  {
    Lookup(ParseQsl(qs), name)
  }

  /** Text without `%` is not touched by the decoding. */
  lemma {:induction false} UnquoteOfPlain(w: string, x: string)
    requires '%' !in w
    ensures Unquote(w + x) == w + Unquote(x)
    decreases |w|
  {
    if w != [] {
      var s := w + x;
      assert s[0] == w[0] && s[1..] == w[1..] + x;
      UnquoteOfPlain(w[1..], x);
      assert [w[0]] + w[1..] == w;
    } else {
      assert w + x == x;
    }
  }

  /** A head without `+` survives the replacement. */
  lemma PlusToSpaceKeeps(s: string, w: string)
    requires StartsWith(s, w) && '+' !in w
    ensures StartsWith(PlusToSpace(s), w)
  {
    var t := PlusToSpace(s);
    forall i | 0 <= i < |w|
      ensures t[i] == w[i]
    {
      assert s[i] == w[i];
    }
  }

  /** A field `name=value` with a non-empty value is the first pair. */
  lemma FieldsOfFirst(pieces: seq<string>, name: string, value: string)
    requires |pieces| > 0 && pieces[0] == name + ['='] + value
    requires '=' !in name && value != ""
    ensures |Fields(pieces)| > 0
    ensures Fields(pieces)[0] == (Unquote(PlusToSpace(name)), Unquote(PlusToSpace(value)))
  {
    CutAtFirst(name, '=', value);
    assert pieces[0][|name|] == '=';
  }

  // ---------------------------------------------------------------------
  // URLs built from parts
  // ---------------------------------------------------------------------

  /** A scheme that `urlsplit` recognises and leaves as it is. */
  predicate IsSchemeName(sc: string)
  {
    sc != [] && IsAsciiLetter(sc[0]) && (forall i :: 0 <= i < |sc| ==> IsSchemeChar(sc[i])) && Lower(sc) == sc
  }

  /** A host without the characters that end or bracket a location. */
  predicate IsPlainHost(host: string)
  {
    forall i :: 0 <= i < |host| ==> host[i] !in "/?#[]"
  }

  /** A recognised scheme is taken off with its `:`. */
  lemma SchemeOf(sc: string, after: string)
    requires IsSchemeName(sc)
    ensures SplitScheme(sc + [':'] + after) == (sc, after)
  {
    var u := sc + [':'] + after;
    assert ':' !in sc by {
      forall i | 0 <= i < |sc|
        ensures sc[i] != ':'
      {
        assert IsSchemeChar(sc[i]);
      }
    }
    CutAtFirst(sc, ':', after);
    var i := FindAny(u, ":");
    assert i == |sc|;
    assert u[..i] == sc && u[i + 1..] == after;
    assert forall j :: 0 <= j < i ==> IsSchemeChar(u[j]);
  }

  /** `//host/...` yields the host as the location. */
  lemma NetlocOf(host: string, rest: string)
    requires IsPlainHost(host)
    requires rest != [] && rest[0] == '/'
    ensures var a := "//" + host + rest;
            StartsWith(a, "//") && 2 + FindAny(a[2..], "/?#") == 2 + |host|
            && a[2..2 + |host|] == host && a[2 + |host|..] == rest
  {
    var a := "//" + host + rest;
    assert a[2..] == host + rest;
    FindAnyAppend(host, rest, "/?#");
    assert FindAny(rest, "/?#") == 0;
  }

  /** `scheme://host/...` splits into its scheme, its host, and the cut of
      the rest. */
  lemma SplitOfParts(sc: string, host: string, rest: string)
    requires IsSchemeName(sc) && IsPlainHost(host)
    requires rest != [] && rest[0] == '/'
    ensures SplitClean(sc + "://" + host + rest) == Success(SplitRest(sc, host, rest))
  {
    var afterScheme := "//" + host + rest;
    assert sc + "://" + host + rest == sc + [':'] + afterScheme;
    SchemeOf(sc, afterScheme);
    NetlocOf(host, rest);
    assert '[' !in host && ']' !in host;
  }

  /** A head free of `#`, `?` and `;` starts the parsed path, and is the
      whole path when nothing follows it. */
  lemma PathKeeps(scheme: string, netloc: string, q: string, rest: string)
    requires '#' !in q && '?' !in q && ';' !in q
    ensures var p := ParseOf(SplitRest(scheme, netloc, q + rest));
            StartsWith(p.path, q) && (rest == [] ==> p.path == q)
  {
    var beforeFragment := Cut(q + rest, '#').0;
    CutKeeps(q + rest, '#', q);
    var path0 := Cut(beforeFragment, '?').0;
    CutKeeps(beforeFragment, '?', q);
    assert SplitRest(scheme, netloc, q + rest).path == path0;
    ParamsKeep(path0, q);
    if rest == [] {
      assert q + rest == q;
      CutAbsent(q, '#');
      CutAbsent(q, '?');
    }
  }

  /** A visible head of the stripped URL that no removal touches comes
      through the cleaning unchanged. */
  lemma CleanOfHead(url: string, h: string) returns (rest: string)
    requires StartsWith(Strip(url), h) && h != [] && !IsControlOrSpace(h[0])
    requires forall i :: 0 <= i < |h| ==> !IsUnsafe(h[i])
    ensures RemoveUnsafe(LStripControls(url)) == h + rest
  {
    var l := LStrip(url);
    StripHeadOfLStrip(url, h);
    LStripControlsOfLStrip(url);
    var x := l[|h|..];
    assert l == h + x;
    RemoveUnsafeAppend(h, x);
    RemoveUnsafeOfSafe(h);
    rest := RemoveUnsafe(x);
  }

  /** A head of the stripped text is a head of the left-stripped text. */
  lemma StripHeadOfLStrip(url: string, h: string)
    requires StartsWith(Strip(url), h) && h != []
    ensures StartsWith(LStrip(url), h) && LStrip(url)[0] == h[0]
  {
    var l := LStrip(url);
    var s := RStrip(l);
    assert s == l[..|s|];
    assert l[..|h|] == s[..|h|];
  }
}
