/** The input validators: the YouTube URL check, the splitting and
    filtering of a pasted list of URLs, the theme check, and the extraction
    of a video id from a URL through `urllib.parse`. */
module Validators {
  import opened Base
  import opened Text
  import opened Urls

  // ---------------------------------------------------------------------
  // is_valid_youtube_url
  // ---------------------------------------------------------------------

  /** `[\w-]`, with `\w` restricted to the ASCII word characters. */
  predicate IsIdChar(c: char)
  {
    'a' <= c <= 'z' || 'A' <= c <= 'Z' || '0' <= c <= '9' || c == '_' || c == '-'
  }

  /** The four URL shapes the validator accepts. */
  datatype Route = Watch | V | Embed | Short

  function Scheme(secure: bool): string
  {
    if secure then "https" else "http"
  }

  /** The host of a route; `www.` is optional on `youtube.com` only. */
  function Host(r: Route, www: bool): string
  {
    if r == Short then "youtu.be" else if www then "www.youtube.com" else "youtube.com"
  }

  /** What comes between the host and the id. */
  function RoutePath(r: Route): string
  {
    match r
    case Watch => "/watch?v="
    case V => "/v/"
    case Embed => "/embed/"
    case Short => "/"
  }

  /** A literal prefix that one of the regular expressions accepts before
      the `[\w-]+` id: `https?://(?:www\.)?youtube\.com/watch\?v=` and so on. */
  function Prefix(r: Route, secure: bool, www: bool): string
  {
    Scheme(secure) + "://" + Host(r, www) + RoutePath(r)
  }

  /** The four patterns in the order `is_valid_youtube_url` lists them, each spelled out
      as the prefixes its regular expression accepts. */
  const Patterns: seq<seq<string>> :=
    [[Prefix(Watch, false, false), Prefix(Watch, true, false), Prefix(Watch, false, true), Prefix(Watch, true, true)],
     [Prefix(V, false, false), Prefix(V, true, false), Prefix(V, false, true), Prefix(V, true, true)],
     [Prefix(Embed, false, false), Prefix(Embed, true, false), Prefix(Embed, false, true), Prefix(Embed, true, true)],
     [Prefix(Short, false, false), Prefix(Short, true, false)]]

  /** `re.match` of a pattern whose literal part is `prefix`: the string
      starts with the prefix and one id character follows; `re.match` is
      anchored at the start only, so the rest is not looked at. */
  predicate IdFollows(s: string, prefix: string)
  {
    |prefix| < |s| && s[..|prefix|] == prefix && IsIdChar(s[|prefix|])
  }

  /** `any(re.match(pattern, s) for pattern in patterns)`. */
  predicate AnyMatch(s: string, patterns: seq<seq<string>>)
  {
    exists k, i :: 0 <= k < |patterns| && 0 <= i < |patterns[k]| && IdFollows(s, patterns[k][i])
  }

  /** `is_valid_youtube_url(url)`. */
  predicate IsValidYoutubeUrl(url: string)
  {
    url != "" && AnyMatch(Strip(url), Patterns)
  }

  /** Where the prefix of a route, scheme and host sits in `Patterns`. */
  lemma PatternOf(r: Route, secure: bool, www: bool) returns (k: nat, i: nat)
    ensures k < |Patterns| && i < |Patterns[k]| && Patterns[k][i] == Prefix(r, secure, www)
  {
    k := match r case Watch => 0 case V => 1 case Embed => 2 case Short => 3;
    i := (if secure then 1 else 0) + (if www && r != Short then 2 else 0);
    if r == Short {
      assert Prefix(r, secure, www) == Prefix(r, secure, false);
    }
  }

  /** Which route, scheme and host an entry of `Patterns` spells out. */
  lemma PatternShape(k: nat, i: nat) returns (r: Route, secure: bool, www: bool)
    requires k < |Patterns| && i < |Patterns[k]|
    ensures Patterns[k][i] == Prefix(r, secure, www)
  {
    r := [Watch, V, Embed, Short][k];
    secure := i % 2 == 1;
    www := i >= 2;
  }

  /** A URL of one of the accepted shapes passes the check. */
  lemma ValidFromShape(url: string, r: Route, secure: bool, www: bool)
    requires IdFollows(Strip(url), Prefix(r, secure, www))
    ensures IsValidYoutubeUrl(url)
  {
    var k, i := PatternOf(r, secure, www);
    assert url != "";
  }

  /** A URL passing the check has one of the accepted shapes. */
  lemma ShapeFromValid(url: string) returns (r: Route, secure: bool, www: bool)
    requires IsValidYoutubeUrl(url)
    ensures IdFollows(Strip(url), Prefix(r, secure, www))
  {
    var k, i :| 0 <= k < |Patterns| && 0 <= i < |Patterns[k]| && IdFollows(Strip(url), Patterns[k][i]);
    r, secure, www := PatternShape(k, i);
  }

  /** The accepted URLs, described by their parts: after stripping, a
      scheme, a host, a route and an id character. */
  lemma ValidShape(url: string)
    ensures IsValidYoutubeUrl(url)
            <==> exists r: Route, secure: bool, www: bool :: IdFollows(Strip(url), Prefix(r, secure, www))
  {
    if IsValidYoutubeUrl(url) {
      var r, secure, www := ShapeFromValid(url);
    } else if exists r: Route, secure: bool, www: bool :: IdFollows(Strip(url), Prefix(r, secure, www)) {
      var r: Route, secure: bool, www: bool :| IdFollows(Strip(url), Prefix(r, secure, www));
      ValidFromShape(url, r, secure, www);
    }
  }

  /** Whitespace around the URL does not matter. */
  lemma ValidIgnoresSurroundingSpace(url: string)
    ensures IsValidYoutubeUrl(Strip(url)) == IsValidYoutubeUrl(url)
  {
    StripIdempotent(url);
    if url != "" && Strip(url) == "" {
      assert !AnyMatch(Strip(url), Patterns);
    }
  }

  /** Anything may follow the first id character. */
  lemma ValidWithAnyTail(r: Route, secure: bool, www: bool, c: char, tail: string)
    requires IsIdChar(c)
    ensures IsValidYoutubeUrl(Prefix(r, secure, www) + [c] + tail)
  {
    var p := Prefix(r, secure, www);
    var url := p + [c] + tail;
    assert url[0] == p[0] == 'h';
    assert url[..|p|] == p && url[|p|] == c;
    IdFollowsStrip(url, p);
    ValidFromShape(url, r, secure, www);
  }

  /** An id character right after the prefix survives stripping when the
      URL does not start with whitespace. */
  lemma IdFollowsStrip(url: string, p: string)
    requires |p| < |url| && url[..|p|] == p && IsIdChar(url[|p|])
    requires !IsSpace(url[0])
    ensures IdFollows(Strip(url), p)
  {
    assert LStrip(url) == url;
    RStripKeepsPrefix(url, |p|);
    assert Strip(url)[..|p|] == Strip(url)[..|p| + 1][..|p|];
  }

  // ---------------------------------------------------------------------
  // validate_urls
  // ---------------------------------------------------------------------

  /** A character of the class `[\n,]`. */
  predicate IsListSep(c: char)
  {
    c == '\n' || c == ','
  }

  /** The position of the first separator, or `|s|`. */
  function SepIndex(s: string): (n: nat)
    ensures n <= |s|
    ensures forall i :: 0 <= i < n ==> !IsListSep(s[i])
    ensures n < |s| ==> IsListSep(s[n])
  {
    if |s| == 0 || IsListSep(s[0]) then 0 else 1 + SepIndex(s[1..])
  }

  /** `s` with its leading run of separators removed. */
  function SkipSeps(s: string): (r: string)
    ensures |r| <= |s| && r == s[|s| - |r|..]
    ensures |s| > 0 && IsListSep(s[0]) ==> |r| < |s|
  {
    if |s| > 0 && IsListSep(s[0]) then SkipSeps(s[1..]) else s
  }

  /** `re.split(r'[\n,]+', s)`: the pieces between maximal runs of
      separators, with an empty first or last piece when `s` starts or
      ends with a separator. */
  function SplitRuns(s: string): (r: seq<string>)
    ensures |r| >= 1
    ensures forall k :: 0 <= k < |r| ==> SepFree(r[k])
    decreases |s|
  {
    var i := SepIndex(s);
    if i == |s| then [s] else
    var rest := SplitRuns(SkipSeps(s[i..]));
    assert SepFree(s[..i]);
    [s[..i]] + rest
  }

  /** The pieces between single separators: what the split would give on
      the unrepeated class `[\n,]`. */
  function SplitEach(s: string): seq<string>
    decreases |s|
  {
    var i := SepIndex(s);
    if i == |s| then [s] else [s[..i]] + SplitEach(s[i + 1..])
  }

  /** What one piece contributes to `[u.strip() for u in pieces if u.strip()]`. */
  function CleanPiece(p: string): seq<string>
  {
    if Strip(p) != "" then [Strip(p)] else []
  }

  /** `[u.strip() for u in pieces if u.strip()]`. */
  function Cleaned(pieces: seq<string>): seq<string>
  {
    Comprehend(pieces, CleanPiece)
  }

  /** What one URL contributes to `[u for u in urls if is_valid_youtube_url(u)]`. */
  function KeepValid(u: string): seq<string>
  {
    if IsValidYoutubeUrl(u) then [u] else []
  }

  /** `[u for u in urls if is_valid_youtube_url(u)]`. */
  function ValidOnly(urls: seq<string>): seq<string>
  {
    Comprehend(urls, KeepValid)
  }

  /** `validate_urls(urls)`. */
  function ValidateUrls(urls: string): seq<string>
  {
    if urls == "" then [] else ValidOnly(Cleaned(SplitRuns(urls)))
  }

  /** A URL that `validate_urls` keeps as it is. */
  predicate Listed(u: string)
  {
    IsValidYoutubeUrl(u) && IsStripped(u) && SepFree(u)
  }

  /** Every URL kept is non-empty, stripped, valid and free of separators. */
  lemma ValidateUrlsContract(urls: string)
    ensures var r := ValidateUrls(urls);
            forall k :: 0 <= k < |r| ==> r[k] != "" && Listed(r[k])
  {
    if urls != "" {
      var pieces := SplitRuns(urls);
      CleanedStripped(pieces);
      CleanedSepFree(pieces);
      ValidOnlySubseq(Cleaned(pieces));
    }
  }

  predicate SepFree(s: string)
  {
    forall i :: 0 <= i < |s| ==> !IsListSep(s[i])
  }

  /** Every kept piece is stripped and non-blank. */
  /** Each kept piece is the stripped form of some input piece. */
  lemma CleanedFrom(pieces: seq<string>, k: nat) returns (i: nat)
    requires k < |Cleaned(pieces)|
    ensures i < |pieces| && Cleaned(pieces)[k] == Strip(pieces[i]) && Strip(pieces[i]) != ""
  {
    ComprehendFrom(pieces, CleanPiece);
    i :| 0 <= i < |pieces| && Cleaned(pieces)[k] in CleanPiece(pieces[i]);
  }

  lemma CleanedStripped(pieces: seq<string>)
    ensures forall k :: 0 <= k < |Cleaned(pieces)| ==> Cleaned(pieces)[k] != "" && IsStripped(Cleaned(pieces)[k])
  {
    forall k | 0 <= k < |Cleaned(pieces)|
      ensures Cleaned(pieces)[k] != "" && IsStripped(Cleaned(pieces)[k])
    {
      var i := CleanedFrom(pieces, k);
    }
  }

  /** Stripping a piece leaves it free of separators. */
  lemma StripKeepsSepFree(p: string)
    requires SepFree(p)
    ensures SepFree(Strip(p))
  {
    var s := Strip(p);
    assert forall i :: 0 <= i < |s| ==> s[i] == p[LeadingSpaces(p) + i];
  }

  /** No kept piece holds a separator when no piece did. */
  lemma CleanedSepFree(pieces: seq<string>)
    requires forall k :: 0 <= k < |pieces| ==> SepFree(pieces[k])
    ensures forall k :: 0 <= k < |Cleaned(pieces)| ==> SepFree(Cleaned(pieces)[k])
  {
    forall k | 0 <= k < |Cleaned(pieces)|
      ensures SepFree(Cleaned(pieces)[k])
    {
      var i := CleanedFrom(pieces, k);
      StripKeepsSepFree(pieces[i]);
    }
  }

  /** The kept URLs are valid ones from the input. */
  lemma {:induction false} ValidOnlySubseq(urls: seq<string>)
    ensures forall k :: 0 <= k < |ValidOnly(urls)| ==> ValidOnly(urls)[k] in urls && IsValidYoutubeUrl(ValidOnly(urls)[k])
  {
    ComprehendFrom(urls, KeepValid);
    forall k | 0 <= k < |ValidOnly(urls)|
      ensures ValidOnly(urls)[k] in urls && IsValidYoutubeUrl(ValidOnly(urls)[k])
    {
      var i :| 0 <= i < |urls| && ValidOnly(urls)[k] in KeepValid(urls[i]);
    }
  }

  lemma CleanedAppend(a: seq<string>, b: seq<string>)
    ensures Cleaned(a + b) == Cleaned(a) + Cleaned(b)
  {
    ComprehendAppend(a, b, CleanPiece);
  }

  lemma ValidOnlyAppend(a: seq<string>, b: seq<string>)
    ensures ValidOnly(a + b) == ValidOnly(a) + ValidOnly(b)
  {
    ComprehendAppend(a, b, KeepValid);
  }

  /** A run of separators only adds empty pieces. */
  lemma {:induction false} SplitEachOfRun(s: string)
    requires |s| > 0 && IsListSep(s[0])
    ensures Cleaned(SplitEach(s[1..])) == Cleaned(SplitEach(SkipSeps(s)))
    decreases |s|
  {
    var t := s[1..];
    if |t| > 0 && IsListSep(t[0]) {
      assert SepIndex(t) == 0;
      assert SplitEach(t) == [""] + SplitEach(t[1..]);
      CleanedAppend([""], SplitEach(t[1..]));
      ComprehendOne("", CleanPiece);
      assert Strip("") == "";
      SplitEachOfRun(t);
    }
  }

  /** Splitting on runs and splitting on single separators keep the same
      non-blank pieces. */
  lemma {:induction false} RunsAsSingles(s: string)
    ensures Cleaned(SplitRuns(s)) == Cleaned(SplitEach(s))
    decreases |s|
  {
    var i := SepIndex(s);
    if i < |s| {
      var t := s[i..];
      var u := SkipSeps(t);
      assert SplitRuns(s) == [s[..i]] + SplitRuns(u);
      assert SplitEach(s) == [s[..i]] + SplitEach(t[1..]) by {
        assert t[1..] == s[i + 1..];
      }
      SplitEachOfRun(t);
      RunsAsSingles(u);
      CleanedAppend([s[..i]], SplitRuns(u));
      CleanedAppend([s[..i]], SplitEach(t[1..]));
    }
  }

  lemma {:induction false} SplitEachAppend(a: string, sep: char, b: string)
    requires IsListSep(sep)
    ensures SplitEach(a + [sep] + b) == SplitEach(a) + SplitEach(b)
    decreases |a|
  {
    var s := a + [sep] + b;
    var i := SepIndex(a);
    if i == |a| {
      assert SepIndex(s) == |a| by {
        assert forall j :: 0 <= j < |a| ==> s[j] == a[j];
        assert s[|a|] == sep;
      }
      assert s[..|a|] == a;
      assert s[|a| + 1..] == b;
    } else {
      assert SepIndex(s) == i by {
        assert forall j :: 0 <= j <= i ==> s[j] == a[j];
      }
      assert s[..i] == a[..i];
      assert s[i + 1..] == a[i + 1..] + [sep] + b;
      SplitEachAppend(a[i + 1..], sep, b);
    }
  }

  /** The guard on the empty string changes nothing: splitting `""` gives
      one blank piece, which is dropped. */
  lemma ValidateUrlsBySingles(s: string)
    ensures ValidateUrls(s) == ValidOnly(Cleaned(SplitEach(s)))
  {
    if s == "" {
      assert SplitEach(s) == [""];
      ComprehendOne("", CleanPiece);
      assert Strip("") == "";
      assert Cleaned(SplitEach(s)) == [];
    } else {
      assert ValidateUrls(s) == ValidOnly(Cleaned(SplitRuns(s)));
      RunsAsSingles(s);
    }
  }

  /** Two lists pasted with a separator between them validate to the two
      results in order. */
  lemma ValidateUrlsAppend(a: string, sep: char, b: string)
    requires IsListSep(sep)
    ensures ValidateUrls(a + [sep] + b) == ValidateUrls(a) + ValidateUrls(b)
  {
    ValidateUrlsBySingles(a + [sep] + b);
    ValidateUrlsBySingles(a);
    ValidateUrlsBySingles(b);
    SplitEachAppend(a, sep, b);
    CleanedAppend(SplitEach(a), SplitEach(b));
    ValidOnlyAppend(Cleaned(SplitEach(a)), Cleaned(SplitEach(b)));
  }

  /** A separator-free piece splits to itself. */
  lemma SplitEachOfSepFree(u: string)
    requires SepFree(u)
    ensures SplitEach(u) == [u]
  {
    assert SepIndex(u) == |u|;
  }

  /** Pieces free of separators, joined by newlines, split back to
      themselves. */
  lemma {:induction false} SplitEachOfJoin(us: seq<string>)
    requires |us| > 0
    requires forall k :: 0 <= k < |us| ==> SepFree(us[k])
    ensures SplitEach(Join(us, "\n")) == us
  {
    SplitEachOfSepFree(us[0]);
    if |us| > 1 {
      var rest := Join(us[1..], "\n");
      assert Join(us, "\n") == us[0] + ['\n'] + rest;
      SplitEachAppend(us[0], '\n', rest);
      SplitEachOfJoin(us[1..]);
      assert us == [us[0]] + us[1..];
    }
  }

  /** Pieces that are already stripped and non-blank are all kept. */
  lemma {:induction false} CleanedOfStripped(us: seq<string>)
    requires forall k :: 0 <= k < |us| ==> us[k] != "" && IsStripped(us[k])
    ensures Cleaned(us) == us
  {
    if us != [] {
      StripOfStripped(us[0]);
      CleanedOfStripped(us[1..]);
      assert us == [us[0]] + us[1..];
    }
  }

  /** Valid URLs are all kept. */
  lemma {:induction false} ValidOnlyOfValid(us: seq<string>)
    requires forall k :: 0 <= k < |us| ==> IsValidYoutubeUrl(us[k])
    ensures ValidOnly(us) == us
  {
    if us != [] {
      ValidOnlyOfValid(us[1..]);
      assert us == [us[0]] + us[1..];
    }
  }

  /** Validated URLs written one per line validate to themselves. */
  lemma ValidateUrlsOfLines(us: seq<string>)
    requires forall k :: 0 <= k < |us| ==> us[k] != "" && Listed(us[k])
    ensures ValidateUrls(Join(us, "\n")) == us
  {
    if us != [] {
      ValidateUrlsBySingles(Join(us, "\n"));
      SplitEachOfJoin(us);
      CleanedOfStripped(us);
      ValidOnlyOfValid(us);
    }
  }

  /** Validating the output again, one URL per line, changes nothing. */
  lemma ValidateUrlsIdempotent(s: string)
    ensures ValidateUrls(Join(ValidateUrls(s), "\n")) == ValidateUrls(s)
  {
    ValidateUrlsContract(s);
    ValidateUrlsOfLines(ValidateUrls(s));
  }

  // ---------------------------------------------------------------------
  // validate_theme
  // ---------------------------------------------------------------------

  /** `s.lstrip('#')`. */
  function StripHashes(s: string): (r: string)
    ensures |r| <= |s| && r == s[|s| - |r|..]
    ensures r == [] || r[0] != '#'
    ensures forall i :: 0 <= i < |s| - |r| ==> s[i] == '#'
  {
    if |s| > 0 && s[0] == '#' then StripHashes(s[1..]) else s
  }

  /** `[a-zA-Z0-9_\-\s]`, with `\s` restricted to the ASCII whitespace. */
  predicate IsThemeChar(c: char)
  {
    'a' <= c <= 'z' || 'A' <= c <= 'Z' || '0' <= c <= '9' || c == '_' || c == '-' || IsSpace(c)
  }

  /** `re.match(r'^[...]+$', t)`: a non-empty run of class characters that
      reaches the end of `t`, or stops just before a final newline (`$`
      also matches there). */
  predicate ThemeRegexMatches(t: string)
  {
    exists n | 1 <= n <= |t| :: ThemeRunEndsAt(t, n)
  }

  /** The first `n` characters are class characters and `$` matches after them. */
  predicate ThemeRunEndsAt(t: string, n: int)
  {
    1 <= n <= |t| && (forall i :: 0 <= i < n ==> IsThemeChar(t[i]))
    && (n == |t| || (n == |t| - 1 && t[n] == '\n'))
  }

  /** `validate_theme(theme)`. */
  predicate ValidateTheme(theme: string)
  {
    theme != "" && var t := StripHashes(theme); 3 <= |t| <= 50 && ThemeRegexMatches(t)
  }

  /** The regular expression accepts exactly the non-empty strings of class
      characters, since the class holds the newline `$` may stop before. */
  lemma ThemeRegexIsCharset(t: string)
    ensures ThemeRegexMatches(t) <==> |t| >= 1 && forall i :: 0 <= i < |t| ==> IsThemeChar(t[i])
  {
    if |t| >= 1 && forall i :: 0 <= i < |t| ==> IsThemeChar(t[i]) {
      assert ThemeRunEndsAt(t, |t|);
    }
    if ThemeRegexMatches(t) {
      var n :| 1 <= n <= |t| && ThemeRunEndsAt(t, n);
      assert forall i :: 0 <= i < n ==> IsThemeChar(t[i]);
      assert IsThemeChar('\n');
      assert forall i :: 0 <= i < |t| ==> IsThemeChar(t[i]) by {
        forall i | 0 <= i < |t|
          ensures IsThemeChar(t[i])
        {
          if i >= n {
            assert i == n && t[i] == '\n';
          }
        }
      }
    }
  }

  /** A theme is valid exactly when, after its leading `#`s, it has 3 to 50
      characters, all letters, digits, `_`, `-` or whitespace. */
  lemma ValidateThemeCharset(theme: string)
    ensures ValidateTheme(theme)
            <==> var t := StripHashes(theme);
                 3 <= |t| <= 50 && forall i :: 0 <= i < |t| ==> IsThemeChar(t[i])
  {
    ThemeRegexIsCharset(StripHashes(theme));
  }

  /** Leading `#`s are ignored. */
  lemma HashIgnored(theme: string)
    ensures ValidateTheme("#" + theme) == ValidateTheme(theme)
  {
    assert ("#" + theme)[1..] == theme;
  }

  /** A `#` after the first other character is never accepted. */
  lemma InnerHashRejected(a: string, b: string)
    requires a != "" && a[0] != '#'
    ensures !ValidateTheme(a + "#" + b)
  {
    var s := a + "#" + b;
    assert StripHashes(s) == s;
    ValidateThemeCharset(s);
    assert s[|a|] == '#' && !IsThemeChar('#');
  }

  // ---------------------------------------------------------------------
  // extract_video_id
  // ---------------------------------------------------------------------

  /** The video id a parsed URL names: the path after its `/` on
      `youtu.be`, what `PathId` finds on `youtube.com`, and nothing on any
      other host. */
  function IdOf(p: ParseResult): Option<string>
  {
    if p.netloc == "youtu.be" then Some(if p.path == [] then [] else p.path[1..])
    else if p.netloc == "www.youtube.com" || p.netloc == "youtube.com" then PathId(p.path, p.query)
    else None
  }

  /** On `youtube.com`: the first `v` query value for the path `/watch`,
      the third `/`-separated path piece under `/v/` or `/embed/`, and
      nothing for any other path. */
  function PathId(path: string, query: string): Option<string>
  {
    if path == "/watch" then QueryValue(query, "v")
    else if StartsWith(path, "/v/") || StartsWith(path, "/embed/") then
      SplitUnderRoute(path);
      Some(Split(path, "/")[2])
    else None
  }

  /** `extract_video_id(url)`: `None` for a URL the check rejects, the id
      `IdOf` finds otherwise; `urlparse` raising `ValueError` is the
      failure. */
  function ExtractVideoId(url: string): (r: Result<Option<string>, string>)
    ensures !IsValidYoutubeUrl(url) ==> r == Success(None)
  {
    if !IsValidYoutubeUrl(url) then Success(None)
    else
      match UrlParse(url)
      case Failure(e) => Failure(e)
      case Success(p) => Success(IdOf(p))
  }

  /** A path under `/v/` or `/embed/` has at least three pieces. */
  lemma SplitUnderRoute(path: string)
    requires StartsWith(path, "/v/") || StartsWith(path, "/embed/")
    ensures |Split(path, "/")| > 2
  {
    var name := if StartsWith(path, "/v/") then "v" else "embed";
    var rest := path[|name| + 2..];
    assert path == [] + ['/'] + (name + ['/'] + rest);
    SplitAtFirst([], '/', name + ['/'] + rest);
    SplitAtFirst(name, '/', rest);
  }

  /** A non-empty run of id characters. */
  predicate IsId(w: string)
  {
    w != [] && forall i :: 0 <= i < |w| ==> IsIdChar(w[i])
  }

  /** The longest run of id characters at the head of `s`: what `[\w-]+`
      matches. */
  function IdRun(s: string): (w: string)
    ensures StartsWith(s, w)
    ensures |w| == |s| || !IsIdChar(s[|w|])
  {
    if |s| > 0 && IsIdChar(s[0]) then [s[0]] + IdRun(s[1..]) else []
  }

  lemma {:induction false} IdRunIsId(s: string)
    requires |s| > 0 && IsIdChar(s[0])
    ensures IsId(IdRun(s))
    decreases |s|
  {
    if |s| > 1 && IsIdChar(s[1]) {
      IdRunIsId(s[1..]);
    }
  }

  /** None of the characters the parser cuts at is an id character. */
  lemma IdChars(w: string)
    requires IsId(w)
    ensures '#' !in w && '?' !in w && ';' !in w && '/' !in w
    ensures '&' !in w && '=' !in w && '%' !in w && '+' !in w
    ensures forall i :: 0 <= i < |w| ==> !IsUnsafe(w[i])
  {
  }

  lemma SchemeIsName(secure: bool)
    ensures IsSchemeName(Scheme(secure))
  {
    assert Lower("http") == "http";
    assert Lower("https") == "https";
  }

  lemma HostIsPlain(r: Route, www: bool)
    ensures IsPlainHost(Host(r, www))
  {
  }

  /** No character of a prefix is removed as unsafe. */
  lemma PrefixSafe(r: Route, secure: bool, www: bool)
    ensures forall i :: 0 <= i < |Prefix(r, secure, www)| ==> !IsUnsafe(Prefix(r, secure, www)[i])
  {
    var a := Scheme(secure);
    var b := Host(r, www);
    var c := RoutePath(r);
    assert forall i :: 0 <= i < |a| ==> !IsUnsafe(a[i]);
    assert forall i :: 0 <= i < |b| ==> !IsUnsafe(b[i]);
    assert forall i :: 0 <= i < |c| ==> !IsUnsafe(c[i]);
    SafeAppend(a, "://");
    SafeAppend(a + "://", b);
    SafeAppend(a + "://" + b, c);
  }

  lemma SafeAppend(a: string, b: string)
    requires forall i :: 0 <= i < |a| ==> !IsUnsafe(a[i])
    requires forall i :: 0 <= i < |b| ==> !IsUnsafe(b[i])
    ensures forall i :: 0 <= i < |a + b| ==> !IsUnsafe((a + b)[i])
  {
  }

  /** How `urlsplit` cuts a URL of an accepted shape: the scheme and the
      host come out whole, and the route with what follows it is cut into
      path, query and fragment. */
  lemma SplitOfShape(r: Route, secure: bool, www: bool, tail: string)
    ensures SplitClean(Prefix(r, secure, www) + tail)
            == Success(SplitRest(Scheme(secure), Host(r, www), RoutePath(r) + tail))
  {
    SchemeIsName(secure);
    HostIsPlain(r, www);
    assert Prefix(r, secure, www) + tail == Scheme(secure) + "://" + Host(r, www) + (RoutePath(r) + tail);
    SplitOfParts(Scheme(secure), Host(r, www), RoutePath(r) + tail);
  }

  /** On `youtu.be`, the id is the path after its `/`. */
  lemma IdOfShortPath(p: ParseResult, w: string)
    requires p.netloc == "youtu.be" && StartsWith(p.path, "/" + w)
    ensures IdOf(p).Some? && StartsWith(IdOf(p).value, w)
    ensures p.path == "/" + w ==> IdOf(p).value == w
  {
    assert p.path[1..][..|w|] == w;
  }

  /** Under `/v/` and `/embed/`, the id is the path piece after the route. */
  lemma IdOfRoutePath(path: string, query: string, name: string, w: string)
    requires IsRouteName(name)
    requires StartsWith(path, "/v/") || StartsWith(path, "/embed/")
    requires IsId(w) && StartsWith(path, "/" + name + "/" + w)
    ensures PathId(path, query).Some? && StartsWith(PathId(path, query).value, w)
    ensures path == "/" + name + "/" + w ==> PathId(path, query).value == w
  {
    IdChars(w);
    var q := "/" + name + "/" + w;
    assert path != "/watch" by { assert path[1] == name[0]; }
    var x := path[|q|..];
    assert path == [] + ['/'] + (name + ['/'] + (w + x));
    SplitAtFirst([], '/', name + ['/'] + (w + x));
    SplitAtFirst(name, '/', w + x);
    assert Split(path, "/")[2] == Split(w + x, "/")[0];
    SplitHeadKeeps(w + x, w, '/');
    if path == q {
      assert w + x == w;
      SplitWithoutSep(w, '/');
    }
  }

  /** A path piece that names a route: `v` or `embed`. */
  predicate IsRouteName(name: string)
  {
    name != [] && '/' !in name && name[0] != 'w' && '#' !in name && '?' !in name && ';' !in name
    && (StartsWith("/" + name + "/", "/v/") || StartsWith("/" + name + "/", "/embed/"))
  }

  lemma RouteNames()
    ensures IsRouteName("v") && IsRouteName("embed")
  {
    assert StartsWith("/v/", "/v/");
    assert StartsWith("/embed/", "/embed/");
  }

  lemma PrefixHead(r: Route, secure: bool, www: bool)
    ensures |Prefix(r, secure, www)| > 0 && Prefix(r, secure, www)[0] == 'h'
  {
    assert Prefix(r, secure, www) == Scheme(secure) + ("://" + Host(r, www) + RoutePath(r));
  }

  lemma StartsWithAppend(s: string, p: string, w: string)
    requires StartsWith(s, p) && StartsWith(s[|p|..], w)
    ensures StartsWith(s, p + w)
  {
    assert s[..|p| + |w|] == s[..|p|] + s[|p|..][..|w|];
  }

  lemma StartsWithTrans(a: string, b: string, c: string)
    requires StartsWith(a, b) && StartsWith(b, c)
    ensures StartsWith(a, c)
  {
    assert a[..|c|] == b[..|c|];
  }

  /** On `/watch`, the id is the first `v` value of the query. */
  lemma IdOfWatchQuery(w: string, more: string)
    requires IsId(w)
    ensures var v := QueryValue("v=" + w + more, "v");
            v.Some? && StartsWith(v.value, w) && (more == [] ==> v.value == w)
  {
    var value := WatchQueryValue(w, more);
    IdChars(w);
    PlusToSpaceKeeps(value, w);
    var spaced := PlusToSpace(value);
    assert spaced == w + spaced[|w|..];
    UnquoteOfPlain(w, spaced[|w|..]);
    if more == [] {
      assert spaced == w;
      UnquoteOfPlain(w, []);
    }
  }

  /** The raw value of the leading `v=` field, before decoding. */
  lemma WatchQueryValue(w: string, more: string) returns (value: string)
    requires IsId(w)
    ensures QueryValue("v=" + w + more, "v") == Some(Unquote(PlusToSpace(value)))
    ensures StartsWith(value, w) && (more == [] ==> value == w)
  {
    IdChars(w);
    var query := "v=" + w + more;
    var pieces := Split(query, "&");
    SplitHeadKeeps(query, "v=" + w, '&');
    value := pieces[0][2..];
    assert pieces[0] == "v" + ['='] + value;
    FieldsOfFirst(pieces, "v", value);
    assert Unquote(PlusToSpace("v")) == "v";
    StartsWithRest(pieces[0], "v=", w);
    if more == [] {
      SplitWithoutSep(query, '&');
    }
  }

  /** A watch URL parses to the path `/watch` and the query after `?`, up
      to any fragment. */
  lemma WatchParts(sc: string, host: string, w: string, rest: string)
    requires IsId(w)
    ensures var p := ParseOf(SplitRest(sc, host, "/watch?v=" + w + rest));
            p.path == "/watch" && p.query == "v=" + w + Cut(rest, '#').0
  {
    var r1 := Cut(rest, '#').0;
    assert '#' !in "/watch?v=" + w by {
      IdChars(w);
    }
    CutAppend("/watch?v=" + w, rest, '#');
    var query := "v=" + w + r1;
    assert "/watch?v=" + w + r1 == "/watch" + ['?'] + query;
    CutAtFirst("/watch", '?', query);
    assert ';' !in "/watch";
  }

  /** The hosts `IdOf` looks at, by route. */
  predicate HostOfRoute(r: Route, host: string)
  {
    if r == Short then host == "youtu.be" else host == "www.youtube.com" || host == "youtube.com"
  }

  /** The id found once the route and what follows it are cut. */
  lemma IdOfRest(r: Route, sc: string, host: string, w: string, rest: string)
    requires IsId(w) && HostOfRoute(r, host)
    ensures var v := IdOf(ParseOf(SplitRest(sc, host, RoutePath(r) + (w + rest))));
            v.Some? && StartsWith(v.value, w) && (rest == [] ==> v.value == w)
  {
    if r == Watch {
      IdOfWatchRest(sc, host, w, rest);
    } else {
      IdOfPathRest(r, sc, host, w, rest);
    }
  }

  lemma IdOfWatchRest(sc: string, host: string, w: string, rest: string)
    requires IsId(w) && HostOfRoute(Watch, host)
    ensures var v := IdOf(ParseOf(SplitRest(sc, host, RoutePath(Watch) + (w + rest))));
            v.Some? && StartsWith(v.value, w) && (rest == [] ==> v.value == w)
  {
    var p := ParseOf(SplitRest(sc, host, RoutePath(Watch) + (w + rest)));
    assert RoutePath(Watch) + (w + rest) == "/watch?v=" + w + rest;
    WatchParts(sc, host, w, rest);
    if rest == [] {
      CutAbsent([], '#');
      assert "v=" + w + [] == "v=" + w;
    }
    IdOfWatchQuery(w, Cut(rest, '#').0);
  }

  lemma IdOfPathRest(r: Route, sc: string, host: string, w: string, rest: string)
    requires r != Watch && IsId(w) && HostOfRoute(r, host)
    ensures var v := IdOf(ParseOf(SplitRest(sc, host, RoutePath(r) + (w + rest))));
            v.Some? && StartsWith(v.value, w) && (rest == [] ==> v.value == w)
  {
    if r == Short {
      IdOfShortRest(sc, host, w, rest);
    } else {
      IdOfNamedRest(r, sc, host, w, rest);
    }
  }

  lemma IdOfNamedRest(r: Route, sc: string, host: string, w: string, rest: string)
    requires (r == V || r == Embed) && IsId(w) && HostOfRoute(r, host)
    ensures var v := IdOf(ParseOf(SplitRest(sc, host, RoutePath(r) + (w + rest))));
            v.Some? && StartsWith(v.value, w) && (rest == [] ==> v.value == w)
  {
    RouteNames();
    var name := if r == V then "v" else "embed";
    assert RoutePath(r) == "/" + name + "/";
    assert RoutePath(r) + (w + rest) == "/" + name + "/" + (w + rest);
    IdOfNameRest(name, sc, host, w, rest);
  }

  lemma IdOfNameRest(name: string, sc: string, host: string, w: string, rest: string)
    requires IsRouteName(name) && IsId(w) && (host == "www.youtube.com" || host == "youtube.com")
    ensures var v := IdOf(ParseOf(SplitRest(sc, host, "/" + name + "/" + (w + rest))));
            v.Some? && StartsWith(v.value, w) && (rest == [] ==> v.value == w)
  {
    var head := "/" + name + "/";
    var q := head + w;
    assert head + (w + rest) == q + rest;
    assert '#' !in q && '?' !in q && ';' !in q by {
      IdChars(w);
    }
    PathKeeps(sc, host, q, rest);
    var p := ParseOf(SplitRest(sc, host, head + (w + rest)));
    assert StartsWith(p.path, "/v/") || StartsWith(p.path, "/embed/") by {
      assert StartsWith(q, head);
      StartsWithTrans(p.path, q, head);
      if StartsWith(head, "/v/") {
        StartsWithTrans(p.path, head, "/v/");
      } else {
        StartsWithTrans(p.path, head, "/embed/");
      }
    }
    assert IdOf(p) == PathId(p.path, p.query);
    IdOfRoutePath(p.path, p.query, name, w);
  }

  lemma IdOfShortRest(sc: string, host: string, w: string, rest: string)
    requires IsId(w) && host == "youtu.be"
    ensures var v := IdOf(ParseOf(SplitRest(sc, host, "/" + (w + rest))));
            v.Some? && StartsWith(v.value, w) && (rest == [] ==> v.value == w)
  {
    var q := "/" + w;
    assert '#' !in q && '?' !in q && ';' !in q by {
      IdChars(w);
    }
    assert "/" + (w + rest) == q + rest;
    PathKeeps(sc, host, q, rest);
    IdOfShortPath(ParseOf(SplitRest(sc, host, "/" + (w + rest))), w);
  }

  /** The id a URL of an accepted shape yields starts with the id run that
      follows its prefix, and is exactly that run when nothing follows. */
  lemma IdOfShape(r: Route, secure: bool, www: bool, w: string, rest: string)
    requires IsId(w)
    ensures ParseClean(Prefix(r, secure, www) + w + rest).Success?
    ensures var v := IdOf(ParseClean(Prefix(r, secure, www) + w + rest).value);
            v.Some? && StartsWith(v.value, w) && (rest == [] ==> v.value == w)
  {
    var sc := Scheme(secure);
    var host := Host(r, www);
    SplitOfShape(r, secure, www, w + rest);
    assert Prefix(r, secure, www) + w + rest == Prefix(r, secure, www) + (w + rest);
    IdOfRest(r, sc, host, w, rest);
  }

  /** What `urlparse` is given for a valid URL: its leading spaces are gone
      and its prefix and id run are untouched by the removal of tabs and
      newlines. */
  lemma CleanOfValid(url: string) returns (r: Route, secure: bool, www: bool, rest: string)
    requires IsValidYoutubeUrl(url)
    ensures IdFollows(Strip(url), Prefix(r, secure, www))
    ensures RemoveUnsafe(LStripControls(url))
            == Prefix(r, secure, www) + IdRun(Strip(url)[|Prefix(r, secure, www)|..]) + rest
  {
    r, secure, www := ShapeFromValid(url);
    var s := Strip(url);
    var p := Prefix(r, secure, www);
    var w := IdRun(s[|p|..]);
    IdRunIsId(s[|p|..]);
    IdChars(w);
    PrefixSafe(r, secure, www);
    SafeAppend(p, w);
    PrefixHead(r, secure, www);
    StartsWithAppend(s, p, w);
    assert (p + w)[0] == 'h';
    rest := CleanOfHead(url, p + w);
  }

  /** A valid URL always yields an id, which starts with the id run the
      check matched after the prefix. */
  lemma ExtractOfValid(url: string)
    requires IsValidYoutubeUrl(url)
    ensures ExtractVideoId(url).Success? && ExtractVideoId(url).value.Some?
    ensures exists r: Route, secure: bool, www: bool ::
              IdFollows(Strip(url), Prefix(r, secure, www))
              && StartsWith(ExtractVideoId(url).value.value, IdRun(Strip(url)[|Prefix(r, secure, www)|..]))
  {
    var r, secure, www, rest := CleanOfValid(url);
    var s := Strip(url);
    var w := IdRun(s[|Prefix(r, secure, www)|..]);
    IdRunIsId(s[|Prefix(r, secure, www)|..]);
    IdOfShape(r, secure, www, w, rest);
  }

  /** The id of a bare URL of an accepted shape is given back whole. */
  lemma ExtractRoundTrip(r: Route, secure: bool, www: bool, id: string)
    requires IsId(id)
    ensures ExtractVideoId(Prefix(r, secure, www) + id) == Success(Some(id))
  {
    var url := Prefix(r, secure, www) + id;
    assert IsValidYoutubeUrl(url) by {
      assert url == Prefix(r, secure, www) + [id[0]] + id[1..];
      ValidWithAnyTail(r, secure, www, id[0], id[1..]);
    }
    BareIsClean(r, secure, www, id);
    IdOfBare(r, secure, www, id);
  }

  lemma IdOfBare(r: Route, secure: bool, www: bool, id: string)
    requires IsId(id)
    ensures ParseClean(Prefix(r, secure, www) + id).Success?
    ensures IdOf(ParseClean(Prefix(r, secure, www) + id).value) == Some(id)
  {
    IdOfShape(r, secure, www, id, []);
    assert Prefix(r, secure, www) + id + [] == Prefix(r, secure, www) + id;
  }

  /** Cleaning leaves a bare URL of an accepted shape as it is. */
  lemma BareIsClean(r: Route, secure: bool, www: bool, id: string)
    requires IsId(id)
    ensures UrlParse(Prefix(r, secure, www) + id) == ParseClean(Prefix(r, secure, www) + id)
  {
    var p := Prefix(r, secure, www);
    var url := p + id;
    PrefixHead(r, secure, www);
    assert LStripControls(url) == url by {
      assert url[0] == 'h';
    }
    IdChars(id);
    PrefixSafe(r, secure, www);
    SafeAppend(p, id);
    RemoveUnsafeOfSafe(url);
  }
}
