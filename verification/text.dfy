/** String helpers with Python's `str` semantics, restricted to what the
    pipeline uses: whitespace stripping, `sep.join(parts)` and `s.split(sep)`. */
module Text {

  /** Whitespace as `str.isspace` sees it, restricted to the ASCII range. */
  predicate IsSpace(c: char)
  {
    c == ' ' || 9 <= c as int <= 13 || 28 <= c as int <= 31
  }

  predicate StartsWith(s: string, prefix: string)
  {
    |prefix| <= |s| && s[..|prefix|] == prefix
  }

  /** `s.lstrip()`: drops the leading whitespace and nothing else. */
  function LStrip(s: string): (r: string)
    ensures |r| <= |s| && r == s[|s| - |r|..]
    ensures r == [] || !IsSpace(r[0])
    ensures forall i :: 0 <= i < |s| - |r| ==> IsSpace(s[i])
  {
    if |s| > 0 && IsSpace(s[0]) then LStrip(s[1..]) else s
  }

  /** `s.rstrip()`: drops the trailing whitespace and nothing else. */
  function RStrip(s: string): (r: string)
    ensures |r| <= |s| && r == s[..|r|]
    ensures r == [] || !IsSpace(r[|r| - 1])
    ensures forall i :: |r| <= i < |s| ==> IsSpace(s[i])
  {
    if |s| > 0 && IsSpace(s[|s| - 1]) then RStrip(s[..|s| - 1]) else s
  }

  lemma StartsWithRest(s: string, a: string, b: string)
    requires StartsWith(s, a + b)
    ensures StartsWith(s[|a|..], b)
  {
    assert s[|a|..][..|b|] == s[..|a| + |b|][|a|..];
  }

  /** Everything up to a visible character survives `rstrip()`. */
  lemma RStripKeepsPrefix(s: string, n: nat)
    requires n < |s| && !IsSpace(s[n])
    ensures n < |RStrip(s)| && RStrip(s)[..n + 1] == s[..n + 1]
  {
  }

  /** `s.strip()`: an infix of `s` that neither starts nor ends with whitespace,
      obtained by removing whitespace only. */
  function Strip(s: string): (r: string)
    ensures r == [] || (!IsSpace(r[0]) && !IsSpace(r[|r| - 1]))
    ensures LeadingSpaces(s) + |r| <= |s| && r == s[LeadingSpaces(s)..LeadingSpaces(s) + |r|]
    ensures forall i :: 0 <= i < LeadingSpaces(s) ==> IsSpace(s[i])
    ensures forall i :: LeadingSpaces(s) + |r| <= i < |s| ==> IsSpace(s[i])
  {
    RStrip(LStrip(s))
  }

  /** How many characters `lstrip()` removes. */
  function LeadingSpaces(s: string): nat
  {
    |s| - |LStrip(s)|
  }

  /** A string that `strip()` leaves unchanged. */
  predicate IsStripped(s: string)
  {
    s == [] || (!IsSpace(s[0]) && !IsSpace(s[|s| - 1]))
  }

  lemma StripOfStripped(s: string)
    requires IsStripped(s)
    ensures Strip(s) == s
  {
  }

  lemma StripIdempotent(s: string)
    ensures Strip(Strip(s)) == Strip(s)
  {
    StripOfStripped(Strip(s));
  }

  /** `sep.join(parts)`. */
  function Join(parts: seq<string>, sep: string): string
  {
    if |parts| == 0 then ""
    else if |parts| == 1 then parts[0]
    else parts[0] + sep + Join(parts[1..], sep)
  }

  lemma JoinPrependToHead(c: string, parts: seq<string>, sep: string)
    requires |parts| > 0
    ensures Join([c + parts[0]] + parts[1..], sep) == c + Join(parts, sep)
  {
    var q := [c + parts[0]] + parts[1..];
    assert q[1..] == parts[1..];
  }

  lemma {:induction false} JoinAppend(a: seq<string>, b: seq<string>, sep: string)
    requires |a| > 0 && |b| > 0
    ensures Join(a + b, sep) == Join(a, sep) + sep + Join(b, sep)
    decreases |a|
  {
    if |a| == 1 {
      assert (a + b)[1..] == b;
    } else {
      assert (a + b)[1..] == a[1..] + b;
      JoinAppend(a[1..], b, sep);
    }
  }

  /** A join of two or more pieces is its first piece, the separator and
      the join of the rest, which starts with the second piece's first
      character. */
  lemma JoinHeadSplit(parts: seq<string>, sep: string)
    requires |parts| >= 2 && parts[1] != []
    ensures Join(parts, sep) == parts[0] + (sep + Join(parts[1..], sep))
    ensures Join(parts[1..], sep) != [] && Join(parts[1..], sep)[0] == parts[1][0]
  {
    JoinStartsWithHead(parts[1..], sep);
    var j := Join(parts[1..], sep);
    assert j[..|parts[1]|][0] == j[0];
  }

  /** A join starts with its first piece. */
  lemma JoinStartsWithHead(parts: seq<string>, sep: string)
    requires |parts| > 0
    ensures StartsWith(Join(parts, sep), parts[0])
  {
    if |parts| > 1 {
      var j := Join(parts, sep);
      assert j == parts[0] + (sep + Join(parts[1..], sep));
    }
  }

  /** The last piece of a join is its suffix, after a separator when there
      are several pieces. */
  lemma JoinLastPiece(parts: seq<string>, sep: string)
    requires |parts| > 1
    ensures Join(parts, sep) == Join(parts[..|parts| - 1], sep) + sep + parts[|parts| - 1]
  {
    var n := |parts|;
    JoinAppend(parts[..n - 1], [parts[n - 1]], sep);
    assert parts[..n - 1] + [parts[n - 1]] == parts;
  }

  /** The last character of a join is that of its last piece, when the last
      piece is not empty. */
  lemma JoinLastChar(parts: seq<string>, sep: string)
    requires |parts| > 0 && parts[|parts| - 1] != []
    ensures var j := Join(parts, sep); var p := parts[|parts| - 1];
            |j| > 0 && j[|j| - 1] == p[|p| - 1]
  {
    if |parts| > 1 {
      JoinLastPiece(parts, sep);
    }
  }

  /** `s.split(sep)` for a non-empty separator: the pieces between the
      occurrences of `sep` found scanning left to right. Joining the pieces
      back with `sep` gives `s`. */
  function Split(s: string, sep: string): (r: seq<string>)
    requires |sep| > 0
    ensures |r| >= 1
    ensures Join(r, sep) == s
    decreases |s|
  {
    if |s| < |sep| then [s]
    else if s[..|sep|] == sep then
      var rest := Split(s[|sep|..], sep);
      assert Join([""] + rest, sep) == sep + Join(rest, sep) by {
        assert ([""] + rest)[1..] == rest;
      }
      [""] + rest
    else
      var rest := Split(s[1..], sep);
      JoinPrependToHead([s[0]], rest, sep);
      [[s[0]] + rest[0]] + rest[1..]
  }

  /** A one-character separator that does not occur leaves `s` whole. */
  lemma {:induction false} SplitWithoutSep(s: string, d: char)
    requires d !in s
    ensures Split(s, [d]) == [s]
    decreases |s|
  {
    if |s| >= 1 {
      assert s[..1] != [d] by { assert s[0] != d; }
      SplitWithoutSep(s[1..], d);
      assert [s[0]] + s[1..] == s;
    }
  }

  /** The first piece is the text before the first separator. */
  lemma {:induction false} SplitAtFirst(a: string, d: char, b: string)
    requires d !in a
    ensures Split(a + [d] + b, [d]) == [a] + Split(b, [d])
    decreases |a|
  {
    var s := a + [d] + b;
    if a == [] {
      assert s[..1] == [d] && s[1..] == b;
    } else {
      assert s[..1] != [d] by { assert s[0] == a[0] != d; }
      assert s[1..] == a[1..] + [d] + b;
      SplitAtFirst(a[1..], d, b);
      assert [s[0]] + a[1..] == a;
    }
  }

  /** A prefix free of the separator stays at the head of the first piece. */
  lemma {:induction false} SplitHeadKeeps(s: string, w: string, d: char)
    requires StartsWith(s, w) && d !in w
    ensures StartsWith(Split(s, [d])[0], w)
    decreases |w|
  {
    if w != [] {
      assert s[..1] != [d] by { assert s[0] == w[0] != d; }
      assert s[1..][..|w| - 1] == w[1..];
      SplitHeadKeeps(s[1..], w[1..], d);
    }
  }

  /** The characters of `s` that are not whitespace, in order. */
  function Visible(s: string): string
  {
    if s == [] then [] else (if IsSpace(s[0]) then [] else [s[0]]) + Visible(s[1..])
  }

  lemma {:induction false} VisibleAppend(a: string, b: string)
    ensures Visible(a + b) == Visible(a) + Visible(b)
  {
    if a == [] {
      assert a + b == b;
    } else {
      assert (a + b)[1..] == a[1..] + b;
      VisibleAppend(a[1..], b);
    }
  }

  lemma {:induction false} VisibleOfSpaces(s: string)
    requires forall i :: 0 <= i < |s| ==> IsSpace(s[i])
    ensures Visible(s) == []
  {
    if s != [] {
      VisibleOfSpaces(s[1..]);
    }
  }

  lemma {:induction false} VisibleOfSpaceless(s: string)
    requires forall i :: 0 <= i < |s| ==> !IsSpace(s[i])
    ensures Visible(s) == s
  {
    if s != [] {
      VisibleOfSpaceless(s[1..]);
    }
  }

  /** `strip()` removes whitespace only. */
  lemma VisibleStrip(s: string)
    ensures Visible(Strip(s)) == Visible(s)
  {
    VisibleLStrip(s);
    VisibleRStrip(LStrip(s));
  }

  lemma {:induction false} VisibleLStrip(s: string)
    ensures Visible(LStrip(s)) == Visible(s)
    decreases |s|
  {
    if |s| > 0 && IsSpace(s[0]) {
      VisibleLStrip(s[1..]);
    }
  }

  lemma {:induction false} VisibleRStrip(s: string)
    ensures Visible(RStrip(s)) == Visible(s)
    decreases |s|
  {
    if |s| > 0 && IsSpace(s[|s| - 1]) {
      var t := s[..|s| - 1];
      VisibleRStrip(t);
      assert s == t + [s[|s| - 1]];
      VisibleAppend(t, [s[|s| - 1]]);
      assert Visible([s[|s| - 1]]) == [];
    }
  }

  /** The length of the run of non-whitespace characters `s` starts with. */
  function WordLength(s: string): (n: nat)
    ensures n <= |s|
    ensures forall i :: 0 <= i < n ==> !IsSpace(s[i])
    ensures n == |s| || IsSpace(s[n])
  {
    if s == [] || IsSpace(s[0]) then 0 else 1 + WordLength(s[1..])
  }

  /** `s.split()`: the maximal runs of non-whitespace characters, in order. */
  function Words(s: string): (r: seq<string>)
    ensures forall i :: 0 <= i < |r| ==> r[i] != [] && forall j :: 0 <= j < |r[i]| ==> !IsSpace(r[i][j])
    decreases |s|
  {
    if s == [] then []
    else if IsSpace(s[0]) then Words(s[1..])
    else
      var n := WordLength(s);
      [s[..n]] + Words(s[n..])
  }

  /** A word: not empty, no whitespace. */
  predicate IsWord(w: string)
  {
    w != [] && forall j :: 0 <= j < |w| ==> !IsSpace(w[j])
  }

  /** `s.replace(pattern, replacement)`: occurrences found scanning left to
      right, without overlap, each replaced. */
  function Replace(s: string, pattern: string, replacement: string): string
    requires |pattern| > 0
    decreases |s|
  {
    if |s| < |pattern| then s
    else if s[..|pattern|] == pattern then replacement + Replace(s[|pattern|..], pattern, replacement)
    else [s[0]] + Replace(s[1..], pattern, replacement)
  }

  /** The concatenation of `parts`, `"".join(parts)`. */
  function Flatten(parts: seq<string>): string
  {
    if parts == [] then "" else parts[0] + Flatten(parts[1..])
  }

  predicate AllWords(ws: seq<string>)
  {
    forall i :: 0 <= i < |ws| ==> IsWord(ws[i])
  }

  /** The words of `s` hold exactly its non-whitespace characters. */
  lemma {:induction false} VisibleIsFlattenedWords(s: string)
    ensures Flatten(Words(s)) == Visible(s)
    decreases |s|
  {
    if s == [] {
    } else if IsSpace(s[0]) {
      VisibleIsFlattenedWords(s[1..]);
    } else {
      var n := WordLength(s);
      assert s == s[..n] + s[n..];
      VisibleAppend(s[..n], s[n..]);
      VisibleOfSpaceless(s[..n]);
      VisibleIsFlattenedWords(s[n..]);
      var ws := [s[..n]] + Words(s[n..]);
      assert ws[1..] == Words(s[n..]);
    }
  }

  lemma {:induction false} WordLengthOfWord(w: string, rest: string)
    requires IsWord(w)
    requires rest == [] || IsSpace(rest[0])
    ensures WordLength(w + rest) == |w|
    decreases |w|
  {
    assert (w + rest)[1..] == w[1..] + rest;
    if |w| > 1 {
      WordLengthOfWord(w[1..], rest);
    } else {
      assert w[1..] + rest == rest;
    }
  }

  /** `split()` undoes `" ".join(ws)` for a list of words. */
  lemma {:induction false} WordsOfJoin(ws: seq<string>)
    requires AllWords(ws)
    ensures Words(Join(ws, " ")) == ws
  {
    if |ws| == 0 {
    } else if |ws| == 1 {
      var w := ws[0];
      WordLengthOfWord(w, "");
      assert w + "" == w;
      assert w[|w|..] == "";
    } else {
      var w := ws[0];
      var rest := " " + Join(ws[1..], " ");
      var j := Join(ws, " ");
      assert j == w + rest;
      WordLengthOfWord(w, rest);
      assert j[..|w|] == w && j[|w|..] == rest;
      assert rest[1..] == Join(ws[1..], " ");
      WordsOfJoin(ws[1..]);
      assert Words(rest) == ws[1..];
    }
  }

  /** `" ".join(ws)` of words neither starts nor ends with whitespace. */
  lemma JoinOfWordsIsStripped(ws: seq<string>)
    requires AllWords(ws)
    ensures IsStripped(Join(ws, " "))
  {
    if |ws| > 0 {
      JoinLastChar(ws, " ");
      assert Join(ws, " ")[0] == ws[0][0];
    }
  }

  /** The non-whitespace characters of `" ".join(ws)` are those of the words. */
  lemma {:induction false} VisibleOfJoin(ws: seq<string>)
    requires AllWords(ws)
    ensures Visible(Join(ws, " ")) == Flatten(ws)
  {
    if |ws| == 0 {
    } else if |ws| == 1 {
      VisibleOfSpaceless(ws[0]);
      assert Flatten(ws[1..]) == "";
    } else {
      var rest := Join(ws[1..], " ");
      VisibleAppend(ws[0] + " ", rest);
      VisibleAppend(ws[0], " ");
      VisibleOfSpaceless(ws[0]);
      assert Visible(" ") == "";
      VisibleOfJoin(ws[1..]);
    }
  }
}
