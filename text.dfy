/**
 * Character classes and the few string operations of Python's `str` and `re`
 * that the scanner relies on.
 */
module Text {

  /** Python's str.isspace(), which is also the set `\s` matches in a str pattern. */
  predicate IsSpace(c: char) {
    var n := c as int;
    (9 <= n <= 13) || (28 <= n <= 32) || n == 0x85 || n == 0xA0 || n == 0x1680
    || (0x2000 <= n <= 0x200A) || n == 0x2028 || n == 0x2029 || n == 0x202F
    || n == 0x205F || n == 0x3000
  }

  /** `\w`, restricted to ASCII letters, digits and the underscore. */
  predicate IsWordChar(c: char) {
    ('a' <= c <= 'z') || ('A' <= c <= 'Z') || ('0' <= c <= '9') || c == '_'
  }

  /** The characters at which str.splitlines() ends a line. */
  predicate IsLineBoundary(c: char) {
    var n := c as int;
    (10 <= n <= 13) || (28 <= n <= 30) || n == 0x85 || n == 0x2028 || n == 0x2029
  }

  /** The character classes the tool's regular expressions repeat. */
  datatype CharClass =
    | Space            // \s
    | Word             // \w
    | AnyButNewline    // .
    | PathChar         // [^\s;]
    | NotLineBoundary  // what str.splitlines() keeps inside a line
    | NotSpace         // \S, what str.split() keeps inside a word

  predicate InClass(c: char, cls: CharClass) {
    match cls
    case Space => IsSpace(c)
    case Word => IsWordChar(c)
    case AnyButNewline => c != '\n'
    case PathChar => !IsSpace(c) && c != ';'
    case NotLineBoundary => !IsLineBoundary(c)
    case NotSpace => !IsSpace(c)
  }

  /** The end of the longest run of `cls` characters starting at `i` (a greedy `cls*`). */
  function Span(s: string, i: nat, cls: CharClass): (j: nat)
    requires i <= |s|
    ensures i <= j <= |s|
    decreases |s| - i
  {
    if i < |s| && InClass(s[i], cls) then Span(s, i + 1, cls) else i
  }

  /** What Span returns: a run of `cls` characters that cannot be extended. */
  lemma {:induction false} SpanIsMaximalRun(s: string, i: nat, cls: CharClass)
    requires i <= |s|
    ensures forall k :: i <= k < Span(s, i, cls) ==> InClass(s[k], cls)
    ensures Span(s, i, cls) == |s| || !InClass(s[Span(s, i, cls)], cls)
    decreases |s| - i
  {
    if i < |s| && InClass(s[i], cls) {
      SpanIsMaximalRun(s, i + 1, cls);
    }
  }

  /** A run of `cls` characters from i to j that cannot be extended is what Span finds. */
  lemma {:induction false} SpanOfMaximalRun(s: string, i: nat, j: nat, cls: CharClass)
    requires i <= j <= |s|
    requires forall k :: i <= k < j ==> InClass(s[k], cls)
    requires j == |s| || !InClass(s[j], cls)
    ensures Span(s, i, cls) == j
    decreases j - i
  {
    if i < j {
      SpanOfMaximalRun(s, i + 1, j, cls);
    }
  }

  /** str.startswith. */
  predicate StartsWith(s: string, prefix: string) {
    |prefix| <= |s| && s[..|prefix|] == prefix
  }

  predicate AllSpace(s: string) {
    forall k :: 0 <= k < |s| ==> IsSpace(s[k])
  }

  /** str.lstrip(): `r` is the suffix of `s` after its leading whitespace. */
  function LStrip(s: string): (r: string)
    ensures |r| <= |s| && r == s[|s| - |r|..]
    ensures AllSpace(s[..|s| - |r|])
    ensures r == "" || !IsSpace(r[0])
    decreases |s|
  {
    if |s| > 0 && IsSpace(s[0]) then
      var r := LStrip(s[1..]);
      assert s[..|s| - |r|] == [s[0]] + s[1..][..|s| - 1 - |r|];
      r
    else s
  }

  /** str.rstrip(): `r` is the prefix of `s` before its trailing whitespace. */
  function RStrip(s: string): (r: string)
    ensures |r| <= |s| && r == s[..|r|]
    ensures AllSpace(s[|r|..])
    ensures r == "" || !IsSpace(r[|r| - 1])
    decreases |s|
  {
    if |s| > 0 && IsSpace(s[|s| - 1]) then
      var r := RStrip(s[..|s| - 1]);
      assert s[|r|..] == s[..|s| - 1][|r|..] + [s[|s| - 1]];
      r
    else s
  }

  /** str.strip(). */
  function Strip(s: string): (r: string)
    ensures r == "" <==> AllSpace(s)
    ensures r != "" ==> !IsSpace(r[0]) && !IsSpace(r[|r| - 1])
  {
    var t := LStrip(s);
    assert t == "" ==> s[..|s| - |t|] == s;
    RStrip(t)
  }

  /** Stripping a word padded on the left with whitespace gives back the word. */
  lemma {:induction false} StripLeftPadded(w: string, t: string)
    requires AllSpace(w) && t != "" && !IsSpace(t[0]) && !IsSpace(t[|t| - 1])
    ensures Strip(w + t) == t
  {
    if w == [] {
      assert w + t == t;
    } else {
      assert (w + t)[1..] == w[1..] + t;
      StripLeftPadded(w[1..], t);
    }
  }

  /** s.split(c)[0]: the part of `s` before the first `c`. */
  function BeforeFirst(s: string, c: char): (r: string)
    ensures |r| <= |s| && r == s[..|r|]
    ensures c !in r
    ensures |r| < |s| ==> s[|r|] == c
  {
    if s == "" || s[0] == c then "" else [s[0]] + BeforeFirst(s[1..], c)
  }

  /** split(c)[0] of a padded word without `c` is the word. */
  lemma StripThenCut(w: string, t: string, c: char)
    requires AllSpace(w) && t != "" && !IsSpace(t[0]) && !IsSpace(t[|t| - 1]) && c !in t
    ensures BeforeFirst(Strip(w + t), c) == t
  {
    StripLeftPadded(w, t);
    CutAbsent(t, c);
  }

  /** The same, for the slice s[q..e] whose text from `a` on is the word. */
  lemma StripThenCutSlice(s: string, q: nat, a: nat, e: nat, c: char)
    requires q <= a < e <= |s| && AllSpace(s[q..a]) && c !in s[a..e]
    requires !IsSpace(s[a]) && !IsSpace(s[e - 1])
    ensures BeforeFirst(Strip(s[q..e]), c) == s[a..e]
  {
    var t := s[a..e];
    assert s[q..e] == s[q..a] + t;
    assert t[0] == s[a] && t[|t| - 1] == s[e - 1];
    StripThenCut(s[q..a], t, c);
  }

  /** split(c)[0] of text without `c` is the whole text. */
  lemma {:induction false} CutAbsent(s: string, c: char)
    requires c !in s
    ensures BeforeFirst(s, c) == s
  {
    if s != "" {
      assert c !in s[1..];
      CutAbsent(s[1..], c);
      assert [s[0]] + s[1..] == s;
    }
  }

  predicate NoSpace(w: string) {
    forall k :: 0 <= k < |w| ==> !IsSpace(w[k])
  }

  /** str.split() with no separator: the maximal runs of non-whitespace, in order. */
  function SplitWords(s: string): (words: seq<string>)
    ensures forall i :: 0 <= i < |words| ==> words[i] != "" && NoSpace(words[i])
    decreases |s|
  {
    var t := LStrip(s);
    if t == "" then []
    else
      var n := WordEnd(t);
      [t[..n]] + SplitWords(t[n..])
  }

  /** The end of the word at the start of `t`. */
  function WordEnd(t: string): (n: nat)
    requires t != "" && !IsSpace(t[0])
    ensures 1 <= n <= |t| && NoSpace(t[..n]) && (n == |t| || IsSpace(t[n]))
  {
    SpanIsMaximalRun(t, 0, NotSpace);
    var n := Span(t, 0, NotSpace);
    assert forall k :: 0 <= k < n ==> t[..n][k] == t[k];
    n
  }

  /** " ".join(words). */
  function JoinWords(words: seq<string>): string
    decreases |words|
  {
    if words == [] then "" else if |words| == 1 then words[0] else words[0] + " " + JoinWords(words[1..])
  }

  /** Whitespace in front does not change the words. */
  lemma {:induction false} SplitWordsAfterSpace(w: string, rest: string)
    requires AllSpace(w)
    ensures SplitWords(w + rest) == SplitWords(rest)
    decreases |w|
  {
    if w != [] {
      assert (w + rest)[1..] == w[1..] + rest;
      SplitWordsAfterSpace(w[1..], rest);
    } else {
      assert w + rest == rest;
    }
  }

  /** One word, then whitespace or the end: split() gives the word and then what follows. */
  lemma SplitWordsFirst(w: string, rest: string)
    requires w != "" && NoSpace(w) && (rest == "" || IsSpace(rest[0]))
    ensures SplitWords(w + rest) == [w] + SplitWords(rest)
  {
    var t := w + rest;
    assert LStrip(t) == t;
    SpanOfMaximalRun(t, 0, |w|, NotSpace);
    assert WordEnd(t) == |w|;
    assert t[..|w|] == w && t[|w|..] == rest;
  }

  lemma SplitOneWord(w: string)
    requires w != "" && NoSpace(w)
    ensures SplitWords(w) == [w]
  {
    SplitWordsFirst(w, "");
    assert w + "" == w;
    assert LStrip("") == "";
  }

  lemma SplitWordThenRest(w: string, rest: string)
    requires w != "" && NoSpace(w)
    ensures SplitWords(w + " " + rest) == [w] + SplitWords(rest)
  {
    assert w + " " + rest == w + (" " + rest);
    SplitWordsFirst(w, " " + rest);
    SplitWordsAfterSpace(" ", rest);
  }

  /** Splitting words joined by single spaces gives the words back. */
  lemma {:induction false} SplitJoinWords(words: seq<string>)
    requires forall i :: 0 <= i < |words| ==> words[i] != "" && NoSpace(words[i])
    ensures SplitWords(JoinWords(words)) == words
    decreases |words|
  {
    if words == [] {
      assert LStrip("") == "";
    } else if |words| == 1 {
      SplitOneWord(words[0]);
    } else {
      var w, tail := words[0], words[1..];
      var rest := JoinWords(tail);
      assert SplitWords(rest) == tail by {
        SplitJoinWords(tail);
      }
      assert SplitWords(w + " " + rest) == [w] + SplitWords(rest) by {
        SplitWordThenRest(w, rest);
      }
      assert JoinWords(words) == w + " " + rest;
      assert [w] + tail == words;
    }
  }

  /** s.count(c). */
  function Count(s: string, c: char): (n: nat)
    ensures n <= |s|
    ensures n == 0 <==> c !in s
  {
    if s == "" then 0 else (if s[0] == c then 1 else 0) + Count(s[1..], c)
  }

  /** count adds up over a concatenation. */
  lemma {:induction false} CountConcat(a: string, b: string, c: char)
    ensures Count(a + b, c) == Count(a, c) + Count(b, c)
    decreases |a|
  {
    if a == "" {
      assert a + b == b;
    } else {
      assert (a + b)[0] == a[0] && (a + b)[1..] == a[1..] + b;
      CountConcat(a[1..], b, c);
    }
  }

  /** s.replace(a, b) for single characters. */
  function ReplaceChar(s: string, a: char, b: char): (r: string)
    ensures |r| == |s|
    ensures forall k :: 0 <= k < |s| ==> r[k] == if s[k] == a then b else s[k]
  {
    if s == "" then "" else [if s[0] == a then b else s[0]] + ReplaceChar(s[1..], a, b)
  }

  /**
   * str.splitlines(): the pieces of `s` between line boundaries, "\r\n" counting as one
   * boundary, and no empty piece after a final boundary.
   */
  function SplitLines(s: string): (lines: seq<string>)
    ensures forall i, k :: 0 <= i < |lines| && 0 <= k < |lines[i]| ==> !IsLineBoundary(lines[i][k])
    ensures s == "" <==> lines == []
    decreases |s|
  {
    var i := Span(s, 0, NotLineBoundary);
    SpanIsMaximalRun(s, 0, NotLineBoundary);
    if i == |s| then (if s == "" then [] else [s])
    else
      var next := if s[i] == '\r' && i + 1 < |s| && s[i + 1] == '\n' then i + 2 else i + 1;
      [s[..i]] + SplitLines(s[next..])
  }
}
