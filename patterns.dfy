/**
 * The four regular expressions of the tool, each as a matcher at one position, and
 * re.finditer over them. Each pattern is deterministic: after every greedy repetition
 * the next item needs a character the repetition cannot have consumed, so backtracking
 * never finds a second match, and the match at a position is a function of it.
 */
module Patterns {
  import opened Text
  import opened Wrappers

  datatype Pattern =
    | GlobalAnnotation    // #bcli:\s+(\w+)\s+(.*)
    | FunctionDefinition  // (?m)^\s*(\w+)\s*\(\s*\)\s*\{
    | FunctionAnnotation  // #bcli:func\s+(\w+)\s+(.*)
    | IncludeStatement    // (?m)^\s*(?:\.|source)\s+([^\s;]+)

  /**
   * A match object: the span [start, end) of group 0 and the text of groups 1 and 2
   * (group2 is "" for the patterns with a single group).
   */
  datatype Hit = Hit(start: nat, end: nat, group1: string, group2: string)

  const GlobalTag := "#bcli:"
  const FunctionTag := "#bcli:func"

  /** `^` in MULTILINE mode. */
  predicate AtLineStart(s: string, q: nat)
    requires q <= |s|
  {
    q == 0 || s[q - 1] == '\n'
  }

  /** tag\s+(\w+)\s+(.*) at position q. */
  function MatchTagged(tag: string, s: string, q: nat): (r: Option<Hit>)
    requires q <= |s|
    ensures r.Some? ==> StartsWith(s[q..], tag) && q + |tag| < |s| && IsSpace(s[q + |tag|])
    ensures r.Some? ==> r.value.start == q && q + |tag| < r.value.end <= |s|
  {
    if !StartsWith(s[q..], tag) then None
    else
      var a := Span(s, q + |tag|, Space);
      var b := Span(s, a, Word);
      var c := Span(s, b, Space);
      var d := Span(s, c, AnyButNewline);
      if a == q + |tag| || b == a || c == b then None
      else Some(Hit(q, d, s[a..b], s[c..d]))
  }

  /** (?m)^\s*(\w+)\s*\(\s*\)\s*\{ at position q. */
  function MatchDefinition(s: string, q: nat): (r: Option<Hit>)
    requires q <= |s|
    ensures r.Some? ==> AtLineStart(s, q) && r.value.start == q < r.value.end <= |s|
    ensures r.Some? ==> r.value.group1 != ""
  {
    if !AtLineStart(s, q) then None
    else
      var a := Span(s, q, Space);
      var b := Span(s, a, Word);
      var c := Span(s, b, Space);
      if b == a || c == |s| || s[c] != '(' then None
      else
        var d := Span(s, c + 1, Space);
        if d == |s| || s[d] != ')' then None
        else
          var e := Span(s, d + 1, Space);
          if e == |s| || s[e] != '{' then None
          else Some(Hit(q, e + 1, s[a..b], ""))
  }

  /** (?m)^\s*(?:\.|source)\s+([^\s;]+) at position q. */
  function MatchInclude(s: string, q: nat): (r: Option<Hit>)
    requires q <= |s|
    ensures r.Some? ==> AtLineStart(s, q) && r.value.start == q < r.value.end <= |s|
    ensures r.Some? ==> r.value.group1 != ""
  {
    if !AtLineStart(s, q) then None
    else
      var a := Span(s, q, Space);
      var b := if a < |s| && s[a] == '.' then a + 1
               else if StartsWith(s[a..], "source") then a + 6
               else a;
      var c := Span(s, b, Space);
      var d := Span(s, c, PathChar);
      if b == a || c == b || d == c then None
      else Some(Hit(q, d, s[c..d], ""))
  }

  /**
   * The match of tag\s+(\w+)\s+(.*) at q, given where its four greedy runs end: the
   * whitespace at a, the key at b, the whitespace at c and the value at d.
   */
  lemma TaggedMatchAt(tag: string, s: string, q: nat, a: nat, b: nat, c: nat, d: nat)
    requires q + |tag| < a < b < c <= d <= |s| && StartsWith(s[q..], tag)
    requires Span(s, q + |tag|, Space) == a && Span(s, a, Word) == b
    requires Span(s, b, Space) == c && Span(s, c, AnyButNewline) == d
    ensures MatchTagged(tag, s, q) == Some(Hit(q, d, s[a..b], s[c..d]))
  {
  }

  /**
   * The include match at a line start q with no indentation: the keyword ends at b,
   * the whitespace after it at c and the path at d.
   */
  lemma IncludeMatchAt(s: string, q: nat, b: nat, c: nat, d: nat)
    requires q < b < c < d <= |s| && AtLineStart(s, q) && !IsSpace(s[q])
    requires (s[q] == '.' && b == q + 1) || (s[q] != '.' && StartsWith(s[q..], "source") && b == q + 6)
    requires Span(s, b, Space) == c && Span(s, c, PathChar) == d
    ensures MatchInclude(s, q) == Some(Hit(q, d, s[c..d], ""))
  {
    assert Span(s, q, Space) == q;
  }

  /** The keyword `.` or `source` occupying [a, b) holds no whitespace and no `;`. */
  lemma KeywordShape(s: string, a: nat, b: nat)
    requires a <= b <= |s|
    requires (a < |s| && s[a] == '.' && b == a + 1) || (StartsWith(s[a..], "source") && b == a + 6)
    ensures a < b && !IsSpace(s[a]) && forall k :: a <= k < b ==> s[k] != ';'
  {
    if s[a] != '.' {
      forall k | a <= k < b ensures s[k] != ';' {
        assert s[k] == s[a..][k - a] == "source"[k - a];
      }
      assert s[a] == s[a..][0] == 's';
    }
  }

  /** No `;` in s[a..d] when no position of [a, d) holds one. */
  lemma NoSemicolon(s: string, a: nat, d: nat)
    requires a <= d <= |s| && forall k :: a <= k < d ==> s[k] != ';'
    ensures ';' !in s[a..d]
  {
    forall k | 0 <= k < d - a ensures s[a..d][k] != ';' { assert s[a..d][k] == s[a + k]; }
  }

  /** All of s[q..a] is whitespace when every position of [q, a) is. */
  lemma SpaceRun(s: string, q: nat, a: nat)
    requires q <= a <= |s| && forall k :: q <= k < a ==> InClass(s[k], Space)
    ensures AllSpace(s[q..a])
  {
    forall k | 0 <= k < a - q ensures IsSpace(s[q..a][k]) { assert s[q..a][k] == s[q + k]; }
  }

  /**
   * The text an include match spans: indentation, then `.` or `source` at `a`, more
   * whitespace and the path, which ends the match. No `;` occurs after the indentation.
   */
  lemma IncludeMatchShape(s: string, q: nat) returns (a: nat)
    requires q <= |s| && MatchInclude(s, q).Some?
    ensures var h := MatchInclude(s, q).value;
      q <= a < h.end && AllSpace(s[q..a]) && ';' !in s[a..h.end]
      && (s[a] == '.' || StartsWith(s[a..], "source"))
      && !IsSpace(s[a]) && !IsSpace(s[h.end - 1])
      && s[h.end - |h.group1|..h.end] == h.group1
  {
    a := Span(s, q, Space);
    SpanIsMaximalRun(s, q, Space);
    SpaceRun(s, q, a);
    var b := if a < |s| && s[a] == '.' then a + 1
             else if StartsWith(s[a..], "source") then a + 6
             else a;
    KeywordShape(s, a, b);
    var c := Span(s, b, Space);
    SpanIsMaximalRun(s, b, Space);
    var d := Span(s, c, PathChar);
    SpanIsMaximalRun(s, c, PathChar);
    assert MatchInclude(s, q).value.end == d;
    assert InClass(s[d - 1], PathChar);
    NoSemicolon(s, a, d);
  }

  /** pattern.match(s, q): the match of `pat` starting exactly at q, if any. */
  function MatchAt(pat: Pattern, s: string, q: nat): (r: Option<Hit>)
    ensures r.Some? ==> r.value.start == q < r.value.end <= |s|
  {
    if q > |s| then None
    else
      match pat
      case GlobalAnnotation => MatchTagged(GlobalTag, s, q)
      case FunctionDefinition => MatchDefinition(s, q)
      case FunctionAnnotation => MatchTagged(FunctionTag, s, q)
      case IncludeStatement => MatchInclude(s, q)
  }

  /** `at` maps each position to the match starting there, if any, and matches are never empty. */
  ghost predicate IsMatcher(s: string, at: nat -> Option<Hit>) {
    forall q: nat :: at(q).Some? ==> at(q).value.start == q < at(q).value.end <= |s|
  }

  /**
   * finditer from position p: try at p; after a match resume at its end, otherwise at
   * p + 1. (No pattern here matches the empty string, so there is nothing to find at |s|.)
   */
  function FindIter(s: string, p: nat, at: nat -> Option<Hit>): (hits: seq<Hit>)
    requires p <= |s| && IsMatcher(s, at)
    ensures forall i :: 0 <= i < |hits| ==> p <= hits[i].start < hits[i].end <= |s|
    decreases |s| - p
  {
    if p == |s| then []
    else
      match at(p)
      case Some(h) => [h] + FindIter(s, h.end, at)
      case None => FindIter(s, p + 1, at)
  }

  /** pattern.finditer(s): all matches of `pat` in `s`. */
  function Hits(pat: Pattern, s: string): (hits: seq<Hit>)
    ensures forall i :: 0 <= i < |hits| ==> hits[i].start < hits[i].end <= |s|
  {
    FindIter(s, 0, (q: nat) => MatchAt(pat, s, q))
  }

  /** One step of finditer at a position where a match starts. */
  lemma FindIterHitStep(s: string, p: nat, at: nat -> Option<Hit>, h: Hit)
    requires p < |s| && IsMatcher(s, at) && at(p) == Some(h)
    ensures FindIter(s, p, at) == [h] + FindIter(s, h.end, at)
  {
  }

  /** One step of finditer at a position where nothing matches. */
  lemma FindIterMissStep(s: string, p: nat, at: nat -> Option<Hit>)
    requires p < |s| && IsMatcher(s, at) && at(p) == None
    ensures FindIter(s, p, at) == FindIter(s, p + 1, at)
  {
  }

  /** Every hit finditer reports is the match at the hit's start. */
  lemma {:induction false} FindIterSound(s: string, p: nat, at: nat -> Option<Hit>)
    requires p <= |s| && IsMatcher(s, at)
    ensures forall i :: 0 <= i < |FindIter(s, p, at)| ==>
      at(FindIter(s, p, at)[i].start) == Some(FindIter(s, p, at)[i])
    decreases |s| - p
  {
    if p < |s| {
      var hits := FindIter(s, p, at);
      if at(p).Some? {
        var h := at(p).value;
        var rest := FindIter(s, h.end, at);
        assert hits == [h] + rest;
        FindIterSound(s, h.end, at);
        forall i | 0 <= i < |hits| ensures at(hits[i].start) == Some(hits[i]) {
          if i > 0 { assert hits[i] == rest[i - 1]; }
        }
      } else {
        FindIterSound(s, p + 1, at);
      }
    }
  }

  /** The hits come in text order and do not overlap. */
  lemma {:induction false} FindIterOrdered(s: string, p: nat, at: nat -> Option<Hit>)
    requires p <= |s| && IsMatcher(s, at)
    ensures forall i, j :: 0 <= i < j < |FindIter(s, p, at)| ==>
      FindIter(s, p, at)[i].end <= FindIter(s, p, at)[j].start
    decreases |s| - p
  {
    if p < |s| {
      var hits := FindIter(s, p, at);
      if at(p).Some? {
        var h := at(p).value;
        var rest := FindIter(s, h.end, at);
        assert hits == [h] + rest;
        FindIterOrdered(s, h.end, at);
        forall i, j | 0 <= i < j < |hits| ensures hits[i].end <= hits[j].start {
          assert hits[j] == rest[j - 1];
          if i > 0 { assert hits[i] == rest[i - 1]; }
        }
      } else {
        FindIterOrdered(s, p + 1, at);
      }
    }
  }

  /**
   * No match is missed: every position at or after p where a match starts lies in the
   * span of a reported hit (it starts one, or an earlier hit already covers it).
   */
  lemma {:induction false} FindIterCovers(s: string, p: nat, at: nat -> Option<Hit>, q: nat)
    requires p <= q <= |s| && IsMatcher(s, at)
    requires at(q).Some?
    ensures exists i :: (0 <= i < |FindIter(s, p, at)| &&
      FindIter(s, p, at)[i].start <= q < FindIter(s, p, at)[i].end)
    decreases |s| - p
  {
    var hits := FindIter(s, p, at);
    if at(p).Some? {
      var h := at(p).value;
      var rest := FindIter(s, h.end, at);
      assert hits == [h] + rest;
      if q >= h.end {
        FindIterCovers(s, h.end, at, q);
        var i :| 0 <= i < |rest| && rest[i].start <= q < rest[i].end;
        assert hits[i + 1] == rest[i];
      } else {
        assert hits[0].start <= q < hits[0].end;
      }
    } else {
      FindIterCovers(s, p + 1, at, q);
    }
  }

  /**
   * finditer over a text with a match from position 0 and one from just after its end,
   * with nothing at the end of either and one character after the second.
   */
  lemma TwoHits(pat: Pattern, s: string, h1: Hit, h2: Hit)
    requires h1.start == 0 && h2.start == h1.end + 1 && h2.end + 1 == |s|
    requires MatchAt(pat, s, 0) == Some(h1) && MatchAt(pat, s, h1.end) == None
    requires MatchAt(pat, s, h2.start) == Some(h2) && MatchAt(pat, s, h2.end) == None
    ensures Hits(pat, s) == [h1, h2]
  {
    var at := (q: nat) => MatchAt(pat, s, q);
    FindIterTwo(s, at, h1, h2);
  }

  /**
   * `TwoHits` for the include pattern over a text of two lines: a path of length n1
   * ending the first match at 2 + n1, a path of length n2 ending the second at 10 + n1 + n2.
   */
  lemma TwoIncludeHits(s: string, p1: string, p2: string)
    requires 11 + |p1| + |p2| == |s|
    requires MatchInclude(s, 0) == Some(Hit(0, 2 + |p1|, p1, ""))
    requires MatchInclude(s, 2 + |p1|) == None
    requires MatchInclude(s, 3 + |p1|) == Some(Hit(3 + |p1|, 10 + |p1| + |p2|, p2, ""))
    requires MatchInclude(s, 10 + |p1| + |p2|) == None
    ensures Hits(IncludeStatement, s) == [Hit(0, 2 + |p1|, p1, ""), Hit(3 + |p1|, 10 + |p1| + |p2|, p2, "")]
  {
    TwoHits(IncludeStatement, s, Hit(0, 2 + |p1|, p1, ""), Hit(3 + |p1|, 10 + |p1| + |p2|, p2, ""));
  }

  /** The same for any matcher. */
  lemma FindIterTwo(s: string, at: nat -> Option<Hit>, h1: Hit, h2: Hit)
    requires IsMatcher(s, at)
    requires h1.start == 0 && h2.start == h1.end + 1 && h2.end + 1 == |s|
    requires at(0) == Some(h1) && at(h1.end) == None && at(h2.start) == Some(h2) && at(h2.end) == None
    ensures FindIter(s, 0, at) == [h1, h2]
  {
    FindIterHitStep(s, 0, at, h1);
    FindIterMissStep(s, h1.end, at);
    FindIterHitStep(s, h2.start, at, h2);
    FindIterMissStep(s, h2.end, at);
    assert FindIter(s, |s|, at) == [];
  }

  /** Every hit of a pattern over a text is that pattern's match at the hit's start. */
  lemma HitIsMatch(pat: Pattern, s: string, i: nat)
    requires i < |Hits(pat, s)|
    ensures MatchAt(pat, s, Hits(pat, s)[i].start) == Some(Hits(pat, s)[i])
  {
    var at := (q: nat) => MatchAt(pat, s, q);
    FindIterSound(s, 0, at);
    assert Hits(pat, s) == FindIter(s, 0, at);
  }
}
