/**
 * scan_bash_file: the metadata of one script — its global annotations, its functions in
 * text order with the annotations written directly above each, and its includes.
 */
module Scanner {
  import opened Text
  import opened Patterns
  import opened Wrappers
  import opened Includes

  /** One entry of the function list. */
  datatype Function = Function(name: string, annotations: map<string, string>)

  /** The dictionary scan_bash_file returns for a script that exists. */
  datatype FileMetadata = FileMetadata(
    file: string,
    globalAnnotations: map<string, string>,
    functions: seq<Function>,
    includes: seq<Include>)

  /** The dictionary left by assigning d[key] = value for each pair in order. */
  function Assign(pairs: seq<(string, string)>): map<string, string>
    decreases |pairs|
  {
    if pairs == [] then map[]
    else Assign(pairs[..|pairs| - 1])[pairs[|pairs| - 1].0 := pairs[|pairs| - 1].1]
  }

  /**
   * A key is in the dictionary exactly when some pair assigns it, and it holds the value
   * of the last pair that does.
   */
  lemma AssignLastWins(pairs: seq<(string, string)>, key: string)
    ensures key in Assign(pairs) <==> exists i :: 0 <= i < |pairs| && pairs[i].0 == key
    ensures key in Assign(pairs) ==>
      exists i :: 0 <= i < |pairs| && pairs[i] == (key, Assign(pairs)[key])
        && forall j :: i < j < |pairs| ==> pairs[j].0 != key
  {
    AssignKeys(pairs, key);
    if key in Assign(pairs) {
      AssignValue(pairs, key);
    }
  }

  lemma {:induction false} AssignKeys(pairs: seq<(string, string)>, key: string)
    ensures key in Assign(pairs) <==> exists i :: 0 <= i < |pairs| && pairs[i].0 == key
    decreases |pairs|
  {
    if pairs != [] {
      var n := |pairs| - 1;
      var init := pairs[..n];
      assert forall i :: 0 <= i < n ==> pairs[i] == init[i];
      AssignKeys(init, key);
    }
  }

  lemma {:induction false} AssignValue(pairs: seq<(string, string)>, key: string)
    requires key in Assign(pairs)
    ensures exists i :: 0 <= i < |pairs| && pairs[i] == (key, Assign(pairs)[key])
                          && forall j :: i < j < |pairs| ==> pairs[j].0 != key
    decreases |pairs|
  {
    var n := |pairs| - 1;
    var init := pairs[..n];
    if pairs[n].0 == key {
      assert pairs[n] == (key, Assign(pairs)[key]);
    } else {
      assert forall i :: 0 <= i < n ==> pairs[i] == init[i];
      AssignValue(init, key);
      var i :| 0 <= i < n && init[i] == (key, Assign(init)[key])
        && forall j :: i < j < n ==> init[j].0 != key;
      assert pairs[i] == (key, Assign(pairs)[key]);
    }
  }

  // ---------------------------------------------------------------- global annotations

  /** (group 1, group 2) of every match of the global annotation pattern, in text order. */
  function GlobalPairs(content: string): (pairs: seq<(string, string)>)
    ensures |pairs| == |Hits(GlobalAnnotation, content)|
  {
    var hits := Hits(GlobalAnnotation, content);
    seq(|hits|, k requires 0 <= k < |hits| => (hits[k].group1, hits[k].group2))
  }

  /** The loop over global_annotation_re.finditer(content). */
  method ScanGlobalAnnotations(content: string) returns (annotations: map<string, string>)
    ensures annotations == Assign(GlobalPairs(content))
  {
    annotations := map[];
    var hits := Hits(GlobalAnnotation, content);
    ghost var pairs := GlobalPairs(content);
    for i := 0 to |hits|
      invariant annotations == Assign(pairs[..i])
    {
      assert pairs[..i + 1][..i] == pairs[..i];
      annotations := annotations[hits[i].group1 := hits[i].group2];
    }
    assert pairs[..|hits|] == pairs;
  }

  /**
   * The global annotations of a script: a key is present exactly when some match names
   * it, and the last such match in the text gives its value.
   */
  lemma GlobalAnnotationsLastWins(content: string, key: string)
    ensures var hits := Hits(GlobalAnnotation, content);
      key in Assign(GlobalPairs(content)) <==> exists i :: 0 <= i < |hits| && hits[i].group1 == key
    ensures var hits := Hits(GlobalAnnotation, content);
      key in Assign(GlobalPairs(content)) ==>
        exists i :: 0 <= i < |hits| && hits[i].group1 == key
          && hits[i].group2 == Assign(GlobalPairs(content))[key]
          && forall j :: i < j < |hits| ==> hits[j].group1 != key
  {
    var hits := Hits(GlobalAnnotation, content);
    var pairs := GlobalPairs(content);
    AssignLastWins(pairs, key);
    assert forall i :: 0 <= i < |hits| ==> pairs[i] == (hits[i].group1, hits[i].group2);
  }

  /**
   * `\s+` also matches a newline, so an annotation line `#bcli: <key>` without a value
   * takes the whole next line as its value; finditer resumes after that line, so an
   * annotation written there (`#bcli: other v`, say) is not read.
   */
  lemma ValuelessAnnotationTakesNextLine(key: string, next: string)
    requires IsWordRun(key) && next != "" && !IsSpace(next[0]) && '\n' !in next
    ensures var s := GlobalTag + " " + key + "\n" + next;
      Hits(GlobalAnnotation, s) == [Hit(0, |s|, key, next)]
      && Assign(GlobalPairs(s)) == map[key := next]
  {
    var s := GlobalTag + " " + key + "\n" + next;
    var h := Hit(0, |s|, key, next);
    ValuelessMatch(key, next);
    var at := (q: nat) => MatchAt(GlobalAnnotation, s, q);
    assert IsMatcher(s, at);
    FindIterHitStep(s, 0, at, h);
    assert Hits(GlobalAnnotation, s) == [h];
    assert GlobalPairs(s) == [(key, next)];
    assert Assign([(key, next)]) == map[key := next] by {
      assert [(key, next)][..0] == [];
    }
  }

  /** The match of the global pattern at the start of `#bcli: <key>\n<next>`. */
  lemma ValuelessMatch(key: string, next: string)
    requires IsWordRun(key) && next != "" && !IsSpace(next[0]) && '\n' !in next
    ensures var s := GlobalTag + " " + key + "\n" + next;
      MatchTagged(GlobalTag, s, 0) == Some(Hit(0, |s|, key, next))
  {
    var s := GlobalTag + " " + key + "\n" + next;
    var b := 7 + |key|;
    assert |GlobalTag| == 6 && s[0..][..6] == GlobalTag && s[6] == ' ' && s[b] == '\n';
    assert s[7..b] == key && s[b + 1..|s|] == next;
    assert s[7] == key[0] && s[b + 1] == next[0];
    SpanOfMaximalRun(s, 6, 7, Space);
    forall k | 7 <= k < b ensures InClass(s[k], Word) {
      assert s[k] == key[k - 7];
    }
    SpanOfMaximalRun(s, 7, b, Word);
    SpanOfMaximalRun(s, b, b + 1, Space);
    forall k | b + 1 <= k < |s| ensures InClass(s[k], AnyButNewline) {
      assert s[k] == next[k - b - 1];
    }
    SpanOfMaximalRun(s, b + 1, |s|, AnyButNewline);
    TaggedMatchAt(GlobalTag, s, 0, 7, b, b + 1, |s|);
  }

  /**
   * A function annotation is never read as a global one: after "#bcli:" the global
   * pattern needs whitespace, and "#bcli:func" has an `f` there.
   */
  lemma FunctionTagIsNotGlobal(s: string, q: nat)
    requires q <= |s| && StartsWith(s[q..], FunctionTag)
    ensures MatchAt(GlobalAnnotation, s, q).None?
  {
    assert s[q + |GlobalTag|] == s[q..][|GlobalTag|] == FunctionTag[|GlobalTag|] == 'f';
  }

  // ------------------------------------------------------------- function annotations

  /** func_annotation_re.match(line): the annotation at the very start of the line. */
  function AnnotationOf(line: string): Option<(string, string)> {
    match MatchTagged(FunctionTag, line, 0)
    case Some(h) => Some((h.group1, h.group2))
    case None => None
  }

  /** What the upward walk makes of one line. */
  datatype LineKind =
    | Annotation(key: string, value: string)  // recorded, and the walk goes on
    | Passed                                   // blank or a comment: the walk goes on
    | Code                                     // anything else: the walk stops

  /**
   * How the loop reads one line: an annotation when func_annotation_re.match succeeds,
   * the end of the walk when the stripped line is neither empty nor a comment.
   */
  function Classify(line: string): LineKind {
    match AnnotationOf(line)
    case Some(p) => Annotation(p.0, p.1)
    case None => if Strip(line) != "" && !StartsWith(Strip(line), "#") then Code else Passed
  }

  /**
   * What a line's kind means. A line stops the walk exactly when its stripped text is
   * neither empty nor a comment: an annotation line starts with '#', so the stop test
   * does not depend on the annotation pattern. An annotation line starts with the tag,
   * its key is a run of word characters, and its value holds no newline and, on a line
   * without one, runs to the end of the line.
   */
  lemma ClassifyMeaning(line: string)
    ensures Classify(line).Code? <==> Strip(line) != "" && !StartsWith(Strip(line), "#")
    ensures Classify(line).Annotation? <==> AnnotationOf(line).Some?
    ensures Classify(line).Annotation? ==> var kind := Classify(line);
      && StartsWith(line, FunctionTag) && IsWordRun(kind.key) && '\n' !in kind.value
      && ('\n' !in line ==> |kind.value| <= |line| && kind.value == line[|line| - |kind.value|..])
  {
    if AnnotationOf(line).Some? {
      AnnotationShape(line);
      CommentIsNotCode(line);
    }
  }

  /** A non-empty run of `\w` characters. */
  predicate IsWordRun(w: string) {
    w != "" && forall k :: 0 <= k < |w| ==> IsWordChar(w[k])
  }

  /**
   * An annotation line starts with the tag; its key is a run of word characters; its
   * value holds no newline and, on a line without one, runs to the end of the line.
   */
  lemma AnnotationShape(line: string)
    requires AnnotationOf(line).Some?
    ensures var (key, value) := AnnotationOf(line).value;
      StartsWith(line, FunctionTag) && IsWordRun(key) && '\n' !in value
      && ('\n' !in line ==> |value| <= |line| && value == line[|line| - |value|..])
  {
    var q := |FunctionTag|;
    assert line[0..] == line;
    var a := Span(line, q, Space);
    var b := Span(line, a, Word);
    var c := Span(line, b, Space);
    var d := Span(line, c, AnyButNewline);
    SpanIsMaximalRun(line, a, Word);
    SpanIsMaximalRun(line, c, AnyButNewline);
    var h := MatchTagged(FunctionTag, line, 0).value;
    assert h.group1 == line[a..b] && h.group2 == line[c..d];
    assert forall k :: 0 <= k < |h.group1| ==> h.group1[k] == line[a + k];
    assert forall k :: 0 <= k < |h.group2| ==> h.group2[k] == line[c + k];
  }

  /** A line that starts with '#' is a comment to the stop test. */
  lemma CommentIsNotCode(line: string)
    requires line != "" && line[0] == '#'
    ensures Strip(line) != "" && StartsWith(Strip(line), "#")
  {
    assert !IsSpace(line[0]);
    assert LStrip(line) == line;
    var r := RStrip(line);
    assert r != "";
    assert r[0] == line[0];
  }

  /** Each line read by Classify. */
  function KindsOf(lines: seq<string>): (kinds: seq<LineKind>)
    ensures |kinds| == |lines|
  {
    seq(|lines|, k requires 0 <= k < |lines| => Classify(lines[k]))
  }

  /**
   * The upward walk over the kinds of the lines above a definition, the nearest last:
   * an annotation line is assigned, a blank or comment line is passed and the first
   * line of code ends the walk. Later assignments win, so a line further up overrides
   * one nearer the definition.
   */
  function UpwardWalk(kinds: seq<LineKind>): map<string, string>
    decreases |kinds|
  {
    if kinds == [] then map[]
    else
      var above := UpwardWalk(kinds[..|kinds| - 1]);
      match kinds[|kinds| - 1]
      case Code => map[]
      case Passed => above
      case Annotation(key, value) => map[key := value] + above
  }

  /** The annotations of a function whose definition the lines `precedingLines` precede. */
  function FunctionAnnotations(precedingLines: seq<string>): map<string, string> {
    UpwardWalk(KindsOf(precedingLines))
  }

  /** Where the walk ends: the index of the topmost line it visits. */
  function WalkTop(kinds: seq<LineKind>): (top: nat)
    ensures top <= |kinds|
    ensures forall j :: top <= j < |kinds| ==> !kinds[j].Code?
    ensures 0 < top ==> kinds[top - 1].Code?
    decreases |kinds|
  {
    if kinds == [] then 0
    else if kinds[|kinds| - 1].Code? then |kinds|
    else
      var init := kinds[..|kinds| - 1];
      assert forall j :: 0 <= j < |init| ==> kinds[j] == init[j];
      WalkTop(init)
  }

  /**
   * One step of the walk seen from the loop: the dictionary built so far, overridden by
   * the walk over the lines still above, after the nearest of those lines is handled.
   */
  lemma WalkStep(kinds: seq<LineKind>, m: map<string, string>)
    requires kinds != []
    ensures var last, above := kinds[|kinds| - 1], kinds[..|kinds| - 1];
      && (last.Annotation? ==> m + UpwardWalk(kinds) == m[last.key := last.value] + UpwardWalk(above))
      && (last.Passed? ==> m + UpwardWalk(kinds) == m + UpwardWalk(above))
      && (last.Code? ==> m + UpwardWalk(kinds) == m)
  {
  }

  lemma OverrideByNothing(m: map<string, string>)
    ensures m + map[] == m
  {
  }

  lemma NothingOverridden(m: map<string, string>)
    ensures map[] + m == m
  {
  }

  /**
   * One pass of the loop body over line `r - 1`, the nearest of the first `r` lines that
   * the walk has not handled, for each outcome of its tests in the source's order: an
   * annotation line is assigned, a line of code ends the walk, any other line is passed.
   * Each keeps "the dictionary so far, overridden by the walk over the lines still above,
   * is the whole walk".
   */
  lemma StepAnnotation(lines: seq<string>, r: nat, annotations: map<string, string>, whole: map<string, string>)
    requires 0 < r <= |lines| && annotations + UpwardWalk(KindsOf(lines)[..r]) == whole
    requires MatchTagged(FunctionTag, lines[r - 1], 0).Some?
    ensures var m := MatchTagged(FunctionTag, lines[r - 1], 0).value;
      annotations[m.group1 := m.group2] + UpwardWalk(KindsOf(lines)[..r - 1]) == whole
  {
    StepKinds(lines, r);
    ClassifyByMatch(lines[r - 1]);
    WalkStep(KindsOf(lines)[..r], annotations);
  }

  lemma StepCode(lines: seq<string>, r: nat, annotations: map<string, string>, whole: map<string, string>)
    requires 0 < r <= |lines| && annotations + UpwardWalk(KindsOf(lines)[..r]) == whole
    requires MatchTagged(FunctionTag, lines[r - 1], 0).None?
    requires Strip(lines[r - 1]) != "" && !StartsWith(Strip(lines[r - 1]), "#")
    ensures annotations == whole
  {
    StepKinds(lines, r);
    ClassifyByMatch(lines[r - 1]);
    WalkStep(KindsOf(lines)[..r], annotations);
  }

  lemma StepPassed(lines: seq<string>, r: nat, annotations: map<string, string>, whole: map<string, string>)
    requires 0 < r <= |lines| && annotations + UpwardWalk(KindsOf(lines)[..r]) == whole
    requires MatchTagged(FunctionTag, lines[r - 1], 0).None?
    requires !(Strip(lines[r - 1]) != "" && !StartsWith(Strip(lines[r - 1]), "#"))
    ensures annotations + UpwardWalk(KindsOf(lines)[..r - 1]) == whole
  {
    StepKinds(lines, r);
    ClassifyByMatch(lines[r - 1]);
    WalkStep(KindsOf(lines)[..r], annotations);
  }

  /** The first `r` kinds are the first `r - 1` followed by the kind of line `r - 1`. */
  lemma StepKinds(lines: seq<string>, r: nat)
    requires 0 < r <= |lines|
    ensures var kinds := KindsOf(lines);
      kinds[..r][..r - 1] == kinds[..r - 1] && kinds[..r][r - 1] == Classify(lines[r - 1])
  {
  }

  /** The tests of the loop body, in the source's order, give the line's kind. */
  lemma ClassifyByMatch(line: string)
    ensures var m := MatchTagged(FunctionTag, line, 0);
      && (m.Some? ==> Classify(line) == Annotation(m.value.group1, m.value.group2))
      && (m.None? ==> (Classify(line).Code? <==> Strip(line) != "" && !StartsWith(Strip(line), "#")))
      && (m.None? ==> (Classify(line).Passed? <==> !(Strip(line) != "" && !StartsWith(Strip(line), "#"))))
  {
  }

  /**
   * The loop of scan_bash_file over reversed(preceding_lines), with its `break`: `rest`
   * counts the lines not yet visited, so the line visited is the nearest of those.
   */
  method CollectFunctionAnnotations(precedingLines: seq<string>) returns (annotations: map<string, string>)
    ensures annotations == FunctionAnnotations(precedingLines)
  {
    ghost var kinds := KindsOf(precedingLines);
    ghost var whole := UpwardWalk(kinds);
    annotations := map[];
    assert kinds[..|precedingLines|] == kinds;
    NothingOverridden(whole);
    var rest := |precedingLines|;
    while rest > 0
      invariant 0 <= rest <= |precedingLines|
      invariant annotations + UpwardWalk(kinds[..rest]) == whole
    {
      var line := precedingLines[rest - 1];
      var annotationMatch := MatchTagged(FunctionTag, line, 0);
      if annotationMatch.Some? {
        StepAnnotation(precedingLines, rest, annotations, whole);
        annotations := annotations[annotationMatch.value.group1 := annotationMatch.value.group2];
      } else if Strip(line) != "" && !StartsWith(Strip(line), "#") {
        StepCode(precedingLines, rest, annotations, whole);
        break;
      } else {
        StepPassed(precedingLines, rest, annotations, whole);
      }
      rest := rest - 1;
    }
    OverrideByNothing(annotations);
  }

  /**
   * Which annotations a function gets: a key is present exactly when an annotation line
   * the walk visits names it, and the topmost such line gives its value.
   */
  lemma WalkTopmostWins(kinds: seq<LineKind>, key: string)
    ensures key in UpwardWalk(kinds) <==>
      exists j :: WalkTop(kinds) <= j < |kinds| && kinds[j].Annotation? && kinds[j].key == key
    ensures key in UpwardWalk(kinds) ==>
      exists j :: WalkTop(kinds) <= j < |kinds| && kinds[j] == Annotation(key, UpwardWalk(kinds)[key])
        && forall j' :: WalkTop(kinds) <= j' < j ==> !(kinds[j'].Annotation? && kinds[j'].key == key)
  {
    WalkKeys(kinds, key);
    if key in UpwardWalk(kinds) {
      WalkValue(kinds, key);
    }
  }

  lemma {:induction false} WalkKeys(kinds: seq<LineKind>, key: string)
    ensures key in UpwardWalk(kinds) <==>
      exists j :: WalkTop(kinds) <= j < |kinds| && kinds[j].Annotation? && kinds[j].key == key
    decreases |kinds|
  {
    if kinds != [] && !kinds[|kinds| - 1].Code? {
      var n := |kinds| - 1;
      var init := kinds[..n];
      WalkKeys(init, key);
      assert forall j :: 0 <= j < n ==> kinds[j] == init[j];
    }
  }

  lemma {:induction false} WalkValue(kinds: seq<LineKind>, key: string)
    requires key in UpwardWalk(kinds)
    ensures exists j :: WalkTop(kinds) <= j < |kinds| && kinds[j] == Annotation(key, UpwardWalk(kinds)[key])
                          && forall j' :: WalkTop(kinds) <= j' < j ==> !(kinds[j'].Annotation? && kinds[j'].key == key)
    decreases |kinds|
  {
    var n := |kinds| - 1;
    var init := kinds[..n];
    assert forall j :: 0 <= j < n ==> kinds[j] == init[j];
    assert WalkTop(kinds) == WalkTop(init);
    if key in UpwardWalk(init) {
      WalkValue(init, key);
    } else {
      WalkKeys(init, key);
      assert kinds[n] == Annotation(key, UpwardWalk(kinds)[key]);
    }
  }

  /**
   * A line of code hides everything above it: the annotations depend only on the lines
   * between the definition and the nearest line of code.
   */
  lemma {:induction false} CodeHidesAbove(kinds: seq<LineKind>, j: nat)
    requires j < |kinds| && kinds[j].Code?
    ensures UpwardWalk(kinds) == UpwardWalk(kinds[j..])
    decreases |kinds|
  {
    var n := |kinds| - 1;
    if j < n {
      var init := kinds[..n];
      CodeHidesAbove(init, j);
      assert kinds[j..][..|kinds[j..]| - 1] == init[j..];
      assert kinds[j..][|kinds[j..]| - 1] == kinds[n];
    } else {
      assert kinds[j..] == [kinds[j]];
      assert [kinds[j]][..0] == [];
    }
  }

  /** An indented annotation is not one: the pattern is matched at the start of the line. */
  lemma IndentedAnnotationIgnored(line: string)
    requires line != "" && IsSpace(line[0])
    ensures AnnotationOf(line).None?
  {
    assert FunctionTag[0] == '#';
  }

  // ------------------------------------------------------------------------ functions

  lemma PrefixGrows<T>(s: seq<T>, i: nat)
    requires i < |s|
    ensures s[..i + 1] == s[..i] + [s[i]]
  {
  }

  /** The function list scan_bash_file builds: one entry per definition, in text order. */
  function FunctionsOf(content: string): (fs: seq<Function>)
    ensures |fs| == |Hits(FunctionDefinition, content)|
  {
    var hits := Hits(FunctionDefinition, content);
    seq(|hits|, k requires 0 <= k < |hits| =>
      Function(hits[k].group1, FunctionAnnotations(SplitLines(content[..hits[k].start]))))
  }

  /** The loop over function_re.finditer(content). */
  method ScanFunctions(content: string) returns (functions: seq<Function>)
    ensures functions == FunctionsOf(content)
  {
    functions := [];
    var hits := Hits(FunctionDefinition, content);
    ghost var all := FunctionsOf(content);
    for i := 0 to |hits|
      invariant functions == all[..i]
    {
      var name := hits[i].group1;
      var funcStartIndex := hits[i].start;
      var precedingLines := SplitLines(content[..funcStartIndex]);
      var annotations := CollectFunctionAnnotations(precedingLines);
      assert all[i] == Function(name, annotations);
      PrefixGrows(all, i);
      functions := functions + [Function(name, annotations)];
    }
    assert all[..|hits|] == all;
  }

  /**
   * The function list names every definition finditer reports, in text order, each
   * entry at a definition match at the start of a line, the matches not overlapping;
   * and every position where the definition pattern matches lies inside a reported
   * definition.
   */
  lemma FunctionsAreDefinitions(content: string)
    ensures var hits := Hits(FunctionDefinition, content);
      forall k :: 0 <= k < |hits| ==>
        FunctionsOf(content)[k].name == hits[k].group1 != ""
        && MatchAt(FunctionDefinition, content, hits[k].start) == Some(hits[k])
    ensures var hits := Hits(FunctionDefinition, content);
      forall i, j :: 0 <= i < j < |hits| ==> hits[i].end <= hits[j].start
    ensures forall q: nat :: q <= |content| && MatchDefinition(content, q).Some? ==>
      exists i :: (0 <= i < |Hits(FunctionDefinition, content)|
        && Hits(FunctionDefinition, content)[i].start <= q < Hits(FunctionDefinition, content)[i].end)
  {
    var hits := Hits(FunctionDefinition, content);
    var at := (q: nat) => MatchAt(FunctionDefinition, content, q);
    assert hits == FindIter(content, 0, at);
    FindIterSound(content, 0, at);
    FindIterOrdered(content, 0, at);
    forall q: nat | q <= |content| && MatchDefinition(content, q).Some?
      ensures exists i :: (0 <= i < |hits| && hits[i].start <= q < hits[i].end)
    {
      DefinitionsCovered(content, q);
    }
  }

  /** No definition is missed: every match position lies inside a reported one. */
  lemma DefinitionsCovered(content: string, q: nat)
    requires q <= |content| && MatchDefinition(content, q).Some?
    ensures exists i :: (0 <= i < |Hits(FunctionDefinition, content)|
      && Hits(FunctionDefinition, content)[i].start <= q < Hits(FunctionDefinition, content)[i].end)
  {
    var at := (q: nat) => MatchAt(FunctionDefinition, content, q);
    assert Hits(FunctionDefinition, content) == FindIter(content, 0, at);
    assert at(q).Some?;
    FindIterCovers(content, 0, at, q);
  }

  // ----------------------------------------------------------------------- the whole file

  /**
   * scan_bash_file(file_path): nothing (the source's empty dict) for a missing file,
   * otherwise the file's global annotations, functions and includes.
   */
  method ScanBashFile(env: Env, filePath: string) returns (r: Option<FileMetadata>)
    ensures r.None? <==> filePath !in env.fs
    ensures r.Some? ==> (r.value.file == filePath
      && r.value.globalAnnotations == Assign(GlobalPairs(env.fs[filePath]))
      && r.value.functions == FunctionsOf(env.fs[filePath])
      && r.value.includes == ResolveFile(ToolWalk(env, filePath), filePath, {}).0)
  {
    if filePath !in env.fs {
      // the source reports the missing file on stderr
      return None;
    }
    var content := env.fs[filePath];
    var globalAnnotations := ScanGlobalAnnotations(content);
    var functions := ScanFunctions(content);
    var includes, _ := ResolveIncludes(env, filePath, filePath, {});
    r := Some(FileMetadata(filePath, globalAnnotations, functions, includes));
  }
}
