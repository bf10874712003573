/**
 * The include resolver: a depth-first, preorder walk over the `.`/`source` statements
 * of a script and, recursively, of the scripts they name, sharing one set of paths
 * already seen across the whole walk.
 */
module Includes {
  import opened Text
  import opened Paths
  import opened Patterns
  import opened Wrappers

  /**
   * The file system as the resolver sees it: the content of every readable file by the
   * path string used to open it (os.path.exists is membership), and os.path.abspath,
   * which depends on the working directory and is therefore given.
   */
  datatype Env = Env(fs: map<string, string>, abspath: string -> string)

  /** One record of the resolver's result. */
  datatype Include = Include(
    lineNumber: nat,
    includeLine: string,
    includePath: string,
    fullPath: string,
    includedFrom: string)

  /** abspath(join(dirname(main_file), include_path)): resolved against the top-level file. */
  function FullPath(env: Env, mainFile: string, includePath: string): string {
    env.abspath(Join(Dirname(mainFile), includePath))
  }

  /** One more than the number of newlines before the match start. */
  function LineNumber(content: string, start: nat): (n: nat)
    requires start <= |content|
    ensures 1 <= n <= start + 1
    ensures n == 1 <==> '\n' !in content[..start]
  {
    Count(content[..start], '\n') + 1
  }

  /** What the resolver reads off one include match: its line, its text and its path. */
  datatype Statement = Statement(lineNumber: nat, includeLine: string, includePath: string)

  /** The line number, the stripped text up to the first `;`, and group 1 of match `h`. */
  function StatementOf(content: string, h: Hit): (st: Statement)
    requires h.start <= h.end <= |content|
    ensures st.lineNumber >= 1 && ';' !in st.includeLine && |st.includeLine| <= h.end - h.start
  {
    Statement(LineNumber(content, h.start), BeforeFirst(Strip(content[h.start..h.end]), ';'), h.group1)
  }

  /** The include statements of a script, in the order pattern.finditer yields them. */
  function IncludeStatements(content: string): (stmts: seq<Statement>)
    ensures |stmts| == |Hits(IncludeStatement, content)|
    ensures forall k :: 0 <= k < |stmts| ==> stmts[k] == StatementOf(content, Hits(IncludeStatement, content)[k])
  {
    var hits := Hits(IncludeStatement, content);
    seq(|hits|, k requires 0 <= k < |hits| => StatementOf(content, hits[k]))
  }

  /**
   * What one run of the walk depends on: the files, how statements are read off a file,
   * the directory of the top-level file, and how an include path is turned into a full
   * path. The walk is stated over any such value, which keeps the regular expression and
   * the path arithmetic out of the proofs about the walk itself; the tool's walk is
   * ToolWalk.
   */
  datatype Walk = Walk(
    fs: map<string, string>,
    read: string -> seq<Statement>,
    root: string,
    locate: string -> string)

  function ToolWalk(env: Env, mainFile: string): (w: Walk)
    ensures w.fs == env.fs && w.root == Dirname(mainFile)
    ensures forall p :: w.locate(p) == FullPath(env, mainFile, p)
    ensures forall c :: w.read(c) == IncludeStatements(c)
  {
    Walk(env.fs, IncludeStatements, Dirname(mainFile), (p: string) => FullPath(env, mainFile, p))
  }

  /** The target exists and its path starts, as a string, with dirname(main_file). */
  predicate Admissible(w: Walk, fullPath: string) {
    fullPath in w.fs && StartsWith(fullPath, w.root)
  }

  /** The record the resolver appends for statement `st` found in `file`. */
  function RecordOf(w: Walk, file: string, st: Statement): (record: Include)
    ensures record.includedFrom == file && record.fullPath == w.locate(record.includePath)
  {
    Include(st.lineNumber, st.includeLine, st.includePath, w.locate(st.includePath), file)
  }

  function PathsOf(r: seq<Include>): set<string> {
    set k | 0 <= k < |r| :: r[k].fullPath
  }

  /**
   * resolve_includes(main_file, file, seen): the records and the seen set afterwards.
   * Every path added to the seen set is a path of the file system not seen before,
   * which is why the walk terminates even when scripts source each other in a cycle.
   */
  function ResolveFile(w: Walk, file: string, seen: set<string>): (res: (seq<Include>, set<string>))
    ensures res.1 == seen + PathsOf(res.0)
    decreases w.fs.Keys - seen, 1
  {
    if file !in w.fs then ([], seen)
    else ResolveStatements(w, file, w.read(w.fs[file]), seen)
  }

  /** The loop of resolve_includes over the remaining include statements of `file`. */
  function ResolveStatements(w: Walk, file: string, stmts: seq<Statement>, seen: set<string>)
    : (res: (seq<Include>, set<string>))
    ensures res.1 == seen + PathsOf(res.0)
    decreases w.fs.Keys - seen, 0, |stmts|
  {
    if stmts == [] then ([], seen)
    else
      var full := w.locate(stmts[0].includePath);
      if !Admissible(w, full) || full in seen then
        ResolveStatements(w, file, stmts[1..], seen)
      else
        var sub := ResolveFile(w, full, seen + {full});
        assert w.fs.Keys - sub.1 < w.fs.Keys - seen by {
          assert full in w.fs.Keys - seen && full !in w.fs.Keys - sub.1;
        }
        var rest := ResolveStatements(w, file, stmts[1..], sub.1);
        var rec := RecordOf(w, file, stmts[0]);
        PathsOfThree(rec, sub.0, rest.0);
        ([rec] + sub.0 + rest.0, rest.1)
  }

  lemma PathsOfConcat(a: seq<Include>, b: seq<Include>)
    ensures PathsOf(a + b) == PathsOf(a) + PathsOf(b)
  {
    forall x | x in PathsOf(a + b) ensures x in PathsOf(a) + PathsOf(b) {
      var k :| 0 <= k < |a + b| && (a + b)[k].fullPath == x;
      if k < |a| { assert a[k].fullPath == x; } else { assert b[k - |a|].fullPath == x; }
    }
    forall x | x in PathsOf(a) ensures x in PathsOf(a + b) {
      var k :| 0 <= k < |a| && a[k].fullPath == x;
      assert (a + b)[k].fullPath == x;
    }
    forall x | x in PathsOf(b) ensures x in PathsOf(a + b) {
      var k :| 0 <= k < |b| && b[k].fullPath == x;
      assert (a + b)[|a| + k].fullPath == x;
    }
  }

  lemma PathsOfThree(rec: Include, a: seq<Include>, b: seq<Include>)
    ensures PathsOf([rec] + a + b) == {rec.fullPath} + PathsOf(a) + PathsOf(b)
  {
    PathsOfConcat([rec] + a, b);
    PathsOfConcat([rec], a);
    assert PathsOf([rec]) == {rec.fullPath} by {
      assert [rec][0].fullPath == rec.fullPath;
    }
  }

  /** One unfolding of ResolveStatements when the first statement is skipped. */
  lemma SkipStep(w: Walk, file: string, stmts: seq<Statement>, seen: set<string>)
    requires stmts != []
    requires var full := w.locate(stmts[0].includePath); !Admissible(w, full) || full in seen
    ensures ResolveStatements(w, file, stmts, seen) == ResolveStatements(w, file, stmts[1..], seen)
  {
  }

  /** One unfolding of ResolveStatements when the first statement is taken. */
  lemma TakeStep(w: Walk, file: string, stmts: seq<Statement>, seen: set<string>)
    requires stmts != []
    requires var full := w.locate(stmts[0].includePath); Admissible(w, full) && full !in seen
    ensures var full := w.locate(stmts[0].includePath);
            var sub := ResolveFile(w, full, seen + {full});
            var rest := ResolveStatements(w, file, stmts[1..], sub.1);
            (ResolveStatements(w, file, stmts, seen) == ([RecordOf(w, file, stmts[0])] + sub.0 + rest.0, rest.1))
  {
  }

  /** One unfolding of ResolveFile for a file that exists. */
  lemma FileStep(w: Walk, file: string, seen: set<string>)
    requires file in w.fs
    ensures ResolveFile(w, file, seen) == ResolveStatements(w, file, w.read(w.fs[file]), seen)
  {
  }

  lemma Regroup(before: seq<Include>, record: Include, sub: seq<Include>, rest: seq<Include>)
    ensures before + ([record] + sub + rest) == before + [record] + sub + rest
  {
  }

  /**
   * The resolver as the source writes it: a loop over the include matches that appends
   * a record, adds the path to the shared seen set and recurses before the next match.
   */
  method ResolveIncludes(env: Env, mainFile: string, filePath: string, seenFiles: set<string>)
    returns (includes: seq<Include>, seen: set<string>)
    ensures (includes, seen) == ResolveFile(ToolWalk(env, mainFile), filePath, seenFiles)
    decreases env.fs.Keys - seenFiles
  {
    ghost var w := ToolWalk(env, mainFile);
    includes, seen := [], seenFiles;
    if filePath !in env.fs {
      // the source reports the missing file on stderr and returns []
      return;
    }
    var content := env.fs[filePath];
    var hits := Hits(IncludeStatement, content);
    ghost var stmts := IncludeStatements(content);
    FileStep(w, filePath, seenFiles);
    assert stmts[0..] == stmts;
    ghost var target := ResolveFile(w, filePath, seenFiles);
    for i := 0 to |hits|
      invariant seenFiles <= seen
      invariant target.0 == includes + ResolveStatements(w, filePath, stmts[i..], seen).0
      invariant target.1 == ResolveStatements(w, filePath, stmts[i..], seen).1
    {
      var h := hits[i];
      assert stmts[i..][0] == stmts[i] == StatementOf(content, h);
      assert stmts[i..][1..] == stmts[i + 1..];
      var includeLine := BeforeFirst(Strip(content[h.start..h.end]), ';');
      var includePath := h.group1;
      var fullPath := env.abspath(Join(Dirname(mainFile), includePath));
      assert fullPath == w.locate(stmts[i].includePath);
      if fullPath !in env.fs || !StartsWith(fullPath, Dirname(mainFile)) {
        SkipStep(w, filePath, stmts[i..], seen);
        continue;
      }
      if fullPath !in seen {
        TakeStep(w, filePath, stmts[i..], seen);
        ghost var before := includes;
        seen := seen + {fullPath};
        var record := Include(LineNumber(content, h.start), includeLine, includePath, fullPath, filePath);
        assert record == RecordOf(w, filePath, stmts[i]);
        includes := includes + [record];
        var sub, seenAfter := ResolveIncludes(env, mainFile, fullPath, seen);
        Regroup(before, record, sub, ResolveStatements(w, filePath, stmts[i + 1..], seenAfter).0);
        includes, seen := includes + sub, seenAfter;
      } else {
        SkipStep(w, filePath, stmts[i..], seen);
      }
    }
    assert stmts[|hits|..] == [];
    assert includes + [] == includes;
  }

  /** No two records name the same file. */
  predicate DistinctPaths(r: seq<Include>) {
    forall i, j :: 0 <= i < j < |r| ==> r[i].fullPath != r[j].fullPath
  }

  lemma DistinctConcat(a: seq<Include>, b: seq<Include>)
    requires DistinctPaths(a) && DistinctPaths(b) && PathsOf(a) !! PathsOf(b)
    ensures DistinctPaths(a + b)
  {
    forall i, j | 0 <= i < j < |a + b| ensures (a + b)[i].fullPath != (a + b)[j].fullPath {
      if i < |a| && j >= |a| {
        assert (a + b)[i].fullPath in PathsOf(a);
        assert (a + b)[j] == b[j - |a|];
        assert (a + b)[j].fullPath in PathsOf(b);
      } else if i >= |a| {
        assert (a + b)[i] == b[i - |a|] && (a + b)[j] == b[j - |a|];
      }
    }
  }

  /**
   * Each file is included at most once in the whole walk, and never a file that was
   * already in the seen set when the walk started.
   */
  lemma {:induction false} ResolveFileFresh(w: Walk, file: string, seen: set<string>)
    ensures DistinctPaths(ResolveFile(w, file, seen).0)
    ensures PathsOf(ResolveFile(w, file, seen).0) !! seen
    decreases w.fs.Keys - seen, 1
  {
    if file in w.fs {
      FileStep(w, file, seen);
      ResolveStatementsFresh(w, file, w.read(w.fs[file]), seen);
    }
  }

  lemma {:induction false} ResolveStatementsFresh(w: Walk, file: string, stmts: seq<Statement>, seen: set<string>)
    ensures DistinctPaths(ResolveStatements(w, file, stmts, seen).0)
    ensures PathsOf(ResolveStatements(w, file, stmts, seen).0) !! seen
    decreases w.fs.Keys - seen, 0, |stmts|
  {
    if stmts != [] {
      var full := w.locate(stmts[0].includePath);
      if !Admissible(w, full) || full in seen {
        SkipStep(w, file, stmts, seen);
        ResolveStatementsFresh(w, file, stmts[1..], seen);
      } else {
        var sub := ResolveFile(w, full, seen + {full});
        ResolveFileFresh(w, full, seen + {full});
        assert w.fs.Keys - sub.1 < w.fs.Keys - seen by {
          assert full in w.fs.Keys - seen && full !in w.fs.Keys - sub.1;
        }
        var rest := ResolveStatements(w, file, stmts[1..], sub.1);
        ResolveStatementsFresh(w, file, stmts[1..], sub.1);
        TakeStep(w, file, stmts, seen);
        var rec := RecordOf(w, file, stmts[0]);
        DistinctConcat(sub.0, rest.0);
        assert PathsOf([rec]) == {full} by { assert [rec][0].fullPath == full; }
        PathsOfConcat(sub.0, rest.0);
        DistinctConcat([rec], sub.0 + rest.0);
        assert [rec] + sub.0 + rest.0 == [rec] + (sub.0 + rest.0);
      }
    }
  }

  /**
   * Every record names an existing file under the root, reached from the record's own
   * include path.
   */
  ghost predicate AllAdmissible(w: Walk, r: seq<Include>) {
    forall k :: 0 <= k < |r| ==> Admissible(w, r[k].fullPath) && r[k].fullPath == w.locate(r[k].includePath)
  }

  lemma {:induction false} ResolveFileAdmissible(w: Walk, file: string, seen: set<string>)
    ensures AllAdmissible(w, ResolveFile(w, file, seen).0)
    decreases w.fs.Keys - seen, 1
  {
    if file in w.fs {
      FileStep(w, file, seen);
      ResolveStatementsAdmissible(w, file, w.read(w.fs[file]), seen);
    }
  }

  lemma {:induction false} ResolveStatementsAdmissible(w: Walk, file: string, stmts: seq<Statement>, seen: set<string>)
    ensures AllAdmissible(w, ResolveStatements(w, file, stmts, seen).0)
    decreases w.fs.Keys - seen, 0, |stmts|
  {
    if stmts != [] {
      var full := w.locate(stmts[0].includePath);
      if !Admissible(w, full) || full in seen {
        SkipStep(w, file, stmts, seen);
        ResolveStatementsAdmissible(w, file, stmts[1..], seen);
      } else {
        var sub := ResolveFile(w, full, seen + {full});
        ResolveFileAdmissible(w, full, seen + {full});
        assert w.fs.Keys - sub.1 < w.fs.Keys - seen by {
          assert full in w.fs.Keys - seen && full !in w.fs.Keys - sub.1;
        }
        var rest := ResolveStatements(w, file, stmts[1..], sub.1);
        ResolveStatementsAdmissible(w, file, stmts[1..], sub.1);
        TakeStep(w, file, stmts, seen);
        var rec := RecordOf(w, file, stmts[0]);
        var r := [rec] + sub.0 + rest.0;
        forall k | 0 <= k < |r|
          ensures Admissible(w, r[k].fullPath) && r[k].fullPath == w.locate(r[k].includePath)
        {
          if 1 <= k <= |sub.0| {
            assert r[k] == sub.0[k - 1];
          } else if k > |sub.0| {
            assert r[k] == rest.0[k - 1 - |sub.0|];
          }
        }
      }
    }
  }

  /**
   * Records come in depth-first preorder: every record is followed immediately by the
   * records of the file it names, resolved with the paths seen up to and including it.
   */
  ghost predicate Preorder(w: Walk, seen: set<string>, r: seq<Include>) {
    forall k :: 0 <= k < |r| ==>
      k + 1 + |BlockAfter(w, seen, r, k)| <= |r| && r[k + 1..k + 1 + |BlockAfter(w, seen, r, k)|] == BlockAfter(w, seen, r, k)
  }

  /** The records of the file that record k names, given the paths seen up to and including it. */
  ghost function BlockAfter(w: Walk, seen: set<string>, r: seq<Include>, k: nat): seq<Include>
    requires k < |r|
  {
    ResolveFile(w, r[k].fullPath, seen + PathsOf(r[..k + 1])).0
  }

  lemma {:induction false} ResolveFilePreorder(w: Walk, file: string, seen: set<string>)
    ensures Preorder(w, seen, ResolveFile(w, file, seen).0)
    decreases w.fs.Keys - seen, 1
  {
    if file in w.fs {
      FileStep(w, file, seen);
      ResolveStatementsPreorder(w, file, w.read(w.fs[file]), seen);
    }
  }

  lemma {:induction false} ResolveStatementsPreorder(w: Walk, file: string, stmts: seq<Statement>, seen: set<string>)
    ensures Preorder(w, seen, ResolveStatements(w, file, stmts, seen).0)
    decreases w.fs.Keys - seen, 0, |stmts|
  {
    if stmts != [] {
      var full := w.locate(stmts[0].includePath);
      if !Admissible(w, full) || full in seen {
        SkipStep(w, file, stmts, seen);
        ResolveStatementsPreorder(w, file, stmts[1..], seen);
      } else {
        var sub := ResolveFile(w, full, seen + {full});
        ResolveFilePreorder(w, full, seen + {full});
        assert w.fs.Keys - sub.1 < w.fs.Keys - seen by {
          assert full in w.fs.Keys - seen && full !in w.fs.Keys - sub.1;
        }
        var rest := ResolveStatements(w, file, stmts[1..], sub.1);
        ResolveStatementsPreorder(w, file, stmts[1..], sub.1);
        TakeStep(w, file, stmts, seen);
        var rec := RecordOf(w, file, stmts[0]);
        var r := [rec] + sub.0 + rest.0;
        assert PathsOf([rec]) == {full} by { assert [rec][0].fullPath == full; }
        forall k | 0 <= k < |r|
          ensures k + 1 + |BlockAfter(w, seen, r, k)| <= |r|
                  && r[k + 1..k + 1 + |BlockAfter(w, seen, r, k)|] == BlockAfter(w, seen, r, k)
        {
          if k == 0 {
            assert r[..1] == [rec];
            assert BlockAfter(w, seen, r, 0) == sub.0;
            assert r[1..1 + |sub.0|] == sub.0;
          } else if k <= |sub.0| {
            PreorderInFirst(w, seen, full, rec, sub.0, rest.0, k);
          } else {
            PreorderInSecond(w, seen, full, rec, sub.0, sub.1, rest.0, k);
          }
        }
      }
    }
  }

  /** The preorder step for a record that came from the first included file. */
  lemma PreorderInFirst(w: Walk, seen: set<string>, full: string, rec: Include,
                        sub: seq<Include>, rest: seq<Include>, k: nat)
    requires rec.fullPath == full && Preorder(w, seen + {full}, sub) && 1 <= k <= |sub|
    ensures var r := [rec] + sub + rest;
            k + 1 + |BlockAfter(w, seen, r, k)| <= |r|
            && r[k + 1..k + 1 + |BlockAfter(w, seen, r, k)|] == BlockAfter(w, seen, r, k)
  {
    var r := [rec] + sub + rest;
    var j := k - 1;
    assert r[k] == sub[j];
    assert r[..k + 1] == [rec] + sub[..j + 1];
    PathsOfConcat([rec], sub[..j + 1]);
    assert PathsOf([rec]) == {full} by { assert [rec][0].fullPath == full; }
    assert seen + PathsOf(r[..k + 1]) == seen + {full} + PathsOf(sub[..j + 1]);
    var s := BlockAfter(w, seen + {full}, sub, j);
    assert BlockAfter(w, seen, r, k) == s;
    assert sub[j + 1..j + 1 + |s|] == s;
    assert r[k + 1..k + 1 + |s|] == sub[j + 1..j + 1 + |s|];
  }

  /** The preorder step for a record that came from a later statement of the same file. */
  lemma PreorderInSecond(w: Walk, seen: set<string>, full: string, rec: Include,
                         sub: seq<Include>, seen1: set<string>, rest: seq<Include>, k: nat)
    requires rec.fullPath == full && seen1 == seen + {full} + PathsOf(sub)
    requires Preorder(w, seen1, rest) && |sub| < k < 1 + |sub| + |rest|
    ensures var r := [rec] + sub + rest;
            k + 1 + |BlockAfter(w, seen, r, k)| <= |r|
            && r[k + 1..k + 1 + |BlockAfter(w, seen, r, k)|] == BlockAfter(w, seen, r, k)
  {
    var r := [rec] + sub + rest;
    var j := k - 1 - |sub|;
    assert r[k] == rest[j];
    assert r[..k + 1] == ([rec] + sub) + rest[..j + 1];
    PathsOfConcat([rec] + sub, rest[..j + 1]);
    PathsOfConcat([rec], sub);
    assert PathsOf([rec]) == {full} by { assert [rec][0].fullPath == full; }
    assert seen + PathsOf(r[..k + 1]) == seen1 + PathsOf(rest[..j + 1]);
    var s := BlockAfter(w, seen1, rest, j);
    assert BlockAfter(w, seen, r, k) == s;
    assert rest[j + 1..j + 1 + |s|] == s;
    assert r[k + 1..k + 1 + |s|] == rest[j + 1..j + 1 + |s|];
  }

  /**
   * Every record was found either in the file being resolved or in a file named by an
   * earlier record: parents come before their children.
   */
  ghost predicate ParentsFirst(file: string, r: seq<Include>) {
    forall k :: 0 <= k < |r| ==> HasParent(file, r, k)
  }

  /** Record k came from `file` or from the file of an earlier record. */
  ghost predicate HasParent(file: string, r: seq<Include>, k: nat)
    requires k < |r|
  {
    r[k].includedFrom == file || exists j :: 0 <= j < k && r[j].fullPath == r[k].includedFrom
  }

  lemma {:induction false} ResolveFileParentsFirst(w: Walk, file: string, seen: set<string>)
    ensures ParentsFirst(file, ResolveFile(w, file, seen).0)
    decreases w.fs.Keys - seen, 1
  {
    if file in w.fs {
      FileStep(w, file, seen);
      ResolveStatementsParentsFirst(w, file, w.read(w.fs[file]), seen);
    }
  }

  lemma {:induction false} ResolveStatementsParentsFirst(w: Walk, file: string, stmts: seq<Statement>, seen: set<string>)
    ensures ParentsFirst(file, ResolveStatements(w, file, stmts, seen).0)
    decreases w.fs.Keys - seen, 0, |stmts|
  {
    if stmts != [] {
      var full := w.locate(stmts[0].includePath);
      if !Admissible(w, full) || full in seen {
        SkipStep(w, file, stmts, seen);
        ResolveStatementsParentsFirst(w, file, stmts[1..], seen);
      } else {
        var sub := ResolveFile(w, full, seen + {full});
        ResolveFileParentsFirst(w, full, seen + {full});
        assert w.fs.Keys - sub.1 < w.fs.Keys - seen by {
          assert full in w.fs.Keys - seen && full !in w.fs.Keys - sub.1;
        }
        var rest := ResolveStatements(w, file, stmts[1..], sub.1);
        ResolveStatementsParentsFirst(w, file, stmts[1..], sub.1);
        TakeStep(w, file, stmts, seen);
        assert RecordOf(w, file, stmts[0]).fullPath == full;
        ParentsFirstConcat(file, RecordOf(w, file, stmts[0]), sub.0, rest.0);
      }
    }
  }

  /** A record from `file`, then what its own file includes, then more records of `file`. */
  lemma ParentsFirstConcat(file: string, rec: Include, sub: seq<Include>, rest: seq<Include>)
    requires rec.includedFrom == file
    requires ParentsFirst(rec.fullPath, sub) && ParentsFirst(file, rest)
    ensures ParentsFirst(file, [rec] + sub + rest)
  {
    var r := [rec] + sub + rest;
    forall k | 0 <= k < |r| ensures HasParent(file, r, k) {
      if k == 0 {
        assert r[0] == rec;
      } else if k <= |sub| {
        assert r[k] == sub[k - 1];
        assert HasParent(rec.fullPath, sub, k - 1);
        if sub[k - 1].includedFrom == rec.fullPath {
          assert r[0].fullPath == rec.fullPath;
        } else {
          var j :| 0 <= j < k - 1 && sub[j].fullPath == sub[k - 1].includedFrom;
          assert r[j + 1] == sub[j];
        }
      } else {
        var m := k - 1 - |sub|;
        assert r[k] == rest[m];
        assert HasParent(file, rest, m);
        if rest[m].includedFrom != file {
          var j :| 0 <= j < m && rest[j].fullPath == rest[m].includedFrom;
          assert r[j + 1 + |sub|] == rest[j];
        }
      }
    }
  }

  /** The statements of a file are resolved in order: those of `a`, then those of `b`. */
  lemma {:induction false} ResolveStatementsConcat(w: Walk, file: string, a: seq<Statement>, b: seq<Statement>,
                                                   seen: set<string>)
    ensures var first := ResolveStatements(w, file, a, seen);
            var second := ResolveStatements(w, file, b, first.1);
            ResolveStatements(w, file, a + b, seen) == (first.0 + second.0, second.1)
    decreases |a|
  {
    if a == [] {
      assert a + b == b;
      var second := ResolveStatements(w, file, b, seen);
      assert [] + second.0 == second.0;
    } else {
      assert (a + b)[0] == a[0] && (a + b)[1..] == a[1..] + b;
      var full := w.locate(a[0].includePath);
      if !Admissible(w, full) || full in seen {
        SkipStep(w, file, a + b, seen);
        SkipStep(w, file, a, seen);
        ResolveStatementsConcat(w, file, a[1..], b, seen);
      } else {
        TakeStep(w, file, a + b, seen);
        TakeStep(w, file, a, seen);
        var sub := ResolveFile(w, full, seen + {full});
        ResolveStatementsConcat(w, file, a[1..], b, sub.1);
        var rest := ResolveStatements(w, file, a[1..], sub.1);
        var second := ResolveStatements(w, file, b, rest.1);
        assert [RecordOf(w, file, a[0])] + sub.0 + (rest.0 + second.0)
            == ([RecordOf(w, file, a[0])] + sub.0 + rest.0) + second.0;
      }
    }
  }

  /**
   * What one statement contributes: nothing when its target is missing, outside the
   * root or already seen; otherwise its record followed by the records of its target.
   */
  lemma ResolveOneStatement(w: Walk, file: string, st: Statement, seen: set<string>)
    ensures var full := w.locate(st.includePath);
            var sub := ResolveFile(w, full, seen + {full});
            ResolveStatements(w, file, [st], seen) ==
              if !Admissible(w, full) || full in seen then ([], seen)
              else ([RecordOf(w, file, st)] + sub.0, sub.1)
  {
    var full := w.locate(st.includePath);
    if !Admissible(w, full) || full in seen {
      SkipStep(w, file, [st], seen);
    } else {
      TakeStep(w, file, [st], seen);
      var sub := ResolveFile(w, full, seen + {full});
      assert ResolveStatements(w, file, [st][1..], sub.1) == ([], sub.1);
      assert [RecordOf(w, file, st)] + sub.0 + [] == [RecordOf(w, file, st)] + sub.0;
    }
  }

  /** Every match whose target exists under the root ends up seen: none is dropped. */
  lemma {:induction false} ResolveStatementsComplete(w: Walk, file: string, stmts: seq<Statement>,
                                                     seen: set<string>, k: nat)
    requires k < |stmts| && Admissible(w, w.locate(stmts[k].includePath))
    ensures w.locate(stmts[k].includePath) in seen + PathsOf(ResolveStatements(w, file, stmts, seen).0)
    decreases |stmts|
  {
    var full := w.locate(stmts[0].includePath);
    if !Admissible(w, full) || full in seen {
      SkipStep(w, file, stmts, seen);
      if k > 0 {
        assert stmts[1..][k - 1] == stmts[k];
        ResolveStatementsComplete(w, file, stmts[1..], seen, k - 1);
      }
    } else {
      TakeStep(w, file, stmts, seen);
      var sub := ResolveFile(w, full, seen + {full});
      var rest := ResolveStatements(w, file, stmts[1..], sub.1);
      PathsOfThree(RecordOf(w, file, stmts[0]), sub.0, rest.0);
      if k > 0 {
        assert stmts[1..][k - 1] == stmts[k];
        ResolveStatementsComplete(w, file, stmts[1..], sub.1, k - 1);
      }
    }
  }

  /**
   * The first match whose target exists under the root and is not yet seen gives the
   * first record, and the records of its target follow it.
   */
  lemma {:induction false} ResolveStatementsFirst(w: Walk, file: string, stmts: seq<Statement>,
                                                  seen: set<string>, k: nat)
    requires k < |stmts|
    requires forall i :: 0 <= i < k ==>
      !Admissible(w, w.locate(stmts[i].includePath)) || w.locate(stmts[i].includePath) in seen
    requires Admissible(w, w.locate(stmts[k].includePath)) && w.locate(stmts[k].includePath) !in seen
    ensures var full := w.locate(stmts[k].includePath);
            var sub := ResolveFile(w, full, seen + {full}).0;
            var r := ResolveStatements(w, file, stmts, seen).0;
            1 + |sub| <= |r| && r[0] == RecordOf(w, file, stmts[k]) && r[1..1 + |sub|] == sub
    decreases k
  {
    if k == 0 {
      TakeStep(w, file, stmts, seen);
    } else {
      SkipStep(w, file, stmts, seen);
      assert stmts[1..][k - 1] == stmts[k];
      forall i | 0 <= i < k - 1
        ensures !Admissible(w, w.locate(stmts[1..][i].includePath)) || w.locate(stmts[1..][i].includePath) in seen
      {
        assert stmts[1..][i] == stmts[i + 1];
      }
      ResolveStatementsFirst(w, file, stmts[1..], seen, k - 1);
    }
  }

  /**
   * resolve_includes keeps every include of the file whose target exists under the
   * root: its path is among the records, or was seen before the walk.
   */
  lemma ResolveFileComplete(w: Walk, file: string, seen: set<string>, k: nat)
    requires file in w.fs && k < |w.read(w.fs[file])|
    requires Admissible(w, w.locate(w.read(w.fs[file])[k].includePath))
    ensures w.locate(w.read(w.fs[file])[k].includePath) in seen + PathsOf(ResolveFile(w, file, seen).0)
  {
    FileStep(w, file, seen);
    ResolveStatementsComplete(w, file, w.read(w.fs[file]), seen, k);
  }

  /**
   * The records of a file come in the order of its statements: cutting its statements
   * at any point, the records of the first part come first, and the records of the
   * second part, resolved with what the first part saw, follow with nothing between.
   */
  lemma ResolveFileInStatementOrder(w: Walk, file: string, seen: set<string>, k: nat)
    requires file in w.fs && k <= |w.read(w.fs[file])|
    ensures var stmts := w.read(w.fs[file]);
            var first := ResolveStatements(w, file, stmts[..k], seen);
            var second := ResolveStatements(w, file, stmts[k..], first.1);
            ResolveFile(w, file, seen) == (first.0 + second.0, second.1)
  {
    var stmts := w.read(w.fs[file]);
    FileStep(w, file, seen);
    assert stmts == stmts[..k] + stmts[k..];
    ResolveStatementsConcat(w, file, stmts[..k], stmts[k..], seen);
  }

  /** A script of two lines, `. <p1>` and `source <p2>`. */
  function TwoLineScript(p1: string, p2: string): string {
    (". " + p1) + "\n" + ("source" + " " + p2) + "\n"
  }

  /** A non-empty path of `[^\s;]` characters, which `([^\s;]+)` takes whole. */
  predicate IsPathWord(p: string) {
    p != "" && forall k :: 0 <= k < |p| ==> InClass(p[k], PathChar)
  }

  /**
   * The include matches of that script: `. <p1>` from position 0 and `source <p2>`
   * from the start of the second line. The positions after each path are not line
   * starts, so nothing else matches.
   */
  lemma TwoLineHits(p1: string, p2: string)
    requires IsPathWord(p1) && IsPathWord(p2)
    ensures Hits(IncludeStatement, TwoLineScript(p1, p2))
         == [Hit(0, 2 + |p1|, p1, ""), Hit(3 + |p1|, 10 + |p1| + |p2|, p2, "")]
  {
    FirstLineHit(p1, p2);
    SecondLineHit(p1, p2);
    NoHitAfterPaths(p1, p2);
    TwoIncludeHits(TwoLineScript(p1, p2), p1, p2);
  }

  /** `. <p1>` matches from position 0, up to the end of the path. */
  lemma FirstLineHit(p1: string, p2: string)
    requires IsPathWord(p1) && IsPathWord(p2)
    ensures 2 + |p1| <= |TwoLineScript(p1, p2)|
    ensures MatchInclude(TwoLineScript(p1, p2), 0) == Some(Hit(0, 2 + |p1|, p1, ""))
  {
    var s := TwoLineScript(p1, p2);
    var n1 := |p1|;
    Lines(". " + p1, "source" + " " + p2);
    assert s[0] == '.' && s[1] == ' ' && s[2 + n1] == '\n';
    SpanOfMaximalRun(s, 1, 2, Space);
    forall k | 2 <= k < 2 + n1 ensures InClass(s[k], PathChar) {
      assert s[k] == p1[k - 2];
    }
    SpanOfMaximalRun(s, 2, 2 + n1, PathChar);
    IncludeMatchAt(s, 0, 1, 2, 2 + n1);
    assert s[2..2 + n1] == (". " + p1)[2..] == p1;
  }

  /** `source <p2>` matches from the start of the second line, up to the end of the path. */
  lemma SecondLineHit(p1: string, p2: string)
    requires IsPathWord(p1) && IsPathWord(p2)
    ensures 10 + |p1| + |p2| <= |TwoLineScript(p1, p2)|
    ensures MatchInclude(TwoLineScript(p1, p2), 3 + |p1|) == Some(Hit(3 + |p1|, 10 + |p1| + |p2|, p2, ""))
  {
    var s := TwoLineScript(p1, p2);
    var l := 3 + |p1|;
    Lines(". " + p1, "source" + " " + p2);
    assert s[l - 1] == '\n' && s[l + 7 + |p2|] == '\n';
    SourceLineHit(s, l, p2);
  }

  /** A line `source <p>` followed by a newline is an include match of the whole line. */
  lemma SourceLineHit(s: string, l: nat, p: string)
    requires IsPathWord(p) && 0 < l && l + 7 + |p| < |s|
    requires s[l - 1] == '\n' && s[l..l + 7 + |p|] == "source" + " " + p && s[l + 7 + |p|] == '\n'
    ensures MatchInclude(s, l) == Some(Hit(l, l + 7 + |p|, p, ""))
  {
    var line := "source" + " " + p;
    var e := l + 7 + |p|;
    assert s[l] == line[0] == 's' && s[l + 6] == line[6] == ' ';
    assert s[l..][..6] == line[..6] == "source";
    SpanOfMaximalRun(s, l + 6, l + 7, Space);
    forall k | l + 7 <= k < e ensures InClass(s[k], PathChar) {
      assert s[k] == line[k - l] == p[k - l - 7];
    }
    SpanOfMaximalRun(s, l + 7, e, PathChar);
    IncludeMatchAt(s, l, l + 6, l + 7, e);
    assert s[l + 7..e] == line[7..] == p;
  }

  /** The positions right after each path are not line starts. */
  lemma NoHitAfterPaths(p1: string, p2: string)
    requires IsPathWord(p1) && IsPathWord(p2)
    ensures 11 + |p1| + |p2| == |TwoLineScript(p1, p2)|
    ensures MatchInclude(TwoLineScript(p1, p2), 2 + |p1|) == None
    ensures MatchInclude(TwoLineScript(p1, p2), 10 + |p1| + |p2|) == None
  {
    var s := TwoLineScript(p1, p2);
    var n1, n2 := |p1|, |p2|;
    assert s[1 + n1] == p1[n1 - 1];
    assert s[9 + n1 + n2] == p2[n2 - 1];
  }

  /**
   * The statements read off that script: line numbers 1 and 2, the include lines
   * `. <p1>` and `source <p2>`, and the paths.
   */
  lemma TwoLineStatements(p1: string, p2: string)
    requires IsPathWord(p1) && IsPathWord(p2)
    ensures IncludeStatements(TwoLineScript(p1, p2))
         == [Statement(1, ". " + p1, p1), Statement(2, "source" + " " + p2, p2)]
  {
    var s := TwoLineScript(p1, p2);
    TwoLineHits(p1, p2);
    var hits := Hits(IncludeStatement, s);
    var st := IncludeStatements(s);
    FirstLineStatement(p1, p2);
    SecondLineStatement(p1, p2);
    assert st[0] == StatementOf(s, hits[0]);
    assert st[1] == StatementOf(s, hits[1]);
    PairSeq(st, Statement(1, ". " + p1, p1), Statement(2, "source" + " " + p2, p2));
  }

  /** A sequence of two elements is the display of them. */
  lemma PairSeq<T>(st: seq<T>, a: T, b: T)
    requires |st| == 2 && st[0] == a && st[1] == b
    ensures st == [a, b]
  {
  }

  /** The statement of the first line: line 1, `. <p1>`. */
  lemma FirstLineStatement(p1: string, p2: string)
    requires IsPathWord(p1) && IsPathWord(p2)
    ensures StatementOf(TwoLineScript(p1, p2), Hit(0, 2 + |p1|, p1, "")) == Statement(1, ". " + p1, p1)
  {
    var s := TwoLineScript(p1, p2);
    Lines(". " + p1, "source" + " " + p2);
    KeywordLine(". ", p1);
  }

  /** The statement of the second line: line 2, `source <p2>`. */
  lemma SecondLineStatement(p1: string, p2: string)
    requires IsPathWord(p1) && IsPathWord(p2)
    ensures var l := 3 + |p1|;
      StatementOf(TwoLineScript(p1, p2), Hit(l, l + 7 + |p2|, p2, "")) == Statement(2, "source" + " " + p2, p2)
  {
    var s := TwoLineScript(p1, p2);
    var l := 3 + |p1|;
    Lines(". " + p1, "source" + " " + p2);
    assert s[l..l + 7 + |p2|] == "source" + " " + p2;
    KeywordLine("source" + " ", p2);
    SecondLineNumber(p1, p2);
  }

  /** One newline precedes the second line. */
  lemma SecondLineNumber(p1: string, p2: string)
    requires IsPathWord(p1)
    ensures LineNumber(TwoLineScript(p1, p2), 3 + |p1|) == 2
  {
    var s := TwoLineScript(p1, p2);
    Lines(". " + p1, "source" + " " + p2);
    assert '\n' !in ". " + p1 by {
      forall k | 2 <= k < 2 + |p1| ensures (". " + p1)[k] != '\n' {
        assert (". " + p1)[k] == p1[k - 2];
      }
    }
    CountConcat(". " + p1, "\n", '\n');
  }

  /** The two lines of `a\nb\n` and the first line with its newline are slices of it. */
  lemma Lines(a: string, b: string)
    ensures var s := a + "\n" + b + "\n";
      s[..|a|] == s[0..|a|] == a && s[..|a| + 1] == a + "\n" && s[|a| + 1..|a| + 1 + |b|] == b
  {
  }

  /**
   * The include line of a match spanning `kw + p`, where the keyword part `kw` starts
   * with a non-space and holds no `;`: strip() and split(';')[0] keep it whole.
   */
  lemma KeywordLine(kw: string, p: string)
    requires IsPathWord(p) && kw != "" && !IsSpace(kw[0]) && ';' !in kw
    ensures BeforeFirst(Strip(kw + p), ';') == kw + p
    ensures '\n' !in kw ==> '\n' !in kw + p
  {
    var t := kw + p;
    assert t[0] == kw[0] && t[|t| - 1] == p[|p| - 1];
    forall k | |kw| <= k < |t| ensures t[k] != ';' && t[k] != '\n' {
      assert t[k] == p[k - |kw|];
    }
    assert "" + t == t;
    StripThenCut("", t, ';');
  }

  /**
   * Resolving a main script whose first line sources p1 and whose second line sources
   * p2, both existing under its directory, distinct and including nothing, gives
   * exactly two records, in that order, with the line numbers and include lines read
   * off the script's text.
   */
  lemma TwoLineResolves(env: Env, main: string, p1: string, p2: string)
    requires IsPathWord(p1) && IsPathWord(p2)
    requires main in env.fs && env.fs[main] == TwoLineScript(p1, p2)
    requires var f1, f2 := FullPath(env, main, p1), FullPath(env, main, p2);
      f1 != f2 && f1 in env.fs && f2 in env.fs
      && StartsWith(f1, Dirname(main)) && StartsWith(f2, Dirname(main))
      && IncludeStatements(env.fs[f1]) == [] && IncludeStatements(env.fs[f2]) == []
    ensures ResolveFile(ToolWalk(env, main), main, {}).0
         == [Include(1, ". " + p1, p1, FullPath(env, main, p1), main),
             Include(2, "source" + " " + p2, p2, FullPath(env, main, p2), main)]
  {
    var w := ToolWalk(env, main);
    var st1 := Statement(1, ". " + p1, p1);
    var st2 := Statement(2, "source" + " " + p2, p2);
    TwoLineStatements(p1, p2);
    TwoStatementsResolve(w, main, st1, st2);
  }

  /**
   * A file with two statements whose targets are admissible, distinct and include
   * nothing gives one record per statement, in statement order.
   */
  lemma TwoStatementsResolve(w: Walk, main: string, st1: Statement, st2: Statement)
    requires main in w.fs && w.read(w.fs[main]) == [st1, st2]
    requires var f1, f2 := w.locate(st1.includePath), w.locate(st2.includePath);
      f1 != f2 && Admissible(w, f1) && Admissible(w, f2)
      && w.read(w.fs[f1]) == [] && w.read(w.fs[f2]) == []
    ensures ResolveFile(w, main, {}).0 == [RecordOf(w, main, st1), RecordOf(w, main, st2)]
  {
    var f1, f2 := w.locate(st1.includePath), w.locate(st2.includePath);
    FileStep(w, main, {});
    FileStep(w, f1, {f1});
    assert {} + {f1} == {f1};
    var sub1 := ResolveFile(w, f1, {f1});
    assert sub1 == ([], {f1});
    TakeStep(w, main, [st1, st2], {});
    assert [st1, st2][1..] == [st2];
    FileStep(w, f2, {f1, f2});
    assert {f1} + {f2} == {f1, f2};
    var sub2 := ResolveFile(w, f2, {f1} + {f2});
    assert sub2.0 == [];
    ResolveOneStatement(w, main, st2, {f1});
    var rest := ResolveStatements(w, main, [st2], {f1});
    assert rest.0 == [RecordOf(w, main, st2)];
    assert ResolveFile(w, main, {}).0 == [RecordOf(w, main, st1)] + [] + [RecordOf(w, main, st2)];
  }

  /**
   * The files of the two-include test: the main script and the two scripts it sources,
   * which include nothing, and an abspath that collapses the `./` of the joined paths.
   */
  function TwoIncludesEnv(): (env: Env)
    ensures env.fs.Keys == {"/s/test_includes.sh", "/s/simple.sh", "/s/moderate.sh"}
  {
    Env(map["/s/test_includes.sh" := TwoLineScript("./simple.sh", "./moderate.sh"),
            "/s/simple.sh" := "", "/s/moderate.sh" := ""],
        (p: string) => if p == "/s/./simple.sh" then "/s/simple.sh"
                       else if p == "/s/./moderate.sh" then "/s/moderate.sh" else p)
  }

  /**
   * The two-include test: the main script sources `./simple.sh` on line 1 and
   * `./moderate.sh` on line 2, and resolving it gives exactly the two records, in that
   * order, with line numbers 1 and 2 and the include lines `. ./simple.sh` and
   * `source ./moderate.sh`.
   */
  lemma TwoIncludesExample()
    ensures var main := "/s/test_includes.sh";
      ResolveFile(ToolWalk(TwoIncludesEnv(), main), main, {}).0
        == [Include(1, ". ./simple.sh", "./simple.sh", "/s/simple.sh", main),
            Include(2, "source ./moderate.sh", "./moderate.sh", "/s/moderate.sh", main)]
  {
    TwoIncludesEnvFacts();
    TestPaths();
    TwoLineResolves(TwoIncludesEnv(), "/s/test_includes.sh", "./simple.sh", "./moderate.sh");
  }

  /** The conditions of TwoLineResolves hold of the test's files. */
  lemma TwoIncludesEnvFacts()
    ensures var env, main := TwoIncludesEnv(), "/s/test_includes.sh";
      main in env.fs && env.fs[main] == TwoLineScript("./simple.sh", "./moderate.sh")
      && FullPath(env, main, "./simple.sh") == "/s/simple.sh"
      && FullPath(env, main, "./moderate.sh") == "/s/moderate.sh"
      && "/s/simple.sh" in env.fs && "/s/moderate.sh" in env.fs
      && StartsWith("/s/simple.sh", Dirname(main)) && StartsWith("/s/moderate.sh", Dirname(main))
      && IncludeStatements(env.fs["/s/simple.sh"]) == [] && IncludeStatements(env.fs["/s/moderate.sh"]) == []
  {
    TestDirname();
    TestJoins();
    assert StartsWith("/s/simple.sh", "/s") && StartsWith("/s/moderate.sh", "/s");
    NoIncludesInEmpty();
  }

  /** dirname of the test's main script. */
  lemma TestDirname()
    ensures Dirname("/s/test_includes.sh") == "/s"
  {
    assert "/s/test_includes.sh" == "/s" + "/" + "test_includes.sh";
    DirnameOfChild("/s", "test_includes.sh");
  }

  /** An empty script has no include statements. */
  lemma NoIncludesInEmpty()
    ensures IncludeStatements("") == []
  {
    assert Hits(IncludeStatement, "") == [];
  }

  /** The test's include paths are whole `[^\s;]+` words, and its include lines. */
  lemma TestPaths()
    ensures IsPathWord("./simple.sh") && IsPathWord("./moderate.sh")
    ensures ". " + "./simple.sh" == ". ./simple.sh" && "source" + " " + "./moderate.sh" == "source ./moderate.sh"
  {
  }

  /** join("/s", include path) for the test's two include paths. */
  lemma TestJoins()
    ensures Join("/s", "./simple.sh") == "/s/./simple.sh" && Join("/s", "./moderate.sh") == "/s/./moderate.sh"
  {
    assert "./simple.sh"[..1] == "." && "./moderate.sh"[..1] == ".";
  }

  /**
   * The include_line of a statement is the statement itself, from `.` or `source` to the
   * end of the path: strip() only removes the indentation, and split(';')[0] never
   * cuts, since the path cannot contain `;`.
   */
  lemma IncludeLineIsStatement(content: string, i: nat) returns (a: nat)
    requires i < |Hits(IncludeStatement, content)|
    ensures var h := Hits(IncludeStatement, content)[i];
      h.start <= a < h.end <= |content| && AllSpace(content[h.start..a])
      && IncludeStatements(content)[i].includeLine == content[a..h.end]
      && (content[a] == '.' || StartsWith(content[a..], "source"))
  {
    var h := Hits(IncludeStatement, content)[i];
    HitIsMatch(IncludeStatement, content, i);
    a := IncludeLineOfMatch(content, h.start);
  }

  /** The same, for the include match at position q. */
  lemma IncludeLineOfMatch(content: string, q: nat) returns (a: nat)
    requires q <= |content| && MatchInclude(content, q).Some?
    ensures var h := MatchInclude(content, q).value;
      q <= a < h.end <= |content| && AllSpace(content[q..a])
      && StatementOf(content, h).includeLine == content[a..h.end]
      && (content[a] == '.' || StartsWith(content[a..], "source"))
  {
    var h := MatchInclude(content, q).value;
    a := IncludeMatchShape(content, q);
    StripThenCutSlice(content, q, a, h.end, ';');
  }
}
