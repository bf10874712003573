/**
 * The parts of Python's posixpath that the tool calls: dirname, basename, join and
 * the root half of splitext. os.path.abspath needs the working directory and is a
 * parameter of the model instead (see Includes.Env).
 */
module Paths {
  import opened Text

  /** p.rfind(c): the index of the last `c` in `p`, or -1. */
  function LastIndex(p: string, c: char): (i: int)
    ensures -1 <= i < |p|
    ensures i >= 0 ==> p[i] == c
    ensures forall k :: i < k < |p| ==> p[k] != c
  {
    if p == "" then -1
    else if p[|p| - 1] == c then |p| - 1
    else LastIndex(p[..|p| - 1], c)
  }

  /** posixpath.basename: what follows the last '/'. */
  function Basename(p: string): (b: string)
    ensures '/' !in b
    ensures |b| <= |p| && b == p[|p| - |b|..]
    ensures |b| == |p| || p[|p| - |b| - 1] == '/'
  {
    p[LastIndex(p, '/') + 1..]
  }

  predicate AllSlashes(s: string) {
    forall k :: 0 <= k < |s| ==> s[k] == '/'
  }

  /** head.rstrip('/'). */
  function RStripSlashes(s: string): (r: string)
    ensures |r| <= |s| && r == s[..|r|]
    ensures r == "" || r[|r| - 1] != '/'
  {
    if s != "" && s[|s| - 1] == '/' then RStripSlashes(s[..|s| - 1]) else s
  }

  /** Stripping trailing slashes keeps every character up to the last non-slash one. */
  lemma {:induction false} KeepsNonSlash(p: string, k: nat)
    requires k < |p| && p[k] != '/'
    ensures k < |RStripSlashes(p)|
    decreases |p|
  {
    if p[|p| - 1] == '/' {
      KeepsNonSlash(p[..|p| - 1], k);
    }
  }

  /**
   * posixpath.dirname: everything up to the last '/', with trailing slashes removed
   * unless the head consists of slashes only.
   */
  function Dirname(p: string): (d: string)
    ensures StartsWith(p, d)
  {
    var head := p[..LastIndex(p, '/') + 1];
    if head != "" && !AllSlashes(head) then RStripSlashes(head) else head
  }

  /** The dirname of "<dir>/<name>" is dir, when dir does not end in '/' and name holds none. */
  lemma DirnameOfChild(dir: string, name: string)
    requires dir != "" && dir[|dir| - 1] != '/' && '/' !in name
    ensures Dirname(dir + "/" + name) == dir
  {
    var p := dir + "/" + name;
    var i := LastIndex(p, '/');
    assert p[|dir|] == '/';
    forall k | |dir| < k < |p| ensures p[k] != '/' {
      assert p[k] == name[k - |dir| - 1];
    }
    assert i == |dir|;
    var head := p[..i + 1];
    assert head == dir + "/";
    assert head[|head| - 2] != '/';
    assert RStripSlashes(head) == RStripSlashes(dir);
  }

  /** posixpath.join(a, b). */
  function Join(a: string, b: string): (r: string)
    ensures StartsWith(b, "/") ==> r == b
    ensures !StartsWith(b, "/") && a != "" && a[|a| - 1] != '/' ==> r == a + "/" + b
    ensures !StartsWith(b, "/") && (a == "" || a[|a| - 1] == '/') ==> r == a + b
  {
    if StartsWith(b, "/") then b
    else if a == "" || a[|a| - 1] == '/' then a + b
    else a + "/" + b
  }

  /**
   * os.path.splitext(p)[0]: `p` without its extension, where the extension starts at
   * the last '.' after the last '/', unless only dots precede that '.' in the last part.
   */
  function SplitextRoot(p: string): (root: string)
    ensures StartsWith(p, root)
  {
    var sep := LastIndex(p, '/');
    var dot := LastIndex(p, '.');
    if dot > sep && exists k :: sep + 1 <= k < dot && p[k] != '.' then p[..dot] else p
  }
}
