/**
 * The paths ssh_popen stages a script under on the remote host: a directory in /tmp
 * named after the script, the function and the remote, the script copied into it, and
 * each include copied to the directory its include path names, relative to the staging
 * directory.
 */
module Staging {
  import opened Text
  import opened Paths
  import opened Includes

  /** fname in ssh_popen: the script's base name without its extension. */
  function ScriptName(file: string): (name: string)
    ensures '/' !in name
  {
    var b := Basename(file);
    var r := SplitextRoot(b);
    assert r == b[..|r|];
    r
  }

  /** remote_temp_dir: "/tmp/<fname>_<func>_<remote with every '@' made '_'>". */
  function RemoteTempDir(file: string, func: string, remote: string): (dir: string)
    ensures StartsWith(dir, "/tmp/") && |dir| > |remote|
    ensures dir[|dir| - |remote|..] == ReplaceChar(remote, '@', '_')
  {
    var dir := "/tmp/" + ScriptName(file) + "_" + func + "_" + ReplaceChar(remote, '@', '_');
    assert dir[..5] == "/tmp/";
    dir
  }

  /** The remote part of the directory name holds no '@'. */
  lemma RemoteTempDirHasNoAt(file: string, func: string, remote: string)
    ensures '@' !in RemoteTempDir(file, func, remote)[|RemoteTempDir(file, func, remote)| - |remote|..]
  {
    var r := ReplaceChar(remote, '@', '_');
    forall k | 0 <= k < |r| ensures r[k] != '@' {
    }
  }

  /**
   * The name is not one-to-one: remotes "u@h" and "u_h" stage into the same directory.
   */
  lemma RemoteTempDirCollides(file: string, func: string)
    ensures RemoteTempDir(file, func, "u@h") == RemoteTempDir(file, func, "u_h")
  {
    assert ReplaceChar("u@h", '@', '_') == "u_h";
    assert ReplaceChar("u_h", '@', '_') == "u_h";
  }

  /** remote_file: the script's copy, os.path.join(remote_temp_dir, basename(file)). */
  function RemoteFile(tempDir: string, file: string): (r: string)
    ensures StartsWith(r, tempDir)
  {
    NoSlashNoRoot(Basename(file));
    JoinKeepsPrefix(tempDir, Basename(file));
    Join(tempDir, Basename(file))
  }

  /** remote_include_dir: the staging directory joined with the include path's dirname. */
  function RemoteIncludeDir(tempDir: string, record: Include): (r: string)
    ensures !StartsWith(record.includePath, "/") ==> StartsWith(r, tempDir)
  {
    RelativeDirname(tempDir, record.includePath);
    Join(tempDir, Dirname(record.includePath))
  }

  /** remote_include_file: that directory joined with the basename of the resolved file. */
  function RemoteIncludeFile(tempDir: string, record: Include): (r: string)
    ensures StartsWith(r, RemoteIncludeDir(tempDir, record))
  {
    NoSlashNoRoot(Basename(record.fullPath));
    JoinKeepsPrefix(RemoteIncludeDir(tempDir, record), Basename(record.fullPath));
    Join(RemoteIncludeDir(tempDir, record), Basename(record.fullPath))
  }

  /** The dirname of a path that does not start with '/' does not either, so it joins under the directory. */
  lemma RelativeDirname(tempDir: string, p: string)
    ensures !StartsWith(p, "/") ==> StartsWith(Join(tempDir, Dirname(p)), tempDir)
  {
    var d := Dirname(p);
    if !StartsWith(p, "/") {
      JoinKeepsPrefix(tempDir, d);
    }
  }

  /** Joining a name without '/' onto a directory keeps that name as the basename. */
  lemma BasenameOfJoin(a: string, b: string)
    requires '/' !in b
    ensures Basename(Join(a, b)) == b
  {
    NoSlashNoRoot(b);
    var pre := if a == "" || a[|a| - 1] == '/' then a else a + "/";
    assert Join(a, b) == pre + b;
    BasenameAfter(pre, b);
  }

  /** After a prefix that is empty or ends in '/', a name without '/' is the basename. */
  lemma BasenameAfter(pre: string, b: string)
    requires '/' !in b && (pre == "" || pre[|pre| - 1] == '/')
    ensures Basename(pre + b) == b
  {
    var r := pre + b;
    if pre == "" {
      assert r == b;
      assert LastIndex(b, '/') == -1;
      assert b[0..] == b;
    } else {
      forall k | |pre| <= k < |r| ensures r[k] != '/' {
        assert r[k] == b[k - |pre|];
      }
      LastSlashAt(r, |pre| - 1);
      assert r[|pre|..] == b;
    }
  }

  /** Joining a part that does not start with '/' keeps the directory as a prefix. */
  lemma JoinKeepsPrefix(a: string, b: string)
    requires !StartsWith(b, "/")
    ensures StartsWith(Join(a, b), a)
  {
    var r := Join(a, b);
    if a != "" && a[|a| - 1] != '/' {
      assert r[..|a|] == a;
    } else {
      assert r[..|a|] == a;
    }
  }

  /** Text without '/' does not start with "/". */
  lemma NoSlashNoRoot(b: string)
    requires '/' !in b
    ensures !StartsWith(b, "/")
  {
    if |b| >= 1 { assert b[0] == b[..1][0]; }
  }

  /**
   * Each copy keeps the name of the file it copies: the remote shell sources the
   * script by its basename inside the staging directory.
   */
  lemma StagedCopiesKeepNames(tempDir: string, file: string, record: Include)
    ensures Basename(RemoteFile(tempDir, file)) == Basename(file)
    ensures Basename(RemoteIncludeFile(tempDir, record)) == Basename(record.fullPath)
  {
    BasenameOfJoin(tempDir, Basename(file));
    BasenameOfJoin(RemoteIncludeDir(tempDir, record), Basename(record.fullPath));
  }

  /** str.startswith is transitive. */
  lemma PrefixTrans(a: string, b: string, c: string)
    requires StartsWith(c, b) && StartsWith(b, a)
    ensures StartsWith(c, a)
  {
    assert c[..|a|] == c[..|b|][..|a|];
  }

  /**
   * A relative include path is copied to a path that starts, as a string, with the
   * staging directory. A `..` component may still lead out of it as a directory
   * (ParentIncludeLeavesTempDir).
   */
  lemma RelativeIncludeInTempDir(tempDir: string, record: Include)
    requires !StartsWith(record.includePath, "/")
    ensures StartsWith(RemoteIncludeFile(tempDir, record), tempDir)
  {
    PrefixTrans(tempDir, RemoteIncludeDir(tempDir, record), RemoteIncludeFile(tempDir, record));
  }

  /**
   * An absolute include path is copied to its own directory on the remote host, not
   * into the staging directory: os.path.join drops the staging directory.
   */
  lemma AbsoluteIncludeOutsideTempDir(tempDir: string, record: Include)
    requires StartsWith(record.includePath, "/")
    ensures RemoteIncludeDir(tempDir, record) == Dirname(record.includePath)
  {
    var p := record.includePath;
    var d := Dirname(p);
    assert p[..1] == "/" && p[0] == '/';
    var head := p[..LastIndex(p, '/') + 1];
    assert head[0] == '/';
    if head != "" && !AllSlashes(head) {
      var k :| 0 <= k < |head| && head[k] != '/';
      KeepsNonSlash(head, k);
    }
    assert d[..1] == "/";
  }

  /**
   * An include path that starts with "../" is copied under "<staging directory>/..":
   * `source ../b/x.sh` in /a/b/main.sh passes the resolver's checks (abspath gives
   * /a/b/x.sh), and its copy goes to /tmp/main_f_h/../b/x.sh, which is /tmp/b/x.sh,
   * outside the staging directory.
   */
  lemma ParentIncludeLeavesTempDir(tempDir: string, record: Include)
    requires tempDir != "" && tempDir[|tempDir| - 1] != '/'
    requires StartsWith(record.includePath, "../")
    ensures StartsWith(RemoteIncludeFile(tempDir, record), tempDir + "/..")
  {
    var d := Dirname(record.includePath);
    DirnameOfParent(record.includePath);
    var dir := RemoteIncludeDir(tempDir, record);
    assert dir == tempDir + "/" + d by {
      assert d[0] != '/';
    }
    ParentPrefix(tempDir, d);
    PrefixTrans(tempDir + "/..", dir, RemoteIncludeFile(tempDir, record));
  }

  /** "<t>/<d>" starts with "<t>/.." when d does. */
  lemma ParentPrefix(t: string, d: string)
    requires |d| >= 2 && d[..2] == ".."
    ensures StartsWith(t + "/" + d, t + "/..")
  {
    assert t + "/" + d == t + "/" + d[..2] + d[2..];
  }

  /** The dirname of "../<rest>" starts with "..". */
  lemma DirnameOfParent(p: string)
    requires StartsWith(p, "../")
    ensures |Dirname(p)| >= 2 && Dirname(p)[..2] == ".."
  {
    assert p[..3] == "../";
    assert p[2] == '/' && p[1] == '.' && p[0] == '.';
    var head := p[..LastIndex(p, '/') + 1];
    assert head[..3] == p[..3];
    assert head[0] != '/';
    KeepsNonSlash(head, 1);
    var d := RStripSlashes(head);
    assert d[..2] == head[..2];
  }

  /** The last '/' of `p` is at `i`. */
  lemma LastSlashAt(p: string, i: nat)
    requires i < |p| && p[i] == '/' && forall k :: i < k < |p| ==> p[k] != '/'
    ensures LastIndex(p, '/') == i
  {
  }
}
