/**
 * The registry: two scopes (home and sys), each a map from namespace to a map from
 * file identifier to the script's absolute path, and the operations on them once the
 * YAML reading and writing is stripped off — the merge, the lookup handle_exec does,
 * remove, purge and the namespace an import goes to.
 */
module Registry {
  import opened Wrappers
  import opened Paths

  /** namespace -> file identifier -> absolute path */
  type Metadata = map<string, map<string, string>>

  // ---------------------------------------------------------------------------- merge

  /**
   * load_all_metadata: the home scope with every sys namespace merged in; inside a
   * namespace both scopes share, dict.update makes the sys entries win.
   */
  function Merge(home: Metadata, sys: Metadata): (merged: Metadata)
    ensures merged.Keys == home.Keys + sys.Keys
  {
    map ns | ns in home.Keys + sys.Keys ::
      if ns !in sys then home[ns]
      else if ns in home then home[ns] + sys[ns]
      else sys[ns]
  }

  /** The sys namespaces in `done` only. */
  function Restrict(sys: Metadata, done: set<string>): (r: Metadata)
    ensures r.Keys == sys.Keys * done
  {
    map ns | ns in sys.Keys * done :: sys[ns]
  }

  /** Merging one more sys namespace is what one step of the loop does to the dictionary. */
  lemma MergeStep(home: Metadata, sys: Metadata, done: set<string>, ns: string)
    requires ns in sys && ns !in done
    ensures var m := Merge(home, Restrict(sys, done));
      Merge(home, Restrict(sys, done + {ns})) == m[ns := if ns in m then m[ns] + sys[ns] else sys[ns]]
  {
    var m, merged := Merge(home, Restrict(sys, done)), Merge(home, Restrict(sys, done + {ns}));
    var expected := m[ns := if ns in m then m[ns] + sys[ns] else sys[ns]];
    assert merged.Keys == expected.Keys;
    forall k | k in merged ensures merged[k] == expected[k] {
      MergeStepAt(home, sys, done, ns, k);
    }
  }

  lemma MergeStepAt(home: Metadata, sys: Metadata, done: set<string>, ns: string, k: string)
    requires ns in sys && ns !in done && k in home.Keys + sys.Keys * (done + {ns})
    ensures var m := Merge(home, Restrict(sys, done));
      Merge(home, Restrict(sys, done + {ns}))[k] == m[ns := if ns in m then m[ns] + sys[ns] else sys[ns]][k]
  {
    var m := Merge(home, Restrict(sys, done));
    if k == ns {
      assert ns in m ==> m[ns] == home[ns];
    } else {
      assert k in Restrict(sys, done + {ns}) <==> k in Restrict(sys, done);
    }
  }

  /** The loop of load_all_metadata over sys_metadata.items(), updating home_metadata. */
  method LoadAllMetadata(home: Metadata, sys: Metadata) returns (merged: Metadata)
    ensures merged == Merge(home, sys)
  {
    merged := home;
    var pending := sys.Keys;
    ghost var done: set<string> := {};
    assert Restrict(sys, done) == map[];
    assert Merge(home, map[]) == home;
    while pending != {}
      invariant pending <= sys.Keys && done == sys.Keys - pending
      invariant merged == Merge(home, Restrict(sys, done))
      decreases pending
    {
      var ns :| ns in pending;
      MergeStep(home, sys, done, ns);
      if ns in merged {
        merged := merged[ns := merged[ns] + sys[ns]];
      } else {
        merged := merged[ns := sys[ns]];
      }
      pending := pending - {ns};
      done := done + {ns};
    }
    assert Restrict(sys, done) == sys;
  }

  /**
   * What the merge promises: every namespace of either scope is present, a file of a
   * namespace is present exactly when either scope has it, and its path is the sys one
   * when sys has the file and the home one otherwise.
   */
  lemma MergeSysWins(home: Metadata, sys: Metadata, ns: string, f: string)
    ensures ns in Merge(home, sys) <==> ns in home || ns in sys
    ensures ns in Merge(home, sys) ==>
      (f in Merge(home, sys)[ns] <==> (ns in home && f in home[ns]) || (ns in sys && f in sys[ns]))
    ensures ns in sys && f in sys[ns] ==> Merge(home, sys)[ns][f] == sys[ns][f]
    ensures ns in home && f in home[ns] && !(ns in sys && f in sys[ns]) ==>
      Merge(home, sys)[ns][f] == home[ns][f]
  {
  }

  // --------------------------------------------------------------------------- lookup

  datatype LookupError = FileNotFound(namespace: string, file: string)

  /**
   * The lookup at the start of handle_exec: an absent namespace means "default", and a
   * namespace or file missing from the merged registry is FileNotFoundError.
   */
  function ResolveScript(home: Metadata, sys: Metadata, namespace: string, file: string): (r: Result<string, LookupError>)
    ensures r.Failure? ==> r.error == FileNotFound(if namespace == "" then "default" else namespace, file)
  {
    var ns := if namespace == "" then "default" else namespace;
    var merged := Merge(home, sys);
    if ns !in merged || file !in merged[ns] then Failure(FileNotFound(ns, file))
    else Success(merged[ns][file])
  }

  /**
   * The lookup finds a script exactly when either scope registers it, and then returns
   * the sys scope's path when sys has one, the home scope's otherwise; a failure names
   * the namespace looked in and the file.
   */
  lemma ResolveScriptSysWins(home: Metadata, sys: Metadata, namespace: string, file: string)
    ensures var ns := if namespace == "" then "default" else namespace;
      && (ResolveScript(home, sys, namespace, file).Success? <==>
          (ns in home && file in home[ns]) || (ns in sys && file in sys[ns]))
      && (ns in sys && file in sys[ns] ==> ResolveScript(home, sys, namespace, file) == Success(sys[ns][file]))
      && (ns in home && file in home[ns] && !(ns in sys && file in sys[ns]) ==>
          ResolveScript(home, sys, namespace, file) == Success(home[ns][file]))
      && (ResolveScript(home, sys, namespace, file).Failure? ==>
          ResolveScript(home, sys, namespace, file).error == FileNotFound(ns, file))
  {
    var ns := if namespace == "" then "default" else namespace;
    MergeSysWins(home, sys, ns, file);
  }

  // --------------------------------------------------------------------------- remove

  /** No namespace maps to an empty dictionary of files. */
  ghost predicate NoEmptyNamespace(m: Metadata) {
    forall ns :: ns in m ==> m[ns] != map[]
  }

  /**
   * remove_from_metadata(metadata) for `namespace` and `fname` ("" for no file): whether
   * anything was removed, and the dictionary afterwards.
   */
  function RemoveFromMetadata(m: Metadata, namespace: string, fname: string): (r: (bool, Metadata))
    ensures r.0 <==> namespace in m && (fname == "" || fname in m[namespace])
    ensures !r.0 ==> r.1 == m
    ensures r.1.Keys <= m.Keys
  {
    if namespace !in m then (false, m)
    else if fname == "" then (true, m - {namespace})
    else if fname !in m[namespace] then (false, m)
    else
      var files := m[namespace] - {fname};
      if files == map[] then (true, m - {namespace}) else (true, m[namespace := files])
  }

  /**
   * What removal does: it reports success exactly when the namespace is there and either
   * no file is named or the file is in it; the named entry is gone afterwards; every
   * other namespace and every other file of the namespace is as before; a namespace
   * that loses its last file goes with it.
   */
  lemma RemoveExactlyTheEntry(m: Metadata, namespace: string, fname: string)
    ensures var (updated, after) := RemoveFromMetadata(m, namespace, fname);
      && (updated <==> namespace in m && (fname == "" || fname in m[namespace]))
      && (!updated ==> after == m)
      && (forall ns :: ns != namespace ==> (ns in after <==> ns in m) && (ns in m ==> after[ns] == m[ns]))
      && (fname == "" ==> namespace !in after)
      && (namespace in after ==> fname !in after[namespace] || !updated)
      && (updated && fname != "" ==> forall f :: f != fname && f in m[namespace] ==>
            namespace in after && f in after[namespace] && after[namespace][f] == m[namespace][f])
  {
    if namespace in m && fname != "" && fname in m[namespace] {
      var files := m[namespace] - {fname};
      forall f | f != fname && f in m[namespace] ensures f in files && files != map[] {
        assert f in files;
      }
    }
  }

  /**
   * remove_from_metadata as the source runs it on the loaded dictionary: the file is
   * deleted from its namespace, then the namespace is deleted if that left it empty.
   */
  method RemoveEntry(metadata: Metadata, namespace: string, fname: string) returns (updated: bool, after: Metadata)
    ensures (updated, after) == RemoveFromMetadata(metadata, namespace, fname)
  {
    after := metadata;
    updated := false;
    if namespace in after {
      if fname != "" {
        if fname in after[namespace] {
          var files := after[namespace] - {fname};
          after := after[namespace := files];
          if after[namespace] == map[] {
            after := after - {namespace};
            assert after == metadata - {namespace};
          }
          updated := true;
        }
      } else {
        after := after - {namespace};
        updated := true;
      }
    }
  }

  /** Removal never leaves an empty namespace behind. */
  lemma RemoveKeepsNoEmptyNamespace(m: Metadata, namespace: string, fname: string)
    requires NoEmptyNamespace(m)
    ensures NoEmptyNamespace(RemoveFromMetadata(m, namespace, fname).1)
  {
  }

  /** handle_remove: the same removal applied to home and to sys. */
  datatype RemoveOutcome = RemoveOutcome(
    home: Metadata,        // the home registry as written back
    sys: Metadata,         // the sys registry as written back
    notFound: bool)        // whether the "not found in metadata" message is printed

  /**
   * handle_remove(namespace, fname): home is written back when it changed; sys is
   * written back when it changed and the user is root; "not found" when neither changed.
   */
  function HandleRemove(home: Metadata, sys: Metadata, namespace: string, fname: string, isRoot: bool): (o: RemoveOutcome)
    ensures !isRoot ==> o.sys == sys
    ensures o.home.Keys <= home.Keys && o.sys.Keys <= sys.Keys
  {
    var (homeUpdated, newHome) := RemoveFromMetadata(home, namespace, fname);
    var (sysUpdated, newSys) := RemoveFromMetadata(sys, namespace, fname);
    RemoveOutcome(
      if homeUpdated then newHome else home,
      if sysUpdated && isRoot then newSys else sys,
      !homeUpdated && !sysUpdated)
  }

  /**
   * After a remove, with or without a file name: home holds what removal leaves of it,
   * and so does sys when the user is root (sys is left alone otherwise). The named
   * entry, or the whole namespace when no file is named, is gone from each scope
   * written; every other namespace, and every other file of the namespace, keeps its
   * path. "Not found" is printed exactly when neither scope had what was named.
   */
  lemma HandleRemoveEffect(home: Metadata, sys: Metadata, namespace: string, fname: string, isRoot: bool)
    ensures var o := HandleRemove(home, sys, namespace, fname, isRoot);
      && o.home == RemoveFromMetadata(home, namespace, fname).1
      && (isRoot ==> o.sys == RemoveFromMetadata(sys, namespace, fname).1)
      && (!isRoot ==> o.sys == sys)
      && (fname == "" ==> namespace !in o.home && (isRoot ==> namespace !in o.sys))
      && (fname != "" ==> !(namespace in o.home && fname in o.home[namespace]))
      && (fname != "" && isRoot ==> !(namespace in o.sys && fname in o.sys[namespace]))
      && (forall ns, f :: ns in home && f in home[ns] && (ns != namespace || (fname != "" && f != fname)) ==>
            ns in o.home && f in o.home[ns] && o.home[ns][f] == home[ns][f])
      && (isRoot ==> forall ns, f :: ns in sys && f in sys[ns] && (ns != namespace || (fname != "" && f != fname)) ==>
            ns in o.sys && f in o.sys[ns] && o.sys[ns][f] == sys[ns][f])
      && (o.notFound <==>
            !(namespace in home && (fname == "" || fname in home[namespace]))
            && !(namespace in sys && (fname == "" || fname in sys[namespace])))
  {
    RemoveExactlyTheEntry(home, namespace, fname);
    RemoveExactlyTheEntry(sys, namespace, fname);
  }

  // ---------------------------------------------------------------------------- purge

  /** The dict comprehension of purge_metadata: the files whose path exists. */
  function PurgeFiles(files: map<string, string>, pathExists: string -> bool): (kept: map<string, string>)
    ensures forall f :: f in kept <==> f in files && pathExists(files[f])
    ensures forall f :: f in kept ==> kept[f] == files[f]
  {
    map f | f in files && pathExists(files[f]) :: files[f]
  }

  /** purge_metadata: every namespace with the missing files dropped, and no empty one. */
  function PurgeMetadata(m: Metadata, pathExists: string -> bool): (purged: Metadata)
    ensures purged.Keys <= m.Keys
    ensures forall ns :: ns in purged ==> purged[ns] != map[] && purged[ns].Keys <= m[ns].Keys
  {
    map ns | ns in m && PurgeFiles(m[ns], pathExists) != map[] :: PurgeFiles(m[ns], pathExists)
  }

  /**
   * An entry survives the purge exactly when it was registered and its path exists, and
   * it keeps its path; no namespace is left empty.
   */
  lemma PurgeKeepsExactlyExisting(m: Metadata, pathExists: string -> bool, ns: string, f: string)
    ensures var p := PurgeMetadata(m, pathExists);
      && ((ns in p && f in p[ns]) <==> (ns in m && f in m[ns] && pathExists(m[ns][f])))
      && (ns in p && f in p[ns] ==> p[ns][f] == m[ns][f])
      && NoEmptyNamespace(p)
  {
    if ns in m && f in m[ns] && pathExists(m[ns][f]) {
      assert f in PurgeFiles(m[ns], pathExists);
    }
  }

  /** Purging twice is purging once. */
  lemma PurgeIdempotent(m: Metadata, pathExists: string -> bool)
    ensures PurgeMetadata(PurgeMetadata(m, pathExists), pathExists) == PurgeMetadata(m, pathExists)
  {
    var p := PurgeMetadata(m, pathExists);
    forall ns | ns in p ensures PurgeFiles(p[ns], pathExists) == p[ns] {
    }
    assert forall ns :: ns in p ==> PurgeFiles(p[ns], pathExists) != map[];
  }

  /** A registry whose paths all exist and with no empty namespace is left as it is. */
  lemma PurgeKeepsCleanRegistry(m: Metadata, pathExists: string -> bool)
    requires NoEmptyNamespace(m)
    requires forall ns, f :: ns in m && f in m[ns] ==> pathExists(m[ns][f])
    ensures PurgeMetadata(m, pathExists) == m
  {
    forall ns | ns in m ensures PurgeFiles(m[ns], pathExists) == m[ns] {
    }
  }

  /** Purging one more namespace is what one step of the loop does to the dictionary. */
  lemma PurgeStep(m: Metadata, pathExists: string -> bool, done: set<string>, ns: string)
    requires ns in m && ns !in done
    ensures var p, kept := PurgeMetadata(Restrict(m, done), pathExists), PurgeFiles(m[ns], pathExists);
      PurgeMetadata(Restrict(m, done + {ns}), pathExists) == if kept != map[] then p[ns := kept] else p
  {
    var p, kept := PurgeMetadata(Restrict(m, done), pathExists), PurgeFiles(m[ns], pathExists);
    var q := PurgeMetadata(Restrict(m, done + {ns}), pathExists);
    var expected := if kept != map[] then p[ns := kept] else p;
    assert q.Keys == expected.Keys;
  }

  /**
   * The loop of purge_metadata over metadata.items(): each namespace's files are
   * filtered, and the namespace is stored only when some file is left.
   */
  method Purge(metadata: Metadata, pathExists: string -> bool) returns (purged: Metadata)
    ensures purged == PurgeMetadata(metadata, pathExists)
  {
    purged := map[];
    var pending := metadata.Keys;
    ghost var done: set<string> := {};
    assert Restrict(metadata, done) == map[];
    while pending != {}
      invariant pending <= metadata.Keys && done == metadata.Keys - pending
      invariant purged == PurgeMetadata(Restrict(metadata, done), pathExists)
      decreases pending
    {
      var ns :| ns in pending;
      PurgeStep(metadata, pathExists, done, ns);
      var purgedFiles := PurgeFiles(metadata[ns], pathExists);
      if purgedFiles != map[] {
        purged := purged[ns := purgedFiles];
      }
      pending := pending - {ns};
      done := done + {ns};
    }
    assert Restrict(metadata, done) == metadata;
  }

  /** handle_purge: what is written back to home and to sys. */
  datatype PurgeOutcome = PurgeOutcome(home: Metadata, sys: Metadata)

  /**
   * handle_purge: an empty scope is not written back; sys is written only by root
   * (home is written first, so it is purged either way).
   */
  function HandlePurge(home: Metadata, sys: Metadata, pathExists: string -> bool, isRoot: bool): (o: PurgeOutcome)
    ensures !isRoot ==> o.sys == sys
    ensures o.home.Keys <= home.Keys && o.sys.Keys <= sys.Keys
  {
    PurgeOutcome(
      if home != map[] then PurgeMetadata(home, pathExists) else home,
      if sys != map[] && isRoot then PurgeMetadata(sys, pathExists) else sys)
  }

  /**
   * After handle_purge an entry is in home exactly when it was registered there and its
   * path exists, with its path unchanged; the same holds for sys when run as root, and
   * sys is left alone otherwise.
   */
  lemma HandlePurgeEffect(home: Metadata, sys: Metadata, pathExists: string -> bool, isRoot: bool, ns: string, f: string)
    ensures var o := HandlePurge(home, sys, pathExists, isRoot);
      && ((ns in o.home && f in o.home[ns]) <==> (ns in home && f in home[ns] && pathExists(home[ns][f])))
      && (ns in o.home && f in o.home[ns] ==> o.home[ns][f] == home[ns][f])
      && (isRoot ==> ((ns in o.sys && f in o.sys[ns]) <==> (ns in sys && f in sys[ns] && pathExists(sys[ns][f]))))
      && (isRoot && ns in o.sys && f in o.sys[ns] ==> o.sys[ns][f] == sys[ns][f])
      && (!isRoot ==> o.sys == sys)
  {
    PurgeKeepsExactlyExisting(home, pathExists, ns, f);
    PurgeKeepsExactlyExisting(sys, pathExists, ns, f);
  }

  // ------------------------------------------------------------------------ namespace

  /**
   * _reslove_name_space(path, namespace): the given namespace unless it is empty (the
   * source's None or ""), else the directory's basename for a directory, else "default".
   */
  function ResolveNamespace(path: string, namespace: string, isDir: string -> bool): (ns: string)
    ensures ns == "" ==> namespace == "" && isDir(path)
  {
    if namespace != "" then namespace
    else if isDir(path) then Basename(path)
    else "default"
  }

  /**
   * The namespace is the given one when there is one; a file goes to "default"; a
   * directory goes to whatever follows its last '/'.
   */
  lemma ResolveNamespaceCases(path: string, namespace: string, isDir: string -> bool)
    ensures namespace != "" ==> ResolveNamespace(path, namespace, isDir) == namespace
    ensures namespace == "" && !isDir(path) ==> ResolveNamespace(path, namespace, isDir) == "default"
    ensures namespace == "" && isDir(path) ==>
      var ns := ResolveNamespace(path, namespace, isDir);
      '/' !in ns && EndsWith(path, ns) && (|ns| == |path| || path[|path| - |ns| - 1] == '/')
  {
  }

  /** str.endswith. */
  predicate EndsWith(p: string, s: string) {
    |s| <= |p| && p[|p| - |s|..] == s
  }

  /**
   * As written, a directory named with a trailing slash ("scripts/", the form shell
   * completion produces) is imported into the namespace "".
   */
  lemma TrailingSlashGivesEmptyNamespace(dir: string, isDir: string -> bool)
    requires isDir(dir + "/")
    ensures ResolveNamespace(dir + "/", "", isDir) == ""
  {
    assert (dir + "/")[|dir + "/"| - 1] == '/';
  }

  /** The evidently intended rule: the last component of the directory, trailing slashes ignored. */
  function ResolveNamespaceIntended(path: string, namespace: string, isDir: string -> bool): (ns: string)
    ensures namespace != "" ==> ns == namespace
    ensures namespace == "" && !isDir(path) ==> ns == "default"
  {
    if namespace != "" then namespace
    else if isDir(path) then Basename(RStripSlashes(path))
    else "default"
  }

  /**
   * With the intended rule a directory whose path has a non-slash character gets a
   * non-empty namespace, whatever slashes follow its name.
   */
  lemma IntendedNamespaceNotEmpty(path: string, isDir: string -> bool)
    requires isDir(path) && exists k :: 0 <= k < |path| && path[k] != '/'
    ensures ResolveNamespaceIntended(path, "", isDir) != ""
    ensures isDir(path + "/") ==> ResolveNamespaceIntended(path + "/", "", isDir) == ResolveNamespaceIntended(path, "", isDir)
  {
    var k :| 0 <= k < |path| && path[k] != '/';
    var r := RStripSlashes(path);
    KeepsNonSlash(path, k);
    assert (path + "/")[..|path + "/"| - 1] == path;
    var b := Basename(r);
    assert r[|r| - 1] != '/';
    assert LastIndex(r, '/') < |r| - 1;
  }
}
