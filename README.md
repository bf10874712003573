# pybcli metadata core in Dafny

pybcli (`bcli`) registers bash scripts under namespaces and runs their functions,
locally or over ssh. This project models the metadata side of the tool, the part
that is logic rather than process handling:

- **Script scanner** (`scan_bash_file`). It reads three things from a script's text:
  - the global annotations, from the `#bcli: key value` lines;
  - the list of function definitions, in text order;
  - for each function, the annotations found by walking up from its definition over
    `#bcli:func key value` lines, blank lines and comments.
- **Include resolver** (`resolve_includes`). It walks depth-first, in preorder, over the
  `.`/`source` statements of a script and of the scripts they name. One set of seen
  paths is shared by the whole walk. A target is kept only if it exists and its path
  starts, as a string, with the top-level script's directory.
- **Registry.** There are two scopes, home and sys. Each maps a namespace to a map from
  file identifier to absolute path. The project models these operations on it:
  - the merge `load_all_metadata` makes, where sys entries win;
  - the lookup at the start of `handle_exec`;
  - `remove_from_metadata` and `handle_remove`;
  - `purge_metadata` and `handle_purge`;
  - the namespace an import goes to (`_reslove_name_space`).
- **Remote staging paths** (`ssh_popen`): the staging directory, the script's copy and
  each include's copy.
- **Shell completion** (`arg_complete`): the candidates printed for the word being
  completed.

Modules, one per file:
- `Wrappers`: the Option and Result types.
- `Text`: the parts of Python's `str` and `re` the tool relies on. These are whitespace
  as `str.isspace`, `strip`, `split`, `splitlines`, `count` and `replace`.
- `Paths`: `posixpath` basename, dirname, join and splitext.
- `Patterns`: the four regular expressions, matched character by character, and
  `re.finditer`.
- `Includes`, `Scanner`, `Registry`, `Staging` and `Completion`: the core operations.

The loops of the source are methods with loop invariants. Each method is proved equal to a
specification function, and the lemmas state their properties about that function:
- the annotation loops of `scan_bash_file`;
- the recursive loop of `resolve_includes`;
- the update loop of `load_all_metadata`;
- the in-place deletion of `remove_from_metadata`;
- the loop of `purge_metadata` over the namespaces (`Registry.Purge`), whose inner dict
  comprehension is the function `Registry.PurgeFiles`.

Where the source is conditionals or an expression (`_reslove_name_space`, the f-strings),
the model is a function. `arg_complete` is a function too, although it has loops and
updates a list in place:
- the loop over the functions at pybcli/pybcli.py:518-530, which returns early, is the
  recursive function `Completion.ArgCandidates`;
- the loop over the namespaces at pybcli/pybcli.py:467 returns on its first iteration, so
  it is a test for an empty namespace list;
- the two `comp_words.pop` calls at pybcli/pybcli.py:474 and 477 are the function
  `Completion.StripSsh`, which returns the shortened word list and position.

Inputs are passed as parameters:
- The file system is a map from path to content. Existence is membership in that map.
  The content is the text `open(path, 'r').read()` returns: already decoded, with
  universal newlines, so every `\r\n` and every lone `\r` of the file is a `\n`.
- `os.path.abspath` depends on the working directory, so it is a parameter.
- `os.path.isdir` and `os.path.exists` are predicates passed in.
- The root check (`os.geteuid() != 0`) is a boolean passed in.
- The YAML contents of the two registry files are passed in, already read.

Python's `None` for an optional namespace or file name is the empty string.
The source tests `if fname:` and `namespace or "default"`, and those treat `""`
like `None`.

### Where the code and its description differ

The model follows the code in each case.

- **Containment is a string-prefix test, not a subtree test.** A target such as `/a/bc/x.sh`
  passes the check for a main file in `/a/b` (pybcli/pybcli.py:118). The predicate
  `Includes.Admissible` tests exactly membership in the file system and
  `StartsWith(fullPath, root)`.
- **`line_number` counts newlines before the match start**, and `^\s*` in MULTILINE mode may
  start the match on an earlier blank line. An include after blank lines can therefore be
  reported on the first of those lines (pybcli/pybcli.py:113, 123).
- **`split(';')[0]` in `include_line` never cuts anything.** The path group `[^\s;]+` ends
  the match, and nothing after the keyword can be a `;`. `Includes.IncludeLineIsStatement`
  proves this.
- **An absolute include path is accepted** when it passes the prefix test:
  `os.path.join(dirname(main_file), "/x")` is `"/x"`. Its staged copy then goes to its own
  directory on the remote host, outside the staging directory
  (`Staging.AbsoluteIncludeOutsideTempDir`).
- **The main file is not in `seen_files` when the walk starts.** A script that sources
  itself is therefore listed once among its own includes.
- **The include records have five fields** (`line_number`, `include_line`, `include_path`,
  `full_path`, `included_from`). The test at pybcli/test_pybcli.py:112-124 expects
  records with only three of them.
- **A `..` include is staged outside the staging directory.** `source ../b/x.sh` in
  `/a/b/main.sh` passes the resolver's checks, and its copy goes to
  `/tmp/main_f_h/../b/x.sh`, which is `/tmp/b/x.sh` (`Staging.ParentIncludeLeavesTempDir`).
  That is still where the staged script's `source ../b/x.sh` looks once the remote shell
  has changed into the staging directory (pybcli/pybcli.py:193). A relative include is
  therefore inside the staging directory only as a string prefix
  (`Staging.RelativeIncludeInTempDir`).
- **A global annotation without a value takes the next line as its value.** `\s+` also
  matches a newline, so in `#bcli: key` followed by a line `#bcli: other v`, the value of
  `key` is the whole second line. finditer resumes after it, so `other` is not read
  (pybcli/pybcli.py:301, 306-307; `Scanner.ValuelessAnnotationTakesNextLine`). Function
  annotations are matched one line at a time, so they do not have this quirk.
- **The staging directory name is not one-to-one**: remotes `u@h` and `u_h` share it
  (`Staging.RemoteTempDirCollides`).

## Model

| member | source | states |
|---|---|---|
| Patterns.MatchTagged | pybcli/pybcli.py:301-303 | a match of `tag\s+(\w+)\s+(.*)` starts where it is tried, begins with the tag, has whitespace right after the tag and ends within the text |
| Patterns.MatchDefinition | pybcli/pybcli.py:302 | a definition match starts at the start of a line and names a non-empty function |
| Patterns.MatchInclude | pybcli/pybcli.py:111 | an include match starts at the start of a line and has a non-empty path |
| Patterns.IncludeMatchShape | pybcli/pybcli.py:111 | an include match is indentation, then `.` or `source`, then whitespace and a path, with no `;` after the indentation |
| Patterns.FindIterSound | pybcli/pybcli.py:307 | every hit `finditer` reports is the pattern's match at that hit's start |
| Patterns.FindIterOrdered | pybcli/pybcli.py:312 | the hits come in text order and do not overlap |
| Patterns.FindIterCovers | pybcli/pybcli.py:312 | no match is missed: every position where the pattern matches lies in a reported hit |
| Scanner.ScanGlobalAnnotations | pybcli/pybcli.py:305-308 | the loop over the global-annotation matches builds the dictionary that assigning (group 1, group 2) of each match in order gives |
| Scanner.AssignLastWins | pybcli/pybcli.py:307-308 | after assigning pairs in order, a key is present iff some pair assigns it, and its value is that of the last such pair |
| Scanner.GlobalAnnotationsLastWins | pybcli/pybcli.py:301-308 | a global key is present iff some `#bcli:` match names it, and the last such match in the text gives its value |
| Scanner.ValuelessAnnotationTakesNextLine | pybcli/pybcli.py:301-308 | for a text of the line `#bcli: <key>` and then a last line that does not start with whitespace, the only global match is the key with the whole next line as its value, so the dictionary is exactly that one entry and an annotation on the next line is not read |
| Scanner.FunctionTagIsNotGlobal | pybcli/pybcli.py:301 | a `#bcli:func` line never matches the global pattern, which needs whitespace right after `#bcli:` |
| Scanner.ClassifyMeaning | pybcli/pybcli.py:320-325 | a line stops the walk iff its stripped text is non-empty and does not start with `#`; it is an annotation iff `func_annotation_re.match` succeeds on it, and then it starts with `#bcli:func`, its key is a run of word characters and its value holds no newline and, on a line without one, runs to the end of the line |
| Scanner.IndentedAnnotationIgnored | pybcli/pybcli.py:321 | a line that starts with whitespace is never an annotation: the match is anchored at column 0 |
| Scanner.CollectFunctionAnnotations | pybcli/pybcli.py:316-326 | the loop over the reversed preceding lines, with its `break`, builds the same dictionary as the upward walk over those lines |
| Scanner.WalkTop | pybcli/pybcli.py:324-326 | the walk visits exactly the lines below the nearest line of code |
| Scanner.WalkTopmostWins | pybcli/pybcli.py:318-326 | a key is present iff an annotation line the walk visits names it, and the topmost such line (the farthest from the definition) gives its value |
| Scanner.CodeHidesAbove | pybcli/pybcli.py:324-326 | a line of code hides every line above it: the annotations depend only on the lines below it |
| Scanner.FunctionsOf | pybcli/pybcli.py:311-327 | the function list has one entry per definition match |
| Scanner.ScanFunctions | pybcli/pybcli.py:310-327 | the loop over the definition matches builds one entry per match, in text order, each with the annotations of the lines before the match start |
| Scanner.FunctionsAreDefinitions | pybcli/pybcli.py:302-327 | entry k names group 1 of the k-th definition match, which is the pattern's match at its start; the matches do not overlap; every position where the definition pattern matches lies inside a reported definition |
| Scanner.DefinitionsCovered | pybcli/pybcli.py:302-312 | no definition is missed: every position where the definition pattern matches lies inside a reported one |
| Scanner.ScanBashFile | pybcli/pybcli.py:291-339 | nothing for a missing file; otherwise the file's path, global annotations, functions and the includes resolved from the file itself |
| Includes.LineNumber | pybcli/pybcli.py:123 | the line number is at least 1 and at most one more than the match start, and it is 1 iff no newline precedes the match |
| Includes.StatementOf | pybcli/pybcli.py:113-123 | the statement read off a match has a line number of at least 1, and its text holds no `;` and is no longer than the match |
| Includes.RecordOf | pybcli/pybcli.py:122-128 | a record's `included_from` is the file scanned and its full path is its include path resolved against the main file's directory |
| Includes.ResolveStatements | pybcli/pybcli.py:113-131 | the seen set after the rest of a file's statements is the one before plus the full paths of the records they produce |
| Includes.ResolveFile | pybcli/pybcli.py:100-131 | the seen set afterwards is the one before plus the full paths of the records returned |
| Includes.ResolveIncludes | pybcli/pybcli.py:100-131 | the recursive loop with the shared seen set returns the records and the seen set that the preorder walk function gives |
| Includes.ResolveFileFresh | pybcli/pybcli.py:120-130 | no two records name the same file, even when scripts source each other in a cycle, and no record names a file seen before the walk |
| Includes.ResolveFileAdmissible | pybcli/pybcli.py:116-119 | every record's full path exists, starts with the main file's directory and is its include path resolved against that directory |
| Includes.ResolveStatementsComplete | pybcli/pybcli.py:113-121 | every statement whose target exists and starts with the main file's directory ends up seen: it is among the records or was seen before |
| Includes.ResolveFileComplete | pybcli/pybcli.py:100-121 | the same for the statements of a file: none whose target passes both checks is dropped |
| Includes.ResolveStatementsFirst | pybcli/pybcli.py:113-130 | when every earlier statement is skipped, the first statement that passes the checks and is unseen gives the first record, and the records of its target follow it |
| Includes.ResolveStatementsConcat | pybcli/pybcli.py:113-130 | resolving the statements `a` then `b` is resolving `a` and then `b` with what `a` saw, the records of `a` first |
| Includes.ResolveFileInStatementOrder | pybcli/pybcli.py:113-130 | a file's records are those of its first k statements followed by those of the rest, for every cut k |
| Includes.ResolveOneStatement | pybcli/pybcli.py:116-130 | one statement gives nothing when its target is missing, outside the directory or seen; otherwise its record followed by the records of its target |
| Includes.ResolveFilePreorder | pybcli/pybcli.py:122-130 | each record is followed immediately by the records of the file it names, resolved with the paths seen up to and including it |
| Includes.ResolveFileParentsFirst | pybcli/pybcli.py:122-130 | each record comes from the file being resolved or from the file of an earlier record |
| Includes.TwoLineHits | pybcli/pybcli.py:111-113 | for non-empty paths p1 and p2 of `[^\s;]` characters, a script of two lines `. <p1>` and `source <p2>` has exactly two include matches, one per line, each ending at its path, with the path as group 1 |
| Includes.TwoLineStatements | pybcli/pybcli.py:113-123 | the statements read off that script have line numbers 1 and 2, include lines `. <p1>` and `source <p2>`, and paths p1 and p2 |
| Includes.TwoLineResolves | pybcli/pybcli.py:100-131 | resolving that script, when both targets exist under its directory, are distinct and include nothing, gives exactly one record per line, in line order, with all five fields |
| Includes.TwoIncludesExample | pybcli/test_pybcli.py:112-124 | the script text `. ./simple.sh` then `source ./moderate.sh` gives exactly two records, in that order, with line numbers 1 and 2 and include lines `. ./simple.sh` and `source ./moderate.sh`, all computed from the text (the test compares three of the five fields) |
| Includes.IncludeLineIsStatement | pybcli/pybcli.py:113-114 | `include_line` is the statement from `.` or `source` to the end of the path: `strip` removes only the indentation and `split(';')[0]` never cuts |
| Registry.LoadAllMetadata | pybcli/pybcli.py:83-92 | the loop over the sys namespaces, updating the home dictionary, yields the merge of the two scopes |
| Registry.Merge | pybcli/pybcli.py:87-92 | the merged namespaces are those of either scope |
| Registry.MergeSysWins | pybcli/pybcli.py:87-92 | a file is in a merged namespace iff either scope has it; its path is the sys one when sys has it, the home one otherwise |
| Registry.ResolveScript | pybcli/pybcli.py:202-209 | a failed lookup is FileNotFoundError for the namespace looked in (`default` when none is given) and the file |
| Registry.ResolveScriptSysWins | pybcli/pybcli.py:202-209 | the lookup, with an absent namespace read as `default`, succeeds iff either scope registers the file; it returns the sys path when sys has one and the home path when only home has one; otherwise it fails with that namespace and file |
| Registry.RemoveFromMetadata | pybcli/pybcli.py:407-418 | removal reports success iff the namespace is there and no file is named or the file is in it; on failure nothing changes; no namespace is added |
| Registry.RemoveEntry | pybcli/pybcli.py:407-418 | the in-place deletions (the file, then the namespace if that left it empty, or the whole namespace with no file named) give the removal function's flag and result |
| Registry.RemoveExactlyTheEntry | pybcli/pybcli.py:407-418 | success iff the namespace exists and no file is named or the file is in it; nothing changes on failure; the named entry is gone; every other namespace and file keeps its value |
| Registry.RemoveKeepsNoEmptyNamespace | pybcli/pybcli.py:411-413 | removal never leaves a namespace with no files |
| Registry.HandleRemove | pybcli/pybcli.py:420-441 | sys is unchanged unless the user is root, and no namespace is added to either scope |
| Registry.HandleRemoveEffect | pybcli/pybcli.py:402-441 | home is what removal leaves of it, and so is sys for root (sys is unchanged otherwise); the named file, or the whole namespace when no file is named, is gone from each scope written; every other entry keeps its path; "not found" is printed iff neither scope had what was named |
| Registry.PurgeFiles | pybcli/pybcli.py:377 | a file is kept iff its path exists, and it keeps its path |
| Registry.PurgeMetadata | pybcli/pybcli.py:374-380 | the purged registry adds no namespace and no file, and has no empty namespace |
| Registry.Purge | pybcli/pybcli.py:374-380 | the loop over the namespaces, storing a namespace only when some file survives, builds the purged registry |
| Registry.PurgeKeepsExactlyExisting | pybcli/pybcli.py:374-380 | an entry survives iff it was registered and its path exists; it keeps its path; no namespace is left empty |
| Registry.PurgeIdempotent | pybcli/pybcli.py:374-380 | purging twice is purging once |
| Registry.PurgeKeepsCleanRegistry | pybcli/pybcli.py:374-380 | a registry whose paths all exist and with no empty namespace is left unchanged |
| Registry.HandlePurge | pybcli/pybcli.py:382-400 | sys is unchanged unless the user is root, and no namespace is added to either scope |
| Registry.HandlePurgeEffect | pybcli/pybcli.py:368-400 | an entry is in home afterwards iff it was registered there and its path exists, with its path unchanged; the same for sys when run as root; sys is unchanged otherwise |
| Registry.ResolveNamespace | pybcli/pybcli.py:34-39 | the namespace is empty only when none is given and the path is a directory |
| Registry.ResolveNamespaceCases | pybcli/pybcli.py:34-39 | a given namespace is kept; a file goes to `default`; a directory goes to a suffix of its path that is the whole path or follows a `/` and holds no `/` |
| Registry.TrailingSlashGivesEmptyNamespace | pybcli/pybcli.py:37-38 | as written, a directory named with a trailing slash goes to the namespace `""` |
| Registry.IntendedNamespaceNotEmpty | pybcli/pybcli.py:37-38 | with trailing slashes stripped first, a directory gets a non-empty namespace, the same with or without the slash |
| Staging.ScriptName | pybcli/pybcli.py:135 | the script's name (basename without extension) holds no `/` |
| Staging.RemoteTempDir | pybcli/pybcli.py:145 | the staging directory is under `/tmp/` and ends with the remote with every `@` made `_` |
| Staging.RemoteTempDirHasNoAt | pybcli/pybcli.py:145 | the remote part of the staging directory holds no `@` |
| Staging.RemoteTempDirCollides | pybcli/pybcli.py:145 | remotes `u@h` and `u_h` share a staging directory |
| Staging.RemoteFile | pybcli/pybcli.py:153 | the script's copy starts, as a string, with the staging directory |
| Staging.RemoteIncludeDir | pybcli/pybcli.py:172-173 | for an include path that does not start with `/`, the include's directory starts with the staging directory |
| Staging.RemoteIncludeFile | pybcli/pybcli.py:174 | the include's copy starts with the include's directory |
| Staging.StagedCopiesKeepNames | pybcli/pybcli.py:153-174 | the script's copy and each include's copy keep the basename of the file they copy |
| Staging.RelativeIncludeInTempDir | pybcli/pybcli.py:170-174 | an include with a relative path is copied to a path that starts, as a string, with the staging directory |
| Staging.ParentIncludeLeavesTempDir | pybcli/pybcli.py:170-174 | an include path starting with `../` is copied under `<staging directory>/..`, outside the staging directory |
| Staging.AbsoluteIncludeOutsideTempDir | pybcli/pybcli.py:170-174 | an include with an absolute path is copied to its own directory, not into the staging directory |
| Completion.ArgComplete | pybcli/pybcli.py:443-531 | the command word, and any line whose command is not exec/remove/info, always gets an answer; every candidate starts with what is typed |
| Completion.CompletesCommands | pybcli/pybcli.py:444-446 | the command word is completed with the commands starting with what is typed: all six for `""`, `info` and `install-bash-completion` for `in` |
| Completion.ShortCommandLineFails | pybcli/pybcli.py:448 | any other word with fewer than two words on the line is the IndexError of `comp_words[1]` |
| Completion.CompletesImport | pybcli/pybcli.py:450-468 | the import path word (positions 2 and 3, not right after `import`) is completed with `home.<ns>` and `sys.<ns>` for the namespaces of each scope starting with what is typed, nothing when there are none; later words get nothing |
| Completion.StripSsh | pybcli/pybcli.py:472-478 | removing `--ssh` and the word after it removes one or two words, moves the position back by as many, and keeps the words before `--ssh` |
| Completion.StripSshWithoutSsh | pybcli/pybcli.py:472 | without `--ssh` the words and the word position are unchanged |
| Completion.StripSshKeepsCurrentWord | pybcli/pybcli.py:472-478 | with `--ssh host` before the word being completed, both are removed, the position moves back two and still points at that word, and the words before `--ssh` are kept |
| Completion.CompletesNamespaces | pybcli/pybcli.py:481-486 | the namespace word of exec/remove/info is completed with the namespaces of either scope starting with what is typed |
| Completion.CompletesFiles | pybcli/pybcli.py:487-494 | the file word is completed with the files either scope registers in that namespace |
| Completion.CompletesFunctions | pybcli/pybcli.py:495-506 | the function word is completed with exactly the names of the functions of the registered script that start with what is typed: the sys path when sys registers the file, the home path otherwise |
| Completion.NamesMatching | pybcli/pybcli.py:505-506 | a name is offered iff some function of the script has it and it starts with what is typed |
| Completion.Offer | pybcli/pybcli.py:520-530 | what one function offers starts with what is typed and is a word of its `args` or `opts` annotation |
| Completion.OfferArgument | pybcli/pybcli.py:522-526 | when `args` has a word at position cword − 5, that word alone is offered |
| Completion.OfferOptions | pybcli/pybcli.py:522-530 | past the last `args` word the words of `opts` are offered; with no `opts` nothing, and the search goes on |
| Completion.ArgCandidates | pybcli/pybcli.py:518-531 | every argument candidate starts with what is typed |
| Completion.FirstOfferWins | pybcli/pybcli.py:518-530 | the candidates are those of the first function of that name that offers any |
| Completion.NoOfferNoCandidates | pybcli/pybcli.py:518-531 | when no function of that name offers anything, nothing is printed |
| Completion.ArgCandidatesFromAnnotations | pybcli/pybcli.py:507-530 | every argument candidate starts with what is typed and is a word of the `args` or `opts` of a function with that name |
| Text.SplitJoinWords | pybcli/pybcli.py:523 | `split()` of words joined by single spaces gives back the words |

## Findings

| source | as written | input that shows it | evidently intended | confidence | as-written member | corrected member |
|---|---|---|---|---|---|---|
| pybcli/pybcli.py:37-38 | `os.path.basename(path)` of a directory path | `bcli import scripts/` (isdir holds) gives namespace `""` | the directory's last component, `scripts` | not executed; shell completion of a directory name adds the trailing slash | Registry.TrailingSlashGivesEmptyNamespace | Registry.IntendedNamespaceNotEmpty |

`Registry.ResolveNamespace` is the rule as written. `Registry.ResolveNamespaceIntended` strips
trailing slashes before taking the basename. The import path itself is not part of this
model (see below), so no other member depends on either rule.

## Left out

- Process and stream handling is left out: `bash_popen`, the select/readline loop and the
  `KeyboardInterrupt` handling of `handle_exec`, and `main`. This is operating-system
  concurrency, not logic.
- The ssh, scp and ControlMaster invocations of `ssh_popen` are left out because they are
  network and process I/O. Only the staging paths they use are modelled.
- The remote command string (pybcli/pybcli.py:193) is left out. It is an f-string passed to a
  shell and carries no property beyond its text.
- YAML reading and writing of the registry files is left out. The scopes are passed in
  already loaded, and the written-back registries are the result of `Registry.HandleRemove`
  and `Registry.HandlePurge`.
- The messages the tool prints are left out, except whether `handle_remove` prints "not
  found", which is modelled.
- `handle_import` is left out: it walks the file system with `os.walk` and writes YAML. Its
  namespace rule is modelled.
- `handle_info` and the `--help` branch of `handle_exec` are left out. They only print data
  the scanner model computes.
- `argparse`/`argcomplete` wiring and `install_bash_completion` are left out, because they
  are thin wrappers over libraries that are not part of this model.
- Regular-expression `\w` is restricted to ASCII letters, digits and `_`. Python's `\w`
  on `str` also accepts non-ASCII letters and digits.
- The order and multiplicity of printed completion candidates are left out.
  `Completion.ArgComplete` returns them as a set. The source prints a list, in the YAML
  key order, and keeps repeats: a function name a script defines twice is printed twice
  (pybcli/pybcli.py:505-506), and so is a word repeated in an `opts` annotation (530).
- The in-place `comp_words.pop` of `arg_complete` is left out: `Completion.StripSsh`
  returns a new list, so the change to the list the caller passed is not modelled. The
  caller of `arg_complete` is not part of this model.
- The order of the keys in the merged dictionary is not modelled: Dafny maps are unordered.
- Aliasing in the merge is left out. When a namespace exists only in sys,
  `home_metadata[ns] = files` shares the inner dictionary. Nothing later mutates it, so
  only values are modelled.
- Directories and unreadable files are left out. A path in the file-system map is always a
  readable file. `IsADirectoryError` and permission errors from `open` are not modelled.
- Exceptions other than IndexError in `arg_complete` are left out. There, None stands only
  for that IndexError.
- Includes.ResolveIncludes: `os.path.abspath` is a parameter of the file-system view, not
  a normalising function.
- `reversed(preceding_lines)` is not built as a list: `Scanner.CollectFunctionAnnotations`
  visits the same lines in the same order by counting down an index.
- `Scanner.UpwardWalk` has no contract of its own. What it computes is stated by
  `Scanner.WalkTopmostWins`, `Scanner.WalkTop` and `Scanner.CodeHidesAbove`.
