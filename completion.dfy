/**
 * arg_complete: the candidates `bcli complete` prints for the word being completed,
 * given the registry scopes and the script contents it would read.
 */
module Completion {
  import opened Text
  import opened Wrappers
  import opened Registry
  import opened Scanner
  import opened Includes

  const Commands: seq<string> := ["import", "remove", "exec", "info", "purge", "install-bash-completion"]

  /** [f for f in options if f.startswith(curr)], as the set of lines printed. */
  function Matching(options: set<string>, curr: string): set<string> {
    set f | f in options && StartsWith(f, curr)
  }

  /** list.index: the first position of `w`. */
  function IndexOf(words: seq<string>, w: string): (i: nat)
    requires w in words
    ensures i < |words| && words[i] == w && w !in words[..i]
  {
    if words[0] == w then 0
    else
      var i := 1 + IndexOf(words[1..], w);
      assert words[..i] == [words[0]] + words[1..][..i - 1];
      i
  }

  /**
   * The removal of the first "--ssh" and of the word after it, if there is one, with
   * comp_cword moved back once per word removed.
   */
  function StripSsh(words: seq<string>, cword: int): (r: (seq<string>, int))
    ensures |r.0| <= |words| && |words| - |r.0| == cword - r.1
    ensures "--ssh" in words ==> 1 <= cword - r.1 <= 2
    ensures "--ssh" in words ==> (IndexOf(words, "--ssh") <= |r.0|
      && r.0[..IndexOf(words, "--ssh")] == words[..IndexOf(words, "--ssh")])
  {
    if "--ssh" !in words then (words, cword)
    else
      var i := IndexOf(words, "--ssh");
      var once := RemoveAt(words, i);
      if i < |once| then (RemoveAt(once, i), cword - 2) else (once, cword - 1)
  }

  /** list.pop(i): `s` without its element at `i`. */
  function RemoveAt<T>(s: seq<T>, i: nat): (r: seq<T>)
    requires i < |s|
    ensures |r| == |s| - 1 && r[..i] == s[..i]
    ensures forall k :: i <= k < |r| ==> r[k] == s[k + 1]
  {
    s[..i] + s[i + 1..]
  }

  /**
   * When "--ssh" and its host come before the word being completed, that word keeps its
   * place relative to the new comp_cword, and the words before "--ssh" are kept.
   */
  lemma StripSshKeepsCurrentWord(words: seq<string>, cword: int)
    requires "--ssh" in words && IndexOf(words, "--ssh") + 1 < cword < |words|
    ensures var (ws, cw) := StripSsh(words, cword);
      && |ws| == |words| - 2 && cw == cword - 2
      && 0 <= cw < |ws| && ws[cw] == words[cword]
      && ws[..IndexOf(words, "--ssh")] == words[..IndexOf(words, "--ssh")]
  {
    var i := IndexOf(words, "--ssh");
    var once := RemoveAt(words, i);
    assert once[cword - 1] == words[cword];
    var ws := RemoveAt(once, i);
    assert ws[cword - 2] == once[cword - 1];
  }

  /** Without "--ssh" nothing is removed. */
  lemma StripSshWithoutSsh(words: seq<string>, cword: int)
    requires "--ssh" !in words
    ensures StripSsh(words, cword) == (words, cword)
  {
  }

  /** The import options: "home.<ns>" for every home namespace, "sys.<ns>" for every sys one. */
  function ImportOptions(home: Metadata, sys: Metadata): set<string> {
    (set ns | ns in home.Keys :: "home." + ns) + (set ns | ns in sys.Keys :: "sys." + ns)
  }

  /** The names of the functions of a script, in text order. */
  function FunctionNames(content: string): (names: seq<string>)
    ensures |names| == |FunctionsOf(content)|
    ensures forall k :: 0 <= k < |names| ==> names[k] == FunctionsOf(content)[k].name
  {
    var fs := FunctionsOf(content);
    seq(|fs|, k requires 0 <= k < |fs| => fs[k].name)
  }

  /** dict.get(key) where a missing key, like an empty value, is falsy. */
  function Get(annotations: map<string, string>, key: string): string {
    if key in annotations then annotations[key] else ""
  }

  /**
   * What one function named `func` offers for the argument at comp_cword: its `args` word
   * at position cword - 5 when there is one, otherwise the words of its `opts` when it
   * has them, otherwise nothing (None), and the search goes on with the next function.
   * Either way only the candidates that start with what is typed are printed.
   */
  function Offer(annotations: map<string, string>, cword: int, curr: string): (r: Option<set<string>>)
    requires cword > 4
    ensures r.Some? ==> forall c :: c in r.value ==> (StartsWith(c, curr) &&
      (c in SplitWords(Get(annotations, "args")) || c in SplitWords(Get(annotations, "opts"))))
  {
    var args, opts := Get(annotations, "args"), Get(annotations, "opts");
    var argsList := SplitWords(args);
    if args != "" && cword - 5 < |argsList| then Some(Matching({argsList[cword - 5]}, curr))
    else if opts != "" then Some(Matching((set w | w in SplitWords(opts)), curr))
    else None
  }

  /** The `args` word at the position being completed, when the annotation has one. */
  lemma OfferArgument(annotations: map<string, string>, cword: int, curr: string)
    requires cword > 4 && cword - 5 < |SplitWords(Get(annotations, "args"))|
    ensures Offer(annotations, cword, curr) ==
      Some(Matching({SplitWords(Get(annotations, "args"))[cword - 5]}, curr))
  {
    assert Get(annotations, "args") != "" by {
      assert LStrip("") == "";
    }
  }

  /** Past the last `args` word, the words of `opts`; with neither, nothing. */
  lemma OfferOptions(annotations: map<string, string>, cword: int, curr: string)
    requires cword > 4 && cword - 5 >= |SplitWords(Get(annotations, "args"))|
    ensures Get(annotations, "opts") != "" ==> (Offer(annotations, cword, curr) ==
      Some(Matching((set w | w in SplitWords(Get(annotations, "opts"))), curr)))
    ensures Get(annotations, "opts") == "" ==> Offer(annotations, cword, curr) == None
  {
  }

  /** The loop of arg_complete over the functions of the script, looking for `func`. */
  function ArgCandidates(functions: seq<Function>, func: string, cword: int, curr: string): (candidates: set<string>)
    requires cword > 4
    ensures forall c :: c in candidates ==> StartsWith(c, curr)
    decreases |functions|
  {
    if functions == [] then {}
    else if functions[0].name != func then ArgCandidates(functions[1..], func, cword, curr)
    else
      match Offer(functions[0].annotations, cword, curr)
      case Some(candidates) => candidates
      case None => ArgCandidates(functions[1..], func, cword, curr)
  }

  /**
   * arg_complete(comp_cword, prev, curr, comp_words), with the registry scopes and the
   * file system passed in: None where the source raises IndexError (comp_words too short
   * for the words it reads), otherwise the candidates it prints.
   */
  function ArgComplete(cword: int, prev: string, curr: string, words: seq<string>,
                       home: Metadata, sys: Metadata, env: Env): (r: Option<set<string>>)
    ensures cword == 1 || (|words| >= 2 && words[1] !in {"exec", "remove", "info"}) ==> r.Some?
    ensures r.Some? ==> forall c :: c in r.value ==> StartsWith(c, curr)
  {
    if cword == 1 then Some(Matching((set c | c in Commands), curr))
    else if |words| < 2 then None
    else
      var cmd := words[1];
      if cmd == "import" then
        if cword > 3 || prev == "import" || home.Keys + sys.Keys == {} then Some({})
        else Some(Matching(ImportOptions(home, sys), curr))
      else if cmd == "exec" || cmd == "remove" || cmd == "info" then
        var (ws, cw) := StripSsh(words, cword);
        var merged := Merge(home, sys);
        if cw == 2 then Some(Matching(merged.Keys, curr))
        else if cw == 3 then
          if |ws| < 3 then None
          else if ws[2] in merged then Some(Matching(merged[ws[2]].Keys, curr))
          else Some({})
        else if cw == 4 then
          if |ws| < 4 then None
          else if ws[2] in merged && ws[3] in merged[ws[2]] && merged[ws[2]][ws[3]] in env.fs then
            Some(Matching((set n | n in FunctionNames(env.fs[merged[ws[2]][ws[3]]])), curr))
          else Some({})
        else if cw > 4 then
          if |ws| < 5 then None
          else if ws[2] in merged && ws[3] in merged[ws[2]] && merged[ws[2]][ws[3]] in env.fs then
            Some(ArgCandidates(FunctionsOf(env.fs[merged[ws[2]][ws[3]]]), ws[4], cw, curr))
          else Some({})
        else Some({})
      else Some({})
  }

  /** Completing the command word offers the commands that start with what is typed. */
  lemma CompletesCommands(prev: string, words: seq<string>, home: Metadata, sys: Metadata, env: Env)
    ensures ArgComplete(1, prev, "", words, home, sys, env) ==
      Some({"import", "remove", "exec", "info", "purge", "install-bash-completion"})
    ensures ArgComplete(1, prev, "in", words, home, sys, env) == Some({"info", "install-bash-completion"})
  {
    CommandsForEmpty();
    CommandsForIn();
  }

  lemma CommandsForEmpty()
    ensures Matching((set c | c in Commands), "") ==
      {"import", "remove", "exec", "info", "purge", "install-bash-completion"}
  {
    var all := set c | c in Commands;
    assert all == {"import", "remove", "exec", "info", "purge", "install-bash-completion"};
    assert Matching(all, "") == all;
  }

  lemma CommandsForIn()
    ensures Matching((set c | c in Commands), "in") == {"info", "install-bash-completion"}
  {
    var all := set c | c in Commands;
    assert all == {"import", "remove", "exec", "info", "purge", "install-bash-completion"};
    assert "info"[..2] == "in" && "install-bash-completion"[..2] == "in";
    Differs("import", "in", 1);
    Differs("remove", "in", 0);
    Differs("exec", "in", 0);
    Differs("purge", "in", 0);
  }

  /** A word that differs from `p` at a position of `p` does not start with `p`. */
  lemma Differs(s: string, p: string, k: nat)
    requires k < |p| && k < |s| && s[k] != p[k]
    ensures !StartsWith(s, p)
  {
  }

  /** Any other word of a command line shorter than two words is an IndexError. */
  lemma ShortCommandLineFails(cword: int, prev: string, curr: string, words: seq<string>,
                              home: Metadata, sys: Metadata, env: Env)
    requires cword != 1 && |words| < 2
    ensures ArgComplete(cword, prev, curr, words, home, sys, env) == None
  {
  }

  /**
   * The import command completes its path argument word (positions 2 and 3) with
   * "home.<ns>" and "sys.<ns>" for the namespaces of each scope, and nothing after the
   * first word or beyond position 3.
   */
  lemma CompletesImport(cword: int, prev: string, curr: string, words: seq<string>,
                        home: Metadata, sys: Metadata, env: Env)
    requires |words| >= 2 && words[1] == "import" && cword != 1
    ensures cword > 3 || prev == "import" ==> ArgComplete(cword, prev, curr, words, home, sys, env) == Some({})
    ensures cword <= 3 && prev != "import" ==>
      var r := ArgComplete(cword, prev, curr, words, home, sys, env);
      r.Some? && forall c :: c in r.value <==> (StartsWith(c, curr) &&
        ((exists ns :: ns in home && c == "home." + ns) || (exists ns :: ns in sys && c == "sys." + ns)))
  {
  }

  /**
   * The second word of exec, remove and info, with or without "--ssh host" before it,
   * is completed with the namespaces of either scope that start with what is typed.
   */
  lemma CompletesNamespaces(cword: int, prev: string, curr: string, words: seq<string>,
                            home: Metadata, sys: Metadata, env: Env)
    requires |words| >= 2 && words[1] in {"exec", "remove", "info"} && cword != 1
    requires StripSsh(words, cword).1 == 2
    ensures var r := ArgComplete(cword, prev, curr, words, home, sys, env);
      r.Some? && forall c :: c in r.value <==> (c in home || c in sys) && StartsWith(c, curr)
  {
  }

  /**
   * The third word is completed with the files of the namespace in the second word,
   * from either scope.
   */
  lemma CompletesFiles(cword: int, prev: string, curr: string, words: seq<string>,
                       home: Metadata, sys: Metadata, env: Env)
    requires |words| >= 2 && words[1] in {"exec", "remove", "info"} && cword != 1
    requires StripSsh(words, cword).1 == 3 && |StripSsh(words, cword).0| >= 3
    ensures var ns := StripSsh(words, cword).0[2];
      var r := ArgComplete(cword, prev, curr, words, home, sys, env);
      r.Some? && forall c :: c in r.value <==>
        ((ns in home && c in home[ns]) || (ns in sys && c in sys[ns])) && StartsWith(c, curr)
  {
    var ns := StripSsh(words, cword).0[2];
    forall c ensures c in ArgComplete(cword, prev, curr, words, home, sys, env).value <==>
      ((ns in home && c in home[ns]) || (ns in sys && c in sys[ns])) && StartsWith(c, curr) {
      MergeSysWins(home, sys, ns, c);
    }
  }

  /**
   * The fourth word is completed with the names of the functions defined in the script
   * the registry gives for the namespace and file (the sys path when sys registers it,
   * the home path otherwise), when that script exists.
   */
  lemma CompletesFunctions(cword: int, prev: string, curr: string, words: seq<string>,
                           home: Metadata, sys: Metadata, env: Env)
    requires |words| >= 2 && words[1] in {"exec", "remove", "info"} && cword != 1
    requires StripSsh(words, cword).1 == 4 && |StripSsh(words, cword).0| >= 4
    requires var ws := StripSsh(words, cword).0;
      (ws[2] in home && ws[3] in home[ws[2]]) || (ws[2] in sys && ws[3] in sys[ws[2]])
    requires var ws := StripSsh(words, cword).0;
      (if ws[2] in sys && ws[3] in sys[ws[2]] then sys[ws[2]][ws[3]] else home[ws[2]][ws[3]]) in env.fs
    ensures var ws := StripSsh(words, cword).0;
      var script := if ws[2] in sys && ws[3] in sys[ws[2]] then sys[ws[2]][ws[3]] else home[ws[2]][ws[3]];
      var r := ArgComplete(cword, prev, curr, words, home, sys, env);
      r.Some? && forall c :: c in r.value <==>
        (exists k :: 0 <= k < |FunctionsOf(env.fs[script])| && FunctionsOf(env.fs[script])[k].name == c)
        && StartsWith(c, curr)
  {
    var ws := StripSsh(words, cword).0;
    MergeSysWins(home, sys, ws[2], ws[3]);
    var script := if ws[2] in sys && ws[3] in sys[ws[2]] then sys[ws[2]][ws[3]] else home[ws[2]][ws[3]];
    assert Merge(home, sys)[ws[2]][ws[3]] == script;
    var names := FunctionNames(env.fs[script]);
    assert ArgComplete(cword, prev, curr, words, home, sys, env) == Some(Matching((set n | n in names), curr));
    NamesMatching(env.fs[script], curr);
  }

  /** A name is offered exactly when some function of the script has it and it starts with curr. */
  lemma NamesMatching(content: string, curr: string)
    ensures var fs := FunctionsOf(content);
      forall c :: c in Matching((set n | n in FunctionNames(content)), curr) <==>
        (exists k :: 0 <= k < |fs| && fs[k].name == c) && StartsWith(c, curr)
  {
    var names := FunctionNames(content);
    forall c | c in names ensures exists k :: 0 <= k < |names| && names[k] == c {
      var k :| 0 <= k < |names| && names[k] == c;
    }
  }

  /**
   * The candidates are those of the first function named `func` that offers any: the
   * functions before it are not looked at, or offer nothing.
   */
  lemma {:induction false} FirstOfferWins(functions: seq<Function>, func: string, cword: int, curr: string, i: nat)
    requires cword > 4 && i < |functions| && functions[i].name == func
    requires Offer(functions[i].annotations, cword, curr).Some?
    requires forall j :: 0 <= j < i && functions[j].name == func ==> Offer(functions[j].annotations, cword, curr).None?
    ensures ArgCandidates(functions, func, cword, curr) == Offer(functions[i].annotations, cword, curr).value
    decreases i
  {
    if i > 0 {
      assert ArgCandidates(functions, func, cword, curr) == ArgCandidates(functions[1..], func, cword, curr);
      assert functions[1..][i - 1] == functions[i];
      forall j | 0 <= j < i - 1 && functions[1..][j].name == func
        ensures Offer(functions[1..][j].annotations, cword, curr).None?
      {
        assert functions[1..][j] == functions[j + 1];
      }
      FirstOfferWins(functions[1..], func, cword, curr, i - 1);
    }
  }

  /** When no function named `func` offers anything, nothing is printed. */
  lemma {:induction false} NoOfferNoCandidates(functions: seq<Function>, func: string, cword: int, curr: string)
    requires cword > 4
    requires forall j :: 0 <= j < |functions| && functions[j].name == func ==> Offer(functions[j].annotations, cword, curr).None?
    ensures ArgCandidates(functions, func, cword, curr) == {}
    decreases |functions|
  {
    if functions != [] {
      assert ArgCandidates(functions, func, cword, curr) == ArgCandidates(functions[1..], func, cword, curr);
      forall j | 0 <= j < |functions| - 1 && functions[1..][j].name == func
        ensures Offer(functions[1..][j].annotations, cword, curr).None?
      {
        assert functions[1..][j] == functions[j + 1];
      }
      NoOfferNoCandidates(functions[1..], func, cword, curr);
    }
  }

  /**
   * Every argument candidate starts with what is typed and is a word of the `args` or
   * `opts` annotation of a function named `func`.
   */
  lemma {:induction false} ArgCandidatesFromAnnotations(functions: seq<Function>, func: string, cword: int, curr: string, c: string)
    requires cword > 4 && c in ArgCandidates(functions, func, cword, curr)
    ensures StartsWith(c, curr)
    ensures exists i :: (0 <= i < |functions| && functions[i].name == func &&
      (c in SplitWords(Get(functions[i].annotations, "args")) || c in SplitWords(Get(functions[i].annotations, "opts"))))
    decreases |functions|
  {
    var f := functions[0];
    if f.name == func && Offer(f.annotations, cword, curr).Some? {
      assert c in Offer(f.annotations, cword, curr).value;
      assert functions[0].name == func;
    } else {
      ArgCandidatesFromAnnotations(functions[1..], func, cword, curr, c);
      var i :| 0 <= i < |functions[1..]| && functions[1..][i].name == func &&
        (c in SplitWords(Get(functions[1..][i].annotations, "args")) || c in SplitWords(Get(functions[1..][i].annotations, "opts")));
      assert functions[i + 1] == functions[1..][i];
    }
  }
}
