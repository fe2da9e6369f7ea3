/** Reading shell text back: as much of POSIX Shell Command Language as the guest's files use
    (section 2.2.1, escape character; section 2.2.2, single quotes; section 2.3, comments, blanks
    and newlines). Anything else unquoted makes the reader give up, so it never guesses. */
module Shell {
  import opened Strings
  import opened Wrappers
  import opened GuestEnv

  datatype Mode = Between | InWord | InQuotes | Escaping | Comment

  /** `word` is the word being read, `words` the command's, `commands` those read before it. */
  datatype State = State(mode: Mode, word: string, words: seq<string>, commands: seq<seq<string>>)

  /** Unquoted characters that stand for themselves. */
  predicate Plain(c: char) {
    Letter(c) || Numeral(c) || c in "/.-=:,@+"
  }

  function EndCommand(st: State): State {
    State(Between, "", [], if st.words == [] then st.commands else st.commands + [st.words])
  }

  function EndWord(st: State): State {
    st.(mode := Between, word := "", words := st.words + [st.word])
  }

  function Step(st: State, c: char): Option<State> {
    match st.mode
    case InQuotes => Some(if c == '\'' then st.(mode := InWord) else st.(word := st.word + [c]))
    case Escaping => if c == '\n' then None else Some(st.(mode := InWord, word := st.word + [c]))
    case Comment => Some(if c == '\n' then EndCommand(st) else st)
    case InWord =>
      if c == ' ' || c == '\t' then Some(EndWord(st))
      else if c == '\n' then Some(EndCommand(EndWord(st)))
      else Enter(st, c)
    case Between =>
      if c == ' ' || c == '\t' then Some(st)
      else if c == '\n' then Some(EndCommand(st))
      else if c == '#' then Some(st.(mode := Comment))
      else Enter(st.(word := ""), c)
  }

  function Enter(st: State, c: char): Option<State> {
    if c == '\'' then Some(st.(mode := InQuotes))
    else if c == '\\' then Some(st.(mode := Escaping))
    else if Plain(c) then Some(st.(mode := InWord, word := st.word + [c]))
    else None
  }

  function Feed(st: State, s: string): Option<State>
    decreases |s|
  {
    if s == "" then Some(st)
    else
      match Step(st, s[0])
      case None => None
      case Some(next) => Feed(next, s[1..])
  }

  /** The commands of a script, each the sequence of its words. */
  function Read(s: string): Option<seq<seq<string>>> {
    match Feed(State(Between, "", [], []), s)
    case None => None
    case Some(st) =>
      match st.mode
      case InWord => Some(EndCommand(EndWord(st)).commands)
      case Between => Some(EndCommand(st).commands)
      case Comment => Some(EndCommand(st).commands)
      case _ => None
  }

  lemma {:induction false} FeedTwo(st: State, a: string, b: string)
    ensures Feed(st, a).None? ==> Feed(st, a + b).None?
    ensures Feed(st, a).Some? ==> Feed(st, a + b) == Feed(Feed(st, a).value, b)
    decreases |a|
  {
    if a == "" {
      assert a + b == b;
    } else {
      assert (a + b)[0] == a[0] && (a + b)[1..] == a[1..] + b;
      if Step(st, a[0]).Some? {
        FeedTwo(Step(st, a[0]).value, a[1..], b);
      }
    }
  }

  lemma FeedOne(st: State, c: char)
    ensures Feed(st, [c]) == Step(st, c)
  {
    assert [c][1..] == "";
    if Step(st, c).Some? {
      assert Feed(Step(st, c).value, "") == Step(st, c);
    }
  }

  /** Unquoted, plain characters make up the word. */
  lemma {:induction false} FeedPlain(st: State, s: string)
    requires st.mode == InWord && forall c :: c in s ==> Plain(c)
    ensures Feed(st, s) == Some(st.(word := st.word + s))
    decreases |s|
  {
    if s == "" {
      assert st.word + s == st.word;
    } else {
      assert s[0] in s;
      FeedPlain(st.(word := st.word + [s[0]]), s[1..]);
      assert st.word + [s[0]] + s[1..] == st.word + s;
    }
  }

  lemma FeedEscapedQuote(st: State)
    requires st.mode == InQuotes
    ensures Feed(st, "'\\''") == Some(st.(word := st.word + "'"))
  {
    var a, b, c := st.(mode := InWord), st.(mode := Escaping), st.(mode := InWord, word := st.word + "'");
    FeedOne(c, '\'');
    FeedOne(b, '\'');
    FeedOne(a, '\\');
    FeedOne(st, '\'');
    FeedTwo(st, "'", "\\");
    FeedTwo(st, "'\\", "'");
    FeedTwo(st, "'\\'", "'");
    assert "'" + "\\" == "'\\" && "'\\" + "'" == "'\\'" && "'\\'" + "'" == "'\\''";
  }

  /** Inside quotes, a quoted value is read as the value, whatever its characters. */
  lemma {:induction false} FeedQuoted(st: State, v: string)
    requires st.mode == InQuotes
    ensures Feed(st, Quoted(v)) == Some(st.(word := st.word + v))
    decreases |v|
  {
    if v == "" {
      assert st.word + v == st.word;
    } else {
      var first := if v[0] == '\'' then "'\\''" else [v[0]];
      var next := st.(word := st.word + [v[0]]);
      if v[0] == '\'' { FeedEscapedQuote(st); } else { FeedOne(st, v[0]); }
      FeedTwo(st, first, Quoted(v[1..]));
      FeedQuoted(next, v[1..]);
      assert st.word + [v[0]] + v[1..] == st.word + v;
    }
  }

  /** Open quote, quoted value, close quote. */
  lemma FeedInQuotes(st: State, v: string)
    requires st.mode == InWord || (st.mode == Between && st.word == "")
    ensures Feed(st, "'" + Quoted(v) + "'") == Some(st.(mode := InWord, word := st.word + v))
  {
    var open := st.(mode := InQuotes);
    FeedOne(st, '\'');
    FeedQuoted(open, v);
    FeedOne(open.(word := st.word + v), '\'');
    FeedTwo(st, "'", Quoted(v));
    FeedTwo(st, "'" + Quoted(v), "'");
  }

  // ----- the environment file ------------------------------------------------

  const EXPORT := "export"

  function Ready(commands: seq<seq<string>>): State {
    State(Between, "", [], commands)
  }

  lemma FeedExportWord(commands: seq<seq<string>>)
    ensures Feed(Ready(commands), "export ") == Some(State(Between, "", [EXPORT], commands))
  {
    var st := Ready(commands);
    var in1 := State(InWord, "e", [], commands);
    assert "" + ['e'] == "e";
    FeedOne(st, 'e');
    FeedPlain(in1, "xport");
    FeedTwo(st, "e", "xport");
    assert "e" + "xport" == "export";
    FeedOne(in1.(word := "export"), ' ');
    FeedTwo(st, "export", " ");
    assert "export" + " " == "export ";
    assert [] + [EXPORT] == [EXPORT];
  }

  lemma FeedName(st: State, k: string)
    requires st.mode == Between && st.word == "" && ValidName(k)
    ensures Feed(st, k + "=") == Some(st.(mode := InWord, word := k + "="))
  {
    var s := k + "=";
    assert s == [k[0]] + s[1..];
    FeedOne(st, k[0]);
    forall c | c in s[1..] ensures Plain(c) {
      assert c in k || c == '=';
    }
    assert "" + [k[0]] == [k[0]] && [k[0]] + s[1..] == s;
    FeedPlain(st.(mode := InWord, word := [k[0]]), s[1..]);
    FeedTwo(st, [k[0]], s[1..]);
  }

  lemma FeedExportLine(commands: seq<seq<string>>, k: string, v: string)
    requires ValidName(k)
    ensures Feed(Ready(commands), ExportLine(k, v)) == Some(Ready(commands + [[EXPORT, k + "=" + v]]))
  {
    var st := Ready(commands);
    var named := State(Between, "", [EXPORT], commands);
    var holding := State(InWord, k + "=", [EXPORT], commands);
    var valued := State(InWord, k + "=" + v, [EXPORT], commands);
    FeedExportWord(commands);
    FeedName(named, k);
    FeedInQuotes(holding, v);
    FeedOne(valued, '\n');
    assert [EXPORT] + [k + "=" + v] == [EXPORT, k + "=" + v];
    FeedTwo(st, "export ", k + "=");
    FeedTwo(st, "export " + (k + "="), "'" + Quoted(v) + "'");
    FeedTwo(st, "export " + (k + "=") + ("'" + Quoted(v) + "'"), "\n");
    LineInParts(k, Quoted(v));
  }

  lemma LineInParts(k: string, q: string)
    ensures "export " + k + "='" + q + "'\n" == "export " + (k + "=") + ("'" + q + "'") + "\n"
  {
    assert "='" == "=" + "'" && "'\n" == "'" + "\n";
  }

  function ExportCommands(env: Env, order: seq<string>): (commands: seq<seq<string>>)
    requires forall k :: k in order ==> k in env
    ensures |commands| == |order|
  {
    if order == [] then []
    else
      var n := |order| - 1;
      assert order[n] in order;
      assert forall k :: k in order[..n] ==> k in order;
      ExportCommands(env, order[..n]) + [[EXPORT, order[n] + "=" + env[order[n]]]]
  }

  lemma {:induction false} FeedExports(env: Env, order: seq<string>)
    requires forall k :: k in order ==> k in env && ValidName(k)
    ensures Feed(Ready([]), Exports(env, order)) == Some(Ready(ExportCommands(env, order)))
    decreases |order|
  {
    if order != [] {
      var n := |order| - 1;
      var k := order[n];
      assert k in order;
      assert forall k :: k in order[..n] ==> k in order;
      FeedExports(env, order[..n]);
      FeedExportLine(ExportCommands(env, order[..n]), k, env[k]);
      FeedTwo(Ready([]), Exports(env, order[..n]), ExportLine(k, env[k]));
    }
  }

  /** Running export commands, in order, from an empty environment. */
  function Sourced(commands: seq<seq<string>>): Option<Env> {
    if commands == [] then Some(map[])
    else
      var n := |commands| - 1;
      var before, command := Sourced(commands[..n]), commands[n];
      if before.None? || |command| != 2 || command[0] != EXPORT then None
      else
        var i := Position(command[1], '=');
        if i == |command[1]| || !ValidName(command[1][..i]) then None
        else Some(before.value[command[1][..i] := command[1][i + 1..]])
  }

  lemma OneMoreExport(commands: seq<seq<string>>, k: string, v: string)
    requires Sourced(commands).Some? && ValidName(k)
    ensures Sourced(commands + [[EXPORT, k + "=" + v]]) == Some(Sourced(commands).value[k := v])
  {
    var all, word := commands + [[EXPORT, k + "=" + v]], k + "=" + v;
    assert all[..|commands|] == commands;
    assert '=' !in k;
    PositionAt(k, '=', v);
    assert word[..|k|] == k && word[|k| + 1..] == v;
  }

  function Chosen(env: Env, order: seq<string>): Env
    requires forall k :: k in order ==> k in env
  {
    map k | k in order :: env[k]
  }

  lemma ChosenSnoc(env: Env, order: seq<string>, k: string)
    requires k in env && forall j :: j in order ==> j in env
    ensures Chosen(env, order + [k]) == Chosen(env, order)[k := env[k]]
  {
  }

  lemma ExportsSnoc(env: Env, order: seq<string>)
    requires order != [] && forall k :: k in order ==> k in env
    ensures var n := |order| - 1;
            && order[n] in env && (forall k :: k in order[..n] ==> k in order)
            && order == order[..n] + [order[n]]
            && ExportCommands(env, order)
               == ExportCommands(env, order[..n]) + [[EXPORT, order[n] + "=" + env[order[n]]]]
  {
    assert order[|order| - 1] in order;
  }

  lemma {:induction false} SourcedExports(env: Env, order: seq<string>)
    requires forall k :: k in order ==> k in env && ValidName(k)
    ensures Sourced(ExportCommands(env, order)) == Some(Chosen(env, order))
    decreases |order|
  {
    if order != [] {
      var n := |order| - 1;
      ExportsSnoc(env, order);
      assert order[n] in order;
      SourcedExports(env, order[..n]);
      OneMoreExport(ExportCommands(env, order[..n]), order[n], env[order[n]]);
      ChosenSnoc(env, order[..n], order[n]);
    }
  }

  /** Sourcing the rendered file gives exactly the environment that was rendered. */
  lemma EnvironmentRoundTrip(env: Env, order: seq<string>)
    requires SortedKeys(env, order) && forall k :: k in env ==> ValidName(k)
    ensures Read(Exports(env, order)).Some?
    ensures Sourced(Read(Exports(env, order)).value) == Some(env)
  {
    FeedExports(env, order);
    SourcedExports(env, order);
    assert Chosen(env, order) == env;
  }

  // ----- the command line ----------------------------------------------------

  /** The state at the end of the last of `words`. */
  function Typed(words: seq<string>): State
    requires words != []
  {
    State(InWord, words[|words| - 1], words[..|words| - 1], [])
  }

  lemma {:induction false} FeedArgs(words: seq<string>, argv: seq<string>)
    requires words != []
    ensures Feed(Typed(words), QuotedArgs(argv)) == Some(Typed(words + argv))
    decreases |argv|
  {
    if argv == [] {
      assert words + argv == words;
    } else {
      var n := |argv| - 1;
      FeedArgs(words, argv[..n]);
      FeedArg(words + argv[..n], argv[n]);
      FeedTwo(Typed(words), QuotedArgs(argv[..n]), " '" + Quoted(argv[n]) + "'");
      ArgInParts(QuotedArgs(argv[..n]), Quoted(argv[n]));
      assert words + argv == words + argv[..n] + [argv[n]];
    }
  }

  lemma ArgInParts(line: string, q: string)
    ensures line + " '" + q + "'" == line + (" '" + q + "'")
    ensures " '" + q + "'" == " " + ("'" + q + "'")
  {
    assert " '" == " " + "'";
  }

  lemma FeedArg(words: seq<string>, arg: string)
    requires words != []
    ensures Feed(Typed(words), " '" + Quoted(arg) + "'") == Some(Typed(words + [arg]))
  {
    var st := Typed(words);
    FeedOne(st, ' ');
    FeedInQuotes(EndWord(st), arg);
    FeedTwo(st, " ", "'" + Quoted(arg) + "'");
    ArgInParts("", Quoted(arg));
    assert words[..|words| - 1] + [words[|words| - 1]] == words;
    assert "" + arg == arg && (words + [arg])[..|words|] == words;
  }

  lemma {:induction false} FeedComment(st: State, s: string)
    requires st.mode == Comment && '\n' !in s
    ensures Feed(st, s) == Some(st)
    decreases |s|
  {
    if s != "" {
      assert s[0] in s;
      FeedComment(st, s[1..]);
    }
  }

  lemma FeedShebang()
    ensures Feed(Ready([]), "#!/bin/sh\n") == Some(Ready([]))
  {
    var st, comment := Ready([]), Ready([]).(mode := Comment);
    FeedOne(st, '#');
    FeedComment(comment, "!/bin/sh");
    FeedOne(comment, '\n');
    FeedTwo(st, "#", "!/bin/sh");
    FeedTwo(st, "#" + "!/bin/sh", "\n");
    assert "#" + "!/bin/sh" + "\n" == "#!/bin/sh\n";
  }

  lemma FeedExec()
    ensures Feed(Ready([]), "exec") == Some(State(InWord, "exec", [], []))
  {
    assert "" + ['e'] == "e";
    FeedOne(Ready([]), 'e');
    FeedPlain(State(InWord, "e", [], []), "xec");
    FeedTwo(Ready([]), "e", "xec");
    assert "e" + "xec" == "exec";
  }

  lemma FeedHead()
    ensures Feed(Ready([]), "#!/bin/sh\nexec") == Some(Typed(["exec"]))
  {
    FeedShebang();
    FeedExec();
    FeedTwo(Ready([]), "#!/bin/sh\n", "exec");
    assert "#!/bin/sh\n" + "exec" == "#!/bin/sh\nexec";
  }

  lemma FeedLineEnd(words: seq<string>)
    requires words != []
    ensures Feed(Typed(words), "\n") == Some(Ready([words]))
  {
    FeedOne(Typed(words), '\n');
    assert words[..|words| - 1] + [words[|words| - 1]] == words;
    assert Ready([]).commands + [words] == [words];
  }

  lemma FeedScript(head: string, argv: seq<string>)
    requires Feed(Ready([]), head) == Some(Typed(["exec"]))
    ensures Feed(Ready([]), head + QuotedArgs(argv) + "\n") == Some(Ready([["exec"] + argv]))
  {
    FeedArgs(["exec"], argv);
    FeedLineEnd(["exec"] + argv);
    FeedTwo(Ready([]), head, QuotedArgs(argv));
    FeedTwo(Ready([]), head + QuotedArgs(argv), "\n");
  }

  /** Reading the command script gives one command: `exec` with exactly the declared arguments. */
  lemma CommandRoundTrip(argv: seq<string>)
    ensures Read(CommandScript(argv)) == Some([["exec"] + argv])
  {
    FeedHead();
    FeedScript("#!/bin/sh\nexec", argv);
  }
}
