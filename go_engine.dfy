/**
 * The Go engine's command channel (engine/main.go, `listenForCommands`):
 * each input line is trimmed, split once on the first space into a command
 * word and a verbatim argument, and dispatched; GRAB and RELEASE drive the
 * discovery object's grab state, DOWNLOAD starts a download in the
 * background, and every reaction is a line on standard output or error.
 */
module GoEngine {
  import opened Common
  import opened GoStrings
  import GoFilePath
  import GoDiscovery

  /** The two arguments of DOWNLOAD: the URL and the destination path. */
  datatype DownloadArgs = DownloadArgs(url: string, dest: string)

  /** What one input line asks for, as the dispatch in `listenForCommands` reads it. */
  datatype Command =
    | Blank
    | Grab(filename: Option<string>)
    | Release
    | Download(args: Option<DownloadArgs>)
    | GetIp
    | ListFiles
    | Unknown(word: string)

  /**
   * The command word and the argument of a line: `TrimSpace`, nothing for an
   * empty line, then `SplitN(line, " ", 2)`.
   */
  function Words(raw: string): Option<(string, Option<string>)> {
    var line := TrimSpace(raw);
    if line == "" then None
    else
      var parts := SplitN2(line, ' ');
      Some((parts[0], if |parts| > 1 then Some(parts[1]) else None))
  }

  /** The two arguments of DOWNLOAD, when the argument splits on a space. */
  function DownloadArgsOf(arg: Option<string>): Option<DownloadArgs> {
    if arg.None? then None
    else
      var args := SplitN2(arg.value, ' ');
      if |args| == 2 then Some(DownloadArgs(args[0], args[1])) else None
  }

  /** The switch on the command word. */
  function Interpret(word: string, arg: Option<string>): Command {
    if word == "GRAB" then Grab(arg)
    else if word == "RELEASE" then Release
    else if word == "DOWNLOAD" then Download(DownloadArgsOf(arg))
    else if word == "GET_IP" then GetIp
    else if word == "LIST_FILES" then ListFiles
    else Unknown(word)
  }

  /** What one input line asks for. */
  function ParseCommand(raw: string): Command {
    match Words(raw)
    case None => Blank
    case Some((word, arg)) => Interpret(word, arg)
  }

  datatype Stream = Stdout | Stderr

  /** One printed line and the stream it goes to. */
  datatype OutLine = OutLine(stream: Stream, text: string)

  /** The answers of the operating system: the local IP, and the glob of the shared directory (`None` on error). */
  datatype Env = Env(localIp: string, glob: Option<seq<string>>)

  /** The grab state of the discovery object. */
  datatype GrabState = GrabState(isHolding: bool, heldFile: string)

  /** The grab state after a command. */
  function NextGrab(g: GrabState, cmd: Command): GrabState {
    match cmd
    case Grab(Some(f)) => GrabState(true, f)
    case Release => GrabState(false, "")
    case _ => g
  }

  /** The `[FILE] <name>` line for one path; the name is the path's base. */
  function FileLine(path: string): OutLine {
    OutLine(Stdout, "[FILE] " + GoFilePath.Base(path))
  }

  /** One `[FILE]` line per path found by the glob, in order. */
  function FileLines(paths: seq<string>): seq<OutLine> {
    seq(|paths|, i requires 0 <= i < |paths| => FileLine(paths[i]))
  }

  /** The lines for one more path are the lines so far followed by that path's line. */
  lemma FileLinesStep(paths: seq<string>, i: nat)
    requires i < |paths|
    ensures FileLines(paths[..i + 1]) == FileLines(paths[..i]) + [FileLine(paths[i])]
  {
  }

  /** The lines the command loop prints for a command at once. */
  function Respond(cmd: Command, env: Env): seq<OutLine> {
    match cmd
    case Blank => []
    case Grab(None) => []
    case Grab(Some(f)) => [OutLine(Stdout, "[CMD] Grab started: " + f)]
    case Release => [OutLine(Stdout, "[CMD] Grab released")]
    case Download(_) => []
    case GetIp => [OutLine(Stdout, "[LOCAL_IP] " + env.localIp)]
    case ListFiles => if env.glob.Some? then FileLines(env.glob.value) else []
    case Unknown(word) => [OutLine(Stderr, "[WARN] Unknown command: " + word)]
  }

  /** The downloads a command starts in the background. */
  function Started(cmd: Command): seq<DownloadArgs> {
    if cmd.Download? && cmd.args.Some? then [cmd.args.value] else []
  }

  /** The line a background download prints when `DownloadFile` returns `err`. */
  function DownloadReport(dest: string, err: Option<string>): OutLine {
    match err
    case None => OutLine(Stdout, "[DOWNLOAD_COMPLETE] " + dest)
    case Some(e) => OutLine(Stderr, "[ERROR] Download failed: " + e)
  }

  /** The state of a session: grab state, lines printed, downloads started. */
  datatype Session = Session(grab: GrabState, out: seq<OutLine>, downloads: seq<DownloadArgs>)

  /** The commands the input lines ask for, in order. */
  function ParseAll(lines: seq<string>): seq<Command> {
    seq(|lines|, i requires 0 <= i < |lines| => ParseCommand(lines[i]))
  }

  /** A session carrying out the given commands, in order. */
  function RunCommands(g: GrabState, cmds: seq<Command>, env: Env): Session
    decreases |cmds|
  {
    if cmds == [] then Session(g, [], [])
    else
      var s := RunCommands(g, cmds[..|cmds| - 1], env);
      var cmd := cmds[|cmds| - 1];
      Session(NextGrab(s.grab, cmd), s.out + Respond(cmd, env), s.downloads + Started(cmd))
  }

  /** A session over the given input lines: the commands they parse to, in order. */
  function Run(g: GrabState, lines: seq<string>, env: Env): Session {
    RunCommands(g, ParseAll(lines), env)
  }

  /** Parsing a prefix of the lines gives the prefix of the commands. */
  lemma ParseAllPrefix(lines: seq<string>, n: nat)
    requires n <= |lines|
    ensures ParseAll(lines)[..n] == ParseAll(lines[..n])
  {
    forall k | 0 <= k < n
      ensures ParseAll(lines)[k] == ParseAll(lines[..n])[k]
    {
      assert lines[..n][k] == lines[k];
    }
  }

  /** The session over one more line is the session so far followed by that line's command. */
  lemma RunStep(g: GrabState, lines: seq<string>, i: nat, env: Env)
    requires i < |lines|
    ensures var s := Run(g, lines[..i], env);
      var cmd := ParseCommand(lines[i]);
      Run(g, lines[..i + 1], env) == Session(NextGrab(s.grab, cmd), s.out + Respond(cmd, env), s.downloads + Started(cmd))
  {
    ParseAllSnoc(lines, i);
    RunCommandsSnoc(g, ParseAll(lines[..i]), ParseCommand(lines[i]), env);
  }

  /** The commands of one more line are those so far followed by that line's command. */
  lemma ParseAllSnoc(lines: seq<string>, i: nat)
    requires i < |lines|
    ensures ParseAll(lines[..i + 1]) == ParseAll(lines[..i]) + [ParseCommand(lines[i])]
  {
    var cmds := ParseAll(lines[..i + 1]);
    ParseAllPrefix(lines[..i + 1], i);
    assert lines[..i + 1][..i] == lines[..i];
    assert cmds[..i] == ParseAll(lines[..i]);
    assert cmds == cmds[..i] + [cmds[i]];
  }

  /** One more command extends the session by that command's effects. */
  lemma RunCommandsSnoc(g: GrabState, cmds: seq<Command>, cmd: Command, env: Env)
    ensures var s := RunCommands(g, cmds, env);
      RunCommands(g, cmds + [cmd], env) == Session(NextGrab(s.grab, cmd), s.out + Respond(cmd, env), s.downloads + Started(cmd))
  {
    assert (cmds + [cmd])[..|cmds|] == cmds;
  }

  /** The grab state has a held file exactly when it is holding. */
  predicate Consistent(g: GrabState) {
    g.isHolding <==> g.heldFile != ""
  }

  // ---------------------------------------------------------------------
  // Parsing

  /** Splitting a trimmed, non-empty line: a non-empty word, and an argument that is neither empty nor ends in white space. */
  lemma SplitShape(line: string)
    requires line != "" && !IsSpace(line[0]) && !IsSpace(line[|line| - 1])
    ensures var parts := SplitN2(line, ' ');
      && parts[0] != "" && ' ' !in parts[0]
      && (|parts| == 1 ==> line == parts[0])
      && (|parts| == 2 ==>
            line == parts[0] + [' '] + parts[1] && parts[1] != "" && !IsSpace(parts[1][|parts[1]| - 1]))
  {
    var parts := SplitN2(line, ' ');
    if |parts| == 2 && parts[1] != "" {
      assert line[|line| - 1] == parts[1][|parts[1]| - 1];
    }
  }

  /**
   * The tokenizer: no words exactly for a line of white space only;
   * otherwise a non-empty word without spaces, and, when there is an
   * argument, a non-empty one not ending in white space, which together with
   * the word and one space makes up the trimmed line.
   */
  lemma WordsShape(raw: string)
    ensures Words(raw).None? <==> forall i :: 0 <= i < |raw| ==> IsSpace(raw[i])
    ensures Words(raw).Some? ==>
      var (word, arg) := Words(raw).value;
      && word != "" && ' ' !in word
      && (arg.None? ==> TrimSpace(raw) == word)
      && (arg.Some? ==> TrimSpace(raw) == word + [' '] + arg.value
                        && arg.value != "" && !IsSpace(arg.value[|arg.value| - 1]))
  {
    TrimSpaceEmptyIff(raw);
    var line := TrimSpace(raw);
    if line != "" {
      SplitShape(line);
    }
  }

  /** A line is blank when it has no words, and is otherwise the switch on its word. */
  lemma ParseCases(raw: string)
    ensures Words(raw).None? ==> ParseCommand(raw) == Blank
    ensures Words(raw).Some? ==> ParseCommand(raw) == Interpret(Words(raw).value.0, Words(raw).value.1)
  {
  }

  /** The switch on a word never yields a blank command. */
  lemma InterpretNotBlank(word: string, arg: Option<string>)
    ensures Interpret(word, arg) != Blank
  {
  }

  /** Only the word GRAB gives a grab command, and its file name is the argument. */
  lemma InterpretGrab(word: string, arg: Option<string>)
    requires Interpret(word, arg).Grab?
    ensures word == "GRAB" && Interpret(word, arg).filename == arg
  {
  }

  /** A line is a blank command exactly when it is white space only, and a blank command has no effect. */
  lemma BlankLines(raw: string, g: GrabState, env: Env)
    ensures ParseCommand(raw) == Blank <==> forall i :: 0 <= i < |raw| ==> IsSpace(raw[i])
    ensures ParseCommand(raw) == Blank ==>
      NextGrab(g, Blank) == g && Respond(Blank, env) == [] && Started(Blank) == []
  {
    WordsShape(raw);
    ParseCases(raw);
    if Words(raw).Some? {
      InterpretNotBlank(Words(raw).value.0, Words(raw).value.1);
    }
  }

  /** The argument of a GRAB is never empty and never ends in white space. */
  lemma GrabArgumentNonEmpty(raw: string)
    requires ParseCommand(raw).Grab? && ParseCommand(raw).filename.Some?
    ensures var f := ParseCommand(raw).filename.value;
      f != "" && !IsSpace(f[|f| - 1])
  {
    ParseCases(raw);
    InterpretGrab(Words(raw).value.0, Words(raw).value.1);
    WordsShape(raw);
  }

  /**
   * DOWNLOAD's arguments: the URL is the text before the first space of the
   * argument (it may be empty when the argument starts with a space) and the
   * destination, the rest, is never empty.
   */
  lemma DownloadArgsShape(arg: string)
    requires arg != "" && !IsSpace(arg[|arg| - 1])
    ensures DownloadArgsOf(Some(arg)).Some? <==> ' ' in arg
    ensures DownloadArgsOf(Some(arg)).Some? ==>
      var a := DownloadArgsOf(Some(arg)).value;
      arg == a.url + " " + a.dest && ' ' !in a.url && a.dest != ""
  {
  }

  /** Only the word DOWNLOAD gives a download command, and its arguments come from its argument. */
  lemma InterpretDownload(word: string, arg: Option<string>)
    requires Interpret(word, arg).Download?
    ensures word == "DOWNLOAD" && Interpret(word, arg).args == DownloadArgsOf(arg)
  {
  }

  /** An argument with no space in it gives no download. */
  lemma DownloadArgsSingle(arg: string)
    requires ' ' !in arg
    ensures DownloadArgsOf(Some(arg)) == None
  {
  }

  /** The word DOWNLOAD takes its arguments from the split of its argument. */
  lemma DownloadWord(arg: Option<string>)
    ensures Interpret("DOWNLOAD", arg) == Download(DownloadArgsOf(arg))
  {
  }

  /** The destination of a parsed DOWNLOAD is never empty and its URL holds no space. */
  lemma DownloadArgsNonEmpty(raw: string)
    requires ParseCommand(raw).Download? && ParseCommand(raw).args.Some?
    ensures var a := ParseCommand(raw).args.value;
      ' ' !in a.url && a.dest != ""
  {
    ParseCases(raw);
    var w, arg := Words(raw).value.0, Words(raw).value.1;
    InterpretDownload(w, arg);
    assert arg.Some?;
    WordsShape(raw);
    DownloadArgsShape(arg.value);
  }

  /** A line with a word and an argument, written out, splits back into them. */
  lemma WordsOf(line: string, word: string, arg: string)
    requires word != "" && ' ' !in word && !IsSpace(word[0])
    requires arg != "" && !IsSpace(arg[|arg| - 1])
    requires line == word + " " + arg
    ensures Words(line) == Some((word, Some(arg)))
    ensures ParseCommand(line) == Interpret(word, Some(arg))
  {
    assert line[0] == word[0];
    assert line[|line| - 1] == arg[|arg| - 1];
    TrimSpaceKeeps(line);
    assert line == word + [' '] + arg;
    SplitAfterWord(word, arg, ' ');
  }

  /**
   * The word is the text before the first space and the argument is the rest
   * verbatim: "GRAB " + f grabs exactly f, inner and leading spaces included,
   * for any f that does not end in white space.
   */
  lemma GrabRoundTrip(f: string)
    requires f != "" && !IsSpace(f[|f| - 1])
    ensures ParseCommand("GRAB " + f) == Grab(Some(f))
  {
    WordsOf("GRAB " + f, "GRAB", f);
  }

  /** An argument made of a URL without spaces, a space and a destination splits back into the two. */
  lemma DownloadArgsJoin(url: string, dest: string)
    requires ' ' !in url
    ensures DownloadArgsOf(Some(url + " " + dest)) == Some(DownloadArgs(url, dest))
  {
    assert url + " " + dest == url + [' '] + dest;
    SplitAfterWord(url, dest, ' ');
  }

  /** "DOWNLOAD " + url + " " + dest gives back url and dest, for a url without spaces and any dest. */
  lemma DownloadRoundTrip(url: string, dest: string)
    requires ' ' !in url && dest != "" && !IsSpace(dest[|dest| - 1])
    ensures ParseCommand("DOWNLOAD " + url + " " + dest) == Download(Some(DownloadArgs(url, dest)))
  {
    var line := "DOWNLOAD " + url + " " + dest;
    var arg := url + " " + dest;
    assert arg[|arg| - 1] == dest[|dest| - 1];
    assert line == "DOWNLOAD" + " " + arg;
    WordsOf(line, "DOWNLOAD", arg);
    DownloadWord(Some(arg));
    DownloadArgsJoin(url, dest);
  }

  /** DOWNLOAD with a single argument is ignored: nothing is started or printed. */
  lemma DownloadOneArgumentIgnored(arg: string)
    requires ' ' !in arg
    ensures ParseCommand("DOWNLOAD " + arg) == Download(None)
  {
    var line := "DOWNLOAD " + arg;
    assert line == "DOWNLOAD" + " " + arg;
    WordOfLine("DOWNLOAD", arg);
    ArgumentOfLine("DOWNLOAD", arg);
    CommandOfWord(line, "DOWNLOAD");
    var rest := Words(line).value.1;
    if rest.Some? {
      DownloadArgsSingle(rest.value);
    }
    DownloadWord(rest);
  }

  /** After a command word and a space, text with no space in it gives an argument with no space in it. */
  lemma ArgumentOfLine(word: string, rest: string)
    requires word != "" && ' ' !in word && !IsSpace(word[0]) && !IsSpace(word[|word| - 1]) && ' ' !in rest
    ensures var w := Words(word + " " + rest);
      w.Some? && (w.value.1.Some? ==> ' ' !in w.value.1.value)
  {
    var line := word + " " + rest;
    WordsShape(line);
    WordOfLine(word, rest);
    var i, j := TrimSpaceSlice(line);
    assert !IsSpace(line[0]);
    assert i == 0;
    var w := Words(line);
    assert w.Some?;
    if w.value.1.Some? {
      var a := w.value.1.value;
      assert line[..j] == word + [' '] + a;
      assert a == line[..j][|word| + 1..] == line[|word| + 1..j];
      assert forall k :: |word| + 1 <= k < j ==> line[k] == rest[k - |word| - 1];
    }
  }


  /**
   * DOWNLOAD prints nothing at once and leaves the grab state alone; it
   * starts a download exactly when it has both arguments.
   */
  lemma DownloadEffects(g: GrabState, args: Option<DownloadArgs>, env: Env)
    ensures NextGrab(g, Download(args)) == g && Respond(Download(args), env) == []
    ensures Started(Download(args)) == if args.Some? then [args.value] else []
  {
  }

  /**
   * A line made of a command word, a space and any text has that word as its
   * command word, whatever the text is: white space only, empty, or ending
   * in white space.
   */
  lemma WordOfLine(word: string, rest: string)
    requires word != "" && ' ' !in word && !IsSpace(word[0]) && !IsSpace(word[|word| - 1])
    ensures Words(word + " " + rest).Some? && Words(word + " " + rest).value.0 == word
  {
    var s := word + " " + rest;
    var i, j := TrimSpaceSlice(s);
    assert s[0] == word[0];
    assert i == 0;
    assert s[|word| - 1] == word[|word| - 1];
    assert |word| <= j;
    var line := TrimSpace(s);
    assert line != "";
    if j == |word| {
      assert line == word;
    } else {
      assert line == word + [' '] + s[|word| + 1..j];
      SplitAfterWord(word, s[|word| + 1..j], ' ');
    }
  }

  /** A line whose command word is `word` is the switch on that word. */
  lemma CommandOfWord(line: string, word: string)
    requires Words(line).Some? && Words(line).value.0 == word
    ensures ParseCommand(line) == Interpret(word, Words(line).value.1)
  {
  }

  /** RELEASE followed by any text still releases. */
  lemma ReleaseWithText(rest: string)
    ensures ParseCommand("RELEASE " + rest) == Release
  {
    var line := "RELEASE " + rest;
    assert line == "RELEASE" + " " + rest;
    WordOfLine("RELEASE", rest);
    CommandOfWord(line, "RELEASE");
  }

  /** Command words are matched case-sensitively: "grab" followed by anything is an unknown command. */
  lemma LowerCaseIsUnknown(f: string)
    ensures ParseCommand("grab " + f) == Unknown("grab")
  {
    var line := "grab " + f;
    assert line == "grab" + " " + f;
    WordOfLine("grab", f);
    CommandOfWord(line, "grab");
  }

  /** A line means what its trimmed text means: white space around it is ignored. */
  lemma ParseTrimmed(raw: string)
    ensures ParseCommand(TrimSpace(raw)) == ParseCommand(raw)
  {
    TrimSpaceIdempotent(raw);
  }

  /**
   * A word is unknown exactly when it is none of the five commands; an
   * unknown word prints one warning naming it on standard error and leaves
   * the grab state alone.
   */
  lemma UnknownCommandWarns(word: string, arg: Option<string>, g: GrabState, env: Env)
    ensures Interpret(word, arg).Unknown? <==> word !in {"GRAB", "RELEASE", "DOWNLOAD", "GET_IP", "LIST_FILES"}
    ensures Interpret(word, arg).Unknown? ==>
      && Interpret(word, arg).word == word
      && NextGrab(g, Interpret(word, arg)) == g
      && Respond(Interpret(word, arg), env) == [OutLine(Stderr, "[WARN] Unknown command: " + word)]
  {
  }

  /** `[DOWNLOAD_COMPLETE] <dest>` is printed exactly when the download returned no error. */
  lemma DownloadReportIff(dest: string, err: Option<string>)
    ensures DownloadReport(dest, err) == OutLine(Stdout, "[DOWNLOAD_COMPLETE] " + dest) <==> err.None?
    ensures err.Some? ==> DownloadReport(dest, err).stream == Stderr
  {
  }

  // ---------------------------------------------------------------------
  // Sessions

  /** No command sets an empty file name. */
  predicate NamesNonEmpty(cmds: seq<Command>) {
    forall i :: 0 <= i < |cmds| && cmds[i].Grab? && cmds[i].filename.Some? ==> cmds[i].filename.value != ""
  }

  /** Carrying out commands that never grab an empty name keeps the grab state consistent. */
  lemma {:induction false} RunCommandsConsistent(g: GrabState, cmds: seq<Command>, env: Env)
    requires Consistent(g) && NamesNonEmpty(cmds)
    ensures Consistent(RunCommands(g, cmds, env).grab)
    decreases |cmds|
  {
    if cmds != [] {
      var init := cmds[..|cmds| - 1];
      assert forall i :: 0 <= i < |init| ==> init[i] == cmds[i];
      RunCommandsConsistent(g, init, env);
    }
  }

  /**
   * Through the command channel the grab state stays consistent: a file is
   * held exactly when the state is holding, since GRAB never sets an empty
   * name and RELEASE clears both.
   */
  lemma RunKeepsConsistent(g: GrabState, lines: seq<string>, env: Env)
    requires Consistent(g)
    ensures Consistent(Run(g, lines, env).grab)
  {
    var cmds := ParseAll(lines);
    forall i | 0 <= i < |cmds| && cmds[i].Grab? && cmds[i].filename.Some?
      ensures cmds[i].filename.value != ""
    {
      GrabArgumentNonEmpty(lines[i]);
    }
    RunCommandsConsistent(g, cmds, env);
  }

  /** GRAB with a file name and RELEASE are the commands that set the grab state. */
  predicate ChangesGrab(cmd: Command) {
    (cmd.Grab? && cmd.filename.Some?) || cmd.Release?
  }

  /** A command that changes the grab state sets it regardless of what it was before. */
  lemma ChangeForgetsPrevious(g: GrabState, h: GrabState, cmd: Command)
    ensures ChangesGrab(cmd) ==> NextGrab(g, cmd) == NextGrab(h, cmd)
    ensures !ChangesGrab(cmd) ==> NextGrab(g, cmd) == g
  {
  }

  /** Commands with no GRAB of a file and no RELEASE leave the grab state as it was. */
  lemma {:induction false} RunWithoutChangeKeepsGrab(g: GrabState, cmds: seq<Command>, env: Env)
    requires forall i :: 0 <= i < |cmds| ==> !ChangesGrab(cmds[i])
    ensures RunCommands(g, cmds, env).grab == g
    decreases |cmds|
  {
    if cmds != [] {
      var init := cmds[..|cmds| - 1];
      assert forall i :: 0 <= i < |init| ==> init[i] == cmds[i];
      RunWithoutChangeKeepsGrab(g, init, env);
      ChangeForgetsPrevious(g, g, cmds[|cmds| - 1]);
    }
  }

  /**
   * The grab state after a run of commands is the one set by its last GRAB
   * of a file or RELEASE; what came before that command does not matter.
   */
  lemma {:induction false} RunLastChangeWins(g: GrabState, cmds: seq<Command>, env: Env, k: nat)
    requires k < |cmds| && ChangesGrab(cmds[k])
    requires forall i :: k < i < |cmds| ==> !ChangesGrab(cmds[i])
    ensures RunCommands(g, cmds, env).grab == NextGrab(g, cmds[k])
    decreases |cmds|
  {
    var n := |cmds| - 1;
    var init := cmds[..n];
    if k < n {
      assert forall i :: 0 <= i < |init| ==> init[i] == cmds[i];
      RunLastChangeWins(g, init, env, k);
    }
    ChangeForgetsPrevious(RunCommands(g, init, env).grab, g, cmds[n]);
  }

  /** The `[FILE]` lines of LIST_FILES, one path at a time. */
  method ListFileLines(files: seq<string>) returns (out: seq<OutLine>)
    ensures out == FileLines(files)
  {
    out := [];
    var i := 0;
    while i < |files|
      invariant 0 <= i <= |files|
      invariant out == FileLines(files[..i])
    {
      FileLinesStep(files, i);
      out := out + [OutLine(Stdout, "[FILE] " + GoFilePath.Base(files[i]))];
      i := i + 1;
    }
    assert files[..|files|] == files;
  }

  /** The switch on the command word, acting on the discovery object. */
  method Execute(disc: GoDiscovery.Discovery, cmd: string, arg: Option<string>, env: Env)
    returns (out: seq<OutLine>, started: seq<DownloadArgs>)
    modifies disc
    ensures GrabState(disc.isHolding, disc.heldFile) == NextGrab(old(GrabState(disc.isHolding, disc.heldFile)), Interpret(cmd, arg))
    ensures out == Respond(Interpret(cmd, arg), env)
    ensures started == Started(Interpret(cmd, arg))
    ensures disc.peers == old(disc.peers) && disc.output == old(disc.output)
  {
    out, started := [], [];
    if cmd == "GRAB" {
      if arg.Some? {
        disc.SetGrab(arg.value);
        out := [OutLine(Stdout, "[CMD] Grab started: " + arg.value)];
      }
    } else if cmd == "RELEASE" {
      disc.ClearGrab();
      out := [OutLine(Stdout, "[CMD] Grab released")];
    } else if cmd == "DOWNLOAD" {
      if arg.Some? {
        var args := SplitN2(arg.value, ' ');
        if |args| == 2 {
          started := [DownloadArgs(args[0], args[1])];
        }
      }
    } else if cmd == "GET_IP" {
      out := [OutLine(Stdout, "[LOCAL_IP] " + env.localIp)];
    } else if cmd == "LIST_FILES" {
      if env.glob.Some? {
        out := ListFileLines(env.glob.value);
      }
    } else {
      out := [OutLine(Stderr, "[WARN] Unknown command: " + cmd)];
    }
  }

  /** The handling of one input line: trim and split it, then switch on the word. */
  method Dispatch(disc: GoDiscovery.Discovery, raw: string, env: Env) returns (out: seq<OutLine>, started: seq<DownloadArgs>)
    modifies disc
    ensures GrabState(disc.isHolding, disc.heldFile) == NextGrab(old(GrabState(disc.isHolding, disc.heldFile)), ParseCommand(raw))
    ensures out == Respond(ParseCommand(raw), env)
    ensures started == Started(ParseCommand(raw))
    ensures disc.peers == old(disc.peers) && disc.output == old(disc.output)
  {
    var words := Words(raw);
    if words.None? {
      return [], [];
    }
    var cmd, arg := words.value.0, words.value.1;
    assert ParseCommand(raw) == Interpret(cmd, arg);
    out, started := Execute(disc, cmd, arg, env);
  }

  /** `listenForCommands` over the lines read from standard input. */
  method ListenForCommands(disc: GoDiscovery.Discovery, lines: seq<string>, env: Env)
    returns (out: seq<OutLine>, downloads: seq<DownloadArgs>)
    modifies disc
    ensures var s := Run(old(GrabState(disc.isHolding, disc.heldFile)), lines, env);
      && GrabState(disc.isHolding, disc.heldFile) == s.grab
      && out == s.out
      && downloads == s.downloads
    ensures disc.peers == old(disc.peers) && disc.output == old(disc.output)
  {
    ghost var g0 := GrabState(disc.isHolding, disc.heldFile);
    out, downloads := [], [];
    var i := 0;
    while i < |lines|
      invariant 0 <= i <= |lines|
      invariant GrabState(disc.isHolding, disc.heldFile) == Run(g0, lines[..i], env).grab
      invariant out == Run(g0, lines[..i], env).out
      invariant downloads == Run(g0, lines[..i], env).downloads
      invariant disc.peers == old(disc.peers) && disc.output == old(disc.output)
    {
      RunStep(g0, lines, i, env);
      var lineOut, started := Dispatch(disc, lines[i], env);
      out := out + lineOut;
      downloads := downloads + started;
      i := i + 1;
    }
    assert lines[..|lines|] == lines;
  }
}
