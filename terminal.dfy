/** The simulated terminal of the code editor: command parsing, the run check and the lines it logs. */
module Terminal {
  import opened Options
  import opened FileTree
  import opened FileTreeProperties
  import opened Text

  const ReadyLine: string := "$ Ready"
  const RunningLine: string := "Running project..."
  const CompiledLine: string := "Project compiled successfully!"
  const StartingLine: string := "Starting development server..."
  const MissingLine: string := "Error: Missing required files!"
  const NotFoundPrefix: string := "Command not found: "
  const HelpLines: seq<string> := [
    "Available commands:",
    "  run    - Run the project",
    "  clear  - Clear terminal",
    "  ls     - List files",
    "  help   - Show this help"
  ]
  /** The two lines the server-startup timer logs one second after a successful run. */
  const ServerLines: seq<string> := ["Server running at http://localhost:3000", "Ready for preview!"]

  /** What a line typed into the terminal asks for; `Unknown` keeps the trimmed original text. */
  datatype Command = Clear | Run | List | Help | Unknown(text: string)

  /** The `switch (command.toLowerCase())` on an already trimmed command. */
  function Classify(command: string): Command
  {
    var lowered := ToLower(command);
    if lowered == "clear" then Clear
    else if lowered == "run" then Run
    else if lowered == "ls" then List
    else if lowered == "help" then Help
    else Unknown(command)
  }

  /** What a line typed into the prompt asks for: its trimmed text, classified. */
  function Parse(input: string): Command
  {
    Classify(Trim(input))
  }

  /** The three contents `runProject` hands back when it succeeds. */
  datatype Project = Project(html: string, css: string, js: string)

  /** JavaScript truthiness of a search result: found, and not the empty string. */
  predicate Found(r: Option<string>)
  {
    r.Some? && r.value != ""
  }

  /** The value `runProject` returns: the three contents when each search gives a truthy result. */
  function BuildProject(ts: seq<Node>): Option<Project>
  {
    var html := FindContent(ts, "index.html");
    var css := FindContent(ts, "styles.css");
    var js := FindContent(ts, "script.js");
    if Found(html) && Found(css) && Found(js) then Some(Project(html.value, css.value, js.value)) else None
  }

  /** The lines `runProject` logs at once for its result. */
  function RunLines(p: Option<Project>): seq<string>
  {
    if p.Some? then [CompiledLine, StartingLine] else [MissingLine]
  }

  /** `files.map(f => f.name)`: the names at the top level of the tree. */
  function TopLevelNames(ts: seq<Node>): seq<string>
  {
    seq(|ts|, k requires 0 <= k < |ts| => ts[k].name)
  }

  /** The lines a command logs after its `$ <command>` echo. */
  function Reply(c: Command, ts: seq<Node>): seq<string>
  {
    match c
    case Clear => []
    case Run => [RunningLine] + RunLines(BuildProject(ts))
    case List => [Join(TopLevelNames(ts), " ")]
    case Help => HelpLines
    case Unknown(text) => [NotFoundPrefix + text]
  }

  /** The terminal log after Enter is pressed with `input` in the prompt. */
  function LogAfterEnter(log: seq<string>, ts: seq<Node>, input: string): seq<string>
  {
    var c := Parse(input);
    if c == Clear then [ReadyLine] else log + ["$ " + Trim(input)] + Reply(c, ts)
  }

  /** A file of the tree with the given name and a non-empty content equal to `text`. */
  predicate HasFile(ts: seq<Node>, name: string, text: string)
  {
    exists n :: n in Subtrees(ts) && n.File? && n.name == name && n.content == text && text != ""
  }

  /** Some file of the tree has the name. */
  predicate HasFileNamed(ts: seq<Node>, name: string)
  {
    exists n :: n in Subtrees(ts) && n.File? && n.name == name
  }

  /** A file name none of whose files in the tree has empty content. */
  predicate NoEmptyFileNamed(ts: seq<Node>, name: string)
  {
    forall n :: n in Subtrees(ts) && n.File? && n.name == name ==> n.content != ""
  }

  /** The content of the first file with the name, in pre-order. */
  function FirstFileContent(ts: seq<Node>, name: string): Option<string>
  {
    var i := FirstMatch(Subtrees(ts), FileNamed(name));
    if i.None? then None else Some(Subtrees(ts)[i.value].content)
  }

  /**
   * The keywords are matched after trimming and case-insensitively; an unknown
   * command keeps the trimmed text as typed.
   */
  lemma ParseKeywords(input: string)
    ensures Parse(input) == Clear <==> EqualsIgnoringCase(Trim(input), "clear")
    ensures Parse(input) == Run <==> EqualsIgnoringCase(Trim(input), "run")
    ensures Parse(input) == List <==> EqualsIgnoringCase(Trim(input), "ls")
    ensures Parse(input) == Help <==> EqualsIgnoringCase(Trim(input), "help")
    ensures Parse(input).Unknown? ==> Parse(input).text == Trim(input)
  {
    var command := Trim(input);
    ToLowerEqualsWord(command, "clear");
    ToLowerEqualsWord(command, "run");
    ToLowerEqualsWord(command, "ls");
    ToLowerEqualsWord(command, "help");
  }

  /**
   * Enter on the terminal prompt: `clear` leaves exactly the ready line; every
   * other command appends the echo of the trimmed input and then its reply:
   * the five help lines, the top-level names joined by single spaces, the run
   * lines, or the not-found line quoting the trimmed input.
   */
  lemma EnterDispatch(log: seq<string>, ts: seq<Node>, input: string)
    ensures var cmd := Trim(input);
      var echoed := log + ["$ " + cmd];
      && (EqualsIgnoringCase(cmd, "clear") ==> LogAfterEnter(log, ts, input) == ["$ Ready"])
      && (EqualsIgnoringCase(cmd, "help") ==> LogAfterEnter(log, ts, input) == echoed + HelpLines && |HelpLines| == 5)
      && (EqualsIgnoringCase(cmd, "ls") ==> LogAfterEnter(log, ts, input) == echoed + [Join(TopLevelNames(ts), " ")])
      && (EqualsIgnoringCase(cmd, "run") ==>
            LogAfterEnter(log, ts, input) == echoed + [RunningLine] + RunLines(BuildProject(ts)))
      && ((!EqualsIgnoringCase(cmd, "clear") && !EqualsIgnoringCase(cmd, "help") && !EqualsIgnoringCase(cmd, "ls")
           && !EqualsIgnoringCase(cmd, "run")) ==> LogAfterEnter(log, ts, input) == echoed + ["Command not found: " + cmd])
  {
    ParseKeywords(input);
  }

  /** A run that succeeds hands back, for each required name, the non-empty content of a file with that name. */
  lemma BuildProjectSound(ts: seq<Node>)
    ensures BuildProject(ts).Some? ==>
      var p := BuildProject(ts).value;
      HasFile(ts, "index.html", p.html) && HasFile(ts, "styles.css", p.css) && HasFile(ts, "script.js", p.js)
  {
    FindContentSound(ts, "index.html");
    FindContentSound(ts, "styles.css");
    FindContentSound(ts, "script.js");
  }

  /** A run fails when any of the three required names has no file in the tree. */
  lemma BuildProjectNeedsAllThree(ts: seq<Node>)
    requires !HasFileNamed(ts, "index.html") || !HasFileNamed(ts, "styles.css") || !HasFileNamed(ts, "script.js")
    ensures BuildProject(ts) == None
  {
    BuildProjectSound(ts);
  }

  /** For a name none of whose files has empty content, the run's search for it is the pre-order search. */
  lemma FindContentWithoutEmptyFiles(ts: seq<Node>, name: string)
    requires NoEmptyFileNamed(ts, name)
    ensures FindContent(ts, name) == FirstFileContent(ts, name)
    ensures FirstFileContent(ts, name).Some? ==> FirstFileContent(ts, name).value != ""
  {
    FindContentIsFirstFileNamed(ts, name);
    var s := Subtrees(ts);
    var i := FirstMatch(s, FileNamed(name));
    FirstMatchIsLeast(s, FileNamed(name));
    if i.Some? { assert s[i.value] in s; }
  }

  /**
   * When no file with a required name has empty content and each name has a
   * file, a run succeeds with the first such file's content, in pre-order, for each.
   */
  lemma BuildProjectComplete(ts: seq<Node>)
    requires NoEmptyFileNamed(ts, "index.html") && NoEmptyFileNamed(ts, "styles.css") && NoEmptyFileNamed(ts, "script.js")
    requires FirstFileContent(ts, "index.html").Some?
    requires FirstFileContent(ts, "styles.css").Some?
    requires FirstFileContent(ts, "script.js").Some?
    ensures BuildProject(ts) == Some(Project(FirstFileContent(ts, "index.html").value,
                                             FirstFileContent(ts, "styles.css").value,
                                             FirstFileContent(ts, "script.js").value))
  {
    FindContentWithoutEmptyFiles(ts, "index.html");
    FindContentWithoutEmptyFiles(ts, "styles.css");
    FindContentWithoutEmptyFiles(ts, "script.js");
  }

  /** On the seeded tree, a run succeeds exactly when the three seeded contents are non-empty. */
  lemma BuildProjectSeeded(html: string, css: string, js: string)
    ensures BuildProject(SeededTree(html, css, js)) ==
      if html != "" && css != "" && js != "" then Some(Project(html, css, js)) else None
  {
    var t := SeededTree(html, css, js);
    var src := t[0].children;
    var files := src[0].children;
    assert files[1..][1..] == [files[2]];
    assert src[1..] == [] && t[1..] == [];
    assert FindContent(files, "index.html") == Some(html);
    assert FindContent(files[1..], "styles.css") == Some(css);
    assert FindContent(files, "styles.css") == Some(css);
    assert FindContent(files[1..][1..], "script.js") == Some(js);
    assert FindContent(files[1..], "script.js") == Some(js);
    assert FindContent(files, "script.js") == Some(js);
    var some := (x: string) => if x != "" then Some(x) else None;
    assert FindContent(src, "index.html") == some(html) && FindContent(t, "index.html") == some(html);
    assert FindContent(src, "styles.css") == some(css) && FindContent(t, "styles.css") == some(css);
    assert FindContent(src, "script.js") == some(js);
    assert FindContent(t, "script.js") == some(js);
  }

  /** `ls` on the seeded tree lists its one top-level folder. */
  lemma ListSeeded(html: string, css: string, js: string)
    ensures Reply(List, SeededTree(html, css, js)) == ["Project"]
  {
  }

  /** When no top-level name contains a space, the `ls` line splits back into the top-level names. */
  lemma ListLineDeterminesNames(ts: seq<Node>)
    requires ts != []
    requires forall k :: 0 <= k < |ts| ==> ' ' !in ts[k].name
    ensures Split(Reply(List, ts)[0], ' ') == TopLevelNames(ts)
  {
    SplitJoin(TopLevelNames(ts), ' ');
  }
}
