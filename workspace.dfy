/** The state the code editor component keeps, and the handlers that update it. */
module Workspace {
  import opened Options
  import opened FileTree
  import opened FileTreeProperties
  import opened Tabs
  import opened Text
  import opened Terminal

  /**
   * The component's state: the tree, the open tabs, the active file and the
   * terminal. The tabs and the active file hold the node values taken when the
   * file was opened; editing rewrites only the tree.
   */
  class CodeEditor {
    var files: seq<Node>
    var openFiles: seq<Node>
    var activeFile: Option<Node>
    var terminalLog: seq<string>
    var terminalInput: string
    /** Server-startup timers that successful runs have scheduled and that have not fired yet. */
    var pendingStartups: nat

    /**
     * The tree's ids are unique; the tabs are files of the tree with distinct
     * ids; the active file, if any, is a file with the id of an open tab.
     */
    ghost predicate Valid()
      reads this`files, this`openFiles, this`activeFile
    {
      && UniqueIds(files)
      && Distinct(IdsOf(openFiles))
      && (forall t :: t in openFiles ==> t.File? && t.id in IdsOf(Subtrees(files)))
      && (activeFile.Some? ==> activeFile.value.File? && activeFile.value.id in IdsOf(openFiles))
    }

    /** The initial state: the seeded tree, no tabs, and the ready line in the terminal. */
    constructor (html: string, css: string, js: string)
      ensures Valid()
      ensures files == SeededTree(html, css, js) && openFiles == [] && activeFile == None
      ensures terminalLog == [ReadyLine] && terminalInput == "" && pendingStartups == 0
    {
      files := SeededTree(html, css, js);
      openFiles := [];
      activeFile := None;
      terminalLog := [ReadyLine];
      terminalInput := "";
      pendingStartups := 0;
      SeededTreeIds(html, css, js);
    }

    /** `addTerminalCommand(command)`: one line appended to the log. */
    method AddTerminalCommand(line: string)
      modifies this`terminalLog
      ensures terminalLog == old(terminalLog) + [line]
    {
      terminalLog := terminalLog + [line];
    }

    /** The prompt's `onChange`: the typed text replaces the input. */
    method SetTerminalInput(value: string)
      modifies this`terminalInput
      ensures terminalInput == value
    {
      terminalInput := value;
    }

    /**
     * `runProject()`: searches the tree for the three required files, logs the
     * success or the error lines, and on success schedules the startup timer.
     */
    method RunProject() returns (p: Option<Project>)
      modifies this`terminalLog, this`pendingStartups
      ensures p == BuildProject(files)
      ensures terminalLog == old(terminalLog) + RunLines(p)
      ensures pendingStartups == old(pendingStartups) + (if p.Some? then 1 else 0)
    {
      var html := FindContent(files, "index.html");
      var css := FindContent(files, "styles.css");
      var js := FindContent(files, "script.js");
      if Found(html) && Found(css) && Found(js) {
        AddTerminalCommand(CompiledLine);
        AddTerminalCommand(StartingLine);
        pendingStartups := pendingStartups + 1;
        p := Some(Project(html.value, css.value, js.value));
      } else {
        AddTerminalCommand(MissingLine);
        p := None;
      }
    }

    /** The startup timer of an earlier successful run fires and logs the two server lines. */
    method ServerStartupElapsed()
      requires pendingStartups > 0
      modifies this`terminalLog, this`pendingStartups
      ensures terminalLog == old(terminalLog) + ServerLines
      ensures pendingStartups == old(pendingStartups) - 1
    {
      AddTerminalCommand(ServerLines[0]);
      AddTerminalCommand(ServerLines[1]);
      pendingStartups := pendingStartups - 1;
    }

    /** The `help` case: five `addTerminalCommand` calls. */
    method AddHelpLines()
      modifies this`terminalLog
      ensures terminalLog == old(terminalLog) + HelpLines
    {
      AddTerminalCommand(HelpLines[0]);
      AddTerminalCommand(HelpLines[1]);
      AddTerminalCommand(HelpLines[2]);
      AddTerminalCommand(HelpLines[3]);
      AddTerminalCommand(HelpLines[4]);
    }

    /** The `switch` of `handleTerminalCommand` on the lower-cased form of the trimmed command. */
    method Dispatch(command: string)
      modifies this`terminalLog, this`pendingStartups
      ensures var c := Classify(command);
        terminalLog == (if c == Clear then [ReadyLine] else old(terminalLog) + Reply(c, files))
      ensures pendingStartups == old(pendingStartups) + (if Classify(command) == Run && BuildProject(files).Some? then 1 else 0)
    {
      var lowered := ToLower(command);
      if lowered == "clear" {
        terminalLog := [ReadyLine];
      } else if lowered == "run" {
        AddTerminalCommand(RunningLine);
        var _ := RunProject();
      } else if lowered == "ls" {
        AddTerminalCommand(Join(TopLevelNames(files), " "));
      } else if lowered == "help" {
        AddHelpLines();
      } else {
        AddTerminalCommand(NotFoundPrefix + command);
      }
    }

    /**
     * `handleTerminalCommand(e)`: on Enter, echoes the trimmed input, dispatches
     * on its lower-cased form and clears the prompt; any other key changes nothing.
     */
    method HandleTerminalCommand(key: string)
      modifies this`terminalLog, this`terminalInput, this`pendingStartups
      ensures key != "Enter" ==>
        terminalLog == old(terminalLog) && terminalInput == old(terminalInput) && pendingStartups == old(pendingStartups)
      ensures key == "Enter" ==>
        terminalLog == LogAfterEnter(old(terminalLog), files, old(terminalInput)) && terminalInput == ""
      ensures key == "Enter" ==>
        pendingStartups == old(pendingStartups) + (if Parse(old(terminalInput)) == Run && BuildProject(files).Some? then 1 else 0)
    {
      if key == "Enter" {
        var command := Trim(terminalInput);
        AddTerminalCommand("$ " + command);
        Dispatch(command);
        SetTerminalInput("");
      }
    }

    /** `updateFileContent(id, newContent)`: only the tree changes; the tabs and the active file keep their copies. */
    method UpdateFileContent(id: string, newContent: string)
      requires Valid()
      modifies this`files
      ensures Valid()
      ensures files == FileTree.UpdateFileContent(old(files), id, newContent)
      ensures openFiles == old(openFiles) && activeFile == old(activeFile)
    {
      EditKeepsIds(files, id, SetContent(newContent));
      files := FileTree.UpdateFileContent(files, id, newContent);
    }

    /** `toggleFolder(id)`: only the tree changes. */
    method ToggleFolder(id: string)
      requires Valid()
      modifies this`files
      ensures Valid()
      ensures files == FileTree.ToggleFolder(old(files), id)
      ensures openFiles == old(openFiles) && activeFile == old(activeFile)
    {
      EditKeepsIds(files, id, FlipExpanded);
      files := FileTree.ToggleFolder(files, id);
    }

    /**
     * The editor widget's change callback, `updateFileContent(activeFile.id, value)`:
     * the tree's node with the active id now holds the new text, while the
     * active file and the tabs still hold the text they were opened with.
     */
    method EditorChanged(value: string)
      requires Valid() && activeFile.Some?
      modifies this`files
      ensures Valid()
      ensures files == FileTree.UpdateFileContent(old(files), activeFile.value.id, value)
      ensures FindFileById(files, activeFile.value.id).Some?
      ensures ContentOf(FindFileById(files, activeFile.value.id).value) == Some(value)
      ensures openFiles == old(openFiles) && activeFile == old(activeFile)
    {
      var id := activeFile.value.id;
      var k :| 0 <= k < |openFiles| && IdsOf(openFiles)[k] == id;
      assert openFiles[k] in openFiles;
      UpdateThenFind(files, id, value);
      UpdateFileContent(id, value);
    }

    /** `openFile(file)`: a tab is added only for a new id; the file becomes active in any case. */
    method OpenFile(f: Node)
      requires Valid() && f.File? && f in Subtrees(files)
      modifies this`openFiles, this`activeFile
      ensures Valid()
      ensures openFiles == Opened(old(openFiles), f)
      ensures activeFile == Some(f)
      ensures files == old(files)
    {
      IdOfMember(f, Subtrees(files));
      OpenedProperties(openFiles, f);
      if f.id !in IdsOf(openFiles) {
        openFiles := openFiles + [f];
      }
      activeFile := Some(f);
    }

    /**
     * `closeFile(fileId)`: every tab with the id goes; if the active file had
     * the id, the last remaining tab becomes active, or none.
     */
    method CloseFile(id: string)
      requires Valid()
      modifies this`openFiles, this`activeFile
      ensures Valid()
      ensures openFiles == WithoutId(old(openFiles), id)
      ensures activeFile == ActiveAfterClose(openFiles, old(activeFile), id)
      ensures files == old(files)
    {
      CloseKeepsActiveOpen(openFiles, activeFile, id);
      WithoutIdMembers(openFiles, id);
      var remaining := WithoutId(openFiles, id);
      openFiles := remaining;
      if activeFile.Some? && activeFile.value.id == id {
        activeFile := if remaining == [] then None else Some(remaining[|remaining| - 1]);
      }
    }

    /** A click on a tab makes its file active. */
    method SelectTab(t: Node)
      requires Valid() && t in openFiles
      modifies this`activeFile
      ensures Valid()
      ensures activeFile == Some(t)
    {
      IdOfMember(t, openFiles);
      activeFile := Some(t);
    }
  }
}
