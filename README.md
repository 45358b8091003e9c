# Code editor workspace model

This project models the state and the handlers of the browser code editor
component in `app/components/CodeEditor.jsx`:

- the workspace file tree it is seeded with;
- the depth-first lookup by id and the two copy-with-replacement updates:
  - `updateFileContent`, the editor's change callback;
  - `toggleFolder`, a click on a folder icon;
- the open-tab list and the active file (`openFile`, `closeFile`, a click on a tab);
- the simulated terminal: the log, the prompt and the commands `clear`, `run`, `ls`
  and `help`, with the run check that searches the tree for `index.html`,
  `styles.css` and `script.js`.

The pure parts of the component are Dafny functions over values:

- `FileTree`: the node type, the recursive updates and the two searches.
- `Tabs`: the tab-list operations.
- `Text`: JavaScript `trim`, `toLowerCase`, `join` and `split`.
- `Terminal`: command classification, the run result and the lines each
  command logs.

Lemmas about these functions are in `FileTreeProperties`, `Tabs`, `Text` and
`Terminal`. They relate each search and update to an independent flat
reference: the pre-order sequence of all nodes (`Subtrees`), a linear search
over it (`FirstMatch`), and per-node views (`Headers`, `PatchedHeaders`,
`Outline`).

The component's state is the class `Workspace.CodeEditor`. Its fields are
`files`, `openFiles`, `activeFile`, `terminalLog` and `terminalInput`. Its
methods update these fields the way the component's state setters do. Each
method's `ensures` ties the new state to the specification functions.
`Valid()` is the invariant every tree and tab method keeps:

- unique ids in the tree;
- distinct tab ids;
- every tab is a file whose id is in the tree;
- the active file, if any, has the id of an open tab.

The model follows the code in these places:

- Closing the active tab activates the LAST remaining tab, not the tab that
  preceded it (line 233; `Tabs.CloseActiveMiddleTab`).
- `updateFileContent` and `toggleFolder` rewrite ANY node whose id matches,
  whichever its kind. The object spread then gives a folder a `content`
  property, or a file an `expanded` property. The node type records these as
  `strayContent` and `strayExpanded`. A matching node's children are not
  searched any further.
- Toggling a file id twice therefore does not restore the tree: the file ends
  with `expanded: false` (`FileTreeProperties.ToggleTwiceOnFile`).
  `FileTreeProperties.ToggleTwice` is proved for ids that name only folders.
- The run succeeds only when all three `findContent` results are truthy.
  Non-empty content is therefore required, not just a file with the name.
  `findContent` has two more quirks:
  - At one level it stops at the first file with the name, even when that
    file's content is empty.
  - It passes over a folder whose search gives the empty string
    (`FileTreeProperties.FindContentStopsAtEmptyMatch`,
    `FileTreeProperties.FindContentSkipsEmptyInFolder`).
- The tabs and the active file hold the node values taken when the file was
  opened. Editing rewrites only the tree, so after an edit the active file
  still holds its old content (`Workspace.CodeEditor.EditorChanged`).
- On `clear`, the echo line is appended and then the whole log is replaced, so
  the log ends as just the ready line.

## Model

| member | source | states |
|---|---|---|
| FileTree.Apply | app/components/CodeEditor.jsx:193-209 | the spread on a matching node keeps its id, name, kind and children; a content update leaves the new text as the node's content, whatever its kind; a toggle negates a folder's `expanded` and gives a file `expanded` equal to the negated truthiness of what it had |
| FileTree.EditMatching | app/components/CodeEditor.jsx:191-201 | the recursive map keeps the length of every level it rebuilds |
| FileTree.FindFileById | app/components/CodeEditor.jsx:179-188 | a node it returns has the requested id |
| FileTree.FirstMatch | app/components/CodeEditor.jsx:180-187 | the flat reference search returns a valid index of a matching node |
| FileTree.FirstMatchIsLeast | app/components/CodeEditor.jsx:180-187 | the reference search finds nothing exactly when no node matches, and otherwise no node before the one found matches |
| FileTree.UniqueIdsSplit | app/components/CodeEditor.jsx:12-50 | unique ids in a tree mean unique ids in the first folder's children and in the siblings after it, and the folder's own id is not repeated below it |
| FileTreeProperties.FindFileByIdIsFirstInPreOrder | app/components/CodeEditor.jsx:179-188 | `findFileById` returns exactly the first node in pre-order (parent before children, siblings left to right) with the id, or null when the pre-order search finds none |
| FileTreeProperties.FindFileByIdNoneIffAbsent | app/components/CodeEditor.jsx:179-188 | `findFileById` returns null if and only if no node at any depth has the id |
| FileTreeProperties.EditAbsent | app/components/CodeEditor.jsx:190-218 | both updates, given an id no node has, return a tree equal to their input |
| FileTreeProperties.EditKeepsOutline | app/components/CodeEditor.jsx:190-218 | both updates keep the tree's shape: every level keeps its length, and every node keeps its id, name, kind, language and children, and every field other than the one the update writes |
| FileTreeProperties.EditKeepsIds | app/components/CodeEditor.jsx:190-218 | the pre-order sequence of ids is the same after either update |
| FileTreeProperties.EditKeepsUniqueIds | app/components/CodeEditor.jsx:190-218 | either update keeps the tree's ids unique |
| FileTreeProperties.EditIsPointwise | app/components/CodeEditor.jsx:190-218 | with unique ids, each node in pre-order after an update is the node before it, edited if and only if its id matches; so `toggleFolder` negates `expanded` on the matching node only and `updateFileContent` sets `content` on it only |
| FileTreeProperties.FindAfterEdit | app/components/CodeEditor.jsx:179-218 | after either update, `findFileById(id)` returns the edited form of the node it returned before, or null if it returned null; no uniqueness needed |
| FileTreeProperties.UpdateThenFind | app/components/CodeEditor.jsx:179-203 | for an id present in the tree, `findFileById(id)` after `updateFileContent(id, c)` returns a node whose content is `c` |
| FileTreeProperties.ToggleTwice | app/components/CodeEditor.jsx:205-218 | toggling, twice, an id that only folders carry gives back the original tree |
| FileTreeProperties.ToggleTwiceOnFile | app/components/CodeEditor.jsx:208-209 | toggling a file's id twice leaves the file with `expanded: false`, not the original file |
| FileTreeProperties.FindContentIsFirstFileNamed | app/components/CodeEditor.jsx:139-152 | when no file with the name has empty content, `findContent` returns the content of the first file in pre-order with the name, or null when there is none |
| FileTreeProperties.FindContentSound | app/components/CodeEditor.jsx:139-152 | a content `findContent` returns is the content of some file with the name, and null means no file at the top level has the name |
| FileTreeProperties.FindContentSkipsEmptyInFolder | app/components/CodeEditor.jsx:145-148 | an empty content found inside a folder is passed over, and the search goes on to a later sibling |
| FileTreeProperties.FindContentStopsAtEmptyMatch | app/components/CodeEditor.jsx:142-144 | at one level the first file with the name is returned even when its content is empty |
| FileTreeProperties.SeededTreeIds | app/components/CodeEditor.jsx:12-50 | the seeded tree has ids 1 to 5 in pre-order, so its ids are unique |
| Tabs.WithoutId | app/components/CodeEditor.jsx:230 | filtering never lengthens the tab list |
| Tabs.WithoutIdMembers | app/components/CodeEditor.jsx:230 | the tabs left by the filter are exactly the tabs whose id differs |
| Tabs.WithoutIdAppend | app/components/CodeEditor.jsx:230 | filtering distributes over concatenation, so the kept tabs stay in their order |
| Tabs.WithoutIdAbsent | app/components/CodeEditor.jsx:228-235 | closing an id that no tab has leaves the tabs unchanged |
| Tabs.WithoutIdDistinct | app/components/CodeEditor.jsx:230 | filtering keeps the tab ids distinct |
| Tabs.CloseOneTab | app/components/CodeEditor.jsx:228-235 | with distinct tab ids, closing the tab at any position removes just that tab and keeps the others in order |
| Tabs.CloseKeepsActiveOpen | app/components/CodeEditor.jsx:228-235 | after closing, the tab ids are distinct and the new active file, if any, is one of the remaining tabs |
| Tabs.CloseActiveMiddleTab | app/components/CodeEditor.jsx:232-233 | closing the active middle tab of three leaves the other two, with the LAST one active |
| Tabs.OpenedProperties | app/components/CodeEditor.jsx:221-226 | opening keeps tab ids distinct, always leaves a tab with the file's id, appends the file value itself when its id is new, keeps the old tabs as a prefix and adds at most one; it changes nothing if the id is already open, and opening again is idempotent |
| Text.Trim | app/components/CodeEditor.jsx:82 | `trim` returns a slice of its input with only whitespace cut from either end, and its result has no whitespace at either end |
| Text.TrimIdempotent | app/components/CodeEditor.jsx:82 | trimming twice is trimming once |
| Text.TrimEmptyIffBlank | app/components/CodeEditor.jsx:82 | the trimmed input is empty if and only if every character is whitespace |
| Text.ToLowerEqualsWord | app/components/CodeEditor.jsx:86 | a text lower-cases to a lower-case keyword if and only if it equals the keyword up to case |
| Text.SplitJoin | app/components/CodeEditor.jsx:95 | names that do not contain the separator, joined by it, split back into the same names |
| Terminal.ParseKeywords | app/components/CodeEditor.jsx:82-108 | a command is `clear`, `run`, `ls` or `help` if and only if its trimmed text equals that keyword up to case; any other command keeps its trimmed original text |
| Terminal.EnterDispatch | app/components/CodeEditor.jsx:80-111 | on Enter: `clear` leaves exactly `$ Ready`; any other command appends `$ <trimmed input>` and then one of: the five help lines, the top-level names joined by single spaces, the running line and the run lines, or `Command not found: <trimmed input>` |
| Terminal.BuildProjectSound | app/components/CodeEditor.jsx:138-174 | a successful run returns, for each of the three names, the non-empty content of a file in the tree with that name |
| Terminal.BuildProjectNeedsAllThree | app/components/CodeEditor.jsx:155-173 | a run fails when any of the three names has no file in the tree |
| Terminal.FindContentWithoutEmptyFiles | app/components/CodeEditor.jsx:139-152 | for a name none of whose files is empty, the run's search is the pre-order search, and what it finds is non-empty |
| Terminal.BuildProjectComplete | app/components/CodeEditor.jsx:138-174 | when each name has a file and none of them is empty, the run succeeds with the first such file's content, in pre-order, for each name |
| Terminal.BuildProjectSeeded | app/components/CodeEditor.jsx:12-50 | on the seeded tree a run succeeds, with the seeded contents, exactly when all three are non-empty |
| Terminal.ListSeeded | app/components/CodeEditor.jsx:94-97 | `ls` on the seeded tree logs just `Project` |
| Terminal.ListLineDeterminesNames | app/components/CodeEditor.jsx:94-97 | when no top-level name contains a space, the `ls` line splits back into the top-level names in order |
| Workspace.CodeEditor.constructor | app/components/CodeEditor.jsx:12-61 | the initial state: the seeded tree, no tabs, no active file, the log `$ Ready`, an empty prompt; it satisfies `Valid()` |
| Workspace.CodeEditor.AddTerminalCommand | app/components/CodeEditor.jsx:71-78 | appends exactly one line to the log |
| Workspace.CodeEditor.SetTerminalInput | app/components/CodeEditor.jsx:387 | the typed text replaces the prompt |
| Workspace.CodeEditor.RunProject | app/components/CodeEditor.jsx:138-174 | returns the run result for the current tree and logs the two success lines or the error line; a success schedules one startup timer |
| Workspace.CodeEditor.ServerStartupElapsed | app/components/CodeEditor.jsx:164-167 | a pending startup timer fires and appends the two server lines |
| Workspace.CodeEditor.AddHelpLines | app/components/CodeEditor.jsx:98-104 | appends the five help lines in order |
| Workspace.CodeEditor.Dispatch | app/components/CodeEditor.jsx:86-108 | the log after the switch on the lower-cased trimmed command: reset for `clear`, else the old log plus that command's reply; only `run` can schedule a timer |
| Workspace.CodeEditor.HandleTerminalCommand | app/components/CodeEditor.jsx:80-111 | any key other than Enter changes nothing; Enter leaves the log given by `Terminal.LogAfterEnter` and an empty prompt |
| Workspace.CodeEditor.UpdateFileContent | app/components/CodeEditor.jsx:190-203 | the tree becomes the updated tree; the tabs and the active file are untouched; `Valid()` is kept |
| Workspace.CodeEditor.ToggleFolder | app/components/CodeEditor.jsx:205-218 | the tree becomes the toggled tree; the tabs and the active file are untouched; `Valid()` is kept |
| Workspace.CodeEditor.EditorChanged | app/components/CodeEditor.jsx:335 | the editor's change callback: the tree's node with the active id now holds the new text, while the tabs and the active file keep their copies |
| Workspace.CodeEditor.OpenFile | app/components/CodeEditor.jsx:221-226 | the tabs become `Opened(old tabs, file)`, the file becomes active, the tree is untouched, and `Valid()` is kept |
| Workspace.CodeEditor.CloseFile | app/components/CodeEditor.jsx:228-235 | the tabs become the filtered tabs; if the active file had the id, the last remaining tab or none becomes active, and otherwise the active file is unchanged; `Valid()` is kept |
| Workspace.CodeEditor.SelectTab | app/components/CodeEditor.jsx:311 | a click on a tab makes its file active and keeps `Valid()` |

## Left out

- JSX rendering, `FileTreeItem`, class strings and icons: presentation only. The model
  keeps the `expanded` flags that rendering reads, but not what is drawn.
- The Monaco editor widget: third-party code. Only its change callback is modelled
  (`Workspace.CodeEditor.EditorChanged`), and its language and value props are not.
- The auto-scroll timer in `addTerminalCommand` (lines 73-77): a DOM side effect.
- The one-second delay before the two server lines (lines 164-167). It is modelled as a
  later event, `ServerStartupElapsed`, counted by `pendingStartups`; time itself is not
  modelled.
- The drag-resize effect and its clamp of the terminal height to [100, 400]
  (lines 114-135): window event plumbing on pointer coordinates.
- `generateId` (line 177): it depends on the clock and on randomness, and nothing calls it.
- The context menu, the new-file modal, `selectedFile` and `terminalVisible`: none of them
  touches the tree, the tabs or the log.
- The seeded file contents are parameters of `SeededTree`, not the demo texts themselves.
- React's batching of state updates: each handler is modelled as running to completion on
  the state it reads. Under that reading, `clear`'s echo followed by the reset leaves the
  single ready line.
- Text.ToLower: maps ASCII letters only. No other character lower-cases to one of the
  letters of `clear`, `run`, `ls` or `help`, and an unknown command is echoed in its
  original case. So which command is chosen, and every line logged, is the same as with
  full Unicode case mapping.
- Text.Trim: characters are code points, not UTF-16 code units.
