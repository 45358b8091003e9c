/**
 * The workspace file tree of the code editor: a sequence of nodes, each a
 * folder or a file, searched depth-first and rewritten by copy-with-replacement.
 */
module FileTree {
  import opened Options

  /**
   * A node of the tree. Besides the fields the seeded tree gives it, a folder
   * can acquire a `content` property (`strayContent`) and a file an `expanded`
   * property (`strayExpanded`): the object spreads of the two update
   * operations write those fields on whatever node carries the id.
   */
  datatype Node =
    | Folder(id: string, name: string, expanded: bool, children: seq<Node>, strayContent: Option<string>)
    | File(id: string, name: string, content: string, language: string, strayExpanded: Option<bool>)

  /** What one id-directed copy-with-replacement writes on the node it hits. */
  datatype Edit = SetContent(text: string) | FlipExpanded

  /** JavaScript truthiness of an optional `expanded` property. */
  predicate Truthy(b: Option<bool>)
  {
    b == Some(true)
  }

  /** The `content` property of a node, whatever its kind. */
  function ContentOf(n: Node): Option<string>
  {
    if n.File? then Some(n.content) else n.strayContent
  }

  /** The object spread `{ ...item, content: newContent }` or `{ ...item, expanded: !item.expanded }`. */
  function Apply(e: Edit, n: Node): (r: Node)
    ensures r.id == n.id && r.name == n.name && r.Folder? == n.Folder?
    ensures r.Folder? ==> r.children == n.children
    ensures e.SetContent? ==> ContentOf(r) == Some(e.text)
    ensures e.FlipExpanded? && n.Folder? ==> r.Folder? && r.expanded == !n.expanded
    ensures e.FlipExpanded? && n.File? ==> r.strayExpanded == Some(!Truthy(n.strayExpanded))
  {
    match e
    case SetContent(text) =>
      if n.File? then n.(content := text) else n.(strayContent := Some(text))
    case FlipExpanded =>
      if n.Folder? then n.(expanded := !n.expanded) else n.(strayExpanded := Some(!Truthy(n.strayExpanded)))
  }

  /**
   * The recursive `items.map(...)` of both update operations: a node whose id
   * matches is replaced by `Apply(e, node)` and not descended into; any other
   * folder is rebuilt with its children rewritten; any other file is kept.
   */
  function EditMatching(ts: seq<Node>, id: string, e: Edit): (r: seq<Node>)
    ensures |r| == |ts|
    decreases ts
  {
    if ts == [] then []
    else
      var n := ts[0];
      var n' := if n.id == id then Apply(e, n)
                else if n.Folder? then n.(children := EditMatching(n.children, id, e))
                else n;
      [n'] + EditMatching(ts[1..], id, e)
  }

  /** `updateFileContent(id, newContent)`: the new tree it stores. */
  function UpdateFileContent(ts: seq<Node>, id: string, newContent: string): seq<Node>
  {
    EditMatching(ts, id, SetContent(newContent))
  }

  /** `toggleFolder(id)`: the new tree it stores. */
  function ToggleFolder(ts: seq<Node>, id: string): seq<Node>
  {
    EditMatching(ts, id, FlipExpanded)
  }

  /** Every node of the tree, in pre-order: parent before children, siblings left to right. */
  function Subtrees(ts: seq<Node>): seq<Node>
    decreases ts
  {
    if ts == [] then []
    else [ts[0]] + (if ts[0].Folder? then Subtrees(ts[0].children) else []) + Subtrees(ts[1..])
  }

  /** The ids of a flat sequence of nodes, in order. */
  function IdsOf(ss: seq<Node>): seq<string>
  {
    seq(|ss|, k requires 0 <= k < |ss| => ss[k].id)
  }

  predicate Distinct(xs: seq<string>)
  {
    forall i, j :: 0 <= i < j < |xs| ==> xs[i] != xs[j]
  }

  /** Identifiers are unique across the whole tree. */
  predicate UniqueIds(ts: seq<Node>)
  {
    Distinct(IdsOf(Subtrees(ts)))
  }

  /** `findFileById(id, items)`: depth-first, returning the first node with that id. */
  function FindFileById(ts: seq<Node>, id: string): (r: Option<Node>)
    ensures r.Some? ==> r.value.id == id
    decreases ts
  {
    if ts == [] then None
    else if ts[0].id == id then Some(ts[0])
    else
      var found := if ts[0].Folder? then FindFileById(ts[0].children, id) else None;
      if found.Some? then found else FindFileById(ts[1..], id)
  }

  /**
   * `findContent(items)` inside `runProject`: the content of the first file named
   * `filename` at this level, unless a folder before it yields a non-empty
   * content; a folder whose search gives `null` or `""` is passed over.
   */
  function FindContent(ts: seq<Node>, filename: string): Option<string>
    decreases ts
  {
    if ts == [] then None
    else if ts[0].File? && ts[0].name == filename then Some(ts[0].content)
    else
      var found := if ts[0].Folder? then FindContent(ts[0].children, filename) else None;
      if found.Some? && found.value != "" then found else FindContent(ts[1..], filename)
  }

  /** The tree the component starts with; the three contents are its seeded demo texts. */
  function SeededTree(html: string, css: string, js: string): seq<Node>
  {
    [Folder("1", "Project", true,
       [Folder("2", "src", true,
          [File("3", "index.html", html, "html", None),
           File("4", "styles.css", css, "css", None),
           File("5", "script.js", js, "javascript", None)],
          None)],
       None)]
  }

  // ---------------------------------------------------------------------------
  // Reference views: flat pre-order search, headers and outlines
  // ---------------------------------------------------------------------------

  /** What a query asks of a node. */
  datatype Query = ById(id: string) | FileNamed(name: string)

  predicate Matches(q: Query, n: Node)
  {
    match q
    case ById(id) => n.id == id
    case FileNamed(name) => n.File? && n.name == name
  }

  /** Linear search of a flat sequence: the least index whose node matches (see `FirstMatchIsLeast`). */
  function FirstMatch(ss: seq<Node>, q: Query): (r: Option<nat>)
    ensures r.Some? ==> r.value < |ss| && Matches(q, ss[r.value])
  {
    if ss == [] then None
    else if Matches(q, ss[0]) then Some(0)
    else
      var k := FirstMatch(ss[1..], q);
      if k.None? then None else Some(k.value + 1)
  }

  /**
   * The search finds nothing exactly when no node matches, and otherwise a
   * matching node with no matching node before it.
   */
  lemma {:induction false} FirstMatchIsLeast(ss: seq<Node>, q: Query)
    ensures FirstMatch(ss, q).None? <==> forall k :: 0 <= k < |ss| ==> !Matches(q, ss[k])
    ensures var r := FirstMatch(ss, q);
      r.Some? ==> forall k :: 0 <= k < r.value ==> !Matches(q, ss[k])
    decreases |ss|
  {
    if ss != [] && !Matches(q, ss[0]) {
      FirstMatchIsLeast(ss[1..], q);
      assert forall k :: 1 <= k < |ss| ==> ss[k] == ss[1..][k - 1];
    }
  }

  /** A node with its children dropped: the fields that belong to the node itself. */
  function Header(n: Node): Node
  {
    if n.Folder? then n.(children := []) else n
  }

  function Headers(ss: seq<Node>): seq<Node>
  {
    seq(|ss|, k requires 0 <= k < |ss| => Header(ss[k]))
  }

  /** Flat reference for an edit: every node with the id edited, every other one kept. */
  function PatchedHeaders(ss: seq<Node>, id: string, e: Edit): seq<Node>
  {
    seq(|ss|, k requires 0 <= k < |ss| => Header(if ss[k].id == id then Apply(e, ss[k]) else ss[k]))
  }

  /** A node with the fields an edit of kind `e` may write reset. */
  function Blank(e: Edit, n: Node): Node
  {
    match e
    case SetContent(_) => if n.File? then n.(content := "") else n.(strayContent := None)
    case FlipExpanded => if n.Folder? then n.(expanded := false) else n.(strayExpanded := None)
  }

  /** The tree with every field an edit of kind `e` may write reset, at every level. */
  function Outline(ts: seq<Node>, e: Edit): seq<Node>
    decreases ts
  {
    if ts == [] then []
    else
      var n := ts[0];
      var m := if n.Folder? then n.(children := Outline(n.children, e)) else n;
      [Blank(e, m)] + Outline(ts[1..], e)
  }

  // ---------------------------------------------------------------------------
  // Helper facts about the flat views
  // ---------------------------------------------------------------------------

  lemma SubtreesCons(ts: seq<Node>)
    requires ts != []
    ensures Subtrees(ts) == [ts[0]] + (if ts[0].Folder? then Subtrees(ts[0].children) else []) + Subtrees(ts[1..])
  {
  }

  lemma IdsOfAppend(a: seq<Node>, b: seq<Node>)
    ensures IdsOf(a + b) == IdsOf(a) + IdsOf(b)
  {
  }

  lemma HeadersAppend(a: seq<Node>, b: seq<Node>)
    ensures Headers(a + b) == Headers(a) + Headers(b)
  {
  }

  lemma PatchedHeadersAppend(a: seq<Node>, b: seq<Node>, id: string, e: Edit)
    ensures PatchedHeaders(a + b, id, e) == PatchedHeaders(a, id, e) + PatchedHeaders(b, id, e)
  {
  }

  lemma PatchedHeadersAbsent(ss: seq<Node>, id: string, e: Edit)
    requires id !in IdsOf(ss)
    ensures PatchedHeaders(ss, id, e) == Headers(ss)
  {
    forall k | 0 <= k < |ss| ensures ss[k].id != id {
      assert IdsOf(ss)[k] == ss[k].id;
    }
  }

  lemma DistinctSplit(a: seq<string>, b: seq<string>)
    requires Distinct(a + b)
    ensures Distinct(a) && Distinct(b)
    ensures forall x :: x in a ==> x !in b
  {
    forall i, j | 0 <= i < j < |a| ensures a[i] != a[j] {
      assert (a + b)[i] == a[i] && (a + b)[j] == a[j];
    }
    forall i, j | 0 <= i < j < |b| ensures b[i] != b[j] {
      assert (a + b)[|a| + i] == b[i] && (a + b)[|a| + j] == b[j];
    }
    forall i, j | 0 <= i < |a| && 0 <= j < |b| ensures a[i] != b[j] {
      assert (a + b)[i] == a[i] && (a + b)[|a| + j] == b[j];
    }
  }

  /** The pieces of a tree whose ids are unique have unique ids, and share none. */
  lemma UniqueIdsSplit(ts: seq<Node>)
    requires ts != [] && UniqueIds(ts)
    ensures ts[0].Folder? ==> UniqueIds(ts[0].children)
    ensures UniqueIds(ts[1..])
    ensures ts[0].Folder? ==> ts[0].id !in IdsOf(Subtrees(ts[0].children))
  {
    var c := if ts[0].Folder? then Subtrees(ts[0].children) else [];
    SubtreesCons(ts);
    IdsOfAppend([ts[0]] + c, Subtrees(ts[1..]));
    IdsOfAppend([ts[0]], c);
    DistinctSplit(IdsOf([ts[0]] + c), IdsOf(Subtrees(ts[1..])));
    DistinctSplit(IdsOf([ts[0]]), IdsOf(c));
    assert IdsOf([ts[0]]) == [ts[0].id];
  }
}
