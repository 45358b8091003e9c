/** What the tree operations of the code editor guarantee, stated against flat pre-order views. */
module FileTreeProperties {
  import opened Options
  import opened FileTree

  /** The node a search index points at, if any. */
  function At(ss: seq<Node>, i: Option<nat>): Option<Node>
    requires i.Some? ==> i.value < |ss|
  {
    if i.None? then None else Some(ss[i.value])
  }

  function Shift(i: Option<nat>, d: nat): Option<nat>
  {
    if i.None? then None else Some(i.value + d)
  }

  lemma {:induction false} FirstMatchAppend(a: seq<Node>, b: seq<Node>, q: Query)
    ensures FirstMatch(a + b, q) == if FirstMatch(a, q).Some? then FirstMatch(a, q) else Shift(FirstMatch(b, q), |a|)
    decreases |a|
  {
    if a == [] {
      assert a + b == b;
    } else {
      var c := a + b;
      assert c[0] == a[0] && c[1..] == a[1..] + b;
      FirstMatchAppend(a[1..], b, q);
    }
  }

  lemma FirstMatchOfCons(x: Node, s: seq<Node>, q: Query)
    ensures FirstMatch([x] + s, q) == if Matches(q, x) then Some(0) else Shift(FirstMatch(s, q), 1)
  {
    assert ([x] + s)[0] == x;
    assert ([x] + s)[1..] == s;
  }

  /** The pre-order view of a nonempty tree, split as a flat search sees it. */
  lemma FirstMatchCons(ts: seq<Node>, q: Query, c: seq<Node>, r: seq<Node>)
    requires ts != []
    requires c == (if ts[0].Folder? then Subtrees(ts[0].children) else [])
    requires r == Subtrees(ts[1..])
    ensures Subtrees(ts) == [ts[0]] + c + r
    ensures FirstMatch(Subtrees(ts), q) ==
        if Matches(q, ts[0]) then Some(0)
        else if FirstMatch(c, q).Some? then Shift(FirstMatch(c, q), 1)
        else Shift(FirstMatch(r, q), 1 + |c|)
  {
    SubtreesCons(ts);
    assert Subtrees(ts) == [ts[0]] + (c + r);
    FirstMatchOfCons(ts[0], c + r, q);
    FirstMatchAppend(c, r, q);
  }

  /**
   * `findFileById` is the pre-order linear search: it returns the first node,
   * parent before children and siblings left to right, that has the id, and
   * null exactly when no node has it.
   */
  lemma {:induction false} FindFileByIdIsFirstInPreOrder(ts: seq<Node>, id: string)
    ensures FindFileById(ts, id) == At(Subtrees(ts), FirstMatch(Subtrees(ts), ById(id)))
    decreases ts
  {
    if ts != [] {
      var c := if ts[0].Folder? then Subtrees(ts[0].children) else [];
      var r := Subtrees(ts[1..]);
      SubtreesCons(ts);
      FirstMatchCons(ts, ById(id), c, r);
      if ts[0].Folder? { FindFileByIdIsFirstInPreOrder(ts[0].children, id); }
      FindFileByIdIsFirstInPreOrder(ts[1..], id);
      var fc := FirstMatch(c, ById(id));
      if ts[0].id != id && fc.Some? {
        assert Subtrees(ts)[1 + fc.value] == c[fc.value];
      } else if ts[0].id != id {
        var fr := FirstMatch(r, ById(id));
        if fr.Some? { assert Subtrees(ts)[1 + |c| + fr.value] == r[fr.value]; }
      }
    }
  }

  /** `findFileById` returns null exactly when no node of the tree has the id. */
  lemma FindFileByIdNoneIffAbsent(ts: seq<Node>, id: string)
    ensures FindFileById(ts, id).None? <==> id !in IdsOf(Subtrees(ts))
  {
    var s := Subtrees(ts);
    var ids := IdsOf(s);
    FindFileByIdIsFirstInPreOrder(ts, id);
    FirstMatchIsLeast(s, ById(id));
    if id in ids {
      var k :| 0 <= k < |ids| && ids[k] == id;
      assert Matches(ById(id), s[k]);
    } else {
      forall k | 0 <= k < |s| ensures !Matches(ById(id), s[k]) {
        assert ids[k] == s[k].id;
      }
    }
  }

  /** An id no node carries leaves the tree of either update operation equal to its input. */
  lemma {:induction false} EditAbsent(ts: seq<Node>, id: string, e: Edit)
    requires id !in IdsOf(Subtrees(ts))
    ensures EditMatching(ts, id, e) == ts
    decreases ts
  {
    if ts != [] {
      var c := if ts[0].Folder? then Subtrees(ts[0].children) else [];
      SubtreesCons(ts);
      IdsOfAppend([ts[0]] + c, Subtrees(ts[1..]));
      IdsOfAppend([ts[0]], c);
      assert IdsOf([ts[0]]) == [ts[0].id];
      if ts[0].Folder? { EditAbsent(ts[0].children, id, e); }
      EditAbsent(ts[1..], id, e);
      assert ts == [ts[0]] + ts[1..];
    }
  }

  /**
   * Shape: an edit changes only the fields an edit of its kind writes. Every
   * level keeps its length and every node its id, name, kind, language and
   * children; for `SetContent` also `expanded`, for `FlipExpanded` also content.
   */
  lemma {:induction false} EditKeepsOutline(ts: seq<Node>, id: string, e: Edit)
    ensures Outline(EditMatching(ts, id, e), e) == Outline(ts, e)
    decreases ts
  {
    if ts != [] {
      var n := ts[0];
      var t' := EditMatching(ts, id, e);
      assert t'[1..] == EditMatching(ts[1..], id, e);
      if n.id != id && n.Folder? { EditKeepsOutline(n.children, id, e); }
      EditKeepsOutline(ts[1..], id, e);
    }
  }

  /** Neither update operation adds, drops or reorders ids, at any depth. */
  lemma {:induction false} EditKeepsIds(ts: seq<Node>, id: string, e: Edit)
    ensures IdsOf(Subtrees(EditMatching(ts, id, e))) == IdsOf(Subtrees(ts))
    decreases ts
  {
    if ts != [] {
      var n := ts[0];
      var t' := EditMatching(ts, id, e);
      var n' := t'[0];
      assert t'[1..] == EditMatching(ts[1..], id, e);
      var c := if n.Folder? then Subtrees(n.children) else [];
      var c' := if n'.Folder? then Subtrees(n'.children) else [];
      SubtreesCons(ts);
      SubtreesCons(t');
      if n.id != id && n.Folder? {
        EditKeepsIds(n.children, id, e);
      }
      assert IdsOf(c') == IdsOf(c);
      EditKeepsIds(ts[1..], id, e);
      IdsOfAppend([n] + c, Subtrees(ts[1..]));
      IdsOfAppend([n], c);
      IdsOfAppend([n'] + c', Subtrees(t'[1..]));
      IdsOfAppend([n'], c');
      assert IdsOf([n']) == [n.id] == IdsOf([n]);
    }
  }

  /** Both update operations keep the ids of the tree unique. */
  lemma EditKeepsUniqueIds(ts: seq<Node>, id: string, e: Edit)
    requires UniqueIds(ts)
    ensures UniqueIds(EditMatching(ts, id, e))
  {
    EditKeepsIds(ts, id, e);
  }

  lemma PointwiseStep(n: Node, n': Node, c: seq<Node>, c': seq<Node>, r: seq<Node>, r': seq<Node>, id: string, e: Edit)
    requires Header(n') == Header(if n.id == id then Apply(e, n) else n)
    requires Headers(c') == PatchedHeaders(c, id, e)
    requires Headers(r') == PatchedHeaders(r, id, e)
    ensures Headers([n'] + c' + r') == PatchedHeaders([n] + c + r, id, e)
  {
    HeadersAppend([n'] + c', r');
    HeadersAppend([n'], c');
    PatchedHeadersAppend([n] + c, r, id, e);
    PatchedHeadersAppend([n], c, id, e);
  }

  /**
   * With unique ids an edit is pointwise on the pre-order sequence of nodes:
   * the node with the id is edited and every other node keeps all its own fields.
   */
  lemma {:induction false} EditIsPointwise(ts: seq<Node>, id: string, e: Edit)
    requires UniqueIds(ts)
    ensures Headers(Subtrees(EditMatching(ts, id, e))) == PatchedHeaders(Subtrees(ts), id, e)
    decreases ts
  {
    if ts != [] {
      var n := ts[0];
      var t' := EditMatching(ts, id, e);
      var n' := t'[0];
      assert t'[1..] == EditMatching(ts[1..], id, e);
      var c := if n.Folder? then Subtrees(n.children) else [];
      var c' := if n'.Folder? then Subtrees(n'.children) else [];
      SubtreesCons(ts);
      SubtreesCons(t');
      UniqueIdsSplit(ts);
      EditIsPointwise(ts[1..], id, e);
      if n.id == id {
        if n.Folder? { PatchedHeadersAbsent(c, id, e); }
      } else if n.Folder? {
        EditIsPointwise(n.children, id, e);
      }
      PointwiseStep(n, n', c, c', Subtrees(ts[1..]), Subtrees(t'[1..]), id, e);
    }
  }

  /**
   * Searching for the id after an edit finds the edited form of the node the
   * search found before; no uniqueness of ids is needed, because the first node
   * in pre-order with the id is never below another node with it.
   */
  lemma {:induction false} FindAfterEdit(ts: seq<Node>, id: string, e: Edit)
    ensures var before := FindFileById(ts, id);
      FindFileById(EditMatching(ts, id, e), id) == if before.None? then None else Some(Apply(e, before.value))
    decreases ts
  {
    if ts != [] {
      var n := ts[0];
      var t' := EditMatching(ts, id, e);
      assert t'[1..] == EditMatching(ts[1..], id, e);
      if n.id != id && n.Folder? { FindAfterEdit(n.children, id, e); }
      FindAfterEdit(ts[1..], id, e);
    }
  }

  /** After `updateFileContent(id, c)` for an id in the tree, `findFileById(id)` yields a node whose content is `c`. */
  lemma UpdateThenFind(ts: seq<Node>, id: string, c: string)
    requires id in IdsOf(Subtrees(ts))
    ensures FindFileById(UpdateFileContent(ts, id, c), id).Some?
    ensures ContentOf(FindFileById(UpdateFileContent(ts, id, c), id).value) == Some(c)
  {
    FindFileByIdNoneIffAbsent(ts, id);
    FindAfterEdit(ts, id, SetContent(c));
  }

  /** Toggling a folder id twice gives back the original tree. */
  lemma {:induction false} ToggleTwice(ts: seq<Node>, id: string)
    requires forall n :: n in Subtrees(ts) && n.id == id ==> n.Folder?
    ensures ToggleFolder(ToggleFolder(ts, id), id) == ts
    decreases ts
  {
    if ts != [] {
      var n := ts[0];
      SubtreesCons(ts);
      var t1 := ToggleFolder(ts, id);
      var t2 := ToggleFolder(t1, id);
      assert t1[1..] == ToggleFolder(ts[1..], id);
      assert t2[1..] == ToggleFolder(t1[1..], id);
      if n.id != id && n.Folder? { ToggleTwice(n.children, id); }
      ToggleTwice(ts[1..], id);
      assert t2[0] == n;
      assert ts == [n] + ts[1..];
    }
  }

  /** `toggleFolder` on a file id gives the file an `expanded` property, so a second toggle does not undo the first. */
  lemma ToggleTwiceOnFile(name: string, text: string, language: string)
    ensures var t := [File("7", name, text, language, None)];
      ToggleFolder(ToggleFolder(t, "7"), "7") == [File("7", name, text, language, Some(false))]
  {
  }

  /**
   * When every file with the name has non-empty content, `findContent` is the
   * pre-order search for the first file with that name.
   */
  lemma {:induction false} FindContentIsFirstFileNamed(ts: seq<Node>, filename: string)
    requires forall n :: n in Subtrees(ts) && n.File? && n.name == filename ==> n.content != ""
    ensures var i := FirstMatch(Subtrees(ts), FileNamed(filename));
      FindContent(ts, filename) == if i.None? then None else Some(Subtrees(ts)[i.value].content)
    decreases ts
  {
    if ts != [] {
      var c := if ts[0].Folder? then Subtrees(ts[0].children) else [];
      var r := Subtrees(ts[1..]);
      SubtreesCons(ts);
      FirstMatchCons(ts, FileNamed(filename), c, r);
      if ts[0].Folder? { FindContentIsFirstFileNamed(ts[0].children, filename); }
      FindContentIsFirstFileNamed(ts[1..], filename);
      var fc := FirstMatch(c, FileNamed(filename));
      if !Matches(FileNamed(filename), ts[0]) && fc.Some? {
        FirstMatchIsLeast(c, FileNamed(filename));
        assert Subtrees(ts)[1 + fc.value] == c[fc.value];
        assert c[fc.value] in Subtrees(ts);
      } else if !Matches(FileNamed(filename), ts[0]) {
        var fr := FirstMatch(r, FileNamed(filename));
        if fr.Some? { assert Subtrees(ts)[1 + |c| + fr.value] == r[fr.value]; }
      }
    }
  }

  /**
   * What `findContent` returns is the content of a file with the name, and it
   * returns null only when no file at the top level has the name.
   */
  lemma {:induction false} FindContentSound(ts: seq<Node>, filename: string)
    ensures var r := FindContent(ts, filename);
      && (r.Some? ==> exists n :: n in Subtrees(ts) && n.File? && n.name == filename && n.content == r.value)
      && (r.None? ==> forall i :: 0 <= i < |ts| ==> !(ts[i].File? && ts[i].name == filename))
    decreases ts
  {
    if ts != [] {
      SubtreesCons(ts);
      if ts[0].Folder? { FindContentSound(ts[0].children, filename); }
      FindContentSound(ts[1..], filename);
      if !(ts[0].File? && ts[0].name == filename) {
        assert forall i :: 1 <= i < |ts| ==> ts[i] == ts[1..][i - 1];
      }
    }
  }

  /** Inside a folder a match with empty content is passed over and the search goes on. */
  lemma FindContentSkipsEmptyInFolder(filename: string, text: string)
    requires text != ""
    ensures FindContent([Folder("1", "f", true, [File("2", filename, "", "", None)], None),
                         File("3", filename, text, "", None)], filename) == Some(text)
  {
  }

  /** At one level the first match is returned even when its content is empty. */
  lemma FindContentStopsAtEmptyMatch(filename: string, text: string)
    ensures FindContent([File("2", filename, "", "", None), File("3", filename, text, "", None)], filename) == Some("")
  {
  }

  /** The seeded tree has the ids 1 to 5 in pre-order, so its ids are unique. */
  lemma SeededTreeIds(html: string, css: string, js: string)
    ensures IdsOf(Subtrees(SeededTree(html, css, js))) == ["1", "2", "3", "4", "5"]
    ensures UniqueIds(SeededTree(html, css, js))
  {
    var t := SeededTree(html, css, js);
    var src := t[0].children;
    var files := src[0].children;
    assert Subtrees(files[2..]) == [files[2]];
    assert Subtrees(files[1..]) == [files[1], files[2]];
    assert Subtrees(files) == files;
    assert Subtrees(src) == [src[0]] + files;
    assert Subtrees(t) == [t[0], src[0]] + files;
  }
}
