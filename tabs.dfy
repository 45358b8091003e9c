/** The open-tab list and the active file of the code editor, as values. */
module Tabs {
  import opened Options
  import opened FileTree

  /** `openFile(file)`: the tab list after it, appended to only when no tab has the file's id. */
  function Opened(tabs: seq<Node>, f: Node): seq<Node>
  {
    if f.id in IdsOf(tabs) then tabs else tabs + [f]
  }

  /** `openFiles.filter(f => f.id !== fileId)`. */
  function WithoutId(tabs: seq<Node>, id: string): (r: seq<Node>)
    ensures |r| <= |tabs|
  {
    if tabs == [] then []
    else (if tabs[0].id == id then [] else [tabs[0]]) + WithoutId(tabs[1..], id)
  }

  /** The tabs left by closing `id` are exactly the tabs whose id differs. */
  lemma {:induction false} WithoutIdMembers(tabs: seq<Node>, id: string)
    ensures forall t :: t in WithoutId(tabs, id) <==> t in tabs && t.id != id
    decreases |tabs|
  {
    if tabs != [] {
      WithoutIdMembers(tabs[1..], id);
      assert tabs == [tabs[0]] + tabs[1..];
    }
  }

  /**
   * The active file after `closeFile(id)`, given the remaining tabs: when the
   * active file had that id, the last remaining tab or none; otherwise unchanged.
   */
  function ActiveAfterClose(remaining: seq<Node>, active: Option<Node>, id: string): Option<Node>
  {
    if active.Some? && active.value.id == id then
      (if remaining == [] then None else Some(remaining[|remaining| - 1]))
    else active
  }

  /**
   * Opening keeps the tab ids distinct, always leaves a tab with the file's id,
   * appends the file itself when its id is new, adds at most one tab, keeps the existing ones in place, and opening the
   * same file again leaves the list unchanged.
   */
  lemma OpenedProperties(tabs: seq<Node>, f: Node)
    ensures Distinct(IdsOf(tabs)) ==> Distinct(IdsOf(Opened(tabs, f)))
    ensures f.id in IdsOf(Opened(tabs, f))
    ensures tabs <= Opened(tabs, f) && |Opened(tabs, f)| <= |tabs| + 1
    ensures f.id in IdsOf(tabs) ==> Opened(tabs, f) == tabs
    ensures f.id !in IdsOf(tabs) ==> Opened(tabs, f) == tabs + [f]
    ensures Opened(Opened(tabs, f), f) == Opened(tabs, f)
  {
    IdsOfAppend(tabs, [f]);
    assert IdsOf([f]) == [f.id];
  }

  /** Filtering distributes over concatenation: the kept tabs stay in their order. */
  lemma {:induction false} WithoutIdAppend(a: seq<Node>, b: seq<Node>, id: string)
    ensures WithoutId(a + b, id) == WithoutId(a, id) + WithoutId(b, id)
    decreases |a|
  {
    if a == [] {
      assert a + b == b;
    } else {
      var c := a + b;
      assert c[0] == a[0] && c[1..] == a[1..] + b;
      WithoutIdAppend(a[1..], b, id);
      var h := if a[0].id == id then [] else [a[0]];
      assert WithoutId(c, id) == h + WithoutId(c[1..], id);
      assert WithoutId(a, id) == h + WithoutId(a[1..], id);
    }
  }

  lemma {:induction false} WithoutIdKeepsAll(tabs: seq<Node>, id: string)
    requires forall k :: 0 <= k < |tabs| ==> tabs[k].id != id
    ensures WithoutId(tabs, id) == tabs
    decreases |tabs|
  {
    if tabs != [] {
      assert forall k :: 0 <= k < |tabs[1..]| ==> tabs[1..][k] == tabs[k + 1];
      WithoutIdKeepsAll(tabs[1..], id);
      assert tabs == [tabs[0]] + tabs[1..];
    }
  }

  /** Closing an id no tab has leaves the tabs unchanged. */
  lemma WithoutIdAbsent(tabs: seq<Node>, id: string)
    requires id !in IdsOf(tabs)
    ensures WithoutId(tabs, id) == tabs
  {
    forall k | 0 <= k < |tabs| ensures tabs[k].id != id {
      assert IdsOf(tabs)[k] == tabs[k].id;
    }
    WithoutIdKeepsAll(tabs, id);
  }

  lemma SplitIdsAround(a: seq<Node>, t: Node, b: seq<Node>)
    requires Distinct(IdsOf(a + [t] + b))
    ensures t.id !in IdsOf(a) && t.id !in IdsOf(b)
  {
    IdsOfAppend(a + [t], b);
    IdsOfAppend(a, [t]);
    assert IdsOf([t]) == [t.id];
    DistinctSplit(IdsOf(a + [t]), IdsOf(b));
    DistinctSplit(IdsOf(a), IdsOf([t]));
    assert t.id in IdsOf([t]);
    assert t.id in IdsOf(a + [t]);
  }

  /** With distinct ids, closing the tab at any position removes exactly that tab. */
  lemma CloseOneTab(a: seq<Node>, t: Node, b: seq<Node>)
    requires Distinct(IdsOf(a + [t] + b))
    ensures WithoutId(a + [t] + b, t.id) == a + b
  {
    SplitIdsAround(a, t, b);
    WithoutIdAppend(a + [t], b, t.id);
    WithoutIdAppend(a, [t], t.id);
    WithoutIdAbsent(a, t.id);
    WithoutIdAbsent(b, t.id);
    assert WithoutId([t], t.id) == [];
    assert WithoutId(a + [t], t.id) == a;
  }

  lemma ConsDistinct(x: string, ys: seq<string>)
    requires Distinct(ys) && x !in ys
    ensures Distinct([x] + ys)
  {
    var zs := [x] + ys;
    forall i, j | 0 <= i < j < |zs| ensures zs[i] != zs[j] {
      assert zs[j] == ys[j - 1];
      if i > 0 { assert zs[i] == ys[i - 1]; }
    }
  }

  lemma IdOfMember(t: Node, ss: seq<Node>)
    requires t in ss
    ensures t.id in IdsOf(ss)
  {
    var j :| 0 <= j < |ss| && ss[j] == t;
    assert IdsOf(ss)[j] == t.id;
  }

  /** Filtering keeps tab ids distinct. */
  lemma {:induction false} WithoutIdDistinct(tabs: seq<Node>, id: string)
    requires Distinct(IdsOf(tabs))
    ensures Distinct(IdsOf(WithoutId(tabs, id)))
    decreases |tabs|
  {
    if tabs != [] {
      var t := tabs[0];
      var rest := tabs[1..];
      assert tabs == [t] + rest;
      IdsOfAppend([t], rest);
      assert IdsOf([t]) == [t.id];
      DistinctSplit([t.id], IdsOf(rest));
      assert t.id !in IdsOf(rest) by { assert t.id in [t.id]; }
      WithoutIdDistinct(rest, id);
      WithoutIdMembers(rest, id);
      var w := WithoutId(rest, id);
      if t.id != id {
        assert WithoutId(tabs, id) == [t] + w;
        IdsOfAppend([t], w);
        forall k | 0 <= k < |w| ensures IdsOf(w)[k] != t.id {
          IdOfMember(w[k], rest);
        }
        ConsDistinct(t.id, IdsOf(w));
        assert IdsOf(WithoutId(tabs, id)) == [t.id] + IdsOf(w);
      } else {
        assert WithoutId(tabs, id) == w;
      }
    }
  }

  /**
   * `closeFile(id)` keeps the tab state well formed: distinct tab ids, and an
   * active file, if any, with the id of one of the remaining tabs.
   */
  lemma CloseKeepsActiveOpen(tabs: seq<Node>, active: Option<Node>, id: string)
    requires Distinct(IdsOf(tabs))
    requires active.Some? ==> active.value.id in IdsOf(tabs)
    ensures var rest := WithoutId(tabs, id);
      var a := ActiveAfterClose(rest, active, id);
      Distinct(IdsOf(rest)) && (a.Some? ==> a.value.id in IdsOf(rest))
  {
    var rest := WithoutId(tabs, id);
    WithoutIdDistinct(tabs, id);
    WithoutIdMembers(tabs, id);
    if active.Some? && active.value.id == id && rest != [] {
      IdOfMember(rest[|rest| - 1], rest);
    } else if active.Some? && active.value.id != id {
      var k :| 0 <= k < |tabs| && IdsOf(tabs)[k] == active.value.id;
      assert tabs[k] in rest;
      var j :| 0 <= j < |rest| && rest[j] == tabs[k];
      assert IdsOf(rest)[j] == active.value.id;
    }
  }

  /**
   * Closing the active tab among three activates the tab that is then last,
   * not the one before the closed tab.
   */
  lemma CloseActiveMiddleTab(a: Node, b: Node, c: Node)
    requires a.id != b.id && b.id != c.id && a.id != c.id
    ensures var rest := WithoutId([a, b, c], b.id);
      rest == [a, c] && ActiveAfterClose(rest, Some(b), b.id) == Some(c)
  {
    CloseOneTab([a], b, [c]);
    assert [a] + [b] + [c] == [a, b, c];
    assert [a] + [c] == [a, c];
  }
}
