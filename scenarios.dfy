/**
 * Concrete runs of `patch` on a `<body>` holding one rendered tree, patched
 * at index 0 as the re-render hook does. Several show where the code does
 * something other than reconcile the subtree it was given, because the child
 * walk works on `parent` rather than on `parent.childNodes[index]`.
 */
module Scenarios {
  import opened Wrappers
  import opened VDom
  import opened HostTree
  import opened Materialize
  import opened Differ
  import opened Attributes
  import opened Reconcile

  function Body(children: seq<HostNode>): HostNode
  {
    HostElem("body", map[], {}, children)
  }

  function Plain(tag: string, children: seq<Node>): Node
  {
    Elem(tag, map[], children)
  }

  function PlainHost(tag: string, children: seq<HostNode>): HostNode
  {
    HostElem(tag, map[], {}, children)
  }

  lemma RenderPlain(tag: string, children: seq<Node>)
    ensures Render(Plain(tag, children)) == PlainHost(tag, seq(|children|, i requires 0 <= i < |children| => Render(children[i])))
  {
    assert AttributesOf(map[]) == map[];
    assert ListenersOf(map[]) == {};
  }

  /** `<div id="a">hi</div>` patched against itself: no host call. */
  lemma UnchangedTree()
    ensures var t := Elem("div", map["id" := Str("a")], [Text("hi")]);
            var h := Host(Body([Render(t)]), 0);
            Patch(h, [], Some(t), Some(t), 0) == Run(h, true)
  {
    var t := Elem("div", map["id" := Str("a")], [Text("hi")]);
    var h := Host(Body([Render(t)]), 0);
    assert Reachable(h.root, [], t);
    PatchSelf(h, [], t, 0);
  }

  /**
   * `<p>x</p>` to `<p>y</p>`: diff says compatible (it never reads children),
   * so the `<p>` is kept and only its text node is replaced, in one host call.
   */
  lemma ChangedTextChild()
    ensures !Diff(Plain("p", [Text("x")]), Plain("p", [Text("y")]))
    ensures var h := Host(Body([PlainHost("p", [HostText("x")])]), 0);
            Patch(h, [], Some(Plain("p", [Text("x")])), Some(Plain("p", [Text("y")])), 0)
              == Run(Host(Body([PlainHost("p", [HostText("y")])]), 1), true)
  {
    var h := Host(Body([PlainHost("p", [HostText("x")])]), 0);
    ChangedSelfEmpty(map[]);
    var o, n := Plain("p", [Text("x")]), Plain("p", [Text("y")]);
    assert UpdateAttributes(h, [0], map[], map[]) == Run(h, true);
    var r := PatchChild(h, [], [Text("x")], [Text("y")], 0);
    assert [] + [0] == [0];
    assert r == Patch(h, [0], Some(Text("x")), Some(Text("y")), 0);
    assert Resolve(h.root, [0]) == Some(PlainHost("p", [HostText("x")]));
    assert r == ReplaceChild(h, [0], HostText("y"), 0);
    assert [HostText("x")][0 := HostText("y")] == [HostText("y")];
    assert Put(h.root, [0], PlainHost("p", [HostText("y")])) == Body([PlainHost("p", [HostText("y")])]) by {
      assert [0][1..] == [];
    }
    assert r == Run(Host(Body([PlainHost("p", [HostText("y")])]), 1), true);
    assert PatchChildren(r.host, [], [Text("x")], [Text("y")], 1) == Run(r.host, true);
  }

  /**
   * `{id: "a"}` to `{id: "a", class: "b"}`: the key counts differ, so patch
   * replaces the whole element.
   */
  lemma AddedAttributeReplaces()
    ensures var o := Elem("div", map["id" := Str("a")], []);
            var n := Elem("div", map["id" := Str("a"), "class" := Str("b")], []);
            var h := Host(Body([Render(o)]), 0);
            && Diff(o, n)
            && Patch(h, [], Some(o), Some(n), 0) == Run(Host(Body([Render(n)]), 1), true)
  {
    var o := Elem("div", map["id" := Str("a")], []);
    var n := Elem("div", map["id" := Str("a"), "class" := Str("b")], []);
    var h := Host(Body([Render(o)]), 0);
    assert |n.props| == 2 by {
      assert n.props.Keys == {"id", "class"};
    }
    assert Patch(h, [], Some(o), Some(n), 0) == ReplaceChild(h, [], Render(n), 0);
    assert Resolve(h.root, []) == Some(h.root);
    assert [Render(o)][0 := Render(n)] == [Render(n)];
  }

  /**
   * Called on its own for the same pair, updateAttributes sets `class` and
   * leaves `id` alone: one host call.
   */
  lemma AddedAttributeUpdates()
    ensures var op := map["id" := Str("a")];
            var np := map["id" := Str("a"), "class" := Str("b")];
            var h := Host(Body([HostElem("div", op, {}, [])]), 0);
            && Changed(op, np) == {"class"}
            && UpdateAttributes(h, [0], op, np) == Run(Host(Body([HostElem("div", np, {}, [])]), 1), true)
  {
    var op, np := map["id" := Str("a")], map["id" := Str("a"), "class" := Str("b")];
    var h := Host(Body([HostElem("div", op, {}, [])]), 0);
    AddedClassChanged(op, np);
    AddedClassApplied(op, np);
    assert Resolve(h.root, [0]) == Some(HostElem("div", op, {}, []));
    assert Put(h.root, [0], HostElem("div", np, {}, [])) == Body([HostElem("div", np, {}, [])]) by {
      assert [0][1..] == [];
    }
  }

  lemma AddedClassChanged(op: Props, np: Props)
    requires op == map["id" := Str("a")] && np == map["id" := Str("a"), "class" := Str("b")]
    ensures Changed(op, np) == {"class"}
  {
    forall k ensures k in Changed(op, np) <==> k == "class" {
      if k == "class" {
        assert Lookup(op, k) == Undefined;
      }
    }
  }

  lemma AddedClassApplied(op: Props, np: Props)
    requires op == map["id" := Str("a")] && np == map["id" := Str("a"), "class" := Str("b")]
    ensures Apply(op, np, {"class"}) == np
  {
    var a := Apply(op, np, {"class"});
    assert a.Keys == np.Keys;
  }

  /**
   * Three children to one: the walk's removal at `i = 1` is aimed at
   * `body.childNodes[1]`, which does not exist, so patch throws before
   * touching anything.
   */
  lemma ShrinkingChildrenThrows()
    ensures var o := Plain("div", [Text("a"), Text("b"), Text("c")]);
            var n := Plain("div", [Text("a")]);
            var h := Host(Body([Render(o)]), 0);
            Patch(h, [], Some(o), Some(n), 0) == Run(h, false)
  {
    var o := Plain("div", [Text("a"), Text("b"), Text("c")]);
    var n := Plain("div", [Text("a")]);
    var h := Host(Body([Render(o)]), 0);
    ChangedSelfEmpty(map[]);
    assert PatchChild(h, [], o.children, n.children, 0) == Run(h, true);
    assert PatchChild(h, [], o.children, n.children, 1) == Run(h, false);
    assert PatchChildren(h, [], o.children, n.children, 1) == Run(h, false);
  }

  /**
   * `<div>a</div>` to `<div></div>`: diff says compatible, yet the walk
   * removes `body.childNodes[0]`, which is the `<div>` itself.
   */
  lemma CompatibleRemovesItself()
    ensures var o := Plain("div", [Text("a")]);
            var n := Plain("div", []);
            var h := Host(Body([Render(o)]), 0);
            && !Diff(o, n)
            && Patch(h, [], Some(o), Some(n), 0) == Run(Host(Body([]), 1), true)
  {
    var o := Plain("div", [Text("a")]);
    var n := Plain("div", []);
    var h := Host(Body([Render(o)]), 0);
    ChangedSelfEmpty(map[]);
    var r := PatchChild(h, [], o.children, n.children, 0);
    assert r == RemoveChild(h, [], 0);
    assert Resolve(h.root, []) == Some(h.root);
    assert h.root.children[..0] + h.root.children[1..] == [];
    assert r == Run(Host(Body([]), 1), true);
    assert PatchChildren(r.host, [], o.children, n.children, 1) == r;
  }

  /**
   * A rendered `<div><p>x</p><p>y</p></div>` patched against the very tree
   * it came from throws: for the second `<p>` the walk reads
   * `body.childNodes[1]` as the parent, and there is none.
   */
  lemma RenderedTreeSelfPatchThrows()
    ensures var t := Plain("div", [Plain("p", [Text("x")]), Plain("p", [Text("y")])]);
            var h := Host(Body([Render(t)]), 0);
            Patch(h, [], Some(t), Some(t), 0) == Run(h, false)
  {
    var t := Plain("div", [Plain("p", [Text("x")]), Plain("p", [Text("y")])]);
    var h := Host(Body([Render(t)]), 0);
    assert NoEmptyText(t) by {
      assert NoEmptyText(t.children[0]) && NoEmptyText(t.children[1]);
    }
    assert !Reachable(h.root, [] + [1], t.children[1]);
    PatchSelf(h, [], t, 0);
  }
}
