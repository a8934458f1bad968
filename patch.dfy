/**
 * `patch(parent, oldVNode, newVNode, index)` as a function of the host it
 * runs on. Four branches: old falsy -> append `render(new)` to `parent`; new
 * falsy -> remove `parent.childNodes[index]`; `diff` -> replace that child
 * with `render(new)`; two compatible elements -> update the attributes of
 * `parent.childNodes[index]`, then walk the children by position.
 *
 * The child walk is modelled as the code has it: it appends to and removes
 * from `parent` itself (not from `parent.childNodes[index]`), and it recurses
 * with `parent.childNodes[i]` as the new parent and `i` as the index. Any
 * host call that throws ends the whole patch; the run then reports `ok ==
 * false` with the host as it was at that point.
 */
module Reconcile {
  import opened Wrappers
  import opened VDom
  import opened HostTree
  import opened Materialize
  import opened Differ
  import opened Attributes

  function Max(a: nat, b: nat): nat
  {
    if a < b then b else a
  }

  function Patch(h: Host, parent: Path, o: Option<Node>, n: Option<Node>, index: nat): Run
    decreases OptSize(o), 0
  {
    if !Truthy(o) then
      // `render(null)` throws on `null.type`
      if n.None? then Run(h, false) else AppendChild(h, parent, Render(n.value))
    else if !Truthy(n) then
      RemoveChild(h, parent, index)
    else if Diff(o.value, n.value) then
      ReplaceChild(h, parent, Render(n.value), index)
    else if o.value.Elem? && n.value.Elem? then
      // reading `childNodes` of an undefined parent throws
      if Resolve(h.root, parent).None? then Run(h, false)
      else
        var r := UpdateAttributes(h, parent + [index], o.value.props, n.value.props);
        if !r.ok then r
        else PatchChildren(r.host, parent, o.value.children, n.value.children, 0)
    else
      Run(h, true)
  }

  /** Iterations `i` to `max(|os|, |ns|) - 1` of the child loop. */
  function PatchChildren(h: Host, parent: Path, os: seq<Node>, ns: seq<Node>, i: nat): Run
    decreases SizeOf(os), 2, Max(|os|, |ns|) - i
  {
    if i >= Max(|os|, |ns|) then Run(h, true)
    else
      var r := PatchChild(h, parent, os, ns, i);
      if !r.ok then r else PatchChildren(r.host, parent, os, ns, i + 1)
  }

  /** Iteration `i` of the child loop. */
  function PatchChild(h: Host, parent: Path, os: seq<Node>, ns: seq<Node>, i: nat): Run
    decreases SizeOf(os), 1
  {
    var oldChild := ChildAt(os, i);
    var newChild := ChildAt(ns, i);
    if oldChild.None? then
      if newChild.None? then Run(h, false) else AppendChild(h, parent, Render(newChild.value))
    else if newChild.None? then
      RemoveChild(h, parent, i)
    else
      SizeOfChild(os, i);
      Patch(h, parent + [i], oldChild, newChild, i)
  }

  /**
   * The host paths `patch` reads as parents when it reuses `v` in place: the
   * parent itself for an element, then, by the child walk's recursion,
   * `parent + [i]` for its i-th child, and so on down.
   */
  predicate Reachable(root: HostNode, parent: Path, v: Node)
    decreases v
  {
    match v
    case Text(_) => true
    case Elem(_, _, children) =>
      Resolve(root, parent).Some? &&
      forall i | 0 <= i < |children| :: Reachable(root, parent + [i], children[i])
  }

  predicate IsElementAt(root: HostNode, p: Path)
  {
    Resolve(root, p).Some? && Resolve(root, p).value.HostElem?
  }

  /**
   * Old node falsy: `render(new)` is appended as the last child of `parent`,
   * one host call, and the tree is otherwise as it was. It throws when
   * `parent` is not an element, or when the new node is absent too
   * (`render(null)`).
   */
  lemma PatchOldAbsent(h: Host, parent: Path, o: Option<Node>, n: Option<Node>, index: nat)
    requires !Truthy(o)
    ensures var r := Patch(h, parent, o, n, index);
      && (r.ok <==> n.Some? && IsElementAt(h.root, parent))
      && (!r.ok ==> r.host == h)
      && (r.ok ==>
            var p := Resolve(h.root, parent).value;
            var p' := p.(children := p.children + [Render(n.value)]);
            && r.host.calls == h.calls + 1
            && r.host.root == Put(h.root, parent, p')
            && Resolve(r.host.root, parent) == Some(p'))
  {
    if n.Some? && IsElementAt(h.root, parent) {
      var p := Resolve(h.root, parent).value;
      ResolvePutHere(h.root, parent, p.(children := p.children + [Render(n.value)]));
    }
  }

  /**
   * Old node truthy, new node falsy: exactly `parent.childNodes[index]` is
   * removed, the other children keep their order, and the tree is otherwise
   * as it was. It throws when that child does not exist.
   */
  lemma PatchNewAbsent(h: Host, parent: Path, o: Option<Node>, n: Option<Node>, index: nat)
    requires Truthy(o) && !Truthy(n)
    ensures var r := Patch(h, parent, o, n, index);
      && (r.ok <==> IsElementAt(h.root, parent) && index < |Resolve(h.root, parent).value.children|)
      && (!r.ok ==> r.host == h)
      && (r.ok ==>
            var p := Resolve(h.root, parent).value;
            var p' := p.(children := p.children[..index] + p.children[index + 1..]);
            && r.host.calls == h.calls + 1
            && r.host.root == Put(h.root, parent, p')
            && Resolve(r.host.root, parent) == Some(p'))
  {
    if IsElementAt(h.root, parent) && index < |Resolve(h.root, parent).value.children| {
      var p := Resolve(h.root, parent).value;
      ResolvePutHere(h.root, parent, p.(children := p.children[..index] + p.children[index + 1..]));
    }
  }

  /**
   * Both truthy and `diff` true: `parent.childNodes[index]` is replaced by
   * `render(new)`, the child count is unchanged, and the tree is otherwise as
   * it was. It throws when that child does not exist.
   */
  lemma PatchReplaced(h: Host, parent: Path, o: Option<Node>, n: Option<Node>, index: nat)
    requires Truthy(o) && Truthy(n) && Diff(o.value, n.value)
    ensures var r := Patch(h, parent, o, n, index);
      && (r.ok <==> IsElementAt(h.root, parent) && index < |Resolve(h.root, parent).value.children|)
      && (!r.ok ==> r.host == h)
      && (r.ok ==>
            var p := Resolve(h.root, parent).value;
            var p' := p.(children := p.children[index := Render(n.value)]);
            && r.host.calls == h.calls + 1
            && r.host.root == Put(h.root, parent, p')
            && Resolve(r.host.root, parent) == Some(p')
            && |Resolve(r.host.root, parent).value.children| == |p.children|
            && Resolve(r.host.root, parent + [index]) == Some(Render(n.value)))
  {
    if IsElementAt(h.root, parent) && index < |Resolve(h.root, parent).value.children| {
      var p := Resolve(h.root, parent).value;
      var p' := p.(children := p.children[index := Render(n.value)]);
      ResolvePutHere(h.root, parent, p');
      ResolvePut(h.root, parent, p', [index]);
    }
  }

  /** Two equal texts, or two texts that compare equal: nothing happens, even under an undefined parent. */
  lemma PatchSameText(h: Host, parent: Path, s: string, index: nat)
    requires s != ""
    ensures Patch(h, parent, Some(Text(s)), Some(Text(s)), index) == Run(h, true)
  {
  }

  lemma ChangedSelfEmpty(p: Props)
    ensures Changed(p, p) == {}
  {
    assert forall k :: k !in Changed(p, p);
  }

  /**
   * Patching a tree against itself makes no host call at all, provided it has
   * no empty-string text; it returns normally exactly when every parent the
   * walk reads exists, and throws (still without a host call) otherwise.
   */
  lemma {:induction false} PatchSelf(h: Host, parent: Path, t: Node, index: nat)
    requires NoEmptyText(t)
    ensures Patch(h, parent, Some(t), Some(t), index) == Run(h, Reachable(h.root, parent, t))
    decreases Size(t), 0
  {
    DiffReflexive(t);
    match t
    case Text(_) =>
    case Elem(tag, props, children) =>
      if Resolve(h.root, parent).Some? {
        ChangedSelfEmpty(props);
        PatchChildrenSelf(h, parent, children, 0);
      }
  }

  lemma {:induction false} PatchChildrenSelf(h: Host, parent: Path, children: seq<Node>, i: nat)
    requires forall j | 0 <= j < |children| :: NoEmptyText(children[j])
    ensures PatchChildren(h, parent, children, children, i)
         == Run(h, forall j | i <= j < |children| :: Reachable(h.root, parent + [j], children[j]))
    decreases SizeOf(children), 1, |children| - i
  {
    if i < |children| {
      SizeOfChild(children, i);
      PatchSelf(h, parent + [i], children[i], i);
      PatchChildrenSelf(h, parent, children, i + 1);
    }
  }

  /**
   * `patch(parent, ...)` changes the host only inside the subtree at
   * `parent`, whether it returns or throws: every other node, and every
   * ancestor but for its child on the way down, is left as it was. So a
   * reference the caller holds outside that subtree, including `parent`
   * itself, still names the same node afterwards.
   */
  lemma {:induction false} PatchLocal(h: Host, parent: Path, o: Option<Node>, n: Option<Node>, index: nat)
    ensures Within(h.root, Patch(h, parent, o, n, index).host.root, parent)
    decreases OptSize(o), 0
  {
    PrimitivesWithin(h, parent, if n.Some? then Render(n.value) else HostText(""), index, "", Undefined);
    if Truthy(o) && Truthy(n) && !Diff(o.value, n.value) && o.value.Elem? && n.value.Elem?
       && Resolve(h.root, parent).Some? {
      var r := UpdateAttributes(h, parent + [index], o.value.props, n.value.props);
      UpdateAttributesEffect(h, parent + [index], o.value.props, n.value.props);
      WithinDeeper(h.root, r.host.root, parent, [index]);
      if r.ok {
        PatchChildrenLocal(r.host, parent, o.value.children, n.value.children, 0);
        WithinTrans(h.root, r.host.root, Patch(h, parent, o, n, index).host.root, parent);
      }
    }
  }

  lemma {:induction false} PatchChildrenLocal(h: Host, parent: Path, os: seq<Node>, ns: seq<Node>, i: nat)
    ensures Within(h.root, PatchChildren(h, parent, os, ns, i).host.root, parent)
    decreases SizeOf(os), 2, Max(|os|, |ns|) - i
  {
    if i < Max(|os|, |ns|) {
      var r := PatchChild(h, parent, os, ns, i);
      PatchChildLocal(h, parent, os, ns, i);
      if r.ok {
        PatchChildrenLocal(r.host, parent, os, ns, i + 1);
        WithinTrans(h.root, r.host.root, PatchChildren(h, parent, os, ns, i).host.root, parent);
      }
    }
  }

  lemma {:induction false} PatchChildLocal(h: Host, parent: Path, os: seq<Node>, ns: seq<Node>, i: nat)
    ensures Within(h.root, PatchChild(h, parent, os, ns, i).host.root, parent)
    decreases SizeOf(os), 1
  {
    var oldChild, newChild := ChildAt(os, i), ChildAt(ns, i);
    PrimitivesWithin(h, parent, if newChild.Some? then Render(newChild.value) else HostText(""), i, "", Undefined);
    if oldChild.Some? && newChild.Some? {
      SizeOfChild(os, i);
      PatchLocal(h, parent + [i], oldChild, newChild, i);
      WithinDeeper(h.root, PatchChild(h, parent, os, ns, i).host.root, parent, [i]);
    }
  }
}
