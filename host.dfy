/**
 * The host tree (the DOM) as a value, and the host primitives the reconciler
 * calls on it: appendChild, removeChild, replaceChild, setAttribute and
 * removeAttribute. A host node that JavaScript holds by reference is named
 * here by its path of child indices from the root; a reference that is
 * `undefined` (a `childNodes[i]` past the end) is a path that resolves to
 * nothing. A primitive that would throw in the browser returns a run whose
 * `ok` is false and leaves the tree as it was.
 */
module HostTree {
  import opened Wrappers
  import opened VDom

  /** An event listener registered with `addEventListener(event, handler)`. */
  datatype Listener = Listener(event: string, handler: nat)

  datatype HostNode =
    | HostText(text: string)
    | HostElem(tag: string, attrs: map<string, Value>, listeners: set<Listener>, children: seq<HostNode>)

  type Path = seq<nat>

  /** The live tree and the number of mutating host calls issued on it so far. */
  datatype Host = Host(root: HostNode, calls: nat)

  /** The host after a reconciler call, and whether the call returned normally. */
  datatype Run = Run(host: Host, ok: bool)

  /** The node a path leads to; a text node has no `childNodes`. */
  function Resolve(t: HostNode, path: Path): Option<HostNode>
    decreases |path|
  {
    if path == [] then Some(t)
    else if t.HostElem? && path[0] < |t.children| then Resolve(t.children[path[0]], path[1..])
    else None
  }

  /** The tree with the node at `path` replaced by `x`. */
  function Put(t: HostNode, path: Path, x: HostNode): HostNode
    requires Resolve(t, path).Some?
    decreases |path|
  {
    if path == [] then x
    else t.(children := t.children[path[0] := Put(t.children[path[0]], path[1..], x)])
  }

  predicate IsPrefix(p: Path, q: Path)
  {
    |p| <= |q| && q[..|p|] == p
  }

  /** Reading back a node just stored finds it, and whatever lies below it. */
  lemma {:induction false} ResolvePut(t: HostNode, p: Path, x: HostNode, q: Path)
    requires Resolve(t, p).Some?
    ensures Resolve(Put(t, p, x), p + q) == Resolve(x, q)
  {
    if p != [] {
      assert (p + q)[1..] == p[1..] + q;
      ResolvePut(t.children[p[0]], p[1..], x, q);
    } else {
      assert p + q == q;
    }
  }

  lemma ResolvePutHere(t: HostNode, p: Path, x: HostNode)
    requires Resolve(t, p).Some?
    ensures Resolve(Put(t, p, x), p) == Some(x)
  {
    ResolvePut(t, p, x, []);
    assert p + [] == p;
  }

  /** Storing twice at one path keeps only the second node. */
  lemma {:induction false} PutPut(t: HostNode, p: Path, x: HostNode, y: HostNode)
    requires Resolve(t, p).Some?
    ensures Resolve(Put(t, p, x), p).Some?
    ensures Put(Put(t, p, x), p, y) == Put(t, p, y)
  {
    ResolvePutHere(t, p, x);
    if p != [] {
      PutPut(t.children[p[0]], p[1..], x, y);
    }
  }

  /** Storing back the node a path leads to changes nothing. */
  lemma {:induction false} PutResolved(t: HostNode, p: Path)
    requires Resolve(t, p).Some?
    ensures Put(t, p, Resolve(t, p).value) == t
  {
    if p != [] {
      PutResolved(t.children[p[0]], p[1..]);
    }
  }

  /** A node stored at `p` leaves every path that neither contains nor lies below `p` alone. */
  lemma {:induction false} ResolveElsewhere(t: HostNode, p: Path, x: HostNode, q: Path)
    requires Resolve(t, p).Some?
    requires !IsPrefix(p, q) && !IsPrefix(q, p)
    ensures Resolve(Put(t, p, x), q) == Resolve(t, q)
  {
    assert p != [] && q != [];
    if p[0] == q[0] {
      ResolveElsewhere(t.children[p[0]], p[1..], x, q[1..]);
    }
  }

  /** Following `p` and then `q` is following `p + q`. */
  lemma {:induction false} ResolveAppend(t: HostNode, p: Path, q: Path)
    ensures Resolve(t, p + q) == if Resolve(t, p).Some? then Resolve(Resolve(t, p).value, q) else None
    decreases |p|
  {
    if p == [] {
      assert p + q == q;
    } else {
      assert (p + q)[0] == p[0] && (p + q)[1..] == p[1..] + q;
      if t.HostElem? && p[0] < |t.children| {
        ResolveAppend(t.children[p[0]], p[1..], q);
      }
    }
  }

  /** Storing at `p + q` is storing, at `p`, the subtree at `p` with its node at `q` replaced. */
  lemma {:induction false} PutAppend(t: HostNode, p: Path, q: Path, x: HostNode)
    requires Resolve(t, p + q).Some?
    ensures Resolve(t, p).Some? && Resolve(Resolve(t, p).value, q).Some?
    ensures Put(t, p + q, x) == Put(t, p, Put(Resolve(t, p).value, q, x))
    decreases |p|
  {
    ResolveAppend(t, p, q);
    if p == [] {
      assert p + q == q;
    } else {
      assert (p + q)[0] == p[0] && (p + q)[1..] == p[1..] + q;
      PutAppend(t.children[p[0]], p[1..], q, x);
    }
  }

  /**
   * `t'` differs from `t` at most inside the subtree at `p`: every node on
   * the way to `p` keeps its tag, attributes, listeners and other children,
   * and every node off that way is untouched.
   */
  ghost predicate Within(t: HostNode, t': HostNode, p: Path)
  {
    t' == t || (Resolve(t, p).Some? && Resolve(t', p).Some? && t' == Put(t, p, Resolve(t', p).value))
  }

  lemma WithinPut(t: HostNode, p: Path, x: HostNode)
    requires Resolve(t, p).Some?
    ensures Within(t, Put(t, p, x), p)
  {
    ResolvePutHere(t, p, x);
  }

  lemma WithinTrans(t: HostNode, t': HostNode, t'': HostNode, p: Path)
    requires Within(t, t', p) && Within(t', t'', p)
    ensures Within(t, t'', p)
  {
    if t' != t && t'' != t' {
      var x, y := Resolve(t', p).value, Resolve(t'', p).value;
      PutPut(t, p, x, y);
    }
  }

  /** A change inside the subtree at `p + q` is a change inside the subtree at `p`. */
  lemma WithinDeeper(t: HostNode, t': HostNode, p: Path, q: Path)
    requires Within(t, t', p + q)
    ensures Within(t, t', p)
  {
    if t' != t {
      var y := Resolve(t', p + q).value;
      PutAppend(t, p, q, y);
      var inner := Put(Resolve(t, p).value, q, y);
      ResolvePutHere(t, p, inner);
    }
  }

  /** Nothing outside the subtree at `p` moves when that subtree alone changes. */
  lemma WithinKeepsElsewhere(t: HostNode, t': HostNode, p: Path, q: Path)
    requires Within(t, t', p)
    requires !IsPrefix(p, q) && !IsPrefix(q, p)
    ensures Resolve(t', q) == Resolve(t, q)
  {
    if t' != t {
      ResolveElsewhere(t, p, Resolve(t', p).value, q);
    }
  }

  /**
   * Every node on the way down to `p` is kept but for its one child on that
   * way: same tag, attributes, listeners and every other child.
   */
  lemma WithinKeepsAbove(t: HostNode, t': HostNode, q: Path, r: Path)
    requires Within(t, t', q + r) && Resolve(t, q + r).Some? && r != []
    ensures Resolve(t, q).Some? && Resolve(t', q).Some?
    ensures var a, b := Resolve(t, q).value, Resolve(t', q).value;
            && a.HostElem? && b.HostElem? && r[0] < |a.children| == |b.children|
            && b == a.(children := a.children[r[0] := b.children[r[0]]])
  {
    PutAppend(t, q, r, Resolve(t', q + r).value);
    var a := Resolve(t, q).value;
    if t' == t {
      assert a.children[r[0] := a.children[r[0]]] == a.children;
    } else {
      var inner := Put(a, r, Resolve(t', q + r).value);
      ResolvePutHere(t, q, inner);
    }
  }

  /** Each host primitive changes the tree only inside the subtree at the node it is called on. */
  lemma PrimitivesWithin(h: Host, p: Path, child: HostNode, index: nat, key: string, value: Value)
    ensures Within(h.root, AppendChild(h, p, child).host.root, p)
    ensures Within(h.root, RemoveChild(h, p, index).host.root, p)
    ensures Within(h.root, ReplaceChild(h, p, child, index).host.root, p)
    ensures Within(h.root, SetAttribute(h, p, key, value).host.root, p)
    ensures Within(h.root, RemoveAttribute(h, p, key).host.root, p)
  {
    match Resolve(h.root, p)
    case Some(HostElem(tag, attrs, ls, kids)) =>
      WithinPut(h.root, p, HostElem(tag, attrs, ls, kids + [child]));
      if index < |kids| {
        WithinPut(h.root, p, HostElem(tag, attrs, ls, kids[..index] + kids[index + 1..]));
        WithinPut(h.root, p, HostElem(tag, attrs, ls, kids[index := child]));
      }
      WithinPut(h.root, p, HostElem(tag, attrs[key := value], ls, kids));
      WithinPut(h.root, p, HostElem(tag, attrs - {key}, ls, kids));
    case _ =>
  }

  /** `parent.appendChild(child)`. */
  function AppendChild(h: Host, parent: Path, child: HostNode): Run
  {
    match Resolve(h.root, parent)
    case Some(HostElem(tag, attrs, ls, kids)) =>
      Run(Host(Put(h.root, parent, HostElem(tag, attrs, ls, kids + [child])), h.calls + 1), true)
    case _ => Run(h, false)
  }

  /** `parent.removeChild(parent.childNodes[index])`. */
  function RemoveChild(h: Host, parent: Path, index: nat): Run
  {
    match Resolve(h.root, parent)
    case Some(HostElem(tag, attrs, ls, kids)) =>
      if index < |kids| then
        Run(Host(Put(h.root, parent, HostElem(tag, attrs, ls, kids[..index] + kids[index + 1..])), h.calls + 1), true)
      else Run(h, false)
    case _ => Run(h, false)
  }

  /** `parent.replaceChild(child, parent.childNodes[index])`. */
  function ReplaceChild(h: Host, parent: Path, child: HostNode, index: nat): Run
  {
    match Resolve(h.root, parent)
    case Some(HostElem(tag, attrs, ls, kids)) =>
      if index < |kids| then
        Run(Host(Put(h.root, parent, HostElem(tag, attrs, ls, kids[index := child])), h.calls + 1), true)
      else Run(h, false)
    case _ => Run(h, false)
  }

  /** `element.setAttribute(key, value)`; a text node or `undefined` has no such method. */
  function SetAttribute(h: Host, element: Path, key: string, value: Value): Run
  {
    match Resolve(h.root, element)
    case Some(HostElem(tag, attrs, ls, kids)) =>
      Run(Host(Put(h.root, element, HostElem(tag, attrs[key := value], ls, kids)), h.calls + 1), true)
    case _ => Run(h, false)
  }

  /** `element.removeAttribute(key)`. */
  function RemoveAttribute(h: Host, element: Path, key: string): Run
  {
    match Resolve(h.root, element)
    case Some(HostElem(tag, attrs, ls, kids)) =>
      Run(Host(Put(h.root, element, HostElem(tag, attrs - {key}, ls, kids)), h.calls + 1), true)
    case _ => Run(h, false)
  }
}
