/**
 * The live host tree and the reconciler's imperative code. `Document` holds
 * the tree and offers the host primitives; `UpdateAttributes` and `Patch` are
 * the source's loops and recursion, each proved to leave the document exactly
 * as the matching function of module Reconcile or Attributes says.
 */
module Dom {
  import opened Wrappers
  import opened VDom
  import opened HostTree
  import opened Materialize
  import opened Differ
  import Attributes
  import Reconcile

  class Document {
    var root: HostNode
    var calls: nat

    function State(): Host
      reads this
    {
      Host(root, calls)
    }

    constructor (root: HostNode)
      ensures State() == Host(root, 0)
    {
      this.root := root;
      this.calls := 0;
    }

    method AppendChild(parent: Path, child: HostNode) returns (ok: bool)
      modifies this
      ensures Run(State(), ok) == HostTree.AppendChild(old(State()), parent, child)
    {
      match Resolve(root, parent)
      case Some(HostElem(tag, attrs, ls, kids)) =>
        root := Put(root, parent, HostElem(tag, attrs, ls, kids + [child]));
        calls := calls + 1;
        ok := true;
      case _ =>
        ok := false;
    }

    method RemoveChild(parent: Path, index: nat) returns (ok: bool)
      modifies this
      ensures Run(State(), ok) == HostTree.RemoveChild(old(State()), parent, index)
    {
      ok := false;
      match Resolve(root, parent)
      case Some(HostElem(tag, attrs, ls, kids)) =>
        if index < |kids| {
          root := Put(root, parent, HostElem(tag, attrs, ls, kids[..index] + kids[index + 1..]));
          calls := calls + 1;
          ok := true;
        }
      case _ =>
    }

    method ReplaceChild(parent: Path, child: HostNode, index: nat) returns (ok: bool)
      modifies this
      ensures Run(State(), ok) == HostTree.ReplaceChild(old(State()), parent, child, index)
    {
      ok := false;
      match Resolve(root, parent)
      case Some(HostElem(tag, attrs, ls, kids)) =>
        if index < |kids| {
          root := Put(root, parent, HostElem(tag, attrs, ls, kids[index := child]));
          calls := calls + 1;
          ok := true;
        }
      case _ =>
    }

    method SetAttribute(element: Path, key: string, value: Value) returns (ok: bool)
      modifies this
      ensures Run(State(), ok) == HostTree.SetAttribute(old(State()), element, key, value)
    {
      match Resolve(root, element)
      case Some(HostElem(tag, attrs, ls, kids)) =>
        root := Put(root, element, HostElem(tag, attrs[key := value], ls, kids));
        calls := calls + 1;
        ok := true;
      case _ =>
        ok := false;
    }

    method RemoveAttribute(element: Path, key: string) returns (ok: bool)
      modifies this
      ensures Run(State(), ok) == HostTree.RemoveAttribute(old(State()), element, key)
    {
      match Resolve(root, element)
      case Some(HostElem(tag, attrs, ls, kids)) =>
        root := Put(root, element, HostElem(tag, attrs - {key}, ls, kids));
        calls := calls + 1;
        ok := true;
      case _ =>
        ok := false;
    }
  }

  /** The host after the calls for the changed keys in `done` have been made. */
  ghost function Partial(h: Host, element: Path, np: Props, done: set<string>): Host
    requires done != {} ==> Resolve(h.root, element).Some? && Resolve(h.root, element).value.HostElem?
  {
    if done == {} then h
    else
      var e := Resolve(h.root, element).value;
      Host(Put(h.root, element, e.(attrs := Attributes.Apply(e.attrs, np, done))), h.calls + |done|)
  }

  lemma ApplyOneMore(attrs: map<string, Value>, np: Props, done: set<string>, k: string)
    requires k !in done
    ensures Attributes.Apply(attrs, np, done + {k}) ==
              if IsNullish(Lookup(np, k)) then Attributes.Apply(attrs, np, done) - {k}
              else Attributes.Apply(attrs, np, done)[k := Lookup(np, k)]
  {
  }

  /** The host call that updateAttributes makes for a changed key. */
  function AttributeCall(h: Host, element: Path, key: string, value: Value): Run
  {
    if IsNullish(value) then RemoveAttribute(h, element, key)
    else SetAttribute(h, element, key, value)
  }

  /** One more host call for a changed key moves the partial state on by that key, or throws at the first one. */
  lemma PartialStep(h0: Host, element: Path, np: Props, done: set<string>, key: string)
    requires key !in done
    requires done != {} ==> Resolve(h0.root, element).Some? && Resolve(h0.root, element).value.HostElem?
    ensures var r := AttributeCall(Partial(h0, element, np, done), element, key, Lookup(np, key));
            && (r.ok <==> Resolve(h0.root, element).Some? && Resolve(h0.root, element).value.HostElem?)
            && (r.ok ==> r.host == Partial(h0, element, np, done + {key}))
            && (!r.ok ==> r.host == h0 && done == {})
  {
    var h := Partial(h0, element, np, done);
    if Resolve(h0.root, element).Some? && Resolve(h0.root, element).value.HostElem? {
      var e := Resolve(h0.root, element).value;
      var before := e.(attrs := Attributes.Apply(e.attrs, np, done));
      var after := e.(attrs := Attributes.Apply(e.attrs, np, done + {key}));
      if done == {} {
        assert Attributes.Apply(e.attrs, np, {}) == e.attrs;
        PutResolved(h0.root, element);
      }
      assert h == Host(Put(h0.root, element, before), h0.calls + |done|);
      ResolvePutHere(h0.root, element, before);
      PutPut(h0.root, element, before, after);
      ApplyOneMore(e.attrs, np, done, key);
      assert |done + {key}| == |done| + 1;
      var r := AttributeCall(h, element, key, Lookup(np, key));
      assert r.host.root == Put(h.root, element, after);
    }
  }

  /** Once every changed key has had its call, the partial state is what updateAttributes promises. */
  lemma PartialComplete(h0: Host, element: Path, op: Props, np: Props)
    ensures var changed := Attributes.Changed(op, np);
            var spec := Attributes.UpdateAttributes(h0, element, op, np);
            if changed == {} || (Resolve(h0.root, element).Some? && Resolve(h0.root, element).value.HostElem?)
            then spec == Run(Partial(h0, element, np, changed), true)
            else spec == Run(h0, false)
  {
  }

  /** The body of updateAttributes' visit for a key whose values differ. */
  method SetOrRemove(doc: Document, element: Path, key: string, newValue: Value) returns (ok: bool)
    modifies doc
    ensures Run(doc.State(), ok) == AttributeCall(old(doc.State()), element, key, newValue)
  {
    if newValue == Null || newValue == Undefined {
      ok := doc.RemoveAttribute(element, key);
    } else {
      ok := doc.SetAttribute(element, key, newValue);
    }
  }

  /**
   * `updateAttributes(element, oldProps, newProps)`: visits the union of the
   * two key sets (in an order the model leaves open) and calls the host for
   * each key whose values differ.
   */
  method UpdateAttributes(doc: Document, element: Path, op: Props, np: Props) returns (ok: bool)
    modifies doc
    ensures Run(doc.State(), ok) == Attributes.UpdateAttributes(old(doc.State()), element, op, np)
  {
    ghost var h0 := doc.State();
    ghost var changed := Attributes.Changed(op, np);
    var todo := op.Keys + np.Keys;
    ghost var done: set<string> := {};
    while todo != {}
      invariant todo <= op.Keys + np.Keys
      invariant done <= changed
      invariant changed - todo <= done
      invariant done !! todo
      invariant done != {} ==> Resolve(h0.root, element).Some? && Resolve(h0.root, element).value.HostElem?
      invariant doc.State() == Partial(h0, element, np, done)
      decreases todo
    {
      var key :| key in todo;
      todo := todo - {key};
      var oldValue, newValue := Lookup(op, key), Lookup(np, key);
      if oldValue != newValue {
        assert key in changed && key !in done;
        PartialStep(h0, element, np, done, key);
        ok := SetOrRemove(doc, element, key, newValue);
        if !ok {
          assert doc.State() == h0 && changed != {};
          PartialComplete(h0, element, op, np);
          return;
        }
        done := done + {key};
      }
    }
    assert done == changed;
    PartialComplete(h0, element, op, np);
    ok := true;
  }

  /**
   * `patch(parent, oldVNode, newVNode, index)` on the live document: the four
   * branches, and in the fourth the attribute update on
   * `parent.childNodes[index]` followed by the positional walk over the
   * children, which appends to and removes from `parent` and recurses with
   * `parent.childNodes[i]`. A host call that throws ends the whole patch.
   */
  method Patch(doc: Document, parent: Path, o: Option<Node>, n: Option<Node>, index: nat) returns (ok: bool)
    modifies doc
    ensures Run(doc.State(), ok) == Reconcile.Patch(old(doc.State()), parent, o, n, index)
    decreases OptSize(o), 0
  {
    if !Truthy(o) {
      if n.None? {
        // `render(null)` throws before the append
        return false;
      }
      ok := doc.AppendChild(parent, Render(n.value));
    } else if !Truthy(n) {
      ok := doc.RemoveChild(parent, index);
    } else if Diff(o.value, n.value) {
      ok := doc.ReplaceChild(parent, Render(n.value), index);
    } else if o.value.Elem? && n.value.Elem? {
      if Resolve(doc.root, parent).None? {
        // `parent.childNodes` of an undefined parent throws
        return false;
      }
      ok := UpdateAttributes(doc, parent + [index], o.value.props, n.value.props);
      if !ok {
        return;
      }
      var oldChildren, newChildren := o.value.children, n.value.children;
      var max := Reconcile.Max(|oldChildren|, |newChildren|);
      ghost var h1 := doc.State();
      var i := 0;
      while i < max
        invariant i <= max
        invariant Reconcile.PatchChildren(h1, parent, oldChildren, newChildren, 0)
               == Reconcile.PatchChildren(doc.State(), parent, oldChildren, newChildren, i)
        decreases max - i
      {
        ghost var before := doc.State();
        var oldChild, newChild := ChildAt(oldChildren, i), ChildAt(newChildren, i);
        if oldChild.None? {
          if newChild.None? {
            return false;
          }
          ok := doc.AppendChild(parent, Render(newChild.value));
        } else if newChild.None? {
          ok := doc.RemoveChild(parent, i);
        } else {
          SizeOfChild(oldChildren, i);
          ok := Patch(doc, parent + [i], oldChild, newChild, i);
        }
        assert Run(doc.State(), ok) == Reconcile.PatchChild(before, parent, oldChildren, newChildren, i);
        if !ok {
          return;
        }
        i := i + 1;
      }
      ok := true;
    } else {
      ok := true;
    }
  }
}
