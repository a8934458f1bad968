/**
 * `updateAttributes(element, oldProps, newProps)`: for every key of either
 * props object whose old and new values differ under `!==`, removes the
 * attribute when the new value is `null`/`undefined` and sets it otherwise.
 * Keys whose values agree are not touched, and no listener is rebound.
 */
module Attributes {
  import opened Wrappers
  import opened VDom
  import opened HostTree
  import opened Materialize

  /** The keys updateAttributes calls the host for. */
  function Changed(op: Props, np: Props): set<string>
  {
    set k | k in op.Keys + np.Keys && Lookup(op, k) != Lookup(np, k)
  }

  /** Attributes after the host calls for the keys in `keys` have been made. */
  function Apply(attrs: map<string, Value>, np: Props, keys: set<string>): map<string, Value>
  {
    map k | k in attrs.Keys + keys && (k in keys ==> !IsNullish(Lookup(np, k)))
      :: if k in keys then Lookup(np, k) else attrs[k]
  }

  /** The whole call on the host: one host call per changed key, made on `element`. */
  function UpdateAttributes(h: Host, element: Path, op: Props, np: Props): Run
  {
    var changed := Changed(op, np);
    if changed == {} then Run(h, true)
    else
      match Resolve(h.root, element)
      case Some(HostElem(tag, attrs, ls, kids)) =>
        Run(Host(Put(h.root, element, HostElem(tag, Apply(attrs, np, changed), ls, kids)), h.calls + |changed|), true)
      case _ => Run(h, false)
  }

  /**
   * The attribute map after updateAttributes, key by key: an unchanged key
   * (equal values, or in neither map) keeps whatever the element had; a
   * changed key whose new value is `null`/`undefined` is gone; any other
   * changed key holds the new value.
   */
  lemma ApplyChanged(attrs: map<string, Value>, op: Props, np: Props, k: string)
    ensures Lookup(op, k) == Lookup(np, k) ==> k !in Changed(op, np)
    ensures k !in Changed(op, np) ==>
              (k in Apply(attrs, np, Changed(op, np)) <==> k in attrs) &&
              (k in attrs ==> Apply(attrs, np, Changed(op, np))[k] == attrs[k])
    ensures k in Changed(op, np) && IsNullish(Lookup(np, k)) ==> k !in Apply(attrs, np, Changed(op, np))
    ensures k in Changed(op, np) && !IsNullish(Lookup(np, k)) ==>
              k in np && k in Apply(attrs, np, Changed(op, np)) && Apply(attrs, np, Changed(op, np))[k] == np[k]
    ensures k in Changed(op, np) ==> k in op || k in np
  {
  }

  /**
   * What updateAttributes does to the host, and when it throws: the element
   * alone gets its new attribute map, one host call per changed key, and
   * nothing else in the tree changes.
   */
  lemma UpdateAttributesEffect(h: Host, element: Path, op: Props, np: Props)
    ensures var r := UpdateAttributes(h, element, op, np);
      && (r.ok <==> Changed(op, np) == {} || (Resolve(h.root, element).Some? && Resolve(h.root, element).value.HostElem?))
      && (!r.ok || Changed(op, np) == {} ==> r.host == h)
      && (r.ok ==> r.host.calls == h.calls + |Changed(op, np)|)
      && (r.ok && Changed(op, np) != {} ==>
            var e := Resolve(h.root, element).value;
            && r.host.root == Put(h.root, element, e.(attrs := Apply(e.attrs, np, Changed(op, np))))
            && Resolve(r.host.root, element) == Some(e.(attrs := Apply(e.attrs, np, Changed(op, np)))))
      && Within(h.root, r.host.root, element)
  {
    var r := UpdateAttributes(h, element, op, np);
    if r.ok && Changed(op, np) != {} {
      var e := Resolve(h.root, element).value;
      ResolvePutHere(h.root, element, e.(attrs := Apply(e.attrs, np, Changed(op, np))));
      WithinPut(h.root, element, e.(attrs := Apply(e.attrs, np, Changed(op, np))));
    }
  }

  /**
   * An element whose attributes are exactly the non-null props of `props`:
   * every such prop is an attribute with its value, and nothing else is.
   */
  ghost predicate Mirrors(attrs: map<string, Value>, props: Props)
  {
    forall k :: (k in attrs <==> !IsNullish(Lookup(props, k))) && (k in attrs ==> attrs[k] == Lookup(props, k))
  }

  /** Starting from attributes that mirror the old props, updateAttributes leaves them mirroring the new props. */
  lemma {:induction false} ApplyConverges(attrs: map<string, Value>, op: Props, np: Props)
    requires Mirrors(attrs, op)
    ensures Mirrors(Apply(attrs, np, Changed(op, np)), np)
  {
    var a' := Apply(attrs, np, Changed(op, np));
    forall k ensures (k in a' <==> !IsNullish(Lookup(np, k))) && (k in a' ==> a'[k] == Lookup(np, k)) {
      ApplyChanged(attrs, op, np, k);
      if k !in Changed(op, np) {
        assert Lookup(op, k) == Lookup(np, k);
      }
    }
  }

  /**
   * A freshly rendered element mirrors its props when none of them is
   * `null`/`undefined` or a listener, so updateAttributes then keeps it in
   * step with every later props map.
   */
  lemma RenderMirrors(tag: string, props: Props, children: seq<Node>)
    requires forall k | k in props :: !IsNullish(props[k]) && !IsListener(k, props[k])
    ensures Mirrors(Render(Elem(tag, props, children)).attrs, props)
  {
  }

  lemma RenderedStaysMirrored(tag: string, op: Props, children: seq<Node>, np: Props)
    requires forall k | k in op :: !IsNullish(op[k]) && !IsListener(k, op[k])
    ensures Mirrors(Apply(Render(Elem(tag, op, children)).attrs, np, Changed(op, np)), np)
  {
    RenderMirrors(tag, op, children);
    ApplyConverges(Render(Elem(tag, op, children)).attrs, op, np);
  }
}
