/**
 * `render`: builds a fresh, detached host subtree from a vnode. Text becomes
 * a text node; an element becomes a host element whose props are split into
 * event listeners (an `on...` key holding a function) and attributes
 * (everything else), with its children rendered in order.
 */
module Materialize {
  import opened VDom
  import opened HostTree

  /** `key.startsWith("on") && typeof value === "function"`. */
  predicate IsListener(key: string, value: Value)
  {
    |key| >= 2 && key[..2] == "on" && value.Callback?
  }

  function LowerChar(c: char): char
  {
    if 'A' <= c <= 'Z' then (c as int + 32) as char else c
  }

  /** `toLowerCase()` on the ASCII letters. */
  function Lower(s: string): string
  {
    seq(|s|, i requires 0 <= i < |s| => LowerChar(s[i]))
  }

  /** The event a listener prop registers for: `key.slice(2).toLowerCase()`. */
  function EventOf(key: string): string
    requires |key| >= 2
  {
    Lower(key[2..])
  }

  /** The props `render` passes to `setAttribute`. */
  function AttributesOf(props: Props): map<string, Value>
  {
    map k | k in props && !IsListener(k, props[k]) :: props[k]
  }

  /** The props `render` passes to `addEventListener`. */
  function ListenersOf(props: Props): set<Listener>
  {
    set k | k in props && IsListener(k, props[k]) :: Listener(EventOf(k), props[k].id)
  }

  function Render(v: Node): HostNode
  {
    match v
    case Text(s) => HostText(s)
    case Elem(tag, props, children) =>
      HostElem(tag, AttributesOf(props), ListenersOf(props),
               seq(|children|, i requires 0 <= i < |children| => Render(children[i])))
  }

  /**
   * A host node reflects a vnode when it has the vnode's shape: the same text,
   * or the same tag, exactly the non-listener props as attributes, exactly the
   * listeners the `on...` callback props register, and children that reflect
   * the vnode's children one for one, in order.
   */
  ghost predicate Reflects(h: HostNode, v: Node)
  {
    match v
    case Text(s) => h == HostText(s)
    case Elem(tag, props, children) =>
      && h.HostElem?
      && h.tag == tag
      && (forall k :: k in h.attrs <==> k in props && !IsListener(k, props[k]))
      && (forall k | k in h.attrs :: h.attrs[k] == props[k])
      && (forall l :: l in h.listeners <==>
            exists k | k in props && IsListener(k, props[k]) :: l == Listener(EventOf(k), props[k].id))
      && |h.children| == |children|
      && (forall i | 0 <= i < |children| :: Reflects(h.children[i], children[i]))
  }

  /** What `render` builds reflects its argument. */
  lemma {:induction false} RenderReflects(v: Node)
    ensures Reflects(Render(v), v)
  {
    match v
    case Text(_) =>
    case Elem(tag, props, children) =>
      forall i | 0 <= i < |children|
        ensures Reflects(Render(v).children[i], children[i])
      {
        RenderReflects(children[i]);
      }
  }

  /** And it is the only host tree that does: reflecting `v` pins the whole subtree down. */
  lemma {:induction false} ReflectsOnlyRender(h: HostNode, v: Node)
    requires Reflects(h, v)
    ensures h == Render(v)
  {
    match v
    case Text(_) =>
    case Elem(tag, props, children) =>
      var r := Render(v);
      assert h.attrs == r.attrs;
      assert h.listeners == r.listeners;
      forall i | 0 <= i < |children|
        ensures h.children[i] == r.children[i]
      {
        ReflectsOnlyRender(h.children[i], children[i]);
      }
      assert h.children == r.children;
  }

  /** Each listener prop registers its callback for the lower-cased event name after `on`. */
  lemma RenderListener(tag: string, props: Props, children: seq<Node>, key: string)
    requires key in props && IsListener(key, props[key])
    ensures Listener(Lower(key[2..]), props[key].id) in Render(Elem(tag, props, children)).listeners
    ensures key !in Render(Elem(tag, props, children)).attrs
  {
  }
}
