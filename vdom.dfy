/** A small Option type: `None` stands for JavaScript's `null`/`undefined`. */
module Wrappers {
  datatype Option<+T> = None | Some(value: T)
}

/**
 * Virtual nodes: the descriptor tree the application builds afresh on every
 * update cycle, and the JavaScript value semantics the reconciler relies on.
 */
module VDom {
  import opened Wrappers

  /**
   * A prop value. JavaScript props may hold any value; the reconciler only
   * compares them with `!==`, tests them for `null`/`undefined` and asks
   * whether they are functions. A callback is an opaque handle, so two
   * callbacks are `===` exactly when they are the same handle.
   */
  datatype Value =
    | Str(s: string)
    | Num(n: int)
    | Bool(b: bool)
    | Null
    | Undefined
    | Callback(id: nat)

  /** Props of an element; an absent `props` object is the empty map. */
  type Props = map<string, Value>

  /** A vnode is either a plain string (a text child) or an element. */
  datatype Node =
    | Text(text: string)
    | Elem(tag: string, props: Props, children: seq<Node>)

  /** `createElement(type, props, ...children)`: the element constructor. */
  function CreateElement(tag: string, props: Props, children: seq<Node>): Node
  {
    Elem(tag, props, children)
  }

  /** `props[key]`: a key that is not set reads as `undefined`. */
  function Lookup(props: Props, key: string): Value
  {
    if key in props then props[key] else Undefined
  }

  predicate IsNullish(v: Value)
  {
    v == Null || v == Undefined
  }

  /** JavaScript truthiness of a node argument: absent and `""` are falsy. */
  predicate Truthy(n: Option<Node>)
  {
    n.Some? && n.value != Text("")
  }

  /** `children[i] || null`: out of range and the empty string read as absent. */
  function ChildAt(children: seq<Node>, i: nat): (r: Option<Node>)
    ensures r.Some? <==> i < |children| && children[i] != Text("")
    ensures r.Some? ==> Truthy(r) && r.value == children[i]
  {
    if i < |children| && children[i] != Text("") then Some(children[i]) else None
  }

  /** Number of nodes in a vnode tree: the termination measure of patch. */
  function Size(n: Node): nat
  {
    match n
    case Text(_) => 1
    case Elem(_, _, children) => 1 + SizeOf(children)
  }

  function SizeOf(ns: seq<Node>): nat
  {
    if ns == [] then 0 else Size(ns[0]) + SizeOf(ns[1..])
  }

  function OptSize(n: Option<Node>): nat
  {
    if n.Some? then Size(n.value) else 0
  }

  /** Every child of a list is no larger than the whole list. */
  lemma {:induction false} SizeOfChild(ns: seq<Node>, i: nat)
    requires i < |ns|
    ensures Size(ns[i]) <= SizeOf(ns)
  {
    if i > 0 {
      SizeOfChild(ns[1..], i - 1);
    }
  }

  /** No text child anywhere below `n` is the empty string (the root itself included). */
  predicate NoEmptyText(n: Node)
  {
    match n
    case Text(s) => s != ""
    case Elem(_, _, children) => forall i | 0 <= i < |children| :: NoEmptyText(children[i])
  }
}
