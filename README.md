# react-decrust virtual DOM, modelled in Dafny

This project models the core of `src/index.ts` from react-decrust, a minimal virtual-DOM reconciler:

- **Virtual nodes.** `VNode` and `createElement` are the datatype `VDom.Node`. A node is either a text string or an element with a tag, a props map and children.
- **`render`.** `Materialize.Render` builds a host subtree from a vnode. Props that are `on…` callbacks become event listeners. Every other prop becomes an attribute.
- **`diff`.** `Differ.Diff` says whether the node at one position must be replaced wholesale.
- **`updateAttributes`.** `Attributes.UpdateAttributes` is the function. `Dom.UpdateAttributes` is the `forEach` loop over the live document.
- **`patch`.** `Reconcile.Patch` is the function. `Dom.Patch` is the recursive method with the child `for` loop, which mutates the live document.
- **`useState`.** `StateHooks` holds the slot store and the cursor, both as a value and as the class `StateHooks.StateStore`.

## The host tree

The DOM is the datatype `HostTree.HostNode`. It is either a text node or an element, and an element has a tag, attributes, listeners and children. The live tree sits in the class `Dom.Document`.

A node that JavaScript holds by reference is named by its path of child indices from the root. A reference that comes out `undefined` is a path that resolves to nothing, for example `parent.childNodes[i]` past the end.

The document also counts the mutating host calls made on it: appendChild, removeChild, replaceChild, setAttribute and removeAttribute. "No host call" is therefore the statement that the count is unchanged.

A host call that would throw in the browser leaves the tree as it is and reports failure. The model covers these throws:

- a method called on `undefined` or on a text node;
- `removeChild(undefined)`;
- `replaceChild(x, undefined)`;
- `render(null)`.

Every reconciler operation returns a `Run`: the host after the call, plus whether the call returned normally. An exception ends the whole `patch`, and the tree keeps the mutations made before it.

`Reconcile.PatchLocal` proves that `patch` changes the host only inside the subtree at its `parent`, both when it returns and when it throws. Every node outside that subtree stays where it was, and so does every ancestor apart from its child on the way down. A path therefore keeps naming the same node across a nested call, just as a JavaScript reference would.

Each imperative method in module `Dom` is proved to leave the document exactly as the matching function says. Every property is proved about those functions.

## Behaviour of the code as written

The child walk of `patch` works on `parent` itself (src/index.ts:85-98), not on `parent.childNodes[index]`. The code does the following, and the model proves each case:

- **Children are never compared.** `diff` never reads children. So `<p>x</p>` → `<p>y</p>` keeps the `<p>` and replaces only its text node, in one host call (`Scenarios.ChangedTextChild`). The element is not replaced.
- **A compatible element can be removed.** `<div>a</div>` → `<div></div>` is compatible, yet the walk removes `body.childNodes[0]`, which is that `<div>` itself (`Scenarios.CompatibleRemovesItself`).
- **Shrinking children throws.** Going from three text children to one makes the walk remove `body.childNodes[1]`, which does not exist, so it throws (`Scenarios.ShrinkingChildrenThrows`).
- **A tree patched against itself can throw.** A rendered `<div><p>x</p><p>y</p></div>` patched against itself throws. The second `<p>` is looked up as `body.childNodes[1]` (`Scenarios.RenderedTreeSelfPatchThrows`). `Reconcile.PatchSelf` gives the exact condition under which a self-patch returns normally. When no text in the tree is the empty string, a self-patch makes no host call, whether it returns or throws. An empty text is falsy, so it is appended again.
- **Adding an attribute replaces the element.** Adding an attribute changes the number of prop keys, so `diff` reports a change and the whole element is replaced (`Scenarios.AddedAttributeReplaces`). `updateAttributes` only ever runs on equal-sized prop maps whose new values all match.
- **`undefined` props make `diff` asymmetric.** A new prop holding `undefined` reads the same as a missing old key, so `diff` is not symmetric in that case (`Differ.DiffUndefinedProp`).
- **All declarations share one slot.** `stateIndex` is never advanced (src/index.ts:123-126), so every `useState` declaration shares slot 0. A second declaration neither resets the slot nor gets a slot of its own (`StateHooks.DeclarationsShareSlot`).

## Model

| member | source | states |
|---|---|---|
| Differ.DiffReflexive | src/index.ts:40-67 | a node compared with itself is never reported as changed |
| Differ.DiffKinds | src/index.ts:41-43 | a text against an element, in either order, is always reported as changed |
| Differ.DiffTexts | src/index.ts:45-46 | two texts are reported as changed exactly when the strings differ |
| Differ.DiffIgnoresChildren | src/index.ts:47-66 | the verdict for two elements is the same whatever their children are, so two nodes from `createElement` with the same type and props never differ |
| Differ.CompatibleIffSameProps | src/index.ts:49-64 | when no new prop is `undefined`, two elements are compatible exactly when their tags are equal and their props maps are equal |
| Differ.DiffUndefinedProp | src/index.ts:57-64 | `{id:"a"}` against `{title: undefined}` counts as compatible, and the reverse comparison does not |
| Materialize.RenderReflects | src/index.ts:16-37 | `render` gives a text node for a string. For an element it gives the tag, exactly the non-listener props as attributes, exactly the listeners of the `on…` callback props, and children that are the rendered children in order and of the same count |
| Materialize.ReflectsOnlyRender | src/index.ts:16-37 | any host tree with that shape is the one `render` builds |
| Materialize.RenderListener | src/index.ts:23-28 | an `on…` prop holding a callback registers that callback for the lower-cased name after `on`, and it is not set as an attribute |
| Attributes.ApplyChanged | src/index.ts:104-117 | per key after `updateAttributes`: an unchanged key keeps the element's attribute, a changed key with a `null`/`undefined` new value is removed, and any other changed key holds the new value. A changed key is always in one of the two maps |
| Attributes.UpdateAttributesEffect | src/index.ts:103-118 | it throws exactly when some key changed and the element is not an element. It makes one host call per changed key. The new tree is the old one with only the element's attribute map replaced, and that map is the one `ApplyChanged` describes. Nothing outside the element's subtree changes |
| Attributes.ApplyConverges | src/index.ts:103-118 | attributes that mirror the old props mirror the new props afterwards |
| Attributes.RenderMirrors | src/index.ts:22-29 | a rendered element mirrors its props when no prop is `null`/`undefined` or a listener |
| Attributes.RenderedStaysMirrored | src/index.ts:22-29 | such a rendered element, updated to any new props, mirrors the new props |
| HostTree.PrimitivesWithin | src/index.ts:70-75 | appendChild, removeChild, replaceChild, setAttribute and removeAttribute each change the tree only inside the subtree of the node they are called on |
| Dom.Document.AppendChild | src/index.ts:71 | appends at the end of an element, and throws for an undefined parent or a text parent |
| Dom.Document.RemoveChild | src/index.ts:73 | removes the child at the index and keeps the order of the others, and throws when there is no such child |
| Dom.Document.ReplaceChild | src/index.ts:75 | swaps the child at the index, and throws when there is no such child |
| Dom.Document.SetAttribute | src/index.ts:114 | sets one attribute on an element, and throws on anything else |
| Dom.Document.RemoveAttribute | src/index.ts:112 | removes one attribute from an element, and throws on anything else |
| Dom.SetOrRemove | src/index.ts:110-116 | removes the attribute for a `null`/`undefined` new value, and sets it otherwise |
| Dom.PartialStep | src/index.ts:106-117 | each changed key's host call moves the attributes on by that key, or throws at the first call when the target is no element |
| Dom.UpdateAttributes | src/index.ts:103-118 | the loop over the key union, in any order, leaves the document and the outcome that `Attributes.UpdateAttributes` gives |
| Dom.Patch | src/index.ts:69-101 | the recursive method, with its child loop, leaves the document and the outcome that `Reconcile.Patch` gives |
| Reconcile.PatchOldAbsent | src/index.ts:70-71 | old node falsy: `render(new)` is appended as the last child of `parent`, in one host call. The new tree is the old one with only `parent`'s child list extended. It throws exactly when the new node is absent or `parent` is not an element |
| Reconcile.PatchNewAbsent | src/index.ts:72-73 | new node falsy: exactly `parent.childNodes[index]` is removed, the rest keep their order, in one host call. The new tree is the old one with only `parent`'s child list changed. It throws exactly when that child does not exist |
| Reconcile.PatchReplaced | src/index.ts:74-75 | `diff` true: `parent.childNodes[index]` becomes `render(new)`, the child count is unchanged, in one host call. The new tree is the old one with only that child swapped. It throws exactly when that child does not exist |
| Reconcile.PatchSameText | src/index.ts:74-76 | two equal non-empty texts: nothing happens |
| Reconcile.PatchSelf | src/index.ts:69-101 | patching a tree with no empty-string text against itself makes no host call. It returns normally exactly when every parent the walk reads exists |
| Reconcile.PatchLocal | src/index.ts:69-101 | whether `patch` returns or throws, it changes the host only inside the subtree at `parent`. Nodes off that subtree, and the ancestors apart from their child on the way down, are kept |
| Reconcile.PatchChildrenLocal | src/index.ts:84-99 | the child loop changes the host only inside the subtree at `parent` |
| Reconcile.PatchChildLocal | src/index.ts:89-97 | one iteration (append to `parent`, remove from `parent`, or patch `parent.childNodes[i]`) changes the host only inside the subtree at `parent` |
| Reconcile.PatchChildrenSelf | src/index.ts:84-99 | the child loop over a list against itself makes no host call, and returns normally exactly when each child's parent path exists |
| Scenarios.UnchangedTree | src/index.ts:69-101 | `<div id="a">hi</div>` patched against itself under `body` leaves everything as it was |
| Scenarios.ChangedTextChild | src/index.ts:74-97 | `<p>x</p>` → `<p>y</p>` is compatible, keeps the `<p>` and replaces its text in one host call |
| Scenarios.AddedAttributeReplaces | src/index.ts:60 | adding an attribute makes the key counts differ, so the element is replaced in one host call |
| Scenarios.AddedAttributeUpdates | src/index.ts:103-118 | `updateAttributes` from `{id}` to `{id, class}` sets only `class`, in one host call |
| Scenarios.ShrinkingChildrenThrows | src/index.ts:92-94 | three children to one throws before any host call |
| Scenarios.CompatibleRemovesItself | src/index.ts:92-94 | `<div>a</div>` → `<div></div>` removes the `<div>` itself, in one host call |
| Scenarios.RenderedTreeSelfPatchThrows | src/index.ts:97 | a rendered tree of two `<p>` children patched against itself throws |
| StateHooks.DeclareEffect | src/index.ts:125-129 | a declaration takes the cursor's slot and leaves the cursor where it was. An occupied slot keeps its value and an empty one reads the initial value. No other slot changes and no re-render is asked for |
| StateHooks.ReadAfterWrite | src/index.ts:131-134 | the getter reads what the setter wrote, other slots are untouched, and one re-render is requested |
| StateHooks.DeclarationsShareSlot | src/index.ts:123-129 | two declarations in a row get the same slot, and the second changes nothing |
| StateHooks.RedeclareKeepsWrite | src/index.ts:122-135 | declare 0, set 1 and declare 0 again reads 1, after one re-render request |
| StateHooks.StateStore.constructor | src/index.ts:122-123 | the store starts empty with the cursor at 0 |
| StateHooks.StateStore.UseState | src/index.ts:125-129 | the live declaration does what `Declare` says |
| StateHooks.StateStore.SetState | src/index.ts:132-135 | the live setter does what `Write` says |
| StateHooks.CounterLifecycle | src/index.ts:122-135 | on a fresh store: declare, read, set, re-declare and read again gives slot 0 both times, the initial value and then the written value, and one re-render |

## Left out

- **DOM.** The DOM itself (document.createElement, createTextNode, addEventListener and the `childNodes` live list) is replaced by the value tree `HostNode` with paths as references.
- **Object identity.** Host node identity is not modelled; two equal subtrees are indistinguishable.
- **Order of host calls.** Object.keys / Object.entries order is not modelled, because props are maps. The document therefore counts host calls instead of logging them in order, and the attribute loop visits keys in any order.
- **Type coercion.**
  - `setAttribute` does not convert values to strings: a `null` prop in `render` is stored as the value `Null`.
  - Attribute names are not lower-cased.
  - `toLowerCase` on event names covers ASCII letters only.
- **Numbers.** Prop values are modelled as an abstract sum (string, integer, boolean, `null`, `undefined`, callback handle). Floating-point numbers, NaN (`NaN !== NaN`), objects and arrays are not modelled.
- **Input shapes.**
  - Props that are `null` or absent are modelled as the empty map. Every consumer in the source treats them that way.
  - A non-array `children` is not modelled, so the `[oldVNode.children]` fallback (src/index.ts:81-82) never applies.
  - Lookups that reach the prototype chain are not modelled. This covers `key in stateStore` (src/index.ts:127), and `oldProps[key]` and `oldProps?.[prop]` for a key such as `"constructor"` (src/index.ts:63, 107). A key missing from a props map always reads as `undefined`.
- **Invalid names.** `document.createElement` and `setAttribute` throw on an invalid tag or attribute name (src/index.ts:21, 27, 114). The model never throws there, and takes every tag and key as valid.
- **Event dispatch.** Listeners are recorded as (event, handle) pairs. Dispatching events is not modelled.
- **`reRender` and bootstrap.** `reRender` and the bootstrap code (src/index.ts:156-168) are not modelled. The setter's call to `reRender` is a counter of requested re-renders.
- **Demo code.** The demo component `App` and the `console.log` calls are not modelled; they are demo code and I/O.
- **Build setup.** webpack.config.js is not part of this model; it is build configuration.
- **Store keys.** `StateHooks.StateStore.UseState` keys the store by the integer cursor, where JavaScript converts it to the string `"0"`.
