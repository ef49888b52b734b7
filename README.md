# simple-json-viewer in Dafny

This project models the two web components of simple-json-viewer and proves
what they promise.

- **`json-collapse`** is a collapsible section. It has two boolean properties, `expand` and `freeze`. Its one transition, `_handleClick`, is reached from a click and from the Enter and Space keys. Its presentation is a pure function of the two properties.
- **`json-viewer`** is a recursive viewer. It classifies its bound `data` in a fixed order and renders primitive leaves. For an array or a plain object it renders one `json-collapse` per entry of `Object.entries`. The sections and child viewers of composite entries are recorded in two registries. `expandAll`, `collpaseAll` and `disconnectedCallback` work on those registries.

Files:

- `wrappers.dfy`: `Option`.
- `value.dfy` (module `JsonValue`): the JavaScript values a viewer can be bound to, as an inductive datatype, so every value is acyclic. It also has `typeof`, `Array.isArray`, the viewer's `isObject` test and `Object.entries`, with array index keys in canonical decimal form.
- `json_collapse.dfy` (module `JsonCollapse`):
  - the section's state machine as pure functions over `State`, with its event log;
  - the `render` presentation as a record;
  - the `Collapse` class, whose methods are proved against those functions.
    - `freeze` is a `const`: the parent binds it at creation and no method writes it.
    - The `change` events are a ghost log of their `detail.expand` values.
- `json_viewer.dfy` (module `JsonViewer`): two parts.
  - **Pure.** `render`, `renderObject`'s per-entry mapping and `renderString` as functions returning view descriptors. URL parsing is passed in as a predicate `canParse`.
  - **Imperative.** The `Viewer` class with the `_collapseSet` and `_subViewer` registries, plus ghost footprints that make the registries a tree:
    - `Repr`: the viewers below;
    - `Collapses`: every section reached through the registries;
    - `Frozen`: the frozen wrappers.

`Mount` models the first rendering of a viewer:

- for each primitive entry, a frozen section whose open and close slots each hold an inline viewer of the entry value;
- for each composite entry, a live section and a child viewer that mounts its own subtree, and the two `ref` callbacks that register them. The model runs the callbacks after the child has mounted, which simplifies Lit's order (see "Left out").

`Mount` returns the registered sections and child viewers as ghost lists in entry order. The registries hold exactly the listed elements, and there is one per composite entry, so no element is listed twice. The `k`-th child viewer is bound to the value of the `k`-th composite entry.

What the code does that a reader might not expect:

- An empty array or object renders an empty object view. There is no bracket pair.
- The collapsed placeholder is `[...]` or `{...}`, chosen by the kind of the *holding* composite. It is never an item count.
- The close slot of a live section shows only the key; the child viewer sits in the default (body) slot.
- Every primitive entry is wrapped in a frozen section.
- Re-rendering only ever adds to the registries (the `ref` callbacks add and never remove).

`ExpandAll` and `CollpaseAll` fix the final `expand` of every reachable section and change nothing else: their frame is `Collapses`expand`. So a second call finds every section already in its target state and leaves the state as the first call did. That makes both idempotent. After `DisconnectedCallback`, `Collapses` is empty, so a later call may modify nothing. `ExpandAllAgain` and `CollpaseAllAgain` state idempotence as contracts: started from the state one call leaves, a second call changes no section. `BulkAfterDisconnect` states the last fact.

## Model

| member | source | states |
|---|---|---|
| JsonValue.TypeOf | src/json-viewer.ts:31-42 | `typeof` answers "object" exactly for null, arrays and objects, and the primitive tags exactly for their kinds |
| JsonValue.IsObject | src/json-viewer.ts:100 | `x !== null && typeof x === "object"` holds exactly of arrays and objects, so arrays count as composite |
| JsonValue.IndexKey | src/json-viewer.ts:103 | an array index key is a non-empty digit string with no leading zero unless the index is 0 |
| JsonValue.ParseIndexKey | src/json-viewer.ts:103 | reading an index key back yields the index (round trip) |
| JsonValue.IndexKeyInjective | src/json-viewer.ts:103 | two indices have the same key exactly when they are equal |
| JsonValue.IsArray | src/json-viewer.ts:29 | an array is also an object to `typeof` and is not null, which is why `render` tests for arrays first |
| JsonValue.Entries | src/json-viewer.ts:103 | `Object.entries` of an array pairs each index key with its element, in order, and of an object gives its own entries; the viewer asks only composites for their entries, and the model gives the empty list for any other value |
| JsonValue.Children | src/json-viewer.ts:103 | the entry values, one per entry and in entry order, each strictly inside the composite; a non-composite value has none |
| JsonValue.ArrayKeysDistinct | src/json-viewer.ts:103 | the entries of an array have pairwise distinct keys |
| JsonValue.EntryValueSmaller | src/json-viewer.ts:103-143 | every entry value is strictly inside its composite, so the recursion through child viewers terminates |
| JsonViewer.Render | src/json-viewer.ts:27-43 | a value renders as an object view exactly when it is an array or an object, and as the null, string, number or boolean leaf exactly when it is of that kind, with every other value rendering as the undefined leaf. |
| JsonViewer.CssClass | src/json-viewer.ts:45-102 | a view's CSS class is one of the six the viewer uses, and it is `object` exactly for object views |
| JsonViewer.CssClassFollowsTypeOf | src/json-viewer.ts:27-102 | a rendered value's class is `object` for arrays and objects, `null` for null, the `typeof` tag for strings, numbers and booleans, and `undefined` for everything else |
| JsonViewer.Placeholder | src/json-viewer.ts:116-120 | the placeholder is five characters with `...` in the middle, bracketed by `[` `]` exactly for an array and by braces otherwise |
| JsonViewer.RenderObject | src/json-viewer.ts:99-146 | exactly one item per entry, in entry order, each the rendering of that entry |
| JsonViewer.RenderEntry | src/json-viewer.ts:103-143 | a composite entry gets a live registered section (key plus placeholder when open, key when closed, child viewer of the value in the body); a primitive entry gets a frozen unregistered section with the same key-plus-inline-viewer content in both slots and no body |
| JsonViewer.RenderString | src/json-viewer.ts:53-72 | the text is always shown, and it is a link to itself exactly when `canParse` accepts it |
| JsonViewer.StringClassIgnoresUrl | src/json-viewer.ts:63-71 | a string renders under the `string` class whether or not it is a link |
| JsonViewer.EmptyCompositeHasNoItems | src/json-viewer.ts:102-145 | `[]` and `{}` render no section at all |
| JsonViewer.PlaceholderFromParent | src/json-viewer.ts:113-122 | the open slot of a composite entry depends on the holding composite's kind only, not on the entry value's kind |
| JsonViewer.Displayed | src/json-collapse.ts:136-145 | a collapsed section shows its open slot and no body; an expanded one shows its close slot and its body |
| JsonViewer.PrimitiveEntryIgnoresExpand | src/json-viewer.ts:135-141 | a primitive entry displays the same content whatever its `expand`, with the marker hidden |
| JsonViewer.CompositeEntryToggles | src/json-viewer.ts:106-134 | a composite entry shows key and placeholder while collapsed, and key and child viewer while expanded |
| JsonViewer.ExampleObject | src/json-viewer.ts:27-146 | `{"a": 1, "b": [1, 2], "c": null}` renders as three sections in order: frozen, live (an array of two number leaves) and frozen (the null leaf) |
| JsonViewer.RegisteredFrom | src/json-viewer.ts:103-143 | from any entry on, the registered items counted along the view equal the composite entries counted along the value |
| JsonViewer.RegisteredMatchesRender | src/json-viewer.ts:102-145 | the view has as many registered sections as the value has composite entries, and a non-composite value has none |
| JsonViewer.Viewer.constructor | src/json-viewer.ts:25-83 | a new viewer is bound to its value and both registries are empty |
| JsonViewer.Viewer.RefCollapse | src/json-viewer.ts:109-111 | the section callback adds a non-null element to `_collapseSet` and nothing else; re-adding an element already present changes nothing |
| JsonViewer.Viewer.RefSubViewer | src/json-viewer.ts:129-131 | the viewer callback adds a non-null element to `_subViewer` and nothing else; re-adding changes nothing |
| JsonViewer.Viewer.Register | src/json-viewer.ts:104-133 | the two callbacks of one composite entry add its section and child viewer to the registries and keep the registry tree valid and free of frozen sections |
| JsonViewer.Viewer.Mount | src/json-viewer.ts:99-146 | the registries hold exactly the returned lists of sections and child viewers, one of each per composite entry; the `k`-th child viewer is bound to the `k`-th composite entry's value; and the sections reached through the tree, one per composite value nested anywhere in `data`, avoid every section the caller names |
| JsonViewer.Viewer.MountEntry | src/json-viewer.ts:103-143 | a composite entry appends one new section and one new child viewer to the lists, leaving the earlier elements in place, and a primitive entry leaves the lists and registries as they were |
| JsonViewer.Viewer.MountPrimitive | src/json-viewer.ts:135-142 | a primitive entry adds exactly one new frozen section to `Frozen`, registers nothing and leaves the tree valid |
| JsonViewer.Viewer.MountComposite | src/json-viewer.ts:106-134 | a composite entry registers one new section and one new child viewer bound to the entry value, keeps every earlier registry member, and adds exactly that section and the child's subtree to the reached sections |
| JsonViewer.MountViewer | src/json-viewer.ts:126-132 | a child viewer is created fresh, bound to the entry value and mounted, with one reached section per composite value inside it |
| JsonViewer.MountSection | src/json-viewer.ts:106-134 | the live section is fresh, not frozen, and distinct from every section of the child's subtree |
| JsonViewer.ListedComposite | src/json-viewer.ts:103-134 | rendering a composite entry extends the registries and the lists by its section and child viewer, and the reached sections by that section's subtree |
| JsonViewer.ListedPrimitive | src/json-viewer.ts:135-142 | rendering a primitive entry leaves the registries, the lists and the reached sections as they were |
| JsonViewer.ListedComplete | src/json-viewer.ts:102-145 | once every entry is rendered, the registries match the lists, their size is the number of composite entries, and the reached sections number one per nested composite value |
| JsonViewer.CompositeChildrenCount | src/json-viewer.ts:103-143 | the composite entries before entry `n` and those from `n` on together make up all composite entries |
| JsonViewer.NoRepeats | src/json-viewer.ts:109-131 | a list with as many distinct elements as positions repeats none, so each registered element is listed once |
| JsonViewer.Viewer.ExpandAll | src/json-viewer.ts:90-93 | afterwards every section reachable through the registries is expanded, no section's event log changes, and every frozen section keeps its `expand` |
| JsonViewer.Viewer.ExpandRegistered | src/json-viewer.ts:91 | every section of `_collapseSet` is expanded |
| JsonViewer.Viewer.ExpandSubViewers | src/json-viewer.ts:92 | every section below every child viewer is expanded, and no section that was expanded is collapsed |
| JsonViewer.Viewer.ExpandAllAgain | src/json-viewer.ts:90-93 | when every reachable section is already expanded, as one `expandAll` leaves them, another call changes no section and emits nothing |
| JsonViewer.Viewer.CollpaseAll | src/json-viewer.ts:94-97 | afterwards every reachable section is collapsed, no event is emitted, and frozen sections keep their `expand` |
| JsonViewer.Viewer.CollapseRegistered | src/json-viewer.ts:95 | every section of `_collapseSet` is collapsed |
| JsonViewer.Viewer.CollapseSubViewers | src/json-viewer.ts:96 | every section below every child viewer is collapsed, and no collapsed section is expanded |
| JsonViewer.Viewer.CollpaseAllAgain | src/json-viewer.ts:94-97 | when every reachable section is already collapsed, as one `collpaseAll` leaves them, another call changes no section and emits nothing |
| JsonViewer.Viewer.DisconnectedCallback | src/json-viewer.ts:85-89 | both registries are empty and nothing is reachable any more, so later bulk operations may modify nothing |
| JsonViewer.Viewer.BulkAfterDisconnect | src/json-viewer.ts:85-97 | after `disconnectedCallback`, `expandAll` and `collpaseAll` change no section that was registered before and no frozen section |
| JsonCollapse.AfterClick | src/json-collapse.ts:149-157 | a toggle keeps `freeze` and only appends to the event log, by one event exactly when the section is live |
| JsonCollapse.AfterKey | src/json-collapse.ts:123-128 | a key keeps `freeze` and only appends to the event log, by at most one event |
| JsonCollapse.FrozenIsFixed | src/json-collapse.ts:149-150 | on a frozen section a click or a key changes nothing and emits nothing |
| JsonCollapse.ClickEmitsOne | src/json-collapse.ts:151-156 | on a live section a toggle flips `expand`, keeps `freeze`, and appends exactly one event carrying the new `expand` |
| JsonCollapse.ClickTwice | src/json-collapse.ts:151-156 | two toggles restore `expand` and emit two events with opposite payloads |
| JsonCollapse.KeyIsOneClick | src/json-collapse.ts:123-128 | Enter and Space toggle exactly once, every other key does nothing, and `freeze` never changes |
| JsonCollapse.Render | src/json-collapse.ts:104-147 | the close slot, the body, `toggleActive` and the rotated marker appear exactly when expanded, and the marker is hidden and `toggleFreeze` set exactly when frozen |
| JsonCollapse.AriaExpandedReadsBack | src/json-collapse.ts:121 | the `aria-expanded` attribute reads back as the `expand` value |
| JsonCollapse.RenderInjective | src/json-collapse.ts:104-147 | two states render alike only when they are equal |
| JsonCollapse.Collapse.constructor | src/json-collapse.ts:22-24 | a new section is collapsed, not frozen, and has emitted nothing |
| JsonCollapse.Collapse.Frozen | src/json-collapse.ts:22-24 | a section whose parent binds `freeze`, as the viewer does for primitive entries, starts collapsed with no events |
| JsonCollapse.Collapse.HandleClick | src/json-collapse.ts:149-157 | the new state is the toggle of the old one: unchanged when frozen, otherwise flipped with one event appended |
| JsonCollapse.Collapse.Click | src/json-collapse.ts:113 | a click is exactly one toggle |
| JsonCollapse.Collapse.KeyDown | src/json-collapse.ts:123-128 | `preventDefault` happens and one toggle is made exactly for Enter and Space, and for other keys nothing changes |

## Left out

- Lit templating, shadow DOM, slots as DOM nodes, CSS and re-render scheduling. Views are pure descriptors, and registration is explicit.
- `URL.canParse` and the `new URL` fallback: the result of URL parsing is the parameter `canParse`.
- The attribute converter built on `JSON.parse` and `JSON.stringify` (src/json-viewer.ts:19-24).
- Number display: `Num` carries an `int`, and JavaScript's float formatting is not modelled.
- `CustomEvent` dispatch: a `change` event is an entry in a ghost log holding its `detail.expand`.
- The unused `renderArray` (src/json-viewer.ts:148-150). The `.hideMarkder` binding (src/json-viewer.ts:108) targets a property the section does not declare, so it has no effect.
- Re-rendering and re-binding `data`: a viewer is bound once (`data` is a `const`) and mounted once. Registry entries that a later render would leave stale are not modelled.
- The browser's reaction to `preventDefault`: the model records only whether it was called.
- The order `Object.entries` gives an object's keys, and duplicate keys (an object's entries are given as a sequence).
- The two inline viewers of a primitive entry are created and mounted but not tracked in any footprint.
- The order of the `ref` callbacks is simplified. Lit calls them while committing the parent's template, before a child viewer renders; the model registers a section and its child viewer after the child has mounted. No observable state depends on the difference, because nothing reads the registries during a render.
- `disconnectedCallback` cascading to descendants: when a viewer leaves the document, the browser also calls the callback on every viewer below it, which empties their registries. The model's `DisconnectedCallback` empties only the viewer it is called on.
- Concurrency and event loop interleavings: the components are single-threaded and synchronous.
- Cyclic values: an inductive datatype cannot express them.
- JsonViewer.Viewer.Mount: it does not restate that every new section starts collapsed; `JsonCollapse.Collapse.constructor` and `JsonCollapse.Collapse.Frozen` state that. It states that the reached sections avoid every section the caller names, rather than that they are newly allocated; `MountComposite` and `MountSection` state freshness for each section and child viewer they create. As a consequence, a caller that creates a viewer, mounts it and then calls `ExpandAll` on it cannot show that the call stays inside the caller's own `modifies` frame; the sequence composes only for a viewer the caller was given.
