# Dialog host focus trap

A Dafny model of `DialogHostComponent`, the overlay that hosts the Bot
Framework Emulator's active dialog. The component's logic has four parts.

- Render mapping. The store's `showing` flag decides the overlay's class name and the tab index of the two focus sentinels. The sentinels are invisible elements placed before and after the content mount node.
- Dismiss dispatch. A click on the overlay asks the dialog service to hide the dialog. A click inside the content stops propagating before it reaches the overlay.
- Host recording. The content mount node is handed to the dialog service and also kept in the component's `_hostRef` field.
- Focus trap. This covers the focusable set (host descendants matching `[tabIndex]:not([tabIndex="-1"])`), initial focus on content render, and wrap-around when either sentinel receives focus. The wrap skips disabled elements.

Files:

- `dom.dfy` (module `Dom`) models the part of the DOM the trap looks at. An element is reduced to its optional `tabIndex` attribute text and a `disabled` flag. The host node is a class, a live node whose `descendants` field (in document order) changes when content is mounted into it, so every holder of the reference sees the current content. An event is reduced to its two flags. The selector query is a pure filter, and lemmas show it is the ordered subsequence of matching descendants.
- `focus_trap.dfy` (module `FocusTrap`) holds the sentinel targets. `LastEnabled` and `FirstEnabled` are specification functions whose contracts pin down the chosen index. The methods `StartSentinelTarget` and `EndSentinelTarget` are the source's two `for` loops with the early `break`, proved equal to those functions.
- `dialog_host.dfy` (module `DialogHost`) holds the render mapping, `mapStateToProps`, and the outbound side of the dialog service as a small class. It also holds the component as a class with fields `hostRef` and `focusedIndex`. Its handlers are methods whose `modifies` clauses name exactly the state they touch. The walk-through methods at the end follow the source's order (the ref callback hands over the empty node, the service mounts content into it, then the trap initialises) and derive the focus outcomes from the contracts alone.

Focus is modelled as `focusedIndex`: the index, within the focusable set computed by the handler, of the element the component last called `focus()` on. "Focus unchanged" means the field keeps its old value.

`setHost` is called from the mount node's `ref` callback (host.tsx:97, 114-117), so it runs when the node is attached (with the node) and when it is detached (with `null`), not on every render. `SaveHostRef` therefore takes a nullable node.

## Model

| member | source | states |
|---|---|---|
| `DialogHost.Render` | packages/app/client/src/ui/dialogs/host.tsx:89-99 | Sentinel tab index is 0 when showing and -1 otherwise. The overlay class always starts with the style class plus ` dialog-host-overlay`. It ends with ` dialog-host-visible` exactly when showing, and its length is that prefix's plus the visible suffix's when showing and the prefix's alone otherwise, so the class is exactly the prefix when hidden and the prefix plus ` dialog-host-visible` when showing. |
| `DialogHost.TabIndexAttributeIsMinusOne` | packages/app/client/src/ui/dialogs/host.tsx:96-99 | The attribute text React writes for a numeric tab index is `"-1"` exactly when the number is -1. |
| `DialogHost.SentinelsTabbableIffShowing` | packages/app/client/src/ui/dialogs/host.tsx:91-92 | A rendered sentinel matches the focusable selector, so it is in the tab sequence, if and only if `showing` holds. |
| `DialogHost.MapStateToProps` | packages/app/client/src/ui/dialogs/host.tsx:181-183 | The props hold exactly one field, `showing`, equal to `state.dialog.showing`. |
| `DialogHost.MapStateToPropsReadsOnlyShowing` | packages/app/client/src/ui/dialogs/host.tsx:181-183 | Two store states with the same `dialog.showing` give the same props, so nothing else in the store is read. |
| `DialogHost.DialogService.SetHost` | packages/app/client/src/ui/dialogs/host.tsx:115 | Records the node the host hands over and changes nothing else in the service. |
| `DialogHost.DialogService.MountContent` | packages/app/client/src/ui/dialogs/host.tsx:97 | Stand-in for the service mounting dialog markup into the node it was handed: that node's descendants become the given content, and the component sees them through its own reference to the same node. |
| `DialogHost.DialogService.HideDialog` | packages/app/client/src/ui/dialogs/host.tsx:106 | Counts exactly one more hide request and leaves the recorded host alone. |
| `DialogHost.DialogHostComponent.constructor` | packages/app/client/src/ui/dialogs/host.tsx:79-83 | A new component has no host reference and has focused nothing. |
| `DialogHost.DialogHostComponent.FocusableElementsInModal` | packages/app/client/src/ui/dialogs/host.tsx:119-124 | With no recorded host the focusable set is empty. This is an assumption standing in for `new NodeList()`. Otherwise the set is the selector query over the recorded node's current descendants, read through the reference at call time. |
| `DialogHost.DialogHostComponent.SaveHostRef` | packages/app/client/src/ui/dialogs/host.tsx:114-117 | Afterwards both the service's host and the component's host reference are the given node (the same object, or both `null`). Focus and the hide count are untouched. |
| `DialogHost.DialogHostComponent.HandleOverlayClick` | packages/app/client/src/ui/dialogs/host.tsx:104-107 | Stops propagation and makes exactly one hide request. |
| `DialogHost.DialogHostComponent.HandleContentClick` | packages/app/client/src/ui/dialogs/host.tsx:109-112 | Stops propagation. Its frame excludes the service, so it makes no hide request. |
| `DialogHost.DialogHostComponent.Click` | packages/app/client/src/ui/dialogs/host.tsx:95-99 | A click bubbling up to the overlay makes zero hide requests when it lands in the content. Landing anywhere else in the overlay (backdrop or either sentinel) makes exactly one. |
| `DialogHost.DialogHostComponent.InitFocusTrap` | packages/app/client/src/ui/dialogs/host.tsx:126-132 | A non-empty focusable set sends focus to index 0, whether or not that element is disabled. An empty set leaves focus unchanged. The host reference is untouched. |
| `DialogHost.DialogHostComponent.OnFocusStartingSentinel` | packages/app/client/src/ui/dialogs/host.tsx:135-155 | Always prevents the default. Focus moves to the greatest non-disabled index, or stays as it was when every element is disabled, the set is empty, or no host is recorded. Any focus change lands on a valid, non-disabled index. |
| `DialogHost.DialogHostComponent.OnFocusEndingSentinel` | packages/app/client/src/ui/dialogs/host.tsx:158-178 | Always prevents the default. Focus moves to the smallest non-disabled index, or stays as it was when every element is disabled, the set is empty, or no host is recorded. Any focus change lands on a valid, non-disabled index. |
| `DialogHost.ThreeElementSelection` | packages/app/client/src/ui/dialogs/host.tsx:119-178 | Worked example: content holding three tabbable elements with distinct `tabIndex` texts and one with `tabIndex="-1"` yields those three as the focusable set. in document order. The backward target is index 2 and the forward target is index 0. |
| `DialogHost.DisabledSelection` | packages/app/client/src/ui/dialogs/host.tsx:138-154 | Worked example: for [A, B(disabled), C(disabled)] the focusable set is all three and the backward target is A. A lone disabled element has no target in either direction. |
| `FocusTrap.LastEnabled` | packages/app/client/src/ui/dialogs/host.tsx:138-154 | The greatest index whose element is not disabled: in range, not disabled, and every later element disabled. `None` exactly when every element is disabled, including the empty set. |
| `FocusTrap.FirstEnabled` | packages/app/client/src/ui/dialogs/host.tsx:161-177 | The smallest index whose element is not disabled: in range, not disabled, and every earlier element disabled. `None` exactly when every element is disabled. |
| `FocusTrap.SentinelTargetsAgree` | packages/app/client/src/ui/dialogs/host.tsx:135-178 | The two sentinels find a target in the same cases, and the forward target never comes after the backward one. |
| `FocusTrap.StartSentinelTarget` | packages/app/client/src/ui/dialogs/host.tsx:139-153 | Picks the last element, or scans backward from `length - 2` with an early exit. Proved to return `LastEnabled` of the set. For a single disabled element the loop body never runs and the result is `None`. |
| `FocusTrap.EndSentinelTarget` | packages/app/client/src/ui/dialogs/host.tsx:162-176 | Picks the first element, or scans forward from index 1 with an early exit. Proved to return `FirstEnabled` of the set. |
| `Dom.QueryFocusable` | packages/app/client/src/ui/dialogs/host.tsx:121 | Every kept element has a `tabIndex` attribute whose text is not `"-1"`. Every matching descendant is kept. The result is no longer than the input. |
| `Dom.QueryFocusableIsOrderedSubsequence` | packages/app/client/src/ui/dialogs/host.tsx:121 | The query's result is the descendants at strictly increasing positions, in document order, and no matching position is missed. |
| `Dom.QueryFocusablePicksAtIndices` | packages/app/client/src/ui/dialogs/host.tsx:121 | The k-th element of the result is the descendant at the k-th selected position. |
| `Dom.FocusableIndicesIncreasing` | packages/app/client/src/ui/dialogs/host.tsx:121 | Selected positions strictly increase, so document order is kept. |
| `Dom.FocusableIndicesCover` | packages/app/client/src/ui/dialogs/host.tsx:121 | Every position of a matching descendant is selected. |
| `Dom.QueryFocusableAppend` | packages/app/client/src/ui/dialogs/host.tsx:121 | Querying a concatenation gives the concatenation of the two queries, so the query works element by element and keeps order. |
| `Dom.QueryFocusableIdempotent` | packages/app/client/src/ui/dialogs/host.tsx:121 | Querying the query's own result gives that result back. |

## Left out

- `packages/sdk/ui-react/src/widget/modal.tsx` is not part of this model. It only passes configuration to a third-party dialog and loads a theme. Its one expression of logic is the `maxWidth` default of 420.
- The glamor style objects (host.tsx:45-76) are styling only. The generated class name of the overlay rule enters `Render` as the parameter `cssClass`. The pointer-events rule tied to `dialog-host-visible` is not modelled beyond the class name.
- React wiring is not modelled. This covers `componentDidMount` registering the `dialogRendered` listener, JSX element creation, and `connect`. The "content rendered" signal is an ordinary call of `InitFocusTrap`. `SaveHostRef` stands for the ref callback.
- The dialog service internals are not shown in the source. `DialogService` only records the host it receives, counts hide requests, and can mount content into the recorded node (`MountContent`). The real `hideDialog` flips the store's flag, which this model does not follow.
- Real DOM focus is abstracted to `focusedIndex`. The model does not capture that a browser ignores `focus()` on a disabled form control, or that focus can change outside the component. `InitFocusTrap` sets index 0 even when that element is disabled, as the source's call does.
- `querySelectorAll` matching is abstracted to an exact text comparison of the attribute value with `"-1"`. The node's descendants are a sequence of element values in document order: content changes only as a whole, through `HostNode.ReplaceChildren`, and an attribute of an element already mounted cannot change on its own.
- With no recorded host the source evaluates `new NodeList()`, which browsers reject as an illegal constructor. The model assumes the evidently intended empty set.
- `preventDefault` is recorded as a flag on the event. Its effect on a focus event in a real browser is not modelled.
