# Arrow-key roving tabindex, modelled in Dafny

The library turns arrow-key presses into roving-tabindex navigation inside a
container: the container takes the tab stop (`tabIndex = 0`), its focusable
children leave the tab order (`tabIndex = -1`), and the arrow keys move an
active index among the children, with wrap-around or clamping at the ends.
This project models its core, all of it in `src/index.ts`:

- `direction.dfy` (module `Direction`): the used, previous and next key sets,
  with the reading direction as the parameter `isRtl`.
- `collector.dfy` (module `Collector`): the child-selector choice and the
  `disabled` / `aria-hidden` filter of `getKeyboardFocusableElements`, over
  the sequence of matched elements.
- `advance.dfy` (module `Advance`): `handleIndex` as the function
  `HandleIndex`, written branch for branch, and lemmas about it. These include
  reference definitions: with wrapping a step is successor or predecessor
  modulo the child count; without wrapping it is clamped to the ends.
- `configuration.dfy` (module `Configuration`): the configuration, its
  defaults and the `Object.assign` merge of partial options.
- `roving.dfy` (module `Roving`): `registerArrowControls` as the class
  `RovingController`. Its fields are the child snapshot, an array of child
  tab indices, the root's tab index, `currentIdx`, a `subscribed` flag and
  the resolved configuration. The constructor is the registration; the
  methods are the focus-in and key-down handlers and `Unsubscribe`.
- `registrar.dfy` (module `Registrar`): `withArrowControls`.
- `wrappers.dfy` (module `Wrappers`): `Option` and `Result`.

The DOM enters only as values and functions. `querySelectorAll` is a
function argument. The listener pair is the `subscribed` flag.
`root.contains(document.activeElement)` is the `activeInRoot` argument of
`KeyDown`. What `activateElement` did is returned as an `Effect`:
`Focused(i)`, `NotFocusable(i)`, or `TypeError`.

## What one might expect and what the code does (the model follows the code)

- One might expect a zero-length collection to be a no-op whatever the wrap
  flag; the code has no guard. With no children, wrapping and a previous key
  at index 0, `handleIndex` returns `0 - 1 = -1` (src/index.ts:72-73). A later
  next key with wrapping takes -1 back to 0. `Advance.EmptyCollectionAsWritten`
  states this exactly. It is why `IndexInvariant` allows 0 and -1 when there
  are no children, and why the in-range lemma `Advance.ResultInRange` requires
  at least one child.
- One might expect the controller to do nothing on an empty collection; the
  code calls `activateElement(children[currentIdx])` with `undefined`, and
  reading `focus` of `undefined` throws (src/index.ts:56, 102, 120). The model
  reports `TypeError`. `FocusIn` promises `TypeError` exactly when the root has
  no children. In `KeyDown` the index is updated before the throw.
- `aria-hidden` excludes an element whenever its value is a non-empty string,
  so `aria-hidden="false"` excludes it too (src/index.ts:51).
- `Object.assign` copies a property whose value is `undefined`. An options
  object with `wrapControls: undefined` therefore turns wrapping off, although
  the default is on. An undefined `customSelector` falls back to the default
  selector, because a default parameter applies to `undefined`
  (src/index.ts:48, 93). `Configuration.Field` models the three cases
  (omitted, undefined, given).

Two constants are part of the model without a row of their own:
`Direction.UsedKeys` is the set of four arrow keys of src/index.ts:35, and
`Configuration.DefaultConfig` is the default configuration of
src/index.ts:26-31 (wrapping, ignoreUntabbable and preventDefault on, no
custom selector).

## Model

| member | source | states |
|---|---|---|
| `Direction.PrevKeys` | src/index.ts:36-38 | the previous-key set for each direction, as written; its properties are the Direction lemmas |
| `Direction.NextKeys` | src/index.ts:39-41 | the next-key set for each direction, as written; its properties are the Direction lemmas |
| `Direction.KeySetsPartitionUsedKeys` | src/index.ts:35-41 | in either direction the previous and next keys are disjoint and together are exactly the four used arrow keys |
| `Direction.RtlMirrorsLtr` | src/index.ts:36-41 | right-to-left puts a key in the previous (next) set exactly when left-to-right puts its left/right mirror image there |
| `Direction.RtlSwapsHorizontalKeys` | src/index.ts:36-41 | ArrowLeft is previous in LTR and next in RTL; ArrowRight is next in LTR and previous in RTL |
| `Direction.VerticalKeysIgnoreDirection` | src/index.ts:36-41 | ArrowUp is always previous only, ArrowDown always next only |
| `Direction.MirrorIsInvolution` | src/index.ts:36-41 | mirroring a key twice gives it back, so the RTL/LTR correspondence holds in both directions |
| `Collector.ChildSelector` | src/index.ts:46-49 | the custom selector when one is configured, otherwise the built-in focusable-element selector |
| `Collector.Truthy` | src/index.ts:51 | an attribute read as a condition: absent (null) and the empty string are falsy, every other string is truthy |
| `Collector.Keeps` | src/index.ts:51 | the filter predicate as written: no `disabled` attribute and a falsy `aria-hidden`; its consequences are the Collector lemmas |
| `Collector.Collect` | src/index.ts:50-52 | the filter never yields more children than there are matches |
| `Collector.CollectMembership` | src/index.ts:50-52 | an element is collected exactly when it is a match and passes the filter (no `disabled`, falsy `aria-hidden`) |
| `Collector.KeptPositions` | src/index.ts:50-52 | the positions of the passing matches: in range, strictly increasing, each passing, and including every passing position |
| `Collector.CollectLength` | src/index.ts:50-52 | as many children are collected as there are passing positions |
| `Collector.CollectIsKeptSubsequence` | src/index.ts:50-52 | the k-th collected child is the match at the k-th passing position, so the result is the order-preserving subsequence of all passing matches and no others |
| `Collector.DisabledIsExcluded` | src/index.ts:51 | an element with a `disabled` attribute is never collected |
| `Collector.NonEmptyAriaHiddenIsExcluded` | src/index.ts:51 | an element whose `aria-hidden` is any non-empty string ("false" included) is never collected |
| `Advance.HandleIndex` | src/index.ts:61-88 | `handleIndex` as written, branch for branch (with the fall-through from the previous-key test to the next-key test); its result is the index, a step of one, or an end; its properties are the Advance lemmas |
| `Advance.OtherKeyKeepsIndex` | src/index.ts:67-87 | a key in neither the previous nor the next set returns the index unchanged |
| `Advance.InteriorStepsIgnoreWrap` | src/index.ts:67-70 | previous above 0 gives index - 1, and next below the last child gives index + 1, whatever the wrap flag |
| `Advance.WrapAtEnds` | src/index.ts:72-74 | with wrapping, previous at 0 gives length - 1 and next at length - 1 gives 0 |
| `Advance.ClampAtEnds` | src/index.ts:82-87 | without wrapping, previous at 0 and next at length - 1 return the index unchanged |
| `Advance.ResultInRange` | src/index.ts:61-88 | with at least one child, a child index goes to a child index |
| `Advance.PreservesIndexInvariant` | src/index.ts:61-88 | every press keeps the index a child index, or 0 or -1 when there are no children |
| `Advance.EmptyCollectionAsWritten` | src/index.ts:72-73 | with no children the result is -1 for previous+wrap at 0, 0 for next+wrap at -1, and the index itself otherwise |
| `Advance.WrappingIsModular` | src/index.ts:61-88 | with wrapping, on a valid index, next is (index + 1) mod length and previous is (index - 1) mod length |
| `Advance.ClampingIsSaturating` | src/index.ts:61-88 | without wrapping, on a valid index, next is min(index + 1, length - 1) and previous is max(index - 1, 0) |
| `Advance.WrappingPressesCycle` | src/index.ts:61-88 | with wrapping, k presses of next give (index + k) mod length and k presses of previous give (index - k) mod length |
| `Advance.ClampingPressesSaturate` | src/index.ts:61-88 | without wrapping, k presses of next stop at the last child and k presses of previous stop at the first |
| `Configuration.Merge` | src/index.ts:140 | no options give the defaults; each property the options give wins; each omitted one keeps its default; each boolean present as `undefined` is off and an undefined selector is none |
| `Configuration.MergeOfFullConfig` | src/index.ts:26-31 | merging the options that carry a complete configuration yields that configuration |
| `Configuration.EmptyOptionsGiveDefaults` | src/index.ts:26-31 | an empty options object and no options both resolve to the defaults (wrap, ignoreUntabbable and preventDefault on, no custom selector) |
| `Configuration.SingleUndefinedFlag` | src/index.ts:140 | merging `{wrapControls: undefined, preventDefault: true}` gives wrapping off and the other fields as the defaults or given values |
| `Configuration.UndefinedOverridesDefault` | src/index.ts:140 | each property present as `undefined` on its own (any of the three flags, or the selector) turns its flag off or means no custom selector, whatever the other properties are |
| `Roving.Activate` | src/index.ts:55-59 | a child index yields a focus call or a skip depending on the child's `focus` method; any other index throws |
| `Roving.RovingController.constructor` | src/index.ts:90-124 | the children are the filtered matches of the configured selector; the root's tab index is 0, every child's is -1, the index is 0 and the listeners are installed |
| `Roving.RovingController.FocusIn` | src/index.ts:101-103 | without listeners nothing runs; otherwise the child at the current index is activated, and it throws exactly when there are no children |
| `Roving.RovingController.KeyDown` | src/index.ts:105-121 | without listeners or with focus outside the root nothing changes and nothing is prevented; otherwise prevention happens iff the key is an arrow key and preventDefault is set, the index becomes `HandleIndex` of the old one, the new child is activated, and the invariant holds |
| `Roving.RovingController.Unsubscribe` | src/index.ts:126-129 | the listeners are gone and nothing else changes, so later key-downs freeze the index |
| `Roving.ThreeButtons` | src/index.ts:90-129 | three buttons: focus enters at 0, two next presses reach 2, one more wraps to 0, and after unsubscribing the index stays put |
| `Registrar.RootSelector` | src/index.ts:137 | the caller's root selector, or the default `[data-with-arrowcontrols]` |
| `Registrar.WithArrowControls` | src/index.ts:136-154 | it fails, naming the selector, exactly when no root matches; otherwise it returns one new, distinct controller per root, in root order, each freshly registered with the merged configuration |

## Left out

- CSS selector matching (`querySelectorAll`): the browser's selector engine. The matched roots and matched children are function arguments. So is the error an invalid selector would throw (an empty custom selector, for one).
- The reading-direction lookup through `getComputedStyle`: an environment read. `isRtl` is a parameter, given to every controller.
- The `focus()` call itself: a foreign DOM call. Only its outcome is modelled, as an `Effect`.
- `addEventListener`, `removeEventListener`, `root.contains(document.activeElement)` and event dispatch: event-loop plumbing. They are the `subscribed` flag and the `activeInRoot` argument. A `TypeError` thrown inside a listener is reported as an effect and does not undo the change to the index.
- The `event.preventDefault()` side effect: only the boolean decision is modelled.
- The text of the registration error: only the error and the selector it names are modelled.
- `ignoreUntabbable`: merged and carried in the configuration, but no logic reads it.
- Nested or overlapping roots: each controller owns its children's tab indices, and the children query is a fixed function of root and selector. Elements shared between roots, an inner root's `tabIndex = 0` overwriting the -1 an outer registration gave it, and the effect of one registration's tab-index writes on a later root's query (an element matched only through `[tabindex]:not([tabindex="-1"])` drops out once set to -1) are not modelled.
- Setting `tabIndex` on a matched element that is not an `HTMLElement`: every collected child is modelled as having a tab index.
