# Table-of-contents layout observers, modelled in Dafny

The table-of-contents tests of the Carbon for IBM.com web components replace the
browser's `ResizeObserver` and `IntersectionObserver` with mocks. Those mocks are
a small registry:

- every observer instance keeps the set of elements it observes;
- each of the two subclasses keeps its own static registry (`_instances`) of the
  instances that currently observe something;
- `observe`, `unobserve` and `disconnect` update both structures in place;
- `instanceOptions` lists the options of the registered instances;
- `run` hands one synthetic entry to every registered instance that observes a
  given element.

The same tests also state what the table-of-contents navigator must do:

- which targets it harvests from the slotted anchors, with what titles and link
  fragments;
- which anchor becomes active when several intersect;
- which `rootMargin` it gives its intersection observer once the mobile control
  reports its height.

The project has four modules:

- `Collections` (collections.dfy): `Option`, and the insertion-ordered sets that
  JavaScript's `Set` provides, kept as sequences without duplicates.
- `LayoutObservers` (layout_observers.dfy): the mock, as two classes.
  - `ObserverClass` is the static side of one subclass: its kind and its
    registry, kept in insertion order.
  - `LayoutObserver` is one instance: the subclass it belongs to
    (`this.constructor`), its callback, its options and its observed elements.
  - `Valid()` states the registry invariant: an instance is registered exactly
    when it observes something, and only in its own subclass's registry.
  - `run` does not call callbacks. It returns the callback invocations it makes
    (`Notification` records), and it modifies nothing.
- `TocRules` (toc_rules.dfy): the navigator rules the tests assert, as pure
  functions:
  - trimming;
  - harvesting targets from a tree of nodes;
  - choosing the first intersecting target;
  - the desktop and mobile presentations of that choice;
  - the margin string, with a parser that reads it back.
- `TocScenarios` (toc_scenarios.dfy): the harvesting, intersection and
  mobile-resize test cases, replayed against the model.

## Model

| member | source | states |
|---|---|---|
| Collections.Added | packages/web-components/src/components/table-of-contents/__tests__/table-of-contents.test.ts:69-70 | `Set.add`: the element is present afterwards and nothing else is added; an element already present leaves the set and its order unchanged; a new one goes to the end; no duplicates are introduced |
| Collections.Without | packages/web-components/src/components/table-of-contents/__tests__/table-of-contents.test.ts:77-79 | `Set.delete`: exactly the given element is gone, all others stay; deleting an absent element is a no-op; one fewer element when it was present; no duplicates are introduced |
| Collections.WithoutKeepsOrder | packages/web-components/src/components/table-of-contents/__tests__/table-of-contents.test.ts:77-79 | `Set.delete` of the element at position `k` cuts it out there: the result is the elements before `k` followed by those after it, so the remaining elements keep their insertion order, which is the registration order `instanceOptions` and `run` follow after an `unobserve` or `disconnect` |
| Collections.WithoutOnly | packages/web-components/src/components/table-of-contents/__tests__/table-of-contents.test.ts:77-79 | deleting the only element a set holds leaves it empty |
| LayoutObservers.ObserverClass.constructor | packages/web-components/src/components/table-of-contents/__tests__/table-of-contents.test.ts:98 | each subclass's registry starts as an empty set of its own and satisfies the registry invariant |
| LayoutObservers.ObserverClass.Valid | packages/web-components/src/components/table-of-contents/__tests__/table-of-contents.test.ts:42-47 | the registry invariant: the registry holds each instance once, only instances of its own subclass, and an instance exactly when that instance observes at least one element |
| LayoutObservers.LayoutObserver.Valid | packages/web-components/src/components/table-of-contents/__tests__/table-of-contents.test.ts:70 | the instance belongs to the subclass whose registry it joins (`this.constructor`), and that registry's invariant holds |
| LayoutObservers.ObserverClass.InstanceOptions | packages/web-components/src/components/table-of-contents/__tests__/table-of-contents.test.ts:86-88 | one options record per registered instance, in registration order, each that instance's options |
| LayoutObservers.InstanceOptionsExact | packages/web-components/src/components/table-of-contents/__tests__/table-of-contents.test.ts:86-88 | the list has one entry per instance of the subclass that observes something; every such instance's options appear in it; every entry is the options of such an instance |
| LayoutObservers.LayoutObserver.constructor | packages/web-components/src/components/table-of-contents/__tests__/table-of-contents.test.ts:49-54 | keeps the callback; copies the given options, or keeps the empty record when none are given; observes nothing and is not registered; the registry invariant still holds |
| LayoutObservers.LayoutObserver.Observe | packages/web-components/src/components/table-of-contents/__tests__/table-of-contents.test.ts:68-71 | the element joins the observed set; the instance is in its own subclass's registry, added at the end unless already there; observing twice changes nothing; only this instance and its own registry change; the invariant is kept |
| LayoutObservers.LayoutObserver.Unobserve | packages/web-components/src/components/table-of-contents/__tests__/table-of-contents.test.ts:76-81 | the element leaves the observed set; the instance leaves its registry exactly when the set becomes empty, otherwise the registry is unchanged; an absent element is harmless; the invariant is kept |
| LayoutObservers.LayoutObserver.Disconnect | packages/web-components/src/components/table-of-contents/__tests__/table-of-contents.test.ts:59-63 | unobserves every element observed on entry: afterwards the instance observes nothing and its registry equals the old one with this instance deleted (so a second call changes nothing); the invariant is kept |
| LayoutObservers.Notifications | packages/web-components/src/components/table-of-contents/__tests__/table-of-contents.test.ts:106-118 | every invocation goes to a registered instance that has a callback and observes the element, with that callback and exactly one entry for the element carrying the payload |
| LayoutObservers.ObserverClass.Deliver | packages/web-components/src/components/table-of-contents/__tests__/table-of-contents.test.ts:106-118 | the loop over the registry makes exactly the invocations `Notifications` describes, in registration order, and modifies nothing |
| LayoutObservers.ObserverClass.RunResize | packages/web-components/src/components/table-of-contents/__tests__/table-of-contents.test.ts:105-119 | `MockResizeObserver.run`: the invocations `Notifications` describes, each entry carrying the content rectangle; no state changes |
| LayoutObservers.ObserverClass.RunIntersection | packages/web-components/src/components/table-of-contents/__tests__/table-of-contents.test.ts:137-151 | `MockIntersectionObserver.run`: the invocations `Notifications` describes, each entry carrying the intersecting flag; no state changes |
| LayoutObservers.NotificationsReachAll | packages/web-components/src/components/table-of-contents/__tests__/table-of-contents.test.ts:105-119 | a registered instance is notified if and only if it has a callback and observes the element |
| LayoutObservers.NotificationsOncePerInstance | packages/web-components/src/components/table-of-contents/__tests__/table-of-contents.test.ts:106 | no instance is notified twice by one run, because the registry holds each instance once |
| LayoutObservers.NotificationsOfOne | packages/web-components/src/components/table-of-contents/__tests__/table-of-contents.test.ts:137-151 | a run over a registry holding one instance that observes the element gives exactly one invocation, to that instance |
| LayoutObservers.RegistriesDisjoint | packages/web-components/src/components/table-of-contents/__tests__/table-of-contents.test.ts:94-129 | the resize registry and the intersection registry never share an instance |
| TocRules.TrimStart | packages/web-components/src/components/table-of-contents/__tests__/table-of-contents.test.ts:235 | the result is a suffix of the input; everything dropped is whitespace; the result does not start with whitespace |
| TocRules.TrimEnd | packages/web-components/src/components/table-of-contents/__tests__/table-of-contents.test.ts:235 | the result is a prefix of the input; everything dropped is whitespace; the result does not end with whitespace |
| TocRules.Trim | packages/web-components/src/components/table-of-contents/__tests__/table-of-contents.test.ts:235 | `trim()`: the result has no whitespace at either end and is no longer than the input |
| TocRules.TrimIsSlice | packages/web-components/src/components/table-of-contents/__tests__/table-of-contents.test.ts:235 | the result is a contiguous slice of the input, and everything before and after that slice is whitespace |
| TocRules.TrimKeepsTrimmed | packages/web-components/src/components/table-of-contents/__tests__/table-of-contents.test.ts:235 | a string without whitespace at either end is left unchanged |
| TocRules.TrimIdempotent | packages/web-components/src/components/table-of-contents/__tests__/table-of-contents.test.ts:235 | trimming twice is trimming once |
| TocRules.Hash | packages/web-components/src/components/table-of-contents/__tests__/table-of-contents.test.ts:234 | a link's fragment is `#` followed by exactly the target name |
| TocRules.TitleOf | packages/web-components/src/components/table-of-contents/__tests__/table-of-contents.test.ts:257-297 | a non-empty `data-title` is the title; otherwise the title is exactly the trimmed text content, which `Trim` and `TrimIsSlice` characterise |
| TocRules.TextOf | packages/web-components/src/components/table-of-contents/__tests__/table-of-contents.test.ts:235 | `textContent` of one node: the text of every descendant text node in document order |
| TocRules.TextOfAll | packages/web-components/src/components/table-of-contents/__tests__/table-of-contents.test.ts:235 | `textContent` of a list of nodes: their texts concatenated in document order |
| TocRules.HarvestNode | packages/web-components/src/components/table-of-contents/__tests__/table-of-contents.test.ts:299-341 | the targets of one node, depth first: a named anchor contributes its name and title, then the targets of its descendants; see `HarvestNodeCount` |
| TocRules.Harvest | packages/web-components/src/components/table-of-contents/__tests__/table-of-contents.test.ts:215-255 | the targets of the slotted nodes in document order; `HarvestCount`, `HarvestConcat` and `HarvestWrapped` state its properties |
| TocRules.HarvestCount | packages/web-components/src/components/table-of-contents/__tests__/table-of-contents.test.ts:215-255 | harvesting gives exactly one target per named anchor, at any depth |
| TocRules.HarvestNodeCount | packages/web-components/src/components/table-of-contents/__tests__/table-of-contents.test.ts:299-341 | one node, with its descendants, gives exactly one target per named anchor it holds |
| TocRules.HarvestConcat | packages/web-components/src/components/table-of-contents/__tests__/table-of-contents.test.ts:215-255 | harvesting keeps document order: two stretches of markup give the first stretch's targets followed by the second's |
| TocRules.HarvestWrapped | packages/web-components/src/components/table-of-contents/__tests__/table-of-contents.test.ts:299-341 | wrapping the markup in another element does not change the harvest |
| TocRules.FirstIntersecting | packages/web-components/src/components/table-of-contents/__tests__/table-of-contents.test.ts:422-447 | the index of an intersecting target with no intersecting target before it; none exactly when no target intersects |
| TocRules.ActiveTarget | packages/web-components/src/components/table-of-contents/__tests__/table-of-contents.test.ts:422-447 | there is an active target exactly when some target intersects, and the active target intersects |
| TocRules.DesktopActiveFlags | packages/web-components/src/components/table-of-contents/__tests__/table-of-contents.test.ts:412-416 | one flag per desktop item, set exactly on the items whose target is the active one |
| TocRules.ExactlyOneDesktopItemActive | packages/web-components/src/components/table-of-contents/__tests__/table-of-contents.test.ts:439-443 | with distinct names, exactly the desktop item of the first intersecting target is marked active |
| TocRules.SelectedOption | packages/web-components/src/components/table-of-contents/__tests__/table-of-contents.test.ts:417-419 | the first option whose target is the active one; none exactly when no target is active |
| TocRules.SelectValue | packages/web-components/src/components/table-of-contents/__tests__/table-of-contents.test.ts:417-419 | the mobile select shows the active target whenever it is one of the targets; otherwise it shows the first target, as a browser selects the first option when none is marked; with targets it always shows one of their names, without them the empty value |
| TocRules.NatToString | packages/web-components/src/components/table-of-contents/__tests__/table-of-contents.test.ts:486 | a height is written as at least one decimal digit, with no leading zero |
| TocRules.ParseNatToString | packages/web-components/src/components/table-of-contents/__tests__/table-of-contents.test.ts:486 | reading the written digits back gives the height |
| TocRules.RootMargin | packages/web-components/src/components/table-of-contents/__tests__/table-of-contents.test.ts:486 | the margin starts with `-` and is longer than the fixed tail that follows the top value |
| TocRules.RootMarginRoundTrip | packages/web-components/src/components/table-of-contents/__tests__/table-of-contents.test.ts:483-489 | the height can be read back from the margin made for it |
| TocRules.RootMarginInjective | packages/web-components/src/components/table-of-contents/__tests__/table-of-contents.test.ts:483-489 | different heights give different margins |
| TocRules.IntersectionOptions | packages/web-components/src/components/table-of-contents/__tests__/table-of-contents.test.ts:484-489 | the intersection options for a height: no root, threshold 1, and a margin that reads back as that height |
| TocScenarios.HarvestSeparated | packages/web-components/src/components/table-of-contents/__tests__/table-of-contents.test.ts:218-222 | the text between the anchors contributes no targets |
| TocScenarios.HarvestSections | packages/web-components/src/components/table-of-contents/__tests__/table-of-contents.test.ts:215-255 | anchors named by any three non-empty names that do not end in whitespace, each with text `Section - <name>`, give three targets in order, titled by their text |
| TocScenarios.HarvestFromTextContents | packages/web-components/src/components/table-of-contents/__tests__/table-of-contents.test.ts:215-255 | the anchors `1`, `2`, `3` with text `Section - n` harvest as targets `1`, `2`, `3` titled `Section - n`, in that order |
| TocScenarios.ExpectedHashes | packages/web-components/src/components/table-of-contents/__tests__/table-of-contents.test.ts:238-254 | the harvested targets' link fragments are `#1`, `#2` and `#3` |
| TocScenarios.HarvestFromDataTitle | packages/web-components/src/components/table-of-contents/__tests__/table-of-contents.test.ts:257-297 | empty anchors with `data-title="Section - n"` harvest as the same three targets |
| TocScenarios.HarvestFromNestedDescendants | packages/web-components/src/components/table-of-contents/__tests__/table-of-contents.test.ts:299-341 | the same anchors inside a `<div>` harvest as the same three targets |
| TocScenarios.RecordEntries | packages/web-components/src/components/table-of-contents/__tests__/table-of-contents.test.ts:409-410 | the navigator takes in intersection entries in order: each sets the intersecting flag of the anchor it targets, a later entry overriding an earlier one; `RecordOne` states the single-entry case |
| TocScenarios.RecordCalls | packages/web-components/src/components/table-of-contents/__tests__/table-of-contents.test.ts:435-437 | the entries of successive callback invocations are taken in in the order the invocations were made |
| TocScenarios.HarvestedTargets | packages/web-components/src/components/table-of-contents/__tests__/table-of-contents.test.ts:399-403 | the navigator in the intersection cases works on the three expected targets |
| TocScenarios.ObserveAnchors | packages/web-components/src/components/table-of-contents/__tests__/table-of-contents.test.ts:480 | an intersection observer observing the three anchors is the one registered instance of its subclass |
| TocScenarios.ReportIntersecting | packages/web-components/src/components/table-of-contents/__tests__/table-of-contents.test.ts:409 | an intersection run for an observed anchor calls the single registered observer once, with one entry for that anchor |
| TocScenarios.SecondAnchorActive | packages/web-components/src/components/table-of-contents/__tests__/table-of-contents.test.ts:435-446 | whenever anchor 1 does not intersect and anchor 2 does, anchor 2 is active, only desktop item 1 is marked and the select shows `2`, whatever anchor 3 reports |
| TocScenarios.ReactToIntersection | packages/web-components/src/components/table-of-contents/__tests__/table-of-contents.test.ts:396-420 | after anchor 2 is reported intersecting, the desktop flags are `[false, true, false]` and the select shows `2` |
| TocScenarios.PickFirstIntersected | packages/web-components/src/components/table-of-contents/__tests__/table-of-contents.test.ts:422-447 | after anchors 2 and 3 are reported intersecting, anchor 2 wins: flags `[false, true, false]`, select `2` |
| TocScenarios.ObserveMobile | packages/web-components/src/components/table-of-contents/__tests__/table-of-contents.test.ts:483 | a resize observer observing the mobile control is the one registered instance of its subclass |
| TocScenarios.Reobserve | packages/web-components/src/components/table-of-contents/__tests__/table-of-contents.test.ts:480-489 | disconnecting the only intersection observer and creating one with the margin for a height, observing every anchor, leaves exactly that observer's options in `instanceOptions` |
| TocScenarios.MarginFor32 | packages/web-components/src/components/table-of-contents/__tests__/table-of-contents.test.ts:484-489 | the options for height 32 are margin `-32px 0px 0px 0px` and threshold 1 |
| TocScenarios.ReflectMobileHeightToMargin | packages/web-components/src/components/table-of-contents/__tests__/table-of-contents.test.ts:467-490 | a resize of the mobile control reporting height 32 leaves exactly one intersection registration, with margin `-32px 0px 0px 0px` and threshold 1, whatever options the first intersection observer had |

## Left out

- Callbacks are not invoked. A run returns the invocations it would make, so a callback that re-enters the mock (observing or unobserving during a run) is not modelled.
- `LayoutObservers.LayoutObserver.Disconnect` visits the observed elements in an unspecified order, not in the Set's insertion order. The result does not depend on the order. The JavaScript loop deletes from the Set it iterates; the model iterates over a snapshot instead.
- The observed set `_targets` is a Dafny `set`: its insertion order is only visible through `disconnect`'s visiting order, which has no effect on the result.
- `ObserverOptions.threshold` is a single number; the list form of `threshold` and the other fields of `IntersectionObserverInit` are not modelled.
- `Rect` holds integers; fractional pixel sizes (floating point) are not modelled.
- `TocRules.Trim` removes only ASCII space, tab, line feed and carriage return, not the full set of Unicode whitespace that `String.prototype.trim` removes.
- The table-of-contents component's source (slot-change handling, its own observer wiring, the jump handler) is not part of this model. Where a case needs the component's reaction, the reaction the test expects is written out: harvesting, recording intersection entries per anchor, choosing the first intersecting target, and `TocScenarios.Reobserve`.
- `TocRules.TitleOf`: an empty `data-title` is treated like a missing one, so the link is never left without a title. The tests cover only a non-empty `data-title` (lines 257-297) and a missing one (lines 215-255).
- `TocRules.ActiveTarget`: among intersecting targets, the earliest in document order wins. The case at lines 422-447 reports anchors 2 and 3 in document order, so it is met equally by "first reported wins"; the model takes document order.
- `TocRules.SelectValue`: the no-active-target case follows the HTML rule that a select with no option marked selected shows its first option. No test asserts that case.
- The scenarios start from empty registries. In the test file the registries are static (lines 98 and 129), created once and shared by every test case, and nothing clears them between cases (lines 499-502). So the single registration expected at line 484 relies on the component disconnecting its observers when an earlier case's component is removed. That sharing across test cases is not modelled.
- Rendering with lit-html, shadow-DOM queries, the snapshot assertions (lines 167-206), `EventManager`, and the jump tests that spy on `_handleUserInitiatedJump` (lines 344-385) are DOM and test-harness plumbing.
- The `await Promise.resolve()` tick sequencing and the swapping of the `window.ResizeObserver` and `window.IntersectionObserver` globals are asynchronous scheduling and environment patching.
- The regular expression that extracts the fragment from `href` is replaced by the fragment itself (`TocRules.Hash`).
- packages/web-components/src/components/lightbox-media-viewer/lightbox-video-player.ts is a rendering template with no logic to verify.
