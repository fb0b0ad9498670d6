# Navigation core of the dua-cli interactive browser, in Dafny

This project models the keyboard-driven navigation of `TerminalApp` in
`src/interactive/app.rs`. It is a state machine over a `DisplayState
{ root, selected, sorting }` laid over the filesystem tree that the scan builds.
The keys are `u` (drill up to the parent), `o` (drill down into the selection),
`k` and `j` (move the cursor up and down), `s` (toggle the sort policy), and
`q` or Ctrl-c (quit). The model also covers the key loop, which returns the
scan's I/O error count, and the initial state built once the scan has returned.

Modules:

- `Wrappers` (wrappers.dfy): `Option`.
- `Arena` (arena.dfy): the tree as an arena of `nat` indices. `parent` is a
  partial map that stands in for `neighbors_directed(n, Incoming).next()`, and
  `children` is a map of child lists. `Valid` says the two describe the same
  single-parent edges. `Traversal` is the completed scan: tree, root index and
  `io_errors`.
- `SortedView` (sorted_view.dfy): `sorted_entries`, `Sorting::toggle_size` and
  `Sorting::default()` are defined outside `app.rs`. They are carried as function
  values in a `Sorter`, over an opaque `Sorting` type. `Lawful` is the only thing
  assumed about them: for every node and policy, the sorted view is a
  duplicate-free permutation of the node's children, and, being a `Vec`, its
  length fits in `isize`.
- `Navigation` (navigation.dfy): the transitions as pure functions.
  `DrillUp`, `EnterNode`, `ChangeVerticalIndex` (with `FindPosition` and
  `NextSelectedPos`, which is the position expression of the source),
  `ToggleSort`, the key dispatch `Dispatch`, the quit-terminated loop
  `ProcessKeys`, `InitialState`, and the view-state invariant `ViewInvariant`.
  The invariant says three things: `root` is a node; a selection is a child of
  `root`; and the selection is absent only when `root` has no children.
- `NavigationProperties` (navigation_properties.dfy): the lemmas.
- `App` (terminal_app.dfy): the class `TerminalApp`. Its `root`, `selected` and
  `sorting` fields are updated in place by `DrillUp` (the `u` arm), `EnterNode`,
  `ChangeVerticalIndex` and the loop `ProcessEvents`. The `s` arm is inline in
  the loop, as in the source. Each method keeps `Valid()` and is proved to
  perform the matching transition of `Navigation`. `Initialize` is the
  post-scan construction.

`usize::saturating_add` and `saturating_sub` are written out against
`USIZE_MAX`, the largest `usize` on a 64-bit target. Because a sorted view is
no longer than `isize::MAX` (again on a 64-bit target), stepping down never
saturates; `isize::MAX < usize::MAX` holds on every target, so this does not
depend on the word size.

After a drill-up the code selects the FIRST sorted child of the parent
(src/interactive/app.rs:80-83), not the node that was drilled into;
`DrillDownThenUp` states this.

## Model

| member | source | states |
|---|---|---|
| `Navigation.FindPosition` | src/interactive/app.rs:113-115 | The search by identity returns the first position holding the selected node. It returns nothing exactly when the node is not among the entries. |
| `NavigationProperties.FindPositionInDistinct` | src/interactive/app.rs:113-116 | In a duplicate-free sorted view, each entry is found at its own position. |
| `SortedView.SortedEntriesMembership` | src/interactive/app.rs:111 | A node is in the sorted view of `n` exactly when it is a child of `n`. |
| `SortedView.SortedEntriesLength` | src/interactive/app.rs:102-103 | The sorted view has as many entries as the node has children. It is empty exactly when the node has no children. |
| `SortedView.FirstIsChild` | src/interactive/app.rs:80-83 | `.get(0)` of a sorted view yields a value exactly when the node has children, and that value is a child. |
| `NavigationProperties.DrillUpMovesToParent` | src/interactive/app.rs:72-85 | Without a parent edge, drill-up leaves the state unchanged. With one, the parent becomes `root`, the policy is kept, and `selected` is the first sorted child of the parent. That child exists (the old root is one), so `selected` is `Some` and a child of the new root. |
| `NavigationProperties.EnterNodeWithoutTarget` | src/interactive/app.rs:100-103 | Drill-down is a no-op when nothing is selected or when the selected node has no children. |
| `NavigationProperties.EnterNodeDescends` | src/interactive/app.rs:103-106 | Drill-down on a selected node with children makes it `root`, selects its first sorted child (a child of the new root) and keeps the policy. |
| `NavigationProperties.DrillDownThenUp` | src/interactive/app.rs:72-108 | Drill-down then drill-up restores the previous `root`, keeps the policy and selects the root's first sorted child. |
| `NavigationProperties.CursorStaysAmongChildren` | src/interactive/app.rs:110-127 | A cursor move never changes `root` or `sorting`. Afterwards `selected` is either its old value or a child of `root`. |
| `NavigationProperties.CursorDown` | src/interactive/app.rs:112-126 | Down from position p selects position p + 1. Down from the last position changes nothing. |
| `NavigationProperties.CursorUp` | src/interactive/app.rs:112-126 | Up from position p > 0 selects position p - 1. Up from position 0 changes nothing (saturating subtraction). |
| `NavigationProperties.CursorFallsBackToFirst` | src/interactive/app.rs:112-126 | When nothing is selected, or the selection is not among the sorted entries, both directions select position 0. If there are no entries, the state is unchanged. |
| `NavigationProperties.CursorWithoutChildren` | src/interactive/app.rs:123-126 | Under a root without children, a cursor move leaves the state unchanged, including a stale selection. |
| `NavigationProperties.DispatchPreservesInvariant` | src/interactive/app.rs:71-92 | Every key's transition keeps the view-state invariant: `root` is a node, `selected` is a child of `root`, and `selected` is absent only when `root` has no children. |
| `NavigationProperties.ProcessKeysPreservesInvariant` | src/interactive/app.rs:70-94 | The invariant holds after any sequence of keys. |
| `NavigationProperties.QuitStopsProcessing` | src/interactive/app.rs:90 | After `q` or Ctrl-c, no later key has any effect. |
| `NavigationProperties.UnboundKeyIgnored` | src/interactive/app.rs:91 | A key with no binding changes nothing. |
| `NavigationProperties.ToggleKeyChangesOnlySorting` | src/interactive/app.rs:89 | `s` replaces `sorting` by its toggle and changes nothing else. |
| `NavigationProperties.SortingChangesOnlyByToggle` | src/interactive/app.rs:70-94 | A key sequence without `s` ends with the policy it started with. |
| `NavigationProperties.InitialStateEstablishesInvariant` | src/interactive/app.rs:156-166 | The post-scan state has `root` equal to the scan root and the default policy. `selected` is present exactly when the root has children, and the state satisfies the invariant. |
| `Navigation.DrillUp` | src/interactive/app.rs:72-85 | The `u` transition. Its contract is carried by `DrillUpMovesToParent`, `DrillDownThenUp` and `DispatchPreservesInvariant`. |
| `Navigation.EnterNode` | src/interactive/app.rs:100-108 | The `o` transition. Its contract is carried by `EnterNodeWithoutTarget`, `EnterNodeDescends`, `DrillDownThenUp` and `DispatchPreservesInvariant`. |
| `Navigation.ChangeVerticalIndex` | src/interactive/app.rs:110-127 | The `k`/`j` transition. Its contract is carried by `CursorStaysAmongChildren`, `CursorDown`, `CursorUp`, `CursorFallsBackToFirst`, `CursorWithoutChildren` and `DispatchPreservesInvariant`. |
| `Navigation.NextSelectedPos` | src/interactive/app.rs:112-122 | The target position of a cursor move. Its contract is carried by `CursorDown`, `CursorUp` and `CursorFallsBackToFirst`, with `FindPosition` and `FindPositionInDistinct`. |
| `Navigation.SaturatingAdd` | src/interactive/app.rs:117 | `usize::saturating_add`. That it never saturates for a position in a sorted view is part of `CursorDown`. |
| `Navigation.SaturatingSub` | src/interactive/app.rs:118 | `usize::saturating_sub`. That it stays at 0 and otherwise steps back one is part of `CursorUp`. |
| `Navigation.ToggleSort` | src/interactive/app.rs:89 | The `s` transition. Its contract is carried by `ToggleKeyChangesOnlySorting` and `SortingChangesOnlyByToggle`. |
| `Navigation.Dispatch` | src/interactive/app.rs:71-92 | The match over one key. Its contract is carried by `DispatchPreservesInvariant`, `UnboundKeyIgnored` and `ToggleKeyChangesOnlySorting`. |
| `Navigation.ProcessKeys` | src/interactive/app.rs:70-94 | The quit-terminated key loop. Its contract is carried by `ProcessKeysPreservesInvariant`, `QuitStopsProcessing`, `UnboundKeyIgnored`, `SortingChangesOnlyByToggle` and `App.TerminalApp.ProcessEvents`. |
| `Navigation.InitialState` | src/interactive/app.rs:156-166 | The post-scan state. Its contract is carried by `InitialStateEstablishesInvariant` and `App.TerminalApp.Initialize`. |
| `App.TerminalApp.Initialize` | src/interactive/app.rs:156-169 | Builds the application from the completed scan. Its state is the initial state, and the object invariant holds. |
| `App.TerminalApp.DrillUp` | src/interactive/app.rs:72-85 | Updates `root` and `selected` in place as the drill-up transition does, and keeps the invariant. |
| `App.TerminalApp.EnterNode` | src/interactive/app.rs:100-108 | Updates `root` and `selected` in place as the drill-down transition does, and keeps the invariant. |
| `App.TerminalApp.ChangeVerticalIndex` | src/interactive/app.rs:110-127 | Updates `selected` in place as the cursor-move transition does, and keeps the invariant. |
| `App.TerminalApp.ProcessEvents` | src/interactive/app.rs:58-98 | The loop applies the keys in order up to the first quit key and keeps the invariant. It returns `num_errors` equal to the scan's `io_errors`, whatever keys were pressed. |

## Left out

- Redraws (`draw`, `terminal.draw`, `MainWindow` rendering, src/interactive/app.rs:36-57 and 69, 93): terminal output. Each redraw is treated as a step that cannot fail, so the `Err` a failed draw would propagate out of the loop is not modelled.
- `Traversal::from_walk` and its progress callback (src/interactive/app.rs:137-154): multithreaded filesystem scanning. The model starts from the completed `Traversal`. The provisional state drawn during the scan (scan root, nothing selected, default policy) and a failing scan are not modelled.
- Key decoding and `filter_map(Result::ok)` (src/interactive/app.rs:70): the input is a sequence of already-decoded keys. Every key other than a character or a Ctrl chord is represented by `Other`.
- The bodies of `sorted_entries`, `Sorting::toggle_size` and `Sorting::default()`: they are not in `app.rs`. They are abstract function values, constrained only by `SortedView.Lawful`. No concrete ordering is assumed, so the name/size orderings of the concrete scenarios are not modelled.
- petgraph: replaced by the arena with `parent` and `children` maps. The entries' names and sizes are carried but never inspected.
- `DisplayOptions` and `From<WalkOptions>` (src/interactive/app.rs:11-21): a field copy used only for rendering.
- tests/interactive.rs: its one test compares the scanned graph of an on-disk fixture. That is scanner behaviour, outside this core.
- The tree is fixed while keys are processed, because the scan has returned before the loop starts. Scanner writes concurrent with navigation are not modelled.
