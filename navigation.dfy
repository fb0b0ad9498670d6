/**
 * The navigation state machine of the interactive browser as pure
 * transitions over the display state: what each key of
 * `TerminalApp::process_events` does to `DisplayState { root, selected,
 * sorting }`. The class in module App performs these transitions in place.
 */
module Navigation {
  import opened Wrappers
  import opened Arena
  import opened SortedView

  /** The largest `usize` on a 64-bit target. */
  const USIZE_MAX: nat := 0xFFFF_FFFF_FFFF_FFFF

  datatype CursorDirection = Down | Up

  /** The directory whose children are shown, the highlighted child, and the sort policy. */
  datatype DisplayState = DisplayState(root: NodeIndex, selected: Option<NodeIndex>, sorting: Sorting)

  /** A decoded key: a plain character, a control chord, or any other key. */
  datatype Key = Char(c: char) | Ctrl(c: char) | Other

  /** What the loop hands back to its caller. */
  datatype WalkResult = WalkResult(numErrors: nat)

  /** `usize::saturating_add` on operands of `usize` range. */
  function SaturatingAdd(x: nat, y: nat): nat {
    if x + y <= USIZE_MAX then x + y else USIZE_MAX
  }

  /** `usize::saturating_sub`. */
  function SaturatingSub(x: nat, y: nat): nat {
    if y <= x then x - y else 0
  }

  /** The entries shown under the current root, in the current order. */
  function Shown(t: Tree, so: Sorter, st: DisplayState): seq<NodeIndex> {
    so.sortedEntries(t, st.root, st.sorting)
  }

  /**
   * `find_position` by identity: the first position of `x` in `entries`, or
   * nothing when `x` does not occur.
   */
  function FindPosition(entries: seq<NodeIndex>, x: NodeIndex): (r: Option<nat>)
    ensures r.None? <==> x !in entries
    ensures r.Some? ==> r.value < |entries| && entries[r.value] == x
    ensures r.Some? ==> forall j :: 0 <= j < r.value ==> entries[j] != x
  {
    if |entries| == 0 then None
    else if entries[0] == x then Some(0)
    else
      match FindPosition(entries[1..], x)
      case None => None
      case Some(p) => Some(p + 1)
  }

  /**
   * The position the cursor moves to: one step from the selected entry's
   * position, saturating, or position 0 when nothing is selected or the
   * selection is not among the entries.
   */
  function NextSelectedPos(entries: seq<NodeIndex>, selected: Option<NodeIndex>, direction: CursorDirection): nat {
    match selected
    case Some(s) =>
      (match FindPosition(entries, s)
       case Some(p) =>
         (match direction
          case Down => SaturatingAdd(p, 1)
          case Up => SaturatingSub(p, 1))
       case None => 0)
    case None => 0
  }

  /** Key `u`: go to the parent of the root and select its first sorted child. */
  function DrillUp(t: Tree, so: Sorter, st: DisplayState): DisplayState {
    match Parent(t, st.root)
    case Some(p) => st.(root := p, selected := First(so.sortedEntries(t, p, st.sorting)))
    case None => st
  }

  /** Key `o`: make the selected node the root, when it has children, and select its first sorted child. */
  function EnterNode(t: Tree, so: Sorter, st: DisplayState): DisplayState {
    match st.selected
    case Some(idx) =>
      var entries := so.sortedEntries(t, idx, st.sorting);
      if |entries| > 0 then st.(root := idx, selected := Some(entries[0])) else st
    case None => st
  }

  /** Keys `k` and `j`: move the selection among the sorted children of the root, keeping it when the target position is empty. */
  function ChangeVerticalIndex(t: Tree, so: Sorter, st: DisplayState, direction: CursorDirection): DisplayState {
    var entries := Shown(t, so, st);
    var pos := NextSelectedPos(entries, st.selected, direction);
    st.(selected := if pos < |entries| then Some(entries[pos]) else st.selected)
  }

  /** Key `s`: toggle the sort policy. */
  function ToggleSort(so: Sorter, st: DisplayState): DisplayState {
    st.(sorting := so.toggleSize(st.sorting))
  }

  /** `q` and Ctrl-c end the loop. */
  predicate IsQuit(key: Key) {
    key == Char('q') || key == Ctrl('c')
  }

  /** The keys the loop reacts to. */
  predicate IsBound(key: Key) {
    IsQuit(key) || (key.Char? && key.c in {'u', 'o', 'k', 'j', 's'})
  }

  /** The transition of one key that does not end the loop; other keys change nothing. */
  function Dispatch(t: Tree, so: Sorter, st: DisplayState, key: Key): DisplayState {
    match key
    case Char('u') => DrillUp(t, so, st)
    case Char('o') => EnterNode(t, so, st)
    case Char('k') => ChangeVerticalIndex(t, so, st, Up)
    case Char('j') => ChangeVerticalIndex(t, so, st, Down)
    case Char('s') => ToggleSort(so, st)
    case _ => st
  }

  /** The state after the key loop: keys are applied in order until the first quit key. */
  function ProcessKeys(t: Tree, so: Sorter, st: DisplayState, keys: seq<Key>): DisplayState
    decreases |keys|
  {
    if keys == [] || IsQuit(keys[0]) then st
    else ProcessKeys(t, so, Dispatch(t, so, st, keys[0]), keys[1..])
  }

  /** The state built once the scan has returned: the scan root, the default policy, and its first sorted child selected. */
  function InitialState(tr: Traversal, so: Sorter): DisplayState {
    DisplayState(tr.rootIndex, First(so.sortedEntries(tr.tree, tr.rootIndex, so.defaultSorting)), so.defaultSorting)
  }

  /**
   * The invariant of the display state: the root is a node, a selection is a
   * child of the root, and the selection is absent only when the root has no
   * children.
   */
  ghost predicate ViewInvariant(t: Tree, st: DisplayState) {
    IsNode(t, st.root) &&
    match st.selected
    case Some(s) => s in Children(t, st.root)
    case None => Children(t, st.root) == []
  }
}
