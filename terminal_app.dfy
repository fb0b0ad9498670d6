/**
 * `TerminalApp`: the interactive application object. Its display-state
 * fields are updated in place by the key handlers; each handler is proved to
 * perform the corresponding transition of module Navigation and to keep the
 * view-state invariant.
 */
module App {
  import opened Wrappers
  import opened Arena
  import opened SortedView
  import Navigation
  import NavigationProperties

  class TerminalApp {
    /** The completed scan. */
    const traversal: Traversal
    /** The sorted view and the sort policy's toggle and default. */
    const sorter: Sorter

    var root: NodeIndex
    var selected: Option<NodeIndex>
    var sorting: Sorting

    /** The display state the three fields make up. */
    ghost function State(): Navigation.DisplayState
      reads this
    {
      Navigation.DisplayState(root, selected, sorting)
    }

    ghost predicate Valid()
      reads this
    {
      ValidTraversal(traversal) && Lawful(sorter, traversal.tree) &&
      Navigation.ViewInvariant(traversal.tree, State())
    }

    /**
     * The application once the scan has returned: root at the scan root,
     * default policy, first sorted child selected.
     */
    constructor Initialize(traversal: Traversal, sorter: Sorter)
      requires ValidTraversal(traversal) && Lawful(sorter, traversal.tree)
      ensures Valid()
      ensures this.traversal == traversal && this.sorter == sorter
      ensures State() == Navigation.InitialState(traversal, sorter)
    {
      var sorting := sorter.defaultSorting;
      var root := traversal.rootIndex;
      var selected := First(sorter.sortedEntries(traversal.tree, root, sorting));
      this.traversal := traversal;
      this.sorter := sorter;
      this.root := root;
      this.selected := selected;
      this.sorting := sorting;
      new;
      NavigationProperties.InitialStateEstablishesInvariant(traversal, sorter);
    }

    /** The arm of key `u`. */
    method DrillUp()
      requires Valid()
      modifies this
      ensures Valid()
      ensures State() == Navigation.DrillUp(traversal.tree, sorter, old(State()))
    {
      var parent := Parent(traversal.tree, root);
      if parent.Some? {
        ghost var was := State();
        root := parent.value;
        selected := First(sorter.sortedEntries(traversal.tree, parent.value, sorting));
        NavigationProperties.DispatchPreservesInvariant(traversal.tree, sorter, was, Navigation.Char('u'));
      }
    }

    /** Drill-down into the selected node, when it has children. */
    method EnterNode()
      requires Valid()
      modifies this
      ensures Valid()
      ensures State() == Navigation.EnterNode(traversal.tree, sorter, old(State()))
    {
      if selected.Some? {
        var idx := selected.value;
        var entries := sorter.sortedEntries(traversal.tree, idx, sorting);
        if |entries| > 0 {
          ghost var was := State();
          root := idx;
          selected := Some(entries[0]);
          NavigationProperties.DispatchPreservesInvariant(traversal.tree, sorter, was, Navigation.Char('o'));
        }
      }
    }

    /** Move the selection one step among the sorted children of the root. */
    method ChangeVerticalIndex(direction: Navigation.CursorDirection)
      requires Valid()
      modifies this
      ensures Valid()
      ensures State() == Navigation.ChangeVerticalIndex(traversal.tree, sorter, old(State()), direction)
    {
      ghost var was := State();
      var entries := sorter.sortedEntries(traversal.tree, root, sorting);
      var nextSelectedPos := Navigation.NextSelectedPos(entries, selected, direction);
      if nextSelectedPos < |entries| {
        selected := Some(entries[nextSelectedPos]);
      }
      NavigationProperties.DispatchPreservesInvariant(traversal.tree, sorter, was,
        if direction == Navigation.Up then Navigation.Char('k') else Navigation.Char('j'));
    }

    /**
     * The key loop: handle each key in turn until a quit key, then report the
     * scan's error count, whatever the keys did.
     */
    method ProcessEvents(keys: seq<Navigation.Key>) returns (result: Navigation.WalkResult)
      requires Valid()
      modifies this
      ensures Valid()
      ensures State() == Navigation.ProcessKeys(traversal.tree, sorter, old(State()), keys)
      ensures result == Navigation.WalkResult(traversal.ioErrors)
    {
      var i := 0;
      while i < |keys|
        invariant 0 <= i <= |keys|
        invariant Valid()
        invariant Navigation.ProcessKeys(traversal.tree, sorter, old(State()), keys)
               == Navigation.ProcessKeys(traversal.tree, sorter, State(), keys[i..])
      {
        var key := keys[i];
        match key {
          case Char('u') => DrillUp();
          case Char('o') => EnterNode();
          case Char('k') => ChangeVerticalIndex(Navigation.Up);
          case Char('j') => ChangeVerticalIndex(Navigation.Down);
          case Char('s') => sorting := sorter.toggleSize(sorting);
          case Ctrl('c') => break;
          case Char('q') => break;
          case _ =>
        }
        assert keys[i..][1..] == keys[i + 1..];
        i := i + 1;
      }
      result := Navigation.WalkResult(traversal.ioErrors);
    }
  }
}
