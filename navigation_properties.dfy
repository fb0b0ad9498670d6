/** What the navigation transitions promise, proved about the functions of module Navigation. */
module NavigationProperties {
  import opened Wrappers
  import opened Arena
  import opened SortedView
  import opened Navigation

  /** In a duplicate-free sequence, the search by identity finds each entry at its own position. */
  lemma FindPositionInDistinct(entries: seq<NodeIndex>, p: nat)
    requires Distinct(entries) && p < |entries|
    ensures FindPosition(entries, entries[p]) == Some(p)
  {
    assert entries[p] in entries;
  }

  /**
   * Drill-up at a root without an incoming edge changes nothing; otherwise the
   * parent becomes the root and its first sorted child, which exists because
   * the old root is one, is selected.
   */
  lemma DrillUpMovesToParent(t: Tree, so: Sorter, st: DisplayState)
    requires Valid(t) && Lawful(so, t)
    ensures Parent(t, st.root).None? ==> DrillUp(t, so, st) == st
    ensures Parent(t, st.root).Some? ==>
      var p, st' := Parent(t, st.root).value, DrillUp(t, so, st);
      st'.root == p && st'.sorting == st.sorting &&
      st'.selected == First(so.sortedEntries(t, p, st.sorting)) &&
      st'.selected.Some? && st'.selected.value in Children(t, p)
  {
    if Parent(t, st.root).Some? {
      var p := Parent(t, st.root).value;
      ParentListsChild(t, st.root);
      FirstIsChild(so, t, p, st.sorting);
    }
  }

  /** Drill-down with nothing selected, or with a selected node that has no children, changes nothing. */
  lemma EnterNodeWithoutTarget(t: Tree, so: Sorter, st: DisplayState)
    requires Lawful(so, t)
    requires st.selected.None? || Children(t, st.selected.value) == []
    ensures EnterNode(t, so, st) == st
  {
    if st.selected.Some? {
      SortedEntriesLength(so, t, st.selected.value, st.sorting);
    }
  }

  /**
   * Drill-down on a selected node with children makes it the root and selects
   * its first sorted child; the sort policy is kept.
   */
  lemma EnterNodeDescends(t: Tree, so: Sorter, st: DisplayState)
    requires Lawful(so, t)
    requires st.selected.Some? && Children(t, st.selected.value) != []
    ensures var st' := EnterNode(t, so, st);
      st'.root == st.selected.value && st'.sorting == st.sorting &&
      st'.selected == First(so.sortedEntries(t, st.selected.value, st.sorting)) &&
      st'.selected.Some? && st'.selected.value in Children(t, st'.root)
  {
    SortedEntriesLength(so, t, st.selected.value, st.sorting);
    FirstIsChild(so, t, st.selected.value, st.sorting);
  }

  /**
   * Drill-down followed by drill-up returns to the previous root, with its
   * first sorted child selected (not necessarily the node drilled into).
   */
  lemma DrillDownThenUp(t: Tree, so: Sorter, st: DisplayState)
    requires Valid(t) && Lawful(so, t)
    requires st.selected.Some? && st.selected.value in Children(t, st.root)
    requires Children(t, st.selected.value) != []
    ensures DrillUp(t, so, EnterNode(t, so, st)) == st.(selected := First(so.sortedEntries(t, st.root, st.sorting)))
  {
    EnterNodeDescends(t, so, st);
    ChildHasParent(t, st.root, st.selected.value);
  }

  /**
   * A cursor move keeps the root and the policy, and the selection either
   * stays as it was or becomes one of the root's children.
   */
  lemma CursorStaysAmongChildren(t: Tree, so: Sorter, st: DisplayState, direction: CursorDirection)
    requires Lawful(so, t)
    ensures var st' := ChangeVerticalIndex(t, so, st, direction);
      st'.root == st.root && st'.sorting == st.sorting &&
      (st'.selected == st.selected || (st'.selected.Some? && st'.selected.value in Children(t, st.root)))
  {
    var st' := ChangeVerticalIndex(t, so, st, direction);
    if st'.selected != st.selected {
      SortedEntriesMembership(so, t, st.root, st.sorting, st'.selected.value);
    }
  }

  /**
   * Moving down from position p selects the entry at p + 1, and from the last
   * position leaves the state unchanged.
   */
  lemma CursorDown(t: Tree, so: Sorter, st: DisplayState, p: nat)
    requires Lawful(so, t)
    requires p < |Shown(t, so, st)| && st.selected == Some(Shown(t, so, st)[p])
    ensures p + 1 < |Shown(t, so, st)| ==> ChangeVerticalIndex(t, so, st, Down) == st.(selected := Some(Shown(t, so, st)[p + 1]))
    ensures p + 1 == |Shown(t, so, st)| ==> ChangeVerticalIndex(t, so, st, Down) == st
  {
    FindPositionInDistinct(Shown(t, so, st), p);
  }

  /**
   * Moving up from position p > 0 selects the entry at p - 1, and from
   * position 0 leaves the state unchanged.
   */
  lemma CursorUp(t: Tree, so: Sorter, st: DisplayState, p: nat)
    requires Lawful(so, t)
    requires p < |Shown(t, so, st)| && st.selected == Some(Shown(t, so, st)[p])
    ensures 0 < p ==> ChangeVerticalIndex(t, so, st, Up) == st.(selected := Some(Shown(t, so, st)[p - 1]))
    ensures p == 0 ==> ChangeVerticalIndex(t, so, st, Up) == st
  {
    FindPositionInDistinct(Shown(t, so, st), p);
  }

  /**
   * With nothing selected, or a selection that is not among the shown
   * entries, a cursor move in either direction selects the first entry, and
   * leaves the state unchanged when there is none.
   */
  lemma CursorFallsBackToFirst(t: Tree, so: Sorter, st: DisplayState, direction: CursorDirection)
    requires st.selected.None? || st.selected.value !in Shown(t, so, st)
    ensures |Shown(t, so, st)| > 0 ==> ChangeVerticalIndex(t, so, st, direction) == st.(selected := Some(Shown(t, so, st)[0]))
    ensures |Shown(t, so, st)| == 0 ==> ChangeVerticalIndex(t, so, st, direction) == st
  {
  }

  /** A cursor move under a root without children leaves the state unchanged, whatever is selected. */
  lemma CursorWithoutChildren(t: Tree, so: Sorter, st: DisplayState, direction: CursorDirection)
    requires Lawful(so, t)
    requires Children(t, st.root) == []
    ensures ChangeVerticalIndex(t, so, st, direction) == st
  {
    SortedEntriesLength(so, t, st.root, st.sorting);
  }

  /** Every key's transition keeps the view-state invariant. */
  lemma DispatchPreservesInvariant(t: Tree, so: Sorter, st: DisplayState, key: Key)
    requires Valid(t) && Lawful(so, t)
    requires ViewInvariant(t, st)
    ensures ViewInvariant(t, Dispatch(t, so, st, key))
  {
    match key
    case Char('u') =>
      DrillUpMovesToParent(t, so, st);
      if Parent(t, st.root).Some? {
        ParentListsChild(t, st.root);
      }
    case Char('o') =>
      if st.selected.Some? {
        ChildHasParent(t, st.root, st.selected.value);
        if Children(t, st.selected.value) != [] {
          EnterNodeDescends(t, so, st);
        } else {
          EnterNodeWithoutTarget(t, so, st);
        }
      }
    case Char('k') =>
      CursorStaysAmongChildren(t, so, st, Up);
      if st.selected.None? {
        CursorWithoutChildren(t, so, st, Up);
      }
    case Char('j') =>
      CursorStaysAmongChildren(t, so, st, Down);
      if st.selected.None? {
        CursorWithoutChildren(t, so, st, Down);
      }
    case _ =>
  }

  /** The invariant holds after any sequence of keys. */
  lemma {:induction false} ProcessKeysPreservesInvariant(t: Tree, so: Sorter, st: DisplayState, keys: seq<Key>)
    requires Valid(t) && Lawful(so, t)
    requires ViewInvariant(t, st)
    ensures ViewInvariant(t, ProcessKeys(t, so, st, keys))
    decreases |keys|
  {
    if keys != [] && !IsQuit(keys[0]) {
      DispatchPreservesInvariant(t, so, st, keys[0]);
      ProcessKeysPreservesInvariant(t, so, Dispatch(t, so, st, keys[0]), keys[1..]);
    }
  }

  /** A quit key ends the loop: nothing typed after it has any effect. */
  lemma {:induction false} QuitStopsProcessing(t: Tree, so: Sorter, st: DisplayState, before: seq<Key>, quit: Key, after: seq<Key>)
    requires IsQuit(quit)
    ensures ProcessKeys(t, so, st, before + [quit] + after) == ProcessKeys(t, so, st, before)
    decreases |before|
  {
    if before == [] {
      assert (before + [quit] + after)[0] == quit;
    } else if IsQuit(before[0]) {
      assert (before + [quit] + after)[0] == before[0];
    } else {
      assert (before + [quit] + after)[0] == before[0];
      assert (before + [quit] + after)[1..] == before[1..] + [quit] + after;
      QuitStopsProcessing(t, so, Dispatch(t, so, st, before[0]), before[1..], quit, after);
    }
  }

  /** A key the loop does not react to changes nothing. */
  lemma UnboundKeyIgnored(t: Tree, so: Sorter, st: DisplayState, key: Key, rest: seq<Key>)
    requires !IsBound(key)
    ensures ProcessKeys(t, so, st, [key] + rest) == ProcessKeys(t, so, st, rest)
  {
    assert ([key] + rest)[1..] == rest;
    assert Dispatch(t, so, st, key) == st;
  }

  /** The `s` key changes the sort policy, by its toggle, and nothing else. */
  lemma ToggleKeyChangesOnlySorting(t: Tree, so: Sorter, st: DisplayState, rest: seq<Key>)
    ensures ProcessKeys(t, so, st, [Char('s')] + rest) == ProcessKeys(t, so, st.(sorting := so.toggleSize(st.sorting)), rest)
  {
    assert ([Char('s')] + rest)[1..] == rest;
  }

  /** Without an `s` key the sort policy is never changed. */
  lemma {:induction false} SortingChangesOnlyByToggle(t: Tree, so: Sorter, st: DisplayState, keys: seq<Key>)
    requires Char('s') !in keys
    ensures ProcessKeys(t, so, st, keys).sorting == st.sorting
    decreases |keys|
  {
    if keys != [] && !IsQuit(keys[0]) {
      assert keys[0] != Char('s');
      assert Dispatch(t, so, st, keys[0]).sorting == st.sorting;
      assert Char('s') !in keys[1..];
      SortingChangesOnlyByToggle(t, so, Dispatch(t, so, st, keys[0]), keys[1..]);
    }
  }

  /**
   * The state built after the scan is at the scan root, under the default
   * policy, with the root's first sorted child selected (or nothing when it
   * has none), and satisfies the invariant.
   */
  lemma InitialStateEstablishesInvariant(tr: Traversal, so: Sorter)
    requires ValidTraversal(tr) && Lawful(so, tr.tree)
    ensures var st := InitialState(tr, so);
      st.root == tr.rootIndex && st.sorting == so.defaultSorting &&
      (st.selected.Some? <==> Children(tr.tree, tr.rootIndex) != []) &&
      ViewInvariant(tr.tree, st)
  {
    FirstIsChild(so, tr.tree, tr.rootIndex, so.defaultSorting);
  }
}
