/**
 * The sorted view of a node's children and the sort policy. Neither the
 * ordering (`sorted_entries`) nor the policy's toggle (`Sorting::toggle_size`)
 * is part of this model: both are carried as function values, constrained only
 * by the contract `Lawful` states.
 */
module SortedView {
  import opened Wrappers
  import opened Arena

  /** The sort policy, left opaque. */
  type Sorting(!new)

  /** The largest length of a Rust `Vec` of non-zero-sized elements (`isize::MAX` on a 64-bit target). */
  const ISIZE_MAX: nat := 0x7FFF_FFFF_FFFF_FFFF

  /**
   * The collaborators the navigation core calls but does not define:
   * `sortedEntries` is `sorted_entries(tree, node, sorting)` reduced to the
   * indices it yields, `toggleSize` is `Sorting::toggle_size` and
   * `defaultSorting` is `Sorting::default()`.
   */
  datatype Sorter = Sorter(
    sortedEntries: (Tree, NodeIndex, Sorting) -> seq<NodeIndex>,
    toggleSize: Sorting -> Sorting,
    defaultSorting: Sorting)

  /** `xs` holds exactly the elements of `ys`, each once. */
  ghost predicate IsOrderingOf(xs: seq<NodeIndex>, ys: seq<NodeIndex>) {
    Distinct(xs) && multiset(xs) == multiset(ys)
  }

  /**
   * The contract of the sorted view over tree `t`: for every node and every
   * policy, it is a duplicate-free permutation of the node's children, and it
   * is a `Vec`, so its length fits the platform's `isize`.
   */
  ghost predicate Lawful(so: Sorter, t: Tree) {
    forall n: NodeIndex, s: Sorting ::
      IsOrderingOf(so.sortedEntries(t, n, s), Children(t, n)) && |so.sortedEntries(t, n, s)| <= ISIZE_MAX
  }

  /** The index of the first entry of a sorted view: `.get(0).map(|(idx, _)| *idx)`. */
  function First(entries: seq<NodeIndex>): Option<NodeIndex> {
    if |entries| > 0 then Some(entries[0]) else None
  }

  /** A node is in the sorted view of `n` exactly when it is a child of `n`. */
  lemma SortedEntriesMembership(so: Sorter, t: Tree, n: NodeIndex, s: Sorting, x: NodeIndex)
    requires Lawful(so, t)
    ensures x in so.sortedEntries(t, n, s) <==> x in Children(t, n)
  {
    var e := so.sortedEntries(t, n, s);
    assert multiset(e) == multiset(Children(t, n));
    assert x in e <==> x in multiset(e);
  }

  /** The sorted view of `n` is empty exactly when `n` has no children, and has as many entries as children. */
  lemma SortedEntriesLength(so: Sorter, t: Tree, n: NodeIndex, s: Sorting)
    requires Lawful(so, t)
    ensures |so.sortedEntries(t, n, s)| == |Children(t, n)|
    ensures so.sortedEntries(t, n, s) == [] <==> Children(t, n) == []
  {
    var e := so.sortedEntries(t, n, s);
    assert |multiset(e)| == |multiset(Children(t, n))|;
  }

  /** The first entry of the sorted view of `n`, when there is one, is a child of `n`; there is one exactly when `n` has children. */
  lemma FirstIsChild(so: Sorter, t: Tree, n: NodeIndex, s: Sorting)
    requires Lawful(so, t)
    ensures First(so.sortedEntries(t, n, s)).Some? <==> Children(t, n) != []
    ensures First(so.sortedEntries(t, n, s)).Some? ==> First(so.sortedEntries(t, n, s)).value in Children(t, n)
  {
    var e := so.sortedEntries(t, n, s);
    SortedEntriesLength(so, t, n, s);
    if |e| > 0 {
      SortedEntriesMembership(so, t, n, s, e[0]);
    }
  }
}
