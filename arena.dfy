/**
 * The filesystem tree the scanner builds: an arena of entries addressed by
 * stable indices, with one edge from each directory to each of its immediate
 * children. The navigation core only reads it.
 */
module Arena {
  import opened Wrappers

  /** The index of a node in the arena (petgraph's `NodeIndex`). */
  type NodeIndex = nat

  /** The display facts of one filesystem entry (the graph's node weight). */
  datatype EntryData = EntryData(name: seq<char>, size: nat, metadataIoError: bool)

  /**
   * `entries[n]` is the weight of node `n`; `parent` records the source of the
   * one incoming edge of a node that has one; `children` records the targets
   * of the outgoing edges of a node, in edge order.
   */
  datatype Tree = Tree(
    entries: seq<EntryData>,
    parent: map<NodeIndex, NodeIndex>,
    children: map<NodeIndex, seq<NodeIndex>>)

  /** The result of the scan: the tree, its declared root and the count of entries it could not stat. */
  datatype Traversal = Traversal(tree: Tree, rootIndex: NodeIndex, ioErrors: nat)

  predicate IsNode(t: Tree, n: NodeIndex) {
    n < |t.entries|
  }

  /** The immediate children of `n`; a node without outgoing edges has none. */
  function Children(t: Tree, n: NodeIndex): seq<NodeIndex> {
    if n in t.children then t.children[n] else []
  }

  /** The source of the incoming edge of `n`, if any (`neighbors_directed(n, Incoming).next()`). */
  function Parent(t: Tree, n: NodeIndex): Option<NodeIndex> {
    if n in t.parent then Some(t.parent[n]) else None
  }

  predicate Distinct(xs: seq<NodeIndex>) {
    forall i, j :: 0 <= i < j < |xs| ==> xs[i] != xs[j]
  }

  /**
   * Every index mentioned is a node; no node is listed twice as a child; and
   * the child lists and the parent map describe the same single-parent edges.
   */
  ghost predicate Valid(t: Tree) {
    (forall n :: n in t.parent ==> IsNode(t, n) && IsNode(t, t.parent[n])) &&
    (forall n :: n in t.children ==> IsNode(t, n) && Distinct(t.children[n])) &&
    (forall p: NodeIndex, i :: 0 <= i < |Children(t, p)| ==> Parent(t, Children(t, p)[i]) == Some(p)) &&
    (forall c: NodeIndex :: c in t.parent ==> c in Children(t, t.parent[c]))
  }

  ghost predicate ValidTraversal(tr: Traversal) {
    Valid(tr.tree) && IsNode(tr.tree, tr.rootIndex)
  }

  /** A child's incoming edge comes from the node that lists it, and both are nodes. */
  lemma ChildHasParent(t: Tree, p: NodeIndex, c: NodeIndex)
    requires Valid(t)
    requires c in Children(t, p)
    ensures Parent(t, c) == Some(p)
    ensures IsNode(t, c) && IsNode(t, p)
  {
  }

  /** A node with a parent is listed among that parent's children, and the parent is a node. */
  lemma ParentListsChild(t: Tree, c: NodeIndex)
    requires Valid(t)
    requires Parent(t, c).Some?
    ensures c in Children(t, Parent(t, c).value)
    ensures IsNode(t, Parent(t, c).value)
  {
  }
}
