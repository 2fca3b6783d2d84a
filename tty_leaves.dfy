/**
 * Model of src/main.rs: an in-memory process tree, read once, the
 * processes that have a terminal and no descendant with one, and the choice
 * of the first of them in depth-first order.
 *
 * Building the tree from procfs (`ProcessTree::new`) is not modelled; the
 * tree is given as a value.
 */
module TtyLeaves {

  /** A filesystem path, as an opaque string. */
  type Path = string

  datatype Option<+T> = None | Some(value: T)

  /** `Process`: a process's cwd and its controlling terminal number (`tty_nr`, 0 for none). */
  datatype Process = Process(cwd: Path, tty: int)

  /** `ProcessTree`: a process and the trees of its main thread's children, in order. */
  datatype ProcessTree = ProcessTree(node: Process, children: seq<ProcessTree>)

  // ---------------------------------------------------------------------------
  // leaf_nodes_with_tty
  // ---------------------------------------------------------------------------

  /**
   * `leaf_nodes_with_tty`: the children's results concatenated in order; if
   * that is empty, the process itself when it has a terminal, else nothing.
   * Every process returned has a terminal.
   */
  function LeafNodesWithTty(tree: ProcessTree): (leaves: seq<Process>)
    ensures forall p :: p in leaves ==> p.tty != 0
    decreases tree
  {
    var leaves := FlatLeaves(tree.children);
    if |leaves| != 0 then leaves
    else if tree.node.tty != 0 then [tree.node]
    else []
  }

  /** The `flat_map` over the children: their results, concatenated in order. */
  function FlatLeaves(children: seq<ProcessTree>): (leaves: seq<Process>)
    ensures forall p :: p in leaves ==> p.tty != 0
    decreases children
  {
    if children == [] then []
    else LeafNodesWithTty(children[0]) + FlatLeaves(children[1..])
  }

  /**
   * `main`'s `leaves[0].cwd`: the cwd of the first process found, or `None`
   * where `main` would panic on indexing an empty list. That process is the
   * first, in depth-first left-to-right order, of the processes that have a
   * terminal and no descendant with one.
   */
  function FirstLeafCwd(tree: ProcessTree): (cwd: Option<Path>)
    ensures cwd.Some? <==> HasTty(tree)
    ensures cwd.Some? ==> exists i :: FirstTtyLeaf(PreOrder(tree), i) && PreOrder(tree)[i].node.cwd == cwd.value
  {
    EmptyIffNoTty(tree);
    LeavesArePreOrderTtyLeaves(tree);
    TtyLeafNodesHead(PreOrder(tree));
    var leaves := LeafNodesWithTty(tree);
    if |leaves| == 0 then None else Some(leaves[0].cwd)
  }

  // ---------------------------------------------------------------------------
  // Reference definitions
  // ---------------------------------------------------------------------------

  /** Some process in the tree, the root included, has a terminal. */
  ghost predicate HasTty(tree: ProcessTree)
    decreases tree
  {
    tree.node.tty != 0 || exists i :: 0 <= i < |tree.children| && HasTty(tree.children[i])
  }

  /** The root has a terminal and none of its descendants has one. */
  ghost predicate IsTtyLeaf(tree: ProcessTree)
  {
    tree.node.tty != 0 && forall i :: 0 <= i < |tree.children| ==> !HasTty(tree.children[i])
  }

  /** Every subtree, in depth-first pre-order, children left to right. */
  function PreOrder(tree: ProcessTree): (all: seq<ProcessTree>)
    ensures |all| > 0 && all[0] == tree
    decreases tree
  {
    [tree] + PreOrderAll(tree.children)
  }

  /** The pre-orders of a list of trees, concatenated. */
  function PreOrderAll(trees: seq<ProcessTree>): seq<ProcessTree>
    decreases trees
  {
    if trees == [] then [] else PreOrder(trees[0]) + PreOrderAll(trees[1..])
  }

  /** The processes at the roots of the TTY leaves among `trees`, in order. */
  ghost function TtyLeafNodes(trees: seq<ProcessTree>): seq<Process>
  {
    if trees == [] then []
    else (if IsTtyLeaf(trees[0]) then [trees[0].node] else []) + TtyLeafNodes(trees[1..])
  }

  /** `trees[i]` is a TTY leaf and no earlier tree in the list is one. */
  ghost predicate FirstTtyLeaf(trees: seq<ProcessTree>, i: int)
  {
    0 <= i < |trees| && IsTtyLeaf(trees[i]) && forall j :: 0 <= j < i ==> !IsTtyLeaf(trees[j])
  }

  // ---------------------------------------------------------------------------
  // Lemmas
  // ---------------------------------------------------------------------------

  /** The result is empty exactly when no process in the tree has a terminal. */
  lemma {:induction false} EmptyIffNoTty(tree: ProcessTree)
    ensures |LeafNodesWithTty(tree)| == 0 <==> !HasTty(tree)
    decreases tree
  {
    FlatEmptyIffNoTty(tree.children);
  }

  /** The children contribute nothing exactly when no child subtree has a terminal. */
  lemma {:induction false} FlatEmptyIffNoTty(children: seq<ProcessTree>)
    ensures |FlatLeaves(children)| == 0 <==> forall i :: 0 <= i < |children| ==> !HasTty(children[i])
    decreases children
  {
    if children != [] {
      EmptyIffNoTty(children[0]);
      FlatEmptyIffNoTty(children[1..]);
      assert forall i :: 1 <= i < |children| ==> children[i] == children[1..][i - 1];
    }
  }

  /** Selecting TTY leaves distributes over concatenation. */
  lemma {:induction false} TtyLeafNodesAppend(a: seq<ProcessTree>, b: seq<ProcessTree>)
    ensures TtyLeafNodes(a + b) == TtyLeafNodes(a) + TtyLeafNodes(b)
    decreases a
  {
    if a != [] {
      assert (a + b)[1..] == a[1..] + b;
      TtyLeafNodesAppend(a[1..], b);
    } else {
      assert a + b == b;
    }
  }

  /**
   * The result is exactly the processes that have a terminal and no
   * descendant with one, in depth-first pre-order with children left to
   * right: a process with a terminal below a process without one is still
   * found, and a process is never returned together with a descendant.
   */
  lemma {:induction false} LeavesArePreOrderTtyLeaves(tree: ProcessTree)
    ensures LeafNodesWithTty(tree) == TtyLeafNodes(PreOrder(tree))
    decreases tree
  {
    FlatLeavesArePreOrderTtyLeaves(tree.children);
    FlatEmptyIffNoTty(tree.children);
    TtyLeafNodesAppend([tree], PreOrderAll(tree.children));
    assert [tree][1..] == [];
  }

  /** The children's concatenated results are the TTY leaves of their pre-orders. */
  lemma {:induction false} FlatLeavesArePreOrderTtyLeaves(children: seq<ProcessTree>)
    ensures FlatLeaves(children) == TtyLeafNodes(PreOrderAll(children))
    decreases children
  {
    if children != [] {
      LeavesArePreOrderTtyLeaves(children[0]);
      FlatLeavesArePreOrderTtyLeaves(children[1..]);
      TtyLeafNodesAppend(PreOrder(children[0]), PreOrderAll(children[1..]));
    }
  }

  /** A non-empty selection starts with the first TTY leaf of the list. */
  lemma {:induction false} TtyLeafNodesHead(trees: seq<ProcessTree>)
    ensures |TtyLeafNodes(trees)| > 0 ==>
      exists i :: FirstTtyLeaf(trees, i) && TtyLeafNodes(trees)[0] == trees[i].node
    decreases trees
  {
    if trees != [] && !IsTtyLeaf(trees[0]) {
      TtyLeafNodesHead(trees[1..]);
      if |TtyLeafNodes(trees)| > 0 {
        var i :| FirstTtyLeaf(trees[1..], i) && TtyLeafNodes(trees[1..])[0] == trees[1..][i].node;
        assert FirstTtyLeaf(trees, i + 1);
      }
    } else if trees != [] {
      assert FirstTtyLeaf(trees, 0);
    }
  }

  /**
   * When some child contributes a process, the result is the children's
   * results concatenated in order and the process itself is not a TTY leaf.
   */
  lemma ChildLeavesWin(tree: ProcessTree)
    requires |FlatLeaves(tree.children)| > 0
    ensures LeafNodesWithTty(tree) == FlatLeaves(tree.children)
    ensures !IsTtyLeaf(tree)
  {
    FlatEmptyIffNoTty(tree.children);
  }

  /**
   * When no child contributes a process, the result is the process itself
   * if it has a terminal, and empty otherwise.
   */
  lemma NoChildLeavesFallsBack(tree: ProcessTree)
    requires forall i :: 0 <= i < |tree.children| ==> !HasTty(tree.children[i])
    ensures LeafNodesWithTty(tree) == if tree.node.tty != 0 then [tree.node] else []
  {
    FlatEmptyIffNoTty(tree.children);
  }

  /**
   * Example: the root and its child A have no terminal, and A's child B has
   * one; B is returned, because the recursion goes through processes
   * without a terminal instead of pruning them.
   */
  lemma TtyBelowNonTtyIsFound(rootCwd: Path, aCwd: Path, b: Process)
    requires b.tty != 0
    ensures var a := ProcessTree(Process(aCwd, 0), [ProcessTree(b, [])]);
      LeafNodesWithTty(ProcessTree(Process(rootCwd, 0), [a])) == [b]
  {
    var bt := ProcessTree(b, []);
    var a := ProcessTree(Process(aCwd, 0), [bt]);
    assert [a][1..] == [] && [bt][1..] == [];
    assert LeafNodesWithTty(bt) == [b];
    assert FlatLeaves([bt]) == [b];
    assert LeafNodesWithTty(a) == [b];
    assert FlatLeaves([a]) == [b];
  }
}
