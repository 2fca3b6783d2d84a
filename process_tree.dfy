/**
 * Model of src/process_tree.rs: starting from one process, walk the tree of
 * its descendants (the children of each process's main thread) and report
 * the deepest process whose working directory can be read.
 *
 * procfs is replaced by a snapshot: every read the walk would make
 * (the cwd of a process, the list of its main thread's children, opening
 * each child) is a field of `ProcessTree` holding the outcome of that read.
 */
module ProcessTreeWalk {

  /** An error reported by procfs; its content is opaque to the walk. */
  datatype ProcError = ProcError(reason: string)

  /** A filesystem path, as an opaque string. */
  type Path = string

  /** `ProcResult<T>`. */
  datatype Result<+T> = Ok(value: T) | Err(error: ProcError)

  datatype Option<+T> = None | Some(value: T)

  /**
   * A process as the walk sees it: the outcome of reading its cwd, and the
   * outcome of enumerating its main thread's children.
   */
  datatype ProcessTree = ProcessTree(cwd: Result<Path>, children: Children)

  /** The outcome of `children()`: the list of child outcomes, or the enumeration's failure. */
  datatype Children = Listed(list: seq<Child>) | ListFailed(error: ProcError)

  /** The outcome of opening one child process (`ProcessTree::new` on its pid). */
  datatype Child = Opened(tree: ProcessTree) | OpenFailed(error: ProcError)

  /** `CwdProcessTree`: a process together with the cwd read from it. */
  datatype CwdProcessTree = CwdProcessTree(tree: ProcessTree, cwd: Path)

  /** The pair `(depth, ProcResult<CwdProcessTree>)` that `deepest_leaf` returns. */
  datatype Leaf = Leaf(depth: nat, result: Result<CwdProcessTree>)

  // ---------------------------------------------------------------------------
  // Conversions
  // ---------------------------------------------------------------------------

  /** `TryFrom<ProcessTree> for CwdProcessTree`: read the cwd, keep the process. */
  function TryFrom(tree: ProcessTree): (r: Result<CwdProcessTree>)
    ensures r.Ok? <==> tree.cwd.Ok?
    ensures r.Ok? ==> r.value.tree == tree && Ok(r.value.cwd) == tree.cwd
    ensures r.Err? ==> r.error == tree.cwd.error
  {
    match tree.cwd
    case Ok(cwd) => Ok(CwdProcessTree(tree, cwd))
    case Err(e) => Err(e)
  }

  /**
   * `From<CwdProcessTree> for PathBuf`, lifted over `Result`: a successful
   * outcome gives exactly the cwd it carries, a failure keeps its error.
   */
  function PathOf(r: Result<CwdProcessTree>): (p: Result<Path>)
    ensures p.Ok? <==> r.Ok?
    ensures r.Ok? ==> p == Ok(r.value.cwd)
    ensures r.Err? ==> p == Err(r.error)
  {
    match r
    case Ok(c) => Ok(c.cwd)
    case Err(e) => Err(e)
  }

  /** Converting a successful `try_from` back to a path gives exactly the cwd it read. */
  lemma TryFromIntoPath(tree: ProcessTree)
    ensures PathOf(TryFrom(tree)) == tree.cwd
  {
  }

  // ---------------------------------------------------------------------------
  // Functional specification of deepest_leaf
  // ---------------------------------------------------------------------------

  /**
   * The body of the loop for a child that was opened and whose subtree gave
   * `leaf`: an `Ok` result becomes the candidate when there is none yet or
   * when it is strictly deeper than the stored one; an `Err` is skipped.
   */
  function Consider(max: Option<Leaf>, leaf: Leaf): (r: Option<Leaf>)
    ensures r != max ==> r == Some(leaf) && leaf.result.Ok?
    ensures r != max && max.Some? ==> max.value.depth < leaf.depth
    ensures leaf.result.Ok? && (max.None? || max.value.depth < leaf.depth) ==> r == Some(leaf)
  {
    match leaf.result
    case Ok(_) =>
      (match max
       case Some(value) => if value.depth < leaf.depth then Some(leaf) else max
       case None => Some(leaf))
    case Err(_) => max
  }

  /**
   * The candidate after the loop has gone over `children` in order, the
   * subtrees being explored at `depth + 1`. Children that could not be
   * opened are skipped.
   */
  function Scan(depth: nat, children: seq<Child>): (max: Option<Leaf>)
    ensures max.Some? ==> max.value.result.Ok? && max.value.depth > depth
    decreases children
  {
    if children == [] then None
    else
      var max := Scan(depth, children[..|children| - 1]);
      var last := children[|children| - 1];
      match last
      case OpenFailed(_) => max
      case Opened(child) =>
        assert child < last;
        Consider(max, Deepest(depth + 1, child))
  }

  /**
   * What `deepest_leaf(depth, tree)` returns: the candidate chosen among the
   * children, or, when there is none (enumeration failed, or no child gave
   * an `Ok` result), the process itself at `depth` with its own cwd read.
   */
  function Deepest(depth: nat, tree: ProcessTree): (leaf: Leaf)
    ensures leaf.depth >= depth
    ensures leaf.depth == depth ==> leaf == Leaf(depth, TryFrom(tree))
    decreases tree
  {
    var max := match tree.children
      case Listed(children) => Scan(depth, children)
      case ListFailed(_) => None;
    match max
    case Some(m) => m
    case None => Leaf(depth, TryFrom(tree))
  }

  // ---------------------------------------------------------------------------
  // The walk itself
  // ---------------------------------------------------------------------------

  /**
   * `deepest_leaf`: recurse into each child at `depth + 1`, keeping in `max`
   * the deepest `Ok` result seen so far, then fall back to the process's own
   * cwd when no child produced one.
   */
  method DeepestLeaf(depth: nat, tree: ProcessTree) returns (leaf: Leaf)
    ensures leaf == Deepest(depth, tree)
    decreases tree
  {
    var max: Option<Leaf> := None;
    match tree.children {
      case Listed(children) =>
        for i := 0 to |children|
          invariant max == Scan(depth, children[..i])
        {
          assert children[..i + 1][..i] == children[..i];
          match children[i] {
            case Opened(child) =>
              var childLeaf := DeepestLeaf(depth + 1, child);
              match childLeaf.result {
                case Ok(_) =>
                  match max {
                    case Some(value) =>
                      if value.depth < childLeaf.depth {
                        max := Some(childLeaf);
                      }
                    case None =>
                      max := Some(childLeaf);
                  }
                case Err(_) =>
              }
            case OpenFailed(_) =>
          }
        }
        assert children[..|children|] == children;
      case ListFailed(_) =>
    }
    match max {
      case Some(m) => leaf := m;
      case None => leaf := Leaf(depth, TryFrom(tree));
    }
  }

  /**
   * `into_deepest_leaf`: the walk from depth 0, without the depth. The
   * result is `Ok` exactly when some process reachable through successful
   * enumerations and opens has a readable cwd; it is then a deepest such
   * process with the cwd read from it, and otherwise the root's own failed
   * cwd read.
   */
  method IntoDeepestLeaf(tree: ProcessTree) returns (r: Result<CwdProcessTree>)
    ensures r == Deepest(0, tree).result
    ensures r.Ok? <==> HasReadable(tree)
    ensures r.Ok? ==> Ok(r.value.cwd) == r.value.tree.cwd
    ensures r.Ok? ==> DeepestReadable(tree, r.value.tree, Deepest(0, tree).depth)
    ensures r.Err? ==> r == Err(tree.cwd.error)
  {
    var leaf := DeepestLeaf(0, tree);
    DeepestIsMaximal(0, tree);
    r := leaf.result;
  }

  // ---------------------------------------------------------------------------
  // Reference definitions: which processes the walk can see
  // ---------------------------------------------------------------------------

  /**
   * `node` is reached from `tree` after `k` steps, each step going through a
   * successful enumeration of children and a successful open of one child.
   */
  ghost predicate Reaches(tree: ProcessTree, node: ProcessTree, k: nat)
    decreases tree
  {
    if k == 0 then node == tree
    else
      match tree.children
      case ListFailed(_) => false
      case Listed(children) =>
        exists i :: 0 <= i < |children| && children[i].Opened? && Reaches(children[i].tree, node, k - 1)
  }

  /** Some reachable process (the root included) has a readable cwd. */
  ghost predicate HasReadable(tree: ProcessTree)
  {
    exists node, k: nat :: Reaches(tree, node, k) && node.cwd.Ok?
  }

  /** `node`, reached in `k` steps, has a readable cwd and no reachable readable process is deeper. */
  ghost predicate DeepestReadable(tree: ProcessTree, node: ProcessTree, k: nat)
  {
    && Reaches(tree, node, k)
    && node.cwd.Ok?
    && forall other, j: nat :: Reaches(tree, other, j) && other.cwd.Ok? ==> j <= k
  }

  /** The `i`-th child was opened and its subtree produced an `Ok` result. */
  ghost predicate UsableChild(depth: nat, children: seq<Child>, i: int)
  {
    0 <= i < |children| && children[i].Opened? && Deepest(depth + 1, children[i].tree).result.Ok?
  }

  // ---------------------------------------------------------------------------
  // Properties of the loop over the children
  // ---------------------------------------------------------------------------

  /**
   * After the loop, there is a candidate exactly when some child is usable;
   * the candidate is the result of one usable child, and no usable child is
   * deeper.
   */
  lemma {:induction false} ScanPicksDeepestChild(depth: nat, children: seq<Child>)
    ensures Scan(depth, children).Some? <==> exists i :: UsableChild(depth, children, i)
    ensures Scan(depth, children).Some? ==>
      exists i :: UsableChild(depth, children, i) && Scan(depth, children).value == Deepest(depth + 1, children[i].tree)
    ensures Scan(depth, children).Some? ==>
      forall i :: UsableChild(depth, children, i) ==> Deepest(depth + 1, children[i].tree).depth <= Scan(depth, children).value.depth
    decreases children
  {
    if children != [] {
      var n := |children| - 1;
      var prefix := children[..n];
      ScanPicksDeepestChild(depth, prefix);
      assert forall i :: 0 <= i < n ==> (UsableChild(depth, prefix, i) <==> UsableChild(depth, children, i));
      var max := Scan(depth, prefix);
      if max.Some? {
        var j :| UsableChild(depth, prefix, j) && max.value == Deepest(depth + 1, prefix[j].tree);
        assert UsableChild(depth, children, j);
      }
      if UsableChild(depth, children, n) {
        assert Scan(depth, children).Some?;
      }
    }
  }

  /**
   * Tie-break: the candidate is the first child, in enumeration order, whose
   * result is `Ok` at the greatest depth; a later child at the same depth
   * never replaces it.
   */
  lemma {:induction false} ScanFirstDeepestWins(depth: nat, children: seq<Child>, i: int)
    requires UsableChild(depth, children, i)
    requires forall j :: UsableChild(depth, children, j) ==>
      Deepest(depth + 1, children[j].tree).depth <= Deepest(depth + 1, children[i].tree).depth
    requires forall j :: 0 <= j < i && UsableChild(depth, children, j) ==>
      Deepest(depth + 1, children[j].tree).depth < Deepest(depth + 1, children[i].tree).depth
    ensures Scan(depth, children) == Some(Deepest(depth + 1, children[i].tree))
    decreases children
  {
    var n := |children| - 1;
    var prefix := children[..n];
    assert forall j :: 0 <= j < n ==> (UsableChild(depth, prefix, j) <==> UsableChild(depth, children, j));
    if i == n {
      ScanPicksDeepestChild(depth, prefix);
    } else {
      ScanFirstDeepestWins(depth, prefix, i);
    }
  }

  /** Removing a child that is not usable does not change the candidate. */
  lemma {:induction false} ScanSkipsUnusable(depth: nat, children: seq<Child>, i: int)
    requires 0 <= i < |children| && !UsableChild(depth, children, i)
    ensures Scan(depth, children) == Scan(depth, children[..i] + children[i + 1..])
    decreases children
  {
    var n := |children| - 1;
    var prefix := children[..n];
    var rest := children[..i] + children[i + 1..];
    if i == n {
      assert rest == prefix;
    } else {
      assert prefix[i] == children[i];
      assert !UsableChild(depth, prefix, i);
      ScanSkipsUnusable(depth, prefix, i);
      var restPrefix := prefix[..i] + prefix[i + 1..];
      assert rest == restPrefix + [children[n]];
      assert rest[..|rest| - 1] == restPrefix;
    }
  }

  // ---------------------------------------------------------------------------
  // Properties of deepest_leaf
  // ---------------------------------------------------------------------------

  /**
   * What the walk computes: the result is `Ok` exactly when a reachable
   * process has a readable cwd; it then names a deepest such process, found
   * `leaf.depth - depth` steps below the start, with that process's cwd.
   * Otherwise it is the start process's own failed cwd read at `depth`.
   */
  lemma {:induction false} DeepestIsMaximal(depth: nat, tree: ProcessTree)
    ensures Deepest(depth, tree).result.Ok? <==> HasReadable(tree)
    ensures Deepest(depth, tree).result.Ok? ==>
      && Ok(Deepest(depth, tree).result.value.cwd) == Deepest(depth, tree).result.value.tree.cwd
      && DeepestReadable(tree, Deepest(depth, tree).result.value.tree, Deepest(depth, tree).depth - depth)
    ensures Deepest(depth, tree).result.Err? ==> Deepest(depth, tree) == Leaf(depth, Err(tree.cwd.error))
    decreases tree
  {
    match tree.children {
      case ListFailed(_) =>
        if tree.cwd.Ok? {
          assert Reaches(tree, tree, 0);
        }
        forall node, k: nat | Reaches(tree, node, k) ensures node == tree && k == 0 { }
      case Listed(children) =>
        forall i | 0 <= i < |children| && children[i].Opened? ensures WalkIsMaximal(depth + 1, children[i].tree) {
          DeepestIsMaximal(depth + 1, children[i].tree);
        }
        if Scan(depth, children).Some? {
          CandidateIsMaximal(depth, tree);
        } else {
          NoCandidateIsMaximal(depth, tree);
        }
        assert WalkIsMaximal(depth, tree);
    }
  }

  /** The three clauses of `DeepestIsMaximal`, as one predicate for the steps of its proof. */
  ghost predicate WalkIsMaximal(depth: nat, tree: ProcessTree)
  {
    var leaf := Deepest(depth, tree);
    && (leaf.result.Ok? <==> HasReadable(tree))
    && (leaf.result.Ok? ==>
          && Ok(leaf.result.value.cwd) == leaf.result.value.tree.cwd
          && DeepestReadable(tree, leaf.result.value.tree, leaf.depth - depth))
    && (leaf.result.Err? ==> leaf == Leaf(depth, Err(tree.cwd.error)))
  }

  /** A readable process strictly below the root lies in a usable child, which reaches at least its depth. */
  lemma ReadableBelowIsInUsableChild(depth: nat, tree: ProcessTree, node: ProcessTree, k: nat)
    requires tree.children.Listed?
    requires forall i :: 0 <= i < |tree.children.list| && tree.children.list[i].Opened? ==>
      WalkIsMaximal(depth + 1, tree.children.list[i].tree)
    requires Reaches(tree, node, k) && node.cwd.Ok? && k > 0
    ensures exists i :: UsableChild(depth, tree.children.list, i) && depth + k <= Deepest(depth + 1, tree.children.list[i].tree).depth
  {
    var children := tree.children.list;
    var i :| 0 <= i < |children| && children[i].Opened? && Reaches(children[i].tree, node, k - 1);
    assert HasReadable(children[i].tree);
    assert UsableChild(depth, children, i);
  }

  /** When the loop leaves a candidate, that candidate is a deepest readable process. */
  lemma CandidateIsMaximal(depth: nat, tree: ProcessTree)
    requires tree.children.Listed? && Scan(depth, tree.children.list).Some?
    requires forall i :: 0 <= i < |tree.children.list| && tree.children.list[i].Opened? ==>
      WalkIsMaximal(depth + 1, tree.children.list[i].tree)
    ensures WalkIsMaximal(depth, tree)
  {
    var children := tree.children.list;
    ScanPicksDeepestChild(depth, children);
    var m := Scan(depth, children).value;
    var i :| UsableChild(depth, children, i) && m == Deepest(depth + 1, children[i].tree);
    var node := m.result.value.tree;
    var k := m.depth - depth;
    assert Reaches(children[i].tree, node, k - 1);
    assert Reaches(tree, node, k);
    assert HasReadable(tree);
    forall other, j: nat | Reaches(tree, other, j) && other.cwd.Ok? ensures j <= k {
      if j > 0 {
        ReadableBelowIsInUsableChild(depth, tree, other, j);
      }
    }
  }

  /** When the loop leaves no candidate, only the root itself can be readable. */
  lemma NoCandidateIsMaximal(depth: nat, tree: ProcessTree)
    requires tree.children.Listed? && Scan(depth, tree.children.list).None?
    requires forall i :: 0 <= i < |tree.children.list| && tree.children.list[i].Opened? ==>
      WalkIsMaximal(depth + 1, tree.children.list[i].tree)
    ensures WalkIsMaximal(depth, tree)
  {
    ScanPicksDeepestChild(depth, tree.children.list);
    if tree.cwd.Ok? {
      assert Reaches(tree, tree, 0);
    }
    forall node, k: nat | Reaches(tree, node, k) && node.cwd.Ok? ensures k == 0 && node == tree {
      if k > 0 {
        ReadableBelowIsInUsableChild(depth, tree, node, k);
      }
    }
  }

  /**
   * Fallback: when children cannot be enumerated, or no child is usable
   * (none could be opened, or every subtree gave `Err`), the result is the
   * process itself at its own depth with its own cwd read, `Ok` or `Err`.
   */
  lemma NoUsableChildFallsBack(depth: nat, tree: ProcessTree)
    requires tree.children.Listed? ==> forall i :: !UsableChild(depth, tree.children.list, i)
    ensures Deepest(depth, tree) == Leaf(depth, TryFrom(tree))
  {
    if tree.children.Listed? {
      ScanPicksDeepestChild(depth, tree.children.list);
    }
  }

  /**
   * The walk returns the result of the first child, in enumeration order,
   * whose subtree reaches the greatest depth with an `Ok` result.
   */
  lemma FirstDeepestChildWins(depth: nat, tree: ProcessTree, i: int)
    requires tree.children.Listed? && UsableChild(depth, tree.children.list, i)
    requires forall j :: UsableChild(depth, tree.children.list, j) ==>
      Deepest(depth + 1, tree.children.list[j].tree).depth <= Deepest(depth + 1, tree.children.list[i].tree).depth
    requires forall j :: 0 <= j < i && UsableChild(depth, tree.children.list, j) ==>
      Deepest(depth + 1, tree.children.list[j].tree).depth < Deepest(depth + 1, tree.children.list[i].tree).depth
    ensures Deepest(depth, tree) == Deepest(depth + 1, tree.children.list[i].tree)
  {
    ScanFirstDeepestWins(depth, tree.children.list, i);
  }

  /** `tree` with its `i`-th child taken out of the enumeration. */
  function WithoutChild(tree: ProcessTree, i: int): (r: ProcessTree)
    requires tree.children.Listed? && 0 <= i < |tree.children.list|
    ensures r.cwd == tree.cwd && r.children.Listed?
    ensures |r.children.list| == |tree.children.list| - 1
  {
    ProcessTree(tree.cwd, Listed(tree.children.list[..i] + tree.children.list[i + 1..]))
  }

  /**
   * A failure never aborts the walk: a child that could not be opened, or
   * whose subtree gave `Err`, gives the same depth and path as if it had not
   * been listed at all.
   */
  lemma FailedChildIsAbsent(depth: nat, tree: ProcessTree, i: int)
    requires tree.children.Listed? && 0 <= i < |tree.children.list|
    requires !UsableChild(depth, tree.children.list, i)
    ensures Deepest(depth, tree).depth == Deepest(depth, WithoutChild(tree, i)).depth
    ensures PathOf(Deepest(depth, tree).result) == PathOf(Deepest(depth, WithoutChild(tree, i)).result)
  {
    ScanSkipsUnusable(depth, tree.children.list, i);
  }

  /** A failed enumeration of children gives the same depth and path as an empty one. */
  lemma FailedEnumerationIsEmpty(depth: nat, cwd: Result<Path>, e: ProcError)
    ensures Deepest(depth, ProcessTree(cwd, ListFailed(e))).depth == Deepest(depth, ProcessTree(cwd, Listed([]))).depth
    ensures PathOf(Deepest(depth, ProcessTree(cwd, ListFailed(e))).result) == PathOf(Deepest(depth, ProcessTree(cwd, Listed([]))).result)
  {
  }

  /**
   * Example: the root has two children, A with cwd "/x" and B, whose own
   * child C has cwd "/y"; the walk reports C's "/y" at depth 2. No check of
   * terminal attachment takes part in this walk.
   */
  lemma DeeperGrandchildWins(rootCwd: Result<Path>, bCwd: Result<Path>)
    ensures var c := ProcessTree(Ok("/y"), Listed([]));
      var a := ProcessTree(Ok("/x"), Listed([]));
      var b := ProcessTree(bCwd, Listed([Opened(c)]));
      var root := ProcessTree(rootCwd, Listed([Opened(a), Opened(b)]));
      Deepest(0, root).depth == 2 && PathOf(Deepest(0, root).result) == Ok("/y")
  {
    var c := ProcessTree(Ok("/y"), Listed([]));
    var a := ProcessTree(Ok("/x"), Listed([]));
    var b := ProcessTree(bCwd, Listed([Opened(c)]));
    var kids := [Opened(a), Opened(b)];
    var leafC := Leaf(2, Ok(CwdProcessTree(c, "/y")));
    assert Deepest(2, c) == leafC;
    assert [Opened(c)][..0] == [];
    assert Scan(1, [Opened(c)]) == Some(leafC);
    assert Deepest(1, b) == leafC;
    assert Deepest(1, a).depth == 1;
    assert kids[..1] == [Opened(a)] && [Opened(a)][..0] == [];
    assert Scan(0, [Opened(a)]) == Some(Deepest(1, a));
    assert Scan(0, kids) == Some(leafC);
  }
}
