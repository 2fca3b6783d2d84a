# ycwd: deepest-process working directory, modelled in Dafny

ycwd answers "which working directory belongs to what this terminal is doing
right now?": given a process id, it looks at the tree of that process's
descendants and reports the cwd of one of them: the deepest readable process
(src/process_tree.rs) or the first terminal leaf in depth-first order
(src/main.rs). Both versions of this selection are modelled here:

- `process_tree.dfy`, module `ProcessTreeWalk` (src/process_tree.rs):
  `into_deepest_leaf` and its inner `deepest_leaf`. The walk recurses over
  the children of each process's main thread at `depth + 1`, keeps the
  deepest child result that is `Ok` (the first one wins a tie), and falls
  back to the process's own cwd read when no child gives one. Every procfs
  read is a field of the `ProcessTree` datatype holding its outcome: the cwd
  read (`Result<Path>`), the enumeration of children (`Listed` or
  `ListFailed`), and the opening of each child (`Opened` or `OpenFailed`).
  `deepest_leaf` is a recursive method with a loop over the children, proved
  equal to the functional specification `Deepest`/`Scan`. The lemmas
  characterise that specification against an independent definition of the
  processes the walk can see (`Reaches`, `HasReadable`, `DeepestReadable`).
- `tty_leaves.dfy`, module `TtyLeaves` (src/main.rs):
  `ProcessTree::leaf_nodes_with_tty` over the in-memory tree, and `main`'s
  choice of the first leaf. The result is proved to be exactly the processes
  that have a terminal and no descendant with one, listed in depth-first
  pre-order with children left to right.

Facts about the walk in src/process_tree.rs that the model keeps:

- it recurses rather than keeping an explicit stack;
- it enumerates only the main thread's children (lines 28 and 34);
- it makes no terminal-attachment check, so nothing is pruned;
- it stores only `Ok` child results (lines 47-56), so an `Err` never holds a
  depth and a failed read at depth D never blocks a later success at depth D.

The lemma `DeeperGrandchildWins` works one concrete tree through this walk.
`TtyBelowNonTtyIsFound` shows that src/main.rs also recurses through
processes without a terminal instead of pruning them.

## Model

| member | source | states |
|---|---|---|
| `ProcessTreeWalk.TryFrom` | src/process_tree.rs:96-102 | the conversion succeeds exactly when the cwd read succeeds; it keeps the process and the cwd read, and otherwise passes on the read's error |
| `ProcessTreeWalk.PathOf` | src/process_tree.rs:90-93 | converting an outcome to a path gives exactly the `cwd` field of a successful `CwdProcessTree`, and passes a failure's error on unchanged |
| `ProcessTreeWalk.TryFromIntoPath` | src/process_tree.rs:90-102 | a cwd read by `try_from` and then converted to a path is exactly the process's cwd outcome |
| `ProcessTreeWalk.Consider` | src/process_tree.rs:47-56 | the candidate changes only to the new child result; only an `Ok` result can enter; it replaces a stored candidate only when it is strictly deeper; an `Ok` result is taken when there is no candidate or it is strictly deeper |
| `ProcessTreeWalk.Scan` | src/process_tree.rs:41-64 | a candidate left by the loop over the children always holds an `Ok` result at a depth strictly greater than the parent's |
| `ProcessTreeWalk.Deepest` | src/process_tree.rs:38-70 | the returned depth is never less than the depth passed in; when it equals it, the result is the process's own `try_from` |
| `ProcessTreeWalk.DeepestLeaf` | src/process_tree.rs:38-70 | the recursive loop with its mutable `max` returns exactly the functional specification `Deepest(depth, tree)` |
| `ProcessTreeWalk.IntoDeepestLeaf` | src/process_tree.rs:37-73 | starts at depth 0 and drops the depth; `Ok` exactly when some process reachable through successful enumerations and opens has a readable cwd; the `Ok` process is a deepest such one, carrying its own cwd; otherwise the root's own cwd error |
| `ProcessTreeWalk.ScanPicksDeepestChild` | src/process_tree.rs:43-61 | after the loop there is a candidate exactly when some child was opened and gave an `Ok` result; the candidate is one such child's result, and no such child is deeper |
| `ProcessTreeWalk.ScanFirstDeepestWins` | src/process_tree.rs:48-54 | among children whose `Ok` results tie at the greatest depth, the first in enumeration order is the candidate |
| `ProcessTreeWalk.ScanSkipsUnusable` | src/process_tree.rs:44-60 | dropping a child that could not be opened, or whose subtree gave `Err`, leaves the candidate unchanged |
| `ProcessTreeWalk.DeepestIsMaximal` | src/process_tree.rs:38-70 | the result is `Ok` exactly when a reachable process has a readable cwd; an `Ok` result names a reachable process at `depth - start` steps, with its own cwd, and no reachable readable process is deeper; an `Err` result is the start process's own cwd error at the start depth |
| `ProcessTreeWalk.NoUsableChildFallsBack` | src/process_tree.rs:63-69 | when enumeration fails or no child is usable, the result is the process itself at its own depth with its own cwd read, `Ok` or `Err` |
| `ProcessTreeWalk.FirstDeepestChildWins` | src/process_tree.rs:46-55 | the walk returns the result of the first child, in enumeration order, whose subtree reaches the greatest depth with an `Ok` result |
| `ProcessTreeWalk.FailedChildIsAbsent` | src/process_tree.rs:56-59 | a child that failed to open, or whose subtree failed, gives the same depth and path as if it had not been listed |
| `ProcessTreeWalk.FailedEnumerationIsEmpty` | src/process_tree.rs:39-42 | a failed enumeration of children gives the same depth and path as an empty list of children |
| `ProcessTreeWalk.DeeperGrandchildWins` | src/process_tree.rs:37-73 | on a root with children A ("/x") and B, where B has a child C ("/y"), the walk reports "/y" at depth 2 |
| `TtyLeaves.LeafNodesWithTty` | src/main.rs:38-54 | every process returned has a non-zero tty |
| `TtyLeaves.FlatLeaves` | src/main.rs:39-43 | every process in the children's concatenated results has a non-zero tty |
| `TtyLeaves.FirstLeafCwd` | src/main.rs:65-68 | `main`'s `leaves[0]` exists exactly when some process in the tree has a terminal; its cwd is that of the first process in depth-first pre-order that has a terminal and no descendant with one |
| `TtyLeaves.EmptyIffNoTty` | src/main.rs:38-54 | the result is empty exactly when no process in the tree has a non-zero tty |
| `TtyLeaves.FlatEmptyIffNoTty` | src/main.rs:39-43 | the children contribute nothing exactly when no child subtree contains a process with a terminal |
| `TtyLeaves.LeavesArePreOrderTtyLeaves` | src/main.rs:38-54 | the result is exactly the processes that have a terminal and no descendant with one, in depth-first pre-order following `children` order; no ancestor of a returned process is returned, and processes without a terminal do not prune their subtrees |
| `TtyLeaves.FlatLeavesArePreOrderTtyLeaves` | src/main.rs:39-43 | the in-order concatenation of the children's results equals the terminal leaves of the children's pre-orders |
| `TtyLeaves.ChildLeavesWin` | src/main.rs:39-47 | when some child contributes a process, the result is exactly the children's concatenated results, and the process itself is not a terminal leaf |
| `TtyLeaves.NoChildLeavesFallsBack` | src/main.rs:49-53 | when no child subtree has a terminal, the result is `[self]` if its tty is non-zero and `[]` otherwise |
| `TtyLeaves.TtyBelowNonTtyIsFound` | src/main.rs:38-54 | a process with a terminal below a chain of processes without one is returned |

## Left out

- procfs reads (`Process::new`, `task_main_thread`, `Task::children`, `cwd`, `stat`) in src/process_tree.rs:25-35 and src/main.rs:20-36. They are OS I/O. Their outcomes are fields of the tree values, with paths as opaque strings and errors as an opaque `ProcError`.
- `ProcessTree::new` in src/main.rs builds the tree and panics through `expect` on any failed read. This is construction from the OS, so the model starts from a tree value.
- The `eprintln!` diagnostics in `deepest_leaf` are logging only.
- Argument parsing and `println!` in `main` are I/O. `FirstLeafCwd` models only the choice of `leaves[0].cwd`. Its `None` stands for the panic of indexing an empty list.
- The `Deref` and `From<CwdProcessTree> for ProcessTree` accessors return a field and state nothing.
- Races with the live process table are not modelled. The model reads one fixed snapshot.
- `Deepest`: depth is a `nat`, so `usize` overflow of `depth + 1` is not modelled. It would need a tree deeper than 2^64 processes.
- `LeafNodesWithTty`: the source returns references (`Vec<&Process>`). The model returns process values, so it states which processes are returned and in what order, but not reference identity. `tty` is an `i32` that is only compared with 0, so no width is modelled.
