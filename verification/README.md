# Verification of the tree clone, the whole-group fork and the benchmark kernels

This project models the kernel modules that copy a running program, and proves what they
guarantee.  It has four parts.

**Tree clone** (`ProcessTree`, `WalkResult`, `WalkMachine`, `WalkProgress`, `WalkEntries`,
`PtreeModule`).  `dfs` walks a live process tree in post-order.  It asks each process to fork
itself, by a handshake through `target_pid`, `done` and `p_prime` with a probe on `schedule`, and
then moves the clones of a task's children below the clone of the task.

- `ProcessTree.WalkTree` is the sequential walk with an atomic fork, over a forest of tasks.
- `WalkResult` gives every children list of the final forest in closed form, whatever the tree
  and whatever `pid_list_head` holds at the start.
- `PtreeModule` is the module as it runs: globals as fields, `dfs` and the probe as methods with
  loops over the live lists, each proved against `WalkTree`.  `WalkEntries` says which of the
  processes that enter the probe fork for the walk, and when they are enough.
- `WalkMachine` is the concurrent program: one step per statement of the manager and of the
  probe, in any order, with schedule calls of arbitrary processes and any number of failed
  forks.  Every run refines `WalkTree`.  `WalkProgress` adds where each clone hangs at any
  moment, that the walk can always be completed, and that every sequential walk is a run.

**Whole-group fork** (`ThreadRing`, `FullFork`, `FullForkMachine`, `FullForkRuns`,
`FullForkTasks`, `PtreeBarrier`, `PtreeBarrierPass`).  The caller forks a new leader and waits;
the leader walks the caller's thread ring and clones each live thread with its registers; the
threads it wakes run the same hook.  `FullFork` holds the functions call by call, with globals as
fields.  `FullForkMachine` holds every interleaving of caller, leader and woken threads within one
call; the guard of the hook is *not* taken as atomic there: its two tests and the assignment
behind them are three steps.  `FullForkRuns` has the results for all runs, with and without an
atomic guard; `FullForkTasks` relates the machine to the sequential functions.  `PtreeBarrier` and
`PtreeBarrierPass` are the variant in which cloned leaders park until system call 548.

**Sparse product and Fibonacci** (`SparseProduct`, `SparseMultiply`, `Fibonacci`).  `multiply` is
modelled on heap nodes with its three loops and the list it builds in place, and proved to
produce the non-zero cells of the dense product.

**Lists** (`PidLists`).  The queue with head and tail pointers and the circular list of clone
pids, on the heap.

## What the proofs found

- `dfs` copies the tree if and only if no task of it other than the root is in `pid_list_head` at
  the start (`CopiesExactlyWhenNoneListed`).  The list is never emptied.  So a pid that the
  kernel reuses breaks the copy (`ListedChildIsNotCopied`), and so does the clone of an earlier
  walk as long as it is a child of the root (`ListedChildMeansNoCopy`): of two calls in a row the
  second leaves no copy (`SecondWalkNeverCopies`, `PtreeModule.Module.CallTwice`).
- With a guard that is not atomic, a second task can run the clone loop if and only if the caller
  has a live sibling (`SecondPassExactlyWhenSiblingLives`), and in a given run exactly when some
  task is between the two tests of the guard at the moment `clone` is cleared
  (`SecondPassExactlyWhenInGuard`); `UncleanRunCopiesTwice` gives a run that copies a sibling
  twice.  Also in such runs a result of 0 means that every live sibling was copied
  (`ReturnedMeans`).
- `multiply` yields the dense product only while its cells fit into 64 bits; otherwise it yields
  the wrapped values, and drops a cell that wraps to zero (`OutputIsDense`, `LargeProductIsLost`).
- `multiply` returns at once when the *first* row is empty, also when other rows are not.  From an
  empty result list it therefore yields the product if and only if the first row and the column
  list are non-empty or the product has no cells (`Multiply`; `EmptyFirstRowIsMissed` is an input
  on which it does not).  `create` starts a row only with its first entry, so it builds an empty
  first row for an empty matrix only.
- `error_check` is never reset: one failed pass makes all later calls report failure, also those
  that copy everything (`ManyCalls`, `FailureIsReportedAgain`).
- The early returns of the 548 handler leave `tracked_pid` and, for a failed stop or wait, the
  three wait hooks set; `FullFork.Module.SyscallHandler` states exactly when.
- Once opened, the barrier of the parked leaders never closes again (`BarrierNeverClosesAgain`).

## Assumptions

- Memory is sequentially consistent, and each step of the machines is one statement.
- The wait in `dfs` ends only with `done` true; signals that interrupt it are not modelled.
- Only one process walks a tree at a time: no second call of 548 comes while `dfs` runs.
- During the walk the original processes neither exit nor fork by themselves, and each has one
  thread.  A fork and `reparent` append to the tail of a children list; `my_kernel_clone` does
  not wake the new task; a pid in use is never returned for a new task.
- The caller of the whole-group fork is its group's leader, the hook runs only in new tasks, and
  thread flags and registers do not change after the stop.  `FullFork` and `FullForkMachine` take
  one call at a time and start with `clone` clear: the caller can return after line 127 but before
  line 130 of `fullfork.c`, so a next call is covered once that line has been reached.
- In `PtreeBarrier` the kernel announces a new process only when the last one has been released,
  the guard of the hook is one step, and so are lines 152 to 157 of `ptree_clone_fullfork.c`.
- Rows given to `multiply` have `ri` at least 1, because 0 serves as the "no row yet" mark; the
  result node is not part of the inputs.
- Kernel answers (results of clone, kill and wait calls) are parameters; the theorems hold for all
  of them.

## Model

| member | source | states |
|---|---|---|
| WalkResult.CopiesExactlyWhenNoneListed | PROCESS_TREE_CLONE/ptree_clone_fork.c:38-89 | for every forest and tree: the walk leaves a tree of fresh clones isomorphic to the original, in order, with the original intact but for one new last child of the root, if and only if no task other than the root was in the pid list |
| WalkResult.WalkTreeEffect | PROCESS_TREE_CLONE/ptree_clone_fork.c:38-89 | closed form of all children lists after the walk, for any pid list: lists outside the subtree are unchanged, the root gains its clone at the tail, the result is a forest, `p_prime` is the root's clone |
| WalkResult.WalkKidsEffect | PROCESS_TREE_CLONE/ptree_clone_fork.c:48-49 | the first loop settles each child's subtree and leaves the parent's own list, and so the iteration, undisturbed |
| WalkResult.RewireEffect | PROCESS_TREE_CLONE/ptree_clone_fork.c:77-85 | the last two loops move exactly the listed grandchildren below unlisted children to `p_prime`, in order, and keep all others in order |
| WalkResult.MoveListedEffect | PROCESS_TREE_CLONE/ptree_clone_fork.c:79-83 | the inner loop, which removes from the list it walks, moves each listed task once and keeps the forest |
| WalkResult.WorkOfACopyingWalk | PROCESS_TREE_CLONE/ptree_clone_fork.c:48-85 | for a tree of n tasks: n new tasks, n-1 reparents, and the pid list is the n clones in reverse post-order followed by the old list |
| WalkResult.SecondWalkNeverCopies | PROCESS_TREE_CLONE/ptree_clone_fork.c:77-85 | a walk that follows directly on a walk from the same root leaves no copy |
| WalkResult.ListedChildMeansNoCopy | PROCESS_TREE_CLONE/ptree_clone_fork.c:77-85 | at any time: while a listed task, such as the clone made by an earlier walk, is a child of the root, a walk from the root leaves no copy |
| WalkResult.ListedChildIsNotCopied | PROCESS_TREE_CLONE/ptree_clone_fork.c:78 | a concrete two-task tree with a reused pid that is not copied |
| ProcessTree.TreesAreDistinct | PROCESS_TREE_CLONE/ptree_clone_fork.c:48-49 | the tree below a task of a forest reaches no task twice, so the recursion forks no task twice |
| ProcessTree.NoTaskIsItsOwnAncestor | PROCESS_TREE_CLONE/ptree_clone_fork.c:48-49 | in the forest kept by all steps parent links have no cycle |
| ProcessTree.ReparentKeepsForest | PROCESS_TREE_CLONE/ptree_clone_fork.c:81 | a `reparent` below a task that is higher up keeps parent and child links in agreement and free of cycles |
| ProcessTree.ForkKeepsForest | PROCESS_TREE_CLONE/ptree_clone_fork.c:113 | a fork keeps the forest |
| WalkMachine.RunRefinesWalk | PROCESS_TREE_CLONE/ptree_clone_fork.c:38-142 | every interleaving in which `dfs` returns ends in the state of the sequential walk with atomic forks; exactly the tasks of the tree were forked, each into a fresh task |
| WalkMachine.RunCopiesTree | PROCESS_TREE_CLONE/ptree_clone_fork.c:38-142 | the copy theorem, both directions, for every interleaving |
| WalkMachine.RunIsSafe | PROCESS_TREE_CLONE/ptree_clone_fork.c:52-142 | in every reachable state: the tasks form a forest; `target_pid` and `done` are never set together; a target is the process being waited for; `done` means `p_prime` is its clone; nothing is woken before the walk is over, and then only the root's clone |
| WalkMachine.StepForksTargetOnce | PROCESS_TREE_CLONE/ptree_clone_fork.c:116-142 | no step forks anything but the current target, which lies in the tree and has not been forked before |
| WalkMachine.NextKeeps | PROCESS_TREE_CLONE/ptree_clone_fork.c:38-142 | every step of manager, scheduler and probe keeps the invariant and the state in which the walk will end |
| WalkProgress.EveryClonePlaced | PROCESS_TREE_CLONE/ptree_clone_fork.c:77-85 | in every reachable state each clone is a child of its original or of the clone of its original's parent |
| WalkProgress.WalkIsNeverStuck | PROCESS_TREE_CLONE/ptree_clone_fork.c:52-103 | from every reachable state, after any failed forks, the walk can be completed and the clone of the root woken |
| WalkProgress.RootIsWoken | PROCESS_TREE_CLONE/ptree_clone_fork.c:98-103 | in every run: when `dfs` has returned, the handler's next step wakes the clone of the root and changes nothing else |
| WalkProgress.EveryWalkIsARun | PROCESS_TREE_CLONE/ptree_clone_fork.c:38-142 | the converse of the refinement: from every reachable state, whatever new pids the kernel still has to give, the run can be completed with exactly these clones, in the state of the sequential walk, with the root's clone woken |
| PtreeModule.Module.Dfs | PROCESS_TREE_CLONE/ptree_clone_fork.c:38-89 | for every sequence of entries into the probe: exactly the entries are used that serve the tasks of the tree in post-order; the state is that of forking and rewiring the tasks served so far; `dfs` returns if and only if all are served, in the state of the sequential walk with fresh clones for exactly its tree, and otherwise waits for the next one |
| WalkEntries.ServedExactlyWhenOccur | PROCESS_TREE_CLONE/ptree_clone_fork.c:52-55 | for new results, all tasks are served if and only if entries that fork them occur in their order |
| WalkEntries.ServeOne | PROCESS_TREE_CLONE/ptree_clone_fork.c:116-142 | one task is served by the first entry that forks it, and by no other |
| WalkEntries.ServeSplit | PROCESS_TREE_CLONE/ptree_clone_fork.c:48-55 | serving one list of tasks behind another uses the entries one after the other; what comes behind a task that waits waits as well |
| ProcessTree.WalkIsPostOrder | PROCESS_TREE_CLONE/ptree_clone_fork.c:48-85 | the recursion forks and rewires the tasks of the tree one by one in post-order |
| PtreeModule.Module.DfsKids | PROCESS_TREE_CLONE/ptree_clone_fork.c:48-49 | the loop over the live list visits each child once, in order, up to the task that is waited for |
| PtreeModule.Module.RewireClones | PROCESS_TREE_CLONE/ptree_clone_fork.c:77-85 | the two loops compute the rewiring of the walk |
| PtreeModule.Module.MoveClones | PROCESS_TREE_CLONE/ptree_clone_fork.c:79-83 | the inner loop over a list that shrinks under it moves the listed tasks, in order |
| PtreeModule.Module.AwaitAndRewire | PROCESS_TREE_CLONE/ptree_clone_fork.c:52-88 | once the wait ends exactly one fork, of the target, has happened, followed by the rewiring; the entries used are those of that wait |
| PtreeModule.Module.WaitForClone | PROCESS_TREE_CLONE/ptree_clone_fork.c:53 | the wait ends with the first entry into the probe by the target whose fork succeeds, with that entry's result as the clone, and leaves the later entries; if there is none, nothing has changed |
| PtreeModule.Module.AfterSchedule | PROCESS_TREE_CLONE/ptree_clone_fork.c:116-142 | the probe acts for the target only; a failed fork leaves all globals alone |
| PtreeModule.Module.FullFork | PROCESS_TREE_CLONE/ptree_clone_fork.c:108-114 | negative results make no task; others add one task as last child of the caller |
| PtreeModule.Module.SyscallHandler | PROCESS_TREE_CLONE/ptree_clone_fork.c:91-106 | call 548 finishes if and only if successful entries for all tasks of the tree occur in post-order; it copies the caller's tree exactly when no task but the root is listed, wakes the root's clone only after the walk, and leaves `target_pid` and `done` ready for the next call; other calls change nothing |
| PtreeModule.Module.CallTwice | PROCESS_TREE_CLONE/ptree_clone_fork.c:91-106 | of two calls of 548 by one process, one directly after the other, the second leaves no copy of the tree that the process then has |
| ProcessTree.EveryTaskHasATree | PROCESS_TREE_CLONE/ptree_clone_fork.c:48-49 | in a forest every task is the root of a finite tree, so `dfs` applies to any caller |
| FullForkMachine.OnlyTheLeaderClones | FULL_FORK/fullfork.c:78-130 | in every interleaving in which no task is inside the guard when `clone` is cleared (a clean run), only the new leader runs the clone loop |
| FullForkMachine.AtomicGuardSuffices | FULL_FORK/fullfork.c:79-130 | if nobody runs between the two tests of a guard, no interleaving lets a second task into the clone loop, and the other results on clean runs apply |
| FullForkRuns.ReturnedMeans | FULL_FORK/fullfork.c:58-129 | in every run, also with a guard that is not atomic, the caller returns after the release, and 0 means that the leader's own pass has copied every live sibling in ring order with registers, `fsbase` and `clear_child_tid`, and has woken the copies. In a clean run nothing else was made, and with `error_check` clear at the start non-zero means that a proper prefix was copied |
| FullForkRuns.ThreadsAreWoken | FULL_FORK/fullfork.c:109-119 | in every run: a thread that has not been woken is being made, and when the caller has returned all threads of the leader's own pass have been woken |
| FullForkRuns.TasksLeaveOnce | FULL_FORK/fullfork.c:76-133 | in every run a task that is out of the hook stays out |
| FullForkTasks.HookAlone | FULL_FORK/fullfork.c:76-133 | in whatever state, a task that runs the hook in one go is kept out and changes nothing, or makes and wakes the threads of `CopyAll`, records a failure, releases the caller and clears `clone`: the contract of the sequential hook |
| FullForkTasks.PassAlone | FULL_FORK/fullfork.c:92-124 | the clone loop of any task, in whatever state and from any ring position, makes the copies of `CopyAll`, all of them woken |
| FullForkTasks.CallAlone | FULL_FORK/fullfork.c:58-74 | a call whose pass runs in one go returns the kernel's error for a failed leader fork, and else `error_check` behind the pass: the contract of the sequential `leader_clone` |
| FullForkRuns.CallerWaitsForThePass | FULL_FORK/fullfork.c:72-128 | in every run the caller does not return before the leader's pass has released it |
| FullForkRuns.CallerIsNeverStuck | FULL_FORK/fullfork.c:58-130 | every run can be continued, in at most 3n + 10 steps for a ring of n threads, to one in which the caller has returned |
| FullForkMachine.CallerCanAlwaysReturn | FULL_FORK/fullfork.c:58-130 | from every state that satisfies the invariant a clean schedule no longer than the distance of caller and leader from the return completes the call |
| FullForkRuns.SecondPassExactlyWhenSiblingLives | FULL_FORK/fullfork.c:76-130 | without an atomic guard: some run of a call lets a second task into the clone loop if and only if the caller has a live sibling, for every ring |
| FullForkRuns.SecondPassExactlyWhenInGuard | FULL_FORK/fullfork.c:79-130 | for every run that brings the leader to the point where it clears `clone`: a second clone pass is possible from there if and only if a task is between the two tests of the guard |
| FullForkMachine.CleanUntilCleared | FULL_FORK/fullfork.c:76-130 | every run is clean until the leader has cleared `clone` |
| FullForkRuns.UncleanRunCopiesTwice | FULL_FORK/fullfork.c:79-130 | a run, without an atomic guard, at whose end there are two threads with the registers, `fsbase` and `clear_child_tid` of the same sibling |
| FullForkMachine.NextKeeps | FULL_FORK/fullfork.c:58-130 | every step, but one that clears `clone` while a task is inside the guard, keeps the invariant of one call |
| FullFork.Module.FindSibling | FULL_FORK/fullfork.c:147-160 | the scan ends for every ring: at the caller exactly when no sibling is live, else at the first live sibling in ring order |
| FullFork.Module.MyPullBack | FULL_FORK/fullfork.c:76-133 | the pass makes the copies of `CopyAll`, sets `error_check` only on a failed clone and releases the caller, whichever of the woken threads re-enter the hook during it; a task that fails the guard changes nothing |
| FullFork.Module.LeaderClone | FULL_FORK/fullfork.c:58-74 | a failed leader fork changes nothing; otherwise one pass is made, the leader and each thread made run the hook once, and the result is `error_check`, whichever of the threads run the hook during the pass and whichever after it |
| FullFork.Module.SyscallHandler | FULL_FORK/fullfork.c:135-204 | for each path of the handler: the threads made, the value logged, `error_check`, and the exact values of the tracked ids and the wait hooks it leaves |
| FullFork.Module.ManyCalls | FULL_FORK/fullfork.c:58-204 | over any sequence of calls of 548 by any callers: what each logs and all threads made; a call reports 0 if and only if it runs its pass and no pass of it or of an earlier call has failed |
| FullFork.FailureIsReportedAgain | FULL_FORK/fullfork.c:72-73 | two calls: the clone fails in the first, the second copies everything and still reports -1 |
| ThreadRing.CopyAllResult | FULL_FORK/fullfork.c:90-124 | a pass that does not fail copies each live thread once, in ring order, with registers, `fsbase` and `clear_child_tid`; it fails exactly when it copies a proper prefix |
| ThreadRing.CopyAllPids | FULL_FORK/fullfork.c:109-116 | the threads have the pids that the clone calls returned, and the pass stops at the first refused call |
| PtreeBarrier.BarrierHolds | PROCESS_TREE_CLONE/ptree_clone_fullfork.c:158 | over any number of processes: without a call of 548 no cloned leader gets past its park point |
| PtreeBarrier.OnlyLeadersAreWoken | PROCESS_TREE_CLONE/ptree_clone_fullfork.c:85-161 | in every reachable state the tasks made runnable are exactly the cloned leaders: neither a pass nor the opening of the barrier wakes a thread of a pass |
| PtreeBarrier.AllLeadersCanPass | PROCESS_TREE_CLONE/ptree_clone_fullfork.c:105-158 | from every reachable state one call of 548 and steps of the leaders bring all leaders past their park points, with no further failed clone |
| PtreeBarrier.EveryProcessHasItsLeader | PROCESS_TREE_CLONE/ptree_clone_fullfork.c:406-429 | in every reachable state the leaders are those of the announced processes, one each and in order, but for the last process while its fork is awaited |
| PtreeBarrierPass.CloneProcess | PROCESS_TREE_CLONE/ptree_clone_fullfork.c:102-158 | from every reachable state in which no process is tracked: a process that is announced and forks, after any entries of others and failed forks, has exactly one new leader, parked, with the threads and pids of `CopyAll`, and the next process can be announced |
| PtreeBarrierPass.EveryProcessCanBeCloned | PROCESS_TREE_CLONE/ptree_clone_fullfork.c:102-158 | from every reachable state every process can be brought to a leader of its own, parked, with copies of all its live siblings, without opening the barrier |
| PtreeBarrierPass.PassAlone | PROCESS_TREE_CLONE/ptree_clone_fullfork.c:114-157 | the clone loop of a leader, in whatever state, makes the copies of `CopyAll`, records a failure, releases the process and parks |
| PtreeBarrier.ParkedLeadersNeverBlock | PROCESS_TREE_CLONE/ptree_clone_fullfork.c:105-158 | in every reachable state, however many leaders are parked: no cloned leader has been kept out of its pass, and one at the guard enters it with its next step, as a clone of the target and with no other leader before or in its pass |
| PtreeBarrier.CloneMarksThePass | PROCESS_TREE_CLONE/ptree_clone_fullfork.c:114-157 | `clone` is set exactly while a leader is in its pass, and at most one leader is before or in its pass |
| PtreeBarrier.ParkedLeaderHasItsThreads | PROCESS_TREE_CLONE/ptree_clone_fullfork.c:116-157 | a leader behind its pass owns a copy of each live sibling of its parent, or of a proper prefix with `error_check` set |
| PtreeBarrier.BarrierNeverClosesAgain | PROCESS_TREE_CLONE/ptree_clone_fullfork.c:440-446 | after one call of 548 every leader that parks passes with its next step |
| SparseMultiply.Multiply | FULL_FORK/benchmarking/forker.c:218-301 | the list behind `head3` is the product in 64-bit arithmetic afterwards if and only if the first row and the column list are non-empty or it was so before; from an empty `head3`, if and only if they are non-empty or the product has no cells. In the first case its nodes, up to a last one of value 0, are exactly the non-zero cells of the dense product of well-formed inputs, wrapped to 64 bits, each once; and they are the dense product itself if and only if its cells fit into 64 bits. At most C*nnz(A) + R*nnz(B) moves of the merge pointers |
| SparseMultiply.EmptyFirstRowIsMissed | FULL_FORK/benchmarking/forker.c:221-223 | two rows, the first of them empty, and one column: the product has a cell, and the list behind `head3` stays empty |
| SparseMultiply.OutputIsDense | FULL_FORK/benchmarking/forker.c:232-276 | for well-formed inputs the nodes before the last hold `v` at `(i, j)` if and only if `v` is the dense product there, wrapped to 64 bits, and not zero, and no `(i, j)` twice; they hold the dense product itself if and only if all its cells fit |
| SparseMultiply.MultiplyRows | FULL_FORK/benchmarking/forker.c:241-299 | the outer loop appends, row by row, the non-zero cells |
| SparseMultiply.MultiplyRow | FULL_FORK/benchmarking/forker.c:242-286 | the middle loop appends, column by column, the non-zero cells of one row |
| SparseMultiply.MergeCell | FULL_FORK/benchmarking/forker.c:243-268 | the inner loop leaves the product of one row and one column, wrapped to 64 bits, in the last node, in at most row plus column moves |
| SparseMultiply.NextNode | FULL_FORK/benchmarking/forker.c:269-276 | only a node with a non-zero value is followed by a new one, which is last, has value zero and no `down` link |
| SparseProduct.ProductIsDense | FULL_FORK/benchmarking/forker.c:241-299 | the product lists the cell (i, j) with value v if and only if v is the sum over k of A[i,k]*B[k,j], wrapped to 64 bits, and not zero |
| SparseProduct.DenseExactlyWhenItFits | FULL_FORK/benchmarking/forker.c:252 | the list is the dense product, in mathematical integers, if and only if every cell of that fits into 64 bits |
| SparseProduct.LargeProductIsLost | FULL_FORK/benchmarking/forker.c:252-269 | two matrices of one entry each whose product wraps to zero and is not listed |
| SparseProduct.WrapAdd | FULL_FORK/benchmarking/forker.c:252 | wrapping products and partial sums on the way gives the wrapped sum |
| SparseProduct.DotIsDense | FULL_FORK/benchmarking/forker.c:243-268 | the merge of an ascending row and column is the sum over all positions |
| SparseProduct.ProductCellsDistinct | FULL_FORK/benchmarking/forker.c:232-276 | no cell is listed twice |
| SparseProduct.ProductBoundIs | FULL_FORK/benchmarking/forker.c:241-299 | the bound on the moves is C*nnz(A) + R*nnz(B) |
| Fibonacci.RfibIsFib | FULL_FORK/benchmarking/forker.c:13-20 | the recursive form is the Fibonacci number modulo 2021, in 32-bit arithmetic without overflow |
| Fibonacci.Ifib | FULL_FORK/benchmarking/forker.c:304-318 | the iterative form equals the recursive one and the Fibonacci number modulo 2021; a negative index yields 1 |
| PidLists.Queue.AddToQueue | PROCESS_TREE_CLONE/queue.h:29-38 | appends to the sequence, in an acyclic chain with matching head and tail |
| PidLists.Queue.RemoveFromQueue | PROCESS_TREE_CLONE/queue.h:40-48 | drops the first element; the empty queue stays empty |
| PidLists.Queue.FrontOfQueue | PROCESS_TREE_CLONE/queue.h:50-53 | the first element of a non-empty queue |
| PidLists.Queue.PidIsInList | PROCESS_TREE_CLONE/queue.h:55-69 | membership, exactly, including the tail compared behind the loop |
| PidLists.PidList.ListAdd | PROCESS_TREE_CLONE/ptree_clone_fork.c:133-134 | puts a clone's pid in front of the list and keeps the ring of links |
| PidLists.PidList.InPidList | PROCESS_TREE_CLONE/list.h:17-26 | membership, exactly |

## Left out

- `create` in `FULL_FORK/benchmarking/forker.c`: fixed input, and its header loops free nodes without relinking them; well-formed inputs are a precondition of `multiply` instead.
- `FULL_FORK/benchmarking/fullfork.c`: the protocol of `FULL_FORK/fullfork.c` with time stamps added.
- SparseMultiply.Multiply: sums and products wrap in two's complement, where C leaves signed overflow undefined; indices, on which the code does no arithmetic, are unbounded.
- WalkProgress.WalkIsNeverStuck: says that the walk can go on, not that a scheduler will let it; in particular a process whose own call is 548 and whose fork failed sleeps in the wait and has to be scheduled again for the walk to end.
- FullForkMachine.OnlyTheLeaderClones: for runs in which no task is inside the guard when `clone` is cleared, which an atomic guard ensures (`AtomicGuardSuffices`); without that condition it is false, as the two members on the second pass show.
- FullFork.Module.LeaderClone: a woken thread runs the hook in one go, during the pass or after it; `FullForkMachine` and `FullForkRuns` have all finer interleavings.
- PtreeBarrier.BarrierHolds: the window between the fork of a leader and the reset of `pid_to_fork`, in which the kernel could announce another process, is taken as part of the fork step.
- PtreeModule.Module.Dfs: the pid list and the children lists are sequences there; the linked form of the pid list is in `PidLists`, that of the kernel's children lists is not modelled.
- `add_to_pid_list` and `p_prime` in the probe of `ptree_clone_fullfork.c`: they belong to kernel code that is not shown, and the module never reads them.
- Waking all clones of the tree: the handler wakes the threads of the root's clone only, so no such claim is made.
- The constant stack base, stack size and flags of the clone calls; address spaces and signals; the kernel's own wait code that calls the `ff_` hooks, and the three hook functions themselves.
- Registration of probes and hooks, module start and exit, `printk`, failures of `kmalloc`, and the timing code.
- The commented-out `make_them_sleep` and handler code of `ptree_clone_fullfork.c`; the live `make_them_sleep` appears only as the environment's `Target` steps.
- Test programs, plotting and shell scripts.
