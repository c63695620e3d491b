# Verified models of a collection of C programs

The repository is a set of stand-alone C programs. This project models their algorithmic cores in Dafny and
proves what they are for: shortest distances over a hand-written heap, task graphs with cycle search and clusters,
four mutex, condition-variable and semaphore protocols, graph and grid traversal, and several in-place algorithms.

Each program is modelled in its own form. Structures that the C code updates in place are classes and arrays with
methods that change them; edge chains, which are only ever prepended to, are immutable lists held in an array. Every
method is proved against a specification that does not mention the code (a shortest route, a connected component, a
cycle, a FIFO queue, a sorted permutation), and lemmas prove what that specification implies.

| module | program |
|---|---|
| `MinHeaps`, `Roads`, `Dijkstra` | `graphs/Dijkstra` |
| `DisjointSets` | `graphs/disjoint_subset.c` and the forest of `graphs_bootcamp/micro-make.c` |
| `TaskGraphs`, `MicroMake` | `graphs_bootcamp/micro-make.c` |
| `BoundedBuffer` | `multithreading/bounded_buffer.c` |
| `ThreadPool` | `multithreading/tp_engine.c` and `pthread/thread_pool.c` |
| `SemaphoreRing` | `pthread/ring_buffer.c` |
| `ViewQueue` | `pthread/prod_cons.c` |
| `Islands` | `graphs/matrix_traversal.c` |
| `LinkedQueue`, `Traversal` | `graphs/BFS_and_DFS.c` |
| `CardDeck` | `data-structures/insertion_sort.c` |
| `PhraseFlipper` | `problems/phrase_flipper.c` |
| `GreedyLogic` | `problems/greedy-logic.c` |
| `Walks`, `Rings`, `Sums`, `Threads`, `Ranges`, `Machine`, `Options` | shared by the above |

## How the concurrent programs are modelled

A state holds the shared data and the place of every thread in its code. Each stretch of code under the mutex is one
step; waiting on a semaphore, posting to one, and a signal sent after the unlock are steps of their own. A run is any
sequence of steps by any threads in any order, so the theorems hold for every interleaving, every number of threads
and every capacity. Condition variables follow POSIX.1-2017 (IEEE Std 1003.1, System Interfaces, pthread_cond_wait and
pthread_cond_signal): a waiting thread may wake up spuriously at any time, and a signal unblocks at least one waiting
thread if there is one, whichever and however many the scheduler chooses. A state in which no thread can take a step
other than a spurious wakeup is called stuck. The classes beside the state machines are the C code, one method for a
step, each proved to take exactly the step of the state machine.

## Where the code falls short of its purpose

The code is modelled as it is. Where a property does not hold on all inputs, what holds instead is proved exactly.

- `bounded_buffer.c` lets all its threads finish if and only if m <= n <= m + capacity for n producers and m
  consumers. The 255 and 255 threads of its `main` meet that.
- `ring_buffer.c` lets all its threads finish if and only if M <= N <= M + size for N items produced and M consumed.
  The set-up of its `main` meets that and leaves 10 of 20 items unread.
- `submit_task` of both thread pools does not look at `shutdown`: a task accepted after the last worker has returned is
  never run. `ThreadPool.AcceptedIsServedIffLive` gives the exact condition and `ThreadPool.LateTaskIsLost` a run. What a
  program can rely on: with a worker, everything submitted before the shutdown runs
  (`ThreadPool.SubmittedBeforeShutdownRan`), and nothing submitted after it is safe (`ThreadPool.LateSubmitCanBeLost`).
- `prod_cons.c` needs as many valid requests as consumers: with fewer, a consumer waits for ever; with more,
  `end_process` is reached with views still in the lists. Its `size` is a byte: it is the number of views in every state
  of every run if and only if at most 255 requests are valid (`ViewQueue.SizeIsTotalIff`).
- `numIslands` starts a probe only at a cell of value 1, while the probe clears any nonzero cell, so an island without
  a 1 is neither counted nor cleared, such as a single 2 (`Islands.TwoIsMissed`). All islands are counted, and all cleared,
  if and only if each holds a 1 (`Islands.AllFoundIffEachHasOne`), in particular on grids of zeros and ones.
- `run_dijkstra` cannot tell a distance of 999999 or more from an unreachable city: `Roads.IsDistance` is cut off there.
  One road of that length is enough (`Roads.SentinelHidesRoute`); if all roads together are shorter, the sentinel means
  that there is no route (`Roads.SentinelMeansNoRoute`).
- `run_dijkstra` leaves the program when its heap of 20 slots is full. It never does with as many slots as there are
  roads, and always does with fewer than the start has neighbours (`Dijkstra.RunDijkstra`); on a star of roads the two
  bounds meet (`Dijkstra.StarIsTight`).
- A sweep of `micro-make.c` never looks at a visited task again, so dependencies added after a sweep can close a cycle
  that the next one does not report (`MicroMake.SweepMissesCycle`). Its states and order go on to fit the dependencies if
  and only if the order lists the new prerequisite before its task, or the task was not finished
  (`MicroMake.Graph.AddDependency`). The `main` of the program sweeps once, after all dependencies.
- Both searches of `BFS_and_DFS.c` start their columns at 1 and never follow an edge to vertex 0. From a start s they
  print what is reachable by all edges, at the right hop distances, if and only if s is 0 or no vertex they print has an
  edge to 0 (`Traversal.BFS`, `Traversal.DFS`); from every start if and only if column 0 holds no 1 below its first row
  (`Traversal.NothingMissedFromAnywhere`). `Traversal.ZeroIsMissed` is the least matrix that fails; the matrix of `main`,
  with vertices numbered from 1 and an empty column 0, is right.

## Differences from the code

- `CITIES`, the heap capacity 20, `QUEUE_SIZE`, `BUFFER_SIZE`, the matrix sizes, `UNION_SET_SIZE` and all thread and
  item counts are parameters.
- `create_graph` allocates `vertices - 1` slots for the order (`graphs_bootcamp/micro-make.c:149`), while lines 125 and
  226-229 use `num_tasks` of them; the model has `num_tasks`. Line 98 lets the index `num_tasks` pass; the model's task
  indices are below `num_tasks`.
- An exit of the C program is a `false` or `None` result. Elements that already share a root make micro-make return
  and `disjoint_subset.c` exit; `DisjointSets.SetUnion` reports both as `false`.
- Joining an index in range with one out of range makes the C code index its array with -1. Callers of
  `DisjointSets.SetUnion` and `MicroMake.Graph.AddDependency` must not do that.
- Some C functions are several methods here, usually a loop body or a loop of its own.
- What a program prints is a result where it carries meaning (search orders, reports of the sweep, the execution order).

## Model

| member | source | states |
|---|---|---|
| `MinHeaps.MinHeap.constructor` | graphs/Dijkstra/Dijkstra-MinHeap.c:40-52 | a new heap is empty and has the given capacity |
| `MinHeaps.MinHeap.Push` | graphs/Dijkstra/Dijkstra-MinHeap.c:61-93 | fails exactly when the heap is full and then changes nothing; otherwise heap order holds, the multiset of nodes has grown by exactly the new node, and one more push is counted |
| `MinHeaps.MinHeap.SiftUp` | graphs/Dijkstra/Dijkstra-MinHeap.c:79-92 | restores heap order when only the last node may be closer than its parent, without changing the multiset of nodes |
| `MinHeaps.MinHeap.Pop` | graphs/Dijkstra/Dijkstra-MinHeap.c:100-158 | fails exactly when the heap is empty; otherwise returns a node of least distance, removes exactly that one from the multiset, and keeps heap order |
| `MinHeaps.MinHeap.MoveLastToRoot` | graphs/Dijkstra/Dijkstra-MinHeap.c:118-120 | the old root is gone from the multiset and at most the new root is farther than its children |
| `MinHeaps.MinHeap.SiftDown` | graphs/Dijkstra/Dijkstra-MinHeap.c:122-154 | restores heap order when only the root may be farther than its children, without changing the multiset of nodes |
| `MinHeaps.SiftUpStep` | graphs/Dijkstra/Dijkstra-MinHeap.c:83-91 | one upward swap moves the only possible violation from a node to its parent |
| `MinHeaps.SiftDownStep` | graphs/Dijkstra/Dijkstra-MinHeap.c:139-147 | one downward swap with the closer child moves the only possible violation to that child |
| `MinHeaps.RootIsLeast` | graphs/Dijkstra/Dijkstra-MinHeap.c:115-116 | in an ordered heap the root is a node of least distance among all nodes |
| `MinHeaps.PopRunAscends` | graphs/Dijkstra/Dijkstra-MinHeap.c:100-158 | along any run of pops the distances never fall |
| `MinHeaps.PopRunExists` | graphs/Dijkstra/Dijkstra-MinHeap.c:100-158 | every contents can be popped until nothing is left |
| `MinHeaps.PopsSort` | graphs/Dijkstra/Dijkstra-MinHeap.c:100-158 | popping until the heap is empty yields all of its nodes, ordered by distance |
| `Dijkstra.WDG.constructor` | graphs/Dijkstra/Dijkstra.c:188-197 | a new graph has the given cities and no roads |
| `Dijkstra.WDG.ValidateRoute` | graphs/Dijkstra/Dijkstra.c:113-145 | succeeds exactly for two known, different names, and gives the last index at which each of them occurs |
| `Dijkstra.WDG.AddRoute` | graphs/Dijkstra/Dijkstra.c:155-179 | succeeds exactly for a positive length between two known, different cities; then the road is put in front of the chain of the starting city, and otherwise nothing changes; every road keeps a positive length and never leads back to its own city |
| `Roads.OnlyNewRoad` | graphs/Dijkstra/Dijkstra.c:168-176 | an empty chain has no road, and a road put in front of a chain is the only new one |
| `Roads.DistanceUnique` | graphs/Dijkstra/Dijkstra.c:236-296 | the capped shortest distance is unique, and it is the sentinel exactly when no route costs less than the sentinel |
| `Roads.DistanceInKm` | graphs/Dijkstra/Dijkstra.c:236-296 | the capped distance is the one with its figure written out: below 999999 the cost of some route with none cheaper, and 999999 if and only if no route costs less than 999999 |
| `Roads.CostAdds` | graphs/Dijkstra/Dijkstra.c:267 | the cost of a route is the sum of the lengths of its roads |
| `Roads.RouteJoins` | graphs/Dijkstra/Dijkstra.c:259-265 | every part of a route is a road of the graph that begins where the one before it ends |
| `Roads.RelaxedIsBelow` | graphs/Dijkstra/Dijkstra.c:261-281 | estimates that no road improves are at most the cost of every route, of any length |
| `Roads.RemainingDrops` | graphs/Dijkstra/Dijkstra.c:249-282 | expanding a city takes exactly its own roads off the budget of roads still to be looked at |
| `Roads.SimpleRoute` | graphs/Dijkstra/Dijkstra.c:236-296 | wherever there is a route there is one that leaves no city twice |
| `Roads.SimpleCost` | graphs/Dijkstra/Dijkstra.c:236-296 | a simple route costs at most the length of all roads together |
| `Roads.SentinelMeansNoRoute` | graphs/Dijkstra/Dijkstra.c:284-296 | when all roads together are shorter than 999999 km, a city keeps the sentinel if and only if there is no route to it at all |
| `Roads.SentinelHidesRoute` | graphs/Dijkstra/Dijkstra.c:155-179 | a graph with a single road of 999999 km, which add_route accepts: its end has a route and keeps the sentinel |
| `Dijkstra.InitialHolds` | graphs/Dijkstra/Dijkstra.c:236-247 | the search invariant holds when the loop starts |
| `Dijkstra.DropStale` | graphs/Dijkstra/Dijkstra.c:255-256 | skipping a node that is farther than the current estimate of its city keeps the invariant |
| `Dijkstra.StartExpansion` | graphs/Dijkstra/Dijkstra.c:252-259 | a cheapest node that passes the stale check names a city not expanded before, at its exact estimate, and that city becomes final |
| `Dijkstra.RelaxImproves` | graphs/Dijkstra/Dijkstra.c:263-280 | relaxing an improving road touches no expanded city, pushes a node that is not already pending, and keeps the invariant |
| `Dijkstra.RelaxStep` | graphs/Dijkstra/Dijkstra.c:263-280 | after one road is relaxed all roads of expanded cities are, except those left in the chain |
| `Dijkstra.EmptyHeapIsFinal` | graphs/Dijkstra/Dijkstra.c:249-296 | with nothing pending every estimate is the least route cost capped at the sentinel, and the expanded cities are exactly the reached ones, each once, nearest first |
| `Dijkstra.NeighboursPending` | graphs/Dijkstra/Dijkstra.c:259-281 | after the start is expanded a node for each of its near neighbours is in the heap at the same time |
| `Dijkstra.FirstRound` | graphs/Dijkstra/Dijkstra.c:249-282 | the first round expands the start, so the heap then holds as many nodes as it has near neighbours |
| `Dijkstra.SpreadGrows` | graphs/Dijkstra/Dijkstra.c:168-176 | stars are built by adding roads shorter than 999999 to cities not yet reached |
| `Dijkstra.StarIsTight` | graphs/Dijkstra/Dijkstra.c:246-282 | on a star of roads the two bounds on the capacity are equal |
| `Dijkstra.RelaxRoad` | graphs/Dijkstra/Dijkstra.c:263-277 | either the estimate and the heap are updated together, or nothing changes; fails only on a full heap |
| `Dijkstra.RelaxRoads` | graphs/Dijkstra/Dijkstra.c:259-281 | relaxes the whole chain with at most one push for each of its roads; no expanded city changes its distance |
| `Dijkstra.ExpandCheapest` | graphs/Dijkstra/Dijkstra.c:251-281 | drops one stale node, or expands one city never expanded before with at most one push for each of its roads |
| `Dijkstra.ExpandAll` | graphs/Dijkstra/Dijkstra.c:249-282 | terminates, on the set of cities not yet expanded and then the heap size, after at most 1 + E pushes; fails only with fewer slots than E, and succeeds only with at least as many as the start has neighbours |
| `Dijkstra.RunDijkstra` | graphs/Dijkstra/Dijkstra.c:234-300 | for every well-formed graph and start, as many slots as roads (and at least one) never run out, fewer than the start has neighbours nearer than 999999 always do, and the result is for each city the least cost over all routes, cut off at 999999: a result below it is the cost of some route and at most the cost of every route, and the result is 999999 if and only if no route costs less |
| `DisjointSets.InitDsu` | graphs/disjoint_subset.c:11-15 | every element is the root of its own tree |
| `DisjointSets.Find` | graphs/disjoint_subset.c:23-30 | returns the root of the tree, or -1 for an index out of range; the loop follows exactly the k parent links up to the first root, and 2^k is at most the size of the tree, which is at most n |
| `DisjointSets.SetUnion` | graphs/disjoint_subset.c:39-67 | keeps the forest; elements with the same root leave it alone, otherwise every member of the smaller tree (of the second one on equal sizes) gets the root of the other and no other root changes |
| `DisjointSets.ClimbsPastParents` | graphs/disjoint_subset.c:28 | on the way up no element but the last holds a negative entry |
| `DisjointSets.RootReached` | graphs/disjoint_subset.c:27-29 | a tree with an element at depth k has at least 2^k members |
| `DisjointSets.AttachedRoots` | graphs/disjoint_subset.c:54-66 | after a union the kept root holds minus the exact size of the joined tree, and the dropped one hangs below it |
| `DisjointSets.AttachedOthers` | graphs/disjoint_subset.c:54-66 | after a union every other element still has the right root, and its depth bound still holds one level deeper |
| `DisjointSets.Attach` | graphs/disjoint_subset.c:54-66 | hanging a root below one with at least as large a tree keeps acyclicity, exact sizes and 2^depth <= size, and merges exactly the two trees |
| `DisjointSets.RootsFollowParents` | graphs/disjoint_subset.c:27-29 | a root is its own root, and every other element shares the root of its parent |
| `DisjointSets.RootUnique` | graphs/disjoint_subset.c:27-29 | the parent array determines the root of every element |
| `DisjointSets.Pow2Adds` | graphs/disjoint_subset.c:27-28 | the bound on the climb is a power of two: 2^0 = 1, 2^1 = 2 and 2^(m+n) = 2^m * 2^n |
| `DisjointSets.ElevenNeedThree` | graphs/disjoint_subset.c:4 | on the 11 elements of the program a climb takes at most 3 rounds |
| `DisjointSets.NegativeEntriesSum` | graphs/disjoint_subset.c:54-66 | the negative entries of the array, with their signs turned, add up to the number of elements |
| `DisjointSets.SizesSum` | graphs/disjoint_subset.c:54-66 | the sizes stored at the roots add up to the number of elements |
| `TaskGraphs.LinkAdded` | graphs_bootcamp/micro-make.c:172-184 | a new dependency links its two tasks and no others |
| `TaskGraphs.EmptyDescribed` | graphs_bootcamp/micro-make.c:145-155 | with no dependencies the initial forest describes the clusters |
| `TaskGraphs.AddDescribed` | graphs_bootcamp/micro-make.c:172-184 | adding a dependency while merging the two trees keeps equal roots equivalent to being connected, for every pair of tasks |
| `TaskGraphs.RootsCountClusters` | graphs_bootcamp/micro-make.c:80-87 | there are exactly as many roots as connected components |
| `TaskGraphs.OrderedIsAcyclic` | graphs_bootcamp/micro-make.c:102-104 | no task listed in an execution order reaches a cycle |
| `TaskGraphs.CycleExtends` | graphs_bootcamp/micro-make.c:111-117 | a task whose prerequisite reaches a cycle reaches it too |
| `TaskGraphs.BackEdge` | graphs_bootcamp/micro-make.c:99-100 | a prerequisite that is on the search stack closes a cycle |
| `TaskGraphs.OrderLength` | graphs_bootcamp/micro-make.c:123-126 | an order lists at most all tasks, and lists all of them exactly when it is that long |
| `MicroMake.MetInProgress` | graphs_bootcamp/micro-make.c:99-100 | a task met in state 1 reaches a cycle, whether it is on the stack or was left behind by an earlier root |
| `MicroMake.PushTask` | graphs_bootcamp/micro-make.c:104-107 | starting an unvisited task keeps the search invariant |
| `MicroMake.AbandonTask` | graphs_bootcamp/micro-make.c:113-117 | leaving a task that reaches a cycle in state 1 keeps the search invariant |
| `MicroMake.FinishTask` | graphs_bootcamp/micro-make.c:122-126 | finishing a task whose prerequisites are all listed keeps the order valid, and there is room for it |
| `MicroMake.LateDependency` | graphs_bootcamp/micro-make.c:172-185 | a dependency added between searches keeps the search invariant if and only if its task is not finished or the order lists the prerequisite before it |
| `MicroMake.Graph.constructor` | graphs_bootcamp/micro-make.c:139-163 | a new graph has no dependencies, every task unvisited and in a cluster of its own, and an empty order |
| `MicroMake.Graph.AddDependency` | graphs_bootcamp/micro-make.c:172-185 | the prerequisite is put in front of the chain of its task, and the forest describes the clusters of the new graph: equal roots if and only if connected; states and order go on to fit the dependencies if and only if the task is not finished or the order lists the prerequisite before it |
| `MicroMake.Graph.GetIndependentCluster` | graphs_bootcamp/micro-make.c:80-87 | returns the number of connected components of the graph |
| `MicroMake.Graph.HasCycle` | graphs_bootcamp/micro-make.c:95-132 | returns 1 if and only if a cycle can be reached from the task, whatever earlier roots left behind; ends with the task in state 1 or 2 accordingly, leaves no other task in state 1 when there is no cycle, and never changes a visited one; terminates on the unvisited tasks |
| `MicroMake.Graph.ExploreTask` | graphs_bootcamp/micro-make.c:104-129 | the visit of an unvisited task keeps the search invariant and returns 1 if and only if the task reaches a cycle |
| `MicroMake.Graph.VisitPrerequisites` | graphs_bootcamp/micro-make.c:109-120 | stops at a prerequisite that reaches a cycle, or leaves all prerequisites listed in the order |
| `MicroMake.Graph.Finish` | graphs_bootcamp/micro-make.c:122-126 | the task becomes state 2 and is appended to the order |
| `MicroMake.Graph.SweepTasks` | graphs_bootcamp/micro-make.c:213-222 | afterwards every task is visited, and with all tasks visited before nothing happens; when states and order fit the dependencies, every reported result is true to the graph and a newly found cycle is reported |
| `MicroMake.Graph.TestGraphForCycles` | graphs_bootcamp/micro-make.c:211-231 | when states and order fit the dependencies, a task is afterwards in state 1 if and only if it reaches a cycle and in the order if and only if it does not, topo_idx is the number of state-2 tasks, and what is printed as the order is one exactly when there is no cycle; a sweep leaves no task unvisited, and one over visited tasks reports and changes nothing |
| `MicroMake.Graph.SweptIsRight` | graphs_bootcamp/micro-make.c:213-229 | with all tasks visited, states and order tell exactly who reaches a cycle |
| `MicroMake.SweepMissesCycle` | graphs_bootcamp/micro-make.c:172-222 | two tasks that are swept before they come to need each other: the second sweep reports nothing although there is a cycle |
| `MicroMake.CompleteOrder` | graphs_bootcamp/micro-make.c:226-229 | a complete order contains each task exactly once, every prerequisite before the tasks that need it |
| `BoundedBuffer.EncodeBits` | multithreading/bounded_buffer.c:114-120 | whatever byte comes in, the packet becomes 0x8B |
| `BoundedBuffer.Buffer.constructor` | multithreading/bounded_buffer.c:66-89 | the buffer starts empty with all threads at the beginning of their code |
| `BoundedBuffer.Buffer.EncodePackage` | multithreading/bounded_buffer.c:102-129 | waits on a full queue, otherwise appends the valid packet to the FIFO queue that head, tail and count represent |
| `BoundedBuffer.Buffer.DecodePackage` | multithreading/bounded_buffer.c:147-160 | waits on an empty queue, otherwise removes and returns its oldest packet |
| `BoundedBuffer.Buffer.SendNotEmpty` | multithreading/bounded_buffer.c:131 | the thread is done and at least one waiting consumer, if there is any, is unblocked |
| `BoundedBuffer.Buffer.SendNotFull` | multithreading/bounded_buffer.c:161 | the thread is done and at least one waiting producer, if there is any, is unblocked |
| `BoundedBuffer.WaitersMayWake` | multithreading/bounded_buffer.c:107-111 | a waiting thread may wake up at any time without a signal |
| `BoundedBuffer.NextKeepsInv` | multithreading/bounded_buffer.c:97-164 | every step keeps the invariant: all packets valid, count within the capacity and balanced with the threads past the queue, and sleepers covered by awake threads of their kind plus unsent signals |
| `BoundedBuffer.RunKeepsInv` | multithreading/bounded_buffer.c:97-164 | the invariant holds in every state of every run, for any number of threads and any capacity |
| `BoundedBuffer.OnlyValidPackets` | multithreading/bounded_buffer.c:114-127 | in every state of every run the queue is within its capacity and holds nothing but the byte 0x8B |
| `BoundedBuffer.StuckIsFinished` | multithreading/bounded_buffer.c:177-201 | no deadlock: with m consumers and n producers, m <= n <= m + capacity, a reachable state in which nobody can move has every thread finished and n - m packets left |
| `BoundedBuffer.FinishedIsBalanced` | multithreading/bounded_buffer.c:177-201 | if every thread has finished then m <= n <= m + capacity |
| `BoundedBuffer.NextLowersMeasure` | multithreading/bounded_buffer.c:97-164 | every step but a spurious wakeup lowers one natural number, and a spurious wakeup raises it by one |
| `BoundedBuffer.RunLength` | multithreading/bounded_buffer.c:97-164 | a run is no longer than its initial measure plus two for every spurious wakeup |
| `BoundedBuffer.ContinueUntilStuck` | multithreading/bounded_buffer.c:97-164 | every run can be continued without spurious wakeups until nobody can move |
| `BoundedBuffer.MaximalRunsFinish` | multithreading/bounded_buffer.c:177-201 | a run that cannot be continued has finished all threads if and only if m <= n <= m + capacity |
| `BoundedBuffer.CanFinishIffBalanced` | multithreading/bounded_buffer.c:177-201 | from the start all threads can finish if and only if m <= n <= m + capacity |
| `Threads.WakeSum` | multithreading/bounded_buffer.c:131 | a signal moves each woken thread from waiting to ready and nobody else, whatever is counted |
| `Rings.Advance` | multithreading/bounded_buffer.c:124 | the modulo step on byte indices is the next slot of the ring |
| `Rings.SlotIsModulo` | multithreading/bounded_buffer.c:124 | the slot arithmetic of the model is the modulo expression of the code |
| `Rings.WindowAppend` | multithreading/bounded_buffer.c:124-126 | writing the slot after the window appends to the queue it represents |
| `Rings.WindowDrop` | multithreading/bounded_buffer.c:154-156 | advancing the start of the window removes the oldest entry |
| `ThreadPool.Pool.constructor` | multithreading/tp_engine.c:64-91 | an empty, running pool with all workers about to take the mutex |
| `ThreadPool.Pool.SubmitTask` | multithreading/tp_engine.c:189-209 | rejects exactly when the queue is as long as its capacity, without any effect; otherwise the task is queued last and at least one sleeping worker, if any, is woken |
| `ThreadPool.Pool.TakeTask` | multithreading/tp_engine.c:129-142 | sleeps on an empty queue, exits on an empty queue after shutdown, otherwise takes the oldest task |
| `ThreadPool.Pool.ExecuteTask` | multithreading/tp_engine.c:144-148 | calls exactly the held task if its function is not null and nothing otherwise, and goes back to the loop |
| `ThreadPool.Pool.ShutDown` | multithreading/tp_engine.c:260-265 | sets the flag and wakes every sleeping worker |
| `ThreadPool.WaitersMayWake` | multithreading/tp_engine.c:131 | a sleeping worker may wake up at any time without a signal |
| `ThreadPool.NextKeepsInv` | multithreading/tp_engine.c:123-209 | every step keeps the invariant: accepted = taken followed by queued, calls made plus calls held = callable tasks taken, sleepers only before shutdown and never with more queued tasks than awake takers, exits only after shutdown |
| `ThreadPool.RunKeepsInv` | pthread/thread_pool.c:76-140 | the invariant holds in every state of every run |
| `ThreadPool.QueuedMeansAwake` | pthread/thread_pool.c:76-140 | whenever tasks are queued some worker is not asleep, and if one is asleep there are at least as many awake takers as queued tasks |
| `ThreadPool.ShutdownMeansAwake` | pthread/thread_pool.c:198-202 | once shutdown is set it stays set, and no worker is asleep in that state or any later one of any run |
| `ThreadPool.TakenInOrder` | pthread/thread_pool.c:97-101 | tasks are taken in the order in which they were accepted, and none is executed more often than it was taken |
| `ThreadPool.LiveStays` | pthread/thread_pool.c:91-95 | while tasks are queued the last worker does not exit |
| `ThreadPool.AcceptedIsServedIffLive` | pthread/thread_pool.c:120-140 | in a run that ends shut down and idle, an accepted task has been taken if and only if some worker had not yet returned when it was accepted |
| `ThreadPool.LateTaskIsLost` | pthread/thread_pool.c:120-140 | a concrete run in which a task is accepted after shutdown and never taken |
| `ThreadPool.CallableCount` | multithreading/tp_engine.c:145 | the tasks that are called are those whose function is not null, each as often as it was taken |
| `ThreadPool.EveryTaskRan` | multithreading/tp_engine.c:260-268 | if every task was accepted while some worker was live, then in a pool shut down and idle all workers have exited, the queue is empty, and every task has run as often as it was accepted if it has a function, and never otherwise |
| `ThreadPool.LiveBeforeShutdown` | multithreading/tp_engine.c:129-137 | in any run of a pool with at least one worker none has exited before the shutdown |
| `ThreadPool.SubmittedBeforeShutdownRan` | multithreading/tp_engine.c:247-268 | a program with at least one worker that submits only before its shutdown, as both mains do, has run every task with a function exactly as often as it was accepted, and no other, when the pool is shut down and idle |
| `ThreadPool.DrainFrom` | pthread/thread_pool.c:198-208 | a pool that is shut down and has lost nothing can always drain its queue and let all workers return |
| `ThreadPool.LateSubmitCanBeLost` | pthread/thread_pool.c:120-140 | no submission after the shutdown is safe: from every such state there is a run in which the task is accepted and never taken |
| `ThreadPool.WorkerStepLowersEffort` | multithreading/tp_engine.c:127-149 | every worker step uses exactly one unit of a natural measure, and a spurious wakeup adds one |
| `ThreadPool.DrainLength` | multithreading/tp_engine.c:260-268 | after shutdown and with no more submissions the number of steps taken is exactly the effort used up |
| `ThreadPool.NoEffortMeansDrained` | multithreading/tp_engine.c:260-268 | when no effort is left after shutdown, the queue is empty and all workers have exited |
| `SemaphoreRing.RingBuffer.constructor` | pthread/ring_buffer.c:62-76 | an empty ring whose semaphores hold all and no tokens |
| `SemaphoreRing.RingBuffer.WaitEmpty` | pthread/ring_buffer.c:94 | takes one token for an empty slot |
| `SemaphoreRing.RingBuffer.WriteValue` | pthread/ring_buffer.c:96-101 | writes the loop counter, as a byte, at the write index and advances that index |
| `SemaphoreRing.RingBuffer.PostFilledSlots` | pthread/ring_buffer.c:103 | gives one token for a filled slot and goes to the next round |
| `SemaphoreRing.RingBuffer.WaitFilled` | pthread/ring_buffer.c:124 | takes one token for a filled slot |
| `SemaphoreRing.RingBuffer.ReadValue` | pthread/ring_buffer.c:126-131 | returns the value at the read index, records it as read and advances that index |
| `SemaphoreRing.RingBuffer.PostEmptySlots` | pthread/ring_buffer.c:133 | gives one token for an empty slot and goes to the next round |
| `SemaphoreRing.WriteKeepsInv` | pthread/ring_buffer.c:96-101 | a producer with a token finds fewer unread values than slots, so no unread value is overwritten, and the invariant stays |
| `SemaphoreRing.ReadKeepsInv` | pthread/ring_buffer.c:126-131 | a consumer with a token finds an unread value and reads the oldest one, and the invariant stays |
| `SemaphoreRing.NextKeepsInv` | pthread/ring_buffer.c:86-138 | every step keeps the token accounting and the contents of the unread window |
| `SemaphoreRing.RunKeepsInv` | pthread/ring_buffer.c:86-138 | the invariant holds in every state of every run, for any numbers of threads, rounds and slots |
| `SemaphoreRing.TokensAddUp` | pthread/ring_buffer.c:86-138 | both semaphores plus all threads between wait and post always add up to the number of slots, and the values read are a prefix of the values written |
| `SemaphoreRing.WrittenAreCounters` | pthread/ring_buffer.c:91-97 | in every state of every run a value has been written as often as producers have passed a round whose counter is that value as a byte |
| `SemaphoreRing.FinishedWrites` | pthread/ring_buffer.c:91-97 | when all is finished, with at most 256 rounds, each producer has written every counter of its loop exactly once and nothing else |
| `SemaphoreRing.RunLength` | pthread/ring_buffer.c:86-138 | the steps taken by the threads add up to the length of the run |
| `SemaphoreRing.RunsAreBounded` | pthread/ring_buffer.c:86-138 | no run is longer than three steps for each item produced or consumed |
| `SemaphoreRing.MaximalRunsFinish` | pthread/ring_buffer.c:156-176 | with N items produced and M consumed in all, a run that cannot be continued has finished every thread if and only if M <= N <= M + size, and then exactly N - M items are unread |
| `SemaphoreRing.ContinueUntilStuck` | pthread/ring_buffer.c:156-176 | every run can be continued until nobody can move |
| `SemaphoreRing.CanFinishIffBalanced` | pthread/ring_buffer.c:156-176 | from the start all threads can finish if and only if M <= N <= M + size |
| `SemaphoreRing.MainFinishes` | pthread/ring_buffer.c:163-176 | with 2 producers and 1 consumer of 10 items over 10 slots every maximal run takes 90 steps, finishes all threads, has written each of 0 to 9 exactly twice, and leaves the last 10 of the 20 values unread in the buffer |
| `ViewQueue.HashFunction` | pthread/prod_cons.c:57-67 | the running remainder is the sum of the codes of all characters, modulo 4 |
| `ViewQueue.IndicesOfViews` | pthread/prod_cons.c:18-23 | the four views hash to 0, 1, 0 and 3 |
| `ViewQueue.VerifyView` | pthread/prod_cons.c:84-96 | true if and only if the key is users_view, orders_view, inventory_view or logs_view |
| `ViewQueue.List.Append` | pthread/prod_cons.c:173-182 | links the node behind the last one of its list |
| `ViewQueue.List.RemoveFirst` | pthread/prod_cons.c:204-208 | unlinks the first node of its list, whose tail pointer stays right when it becomes empty |
| `ViewQueue.Processor.constructor` | pthread/prod_cons.c:103-141 | four separate empty lists and no tokens |
| `ViewQueue.Processor.AddView` | pthread/prod_cons.c:154-185 | an unknown view changes nothing; a known one is put behind the others of the list it hashes to, and size goes up as a byte |
| `ViewQueue.Processor.InsertView` | pthread/prod_cons.c:162-185 | the insertion for a known view: one list grows at its end, the others keep their contents |
| `ViewQueue.Processor.AppendTo` | pthread/prod_cons.c:173-182 | one list gets the view at its end and every other list keeps its contents |
| `ViewQueue.Processor.RemoveFrom` | pthread/prod_cons.c:204-208 | one list loses its first view and every other list keeps its contents |
| `ViewQueue.Processor.PostItem` | pthread/prod_cons.c:188 | gives one token |
| `ViewQueue.Processor.WaitItem` | pthread/prod_cons.c:246 | takes one token |
| `ViewQueue.Processor.ConsumeAny` | pthread/prod_cons.c:196-220 | removes the oldest view of the first non-empty list and logs it as consumed, or falls through if all lists are empty |
| `ViewQueue.Processor.ConsumeFrom` | pthread/prod_cons.c:202-218 | the removal from the first non-empty list, with size going down as a byte |
| `ViewQueue.TokenFindsView` | pthread/prod_cons.c:246-249 | a consumer that holds a token always finds a non-empty list |
| `ViewQueue.NextKeepsInv` | pthread/prod_cons.c:154-253 | every step keeps: total list length = tokens + inserted but not posted + held tokens, size is that total modulo 256, every view is in the list it hashes to, and each list is what went in without what came out |
| `ViewQueue.RunKeepsInv` | pthread/prod_cons.c:154-253 | the invariant holds in every state of every run |
| `ViewQueue.ListsAreFifo` | pthread/prod_cons.c:154-220 | in every state of every run, what went into each list is what came out of it, in the same order, followed by what is still in it, and all of it hashes to that list |
| `ViewQueue.ConsumeRemovesOne` | pthread/prod_cons.c:196-220 | in every run each consume step removes exactly one view: it never falls through |
| `ViewQueue.AllAtOnce` | pthread/prod_cons.c:154-189 | a run in which all valid requests are inserted before any is consumed: the lists hold all of them, and size that number modulo 256 |
| `ViewQueue.SizeIsTotalIff` | pthread/prod_cons.c:184-210 | size is the number of views in all lists in every state of every run if and only if at most 255 requests are valid |
| `ViewQueue.RunLength` | pthread/prod_cons.c:154-253 | no run is longer than two steps for each thread |
| `ViewQueue.MaximalRuns` | pthread/prod_cons.c:261-276 | a run that cannot be continued has let every thread return if and only if there are at least as many valid requests as consumers, and has emptied every list if and only if there are at most as many |
| `ViewQueue.ContinueUntilStuck` | pthread/prod_cons.c:314-319 | every run can be continued until nobody can move |
| `Islands.NeighboursAreOneApart` | graphs/matrix_traversal.c:31-34 | neighbours are the cells exactly one row or one column away |
| `Islands.ValuesAre` | graphs/matrix_traversal.c:27 | the land of a matrix is its nonzero entries |
| `Islands.OtherIslandsStay` | graphs/matrix_traversal.c:23-35 | taking away whole islands leaves every other island as it was |
| `Islands.FloodNeighbour` | graphs/matrix_traversal.c:31-34 | probing one neighbour removes exactly what it reaches through the land that is left |
| `Islands.FloodComplete` | graphs/matrix_traversal.c:31-34 | once all four neighbours are gone, what is gone is exactly the island of the cell |
| `Islands.DfsProbe` | graphs/matrix_traversal.c:23-35 | sets exactly the cells of one island to zero, nothing if the start is water or outside; terminates on the set of nonzero cells |
| `Islands.ProbeNeighbour` | graphs/matrix_traversal.c:31-34 | one recursive call, seen from its caller: the part cleared grows and the neighbour is no longer land |
| `Islands.ScanLand` | graphs/matrix_traversal.c:45-49 | a cell still holding 1 belongs to an island not counted before, and flooding clears exactly that island |
| `Islands.ScanOther` | graphs/matrix_traversal.c:45 | any other cell adds nothing to the islands found |
| `Islands.ScanCell` | graphs/matrix_traversal.c:45-49 | one round of the scan counts a new island exactly when it finds one |
| `Islands.ScanRow` | graphs/matrix_traversal.c:43-50 | one row of the scan keeps the count equal to the number of islands found so far |
| `Islands.BinaryFinds` | graphs/matrix_traversal.c:37-54 | on a grid of zeros and ones every island holds a 1, the islands found are all islands, and all land is cleared |
| `Islands.FoundHasOne` | graphs/matrix_traversal.c:45 | the scan finds the island of a cell if and only if that island holds a 1 |
| `Islands.AllFoundIffEachHasOne` | graphs/matrix_traversal.c:37-54 | the islands found are all 4-connected components, are as many, and leave no land when cleared, each if and only if every island holds a 1 |
| `Islands.TwoIsMissed` | graphs/matrix_traversal.c:45 | a grid of a single 2 is one island, none is found, and the grid stays as it is |
| `Islands.NumIslands` | graphs/matrix_traversal.c:37-54 | returns the number of islands that hold a 1 and zeroes exactly those; that is the number of all 4-connected components, and the grid ends all zero, if and only if every island holds a 1, as on every grid of zeros and ones |
| `LinkedQueue.Queue.Enqueue` | graphs/BFS_and_DFS.c:13-33 | appends the value to the queue |
| `LinkedQueue.Queue.Dequeue` | graphs/BFS_and_DFS.c:38-49 | removes and returns the first value, or null exactly when the queue is empty |
| `Traversal.Discover` | graphs/BFS_and_DFS.c:76-82 | discovering a vertex one hop farther than the one in progress keeps the search invariant |
| `Traversal.Pass` | graphs/BFS_and_DFS.c:74-83 | passing a column that is no successor or is known keeps the search invariant |
| `Traversal.NextVertex` | graphs/BFS_and_DFS.c:66-84 | when all columns are passed the vertex is processed, and at most n vertices ever are |
| `Traversal.WalkIsNoShorter` | graphs/BFS_and_DFS.c:66-84 | when the queue is empty no walk is shorter than the recorded distance of its end |
| `Traversal.SearchDone` | graphs/BFS_and_DFS.c:66-84 | when all is processed, the output lists exactly the reachable vertices, each once, by non-decreasing hop distance |
| `Traversal.VisitSuccessors` | graphs/BFS_and_DFS.c:74-83 | the inner loop processes one vertex, and the queue is what is listed and not processed |
| `Traversal.TryVisit` | graphs/BFS_and_DFS.c:76-82 | one round of the inner loop extends output, marks and queue together or not at all |
| `Traversal.MarkAndEnqueue` | graphs/BFS_and_DFS.c:79-81 | output, marks and queue get the same new vertex |
| `Traversal.ProcessNext` | graphs/BFS_and_DFS.c:68-83 | dequeues exactly one vertex and processes it |
| `Traversal.ProcessAll` | graphs/BFS_and_DFS.c:66-84 | runs until the queue is empty and all listed vertices are processed; terminates because at most n vertices are ever processed |
| `Traversal.BFS` | graphs/BFS_and_DFS.c:54-86 | prints exactly the vertices reachable by the edges it follows, each once, in non-decreasing order of their least number of hops, and leaves the queue empty; this is right for all edges of the matrix, hop distances included, if and only if the start is 0 or column 0 holds no 1 in the row of a vertex so reached |
| `Traversal.DFS` | graphs/BFS_and_DFS.c:91-109 | marks and prints, each once, exactly the vertices reachable through unvisited ones by the edges it follows; a first call prints what all edges of the matrix reach if and only if the start is 0 or column 0 holds no 1 in the row of a vertex so reached |
| `Traversal.VisitAll` | graphs/BFS_and_DFS.c:100-106 | the loop marks and prints everything else that the vertex reaches through unvisited ones |
| `Traversal.VisitNext` | graphs/BFS_and_DFS.c:102-105 | one round of the loop: afterwards the successor is visited if there is an edge to it |
| `Traversal.BreadthFirstInMatrix` | graphs/BFS_and_DFS.c:74-77 | in terms of the entries: exactly the vertices that walks over entries of 1 in columns from 1 lead to, each once, and none before one with a shorter walk |
| `Traversal.ReachableInMatrix` | graphs/BFS_and_DFS.c:74-77 | being reachable is having a walk over entries of 1 in columns from 1 |
| `Traversal.SameReach` | graphs/BFS_and_DFS.c:74-77 | skipping the edges into vertex 0 loses no reachable vertex if and only if the search starts at 0 or no vertex it reaches has an edge to 0 |
| `Traversal.AvoidZero` | graphs/BFS_and_DFS.c:74-77 | under that condition every walk from the start has one that is no longer and never goes back to 0 |
| `Traversal.BreadthFirstForAll` | graphs/BFS_and_DFS.c:74-77 | the output of a breadth-first search is right for all edges, hop distances included, exactly under that condition |
| `Traversal.NothingMissedFromAnywhere` | graphs/BFS_and_DFS.c:74-77 | no start loses a vertex if and only if column 0 of the matrix holds no 1 below its first row |
| `Traversal.ZeroIsMissed` | graphs/BFS_and_DFS.c:74-77 | two vertices with the only edge from 1 to 0: a search from 1 prints 1 alone although 0 is reachable |
| `Traversal.SameVertices` | graphs/BFS_and_DFS.c:145-149 | breadth-first and a first depth-first search from the same start print the same vertices |
| `CardDeck.InsertKeepsSorted` | data-structures/insertion_sort.c:64-72 | in a sorted deck the place found is behind all cards of equal or lower cost and before all others, and the deck stays sorted |
| `CardDeck.InsertIsStable` | data-structures/insertion_sort.c:64-72 | the new card comes last among those of its cost, and the cards of every other cost are unchanged |
| `CardDeck.OfCostOne` | data-structures/insertion_sort.c:67 | a single card is among those of its own cost and of no other |
| `CardDeck.OfCostConcat` | data-structures/insertion_sort.c:64-72 | the cards of one cost in a deck put together are those of its parts, in that order |
| `CardDeck.BuildDeck` | data-structures/insertion_sort.c:19-104 | adding any cards to the default deck gives exactly these and the default card, by non-decreasing cost, and the cards of each cost in the order in which they were added |
| `CardDeck.InsertionSorts` | data-structures/insertion_sort.c:38-104 | building a deck by repeated insertion gives a sorted deck of exactly the same cards |
| `CardDeck.InsertionIsStable` | data-structures/insertion_sort.c:38-104 | for every cost, repeated insertion keeps the cards of that cost in the order in which they came |
| `CardDeck.Deck.constructor` | data-structures/insertion_sort.c:19-30 | the deck starts with its default card |
| `CardDeck.Deck.AddCard` | data-structures/insertion_sort.c:38-104 | fails exactly on a name longer than 23 characters; otherwise next and prev stay mutually inverse and the card sequence is the old one with the new card in front of the first more expensive one |
| `CardDeck.Deck.FindPlace` | data-structures/insertion_sort.c:61-72 | the walk ends at the first more expensive card and remembers its predecessor |
| `CardDeck.Deck.Wire` | data-structures/insertion_sort.c:78-103 | all three wiring cases give a well-formed list with the card at its place |
| `PhraseFlipper.ReverseChunk` | problems/phrase_flipper.c:6-16 | reverses the characters between two positions and leaves all others alone; an empty chunk is allowed |
| `PhraseFlipper.ReverseWords` | problems/phrase_flipper.c:18-58 | a terminated string becomes its words in reverse order joined by single spaces, and everything behind it is unchanged; a null pointer is left alone |
| `PhraseFlipper.ReverseText` | problems/phrase_flipper.c:23-28 | the first pass reverses the whole text |
| `PhraseFlipper.FindWordEnd` | problems/phrase_flipper.c:36-41 | the scan stops at the end of the word |
| `PhraseFlipper.ReverseWord` | problems/phrase_flipper.c:36-56 | one round reverses one word in place and moves to the start of the next |
| `PhraseFlipper.ReverseEachWord` | problems/phrase_flipper.c:30-57 | the second pass reverses every word where it stands |
| `PhraseFlipper.JoinSplit` | problems/phrase_flipper.c:18-58 | joining the words of a string gives the string back |
| `PhraseFlipper.SplitJoin` | problems/phrase_flipper.c:18-58 | splitting joined words gives the words back, empty ones included |
| `PhraseFlipper.FlipTwice` | problems/phrase_flipper.c:18-58 | flipping twice restores any string |
| `PhraseFlipper.FlipIsBackwards` | problems/phrase_flipper.c:18-58 | words without spaces, joined by single spaces, flip to the same words backwards |
| `PhraseFlipper.FlipThree` | problems/phrase_flipper.c:62-64 | three words with single spaces between them come out in the opposite order |
| `PhraseFlipper.ReverseJoin` | problems/phrase_flipper.c:23-28 | reversing a phrase reverses the order of its words and each word |
| `PhraseFlipper.ReverseEachIsJoin` | problems/phrase_flipper.c:30-57 | reversing each word in place is joining the reversed words |
| `PhraseFlipper.TwoPassesFlip` | problems/phrase_flipper.c:23-57 | the two passes together are the flip |
| `PhraseFlipper.WordsMirrored` | problems/phrase_flipper.c:30-57 | the second pass holds every word of the text backwards at the same place |
| `GreedyLogic.CalculateDistance` | problems/greedy-logic.c:11-21 | the absolute difference of two indices |
| `GreedyLogic.CalculateWaterHeight` | problems/greedy-logic.c:29-32 | the lower of two walls |
| `GreedyLogic.LeftIsSpent` | problems/greedy-logic.c:58-65 | with the lower wall on the left, no narrower pair that uses it has a larger positive area |
| `GreedyLogic.RightIsSpent` | problems/greedy-logic.c:58-65 | with the lower wall on the right, no narrower pair that uses it has a larger positive area |
| `GreedyLogic.MaxArea` | problems/greedy-logic.c:44-69 | the linear scan returns the largest of 0 and min(h[i], h[j]) * (j - i) over all pairs i < j |
| `GreedyLogic.MaxAreaUnique` | problems/greedy-logic.c:44-69 | that largest area is unique, so the result is determined by the heights |

## Left out

- Printing, sleeping, timing of tasks, `free`, clean-up functions and allocation failure.
- `sockets/`, `POSIX/`, `clang-features/`, `mem-mang/`, `pointers/`, `memory/`, `unions/`, `bitwise/` and the remaining programs: operating-system calls, layout demonstrations and user interfaces, which have no algorithmic invariant.
- `multithreading/concurrent_sum.c`, `pthread/water_pump.c`, `problems/trim.c` and `count_vowels` of `strings/more_strings.c`: their code departs from their stated purpose.
- Overflow of `int` in path costs, areas and sums: these are unbounded integers. The byte-sized queue indices and counters are bytes and are proved to stay in range; the byte `size` of the view processor wraps as in C.
- Memory-model effects: a region under a mutex and a semaphore operation are atomic, and data outside them is private to its thread.
- Traversal.BFS: requires an empty queue, as `main` passes one (`graphs/BFS_and_DFS.c:131-132`), because vertices left in it by someone else are not marked as visited and would make the output follow no start vertex.
- Fairness of the scheduler: progress is stated as bounds on the length of runs and as what holds when nobody can move.
- Negative `char` values in `hash_function`: characters are taken as non-negative, as in all names of the program.
- Null arguments of the thread functions, and the creation and joining of threads: all threads exist from the start.
- The pool size is not proved non-zero: with no worker at all, accepted tasks stay queued, as `ThreadPool.AcceptedIsServedIffLive` says.
- Nothing was executed; all statements are about the model.
