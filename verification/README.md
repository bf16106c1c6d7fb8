# Verified models of concurrent graph and scheduling algorithms

This project models the shared-memory algorithms of the exercise repository in Dafny and proves what they are for. The
atomics of the modelled parts are sequentially consistent (the reference graph build uses relaxed ones, but only as
read-modify-writes of one counter at a time, between barriers), so concurrent code is modelled as a state machine in
which a step is one atomic operation (or local work) of one thread, and a schedule may pick any thread next. A fair
schedule runs every thread again and again. History variables (named as such in each file) are never read by a step to
decide what to do.

* **Union-find and spanning forest (exercise 3).** `Forest` holds the words and what every atomic operation on them
  keeps; `UniteMachine`, `UniteSafety`, `UniteRuns`, `UniteRanks` and `UniteFairness` interleave whole calls of `addEdges` by any
  number of threads; `DynamicConnectivity` is the same protocol as a class whose methods tolerate interference before
  every atomic operation; `SequentialConnectivity` is the simple form. `Csr`, `CsrParallel`, `Bfs` and `Dfs` turn the
  kept edges into parent pointers, with `AdjacencyArray` and `ReferenceGraph` as the two other builds of the adjacency array; `Writes`
  is about interleaved assignments, and `Pipeline` connects all of it. `Graphs` and `Spanning` say what a forest is.
* **Schedulers and queue (exercise 4).** `DagTask` (arrays and guards), `DagScheduler` and `DagProgress`,
  `TreeScheduler`, `BlockingQueue` (the mutex and condition variable under both), `TicketQueue`. `Counting`, `Sets`
  and `Fairness` are shared.
* **Lists (exercise 5).** `ListSpec` (the sequential list), `SingleMutexList` (a linked list behind one lock),
  `LockedList` and `LockedListFairness` (hand-over-hand locking).
* **Shortest paths (exercise 2).** `IndexedHeap` and `Dijkstra`.

Where the code and its comments disagree, the model follows the code:

* The ticketed queue writes slot `old_producer_head` but reads slot `new_consumer_tail`. Its index protocol is correct,
  but values come out first in, first out exactly when there is at most one slot (`FifoIffOneSlot`, with a two-operation
  run as the witness in `WrongSlot`).
* `changePriority` away from the top can miss a lone child in the last slot. `DownForChange` gives the exact condition,
  `LoweredTopStays` an input.

## Model

| member | source | states |
|---|---|---|
| Forest.SetParentRoot | exercise3/implementation/dynamic_connectivity.cpp:71-98 | pointing x at a node above it in (rank, id) order keeps the order and moves exactly the nodes headed by x to the new node's root |
| Forest.LinkMerges | exercise3/implementation/dynamic_connectivity.cpp:87-98 | a successful link joins two distinct components, and exactly those two |
| Forest.OthersKeepPartition | exercise3/implementation/dynamic_connectivity.cpp:71-97 | compressions and rank bumps leave the partition unchanged |
| Forest.ApplyValid | exercise3/implementation/dynamic_connectivity.cpp:64-102 | every atomic operation keeps the lexicographic order along parent pointers, the size bound 2^(rank-1) per root, and the rank bound |
| Forest.ApplyLater | exercise3/implementation/dynamic_connectivity.cpp:57-102 | ranks never fall, are frozen once a node is linked, a linked node never becomes a root again, and joined nodes stay joined |
| Forest.WinnerEarned | exercise3/implementation/dynamic_connectivity.cpp:91-99 | after an equal-rank link, a winner whose word still shows that rank heads at least 2^rank nodes, so the pending bump is earned |
| Spanning.RepresentsLink | exercise3/implementation/dynamic_connectivity.cpp:31-33 | keeping the edge of a merge keeps the kept edges acyclic, with the union-find's components and n minus roots of them |
| Spanning.SameGivenSameResult | exercise3/implementation/dynamic_connectivity_sequential.cpp:16-24 | two union-finds fed the same edges have the same components and kept equally many edges |
| UniteMachine.StepIsAction | exercise3/implementation/dynamic_connectivity.cpp:64-102 | with arbitrarily stale roots and ranks, each step of a thread has the effect of one enabled link, compression, bump, or none; whatever compare-and-swap is due is made, so afterwards the word it was for no longer is the expected one |
| UniteSafety.StepInv | exercise3/implementation/dynamic_connectivity.cpp:10-102 | the whole-state invariant (forest, links, counters, buffer slices, barrier, every thread's knowledge) survives any step of any thread |
| UniteRuns.SpanningForest | exercise3/implementation/dynamic_connectivity.cpp:10-46 | when a call returns, after any number of earlier calls and under any schedule, the buffer holds given edges only, acyclic, exactly n minus #components of them, with the components of the union-find and of all edges given so far |
| UniteRuns.RanksAreLogarithmic | exercise3/implementation/dynamic_connectivity.cpp:91-99 | in every reachable state a root of rank k heads at least 2^(k-1) nodes and 2^(rank-1) <= n for every node |
| UniteRuns.FewChanges | exercise3/implementation/dynamic_connectivity.cpp:87-98 | links and rank bumps of a whole run together are at most 2(n-1) |
| UniteRuns.FindIsSimple | exercise3/implementation/dynamic_connectivity.cpp:57-74 | a find meets no node twice, even while others link and compress, so its recursion is shallower than n |
| UniteRuns.UniteProgress | exercise3/implementation/dynamic_connectivity.cpp:76-102 | every operation inside `unite` lowers a bound, a retry being paid for by a change of another root word |
| UniteRuns.UniteReturns | exercise3/implementation/dynamic_connectivity.cpp:76-102 | under every schedule a thread inside `unite` has left it once it was scheduled (2n+1)(4n+4) times |
| UniteRuns.SomeoneMoves | exercise3/implementation/dynamic_connectivity.cpp:24-45 | no deadlock: until a call is complete some step changes the state |
| UniteRanks.RaiseRises | exercise3/implementation/dynamic_connectivity.cpp:91-99 | once the thread that linked at a tie has moved on, the winner either ranks above the loser or is no root any more |
| UniteRanks.RootsOutrankChildren | exercise3/implementation/dynamic_connectivity.cpp:87-99 | with any number of threads under any schedule, every root ranks above all its children, but for a tie that a thread is just about to break; above all of them once the call is complete |
| UniteRanks.LoneRanks | exercise3/implementation/dynamic_connectivity.cpp:87-99 | when calls run on one thread each, ranks increase strictly along all parent pointers, so every representative is fewer steps away than its rank, and at most log2 n |
| UniteRanks.LoneFind | exercise3/implementation/dynamic_connectivity.cpp:64-74 | what such a find has read and has yet to read are together that many words |
| UniteRanks.LoneFindsCompress | exercise3/implementation/dynamic_connectivity.cpp:64-80 | when a lone thread compares the two roots, each end of the edge is at its root or points directly at it |
| UniteFairness.AddEdgesReturns | exercise3/implementation/dynamic_connectivity.cpp:10-46 | under every fair schedule a whole call completes, loop, `unite`s, barrier and slice copying included, and leaves what SpanningForest says |
| DynamicConnectivity.DynamicConnectivity.constructor | exercise3/implementation/dynamic_connectivity.hpp:64-104 | all words start as roots of rank 1 |
| DynamicConnectivity.DynamicConnectivity.CompareExchange | exercise3/implementation/dynamic_connectivity.cpp:71-98 | a strong compare-and-swap under interference: success applies the claimed action to the state just before it, stores the word and is entered among the caller's own deeds; failure means the word differed |
| DynamicConnectivity.DynamicConnectivity.FindRepresentative | exercise3/implementation/dynamic_connectivity.cpp:57-62 | the answer was the representative at an instant of the call |
| DynamicConnectivity.DynamicConnectivity.FindRepresentativeAndCompress | exercise3/implementation/dynamic_connectivity.cpp:64-74 | root and rank were those of the node at one instant of the call; all it stores is that root, and afterwards the node is at or points at a root found for it during the call, unless its word has changed |
| DynamicConnectivity.DynamicConnectivity.TryLink | exercise3/implementation/dynamic_connectivity.cpp:87-100 | success is one link of this call, which joined the two components, and the winner by now ranks above the loser or has been hung below another root; failure means no link, because a root word changed |
| DynamicConnectivity.DynamicConnectivity.RaiseRank | exercise3/implementation/dynamic_connectivity.cpp:91-99 | the winner of the tie no longer shows the rank of the loser |
| DynamicConnectivity.DynamicConnectivity.Unite | exercise3/implementation/dynamic_connectivity.cpp:76-102 | terminates; the nodes are joined afterwards; true means exactly one link of this call, which merged the two components, apart until then, and whose tie has been broken; false means this call linked nothing; if no other thread linked meanwhile, the answer is true exactly if the nodes were apart before; both nodes have been compressed |
| DynamicConnectivity.DynamicConnectivity.Connected | exercise3/implementation/dynamic_connectivity.hpp:122-131 | linearizable: the answer equals same-component at an instant between call and return |
| SequentialConnectivity.SequentialConnectivity.FindRepresentative | exercise3/implementation/dynamic_connectivity_sequential.cpp:58-65 | returns the root, after as many steps as the node is deep, at most log2 n |
| SequentialConnectivity.SequentialConnectivity.FindRepresentativeAndCompress | exercise3/implementation/dynamic_connectivity_sequential.cpp:45-56 | returns the root; afterwards every node on the way points directly at it and nothing else has changed, nobody's representative either |
| SequentialConnectivity.SequentialConnectivity.Hang | exercise3/implementation/dynamic_connectivity_sequential.cpp:74-80 | the root of lower rank goes below the other, whose rank grows on a tie; ranks stay strictly increasing and roots of rank k keep heading at least 2^k nodes |
| SequentialConnectivity.SequentialConnectivity.Unite | exercise3/implementation/dynamic_connectivity_sequential.cpp:67-82 | true exactly if the components differed, and then exactly they are merged; both nodes point directly at what was their root |
| SequentialConnectivity.SequentialConnectivity.AddEdges | exercise3/implementation/dynamic_connectivity_sequential.cpp:16-28 | the kept edges, each followed by its reverse, are a spanning forest of all edges given so far, and afterwards parents are -1 exactly on roots, parent edges are given edges, and two chains end alike exactly if the given edges connect the nodes |
| SequentialConnectivity.SequentialConnectivity.SearchRoots | exercise3/implementation/dynamic_connectivity_sequential.cpp:84-121 | the searches from all roots over the adjacency array turn the kept edges into such parents |
| AdjacencyArray.AdjacencyArray.constructor | exercise3/implementation/adj_array.hpp:29-49 | every node's segment lists the heads of exactly its arcs, with multiplicity and in list order |
| AdjacencyArray.DoubledIsCsr | exercise3/implementation/dynamic_connectivity_sequential.cpp:20-26 | for a list of edges with their reverses that array is an adjacency array of the undirected edges |
| SequentialConnectivity.SequentialConnectivity.Connected | exercise3/implementation/dynamic_connectivity_sequential.cpp:32-35 | true exactly if a path of given edges joins the nodes |
| Csr.SequentialBuild | exercise3/implementation/graph_algorithms.hpp:77-118 | every node's segment lists its neighbours, with multiplicity, in edge order |
| Csr.SegmentIsAdjacent | exercise3/implementation/graph_algorithms.hpp:172-173 | a segment of an adjacency array holds exactly the adjacent nodes |
| Csr.SegmentHasNoDuplicates | exercise3/implementation/graph_algorithms.hpp:172-173 | in a forest no segment names a node twice or its own node |
| CsrParallel.StepInv | exercise3/implementation/graph_algorithms.hpp:27-72 | every interleaved counter increment, slot draw and store keeps slots distinct and inside their node's segment |
| CsrParallel.ParallelBuild | exercise3/implementation/graph_algorithms.hpp:12-74 | for every interleaving of the fetch_adds and stores each of the 2m slots is stored to exactly once and each segment is a permutation of what the sequential build lists |
| ReferenceGraph.StepMirrors | exercise3/implementation/reference_solution.cpp:110-141 | every step of the decrementing build corresponds to one of the incrementing build with the slots of each segment mirrored |
| ReferenceGraph.ReferenceBuild | exercise3/implementation/reference_solution.cpp:103-142 | for every interleaving of the fetch_adds, fetch_subs and stores the finished graph is an adjacency array of the edges |
| Bfs.SearchFrom | exercise3/implementation/graph_algorithms.hpp:161-187 | terminates; from one root, explores its whole component with parents one level up, writing only there |
| Bfs.SearchThread | exercise3/implementation/graph_algorithms.hpp:142-188 | one thread's share of roots: parents set in exactly the components of those roots, everything else untouched |
| Bfs.AnyInterleaving | exercise3/implementation/graph_algorithms.hpp:140-193 | since threads write in disjoint components, every interleaving of their writes leaves the same array |
| Bfs.ParallelSearch | exercise3/implementation/graph_algorithms.hpp:121-194 | for any dealing of nodes to threads the parent array is a parent forest (-1 exactly on roots, neighbours one level up elsewhere), and it is what every interleaving of the threads' writes leaves, each thread's writes being a function of its share, the root test and the adjacency array alone |
| Bfs.ChainEndsAtRoot | exercise3/implementation/graph_algorithms.hpp:176 | following parents as often as the node's level ends at its union-find root |
| Dfs.NoShortcut | exercise3/implementation/reference_solution.cpp:171-175 | a second way from a newly entered node back to the visited tree would be a cycle |
| Dfs.SearchFrom | exercise3/implementation/reference_solution.cpp:162-177 | the search without visited marks terminates and assigns each node of the component exactly once, and no other node |
| Dfs.RebuildParents | exercise3/implementation/reference_solution.cpp:152-178 | searching every root leaves a parent forest, the same for every interleaving of the roots' searches, whose writes are fixed by the root and the adjacency array |
| Pipeline.FinishCall | exercise3/implementation/dynamic_connectivity.cpp:10-54 | end to end: for all schedules of links, array build and searches, parents are -1 exactly on union-find roots, parent edges are given edges, and two chains end alike exactly if the given edges connect the nodes |
| Pipeline.FinishReference | exercise3/implementation/reference_solution.cpp:103-178 | for any union-find whose kept edges span the given ones: the reference graph build under any interleaving, then its searches under any interleaving, leave parents with the same end-to-end meaning |
| Pipeline.AgreesWithSequential | exercise3/implementation/dynamic_connectivity_sequential.cpp:16-82 | concurrent and sequential union-find fed the same edges have the same components and keep equally many edges |
| TicketQueue.StepInv | exercise4/implementation/concurrent_queue.hpp:49-126 | index order, ticket ownership, slot contents and read values survive every step, with stale loads and spurious failures |
| TicketQueue.IndexInvariant | exercise4/implementation/concurrent_queue.hpp:20-21 | producer_tail <= consumer_tail <= consumer_head <= producer_head <= producer_tail + capacity in every reachable state |
| TicketQueue.OneOwner | exercise4/implementation/concurrent_queue.hpp:55-65 | pushes in flight own different tickets and write different slots |
| TicketQueue.PublishedInOrder | exercise4/implementation/concurrent_queue.hpp:68-80 | consumer_head and producer_tail move by one, by the owner of the ticket they stood at, after its slot access |
| TicketQueue.GivesUpOnlyWhen | exercise4/implementation/concurrent_queue.hpp:49-126 | every way out of try_push without a ticket is at an instant when every slot is reserved, and of try_pop when nothing is published; a call that finds this with a fresh index does fail; a lost reservation leads back to the check with a fresh index, and a ticket is left only by publishing it |
| TicketQueue.ReservesUnless | exercise4/implementation/concurrent_queue.hpp:55-101 | a reservation succeeds unless another thread was first or the weak compare-and-swap fails without reason |
| TicketQueue.CallsKeepValues | exercise4/implementation/concurrent_queue.hpp:49-126 | a push carries its value from the call to its slot and enters it under its ticket; a pop reads its ticket once and returns what it read |
| TicketQueue.TurnCanBeTaken | exercise4/implementation/concurrent_queue.hpp:68-125 | while a ticket is unpublished the thread whose turn it is can move |
| TicketQueue.LoadReads | exercise4/implementation/concurrent_queue.hpp:104 | a pop with ticket t reads the value of ticket t+1, or of ticket t+1-capacity, or the initial value, and nothing else |
| TicketQueue.WrongSlot | exercise4/implementation/concurrent_queue.hpp:65-104 | with two slots or more, one push and one pop by one thread yield the initial value instead of the pushed one |
| TicketQueue.FifoIffOneSlot | exercise4/implementation/concurrent_queue.hpp:49-126 | all schedules are first in, first out if and only if the capacity is at most one |
| DagTask.IncomingIsPredecessors | exercise4/implementation/dag.hpp:62-64 | p occurs in v's incoming list exactly as often as v occurs among p's children |
| DagTask.FillParents | exercise4/implementation/dag.hpp:62-64 | the decrementing fill turns segment ends into segment starts and fills every segment from the back |
| DagTask.DagTask.constructor | exercise4/implementation/dag.hpp:20-65 | the arrays list every node's children in order and exactly its predecessors |
| DagTask.DagTask.Work | exercise4/implementation/dag.hpp:68-84 | work is refused exactly if the node is done or a predecessor is not, and otherwise marks just this node |
| DagScheduler.StepInv | exercise4/implementation/dag_solver.hpp:67-105 | every step keeps: each node has as many tokens, workers and pending subtractions as its status says, and unclaimed children are still on offer |
| DagScheduler.SafeInEveryRun | exercise4/implementation/dag_solver.hpp:67-104 | in every run each node is worked on at most once, after all its parents, and no guard in work fires |
| DagScheduler.StopMeansDone | exercise4/implementation/dag_solver.hpp:92-96 | stop items appear only when all nodes are done, and then one for each thread |
| DagScheduler.SomeReadyNodeIsAlive | exercise4/implementation/dag_solver.hpp:76-103 | while a node is undone, some undone node with all parents done has exactly one token or worker, or a parent still offering it |
| DagScheduler.NeverStuck | exercise4/implementation/dag_solver.hpp:67-105 | workers are never all blocked before all have returned |
| DagScheduler.CompleteAtTheEnd | exercise4/implementation/dag_solver.hpp:56-112 | when all workers have returned every node was worked on exactly once and the queue is empty |
| DagScheduler.EveryRun | exercise4/implementation/dag_solver.hpp:56-112 | from the initial state, every schedule leads to a state that can go on or has shut down properly |
| DagProgress.ProductiveStep | exercise4/implementation/dag_solver.hpp:67-105 | every step other than taking, checking and re-queueing a node that is not ready lowers what is left to do |
| DagProgress.HelperStep | exercise4/implementation/dag_solver.hpp:76-85 | the turn of the thread that checks the awaited node, has to re-queue it, or takes the next items brings its token closer to a successful check |
| DagProgress.OthersStep | exercise4/implementation/dag_solver.hpp:76-85 | any other thread's unproductive turn brings it closer too, or leaves it where it is with the same helper |
| DagProgress.FairRunsEnd | exercise4/implementation/dag_solver.hpp:56-112 | under every fair schedule all workers return |
| DagProgress.NoTrap | exercise4/implementation/dag_solver.hpp:56-112 | whatever any schedule, fair or not, has done so far, some continuation lets all workers return |
| TreeScheduler.StepInv | exercise4/implementation/tree_solver_naive.hpp:46-57 | tickets on offer, held and used are n together; a node circulates or is done exactly if its parent is done, and once |
| TreeScheduler.NeverWaitsInVain | exercise4/implementation/tree_solver_naive.hpp:48-54 | a ticket holder waits at an empty queue only while some thread has a node or is about to push one |
| TreeScheduler.CompleteAtTheEnd | exercise4/implementation/tree_solver_naive.hpp:39-64 | when all threads have returned every node was worked on and the queue is empty |
| TreeScheduler.StepsAreBounded | exercise4/implementation/tree_solver_naive.hpp:46-57 | every step but waiting lowers a potential |
| TreeScheduler.EveryRun | exercise4/implementation/tree_solver_naive.hpp:39-64 | every run: each node at most once and after its parent, no guard fires, nobody waits in vain, and at most (edges + 5) n + threads steps are not waiting |
| TreeScheduler.FairRunsEnd | exercise4/implementation/tree_solver_naive.hpp:39-64 | under every fair schedule all threads return |
| BlockingQueue.StepInv | exercise4/implementation/mutex_std_queue.hpp:16-33 | one lock holder, no pop from an empty queue, and while anybody sleeps every queued value has the attention of a thread that will test the queue or notify |
| BlockingQueue.FirstInFirstOut | exercise4/implementation/mutex_std_queue.hpp:16-33 | under every schedule and with spurious wake-ups, what was popped is a prefix of what was pushed and the queue is the rest |
| BlockingQueue.CallsKeepValues | exercise4/implementation/mutex_std_queue.hpp:16-33 | a pop returns the value its own step took from the front, and a push enqueues the value it was called with, in exactly one step |
| BlockingQueue.CallersSee | exercise4/implementation/mutex_std_queue.hpp:16-33 | under every schedule the values returned by pops, in order of return, then one a pop may hold, then the queue, are the values enqueued, in order; those are the values push was called with, but for those still on their way |
| BlockingQueue.SleepsUntilNotified | exercise4/implementation/mutex_std_queue.hpp:16-27 | a pop sleeps exactly if it finds the queue empty, until it is notified or wakes spuriously; every push notifies, and wakes one sleeper if there is any |
| BlockingQueue.NoLostWakeUp | exercise4/implementation/mutex_std_queue.hpp:21-27 | some call can go on unless all calls under way are pops asleep at an empty queue, although notify comes after the unlock |
| ListSpec.SetSemantics | exercise5/src/lists/single_mutex_list.h:87-149 | the sequential list stays free of duplicates and its operations add, find and remove one element of a set |
| ListSpec.AnswersTellEffects | exercise5/src/lists/single_mutex_list.h:87-149 | insert and erase answer true exactly if they change the list, find exactly if inserting would not |
| SingleMutexList.SingleMutexList.Insert | exercise5/src/lists/single_mutex_list.h:87-111 | appends the value if it is absent, and answers true exactly if the list changed |
| SingleMutexList.SingleMutexList.Find | exercise5/src/lists/single_mutex_list.h:114-125 | true exactly if the value is in the list |
| SingleMutexList.SingleMutexList.Erase | exercise5/src/lists/single_mutex_list.h:128-149 | splices out the first occurrence of the value, and answers true exactly if the list changed |
| LockedList.StepInv | exercise5/src/lists/node_mutex_list.h:107-238 | every step keeps the chain, mutual exclusion, the legal log, and that no reachable node up to a thread's locked position matches its value |
| LockedList.TakesEffectOnce | exercise5/src/lists/node_mutex_list.h:107-238 | each call takes effect in exactly one step between start and return, and returns what was logged there |
| LockedList.Linearizable | exercise5/src/lists/node_mutex_list.h:107-238 | under every schedule the answers, in that order, are those of the single-lock list, whose contents the links spell out; no value is reachable twice |
| LockedList.AnswersAlone | exercise5/src/lists/node_mutex_list.h:107-238 | under every schedule each answer follows from the earlier answers: insert says true exactly if the value has been inserted and erased equally often, find and erase exactly if it has been inserted once more |
| LockedList.InsertedNotErased | exercise5/src/lists/node_mutex_list.h:107-238 | under every schedule a value's successful inserts outnumber its successful erases by one if the links reach it, and by none otherwise |
| LockedList.WaitsOnlyFor | exercise5/src/lists/node_mutex_list.h:107-238 | lookups share locks: a lookup waits only for an insertion or erasure that holds the lock, these wait for anybody |
| LockedList.NoDeadlock | exercise5/src/lists/node_mutex_list.h:112-237 | with a call under way some call can make its next step |
| LockedListFairness.CallsReturn | exercise5/src/lists/node_mutex_list.h:107-238 | finitely many insert, find and erase calls, any number per thread, all return under every fair schedule |
| IndexedHeap.UpRestores | exercise2/implementation/indexed_priority_queue.hpp:126-139 | sift-up restores heap order, keeps the index the exact inverse of the keys, and stores the new entry |
| IndexedHeap.DownForPop | exercise2/implementation/indexed_priority_queue.hpp:102-108 | sifting the last entry down while it still occupies the last slot leaves an ordered, correctly indexed heap without the removed key |
| IndexedHeap.DownForChange | exercise2/implementation/indexed_priority_queue.hpp:142-172 | sifting down in place keeps index and contents; the order holds afterwards if and only if not (even size, last slot's parent on the better-child path from the slot, new value below the last one) |
| IndexedHeap.LoweredTopStays | exercise2/implementation/indexed_priority_queue.hpp:145-146 | two entries, the top lowered below the other: it stays on top |
| IndexedHeap.TopIsExtremal | exercise2/implementation/indexed_priority_queue.hpp:54 | nothing in an ordered heap goes before the top |
| IndexedHeap.IndexedHeap.Reserve | exercise2/implementation/indexed_priority_queue.hpp:35-37 | a larger capacity changes neither the contents nor the validity |
| IndexedHeap.IndexedHeap.Push | exercise2/implementation/indexed_priority_queue.hpp:72-75 | the abstract map gains the key, and the queue stays valid |
| IndexedHeap.IndexedHeap.ChangePriority | exercise2/implementation/indexed_priority_queue.hpp:81-86 | the abstract map changes at the key; heap order is kept towards the top, and away from it exactly if the last slot is not missed |
| IndexedHeap.IndexedHeap.PushOrChangePriority | exercise2/implementation/indexed_priority_queue.hpp:91-96 | the abstract map gains or changes the key; heap order fails in exactly the one case in which changing the priority misses the last slot |
| IndexedHeap.IndexedHeap.Pop | exercise2/implementation/indexed_priority_queue.hpp:102-108 | removes and returns an entry no other goes before; the rest of the map is unchanged |
| IndexedHeap.IndexedHeap.Clear | exercise2/implementation/indexed_priority_queue.hpp:113-116 | whatever the state, the queue is valid and empty |
| Dijkstra.PathsAreLonger | exercise2/implementation/dijkstra.hpp:52-74 | every path to a node not yet removed is at least as long as the smallest queued distance |
| Dijkstra.RemovalIsFinal | exercise2/implementation/dijkstra.hpp:53-59 | the node taken from the queue has its final distance, which makes the early exit right, and was not taken before |
| Dijkstra.DijkstraHelper.Dijkstra | exercise2/implementation/dijkstra.hpp:37-76 | returns the length of a shortest path, infinity exactly if there is none; no node is taken from the queue twice |

## Left out

- ParallelSearch: interleaves the threads' writes to the parent array; the marks and frontiers are each thread's own, and no thread reads the array.
- Scheduling by OpenMP is modelled as "any thread may take any remaining index next"; a fair schedule also hands out indices as long as there are any.
- Machine integers: ids, ranks, indices and counters are unbounded, as the code assumes no overflow (the constructor refuses too many nodes).
- Floating point: priorities and edge weights are real numbers, distances reals or infinity, weights non-negative.
- Comparison objects of the heap: the two orders in use, std::less and std::greater.
- Queue items of the schedulers: node ids and the stop item are a datatype instead of ids shifted by one and a maximal value.
- The schedulers use push and pop as single steps; `BlockingQueue` shows separately what those two guarantee, and its `reset`, `empty` and `size` are not modelled.
- Locks, condition variables and atomics themselves: any waiting thread may go next.
- The reference solution's racing links use relaxed atomics and are not modelled; its graph build and its search are, for any union-find.
- Mutex variants C, D and E of the union-find, the marked list, the tree solver with per-thread queues and the queue that swaps elements: their own comments or code rule out the properties proved here.
- `clear` and `size` of the hand-over-hand list, handles and their lifetime.
- File input, command lines, timing, benchmarks, allocation and moving of objects: graphs are arguments.
- Hash tables, Bloom filter, d-ary heaps, plain graph classes and the other exercises: easier relatives of what is modelled.
