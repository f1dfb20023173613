# Verified model of the GAP graph kernels

This project models the graph kernels of the benchmark suite, the builder that
turns an edge list into compressed sparse rows, and the layer that publishes a
graph in shared memory, and proves what each of them promises.

Serial code is modelled in its own form: methods over arrays, bitmaps and
queues, with the loops of the source. Parallel loops whose iterations race are
also modelled as state machines: every thread, chunk or iteration is a process
that makes one access to shared memory per step (a reset between barriers and a
copy into reserved slots are one step each, and commute with the steps around
them), barriers are moves of their own, and the theorems hold for every run, that
is for every interleaving. Heuristics (the sampled component, the direction
switch, whether relabelling pays off, which source is picked) are arbitrary inputs
there; what the direction switch does in a search by one thread is in BfsPlans.

These loops have a machine:

- the whole of delta-stepping (DeltaSteppingThreads), Afforest with Link and
  Compress (AfforestThreads), and Shiloach-Vishkin (ShiloachVishkinThreads);
- TDStep with its queue buffers (TopDownThreads, over BfsTrees and
  SlidingQueues), BUStep with its plain bit setting (BottomUpThreads),
  QueueToBitmap (Bitmaps) and BitmapToQueue (SlidingQueues), and whole searches
  made of them in any order (BfsThreads, BfsEnds);
- the levels of the search for path counts, with atomic bits, additions and
  queue buffers (PbfsThreads), and whole searches made of levels (SearchThreads);
- the scatter of MakeCSR, plain and weighted (ScatterThreads, WeightedBuild), and
  publication with its readers (PublicationThreads).

The other parallel loops have none, because no iteration reads what another one
of the same loop writes, and what iterations share is only added to:

- InitParent, the loops that fill or clear an array, and GenIndex: each iteration
  writes only its own cell;
- CountDegrees: only fetch-and-adds, whose sum has no order;
- ParallelPrefixSum: each block writes only its own sums, the bulk sums between
  the two loops are serial;
- SquishCSR and RelabelByDegree: each iteration fills, sorts or copies within one
  row, and no two iterations have the same row;
- PageRankPull and the contributions before it: each iteration writes only its
  own score and reads contributions that are settled, and the error is a
  reduction;
- back-propagation: each iteration writes its own delta and score and reads only
  deltas of the deeper level, behind a barrier;
- OrderedCount: a reduction over a graph that does not change.

| files | what they model |
|---|---|
| Walks, DeltaSteppingThreads, DeltaStepping, SsspVerifier | shortest paths: the parallel program, one thread of it, and the serial check (src/sssp.cc) |
| Components, Compression, AfforestThreads, ConnectedComponents, ShiloachVishkinThreads, ShiloachVishkin | connected components, twice, and the check (src/cc.cc, src/cc_sv.cc) |
| Lists, Csr, CsrBuild, ScatterThreads, InPlaceEdges, InPlaceSymmetrize, InPlaceBuild, WeightedSquish, WeightedBuild, Relabel, EdgeCounts | graph construction (src/builder.h, src/graph.h) |
| Layers, BfsTrees, BfsPlans, Bfs, TopDownThreads, BottomUpThreads, BfsThreads, BfsEnds, BfsVerifier, Bitmaps, SlidingQueues | breadth-first search and its containers: one thread of it, the two kinds of step and whole searches as parallel programs, and the check (src/bfs.cc, src/bitmap.h, src/sliding_queue.h) |
| PathCounts, PathSets, PbfsThreads, SearchThreads, BrandesSearch, Centrality, BcVerifier | betweenness centrality (src/bc.cc) |
| Triangles, TriangleCounting, Relabel | triangle counting (src/tc.cc) |
| PageRank, PageRankLaws, PageRankRun | PageRank over exact numbers (src/pr.cc) |
| Publication, PublicationThreads | the shared-memory image of a graph (src/graph.h) |

Where the code and its documentation differ, the model follows the code:

- README-SDM.md says that the synchronization word is unset while the graph is
  being written; the writer never clears it (src/graph.h:199-241). The protocol
  is therefore proved safe exactly when that word starts different from 1, or the
  image is already in place (`PublicationThreads.SafeExactlyWhen`).

Where the code falls short of what it is for:

- The offset raise of the in-place build adds the word one past the end of
  `invs_needed` to the total (src/builder.h:333-336), and the total is the
  distance over which the rows are then copied (src/builder.h:349). That word is
  an arbitrary argument of the model. For a word that is not negative the
  symmetrized build stays inside its memory, and is right, exactly when the word
  is 0 or the edge list holds self-loops only; otherwise some copy reads below
  the first cell (`InPlaceBuild.MakeCSRInPlace`). For any word at all,
  `InPlaceSymmetrize.CopiesInsideExactlyWhen` tells when every copy reads inside
  the block.
- A negative number of neighbour rounds reaches `out_neigh` as a huge unsigned
  offset (src/cc.cc:128, src/graph.h:124-128), so that the last loop links no
  outgoing edge. On an undirected graph the labels are then right exactly when no
  edge joins two different vertices (`AfforestThreads.NegativeRounds`). On a
  directed graph they are right in every run when every edge lies on a cycle
  (`AfforestThreads.NegativeRoundsOnCycles`), and wrong in every run that skips
  the label of a vertex which edges enter and none leaves
  (`AfforestThreads.NegativeRoundsLoseSink`); in between they are right exactly
  in the runs in which no edge enters the skipped component
  (`AfforestThreads.NegativeRoundsDirected`). The only caller passes 2.

## Model

| member | source | states |
|---|---|---|
| Walks.NoOverflowIff | src/sssp.cc:64-73 | adding a weight to any finite distance stays inside 32 bits exactly when the weight is at most the stated bound, that is, when 0x3FFF_FFFE plus the weight is below 2^31 |
| Walks.ExactIsUnique | src/sssp.cc:161-190 | the array of exact distances is unique, so kernel and oracle can only agree |
| Walks.ExactIsLightest | src/sssp.cc:64-89 | said with the number: an array is exact exactly when each entry below 0x3FFF_FFFF is the weight of a walk that no walk undercuts, and an entry is 0x3FFF_FFFF exactly when no walk is lighter than that |
| Walks.FixpointIsExact | src/sssp.cc:68-85 | a sound array with no edge left to relax holds the lightest walk to every vertex |
| DeltaSteppingThreads.FinishedIsExact | src/sssp.cc:87-150 | any number of threads, any delta of at least one, any interleaving of reads, swaps, pushes, votes and copies: at the end each distance below 0x3FFF_FFFF is the weight of a lightest walk, and it is 0x3FFF_FFFF exactly when no walk is lighter than that |
| DeltaSteppingThreads.StepKeepsInv | src/sssp.cc:97-146 | every step keeps: the tail of a still relaxable edge is pending in a bin, the frontier, or a thread's hands, at the index of its distance |
| DeltaSteppingThreads.StepHaveOld | src/sssp.cc:72-74 | the addition of a weight never wraps around in a run |
| DeltaSteppingThreads.NeverStuck | src/sssp.cc:101-145 | before the end some thread or barrier can always move |
| DeltaSteppingThreads.BinsNeverGoBack | src/sssp.cc:120-136 | bins are processed in non-decreasing order |
| DeltaSteppingThreads.StepShrinks | src/sssp.cc:74-84 | every step lowers (sum of distances, pending work, steps left) lexicographically, under any interference |
| DeltaSteppingThreads.EveryScheduleEnds | src/sssp.cc:101-145 | no schedule runs forever |
| DeltaSteppingThreads.ResetCommutes | src/sssp.cc:128-135 | the two stores of the single block may land before or after any step that another thread takes between the barriers: the outcome is the same |
| DeltaSteppingThreads.CopiesCommute | src/sssp.cc:136-142 | copies into different reserved slots give one result in either order |
| DeltaSteppingThreads.CopyMayBeInterrupted | src/sssp.cc:136-142 | a copy may be interrupted at any entry by another thread's copy: the outcome is the same |
| DeltaStepping.RelaxEdge | src/sssp.cc:71-84 | the exact effect of one edge on distances and bins when nobody interferes |
| DeltaStepping.RelaxEdges | src/sssp.cc:68-85 | relaxing a row keeps the pending-work invariant, and lowers the distances or changes nothing |
| DeltaStepping.ProcessFrontier | src/sssp.cc:106-111 | dropping stale frontier entries loses no work |
| DeltaStepping.FuseBins | src/sssp.cc:112-119 | fusion loses no work and stops exactly when the bin is empty or holds 1000 entries or more |
| DeltaStepping.SwitchBuffers | src/sssp.cc:101-143 | the voted bin becomes the shared frontier, and the other halves of the double buffers are reset |
| DeltaStepping.DeltaStep | src/sssp.cc:87-150 | for every delta of at least one, with termination: each distance below 0x3FFF_FFFF is the weight of a lightest walk, and it is 0x3FFF_FFFF exactly when no walk is lighter than that |
| SsspVerifier.Dijkstra | src/sssp.cc:163-181 | the oracle with lazy deletion computes those distances, with the same number for what is not reached |
| SsspVerifier.Verify | src/sssp.cc:161-190 | true exactly when the given array holds those distances |
| Components.MinLabelsUnique | src/cc.cc:94-149 | the labelling by smallest vertices is unique |
| Components.MinLabelsMatch | src/cc.cc:94-149 | with those labels two vertices carry the same one exactly when they are connected |
| Components.RootAfterHook | src/cc.cc:50-52 | hooking a root merges exactly two trees |
| Components.RootAfterJump | src/cc.cc:63-65 | pointer jumping changes no root |
| Compression.AllStoppedIsFlat | src/cc.cc:60-67 | once every crawler has stopped, each vertex points at its root |
| AfforestThreads.LinkStep | src/cc.cc:42-56 | a step of Link, won or lost, never splits a tree, keeps comp[x] <= x, and joins the ends of the edge when it is done |
| AfforestThreads.EdgeJoined | src/cc.cc:121-145 | each edge skipped on one side is linked from the other, or its ends share a tree already |
| AfforestThreads.AfforestIsCorrect | src/cc.cc:94-149 | any interleaving, any number of rounds that is not negative, any skipped label: every vertex ends with the smallest vertex of its component |
| AfforestThreads.NegativeRounds | src/cc.cc:104-131 | with a negative number of rounds on an undirected graph the labels are right exactly when no edge joins two different vertices |
| AfforestThreads.NegativeRoundsDirected | src/cc.cc:104-145 | on a directed graph with a negative number of rounds every edge that does not enter the skipped component is joined, and the labels of a run are right exactly when none enters it from outside |
| AfforestThreads.NegativeRoundsOnCycles | src/cc.cc:104-145 | when every edge of the directed graph lies on a cycle, above all when each has its reverse, the labels are right for every schedule and every skipped label |
| AfforestThreads.NegativeRoundsLoseSink | src/cc.cc:104-145 | when the skipped label is that of a vertex which edges enter and none leaves, every finished run is wrong; one edge from 0 to 1 with label 1 skipped is the smallest case |
| AfforestThreads.StepShrinks | src/cc.cc:42-56 | a lexicographic measure falls with every step, in Link by the sum of the two labels even when the swap loses |
| AfforestThreads.NeverStuck | src/cc.cc:94-149 | before the end some iteration or barrier can always move, for any number of rounds, also a negative one |
| AfforestThreads.EveryScheduleEnds | src/cc.cc:94-149 | no schedule runs forever, for any number of rounds |
| ConnectedComponents.Link | src/cc.cc:42-56 | afterwards u and v share a tree, and no tree has been split |
| ConnectedComponents.Compress | src/cc.cc:60-67 | all trees end with depth one and the same vertices |
| ConnectedComponents.Afforest | src/cc.cc:94-149 | every vertex gets the smallest vertex of its component |
| ConnectedComponents.ExploredIsClosed | src/cc.cc:189-209 | a path never leaves what a finished search visited and labelled |
| ConnectedComponents.CCVerifier | src/cc.cc:175-215 | true exactly when labels coincide with undirected connectivity, although all searches share one visited set |
| ShiloachVishkinThreads.HookWrite | src/cc_sv.cc:69-72 | a racing, possibly lost hook write keeps comp[x] <= x and keeps x connected to comp[x] |
| ShiloachVishkinThreads.ShiloachVishkinIsCorrect | src/cc_sv.cc:50-84 | in every interleaving of the unsynchronized hooks the result is the smallest vertex of each component |
| ShiloachVishkinThreads.IterationBound | src/cc_sv.cc:57-81 | every changing iteration lowers the number of roots, so there are at most as many iterations as vertices, or one |
| ShiloachVishkinThreads.IterationsCounted | src/cc_sv.cc:55-81 | in every run the counter is the number of iterations begun: each iteration passes two barriers |
| ShiloachVishkinThreads.EveryScheduleEnds | src/cc_sv.cc:57-81 | no schedule runs forever |
| ShiloachVishkin.ShiloachVishkin | src/cc_sv.cc:50-84 | smallest labels; the iteration count is the number of passes, each of which removes a root except the last, which changes nothing, and it is at most the number of vertices, or one |
| ShiloachVishkin.SameAnswer | src/cc_sv.cc:50-84 | every finished run gives the array that every finished Afforest run gives |
| Lists.SortByProperties | src/builder.h:180-180 | sorting orders a list and keeps every copy of every element |
| Lists.DropRepeatsProperties | src/builder.h:181-181 | unique on a sorted list keeps exactly the least element of every group of equal ones |
| Lists.SquishedProperties | src/builder.h:180-183 | a squished row lists each neighbour once, in increasing order, and never the vertex itself |
| Csr.BuiltUnique | src/builder.h:165-210 | an edge list has only one built form: offsets and neighbours are determined by the sets of neighbours |
| Csr.PrefixSum | src/builder.h:117-126 | entry i is the sum of the first i degrees |
| Csr.ParallelPrefixSum | src/builder.h:129-160 | the blocked sum equals the serial one |
| CsrBuild.CountDegrees | src/builder.h:103-114 | each degree is the number of values that the edges put on that row, for every setting of the flags |
| CsrBuild.MakeCSR | src/builder.h:382-410 | row u holds v as often as the edge list joins the two: along its edges, against them for a transposed build, either way when symmetrizing |
| CsrBuild.SquishRow | src/builder.h:170-183 | sort, unique and remove in place on one row, and nothing outside it changes |
| CsrBuild.SquishCSR | src/builder.h:165-210 | every row is squished and the rows are packed one after another, for every type of row entry with an order and an equality |
| CsrBuild.BuildThenSquish | src/builder.h:165-210 | each row is the strictly sorted set of the vertices other than its own that the edge list joins to it: along its edges, against them for a transposed build, either way when symmetrizing |
| ScatterThreads.FinishedRow | src/builder.h:401-409 | in any interleaving the claimed cells are all different and a row ends with exactly its values |
| ScatterThreads.ScatterIsCorrect | src/builder.h:401-409 | whatever the interleaving of fetch-and-adds and stores, squishing the rows gives the built graph |
| ScatterThreads.NeverStuck | src/builder.h:401-409 | a value still to be stored always finds its cell inside its row |
| ScatterThreads.EveryScheduleEnds | src/builder.h:401-409 | no schedule is longer than two moves for every value |
| ScatterThreads.DegreesFit | src/builder.h:390-394 | counted degrees and their prefix sums leave every row exactly the room that the scatter fills |
| InPlaceEdges.PreparedProperties | src/builder.h:283-288 | every edge that is no self-loop survives the preprocessing exactly once, in order |
| InPlaceEdges.HitsCell | src/builder.h:294-295 | over a sorted edge list the next free cell of the k-th edge's row is cell k |
| InPlaceEdges.OverwriteStep | src/builder.h:294-295 | writing cell k destroys no edge that is still to be read |
| InPlaceEdges.OverwriteEdges | src/builder.h:293-295 | the first cells of the list's own memory end as the targets, and every offset has moved by its degree |
| InPlaceEdges.ShiftRestores | src/builder.h:298-300 | shifting the offsets down gives back the original prefix sums |
| InPlaceEdges.TargetsAreRows | src/builder.h:293-300 | those cells are the rows of outgoing neighbours, strictly sorted, one after another |
| InPlaceEdges.Invert | src/builder.h:305-316 | walking the rows in order fills every incoming row with its sources |
| InPlaceSymmetrize.BinarySearch | src/builder.h:324-326 | finds the key in any range that is partitioned around it, sorted or not |
| InPlaceSymmetrize.GrownPartitioned | src/builder.h:356-362 | the range searched in the last step is partitioned around the key, because every inverse already inserted is smaller |
| InPlaceSymmetrize.CountNeeded | src/builder.h:319-330 | the number of inverses that each row lacks |
| InPlaceSymmetrize.SpreadRow | src/builder.h:347-351 | copying backwards moves the row by the given distance and touches nothing outside its new range, or leaves the block when that distance is too long |
| InPlaceSymmetrize.Spread | src/builder.h:343-354 | with the right total every row reaches its new place, above exactly the cells reserved for its inverses, and no unread neighbour is lost; with a larger total some copy leaves the block, unless there is nothing to copy |
| InPlaceSymmetrize.RaiseOffsets | src/builder.h:331-336 | every offset rises by the inverses that the rows before it lack; the word past the end of the counters reaches the total and no offset |
| InPlaceSymmetrize.CopiesInsideExactlyWhen | src/builder.h:331-354 | for any word past the end, also a negative one: every copy reads inside the block exactly when there is nothing to copy, or the word is not above 0 and no further below it than there are missing inverses |
| InPlaceSymmetrize.SlotReserved | src/builder.h:363-366 | a missing inverse always finds a reserved cell |
| InPlaceSymmetrize.InsertInverses | src/builder.h:355-368 | every missing inverse is inserted once and every reserved cell is used: all counters end at 0 |
| InPlaceBuild.AddInverses | src/builder.h:318-372 | the three steps and the final sort, together, on one block of memory: right when the copies stay inside it, which they do exactly when the word past the counters is 0 or there is nothing to copy |
| InPlaceBuild.MakeCSRInPlace | src/builder.h:280-373 | the symmetric closure in strictly sorted rows, exactly when the word past the counters is 0 or all edges are self-loops (words that are not negative); without symmetrizing, always the outgoing rows and the incoming rows |
| InPlaceBuild.BothPaths | src/builder.h:431-454 | for every edge list the in-place build, when it stays inside its memory, and build-then-squish return equal offset arrays and equal neighbour arrays, and they are the built form |
| WeightedSquish.SquishedNodesProperties | src/graph.h:45-69 | of parallel weighted edges exactly the lightest stays |
| WeightedSquish.SquishingKeepsDistances | src/builder.h:165-210 | squishing a weighted graph changes no shortest distance |
| WeightedSquish.SquishingKeepsSymmetry | src/builder.h:165-210 | when every edge has its reverse with the same weight, so it is after squishing |
| WeightedBuild.SquishWeighted | src/builder.h:165-210 | on the packed weighted arrays: the rows that come out are the squished graph, and every array of distances is exact for it exactly when it is exact for the graph that went in |
| WeightedBuild.EveryScatterSquishesAlike | src/builder.h:401-409 | whatever the interleaving of the weighted scatter, every row holds what the edges push onto it, and squishing gives one and the same weighted graph |
| WeightedBuild.ScatteredTimes | src/builder.h:401-409 | every row then holds a neighbour with a weight as often as the edge list has that edge, forwards, backwards with the same weight, or both |
| WeightedBuild.SymmetrizedIsSymmetric | src/builder.h:401-409 | a symmetrized weighted build has that symmetry, before and after squishing |
| WeightedBuild.ScatteredIsSymmetric | src/builder.h:401-409 | so it is in memory, before and after squishing, whatever the interleaving of the scatter |
| Relabel.ByDegreeRanks | src/builder.h:538-544 | the sorted pairs list every vertex once with its degree, by decreasing degree and, among equal degrees, by decreasing name |
| Relabel.RelabelByDegree | src/builder.h:530-566 | an isomorphic graph: the names are a bijection that follows that order, rows strictly sorted, degrees never rising |
| Relabel.Hybrid | src/tc.cc:90-95 | the triangle count, whichever way the heuristic decides |
| EdgeCounts.CountIsExact | src/graph.h:481-483 | the reported number of directed edges is the number of row entries exactly when the graph is directed or that number is even, and it is even for squished rows |
| EdgeCounts.SymmetrizedIsEven | src/builder.h:401-409 | a symmetrized build has two entries for every edge, self-loops included, so that the count is exact before squishing, too |
| Bitmaps.SetAddsOne | src/bitmap.h:39-41 | setting a bit adds that position to the set and no other |
| Bitmaps.Bitmap.SetBit | src/bitmap.h:39-41 | the same, for the words in memory |
| Bitmaps.Bitmap.GetBit | src/bitmap.h:51-53 | whether the position is in the set |
| Bitmaps.Bitmap.Reset | src/bitmap.h:35-37 | no position is in the set |
| Bitmaps.Bitmap.Swap | src/bitmap.h:55-58 | the two sets change places |
| Bitmaps.AtomicBitsAllLand | src/bitmap.h:43-49 | in any interleaving of compare-and-swap loops every bit is set and none is lost |
| Bitmaps.NeverStuck | src/bitmap.h:43-49 | a thread that has not set its bit can always move |
| Bitmaps.EveryScheduleEnds | src/bitmap.h:43-49 | no schedule runs forever, however often a swap is lost |
| Bitmaps.ChunksApart | src/bfs.cc:50-57 | two vertices in different scheduled chunks of 1024 never share a bitmap word; the bottom-up machine keeps its bits by this |
| SlidingQueues.SlidingQueue.SlideWindow | src/sliding_queue.h:58-61 | the window becomes what was pushed since the last slide |
| SlidingQueues.QueueBuffer.PushBack | src/sliding_queue.h:97-101 | a push reaches the queue or the buffer, in order, across flushes |
| SlidingQueues.QueueBuffer.Flush | src/sliding_queue.h:103-108 | the buffer's content moves to the end of the queue, and the window stays |
| SlidingQueues.WindowIsWhatWasPushed | src/sliding_queue.h:79-109 | with any number of buffers flushing in any interleaving, the next window is exactly the multiset pushed and older cells are untouched |
| SlidingQueues.ReserveKeepsApart | src/sliding_queue.h:103-108 | the ranges reserved by flushes never overlap |
| SlidingQueues.NeverStuck | src/sliding_queue.h:97-108 | a thread that is not done can always move, inside the queue |
| SlidingQueues.EveryScheduleEnds | src/sliding_queue.h:97-108 | no schedule of pushes and flushes runs forever, with buffers of at least one cell |
| Layers.ClosedIsExact | src/bfs.cc:200-212 | depths that are explained by edges and that no edge contradicts are the true distances |
| BfsTrees.TopDownIsCorrect | src/bfs.cc:67-89 | any interleaving of the swaps completes exactly the next level, pushes each of its vertices once, and sums the lengths of their rows, with 1 for an empty one (the swaps alone) |
| TopDownThreads.TopDownIsCorrect | src/bfs.cc:67-89 | swaps, buffer pushes and flushes of any number of threads in any interleaving: a right tree of the next level, the sum of its row lengths, and a queue whose new window lists that level once each, older cells unchanged |
| TopDownThreads.CapacitySuffices | src/sliding_queue.h:97-108 | in every state of every run the reserved cells lie inside the queue, so no flush is ever refused its cells |
| TopDownThreads.NeverStuck | src/bfs.cc:67-89 | before the end some visit or flush can always move |
| TopDownThreads.EveryScheduleEnds | src/bfs.cc:67-89 | no schedule runs forever |
| BottomUpThreads.BottomUpIsCorrect | src/bfs.cc:46-64 | chunks that load a bitmap word and later store it with one more bit, in any interleaving: a right tree of the next level, exactly its bits in the next bitmap, and its size |
| BottomUpThreads.NeverStuck | src/bfs.cc:50-63 | before the end some chunk can always move |
| BottomUpThreads.EveryScheduleEnds | src/bfs.cc:50-63 | no schedule runs forever |
| BfsThreads.EverySearchFindsATree | src/bfs.cc:122-173 | a whole search in which every phase is any finished run of its machine, in whatever directions: once the window is empty, the parents are a breadth-first tree |
| BfsEnds.EverySearchEnds | src/bfs.cc:138-166 | whatever the schedules and the direction switch, with a positive beta in the loop guard a search has at most three phases for each vertex, and three more |
| Bfs.InitParent | src/bfs.cc:114-120 | every vertex starts with its negated row length, and with -1 when its row is empty |
| Bfs.FrontBitIsLast | src/bfs.cc:53-54 | a front bit seen by an unvisited vertex belongs to the last level, even when old bits were never cleared |
| Bfs.BUStep | src/bfs.cc:46-64 | a bottom-up step of one thread completes exactly the next level, leaves exactly its bits, and returns the number of its vertices |
| Bfs.TDStep | src/bfs.cc:67-89 | a top-down step of one thread completes exactly the next level within the queue's capacity, and returns the sum of its row lengths, with 1 for an empty one |
| Bfs.QueueToBitmap | src/bfs.cc:92-98 | the window's vertices are added to the bitmap, old bits stay |
| Bfs.BitmapToQueue | src/bfs.cc:100-112 | the window becomes the set bits, each once, and everything queued so far is distinct |
| Bfs.Advance | src/bfs.cc:138-166 | either direction reaches a later level with a right tree; the direction, the level at which bottom-up steps end and both counters are those that the graph and the distances prescribe |
| Bfs.DOBFS | src/bfs.cc:122-173 | for every alpha other than 0 and every positive beta, with termination: parents are in-neighbours one level nearer to the source, and -1 exactly on unreachable vertices; the rounds of the search are the plan that the distances determine (one thread; every schedule is in BfsThreads) |
| BfsPlans.PlanUnique | src/bfs.cc:136-166 | graph, source, alpha and beta alone decide which levels are found from which side: the plan starts with all row entries to check and the row length of the source, goes bottom-up when the frontier has more edges than the unchecked ones divided by alpha, and stays there while the level grows or holds more than the beta-th part of the vertices |
| BfsVerifier.SerialDepths | src/bfs.cc:197-212 | the serial search computes the distances |
| BfsVerifier.BFSVerifier | src/bfs.cc:195-241 | true exactly for the breadth-first trees from the source |
| PathCounts.CountByLastEdge | src/bc.cc:75-79 | counting walks by their last edge, as the search does, and by their first edge, as back-propagation needs, is the same |
| PathSets.WalksAreCounted | src/bc.cc:75-79 | a path count is the size of the set of walks, each told by the positions of its edges, so that parallel edges count apart |
| PathCounts.PropagatedIsDependency | src/bc.cc:124-131 | the sum over successors equals the sum over all targets of the fraction of shortest paths through the vertex |
| PathSets.ShareIsFraction | src/bc.cc:124-131 | the share of a target is the number of its shortest walks that visit the vertex, divided by the number of its shortest walks |
| PbfsThreads.LevelIsCorrect | src/bc.cc:64-91 | any interleaving of swaps, bit settings and atomic additions counts every shortest path to the next level once, marks exactly the edges to it, and pushes each of its vertices once |
| SearchThreads.LevelIsCorrect | src/bc.cc:64-91 | the same with the buffers and their flushes: the next window lists exactly the next level, once each, inside the queue |
| SearchThreads.NeverStuck | src/bc.cc:64-91 | before the end of a level some vertex or buffer can always move |
| SearchThreads.EveryScheduleEnds | src/bc.cc:64-91 | no schedule of a level runs forever |
| SearchThreads.EverySearchCountsPaths | src/bc.cc:51-92 | every search made of finished runs of its levels: path counts are numbers of shortest paths, successor bits exactly the edges between consecutive depths, and the index cuts the queue into the depths |
| SearchThreads.EverySearchEnds | src/bc.cc:62-91 | a search has at most as many levels as the graph has vertices |
| BrandesSearch.SearchLevel | src/bc.cc:64-91 | one level of the search: counts, successor bits, the queue and the depth index |
| BrandesSearch.PBFS | src/bc.cc:51-92 | path counts are numbers of shortest paths, successor bits are exactly the edges between consecutive depths, and the index (first piece empty) cuts the queue into the depths (one thread; every schedule is in SearchThreads) |
| Centrality.DeltaOf | src/bc.cc:123-130 | the loop over the successors computes the dependency of the vertex |
| Centrality.BackPropagate | src/bc.cc:118-133 | every score grows by the sum over the other reachable targets of the fraction of shortest paths through the vertex |
| Centrality.Brandes | src/bc.cc:95-136 | before normalization the scores are those sums, added over the picked sources; the successor bitmap has num_edges_directed bits, which cover every row entry when that number is even or the graph directed |
| BcVerifier.CountPaths | src/bc.cc:170-188 | the serial pass computes distances and numbers of shortest paths |
| BcVerifier.VertsAtDepth | src/bc.cc:189-197 | the lists hold the reached vertices by depth, in increasing order |
| BcVerifier.SerialScores | src/bc.cc:165-210 | the serial re-computation gives the same sums |
| BcVerifier.KernelAndCheck | src/bc.cc:165-210 | before normalization kernel and check return equal score arrays for the same sources, and both hold the exact sums |
| Triangles.SixTimes | src/tc.cc:104-119 | every triangle is closed in exactly six orders of its vertices |
| Triangles.RenamingKeepsTriangles | src/tc.cc:90-95 | renaming the vertices keeps the number of triangles |
| TriangleCounting.SkipTo | src/tc.cc:58-59 | the iterator stays inside the neighbourhood because v itself stops it, and finds w exactly when w is there |
| TriangleCounting.CountPair | src/tc.cc:54-62 | over the edge u - v every w below v that closes a triangle is counted once |
| TriangleCounting.OrderedCount | src/tc.cc:47-66 | the number of triples u > v > w that are pairwise adjacent |
| TriangleCounting.SetIntersection | src/tc.cc:110-114 | exactly the common elements of two sorted lists |
| TriangleCounting.TCVerifier | src/tc.cc:104-123 | true exactly when the given total is the number of triangles |
| PageRank.FlowIsConserved | src/pr.cc:42-51 | what all vertices receive is what the vertices with out-edges had |
| PageRank.Contraction | src/pr.cc:42-53 | one iteration brings any two score vectors closer by the factor 0.85 in total absolute difference |
| PageRank.Convergence | src/pr.cc:41-57 | against any fixpoint, the iterates close in on it geometrically |
| PageRank.FixpointUnique | src/pr.cc:41-57 | there is at most one fixpoint |
| PageRank.MovesShrink | src/pr.cc:41-57 | with no fixpoint assumed: every iteration moves the scores by at most 0.85 times the one before |
| PageRank.LaterIteratesAreNear | src/pr.cc:41-57 | the iterates are a Cauchy sequence, with a geometric bound on the distance of any two of them |
| PageRank.SomeMoveIsSmall | src/pr.cc:41-57 | for every positive tolerance some iteration moves the scores by less |
| PageRankLaws.NextIsPulled | src/pr.cc:34-53 | N * (new[u] - 0.85 * S) is 0.15 for every u, where S adds up, over the vertices v with out-edges, the edges from v to u times the score of v divided by the length of its row |
| PageRankLaws.TraceIsIterates | src/pr.cc:34-53 | score vectors that start at 1 / N and follow one another by that law are the iterates, and no others |
| PageRankLaws.TotalAfter | src/pr.cc:34-53 | after an iteration the scores sum to 0.15 plus 0.85 times what the vertices with out-edges had |
| PageRankLaws.TotalIsOne | src/pr.cc:34-53 | when every vertex has an out-edge the scores sum to 1 after any number of iterations |
| PageRankLaws.ErrorIsLargest | src/pr.cc:50-55 | the error is below a bound exactly when the differences of the two vectors, added with any choice of signs, are |
| PageRankLaws.ErrorAbove | src/pr.cc:50-55 | when no score of one vector is below the other, the error is the difference of the two totals, either way round |
| PageRankRun.PullOnce | src/pr.cc:43-53 | one iteration in place obeys the law of NextIsPulled, its total that of TotalAfter, and its error is below a bound exactly when the signed differences are; quotients by a zero out-degree are never read |
| PageRankRun.PageRankPull | src/pr.cc:34-59 | from 1 / N each, the scores after the first iteration that moves them by less than epsilon, and never more than max_iters iterations; they sum to 1 when every vertex has an out-edge |
| PageRankRun.PushIsPull | src/pr.cc:81-85 | pushing along out-edges and pulling along in-edges give the same sums |
| PageRankRun.PRVerifier | src/pr.cc:77-93 | accepts exactly when the scores that the law of NextIsPulled gives next differ from the given ones, with any choice of signs, by less than the target in all |
| PageRankRun.StoppedIsAccepted | src/pr.cc:55-93 | scores that made the kernel stop early pass the check with the same tolerance |
| PageRankRun.RunAndCheck | src/pr.cc:34-93 | run one after the other with the same tolerance, the check accepts exactly when one of the kernel's iterations, or the one after them, moves the scores by less, for the one sequence of vectors that starts at 1 / N and follows the law |
| Publication.RegionsApart | src/graph.h:310-358 | metadata, neighbours, row sizes and rows lie one after another without overlap, for every size of a row entry (one word plain, two words weighted), and each word of each entry has its place |
| Publication.Publish | src/graph.h:360-424 | the writer leaves the whole image with the flag up and changes no other word; the row starts it returns are its own rows in that memory, and give its edge count |
| Publication.PublishedIsLaidOut | src/graph.h:310-424 | where everything is: node count, index length and neighbour count in words 1 to 6, low half first, the neighbours from word 7, then two words of size for each row, then the rows |
| Publication.OwnRows | src/graph.h:386-415 | row starts right after the sizes, one row after another, are those through which the writer reads its rows, and their ends give its edge count |
| Publication.IndexFromSizes | src/graph.h:335-354 | the stored sizes, scaled by the size of an entry, give the row starts, whatever the unwritten last size holds |
| Publication.Attach | src/graph.h:217-277 | a reader of the image rebuilds the node count, the edge count and every neighbourhood exactly |
| Publication.NeighborhoodIsSuffix | src/graph.h:118-131 | iterating from an offset gives the words of the rest of the row, and nothing past its end |
| PublicationThreads.PublicationIsSafe | src/graph.h:177-279 | with a flag that starts different from 1, in every interleaving a reader past the flag finds the whole image and has loaded nothing else |
| PublicationThreads.ReaderRebuilds | src/graph.h:213-277 | what a reader has loaded over any number of steps, once it has the needed words, determines the node count, the edge count and every row of the writer, and is all that attaching needs |
| PublicationThreads.SafeExactlyWhen | src/graph.h:213-217 | the protocol is safe exactly when the flag starts different from 1 or the image is already in place |

## Left out

- File reading and writing, the command line, timers, printing and the benchmark loop (src/reader.h, src/writer.h, src/command_line.h, src/benchmark.h): input and output with no hard property.
- Opening shared memory, flushing caches and simulator hooks (src/dmalloc.h, src/graph.h:242): calls into code that is not part of this model; shared memory is one coherent array of words.
- Weak memory orders: steps between barriers are sequentially consistent, and atomics have the meaning of src/platform_atomics.h:111-125.
- Floating-point rounding: path counts are naturals, scores are reals.
- Score normalization and the comparison tolerance of the centrality check (src/bc.cc:137-144, src/bc.cc:211-224).
- Random graphs and weights, picked sources, SampleFrequentElement and WorthRelabelling: their results are arbitrary inputs.
- pvector growth, move construction and the disabled constructors of the graph class.
- Fixed-width integers other than distances: vertex ids, degrees, offsets, counts of paths and triangles do not wrap around in the model.
- Weights above the bound of `Walks.NoOverflowIff` in the shortest-path programs: there the source's addition can wrap around.
- Capacity of the shared frontier of the shortest-path kernel (src/sssp.cc:91): the model's frontier has no bound, and that the allocated size suffices is not shown; iteration counts and the order inside a bin are not modelled beyond what the parallel program needs.
- MakeCSR over weighted edges as a serial method: its scatter is the machine of WeightedBuild, of which one thread is one run.
- Bfs.DOBFS: a negative beta, with which the bottom-up loop need not end, is not covered.
- InPlaceBuild.MakeCSRInPlace: a negative word past the end of the counters makes the copies read other cells than the rows'; when they stay inside the block is stated, what the rows then hold is not.
- InPlaceEdges.OverwriteEdges: the preprocessing of the edge list runs on a list, and the memory reuse begins with its result.
- Publication.Attach: the polling loop itself is in the state machine of PublicationThreads; Attach begins once the flag has been seen.
