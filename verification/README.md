# The control-flow-graph segmenter, modelled and proved in Dafny

The segmenter reads a profile as a weighted graph of basic blocks and looks for kernels, the
cycles a program spends its time in. It first contracts parts of the graph that only obscure the
cycles: serial chains, diamonds of branches, regions found by colouring edges outwards from a
node, and loops that were hardly ever executed. Each part is replaced by a virtual node, its
boundary edges by virtual edges that remember the edges they cover. Edge frequencies around nodes
with one way in and one way out are balanced. Then cheapest cycles are looked up, the best ones
selected and contracted as kernels, and all of it is repeated until nothing changes. Before that,
the call graph is searched for recursion and the order of inlining is scheduled.

`dafny verify dfyconfig.toml` checks the project.

| file | models |
|---|---|
| Graphs.dfy, Sets.dfy, Traces.dfy | nodes, edges, walks, reachability, cycles; facts about finite sets; sequences of steps |
| CycleSearch.dfy, Deque.dfy, ShortestPath.dfy | `FindCycles` and `Dijkstras`, over any way of sorting its deque |
| SearchInputs.dfy | inputs on which `Dijkstras` goes wrong |
| Regions.dfy, SimpleRegions.dfy, Bottleneck.dfy | the one specification of a contractible region and the three finders proved to meet it |
| Enclosures.dfy | what the bottleneck search finds, without its colours: the smallest region that starts at a node |
| Contraction.dfy | what contraction does to reachability and cycles |
| ControlState.dfy, Flow.dfy | the state of a control graph and one contraction step by step; frequencies, probabilities and the profile edges behind each edge |
| Balancing.dfy | what evening the two edges of a node does, once and any number of times |
| Runs.dfy | where every original node is buried, and what one transform keeps |
| Passes.dfy | what a simplification pass contracts at a node, and what it leaves |
| ControlGraphs.dfy | the graph object: `VirtualizeSubgraph`, `KCLTransform`, the simplification worklist |
| Kernels.dfy, LoopTransforms.dfy | kernels of cycles; `LowFrequencyLoopTransform` |
| KernelSelection.dfy, KernelTransforms.dfy, Structuring.dfy | the selection pass, kernel contraction, `ApplyCFGTransforms` and the search loop of `FindMLCycles` |
| WholeRuns.dfy | sequences of transforms from a profile, what they come to, and that the program makes no others |
| Provenance.dfy | `findOriginalBlockIDs` on edges |
| Recursion.dfy, Embedding.dfy, InlineSchedule.dfy, InlinePlan.dfy | recursion tests, embedded functions, the inline scheduler, and the plan that joins them |
| Prune.dfy, Unnest.dfy, HotBlocks.dfy | `removeUnreachableNodes`, `reverseTransform_MLCycle`, the hot-block selection |

Conventions. Nodes are ids; an edge is a key of two ids, as the edge sets order edges by their
endpoints (Graph/inc/GraphEdge.h:34-45). Frequencies are natural numbers, probabilities and shares
exact reals, and a price that is not negative stands for the negated logarithm of a probability.
Iteration over a set is in any order; every theorem holds for all orders.

How the parts meet. All three finders are proved against `Regions.Region` (acyclic, entered only at
one node, left only at another, every node between them); the bottleneck search is also proved
complete, by what its colours mean. `Runs.Running` holds of a graph with a map
from original nodes to current ones; `Runs.After` says what a transform keeps, in three strengths:
reachability alone (any kernel), also the profile edges behind every edge (one way in, one way out),
and also all cycles and probabilities (regions and frequency rewrites). Every method that changes
the graph is proved to stay inside `Runs.After`, and gives account of what it did: the graphs a pass
or a series of rewrites went through, the loops and kernels contracted, the rounds and iterations.
`WholeRuns.Step` lists the single transforms; `WholeRuns.ReachRun`, `WholeRun` and `RegionRun` say
what any sequence of them does to a profile, and `AppliedToProfile` and `SearchOfProfile` that what
the two outer loops do is such a sequence.
The map from original nodes to current ones plays the part of the program's `NodeToVN`.

Where the code differs from what it says of itself, the model follows the code:

- The outer loop of `ApplyCFGTransforms` is said to end when the size of the graph is unchanged
  (Graph/Transforms.cpp:2824-2826); it ends when `KCLTransform` changed nothing (2975-2985).
- `LowFrequencyLoopTransform` is said to take loops away until none is left
  (Graph/Transforms.cpp:2533); its size is read after the contractions (2628), so it makes one round.
- The comparison at Graph/Transforms.cpp:3225 always holds once 3221 failed, so ids alone decide the
  selection, not probabilities; and the fallback at 3240-3263, which never has a kernel to act on,
  would drop the best kernel so far instead of the losing one.
- The skip of exits that end inside the subgraph (Graph/Transforms.cpp:771-774) never applies: the
  first loop has replaced such edges by a self-edge, which is wrapped once more.
- The cycle test on a found subgraph (Graph/Transforms.cpp:2494-2499) never fires.
- After `LowFrequencyLoopTransform` the probability out of a contracted loop stays below one, outside
  of debug builds: only `VirtualizeKernels` sets it again.
- In a sweep of `reverseTransform_MLCycle` a kernel found once counts as found for all later nodes
  (Graph/Transforms.cpp:1101-1137), so what is unwound depends on the order of the nodes.
- Both sanity checks of the inline scheduler can fail in debug builds. The one at the end
  (Graph/Transforms.cpp:1997-2016) fails exactly when main's recursion swallows an inlinable function
  (`InlinePlan.LastCheck`); the one on covering a function (1905-1925) looks for each embedded call
  itself and fails on ordinary recursions below one another (`InlinePlan.CoverCheck`).
- `Dijkstras` adds the cost of a self-edge of the source to neighbours met after it
  (Graph/Dijkstra.cpp:65-71), so it can return a self-edge although another cycle is cheaper
  (`ShortestPath.SelfEdgeMatters`, `SearchInputs.DetourIsMissed`).
- `Dijkstras` sorts its deque in the middle of a scan and reads the front again afterwards
  (Graph/Dijkstra.cpp:68-88). `std::sort` may change the order of ties, and then the result need not
  be a path (`SearchInputs.ScanTwo`).

## Model

| member | source | states |
|---|---|---|
| `CycleSearch.ScanFront` | Graph/Dijkstra.cpp:149-176 | one visit of the front node finds a back edge, an unvisited successor, or that all visible successors are finished |
| `CycleSearch.SearchFrom` | Graph/Dijkstra.cpp:145-181 | one depth-first search: the deque is always the current path, and a finished node only leads to finished nodes |
| `CycleSearch.FindCycles` | Graph/Dijkstra.cpp:124-184 | terminates, and is true exactly when the edges owned by the graph, linked and ending inside it contain a directed cycle |
| `CycleSearch.FinishedIsAcyclic` | Graph/Dijkstra.cpp:177-183 | an order of leaving the deque in which successors leave first rules out cycles |
| `CycleSearch.VisibleIsAll` | Graph/Dijkstra.cpp:149-159 | on a graph whose edges are all linked and inside it, the answer is about exactly its own edge set |
| `Deque.FrontIsForced` | Graph/Dijkstra.cpp:49-88 | re-sorting the deque leaves its front in place for every sorted order exactly when the front is strictly cheapest |
| `Deque.StableIsSteady` | Graph/Dijkstra.cpp:49-88 | a stable sort keeps a cheapest front where it is: it is one of the steady sorts |
| `ShortestPath.RelaxKeeps` | Graph/Dijkstra.cpp:57-90 | for any sort, relaxing one neighbour keeps every invariant of the search (dated predecessors, settled nodes, the one inflated self-edge) while the source is scanned, and for good when the order of ties does not matter |
| `ShortestPath.FrontStays` | Graph/Dijkstra.cpp:76-88 | re-sorting in mid-scan leaves the front in place when the sort is steady, when no two walks to different nodes cost the same, and when all edges are free |
| `ShortestPath.LooseRelax` | Graph/Dijkstra.cpp:57-90 | for any sort and any order of ties, whatever the front has become: the deque holds the grey nodes at their distances, and every predecessor is closer, or as close and settled earlier |
| `ShortestPath.NextFront` | Graph/Dijkstra.cpp:46-49 | for any sort, taking the next front keeps the invariants, and the front was never taken before |
| `ShortestPath.VisitNeighbor` | Graph/Dijkstra.cpp:53-92 | an edge that is not the graph's is skipped, any other relaxed; a node enters the deque once |
| `ShortestPath.TakeFront` | Graph/Dijkstra.cpp:46-96 | one turn of the main loop: the strict invariants where they are due, the loose ones for any order of ties, and one node fewer waiting or white |
| `ShortestPath.WalkBack` | Graph/Dijkstra.cpp:97-118 | the walk over the predecessors terminates for any order of ties; when that order does not matter it collects exactly the nodes of a path, its final endpoint left out, whose cost is the recorded distance |
| `ShortestPath.Bounded` | Graph/Dijkstra.cpp:68-71 | no walk from the source is cheaper than the recorded distance of its end |
| `ShortestPath.Dijkstras` | Graph/Dijkstra.cpp:32-119 | for any sort it terminates; when the order of ties does not matter, the result is non-empty exactly when a non-empty path leads from source to sink, and is then the nodes of a cheapest such path (a cheapest cycle when they coincide) at the costs the search minimises |
| `ShortestPath.NothingInflated` | Graph/Dijkstra.cpp:57-71 | without a self-edge on the source, or with a free one, the minimised costs are the given costs |
| `ShortestPath.SelfEdgeMatters` | Graph/Dijkstra.cpp:57-71 | with a self-edge on the source, the cycles found are cheapest at the given costs, for every order of the neighbours, exactly when no cycle through the source is cheaper than the self-edge |
| `ShortestPath.CycleAnswer` | Graph/Dijkstra.cpp:32-119 | so the cycle found is cheapest at the given costs without a self-edge, or when that is a cheapest cycle |
| `SearchInputs.DetourIsMissed` | Graph/Dijkstra.cpp:57-71 | an input on which the cycle found is the self-edge at cost 5 although another one costs 2, whatever the sort |
| `SearchInputs.ScanTwo` | Graph/Dijkstra.cpp:71-88 | an input with a tie and a sort of which re-sorting in mid-scan gives a node a predecessor that has no edge to it |
| `SearchInputs.ScanTwoAgain` | Graph/Dijkstra.cpp:71-118 | and that predecessor stays, so the walk back collects nodes that do not lead to the sink |
| `Recursion.CycleOf` | Graph/Transforms.cpp:1590-1596 | whatever the sort, over free edges the cycle found has one node exactly when there is a self-edge, and more than one only when another function is on a closed walk |
| `Recursion.HasDirectRecursion` | Graph/Transforms.cpp:1622-1633 | true exactly when the function has a self-edge |
| `Recursion.HasIndirectRecursion` | Graph/Transforms.cpp:1590-1619 | true exactly when a closed walk passes through the function and another one |
| `Recursion.TestIndirect` | Graph/Transforms.cpp:1590-1619 | the same on the edges without some self-edges, as the search of the recursion's functions uses it |
| `Recursion.SearchIndirectRecursion` | Graph/Transforms.cpp:1636-1673 | the explicit-stack search gives the same answer: true exactly for a closed walk through another function |
| `Embedding.IndirectRecursionCycle` | Graph/Transforms.cpp:1689-1752 | exactly the functions reached, in one or more calls, through indirectly recursive functions only |
| `Embedding.IndirectRecursionEntrances` | Graph/Transforms.cpp:1761-1777 | exactly the calls into those functions from outside them |
| `Embedding.MutualIsInRecursion` | Graph/Transforms.cpp:1689-1752 | functions that reach each other are in the recursion each leads into |
| `Embedding.EmbeddedOfRecursion` | Graph/Transforms.cpp:1799-1829 | every call collected leaves the recursion, and every function outside it that it reaches is collected |
| `Embedding.EmbeddedOfPlain` | Graph/Transforms.cpp:1830-1864 | exactly the reached calls of other functions that enter a recursion, if at all, from outside |
| `Embedding.FindEmbeddedFunctions` | Graph/Transforms.cpp:1793-1866 | for every call graph, each embedded function lies strictly below the given one; and exactly which are found, with and without indirect recursion |
| `Embedding.BelowIsAcyclic` | Graph/Transforms.cpp:1793-1866 | dependencies that all lie strictly below cannot go round |
| `InlineSchedule.NeverWaitsForItself` | Graph/Transforms.cpp:1977-1990 | what the top of the stack waits for is never on the stack: no deadlock |
| `InlineSchedule.FewIterations` | Graph/Transforms.cpp:1991-1994 | every counted iteration covers a function or pushes one, so there are at most 2n - 1 for the n functions main depends on |
| `InlineSchedule.AllIterations` | Graph/Transforms.cpp:1991-1994 | and exactly that many when the walk ends |
| `InlineSchedule.PlaceFunction` | Graph/Transforms.cpp:1927-1969 | a function is scheduled unless it is indirectly recursive and its call sites are scheduled already; every entry comes after the functions embedded in its owner |
| `InlineSchedule.Turn` | Graph/Transforms.cpp:1884-1990 | one turn of the loop keeps the stack a dependency chain and is counted unless it only pops |
| `InlineSchedule.ScheduleInlineTransforms` | Graph/Transforms.cpp:1868-2020 | on any acyclic dependencies: it throws exactly when the functions main depends on are too many for the cap; exactly these are covered; every entry comes after those embedded in its owner; no function owns two entries, and no indirectly recursive one an entry that is there already |
| `InlineSchedule.ChildrenFirst` | Graph/Transforms.cpp:1876-1877 | an inlinable function has an entry after the entries of all inlinable functions embedded in it |
| `InlinePlan.EntrancesOf` | Graph/Transforms.cpp:2043-2060 | the entrances of a function: into its recursion from outside, or from other functions |
| `InlinePlan.CollectCalls` | Graph/Transforms.cpp:2037-2072 | the embedded functions of every function, and as inlinable exactly those with more than one call site |
| `InlinePlan.NoDeadlock` | Graph/Transforms.cpp:2037-2072 | the dependencies of a call graph are acyclic, whatever recursion it has |
| `InlinePlan.EqualIsMutual` | Graph/Transforms.cpp:1938-1957 | functions with equal entrances, one of them indirectly recursive, are in one recursion |
| `InlinePlan.EqualCallsEmbedSame` | Graph/Transforms.cpp:1938-1957 | so functions whose entries are merged embed the same functions |
| `InlinePlan.PlainOnTheWay` | Graph/Transforms.cpp:1793-1866 | a function that is not indirectly recursive lies on the way to whatever the recursion of main does not swallow |
| `InlinePlan.ServedIsScheduled` | Graph/Transforms.cpp:1884-1995 | the calls of an inlinable function that leads back to main, or is reached through a function main's recursion does not swallow, are in the schedule |
| `InlinePlan.ScheduledIsServed` | Graph/Transforms.cpp:1884-1995 | and no others are |
| `InlinePlan.MainServes` | Graph/Transforms.cpp:1997-2016 | a main that is not indirectly recursive serves all functions |
| `InlinePlan.PlannedOnce` | Graph/Transforms.cpp:1938-1957 | no entry of the schedule is there twice |
| `InlinePlan.LastCheck` | Graph/Transforms.cpp:1997-2016 | the last debug check passes exactly when every inlinable function is served |
| `InlinePlan.CoverCheck` | Graph/Transforms.cpp:1905-1925 | the debug check on a function to be covered passes exactly when the function is not indirectly recursive, or none of its embedded calls of inlinable functions comes from within the callee's own recursion |
| `InlinePlan.CoverCheckFails` | Graph/Transforms.cpp:1905-1925 | a call graph with a plain main on which that check fails |
| `InlinePlan.PlanInlining` | Graph/Transforms.cpp:2022-2079 | the whole plan, for every call graph reached from main: no deadlock; the exact condition for the cap, which 50000 functions never hit; children first; no entry twice; the calls of an inlinable function are scheduled exactly when it is served; and exactly when each of the two debug checks passes |
| `InlinePlan.RecursiveMainMisses` | Graph/Transforms.cpp:1997-2016 | with a recursive main the schedule can be empty although a function is to be inlined: the last debug check fails |
| `Regions.EntryIsFirst` | Graph/Transforms.cpp:2230-2309 | no edge of a region leads to its entry |
| `Regions.ExitIsLast` | Graph/Transforms.cpp:2230-2309 | all successors of a region's exit leave its edge set |
| `Regions.InnerEntrance` | Graph/Transforms.cpp:703-715 | the only edge between its nodes that a region leaves outside leads from its exit to its entry, so one node at most has an edge back inside |
| `Bottleneck.EvaluateYellow` | Graph/Transforms.cpp:2349-2425 | the first pass in closed form, for every order: which edges turn blue, which successors turn yellow, which edges turn red |
| `Bottleneck.ResolveBlue` | Graph/Transforms.cpp:2426-2480 | the second pass in closed form, for every order: which blue edges turn green, which fall back, which edges are painted yellow whatever they were |
| `Bottleneck.TurnKeeps` | Graph/Transforms.cpp:2346-2480 | edges at or above yellow never drop below it, and such an edge starts at the source or at a node whose predecessors have all been green |
| `Bottleneck.GreenIsStable` | Graph/Transforms.cpp:2471 | no green edge is painted over while the source still has a red predecessor |
| `Bottleneck.GreenEdgeDFS` | Graph/Transforms.cpp:2230-2309 | finds a sink exactly when the green edges close, and then returns exactly the green subgraph |
| `Bottleneck.GreensAreAcyclic` | Graph/Transforms.cpp:2494-2499 | green edges are never cyclic, so the cycle test on the found subgraph cannot fire |
| `Bottleneck.GreensFormRegion` | Graph/Transforms.cpp:2230-2309 | green edges that close form a region |
| `Bottleneck.ColourRound` | Graph/Transforms.cpp:2346-2480 | one round of both passes keeps the colour invariants |
| `Bottleneck.TurnLevelled` | Graph/Transforms.cpp:2346-2480 | what the colours mean, for every order: after k rounds the green edges are those into nodes all of whose predecessors were explained in earlier rounds, as long as the source has a red predecessor |
| `Bottleneck.ClosesMeans` | Graph/Transforms.cpp:2230-2309 | the tests on the green edges hold exactly when the edges explained so far close |
| `Bottleneck.ReadRegion` | Graph/Transforms.cpp:2482-2501 | a round returns a sink exactly when its explained edges close; the cycle test changes nothing |
| `Bottleneck.ColourSearch` | Graph/Transforms.cpp:2344-2525 | the main loop: the first round that closes decides; an impasse means that no later round would have closed |
| `Enclosures.StuckForGood` | Graph/Transforms.cpp:2512-2517 | a round that explains nothing new is the last one that matters |
| `Enclosures.RegionIsExplained` | Graph/Transforms.cpp:2346-2480 | every inner node of a region is explained sooner or later |
| `Enclosures.RegionComesUp` | Graph/Transforms.cpp:2346-2480 | every region from the source with another way in and a way on is, at some round, exactly what is explained |
| `Enclosures.FirstIsSmallest` | Graph/Transforms.cpp:2491-2501 | what closes first lies inside every such region |
| `Bottleneck.FindNewSubgraph` | Graph/Transforms.cpp:2311-2525 | a returned subgraph is a region with at least three edges, and the smallest of all regions from the source that have another way in and a way on; nothing is returned only when every such region has more than 200 edges; and the exact condition, by rounds, for one to be returned |
| `SimpleRegions.RingNeverEnds` | Graph/Transforms.cpp:1178-1208 | from a node on a ring of mergeable nodes the merge test never fails |
| `SimpleRegions.LeavesRing` | Graph/Transforms.cpp:1178-1208 | a node that reaches a node without successors is on no such ring |
| `SimpleRegions.TrivialTransforms` | Graph/Transforms.cpp:1172-1210 | off such rings it terminates; something is found exactly when the node and another one alone are a region, the other has one way on that does not lead back, and the node is entered and certain to go on to it; then it is the whole chain: a region, each node merged with the one before, the last merging no further |
| `SimpleRegions.NextIsChained` | Graph/Transforms.cpp:1183-1208 | the merge test holds exactly for two such nodes |
| `Passes.CertainInNormal` | Graph/Transforms.cpp:1187 | where probabilities are shares of frequencies, the test on the probability changes nothing: the only way on is certain |
| `SimpleRegions.FindExit` | Graph/Transforms.cpp:1225-1323 | the potential exit and middle nodes of a diamond, or the report of a missing node |
| `SimpleRegions.AcceptsDiamonds` | Graph/Transforms.cpp:1324-1443 | the tests on a potential exit accept exactly the diamonds |
| `SimpleRegions.DiamondPicked` | Graph/Transforms.cpp:1225-1323 | in a diamond the potential exit is its exit |
| `SimpleRegions.DiamondIsRegion` | Graph/Transforms.cpp:1444-1467 | a diamond is a region |
| `SimpleRegions.BranchToSelectTransforms` | Graph/Transforms.cpp:1212-1467 | the result is non-empty exactly when a diamond starts at the node, and then is the region of that diamond; it throws exactly when a node is missing |
| `Contraction.KeepsReach` | Graph/Transforms.cpp:716-784 | contraction never loses a connection |
| `Contraction.KeepsRooted` | Graph/Transforms.cpp:239-268 | nodes reachable from the first node stay reachable from where it is now |
| `Contraction.KeepsCycles` | Graph/Transforms.cpp:716-784 | contracting an acyclic subgraph loses no cycle |
| `Contraction.RegionFaithful` | Graph/Transforms.cpp:716-784 | contracting a region: between nodes that stay apart, and from a node back to itself, exactly the same journeys exist before and after |
| `Contraction.RegionKeepsAcyclicity` | Graph/Transforms.cpp:2494-2499 | the graph has a cycle after exactly when it had one before |
| `Contraction.BackEdgeIsSelfEdge` | Graph/Transforms.cpp:735-741 | the new node has a self-edge exactly when the exit led back to the entry |
| `Contraction.ThroughKeepsOutside` | Graph/Transforms.cpp:716-784 | contracting any subgraph whose entries all reach its exits inside keeps reachability between outside nodes both ways |
| `Contraction.ContractionKeepsOutside` | Graph/Transforms.cpp:716-784 | in particular contracting a region, or nodes that all reach each other |
| `Contraction.LoopedAddsNothing` | Graph/Transforms.cpp:2181-2218 | contracting nodes that all reach each other keeps reachability between all nodes and adds no cycle |
| `Contraction.QuotientIsSmaller` | Graph/Transforms.cpp:786-793 | contraction strictly lowers the number of edges |
| `ControlState.ExitsAre` | Graph/Transforms.cpp:766-774 | the exits found are exactly those to wrap, and none ends inside the subgraph: the test that skips such edges never applies |
| `ControlState.FinishIsQuotient` | Graph/Transforms.cpp:786-794 | after both loops the edges are the quotient, endpoints are present and the links of both ends agree |
| `ControlState.BodiesHealthy` | Graph/Transforms.cpp:730-784 | every edge keeps a positive frequency and a probability above zero and at most one |
| `ControlGraphs.ControlGraph.VirtualizeEntrance` | Graph/Transforms.cpp:718-763 | one entrance: all edges of a node into the subgraph become one, with their frequency, share and underlying edges |
| `ControlGraphs.ControlGraph.VirtualizeExit` | Graph/Transforms.cpp:765-784 | one exit: the edge becomes an edge of the new node under the key of its sink |
| `ControlGraphs.ControlGraph.VirtualizeSubgraph` | Graph/Transforms.cpp:691-795 | the whole new state: nodes, quotient edges, mirrored links and every edge object; nothing happens to an empty subgraph |
| `ControlGraphs.MidwayFinished` | Graph/Transforms.cpp:786-794 | removing the contracted nodes and edges completes the contraction |
| `Flow.MovedBody` | Graph/Transforms.cpp:730-784 | the frequency, probability and underlying edge of every edge moved by a narrow contraction |
| `Flow.EntrancesJoin` | Graph/Transforms.cpp:730-763 | any contraction, however many edges a node outside has into the subgraph: the one that takes their place has their frequencies taken together, that share of all the node passes on, and stands for all they stood for |
| `Flow.EntranceWeightsJoin` | Graph/Transforms.cpp:730-763 | where probabilities are shares of frequencies, the new one is the sum of theirs |
| `Flow.RegionIsNarrow` | Graph/Transforms.cpp:730-784 | no two edges outside a region end up under one key |
| `Flow.FlowPreserved` | Graph/Transforms.cpp:716-784 | contracting a region keeps the frequency into and out of it and of every other node |
| `Flow.NormalStep` | Graph/Transforms.cpp:753-778 | every edge keeps the share of its frequency as its probability |
| `Flow.OutgoingSumToOne` | Graph/Transforms.cpp:294-317 | the outgoing probabilities of every node with a successor sum to one |
| `Flow.TracedStep` | Graph/Transforms.cpp:730-784 | a narrow contraction keeps every edge standing for exactly the profile edges between its ends |
| `Flow.SolidStep` | Graph/Transforms.cpp:730-784 | no contraction makes a virtual edge that covers nothing |
| `Flow.ExitFlowSurvives` | Graph/Transforms.cpp:765-784 | the frequency to a sink survives exactly when just one exit leads there |
| `Flow.TotalDoesNotRise` | Graph/Transforms.cpp:716-784 | no contraction of any subgraph raises the total frequency |
| `Flow.KCLValid` | Graph/Transforms.cpp:2646-2675 | one rewrite keeps the graph valid and strictly lowers the total frequency |
| `Flow.KCLNormal` | Graph/Transforms.cpp:2658-2670 | it keeps every probability the share of its frequency |
| `Flow.KCLTraced` | Graph/Transforms.cpp:2648-2675 | it keeps the profile edges behind every edge |
| `Provenance.FindOriginalEdges` | Graph/IO.cpp:2651-2707 | draining the queue yields exactly the flattened edge; it throws exactly when some virtual edge below covers nothing |
| `Runs.RegionAfter` | Graph/Transforms.cpp:2767-2890 | contracting a region keeps everything a run keeps |
| `Runs.KCLAfter` | Graph/Transforms.cpp:2632-2681 | so does a frequency rewrite, which lowers the total frequency |
| `WholeRuns.StepsAfter` | Graph/Transforms.cpp:2683-3290 | what every step keeps, every sequence of steps keeps: region contractions, rewrites, one-way loop contractions and kernel contractions, in any order |
| `WholeRuns.ReachRun` | Graph/Transforms.cpp:2683-3290 | after any sequence of all of these from a profile, the leaves of the nodes partition the original nodes, journeys between different nodes are the original ones, and no cycle is new |
| `WholeRuns.RootedRun` | Graph/Transforms.cpp:239-268 | and every node is reached from where the first node is now, when every original node was reached from it |
| `WholeRuns.WholeRun` | Graph/Transforms.cpp:2683-2987 | after any sequence of region contractions, one-way loop contractions and rewrites from a profile, an edge between different nodes exists exactly when profile edges lead from a leaf of one to a leaf of the other, and stands for exactly these |
| `WholeRuns.RegionRun` | Graph/Transforms.cpp:2741-2893 | after any sequence of region contractions and rewrites from a profile, the graph is cyclic exactly when the profile was, and probabilities sum to one |
| `WholeRuns.AppliedToProfile` | Graph/Transforms.cpp:2683-2987 | what `ApplyCFGTransforms` does is such a sequence: whatever it makes of a profile, edges stand for exactly the profile edges between their leaves |
| `WholeRuns.SearchOfProfile` | Graph/Transforms.cpp:2683-3290 | so is what the search for kernels does afterwards: it keeps the partition of the original nodes and all journeys, and adds no cycle |
| `ControlGraphs.ControlGraph.KCLTransform` | Graph/Transforms.cpp:2632-2681 | every node is balanced at some time of the pass; every frequency is at most what it was, and what it was on some edge joined through nodes with one way in and one way out; true: the total fell, false: nothing changed and the graph is balanced; everything a run keeps is kept |
| `Balancing.LoweredNext` | Graph/Transforms.cpp:2640-2652 | evening one more node passes a frequency on to an adjoining edge only |
| `Balancing.AloneKeeps` | Graph/Transforms.cpp:2642 | an edge with no such node at either end keeps its frequency |
| `Balancing.BalancedIsLeast` | Graph/Transforms.cpp:2632-2681 | once rewrites have balanced a graph, every edge has the least frequency of all edges joined to it, whatever their order was |
| `ControlGraphs.ControlGraph.BalanceNode` | Graph/Transforms.cpp:2642-2678 | a node is left alone exactly when it is balanced; otherwise both its edges get the smaller of their frequencies, no other frequency changes, and the larger edge is wrapped |
| `ControlGraphs.ControlGraph.Reweigh` | Graph/Transforms.cpp:2658-2670 | probabilities of a node's edges set from their frequencies |
| `ControlGraphs.ControlGraph.FindRegion` | Graph/Transforms.cpp:2836-2881 | what is found at a node is the whole chain, or else the diamond, or else, in a full pass, the smallest enclosed region; nothing exactly when there is none of these, but for regions that no round closes in time, all of more than 200 edges |
| `ControlGraphs.ReadyToSearch` | Graph/Transforms.cpp:1172-1467 | in a valid graph whose nodes all reach an end, the finders' demands are met at every node |
| `ControlGraphs.ControlGraph.SimplifyPass` | Graph/Transforms.cpp:2741-2819 | the worklist terminates by node count, uncovered nodes and queue length; the graphs it goes through are each a contraction of what was found at some node; in the last one, every node reached from where the first node then is had nothing to contract in one of them; all is kept |
| `Passes.PassContracts` | Graph/Transforms.cpp:2767-2774 | after a contraction, covered nodes still lead only to covered and waiting ones, the new node standing in for those that are gone |
| `Passes.PassEnds` | Graph/Transforms.cpp:2755-2819 | when nothing waits, nothing that is reached was passed over |
| `Passes.QuietPass` | Graph/Transforms.cpp:2755-2819 | a pass without any contraction leaves no chain, no diamond and, in a full pass, no region of up to 200 edges anywhere it could reach |
| `Kernels.ClosedWalkIsKernel` | Graph/Transforms.cpp:3114-3140 | the nodes of a cycle with all edges between them reach each other inside |
| `Kernels.KernelHoldsAll` | Graph/Transforms.cpp:3120-3138 | a kernel leaves no edge between its nodes outside |
| `Kernels.KernelAfter` | Graph/Transforms.cpp:2181-2218 | contracting any kernel keeps journeys between nodes that stay apart, adds no cycle, and lowers the number of edges |
| `Kernels.OneWayAfter` | Graph/Transforms.cpp:2581-2626 | contracting a kernel with one entrance and one exit also keeps the profile behind every edge |
| `Kernels.OneWayLeaks` | Graph/Transforms.cpp:2601-2625 | the probability out of such a contracted loop stays strictly below one |
| `Kernels.OneWaySurvives` | Graph/Transforms.cpp:2593-2626 | contracting one loop leaves the others, found before, what they were |
| `LoopTransforms.MinCycle` | Graph/Transforms.cpp:2541-2544 | the nodes of a cheapest cycle through a node, none exactly when it is on none; cheapest at the given costs unless there is a self-edge which is not the cheapest way round |
| `LoopTransforms.AnchorOf` | Graph/VirtualNode.cpp:136-155 | the frequency of the most executed node of a kernel |
| `LoopTransforms.CrossKernel` | Graph/VirtualNode.cpp:63-118 | exactly the edges that enter and that leave a kernel |
| `LoopTransforms.FindLowLoops` | Graph/Transforms.cpp:2538-2591 | pairwise disjoint low-frequency loops, each looked up for some node, such that the loop looked up for any node is not eligible or shares a node with one of them |
| `LoopTransforms.ContractLoops` | Graph/Transforms.cpp:2593-2626 | contracts them one after the other, each into a new node of its own, and does nothing else |
| `LoopTransforms.LoopsMove` | Graph/Transforms.cpp:2593-2626 | where every original node is then buried, and at least one edge fewer for each |
| `LoopTransforms.LowFrequencyLoopTransform` | Graph/Transforms.cpp:2527-2630 | the loop never goes round twice; it contracts exactly the loops found, in order; reachability and provenance are kept |
| `Structuring.ApplyCFGTransforms` | Graph/Transforms.cpp:2683-2987 | terminates because every further round lowered the total frequency; gives account of all it did: the rewrites and the pass before the loop, and the rounds, of which exactly the last changed no frequency; a graph as large as before has nothing left to do from the first node on; reachability and provenance are kept |
| `Structuring.TransformRound` | Graph/Transforms.cpp:2829-2986 | one round is a full pass, the loops found in its result, and the rewrites of what is left; didChange exactly when a frequency changed; otherwise the graph is balanced |
| `Structuring.LastRoundLeaves` | Graph/Transforms.cpp:2829-2986 | what the last round leaves is balanced; unless it took a loop, no node reached had anything to contract when its turn came, and no loop is left to take |
| `Structuring.Prepare` | Graph/Transforms.cpp:2683-2819 | before the loop: the rewrites, unless only segments are wanted, and a pass for chains and diamonds |
| `Structuring.NothingLeftAnywhere` | Graph/Transforms.cpp:2829-2987 | when the original graph is reached from its first node, "from the first node on" is everywhere |
| `Structuring.NeverLarger` | Graph/Transforms.cpp:2824-2829 | no sequence of transforms makes the graph larger, in nodes or in edges |
| `KernelSelection.FindWinner` | Graph/Transforms.cpp:3181-3190 | the least score and the first kernel that has it |
| `KernelSelection.NeverLoses` | Graph/Transforms.cpp:3221-3225 | the tie test always holds once the first comparison failed |
| `KernelSelection.CompareWithOthers` | Graph/Transforms.cpp:3210-3236 | a kernel whose turn it is stays, drops only later kernels it shares a node with, and never the winner |
| `KernelSelection.SelectKernels` | Graph/Transforms.cpp:3191-3267 | keeps pairwise disjoint kernels of least score, some unless there were none; every dropped one of least score shares a node with an earlier kept one; the fallback does nothing |
| `KernelSelection.SelectionIsUnique` | Graph/Transforms.cpp:3215-3235 | the order of the ids alone decides, not the probabilities |
| `KernelSelection.Fallback` | Graph/Transforms.cpp:3240-3263 | would drop exactly the kernels that were the least probable so far, the last one excepted |
| `KernelTransforms.OnlyCycle` | Graph/Transforms.cpp:3148-3159 | the first test on a kernel: all its cycles go through the node |
| `KernelTransforms.FindKernels` | Graph/Transforms.cpp:3114-3184 | eligible kernels, each the kernel of a cheapest cycle and with all its cycles through one of its nodes, such that the kernel looked up for any node is not eligible or contains one of them |
| `KernelTransforms.ReweighedSum` | Graph/Transforms.cpp:2195-2206 | after a kernel's contraction the probabilities out of the new node sum to one |
| `KernelTransforms.VirtualizeKernels` | Graph/Transforms.cpp:2181-2218 | contracts exactly the selected kernels, in order, each into a new node whose probabilities are set again |
| `KernelTransforms.KernelsMove` | Graph/Transforms.cpp:2181-2218 | where every original node is then buried, and at least one edge fewer for each |
| `Runs.GatheredApart` | Graph/Transforms.cpp:2181-2218 | subgraphs that are apart end up in a new node each, and no other node is touched |
| `Structuring.TakeKernels` | Graph/Transforms.cpp:3109-3268 | what is taken is what the selection keeps of the eligible kernels found, and is contracted; nothing is taken only when the kernel looked up for any node is not eligible |
| `Structuring.TakenKernels` | Graph/Transforms.cpp:3185-3268 | the kernels taken in one iteration are eligible, those of cheapest cycles, and share no node |
| `Structuring.TakenAreBest` | Graph/Transforms.cpp:3185-3268 | none that was found has fewer entrances and exits |
| `Structuring.TakenMove` | Graph/Transforms.cpp:2181-2218 | they go into one new node each, and everything else stays where it was |
| `Structuring.FindMLCycles` | Graph/Transforms.cpp:3100-3290 | the search terminates because every iteration but the last takes a kernel; the kernels returned are those its iterations took, in order, each chosen in the graph the iteration looked at; nothing is eligible in the graph the last one looks at; what is left of it is balanced when it still had a cycle and transforms apply; reachability is kept |
| `Structuring.ReturnedKernel` | Graph/Transforms.cpp:3109-3276 | every kernel returned was eligible in the graph its iteration looked at, and there the kernel of a cheapest cycle; its nodes went into one new node |
| `Prune.KeptStaysOnPath` | Graph/Transforms.cpp:454-529 | every kept node lies on an entrance-to-exit path inside the pruned graph |
| `Prune.PruneTwice` | Graph/Transforms.cpp:439-537 | pruning twice equals pruning once |
| `Prune.WalkForward` | Graph/Transforms.cpp:465-487 | covers exactly the nodes reached from the entrance |
| `Prune.WalkBackward` | Graph/Transforms.cpp:495-516 | covers exactly the nodes that reach an exit |
| `Prune.RemoveUnreachableNodes` | Graph/Transforms.cpp:439-537 | throws exactly when a node has no successors; otherwise keeps exactly the nodes on some entrance-to-exit path and the edges between them |
| `Unnest.FindKernelBelow` | Graph/Transforms.cpp:1110-1136 | a kernel is found below a virtual node exactly when there is one, or when one was found earlier in the sweep |
| `Unnest.SweepConserves` | Graph/Transforms.cpp:1102-1166 | a sweep conserves blocks and outermost kernels, and shrinks the whole when it found a kernel |
| `Unnest.ReverseTransform` | Graph/Transforms.cpp:1095-1170 | terminates on every nesting; it makes the sweeps that find a kernel and no others; the kernels at top level are exactly the outermost ones; the blocks are conserved; with no kernel below any virtual node nothing is unwound |
| `Unnest.OrderDecides` | Graph/Transforms.cpp:1101-1137 | a virtual node without kernels is unwound or not depending on the order of the nodes |
| `HotBlocks.FirstAreGreatest` | cartographer/Hotcode.cpp:64-83 | of all sets of a given size the first blocks have the greatest frequency |
| `HotBlocks.SelectHot` | cartographer/Hotcode.cpp:61-83 | the selection is a prefix of blocks above the minimum, which reached the share just now, or ran out of such blocks without reaching it |
| `HotBlocks.DetectHotBlocks` | cartographer/Hotcode.cpp:40-92 | only blocks above the minimum are hot; the most frequent are selected: the least number that reaches the share, or all above the minimum exactly when these do not reach it |

## Left out

- ShortestPath.Dijkstras: what it returns is claimed for sorts that leave a cheapest front in place, for inputs without ties, and for free edges; on other inputs only that it ends. Which ties do harm under which sort is not characterised further. Costs are the given ones but on edges met after a self-edge of the source; `SelfEdgeMatters` says when this matters for cycles, the only searches the program makes.
- LoopTransforms.MinCycle: as does everything built on it, demands a sort that leaves a cheapest front in place, as stable sorts do; the recursion tests hold for any sort.
- SimpleRegions.TrivialTransforms: demands that the node is on no ring of mergeable nodes, where the program would not terminate (`RingNeverEnds`); the passes meet the demand because every node reaches an end.
- ControlGraphs.ControlGraph.SimplifyPass: is given the original node the program is entered at, and starts where that is buried, in place of the imaginary entrance edge, and `getFirstNode` throwing when no node has just that edge is not modelled.
- ControlGraphs.ControlGraph.VirtualizeSubgraph: when several nodes inside have edges back into the subgraph, the program makes one self-edge object per such node under one key; the model keeps the first. Nothing the program contracts has several (`Regions.InnerEntrance`, `Kernels.KernelHoldsAll`). Every edge is treated as one whose weight can be set.
- Structuring.ApplyCFGTransforms: function inlining itself (`VirtualizeSharedFunctions` after the schedule, `VirtualizeFunctionSubgraph`, `SubgraphBFS`) is not modelled, nor is `FanInFanOutTransform`, which is only called with an empty subgraph and then returns false (Graph/Transforms.cpp:2900-2927).
- Structuring.FindMLCycles: the revoking of cycles after the search (Graph/Transforms.cpp:3291 onwards) is not modelled; kernels with several exits to one sink lose frequency and provenance there (`ExitFlowSurvives`), so only reachability is claimed. Path probability is any function of the kernel, and the number of edges is taken to fit a C++ int.
- Unnest.ReverseTransform: nodes only; the edges it restores are incomplete in the program itself (Graph/Transforms.cpp:1139-1162).
- HotBlocks.DetectHotBlocks: shares are exact instead of floating point; least size is claimed for a positive threshold; the grouping of hot blocks is left out.
- InlinePlan.PlanInlining: every function is taken to be reached from main, as in a dynamic call graph.
- Imaginary nodes and edges, which mark the start and the end of a program and are skipped by the transforms.
- Object identity of nodes and edges, and the registers `NodeToVN` and `EdgeToVE` as the program keeps them.
- `MLCycle::addNodes`, child and parent kernels, `FullyConnected`: they do not influence the search.
- `Circuit` and `FindAllUniqueCycles`: they depart from the algorithm they name, so no completeness claim holds.
- The LLVM-facing code, file and JSON formats, DOT output, logging and command lines.
- Floating-point rounding of probabilities, and wrap-around of 64-bit frequencies.
