# CMake's dependency engine, presets and small algorithms, verified

This project models parts of CMake in Dafny and proves what they promise:

- **Component graphs** (`TarjanWalk`, `DepthFirst`, `SearchRecord`, `ComponentNumbers`, `ComponentGraph`,
  `ComponentTheory`). Tarjan's algorithm as the source runs it, with its stack, walk ids and visit indices. Its result
  is exactly the partition into strongly connected components, numbered in dependency order, and where dependencies
  leave a choice in the order of the nodes and of their edges; the graph between components is acyclic and keeps every
  edge with its multiplicity.
- **Target dependencies** (`SideEffects`, `SideEffectOrder`, `SideEffectCollection`, `IntermediateGraph`, `StrongWalks`,
  `ChainSearch`, `LinearChains`, `TargetTheory`, `TargetDepends`, `StrongCycles`, `TargetCompute`). Side effects are
  collected along dependencies, static libraries may drop dependencies without effect, and the cycles that are left are
  broken into chains. What a target collects is stated exactly, with cycles too. When linearization succeeds the final
  graph is acyclic, keeps strong edges, and orders targets of different components exactly as the intermediate graph
  does.
- **Link lines** (`LinkInference`, `LinkItems`, `LinkSearch`, `LinkShared`, `LinkRequests`, `LinkFound`, `LinkMeaning`,
  `LinkDirect`, `EdgeLists`, `LinkDiscovery`, then `LinkSchedule`, `LinkOrder`, `LinkDrain`, `LinkLine`, `LinkRuns`,
  `ComponentOrder`, `ComponentPlaces`, `LineOrder`, `LinkDepends`, joined in `LinkCompute`). A breadth-first search
  finds all items and the constraints on their order; a scheduler of pending components emits the line. The finished
  line begins with what is linked directly, in the order given, and holds exactly the entries that can be reached from
  it; each of them stands after everything that lists it, except inside a cycle. A cycle of several entries occurs in full as often as its multiplicity asks for if and only if none of
  its members is a shared library. Libraries that one entry alone needs come in the order of its list, and what only
  earlier entries need comes before what later ones need.
- **Presets** (`MacroText`, `MacroScanner`, `EnvironmentMeaning`, `BuiltinMacros`, `PresetEnvironment`, `PresetFields`,
  `PresetConditions`, `PresetInheritance`). The mutating, memoizing expansion of environment variables computes the
  simple recursive substitution; in-place inheritance with cycle marks passed by value computes the first value in
  own-then-parents order, and succeeds exactly when the presets have none of the faults it can report. Conditions come
  out as documented exactly when no null condition is overridden.
- **Small algorithms** (`Algorithms`, `HelpString`, `Base32`). Removal of indices by rotation is a stable partition; the
  help strings of the cache file survive writing and reading exactly under a stated condition; the Base 32 encoder is
  inverted by a decoder written from section 6 of RFC 4648.

Classes stand where the source updates an object in place: `ComputeComponentGraph`, `CollectTargetSideEffects`,
`ComputeTargetDepends`, `ComputeLinkItems`, `ComputeLinkDepends`, `EnvironmentExpansion`, `PresetsFile`. Their methods
are proved against predicates and functions on values, about which the lemmas speak. Ghost fields and parameters
record the course of a run; they are not part of the source.

What the code cannot see is a parameter: link interfaces and implementations (`LinkItems.Project`), own side effects
and kinds of targets, the process environment (`EnvironmentMeaning.Context`), and the order in which maps keyed by
strings are traversed.

Six places where the code does something a reader of its comments and documentation might not expect:

- `ComputeFinalDepends` refuses a component not only for a strong cycle, as its comment says. The search from a member
  fails when two different strong walks from it meet, because the set of visited nodes is never popped; walks through
  nodes finished by the searches from members of higher numbers do not count, because these are left at once. So
  whether a component is accepted depends on how the targets happen to be numbered. `TargetDepends` proves the exact
  condition, `StrongWalks.Linearizable`; `StrongCycles.DiamondRefused` gives a component without a strong cycle that is
  refused, and `StrongCycles.RenumberedAccepted` the same component with other numbers, in which two walks from target 0
  still meet and which is accepted.
- Side effects collected through a cycle can be incomplete: a target visited while another one is in progress does not
  see what that one finds later. `SideEffects.CycleMisses` is such a graph. A target collects the effects of exactly
  those from which it is reached through merges made in decreasing order of time, and so it is complete, whatever the
  effects are, iff all targets it can reach are of this kind (`SideEffects.CompleteExact`). That is so where no cycle
  can be reached, but also in some cycles, such as one of two targets (`SideEffects.PairComplete`).
- Shared libraries are kept only at their last place on the line. A cycle of several entries with a shared library among
  them, which needs at least two passes, therefore never makes them on the finished line.
  `LinkRuns.SharedPairLosesPass` shows two shared libraries that need each other: they are emitted twice, and left once.
- A `vendor` macro inside an environment variable makes the variable's own expansion be ignored, but a reference to that
  variable is then an error, since only the `vendor` namespace itself may be left unclaimed.
- In `VisitPreset` the mark `Verified` never reaches another visit, because the marks are passed by value: a preset is
  merged again for every child that inherits from it. The inherited fields come out the same, but conditions do not.
- A null condition is documented to leave its preset enabled (Help/manual/cmake-presets.7.rst:839-842). `VisitPreset`
  drops it at the end of the first visit, so that the next visit, on behalf of a child, finds no condition and inherits
  one. All presets end up with the conditions they should have iff no preset with a null condition has both a child and
  a parent that should have a condition (`PresetConditions.ConditionsExact`); `PresetInheritance.NullBetweenLost` gives
  three presets for which this fails.

## Model

| member | source | states |
|---|---|---|
| ComponentGraph.ComputeComponentGraph.Compute | Source/cmComputeComponentGraph.cxx:15-24 | for every well-formed graph: the map and the lists are exactly the strongly connected components, in dependency order and numbered as Tarjan states, and the component graph holds every inter-component edge |
| ComponentGraph.ComputeComponentGraph.Tarjan | Source/cmComputeComponentGraph.cxx:26-46 | two nodes get the same number iff each reaches the other; every node lies in exactly one list, which agrees with the map; what some node reaches is numbered below what no node up to it reaches; of what a walk from a node finds first, what an earlier edge leads to, outside of the node's component, is numbered below what only later edges lead to |
| ComponentGraph.ComputeComponentGraph.TarjanVisit | Source/cmComputeComponentGraph.cxx:48-113 | one visit keeps Tarjan's invariant: what it leaves open reaches an open older node through its root, what it closes is a complete component; it finishes nodes in the order of a depth-first search that follows the edges as they are listed |
| DepthFirst.RootsPart | Source/cmComputeComponentGraph.cxx:37-45 | a search from several nodes in turn finishes what is reached from the first ones before anything else |
| DepthFirst.EdgesPart | Source/cmComputeComponentGraph.cxx:61-87 | a visit finishes what its first edges lead to, unless they lead back, before what only later edges lead to |
| DepthFirst.EdgesPartAt | Source/cmComputeLinkDepends.cxx:738-758 | the same at any node of the search, for what can be reached only through that node |
| ComponentNumbers.LeftFirst | Source/cmComputeComponentGraph.cxx:89-112 | a component whose nodes are all finished before a node of another one has the lower number |
| ComponentNumbers.NodesFirst | Source/cmComputeComponentGraph.cxx:37-45 | numbers given as a depth-first search leaves the components favour what earlier nodes reach |
| ComponentNumbers.EdgesFirst | Source/cmComputeComponentGraph.cxx:61-87 | and, within one walk, what earlier edges lead to |
| ComponentGraph.ComputeComponentGraph.PopComponent | Source/cmComputeComponentGraph.cxx:89-112 | popping the stack down to a root takes exactly the component of that root |
| ComponentGraph.ComputeComponentGraph.TransferEdges | Source/cmComputeComponentGraph.cxx:115-134 | the edges between components, in the order of the original edges and with their flags |
| ComponentTheory.ComponentEdge | Source/cmComputeComponentGraph.cxx:115-134 | a component leads to another iff some edge leads from a member of the one to a member of the other |
| ComponentTheory.ComponentsDescend | Source/cmComputeComponentGraph.cxx:88-134 | component edges always go to a strictly lower Tarjan number |
| ComponentTheory.ComponentGraphAcyclic | Source/cmComputeComponentGraph.cxx:88-134 | components that reach each other are the same component |
| ComponentTheory.ComponentReach | Source/cmComputeComponentGraph.cxx:15-134 | a component reaches another iff its members reach the other's members |
| ComponentTheory.MultiplicityKept | Source/cmComputeComponentGraph.cxx:126-132 | each component edge occurs once for every original edge behind it |
| SideEffectCollection.CollectTargetSideEffects.CollectSideEffects | Source/cmComputeTargetDepends.cxx:423-433 | for every graph, cyclic or not: a target has collected an effect iff the effect flows to it from a target that owns it, through the merges in the order in which they were made; nothing is missed at targets that are visited before anything they lead to |
| SideEffectCollection.CollectTargetSideEffects.CollectSideEffectsForTarget | Source/cmComputeTargetDepends.cxx:435-457 | a visit terminates, enters each target at most once, and leaves in every target its own effects and what has been merged into it so far |
| SideEffects.FoldExact | Source/cmComputeTargetDepends.cxx:446-456 | after any sequence of merges a target has an effect iff it flows there from one that owns it |
| SideEffects.FlowsExact | Source/cmComputeTargetDepends.cxx:446-456 | effects flow exactly along walks whose merges were made at decreasing times |
| SideEffects.CollectedSound | Source/cmComputeTargetDepends.cxx:423-457 | nothing is collected that no reachable target has |
| SideEffects.CompleteExact | Source/cmComputeTargetDepends.cxx:423-457 | the collection of a target is complete for all possible effects iff the effects of every target it reaches flow to it |
| SideEffects.SimpleFlows | Source/cmComputeTargetDepends.cxx:438-455 | where no two different targets of a common cycle can be reached, everything flows |
| SideEffectOrder.FirstComplete | Source/cmComputeTargetDepends.cxx:423-433 | in every graph: a target misses nothing if no target before it leads to anything it leads to; the first target never does |
| SideEffectOrder.FirstEdgesComplete | Source/cmComputeTargetDepends.cxx:446-456 | nor does a target that an edge of such a target leads to, if neither it nor an edge before leads to anything that one leads to |
| SideEffects.PairComplete | Source/cmComputeTargetDepends.cxx:438-455 | the cycle of two targets is complete at both of them |
| SideEffects.CycleMisses | Source/cmComputeTargetDepends.cxx:438-455 | a graph with a cycle in which the effects of a reachable target do not flow, so that the collection is not complete |
| IntermediateGraph.OptimizeLinkDependencies | Source/cmComputeTargetDepends.cxx:487-526 | strong edges are kept in order; a target is a weak dependency iff it has a relevant effect among those of some weak input edge, and is emitted once, in the place of the first such edge and with its cross flag |
| IntermediateGraph.ComputeIntermediateGraph | Source/cmComputeTargetDepends.cxx:459-485 | only static and object libraries with the property are optimized, and keep as weak dependencies exactly the targets that an effect collected for one of them concerns; all other edge lists are copied |
| IntermediateGraph.IntermediateKeeps | Source/cmComputeTargetDepends.cxx:487-526 | what a weak dependency is kept for, in terms of the sets collected for custom commands and for the languages of the target |
| IntermediateGraph.IntermediateReach | Source/cmComputeTargetDepends.cxx:459-526 | the intermediate graph orders nothing that the initial graph does not order |
| IntermediateGraph.EffectsKept | Source/cmComputeTargetDepends.cxx:487-526 | a target whose relevant effect was collected behind a weak dependency is a direct dependency of the optimized one |
| TargetDepends.ComputeTargetDepends.IntraComponent | Source/cmComputeTargetDepends.cxx:672-705 | a search fails only if two different strong walks from its root meet that pass through no node finished by an earlier search; otherwise it prepends what it reached to the chain, each node with its strong edges |
| TargetDepends.ComputeTargetDepends.LinearizeComponent | Source/cmComputeTargetDepends.cxx:724-735 | a component becomes one chain through all its members iff it is linearizable; what a member reaches along strong edges comes after whatever neither it nor a later member reaches |
| LinearChains.SectionsOrder | Source/cmComputeTargetDepends.cxx:724-735 | each search adds to the front of the chain what it reaches and the earlier searches did not, and this decides the order |
| TargetDepends.ComputeTargetDepends.ConnectComponents | Source/cmComputeTargetDepends.cxx:738-751 | every component edge becomes an edge from the tail of the one chain to the head of the other |
| TargetDepends.ComputeTargetDepends.ComputeFinalDepends | Source/cmComputeTargetDepends.cxx:707-753 | succeeds iff every component is linearizable, and then yields a solution: chains, kept strong edges, redirected component edges |
| TargetTheory.FinalAcyclic | Source/cmComputeTargetDepends.cxx:707-753 | no edge of the final graph lies on a cycle |
| TargetTheory.FinalReach | Source/cmComputeTargetDepends.cxx:738-751 | targets of different components reach each other in the final graph iff they do in the intermediate graph |
| TargetTheory.FinalReachInside | Source/cmComputeTargetDepends.cxx:695-702 | inside a component a member reaches another iff it does not come later in the chain |
| TargetTheory.StrongKept | Source/cmComputeTargetDepends.cxx:682-693 | every strong edge inside a component is kept and points forward along the chain |
| TargetTheory.NoStrongCycle | Source/cmComputeTargetDepends.cxx:672-736 | a solved component has no strong cycle |
| StrongCycles.CycleNotLinearizable | Source/cmComputeTargetDepends.cxx:677-680 | a component with a strong cycle is never accepted |
| StrongCycles.DiamondRefused | Source/cmComputeTargetDepends.cxx:677-691 | a graph of one component without a strong cycle that is refused nevertheless |
| StrongCycles.RenumberedAccepted | Source/cmComputeTargetDepends.cxx:716-735 | the same graph with other target numbers is accepted, although two strong walks from target 0 meet |
| TargetCompute.CheckComponents | Source/cmComputeTargetDepends.cxx:594-625 | accepts iff every non-trivial component consists of static libraries and cycles are allowed at all |
| TargetCompute.AllowedExact | Source/cmComputeTargetDepends.cxx:594-625 | for a decomposed graph this holds iff any two different targets that depend on each other are static libraries |
| TargetCompute.NoCyclesComplete | Source/cmComputeTargetDepends.cxx:604-613 | where cycles are not allowed, the check makes the collected side effects complete for every target |
| TargetCompute.Compute | Source/cmComputeTargetDepends.cxx:112-153 | succeeds iff the cycles of the initial and of the intermediate graph are allowed and every component is linearizable; the intermediate graph is built from exactly the effects that flow; success yields a solution, in which the members of a cycle that no strong dependency orders keep the order of their numbers |
| TargetCompute.ChainsOrdered | Source/cmComputeTargetDepends.cxx:716-736 | in the final graph the members of a component come in the order of their numbers, as far as strong dependencies inside it allow |
| TargetCompute.FinalImplied | Source/cmComputeTargetDepends.cxx:112-153 | between components the final order is part of the order that the initial dependencies imply |
| TargetCompute.EffectsOrdered | Source/cmComputeTargetDepends.cxx:487-526 | the owner of an effect that an optimized target needs, and that flows to one of its weak dependencies, is ordered before it in the final graph or shares its component |
| LinkInference.FollowersExact | Source/cmComputeLinkDepends.cxx:567-582 | the set collected for an item of a list is the set of other items, neither target nor flag, after its first occurrence |
| LinkInference.CommonExact | Source/cmComputeLinkDepends.cxx:626-635 | the intersection of the sets of an item holds exactly what follows the item in every processed list containing it |
| LinkDiscovery.ComputeLinkItems.AddLinkEntry | Source/cmComputeLinkDepends.cxx:296-336 | an item gets one entry, is queued iff its dependencies are known, and is marked for inference iff they are not and it is no flag |
| LinkDiscovery.ComputeLinkItems.AddLinkObject | Source/cmComputeLinkDepends.cxx:338-357 | an object file gets one entry and is recorded once; it is never followed |
| LinkDiscovery.ComputeLinkItems.AddLinkEntries | Source/cmComputeLinkDepends.cxx:538-590 | a list adds an edge to each item that is not skipped, in order, or puts it on the original line, and stores the follow sets of the list |
| LinkDiscovery.ComputeLinkItems.AddDirectLinkEntries | Source/cmComputeLinkDepends.cxx:519-536 | the lists of the link implementation, runtime libraries included, are processed in order |
| LinkDiscovery.ComputeLinkItems.FollowLinkEntry | Source/cmComputeLinkDepends.cxx:359-398 | following an entry processes exactly the lists it depends on and queues its shared dependencies |
| LinkDiscovery.ComputeLinkItems.Search | Source/cmComputeLinkDepends.cxx:217-225 | the search ends, having followed each entry of known dependencies exactly once, in the order of discovery |
| LinkDiscovery.SearchDecreases | Source/cmComputeLinkDepends.cxx:217-225 | following an entry adds items of the project or shortens the queue |
| LinkDiscovery.ComputeLinkItems.HandleSharedDependency | Source/cmComputeLinkDepends.cxx:424-460 | a shared dependency gets an entry, a strong edge, and its own shared dependencies are followed once |
| LinkDiscovery.ComputeLinkItems.FollowSharedDeps | Source/cmComputeLinkDepends.cxx:400-422 | queues the dependencies of an entry the first time only |
| LinkDiscovery.ComputeLinkItems.SearchShared | Source/cmComputeLinkDepends.cxx:227-232 | the search of shared dependencies ends with all of them handled |
| LinkDiscovery.ComputeLinkItems.InferDependencies | Source/cmComputeLinkDepends.cxx:613-643 | adds exactly the inferred links: a strong edge from A to B iff A needs inference and B follows A in every list containing A |
| LinkDiscovery.InferredAt | Source/cmComputeLinkDepends.cxx:619-635 | the stored sets of an item decide what is inferred for it; without sets nothing is |
| LinkDiscovery.ComputeLinkItems.CleanConstraintGraph | Source/cmComputeLinkDepends.cxx:645-656 | each edge list becomes strictly ascending, with the same destinations, from edges it had before |
| EdgeLists.Cleaned | Source/cmComputeLinkDepends.cxx:645-656 | sorting and removing repetitions keeps every destination exactly once |
| LinkDiscovery.ComputeLinkItems.Discover | Source/cmComputeLinkDepends.cxx:211-238 | the index is one to one, each followable entry was followed once, and the graph has exactly the listed, shared and inferred edges, one for each destination; the indices follow the order of the objects of the target, of the objects of each interface, and of the libraries in each list |
| LinkRequests.LeadsIndex | Source/cmComputeLinkDepends.cxx:280-357 | an item asked for before the first request for another one has the lower index |
| LinkRequests.BlockObjects | Source/cmComputeLinkDepends.cxx:373-380 | the objects of an interface are asked for in their order |
| LinkRequests.EntryLeads | Source/cmComputeLinkDepends.cxx:373-380 | and so are its libraries and then its runtime libraries, each where it is named first |
| LinkFound.ListOrder | Source/cmComputeLinkDepends.cxx:519-598 | in a complete discovery the indices of objects, and of libraries that one entry alone needs, follow the order in which they are named first, and no object is left out |
| LinkMeaning.AskedFor | Source/cmComputeLinkDepends.cxx:359-643 | the direct entries are exactly those of the libraries and runtime libraries given, without the target itself and empty items; there is an edge iff a list of the entry names the item, or it is a shared dependency, or it follows in every list with the unknown entry |
| LinkMeaning.StepKind | Source/cmComputeLinkDepends.cxx:400-460 | an entry with shared dependencies of its own asks for these only, a mere shared dependency also for its libraries |
| LinkMeaning.EntriesKept | Source/cmComputeLinkDepends.cxx:308-315 | each entry has its item's text, and its target unless it is an object file; it counts as an option of the linker exactly if it came from a list, has no target and begins with a dash other than that of -l or -framework |
| LinkMeaning.FlagExact | Source/cmComputeLinkDepends.cxx:313-315 | which texts count as options of the linker |
| LinkSearch.FollowableAscending | Source/cmComputeLinkDepends.cxx:315-333 | no entry is queued twice |
| LinkSearch.EdgesExact | Source/cmComputeLinkDepends.cxx:557-560 | the listed edges of an entry lead to exactly the items of its lists |
| LinkShared.StrongExact | Source/cmComputeLinkDepends.cxx:443-446 | the strong edges of an entry are exactly those recorded for it |
| LinkFound.ListedLibrary | Source/cmComputeLinkDepends.cxx:369-383 | every library, neither empty nor the target itself, in a list of a followed entry has an entry and an edge from it |
| LinkFound.DirectLibrary | Source/cmComputeLinkDepends.cxx:519-532 | every such library linked directly is on the original link line |
| LinkCompute.SharedDependency | Source/cmComputeLinkDepends.cxx:400-446 | every shared dependency asked for has an entry and an edge to it |
| LinkCompute.Compute | Source/cmComputeLinkDepends.cxx:211-278 | from project to finished line: it begins with what is linked directly, in the order given; on it are exactly the entries reachable from that; each library an entry names stands later than every occurrence of that entry, except within a cycle; a shared library occurs at most once; a cycle without one makes two passes, and as many as any of its interfaces declares, and no entry occurs more often than that and where it is linked directly; all object files of the target and of the interfaces followed stand in front once, in the order of their lists; libraries that one entry alone needs stand in the order in which it lists them |
| LinkDirect.OriginalGiven | Source/cmComputeLinkDepends.cxx:519-536 | the original entries are those of the libraries given and then of the runtime libraries of each language, in order and as often as they are given, without the target itself and empty items |
| LinkDirect.FrontFound | Source/cmComputeLinkDepends.cxx:253-275 | the finished line begins with the original entries in order, of which only shared libraries that come again later are left out |
| LinkCompute.GivenFound | Source/cmComputeLinkDepends.cxx:253-275 | the same in terms of the types of the targets |
| LinkCompute.OnceFound | Source/cmComputeLinkDepends.cxx:257-266 | at most one occurrence of an entry whose target is a shared library, and of any other at least as many as it is linked directly |
| LinkCompute.PassesFound | Source/cmComputeLinkDepends.cxx:817-865 | the passes of a cycle in terms of the interfaces of its targets and of their types |
| LinkCompute.RepeatsFound | Source/cmComputeLinkDepends.cxx:817-865 | the largest number of occurrences, in the same terms |
| LinkCompute.ObjectsFound | Source/cmComputeLinkDepends.cxx:592-598 | objects of the target, or of one interface alone, stand in front in the order in which they are listed |
| LinkCompute.LibrariesFound | Source/cmComputeLinkDepends.cxx:645-656 | libraries that one entry alone needs, and that do not need it, stand on the line in the order in which it lists them |
| LinkCompute.CyclesFound | Source/cmComputeLinkDepends.cxx:705-714 | of two entries of a cycle that are not linked directly the one discovered first stands first |
| ComponentOrder.NumberingDone | Source/cmComputeLinkDepends.cxx:684-693 | after all visits the numbers are a permutation in which every edge goes from a lower to a higher one |
| LinkDepends.ComputeLinkDepends.VisitComponent | Source/cmComputeLinkDepends.cxx:738-758 | a depth-first visit numbers a component below everything it leads to |
| LinkDepends.ComputeLinkDepends.OrderComponents | Source/cmComputeLinkDepends.cxx:681-693 | the computed order is topological for the component graph; what a component leads to comes after whatever neither it nor a later one leads to; of what lies only below one component, what none of its edges from some number on leads to comes before what that edge leads to |
| ComponentPlaces.NodesLast | Source/cmComputeLinkDepends.cxx:691-693 | the backwards search over the components places what later components lead to last |
| ComponentPlaces.EdgesLast | Source/cmComputeLinkDepends.cxx:750-757 | the backwards search over the edges places what later edges lead to last |
| LineOrder.EdgePlaced | Source/cmComputeLinkDepends.cxx:645-656 | an edge of an entry to one that it alone needs stands among the edges of its component as it does among its own |
| LineOrder.EdgesOnLine | Source/cmComputeLinkDepends.cxx:670-715 | entries that one entry alone needs stand on the line in the order of its edges |
| LineOrder.EntriesOnLine | Source/cmComputeLinkDepends.cxx:670-715 | what only earlier entries need stands before what a later one needs |
| LineOrder.CyclesOnLine | Source/cmComputeLinkDepends.cxx:705-714 | of two entries of a cycle the drain takes the lesser first |
| LineOrder.KeepLastBefore | Source/cmComputeLinkDepends.cxx:257-266 | the filter keeps one entry in front of another |
| LinkDepends.ComputeLinkDepends.ComputeComponentCount | Source/cmComputeLinkDepends.cxx:851-865 | two, or the largest multiplicity a member's interface declares |
| LinkSchedule.MaxMultiplicity | Source/cmComputeLinkDepends.cxx:851-865 | the count is at least every declared multiplicity, and is one of them or the least allowed |
| LinkDepends.ComputeLinkDepends.MakePendingComponent | Source/cmComputeLinkDepends.cxx:817-849 | updates the pending map as the specification function does, keeping entries still waiting |
| LinkDepends.ComputeLinkDepends.VisitEntry | Source/cmComputeLinkDepends.cxx:760-815 | one emitted entry changes line and pending map as the specification function does |
| LinkSchedule.SeenEntry | Source/cmComputeLinkDepends.cxx:765-803 | seeing an entry completes its component iff it was the last of the last pass, and touches no other component |
| LinkSchedule.AllMadePending | Source/cmComputeLinkDepends.cxx:805-814 | after a completion exactly the targeted components are to be seen afresh |
| LinkOrder.OwnRecord | Source/cmComputeLinkDepends.cxx:768-771 | the record found under a component's order is its own, with a non-empty set of its entries |
| LinkOrder.OwedKept | Source/cmComputeLinkDepends.cxx:760-815 | what was owed before an entry is emitted is still owed or has just been delivered |
| LinkOrder.SettledKept | Source/cmComputeLinkDepends.cxx:760-815 | emitting any entry keeps the order invariant of the pending components |
| LinkOrder.DrainedOrdered | Source/cmComputeLinkDepends.cxx:705-714 | when nothing is pending, every entry is followed by a member of each component its own leads to |
| LinkOrder.PassesKept | Source/cmComputeLinkDepends.cxx:766-815 | emitting any entry keeps the account of disjoint full passes, whatever resets happen |
| LinkOrder.DrainedPasses | Source/cmComputeLinkDepends.cxx:766-865 | when nothing is pending, every component touched has had all its passes |
| LinkDrain.DrainDecreases | Source/cmComputeLinkDepends.cxx:705-714 | the drain loop terminates: a larger first order, or fewer passes, or fewer entries left in this pass |
| LinkDrain.DrainKept | Source/cmComputeLinkDepends.cxx:705-714 | the drained tail stays non-decreasing in component order, and each of its entries occurs at most as often as its component has passes |
| LinkRuns.CompletedOnce | Source/cmComputeLinkDepends.cxx:705-714 | once the drain has completed a component no entry of it is emitted again: each component completes at most once |
| LinkLine.EmitInvariant | Source/cmComputeLinkDepends.cxx:700-714 | after any sequence of emitted entries the pending map is well formed and both invariants hold |
| LinkLine.CompletedLineSafe | Source/cmComputeLinkDepends.cxx:700-714 | for every occurrence of u on a completed line and every v reachable from u outside its cycle, v occurs later |
| LinkLine.CompletedLinePasses | Source/cmComputeLinkDepends.cxx:766-865 | a cycle with any member on a completed line occurs in full in as many disjoint passes as it needs |
| LinkLine.KeepLastSafe | Source/cmComputeLinkDepends.cxx:257-266 | keeping only the last occurrence of each shared library keeps the line safe |
| LinkLine.KeepLastCount | Source/cmComputeLinkDepends.cxx:257-266 | a shared library is left exactly once, anything else as often as before |
| LinkRuns.FinishedExact | Source/cmComputeLinkDepends.cxx:257-266 | a component on a completed run makes all its passes on the filtered line iff it is trivial or none of its members is a shared library |
| LinkRuns.NeedExact | Source/cmComputeLinkDepends.cxx:817-865 | how many passes the scheduler makes is what the cycle asks for: one if trivial, else two or the largest declared multiplicity |
| LinkRuns.FinishedPasses | Source/cmComputeLinkDepends.cxx:253-266 | the same condition, said of all cycles of the constraint graph on the finished line |
| LinkRuns.SharedPairLosesPass | Source/cmComputeLinkDepends.cxx:257-266 | two shared libraries that need each other: the run emits both twice, the filter leaves both once, and the second pass is lost |
| LinkRuns.OnLineExact | Source/cmComputeLinkDepends.cxx:700-714 | on a completed run an entry is on the line iff it can be reached from an original one |
| LinkDepends.ComputeLinkDepends.OrderLinkEntires | Source/cmComputeLinkDepends.cxx:670-715 | the line begins with the original entries and goes on with the least entry of the first pending component until nothing is pending; it is safe, its tail is sorted, it holds exactly what the original entries reach, and entries that do not need each other come in the order of the edges and indices |
| LinkDepends.ComputeLinkDepends.FinalEntries | Source/cmComputeLinkDepends.cxx:253-275 | the result is the object files in order, then the line with shared libraries at their last place |
| LinkDepends.ComputeLinkDepends.Compute | Source/cmComputeLinkDepends.cxx:250-278 | the finished line is safe, holds exactly the entries reachable from the original ones, makes the passes over a cycle iff it is trivial or has no shared member, repeats nothing more often than needed, and keeps the order of entries that do not need each other |
| MacroText.EchoFidelity | Source/cmCMakePresetsFile.cxx:444-521 | with an expander that writes references back, every text is returned unchanged unless it ends inside a macro name, which is an error |
| MacroText.IncompleteShape | Source/cmCMakePresetsFile.cxx:510-517 | the texts that are errors end in a macro of a valid namespace that is never closed |
| MacroText.EscapeExpands | Source/cmCMakePresetsFile.cxx:343-346 | replacing each dollar sign by its macro and expanding gives the original text |
| MacroScanner.ScanStep | Source/cmCMakePresetsFile.cxx:458-508 | one character of the three-state scanner keeps what is done, held and still to come in agreement with the tokens of the text |
| MacroScanner.ScanEnd | Source/cmCMakePresetsFile.cxx:510-517 | at the end of the text the scanner has found all its tokens, and is inside a name iff the text is incomplete |
| EnvironmentMeaning.CycleHasNoValue | Source/cmCMakePresetsFile.cxx:424-442 | a variable on a cycle of references has no value |
| EnvironmentMeaning.AvoidLess | Source/cmCMakePresetsFile.cxx:424-442 | a value does not depend on which variables are being expanded further out |
| EnvironmentMeaning.ValuesSolve | Source/cmCMakePresetsFile.cxx:303-406 | the values satisfy the substitution equations |
| EnvironmentMeaning.SolutionUnique | Source/cmCMakePresetsFile.cxx:303-406 | and nothing else does |
| PresetEnvironment.EnvironmentExpansion.ExpandEnvironment | Source/cmCMakePresetsFile.cxx:303-406 | ends for every map; succeeds iff every variable has a value, and then stores exactly the values, whatever the order; a text around one macro becomes the text around what each of the seven names, a variable of the process or another variable stands for; a dollar sign that begins no macro stays, and so does the character that shows it; what nothing stands for, or is never closed, is an error, and a vendor's macro is ignored |
| BuiltinMacros.MeaningAround | Source/cmCMakePresetsFile.cxx:444-521 | a macro among text without dollar signs is replaced by its value, or the text fails as the macro does |
| BuiltinMacros.BuiltinsSolved | Source/cmCMakePresetsFile.cxx:315-354 | what each of the macros without a namespace stands for, the host system from version 3 on |
| BuiltinMacros.VariablesSolved | Source/cmCMakePresetsFile.cxx:359-391 | references stand for the variables of the process, or for those that the preset gives a text |
| BuiltinMacros.NothingElseSolved | Source/cmCMakePresetsFile.cxx:523-541 | an expanded environment has no other macro, and none that is never closed |
| BuiltinMacros.MeaningStray | Source/cmCMakePresetsFile.cxx:471-492 | a dollar sign and what could still begin a namespace are kept with the character that shows that none begins, and what follows is read on its own, also if that character was a dollar sign |
| BuiltinMacros.MeaningOpen | Source/cmCMakePresetsFile.cxx:510-517 | a text that ends inside a macro is an error |
| BuiltinMacros.StraysSolved | Source/cmCMakePresetsFile.cxx:471-517 | what stays as it is in an expanded environment |
| BuiltinMacros.RefusedOne | Source/cmCMakePresetsFile.cxx:523-541 | how an environment with one such text fails |
| PresetEnvironment.EnvironmentExpansion.VisitEnv | Source/cmCMakePresetsFile.cxx:424-442 | the memo of verified variables holds exactly their values, and a failure is the variable's own |
| PresetEnvironment.EnvironmentExpansion.ExpandMacros | Source/cmCMakePresetsFile.cxx:444-521 | the scanner loop computes the meaning of the text, also when expansions in it change the memo |
| PresetEnvironment.EnvironmentExpansion.ExpandMacro | Source/cmCMakePresetsFile.cxx:523-541 | asking the expanders in turn computes the value of the macro |
| PresetEnvironment.EnvironmentExpansion.EnvironmentMacro | Source/cmCMakePresetsFile.cxx:359-387 | the preset's own variables are looked up before those of the process |
| PresetEnvironment.FailureAnywhere | Source/cmCMakePresetsFile.cxx:393-406 | whether expansion fails does not depend on the order |
| PresetEnvironment.CycleRefused | Source/cmCMakePresetsFile.cxx:424-442 | any cycle of references makes the expansion fail |
| PresetFields.MergeFills | Source/cmCMakePresetsFile.cxx:637-668 | merging a parent fills exactly the fields that are not set yet, for strings, options, environment and cache entries alike |
| PresetFields.FieldsDetermine | Source/cmCMakePresetsFile.h:64-130 | presets of the same identity with the same values in all fields are equal but for their conditions |
| PresetFields.InheritedSame | Source/cmCMakePresetsFile.cxx:78-136 | the inherited value of a field does not depend on the path on which a preset is reached |
| PresetInheritance.MergedAll | Source/cmCMakePresetsFile.cxx:101-126 | merging all parents completes a preset, whether it was untouched or already complete |
| PresetInheritance.CycleNotGrounded | Source/cmCMakePresetsFile.cxx:84-92 | a preset that inherits from itself through others has no finite ancestry |
| PresetInheritance.SoundFaultless | Source/cmCMakePresetsFile.cxx:78-136 | if all presets are sound there is no cycle, no user parent of a project preset, no missing parent and no invalid preset |
| PresetInheritance.CompleteSolves | Source/cmCMakePresetsFile.cxx:101-126 | each field of a finished preset is its own value or the first its finished parents have |
| PresetInheritance.PresetsFile.VisitPreset | Source/cmCMakePresetsFile.cxx:78-136 | a visit terminates; it completes the preset, keeps all others untouched or complete, and changes the conditions as one visit does, or it returns a fault that exists |
| PresetConditions.IntendedSame | Source/cmCMakePresetsFile.cxx:124-131 | the condition a preset should have does not depend on the path on which it is reached |
| PresetConditions.OverriddenLost | Source/cmCMakePresetsFile.cxx:78-136 | a preset with a null condition, a child, and a parent that should have a condition always ends up with a condition to evaluate |
| PresetConditions.ConditionsExact | Source/cmCMakePresetsFile.cxx:78-157 | for every order of the visits: all presets end up with the intended conditions iff no null condition is overridden |
| PresetInheritance.NullBetweenLost | Source/cmCMakePresetsFile.cxx:124-131 | three presets without a fault, of which the middle one loses its null condition |
| PresetInheritance.PresetsFile.ComputePresetInheritance | Source/cmCMakePresetsFile.cxx:138-157 | succeeds iff the presets have no fault; each error names a fault that exists; on success the inheritance equations hold, no preset inherits what does not go together or lacks what is required, and all conditions are as intended iff no null condition is overridden |
| PresetInheritance.ContradictoryExact | Source/cmCMakePresetsFile.cxx:681-709 | a finished preset is refused iff it is not hidden and its inherited settings lack a generator or binary directory before version 3, or make warnings that are off into errors, or name a cache variable emptily |
| Algorithms.Rotate | Source/cmAlgorithms.h:19-27 | exchanges two neighbouring stretches and returns where the second begins |
| Algorithms.RemoveIndices | Source/cmAlgorithms.h:73-95 | the array becomes the kept elements in order, then the removed ones in order; the result is the boundary; nothing is lost |
| Algorithms.KeptAt | Source/cmAlgorithms.h:73-95 | an element that stays moves forward by the number of elements removed before it |
| Algorithms.RemovedPermutes | Source/cmAlgorithms.h:73-95 | the partitioned array is a permutation of the original |
| Algorithms.RemoveDuplicates | Source/cmAlgorithms.h:104-136 | the front of the array becomes each value where it occurs first |
| Algorithms.FirstOccurrencesExact | Source/cmAlgorithms.h:104-136 | these are all the values, without repetition |
| HelpString.OutputHelpString | Source/cmCacheManager.cxx:407-429 | writes the lines that the specification function gives; without newlines in the string, no line has a space after its sixtieth character, and a line before the last has at least sixty, the next one beginning with the space |
| HelpString.WrittenWrapped | Source/cmCacheManager.cxx:417-427 | where long help strings are broken, said of the lines of the text |
| HelpString.ReadHelpString | Source/cmCacheManager.cxx:72-85 | the reading loop collects what the specification function reads, and stops at the first other line |
| HelpString.LeadingNewlineLost | Source/cmCacheManager.cxx:417-427 | a help string starting with a newline is never restored, because its first line is written twice |
| HelpString.HelpRoundTrip | Source/cmCacheManager.cxx:72-85 | for every help string: it is restored iff it is empty, or does not start with a newline and no written line of it loses a character |
| HelpString.PlainRoundTrip | Source/cmCacheManager.cxx:72-85 | a string without carriage returns is restored iff it is empty, or has no NUL and starts neither with a newline nor with backslash-n |
| HelpString.ReadLine | Source/kwsys/SystemTools.cxx:4151-4188 | a line is read up to its newline, without a final carriage return, and the loop goes on with the text after it |
| Base32.ShiftsPick | Source/cmBase32.cxx:15-33 | the shifts and masks pick out the quintets of the 40-bit group |
| Base32.Base32Encode5 | Source/cmBase32.cxx:15-33 | fills the buffer with the characters of the group's quintets |
| Base32.EncodeString | Source/cmBase32.cxx:39-93 | computes the encoding, with padding or without |
| Base32.EncodedLength | Source/cmBase32.cxx:39-93 | 8 characters per started group with padding, one per started quintet without |
| Base32.RoundTrip | Source/cmBase32.cxx:39-93 | the decoder of the standard gives every byte sequence back, with padding and without |
| Base32.EncodedInjective | Source/cmBase32.cxx:39-93 | different inputs have different encodings |

## Left out

- Backtraces on edges and items, display, debugging output, error messages and policy switches: they do not change any graph or text modelled here.
- `std::sort`, `std::unique`, `std::rotate` and set iteration are library code: sorting is written as insertion, iteration as picking the least element, rotation as copying a stretch. Where equal destinations are merged, the sort of the source leaves open which edge survives; the model keeps the first and claims only the destinations.
- Integer widths: node numbers, counts and the unsigned multiplicity are unbounded here; the one unsigned wrap-around that matters, the length of the first line of a help string with a leading newline, is modelled as what it selects.
- Collecting targets and dependencies (`CollectTargets`, `CollectDepends`): the initial graph is an input.
- Parsing of old-style dependency variables (`AddVarLinkEntries`) and the handling of libraries of the wrong configuration: the list chosen for a configuration is an input.
- Link interfaces are given as a map from targets, so that a target has the same interface whenever it is asked for; the order of targets as map keys is not modelled.
- PresetInheritance.PresetsFile.ComputePresetInheritance: does not model build and test presets, whose fields are inherited by the same rules.
- PresetEnvironment.EnvironmentExpansion.ExpandEnvironment: does not model evaluating a preset's condition, nor expanding its other fields after the environment.
- HelpString.ReadHelpString: begins at a help line; skipping blank and comment lines before it is left out, as is the key line after it.
- IntermediateGraph.OptimizeLinkDependencies: does not state the order of several targets that become necessary at the same input edge; the source takes them in the order of a set of pointers.
- LineOrder.EdgesOnLine: does not order entries that several others need; there the source only means to keep the original order as far as it can.
- Algorithms.RemoveDuplicates: elements are copied, so what stands behind the returned position is not specified.
- Parsing of cache entries, files and streams beyond lines of text, JSON, regular expressions, and the other parts of CMake.
