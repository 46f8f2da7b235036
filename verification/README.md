# Proofs about the projects of this repository

The repository collects independent programs. For twelve of them this Dafny project holds a model
of the part with the most state or the hardest argument, and proofs about it. `dafny verify
dfyconfig.toml` checks everything. Nothing here runs the original programs.

| project | files |
|---|---|
| reduction of combinator expressions (Haskell) | `Combinators`, `CombinatorShortening`, `CombinatorStrategies`, `CombinatorPrinting` |
| poset library (C++) | `Digraph`, `PosetLibrary` |
| transfers of components between devices (Java) | `TransferCycles`, `ComponentTransfers`, `StorageSystem`, `ComponentPlacement`, `PlacementRuns`, `SlotHandover`, `TransferOrder` |
| MIMPI barrier, broadcast and reduce (C) | `CollectiveTree`, `CollectiveRoots`, `Collectives`, `CollectiveRuns`, `CollectiveSteps`, `CollectiveSafety`, `CollectiveProgress`, `CollectiveFinish` |
| UDPR stop-and-wait transfer (C) | `UdprTransfer`, `UdprProgress` |
| Macchiato machine (Java) | `MacchiatoCode`, `Macchiato`, `MacchiatoMachine`, `MacchiatoProcedures`, `MacchiatoRedeclaration`, `MacchiatoValues`, `MacchiatoMeaning`, `MacchiatoDebugger` |
| library of sequences (C) | `SequenceClasses`, `SequenceHeap`, `SequenceLibrary` |
| SameGame (C) | `SameGameBoard`, `SameGame` |
| Black Lady (C++) | `BlackLadyRules`, `BlackLady`, `BlackLadyServer` |
| keyed stack (C++) | `KeyedStack` |
| scopy (assembly) | `Scopy` |
| Mastermind (Python) | `MastermindJudge`, `Mastermind` |

How the models are built:

- Code that updates state is a class with the source's fields, and every method is proved equal to
  a step of a function on values; what a project promises is then proved about those functions and
  about all their runs. In-place loops on arrays stay loops on arrays.
- Concurrent and networked code is a state machine over its atomic steps. In the storage system a
  section with the mutex held is one step, with the sections of all threads the mutex is handed to.
  In MIMPI a rank's read or write of a channel is one. In UDPR the network may lose, repeat and
  reorder.
- Input, output, clocks and random choices are parameters or unconstrained choices: how the
  system splits reads and writes, which packets arrive, what the genetic search finds.

What the proofs found:

- `reduceShortening` is said to reduce all shortening redexes. It stops with the first one that
  appears at the root: K (I x) z becomes I x (`CombinatorShortening.ShorteningExtent`,
  `CombinatorShortening.ShorteningMayLeaveOne`).
- Transfers: the array of semaphores on which transfers wait for their claimed slots holds one and
  the same semaphore, so a removal may wake a transfer that waits for another slot. It then enters
  that slot though the component there has not been removed, and that one's removal finds no slot.
  Components that are about to leave are safe along a run if and only if no removal does this
  (`SlotHandover.LeaversIff`); it can happen if and only if, when a slot is emptied for a waiting
  transfer, another one waits for a slot that is still full (`SlotHandover.MayOverwriteIff`).
- Transfers are checked before they begin, in sections of their own. Components are where their
  transfers say if and only if at the beginning itself the component is in one slot, on the source,
  or in none (`PlacementRuns.PlacedIff`); a member of a released cycle that begins again before its
  old slot is taken over is not.
- UDPR: once the server has sent its last acknowledgement and the confirmation it is gone; if both
  are lost, the client fails though the server has everything. Before that, and as long as neither side
  has given up, the transfer survives the loss of all datagrams under way if and only if whoever has to
  resend has a try left
  (`UdprProgress.RecoversIff`).
- UDPR with an empty message: the server acknowledges packet 2^64 - 1, because the number of an
  acknowledgement is one less than the number expected and nothing was expected yet. That an
  acknowledgement is always for a packet of the message holds if and only if the message is not
  empty (`UdprTransfer.EmptyMessageFails`, `UdprTransfer.AcksWithinMessageIff`).
- MIMPI: every group function is promised to be a synchronisation point. The tree of a call is
  rebuilt for its root, but channels are named by the parent and the side only, so a rank of the
  next call can take the verdict that another rank has not read yet. The promise holds in every
  interleaving if and only if the roots of neighbouring calls go together: they are equal, or no
  rank is a parent in both trees (they are at least half the ranks apart), or exactly one is and
  its children are below each other (`CollectiveProgress.SynchronisesIff`,
  `CollectiveRoots.RootsSafeMeans`). A barrier between the calls always helps. Under the same
  condition, and only then, all ranks can always return from all calls
  (`CollectiveFinish.FinishesIff`): otherwise a rank can be robbed of its verdict, and then some
  rank waits for ever. Two broadcasts from neighbouring roots among four ranks can deliver the
  first data twice (`CollectiveProgress.NextBroadcastGoesWrong`).
- Macchiato: the comment in `ProcedureDeclaration.java` promises that a declaration is refused if
  its name is already declared in this scope and hides the outer one otherwise. Both halves fail,
  because a declaration is one object that remembers the newest frame before it is checked. A
  procedure that declares another one and calls itself is refused the inner declaration, and a
  frame whose declaration is executed again further in accepts the name twice
  (`MacchiatoRedeclaration`). `MacchiatoProcedures.AcceptedIff` says exactly when the promise is
  kept; it always is if no declaration is executed while an outer open frame holds it.

## Model

| member | source | states |
|---|---|---|
| Combinators.RStepContracts | YEAR_3/Visualization of Combinator Reduction/visualizator.hs:28-39 | `rstep` leaves an expression alone exactly when it has no redex anywhere, and otherwise its result is one contraction of it |
| Combinators.ReduceShortening | YEAR_3/Visualization of Combinator Reduction/visualizator.hs:51-65 | terminates, and either changes nothing or makes the expression smaller; how far it goes is `CombinatorShortening.ShorteningExtent` |
| Combinators.ShorteningReduces | YEAR_3/Visualization of Combinator Reduction/visualizator.hs:51-65 | the result is reached by contractions only; nothing changes exactly when there is no I, K or B redex |
| CombinatorShortening.ShorteningIsShort | YEAR_3/Visualization of Combinator Reduction/visualizator.hs:51-65 | every contraction on the way is one of an I, K or B redex |
| CombinatorShortening.ShorteningExtent | YEAR_3/Visualization of Combinator Reduction/visualizator.hs:51-65 | such contractions below the root lead to an expression that either has no I, K or B redex anywhere, and is the result, or has one at the root, and the result is its contraction |
| Combinators.RStepShortReduces | YEAR_3/Visualization of Combinator Reduction/visualizator.hs:42-48 | `rstep'` only reduces, and its fixpoints are exactly the expressions without a redex |
| Combinators.Triangle | YEAR_3/Visualization of Combinator Reduction/visualizator.hs:28-33 | a parallel contraction of any set of redexes can be completed to the contraction of all of them |
| Combinators.ChurchRosser | YEAR_3/Visualization of Combinator Reduction/visualizator.hs:28-33 | reductions of one expression by different strategies can always be brought together again |
| Combinators.UniqueNormalForm | YEAR_3/Visualization of Combinator Reduction/visualizator.hs:28-33 | an expression has at most one redex-free form |
| Combinators.PathReduces | YEAR_3/Visualization of Combinator Reduction/visualizator.hs:68-80 | every element of a path is a reduct of its first one, for any path limit |
| Combinators.StrategiesAgree | YEAR_3/Visualization of Combinator Reduction/visualizator.hs:67-80 | whenever the plain and the shortening path from one expression both end at a fixpoint, they end at the same expression |
| Combinators.PrintedPathsAgree | YEAR_3/Visualization of Combinator Reduction/visualizator.hs:67-80 | the two printed paths, of at most 30 elements, end in the same expression if both are shorter than that |
| CombinatorStrategies.Standardisation | YEAR_3/Visualization of Combinator Reduction/visualizator.hs:28-39 | every reduction can be rearranged to contract from the left to the right |
| CombinatorStrategies.LeftmostNormalises | YEAR_3/Visualization of Combinator Reduction/visualizator.hs:28-39 | if an expression has a redex-free form at all, repeating the leftmost step gets there |
| CombinatorStrategies.LeftmostCommutes | YEAR_3/Visualization of Combinator Reduction/visualizator.hs:28-39 | the leftmost step commutes with any parallel contraction |
| CombinatorStrategies.ShortReaches | YEAR_3/Visualization of Combinator Reduction/visualizator.hs:42-65 | repeating `rstep'` reaches the redex-free form |
| CombinatorStrategies.BothNormalise | YEAR_3/Visualization of Combinator Reduction/visualizator.hs:28-65 | both strategies find the redex-free form whenever there is one |
| CombinatorStrategies.PathsStopTogether | YEAR_3/Visualization of Combinator Reduction/visualizator.hs:67-80 | without the limit one path stops if and only if the other does, and at the same expression |
| CombinatorPrinting.ReadPretty | YEAR_3/Visualization of Combinator Reduction/visualizator.hs:10-25 | a reader that splits at the last space outside parentheses gets every expression back from its printed form |
| CombinatorPrinting.PrettyInjective | YEAR_3/Visualization of Combinator Reduction/visualizator.hs:10-25 | different expressions are printed differently |
| Digraph.PartialOrder | YEAR_2/Poset/poset.cc:201-235 | reachability over the kept edges is a partial order on the elements |
| Digraph.WithEdgeOrder | YEAR_2/Poset/poset.cc:432-460 | one more edge u to v relates exactly the pairs (a, b) with a below u and v below b |
| Digraph.RemovedOrder | YEAR_2/Poset/poset.cc:240-261 | joining the neighbours of an element and dropping it keeps the order of all others exactly |
| Digraph.WithoutEdgeOrder | YEAR_2/Poset/poset.cc:266-301 | rewriting around a deleted edge loses that one pair if nothing lies between, and nothing otherwise |
| Digraph.CoverIsEdge | YEAR_2/Poset/poset.cc:468-498 | two elements with nothing between them are joined by an edge |
| PosetLibrary.RelationExists | YEAR_2/Poset/poset.cc:201-235 | the worklist search ends and decides reachability |
| PosetLibrary.AlwaysPartialOrder | YEAR_2/Poset/poset.cc:305-542 | after any operations the tested relation is reflexive on the elements, antisymmetric and transitive |
| PosetLibrary.AddEffect | YEAR_2/Poset/poset.cc:432-460 | the tested relation gains exactly the pairs (a, b) with a below value1 and value2 below b, and only if the call returns true |
| PosetLibrary.RemoveEffect | YEAR_2/Poset/poset.cc:406-425 | the order among the survivors is kept exactly and no edge to the removed element is left |
| PosetLibrary.DelEffect | YEAR_2/Poset/poset.cc:468-498 | exactly the pair (value1, value2) is lost if it is deletable; otherwise the tested relation stays, even where edges were rewritten |
| PosetLibrary.InsertEffect | YEAR_2/Poset/poset.cc:363-400 | a new element is related to itself only |
| PosetLibrary.Library.PosetNew | YEAR_2/Poset/poset.cc:305-321 | the next 32-bit number, with an empty poset unless one is there already |
| PosetLibrary.Library.PosetDelete | YEAR_2/Poset/poset.cc:325-338 | the poset is forgotten |
| PosetLibrary.Library.PosetSize | YEAR_2/Poset/poset.cc:342-357 | the number of elements, 0 for an unknown poset |
| PosetLibrary.Library.PosetInsert | YEAR_2/Poset/poset.cc:363-400 | true exactly for a new element of a known poset; the new state is that of the operation |
| PosetLibrary.Library.ReparentChildren | YEAR_2/Poset/poset.cc:240-261 | the loop joins every predecessor of the element with every successor |
| PosetLibrary.Library.PosetRemove | YEAR_2/Poset/poset.cc:406-425 | true exactly when the element was there; the new state is that of the operation |
| PosetLibrary.Library.PosetAdd | YEAR_2/Poset/poset.cc:432-460 | true exactly when both elements are there and neither is below the other |
| PosetLibrary.Library.DelNotDisturb | YEAR_2/Poset/poset.cc:266-301 | decides whether the two are joined by an edge and rewrites the edges around it in place |
| PosetLibrary.Library.PosetDel | YEAR_2/Poset/poset.cc:468-498 | true exactly when value1 lies strictly below value2 with nothing strictly between |
| PosetLibrary.Library.PosetTest | YEAR_2/Poset/poset.cc:503-527 | decides the tested relation |
| PosetLibrary.Library.PosetClear | YEAR_2/Poset/poset.cc:531-542 | all elements of the poset are gone |
| TransferCycles.DFS | YEAR_2/Components on Devices/cp2023/solution/DeviceMonitor.java:300-369 | the three-stack search ends; a non-empty answer closes a cycle with the new transfer; the answer is empty exactly when no such cycle exists |
| TransferCycles.CycleFromPath | YEAR_2/Components on Devices/cp2023/solution/DeviceMonitor.java:300-369 | a path of waiting transfers from the source of the new one to its destination gives a cycle of transfers |
| TransferCycles.CycleIsPath | YEAR_2/Components on Devices/cp2023/solution/DeviceMonitor.java:300-369 | a cycle of transfers is such a path |
| ComponentTransfers.StepKeeps | YEAR_2/Components on Devices/cp2023/solution/DeviceMonitor.java:74-297 | every mutex-held section keeps the invariant of monitors, queues and threads |
| ComponentTransfers.RunInv | YEAR_2/Components on Devices/cp2023/solution/StorageSystemImplementation.java:55-175 | the invariant holds in every state of every run of any number of transfers |
| ComponentTransfers.AlwaysSafe | YEAR_2/Components on Devices/cp2023/solution/DeviceMonitor.java:74-265 | in every run no cycle of transfers waits, and a device with a waiting transfer has no free slot and no announced one |
| ComponentTransfers.NeverStuck | YEAR_2/Components on Devices/cp2023/solution/DeviceMonitor.java:74-228 | a thread that is about to reserve or to announce a slot can always do so |
| ComponentPlacement.AddPlaces | YEAR_2/Components on Devices/cp2023/solution/DeviceMonitor.java:179-207 | a component that claimed an empty slot is in exactly that slot afterwards and no other slot changes; if the slot is full nothing but its mark changes and the component waits; one that claimed nothing has its slot already |
| ComponentPlacement.RemovePlaces | YEAR_2/Components on Devices/cp2023/solution/DeviceMonitor.java:230-265 | the slot of the component is emptied, at most the woken component enters a slot, its own, and an announced slot that nobody claimed becomes free |
| ComponentPlacement.AddInCyclePlaces | YEAR_2/Components on Devices/cp2023/solution/DeviceMonitor.java:268-288 | the component takes exactly the slot of the one it replaces |
| PlacementRuns.StepPlaced | YEAR_2/Components on Devices/cp2023/solution/DeviceMonitor.java:74-297 | every step keeps all components where their transfers say: in a slot of the source before the removal, in or with a claim on one slot of the destination after the reservation, every empty slot free or claimed by exactly one |
| PlacementRuns.PlacedIff | YEAR_2/Components on Devices/cp2023/solution/StorageSystemImplementation.java:55-175 | along every run that holds if and only if no component was twice on a device at first and every transfer began with its component in one slot, on its source, or in none |
| PlacementRuns.FinishedThere | YEAR_2/Components on Devices/cp2023/solution/StorageSystemImplementation.java:92-175 | then a transfer that is done has left its component in a slot of its destination and nowhere else |
| SlotHandover.RunMarked | YEAR_2/Components on Devices/cp2023/solution/DeviceMonitor.java:179-207 | then a slot is marked as waited for exactly when some transfer waits for it |
| SlotHandover.RemoveReady | YEAR_2/Components on Devices/cp2023/solution/DeviceMonitor.java:230-265 | and a leaving component that is in its slot can always be removed |
| SlotHandover.MayOverwriteIff | YEAR_2/Components on Devices/cp2023/solution/DeviceMonitor.java:230-249 | a removal may let a component enter a slot that another one still holds if and only if a transfer waits for the emptied slot and another one for a slot that is full |
| SlotHandover.LeaversIff | YEAR_2/Components on Devices/cp2023/solution/DeviceMonitor.java:58-62 | along every run the components that are about to leave are in their slots if and only if no removal did so |
| SlotHandover.StuckForGood | YEAR_2/Components on Devices/cp2023/solution/DeviceMonitor.java:230-235 | a component that was overwritten like this is never removed and its transfer never ends |
| SlotHandover.WrongOneWoken | YEAR_2/Components on Devices/cp2023/solution/DeviceMonitor.java:58-62 | a run of one device with two slots, two removals and two additions in which this happens |
| TransferOrder.FirstServed | YEAR_2/Components on Devices/cp2023/solution/DeviceMonitor.java:209-228 | along every run no transfer is served before one that has waited longer for the same device, unless it is released in a cycle |
| TransferOrder.JoinsLast | YEAR_2/Components on Devices/cp2023/solution/DeviceMonitor.java:87-106 | a transfer begins to wait behind all that wait for the device already |
| TransferOrder.LeastTaken | YEAR_2/Components on Devices/cp2023/solution/DeviceMonitor.java:80-86 | along every run a reservation that finds a free slot takes the least one |
| StorageSystem.StorageSystem.Begin | YEAR_2/Components on Devices/cp2023/solution/StorageSystemImplementation.java:63-90 | a transfer starts with the section its kind calls for |
| StorageSystem.StorageSystem.ReserveOnDevice | YEAR_2/Components on Devices/cp2023/solution/DeviceMonitor.java:74-173 | takes a free slot, or releases the cycle it completes, or claims an announced slot, or waits: exactly the step of the machine |
| StorageSystem.StorageSystem.ClaimAnnounced | YEAR_2/Components on Devices/cp2023/solution/DeviceMonitor.java:122-136 | the first announced slot goes to the transfer, which leaves the queue |
| StorageSystem.StorageSystem.MarkCycle | YEAR_2/Components on Devices/cp2023/solution/DeviceMonitor.java:137-166 | every transfer of the cycle is marked with its successor and taken from its queue |
| StorageSystem.StorageSystem.HandOver | YEAR_2/Components on Devices/cp2023/solution/DeviceMonitor.java:108-117 | the mutex passes along the whole cycle and is free at the end |
| StorageSystem.StorageSystem.SignalFutureSlotAvailability | YEAR_2/Components on Devices/cp2023/solution/DeviceMonitor.java:209-228 | an announced slot goes to the transfer waiting longest, or is kept for later |
| StorageSystem.StorageSystem.RemoveFromDevice | YEAR_2/Components on Devices/cp2023/solution/DeviceMonitor.java:230-265 | takes exactly the step of the machine: the slot is emptied and handed on, or becomes free (`ComponentPlacement.RemovePlaces`) |
| StorageSystem.StorageSystem.AddToDevice | YEAR_2/Components on Devices/cp2023/solution/DeviceMonitor.java:179-207 | takes exactly the step of the machine; what that does to the slots is `ComponentPlacement.AddPlaces` |
| StorageSystem.StorageSystem.AddToDeviceInCycle | YEAR_2/Components on Devices/cp2023/solution/DeviceMonitor.java:268-288 | the component replaces its predecessor of the cycle in the same slot |
| StorageSystem.StorageSystem.Finish | YEAR_2/Components on Devices/cp2023/solution/StorageSystemImplementation.java:92-175 | the transfer is over and its component free for another one |
| StorageSystem.FindComponentIndex | YEAR_2/Components on Devices/cp2023/solution/DeviceMonitor.java:290-298 | the first slot with the component, or -1 |
| CollectiveTree.ChildFormulas | YEAR_2/MIMPI/mimpi.c:948-962 | the re-rooted child formulas are those of a binary heap over all ranks |
| CollectiveTree.ParentFormulas | YEAR_2/MIMPI/mimpi.c:948-962 | so is the parent formula, with the side of the child |
| CollectiveTree.FamilyAgrees | YEAR_2/MIMPI/mimpi.c:948-962 | parent and children are inverse to each other, on the same side, for every rank, root and size |
| CollectiveTree.BarrierFormulas | YEAR_2/MIMPI/mimpi.c:626-757 | the barrier's own formulas are those of the tree with root 0 |
| CollectiveTree.SubtreeSplit | YEAR_2/MIMPI/mimpi.c:948-962 | a subtree is its top and, disjointly, the subtrees of its children; the root has everybody below it |
| Collectives.CombineInto | YEAR_2/MIMPI/mimpi.c:981-992 | the combining loop puts the operator of both values at every index; what folding that operator gives is `Collectives.FoldAll` |
| Collectives.CombineLaws | YEAR_2/MIMPI/mimpi.c:981-992 | the operators are commutative and associative with a unit on bytes; what they compute over many values is `Collectives.FoldAll` |
| Collectives.FoldUnion | YEAR_2/MIMPI/mimpi.c:1022-1043 | combining the folds of disjoint sets of ranks gives the fold of their union |
| Collectives.FoldAll | YEAR_2/MIMPI/mimpi.c:981-992 | the fold over all ranks is the sum or the product of their bytes modulo 256, or one of the bytes that none exceeds, or that exceeds none |
| CollectiveRoots.RootsSafeMeans | YEAR_2/MIMPI/mimpi.c:769-780 | two trees have, on every channel that both use, a rank below both children, exactly when the roots are equal, at least half the ranks apart, or in the one borderline case that is spelled out |
| CollectiveRoots.NextRootUnsafe | YEAR_2/MIMPI/mimpi.c:769-780 | from four ranks on, a root and the next rank as root do not go together |
| CollectiveSteps.StepKeeps | YEAR_2/MIMPI/mimpi.c:760-1160 | every step of a rank that reads a message of its own call keeps sums, data, channels and the order of the ranks, for any sequence of barriers, broadcasts and reduces with any roots |
| CollectiveSteps.Synchronised | YEAR_2/MIMPI/mimpi.c:626-757 | no rank has the verdict of a call before all ranks have sent their sums in it |
| CollectiveSafety.VerdictIsOwn | YEAR_2/MIMPI/mimpi.c:826-841 | if the roots of neighbouring calls go together, a verdict found on a channel is that of the own call |
| CollectiveSafety.RunInv | YEAR_2/MIMPI/mimpi.c:760-1160 | then every interleaving keeps the invariant |
| CollectiveSafety.BarrierSafety | YEAR_2/MIMPI/mimpi.c:626-757 | then no rank returns from its k-th call before every rank has entered its k-th call |
| CollectiveSafety.EveryCallSucceeds | YEAR_2/MIMPI/mimpi.c:1022-1134 | then every completed call succeeds: a broadcast gives every rank the data of its root, and the root of a reduce holds, byte by byte, the sum, product, greatest or smallest of the data of all ranks |
| CollectiveSafety.BarriersFollow | YEAR_2/MIMPI/mimpi.c:626-757 | barriers alone always go together |
| CollectiveSafety.SameRootFollows | YEAR_2/MIMPI/mimpi.c:760-1160 | so do calls with one and the same root |
| CollectiveSafety.BarrierBetweenFollows | YEAR_2/MIMPI/mimpi.c:626-757 | so do calls with any roots when a barrier, which has channels of its own, stands between any two of them |
| CollectiveProgress.NeverStuck | YEAR_2/MIMPI/mimpi.c:626-757 | while everybody has entered a call and somebody has not left it, some rank can take a step |
| CollectiveProgress.Reach | YEAR_2/MIMPI/mimpi.c:626-757 | ranks can get to any positions, as long as nobody stops where another one needs a message |
| CollectiveProgress.Overtaken | YEAR_2/MIMPI/mimpi.c:826-841 | when two neighbouring calls do not go together, in some run a rank returns from the second one, with success and the data of the first, before another rank has entered it |
| CollectiveProgress.SynchronisesIff | YEAR_2/MIMPI/mimpi.c:760-1160 | every call is a synchronisation point in every interleaving if and only if neighbouring roots go together |
| CollectiveProgress.SucceedsIff | YEAR_2/MIMPI/mimpi.c:760-1160 | every call in every interleaving returns what it promises if, and for calls that send different data only if, neighbouring roots go together |
| CollectiveFinish.PairKept | YEAR_2/MIMPI/mimpi.c:760-1160 | with two neighbouring calls on the same channels, whatever their roots, sums stay in step and a channel holds at most one verdict, of the first call, until the parent has that of the second |
| CollectiveFinish.RobbedForEver | YEAR_2/MIMPI/mimpi.c:826-841 | once a rank was robbed of its verdict, in every continuation within the two calls some rank waits for a verdict that never comes |
| CollectiveFinish.FinishesIff | YEAR_2/MIMPI/mimpi.c:760-1160 | whatever has happened, all ranks can still return from all their calls, in every interleaving and for every kind of call, if and only if neighbouring roots go together |
| CollectiveProgress.NextBroadcastGoesWrong | YEAR_2/MIMPI/mimpi.c:826-841 | four ranks, a broadcast from rank 0 and one from rank 1: in some run a rank gets the data of the first from the second |
| UdprTransfer.Chunks | YEAR_2/Byte String Transmission Protocol/clients.c:61-119 | the client's queue consists of chunks that are not empty and fit a packet |
| UdprTransfer.ReadFromStdin | YEAR_2/Byte String Transmission Protocol/clients.c:61-119 | however reads are split, the queue is the chunks of the input and the size its length |
| UdprTransfer.ServeClient | YEAR_2/Byte String Transmission Protocol/ppcbs.c:157-311 | the nested loops compute the server of the state machine on any sequence of packets and timeouts |
| UdprTransfer.ReceiveNext | YEAR_2/Byte String Transmission Protocol/ppcbs.c:176-294 | one turn of the outer loop accepts exactly the next chunk or ends the session |
| UdprTransfer.UdprClient | YEAR_2/Byte String Transmission Protocol/ppcbc.c:193-335 | the loops compute the client of the state machine |
| UdprTransfer.Connect | YEAR_2/Byte String Transmission Protocol/ppcbc.c:202-234 | connects, gives up or fails as the machine does |
| UdprTransfer.SendChunk | YEAR_2/Byte String Transmission Protocol/ppcbc.c:240-290 | sends and resends a chunk until the acknowledgement with its number comes or the client fails |
| UdprTransfer.StepKeeps | YEAR_2/Byte String Transmission Protocol/ppcbs.c:174-297 | every step of client, server or network keeps the invariant |
| UdprTransfer.RunInv | YEAR_2/Byte String Transmission Protocol/ppcbs.c:174-297 | over a network that loses, repeats and reorders, the invariant holds in every run |
| UdprTransfer.ServerAcceptsPrefix | YEAR_2/Byte String Transmission Protocol/ppcbs.c:244-296 | accepted payloads are the first `expected` chunks; client number <= expected <= client number + 1; the session's own data is never rejected |
| UdprTransfer.AcceptedBytes | YEAR_2/Byte String Transmission Protocol/ppcbs.c:282-306 | what the server accepted is a beginning of the message, and all of it once it is done |
| UdprTransfer.NoAcknowledgementAhead | YEAR_2/Byte String Transmission Protocol/clients.c:406-430 | no acknowledgement is ever ahead of the packet the client is sending |
| UdprTransfer.ClientDoneServerDone | YEAR_2/Byte String Transmission Protocol/ppcbc.c:292-335 | a client past its sending loop implies that the server accepted everything |
| UdprTransfer.WhyClientFails | YEAR_2/Byte String Transmission Protocol/ppcbc.c:230-328 | a client fails only by running out of retries, by a timeout at the end, or because a late packet of the finished session is of a type it does not expect |
| UdprTransfer.EmptyMessageFails | YEAR_2/Byte String Transmission Protocol/ppcbs.c:302-306 | a run with an empty message in which the client is sent the acknowledgement 2^64 - 1 |
| UdprTransfer.AcksWithinMessageIff | YEAR_2/Byte String Transmission Protocol/ppcbs.c:302-306 | every acknowledgement of every run is for a packet of the message if and only if the message is not empty |
| UdprProgress.CanSucceedIff | YEAR_2/Byte String Transmission Protocol/ppcbs.c:174-311 | in every run, whatever the network has lost, doubled or reordered: the transfer can still end with the confirmation received and all chunks accepted if and only if neither side has given up or has used up its tries |
| UdprProgress.RecoversIff | YEAR_2/Byte String Transmission Protocol/ppcbc.c:240-290 | so it can with every datagram sent so far lost, if and only if whoever has to bring it forward has a try left and the server is not done before the client |
| UdprProgress.TransferPossibleIff | YEAR_2/Byte String Transmission Protocol/ppcbs.c:157-311 | a transfer can succeed at all if and only if the message is not empty |
| UdprProgress.PerfectNetwork | YEAR_2/Byte String Transmission Protocol/ppcbc.c:193-335 | with every datagram delivered once, in order and in time it does, and nothing is sent twice |
| Macchiato.SlotsAreNearest | YEAR_1/Macchiato Lungo/Debugger/BlockContext.java:28-57 | the values in the table of a frame are those of the nearest enclosing frames that declare the names; which variable object a slot holds is the subject of `Owner` |
| Macchiato.OpCommutes | YEAR_1/Macchiato Lungo/Debugger/BlockContext.java:28-70 | a change of the flat copied frames is the same change of the chain of scopes they stand for |
| Macchiato.Owner | YEAR_1/Macchiato Lungo/Debugger/BlockContext.java:28-57 | the frame that declares what a slot holds is found below, and all frames between share the variable |
| MacchiatoMachine.StepRefines | YEAR_1/Macchiato Lungo/Debugger/Debugger.java:50-60 | a step of the machine, failed or not, is the step of the chain of scopes |
| MacchiatoMachine.RunRefines | YEAR_1/Macchiato Lungo/Debugger/Debugger.java:90-103 | so is every run |
| MacchiatoMachine.ExecutePushes | YEAR_1/Macchiato Lungo/Instructions/Block.java:25-31 | an instruction that succeeds pushes as many block ends as it enters frames, each below what belongs to the block |
| MacchiatoMachine.StepKeeps | YEAR_1/Macchiato Lungo/Debugger/Debugger.java:50-60 | a step that succeeds keeps frames and open blocks in balance |
| MacchiatoMachine.RunInv | YEAR_1/Macchiato Lungo/Debugger/Debugger.java:90-103 | in every exception-free run the context depth is the number of EndBlock instructions on the stack |
| MacchiatoMachine.RunGoesOn | YEAR_1/Macchiato Lungo/Debugger/Debugger.java:90-103 | a run can go on until the stack is empty, and then no frame is left |
| MacchiatoMachine.BlockRestores | YEAR_1/Macchiato Lungo/Instructions/EndBlockInstruction.java:15-21 | when a block, loop or call is finished the earlier frames are as before, and of the earlier variables only values have changed |
| MacchiatoValues.EvaluateMeans | YEAR_1/Macchiato Lungo/Expressions/Divide.java:14-23 | evaluation finds exactly the number that an expression denotes over the chain of scopes, with the nearest variable of a name, sums, differences and products modulo 2^32, quotients rounded down, remainders with the sign of the dividend, and fails exactly when there is none |
| MacchiatoValues.ComparesIs | YEAR_1/Macchiato Lungo/Instructions/IfElseStatement.java:30-64 | a condition holds when the difference of the two numbers says so |
| MacchiatoMeaning.MeaningRuns | YEAR_1/Macchiato Lungo/Debugger/Debugger.java:50-60 | with any instruction on top of the stack the machine comes down to the rest of the stack with the scopes and the output that the instruction means by rules of its own, over scopes and without a stack, or fails with that output, or goes on as long as the rules do |
| MacchiatoMeaning.ProgramMeans | YEAR_1/Macchiato Lungo/Debugger/Debugger.java:90-103 | a program runs to its end with some output if and only if it means that output, and into an exception after some output if and only if it means that |
| MacchiatoMeaning.RunMeans | YEAR_1/Macchiato Lungo/Debugger/Debugger.java:67-103 | what a run of the debugger has printed when its stack is empty is what the program means |
| MacchiatoProcedures.TablesAreNearest | YEAR_1/Macchiato Lungo/Debugger/BlockContext.java:28-41 | in every run the procedure table of a frame holds, under each name, the object that declared it in the nearest open frame, and an object remembers the frame in which it was executed last |
| MacchiatoProcedures.AcceptedIff | YEAR_1/Macchiato Lungo/Instructions/ProcedureDeclaration.java:71-92 | a declaration is refused exactly when its name is already declared in its frame, if and only if the object that declared it there was not executed elsewhere since, and the object in sight from outside is not the one to be declared |
| MacchiatoProcedures.AcceptedWhenNew | YEAR_1/Macchiato Lungo/Instructions/ProcedureDeclaration.java:71-92 | it holds throughout a run in which no declaration is executed while an outer open frame holds it |
| MacchiatoRedeclaration.RecursiveDeclarationRefused | YEAR_1/Macchiato Lungo/Instructions/ProcedureDeclaration.java:80-91 | a run of a program in which a procedure declares another one and calls itself: the inner declaration is refused though its frame has no such name |
| MacchiatoRedeclaration.SecondDeclarationAccepted | YEAR_1/Macchiato Lungo/Instructions/ProcedureDeclaration.java:80-91 | a run of a program with one declaration in two places: the outer frame accepts a name it already has |
| MacchiatoDebugger.Debugger.AddContext | YEAR_1/Macchiato Lungo/Debugger/BlockContext.java:28-41 | a new frame starts with copies of the tables on top |
| MacchiatoDebugger.Debugger.AddInstructions | YEAR_1/Macchiato Lungo/Instructions/Block.java:25-31 | instructions are pushed so that the first is executed first |
| MacchiatoDebugger.Debugger.ExecuteBlock | YEAR_1/Macchiato Lungo/Instructions/Block.java:25-31 | frame and body, as the machine does |
| MacchiatoDebugger.Debugger.ExecuteEndBlock | YEAR_1/Macchiato Lungo/Instructions/EndBlockInstruction.java:15-21 | the frame on top goes |
| MacchiatoDebugger.Debugger.ExecuteVariableDeclaration | YEAR_1/Macchiato Lungo/Instructions/VariableDeclaration.java:20-31 | a new variable in the frame on top, or a failure that changes nothing |
| MacchiatoDebugger.Debugger.ExecuteAssignVariableValue | YEAR_1/Macchiato Lungo/Instructions/AssignVariableValue.java:27-39 | the shared variable gets the value |
| MacchiatoDebugger.Debugger.ExecuteIfElse | YEAR_1/Macchiato Lungo/Instructions/IfElseStatement.java:67-86 | exactly the step of the machine; that it runs the branch the condition chooses is `MacchiatoMeaning.MeaningRuns` |
| MacchiatoDebugger.Debugger.ExecuteForLoop | YEAR_1/Macchiato Lungo/Instructions/ForLoop.java:32-48 | block end, growing list of the loop and first iteration, as the machine does |
| MacchiatoDebugger.Debugger.ExecuteEndForLoop | YEAR_1/Macchiato Lungo/Instructions/EndForLoop.java:31-45 | the list again with the counter assigned, or the end of the loop |
| MacchiatoDebugger.Debugger.ExecuteProcedureDeclaration | YEAR_1/Macchiato Lungo/Instructions/ProcedureDeclaration.java:71-92 | the procedure in the frame on top, or a failure |
| MacchiatoDebugger.Debugger.BindParameters | YEAR_1/Macchiato Lungo/Instructions/ProcedureInvoke.java:45-48 | arguments are evaluated one after another with the earlier parameters in sight |
| MacchiatoDebugger.Debugger.ExecuteProcedureInvoke | YEAR_1/Macchiato Lungo/Instructions/ProcedureInvoke.java:33-54 | frame, parameters and body; a wrong number of arguments fails with the frame pushed |
| MacchiatoDebugger.Debugger.StepOnce | YEAR_1/Macchiato Lungo/Debugger/Debugger.java:50-60 | one step of the machine; a failed instruction is put back |
| MacchiatoDebugger.Debugger.ManySteps | YEAR_1/Macchiato Lungo/Debugger/Debugger.java:67-83 | the steps form a run, up to the first exception or the end |
| SequenceClasses.SameIsRelated | YEAR_1/Sequences Library/seq.c:190-439 | after any history two strings share a record exactly when the history relates them: equivalence generated by the merges, among the survivors |
| SequenceClasses.HistoryOk | YEAR_1/Sequences Library/seq.c:190-439 | the stored strings are closed under prefixes and every class lists its strings once each, after any history |
| SequenceClasses.EquivSame | YEAR_1/Sequences Library/seq.c:379-439 | merging unites exactly the two companies |
| SequenceClasses.GrowthDoubles | YEAR_1/Sequences Library/seq.c:336-366 | an operation other than a removal keeps that a string relabelled n times is in a class of at least 2^n strings |
| SequenceClasses.HistoryDoubles | YEAR_1/Sequences Library/seq.c:336-366 | so it holds all along a history without removals |
| SequenceClasses.MovesLogarithmic | YEAR_1/Sequences Library/seq.c:336-366 | there no stored string has been relabelled more often than the logarithm to the base 2 of the number of stored strings |
| SequenceHeap.CreatedRep | YEAR_1/Sequences Library/seq.c:43-66 | a new node hangs in the trie and is a list of its own |
| SequenceHeap.UnlinkedList | YEAR_1/Sequences Library/seq.c:143-162 | taking out the first, a middle, the last or the only node leaves a list in order, with the record put right |
| SequenceHeap.FreedRep | YEAR_1/Sequences Library/seq.c:171-188 | freeing a leaf removes exactly its string from the trie and from its class |
| SequenceHeap.JoinedRep | YEAR_1/Sequences Library/seq.c:347-366 | linking the relabelled shorter list in front of the longer one merges the two classes |
| SequenceLibrary.Sequences.FindSeq | YEAR_1/Sequences Library/seq.c:125-139 | finds the node of the prefix if it is stored, and -1 otherwise |
| SequenceLibrary.Sequences.SeqValid | YEAR_1/Sequences Library/seq.c:216-232 | 1, 0 or -1 for a stored, a missing or an invalid string |
| SequenceLibrary.Sequences.SeqAdd | YEAR_1/Sequences Library/seq.c:241-276 | all prefixes are stored, new ones alone in their classes; 1 exactly when something was new |
| SequenceLibrary.Sequences.AdjustNodeListOrder | YEAR_1/Sequences Library/seq.c:143-162 | neighbours and ends of the list are rewritten in place |
| SequenceLibrary.Sequences.SeqDelete | YEAR_1/Sequences Library/seq.c:171-188 | exactly the strings that begin with s are deleted, children first |
| SequenceLibrary.Sequences.SeqRemove | YEAR_1/Sequences Library/seq.c:190-214 | the branch is gone and the rest as it was; 1 exactly when the string was stored |
| SequenceLibrary.Sequences.SetClassHierarchy | YEAR_1/Sequences Library/seq.c:336-345 | the beginnings of the larger and the smaller class, by length of their lists |
| SequenceLibrary.Sequences.MergeClasses | YEAR_1/Sequences Library/seq.c:347-366 | the walk relabels every node of the smaller class and links the lists |
| SequenceLibrary.Sequences.SeqEquiv | YEAR_1/Sequences Library/seq.c:379-439 | 1 exactly when two different classes became one |
| SameGameBoard.FloodNext | YEAR_1/SameGame/samegame.c:115-132 | a neighbour that still has the kind takes away its own component of what is left |
| SameGameBoard.GroupOfTwo | YEAR_1/SameGame/samegame.c:93-104 | a cell is in a group of at least two exactly when a neighbour has its kind |
| SameGameBoard.FallMeans | YEAR_1/SameGame/samegame.c:142-157 | a fallen column is the only settled one of its length with the same blocks in the same order |
| SameGameBoard.CloseUpMeans | YEAR_1/SameGame/samegame.c:166-182 | the closed-up board is the only one of its size without gaps with the same occupied columns in the same order |
| SameGameBoard.RangeSuffices | YEAR_1/SameGame/samegame.c:142-157 | on a settled board it is enough to let the columns and rows within the bounds fall |
| SameGameBoard.LeftSuffices | YEAR_1/SameGame/samegame.c:166-182 | and to close up from the leftmost column of the group |
| SameGameBoard.MoveKeeps | YEAR_1/SameGame/samegame.c:190-210 | a move leaves a settled board without gaps and takes exactly the blocks of the group, at least two, or nothing |
| SameGameBoard.BagCleared | YEAR_1/SameGame/samegame.c:115-132 | clearing takes that many blocks of the one kind and none of another |
| SameGameBoard.MovesRunOut | YEAR_1/SameGame/samegame.c:190-210 | in any sequence of moves the effective ones are at most half the blocks |
| SameGame.CzyGrupa | YEAR_1/SameGame/samegame.c:93-104 | decides whether the cell belongs to a component of at least two cells |
| SameGame.UsunGrupe | YEAR_1/SameGame/samegame.c:115-132 | the recursion ends, clears exactly the connected component, and the bounds cover it and are reached |
| SameGame.OpadnijKolumna | YEAR_1/SameGame/samegame.c:144-156 | one column falls in place |
| SameGame.PrzesunWDol | YEAR_1/SameGame/samegame.c:142-157 | the columns within the bounds fall |
| SameGame.PrzeniesKolumne | YEAR_1/SameGame/samegame.c:174-179 | a column moves into an empty one |
| SameGame.PrzesunWLewo | YEAR_1/SameGame/samegame.c:166-182 | the columns from the bound on are closed up in order |
| SameGame.Gra | YEAR_1/SameGame/samegame.c:190-210 | the whole move in place is: clear the component, let everything fall, close up; or nothing |
| BlackLadyRules.MaxIndex | YEAR_2/Black Lady (computer networks game)/server_library.cc:157-168 | the card that no card of the led suit beats |
| BlackLadyRules.DeckOnce | YEAR_2/Black Lady (computer networks game)/server_library.cc:111-136 | the deck holds every card exactly once |
| BlackLadyRules.DealWorth | YEAR_2/Black Lady (computer networks game)/server_library.cc:170-223 | thirteen tricks that hold the whole deck are worth 13, 13, 20, 16, 18, 20 or 100 points |
| BlackLady.NextKeeps | YEAR_2/Black Lady (computer networks game)/kierki-serwer.cc:545-589 | whatever a client sends, accepted or not, the invariant of the deal is kept |
| BlackLady.RunInv | YEAR_2/Black Lady (computer networks game)/kierki-serwer.cc:388-431 | in every state of a full deal hands, table and taken tricks partition the deck |
| BlackLady.SomeMoveLegal | YEAR_2/Black Lady (computer networks game)/kierki-serwer.cc:414-431 | the player to move has a card that is accepted exactly while the deal lasts |
| BlackLady.TrickToHighest | YEAR_2/Black Lady (computer networks game)/server_library.cc:157-168 | a taken trick went to the highest card of the led suit, and strictly the highest |
| BlackLady.NobodyRevokes | YEAR_2/Black Lady (computer networks game)/kierki-serwer.cc:414-431 | a player who did not follow suit never holds or plays that suit again |
| BlackLady.DealPoints | YEAR_2/Black Lady (computer networks game)/server_library.cc:157-228 | a finished deal has handed out the deck and its points over all players are the rule's constant |
| BlackLady.MovesCounted | YEAR_2/Black Lady (computer networks game)/kierki-serwer.cc:830-841 | a deal is over after exactly 52 accepted moves |
| BlackLadyRules.TrickWorth | YEAR_2/Black Lady (computer networks game)/server_library.cc:157-228 | the points of a trick, counted: 1 for the trick, 1 for every heart, 5 for every queen, 2 for every jack and king, 18 for the king of hearts, 10 for the seventh and the last trick, and all of them under rule 7 |
| BlackLady.OwnHandOnly | YEAR_2/Black Lady (computer networks game)/kierki-serwer.cc:566-581 | a card leaves a hand only when its own player, asked for a card, sends it for the current round |
| BlackLady.MovesAnswerPokes | YEAR_2/Black Lady (computer networks game)/kierki-serwer.cc:566-676 | every accepted move answers a request of its own |
| BlackLadyServer.Server.MakeDeal | YEAR_2/Black Lady (computer networks game)/server_library.cc:111-136 | a full deal is set up and earlier totals stay |
| BlackLadyServer.Server.ClientHasCard | YEAR_2/Black Lady (computer networks game)/kierki-serwer.cc:376-384 | decides whether the card is in the hand |
| BlackLadyServer.Server.IsMoveLegal | YEAR_2/Black Lady (computer networks game)/kierki-serwer.cc:414-431 | decides the rule of following suit |
| BlackLadyServer.Server.CalculateScore | YEAR_2/Black Lady (computer networks game)/server_library.cc:157-228 | the taker is found and gets all points of the trick, in both scores |
| BlackLadyServer.Server.GiveTrick | YEAR_2/Black Lady (computer networks game)/kierki-serwer.cc:397-410 | the full table goes to its taker, who is read back from the message, with all its points |
| BlackLadyServer.Server.MakeMove | YEAR_2/Black Lady (computer networks game)/kierki-serwer.cc:388-411 | exactly the move of the rules, with the trick closed when it is full |
| BlackLadyServer.Server.ReceiveTrick | YEAR_2/Black Lady (computer networks game)/kierki-serwer.cc:566-581 | a move is made only if round, hand and suit allow it; otherwise the answer is WRONG with the round |
| BlackLadyServer.Server.PrepareScoreOrTotal | YEAR_2/Black Lady (computer networks game)/kierki-serwer.cc:435-458 | the points are reported, and those of the deal set back |
| KeyedStack.PopUnderValues | YEAR_2/Stack container/stack.h:439-463 | popping under a key takes the head of that key's values and leaves every other key's alone |
| KeyedStack.PopUnderPlace | YEAR_2/Stack container/stack.h:439-463 | the first pair with the key goes and the rest keeps its order |
| KeyedStack.SetUnderValues | YEAR_2/Stack container/stack.h:501-507 | writing through `front` changes the head of one key only |
| KeyedStack.UnderErased | YEAR_2/Stack container/stack.h:448-463 | erasing the first node of a key changes the positions of that key only |
| KeyedStack.PairsErased | YEAR_2/Stack container/stack.h:448-463 | and pops the pair under that key from the list |
| KeyedStack.Data.Copy | YEAR_2/Stack container/stack.h:368-386 | an equal list of pairs, with all three indexes rebuilt out of fresh nodes |
| KeyedStack.Data.Push | YEAR_2/Stack container/stack.h:392-407 | the pair is prepended and the indexes agree |
| KeyedStack.Data.Pop | YEAR_2/Stack container/stack.h:413-433 | the most recent pair goes, or the stack was empty |
| KeyedStack.Data.PopKey | YEAR_2/Stack container/stack.h:439-463 | the most recent pair under the key goes, or one of two errors |
| KeyedStack.Data.Front | YEAR_2/Stack container/stack.h:469-495 | the most recent pair |
| KeyedStack.Data.FrontKey | YEAR_2/Stack container/stack.h:501-519 | the node of the most recent value under the key |
| KeyedStack.Data.SetFrontKey | YEAR_2/Stack container/stack.h:501-507 | an assignment through the reference changes exactly that pair |
| KeyedStack.Data.Size | YEAR_2/Stack container/stack.h:525-527 | the number of pairs |
| KeyedStack.Data.Count | YEAR_2/Stack container/stack.h:533-539 | the number of pairs under the key |
| KeyedStack.Data.Clear | YEAR_2/Stack container/stack.h:545-549 | nothing is left |
| Scopy.FromMeans | YEAR_1/Special file copying (scopy)/scopy.asm:82-126 | the byte-by-byte encoding is that of whole maximal runs |
| Scopy.FromStart | YEAR_1/Special file copying (scopy)/scopy.asm:82-126 | from the start it is the encoding of the whole file |
| Scopy.NumberLoaded | YEAR_1/Special file copying (scopy)/scopy.asm:86-93 | a run length is written so that the processor loads it back, low byte first |
| Scopy.Process.BufferLoop | YEAR_1/Special file copying (scopy)/scopy.asm:75-115 | one buffer of input is encoded after what is pending, at an offset of at most 3/2 of the input plus 1.5, within the 6160 bytes |
| Scopy.Process.WriteToFile | YEAR_1/Special file copying (scopy)/scopy.asm:126-144 | all bytes are written however writes are split; after a failure a beginning of them is |
| Scopy.Process.LoopThroughFile | YEAR_1/Special file copying (scopy)/scopy.asm:58-151 | the output is the encoding of the whole input however reads and writes are split, or, after a failure, a beginning of it |
| MastermindJudge.Check | YEAR_3/Mastermind/judge.py:14-65 | positional matches, and the sum of the minimum colour counts minus the matches |
| MastermindJudge.AnswerMeans | YEAR_3/Mastermind/judge.py:14-65 | the first number is how many positions agree, and both together are how many colours the codes have in common as multisets |
| MastermindJudge.FullByColour | YEAR_3/Mastermind/judge.py:40-51 | counting matches colour by colour gives the positional matches |
| MastermindJudge.AnswerSymmetric | YEAR_3/Mastermind/judge.py:14-65 | the answer is the same with the codes exchanged |
| MastermindJudge.AnswerBounds | YEAR_3/Mastermind/judge.py:14-65 | the two numbers add up to at most n, and the first is n for the hidden code only |
| Mastermind.AllCodesCount | YEAR_3/Mastermind/game.py:66-67 | there are k^n codes |
| Mastermind.GuessNarrows | YEAR_3/Mastermind/automatic_player.py:112-131 | a possible guess that loses is ruled out, and nothing new becomes possible |
| Mastermind.NoGuessTwice | YEAR_3/Mastermind/automatic_player.py:112-131 | a possible guess was not made before |
| Mastermind.RoundPlayed | YEAR_3/Mastermind/game.py:40-59 | every round either wins or leaves fewer possible codes |
| Mastermind.AutomaticPlayer.AssessFitness | YEAR_3/Mastermind/automatic_player.py:112-131 | valid exactly when the chromosome would have given all answers; the fitness never divides by zero |
| Mastermind.AutomaticPlayer.Backtrack | YEAR_3/Mastermind/automatic_player.py:143-153 | the first possible code below the prefix in lexicographic order, or none exists |
| Mastermind.AutomaticPlayer.BruteForceGuess | YEAR_3/Mastermind/automatic_player.py:142-155 | always finds a possible guess, the first one |
| Mastermind.AutomaticPlayer.GenerateGuess | YEAR_3/Mastermind/automatic_player.py:222-295 | a possible guess, whatever candidates the search came up with |
| Mastermind.AutomaticPlayer.GetNextQuery | YEAR_3/Mastermind/automatic_player.py:305-312 | the fixed first guess or a possible one |
| Mastermind.Play | YEAR_3/Mastermind/game.py:35-64 | an automatic game ends within k^n rounds, no guess is made twice, and only the last one is the hidden code |

## Left out

General:

- Out-of-memory paths, debug output, terminal and file handling, sockets and threads as such.
- In the classes that stand for several objects (device monitors, frames and variables, trie nodes
  and records) the objects' fields are kept in maps from addresses or names, so that sharing is
  explicit; that two fields might be the same location by accident is not modelled.

Combinators:

- The limit of 30 elements is one value of the general limit in the theorems about paths; printing a path.

Poset library:

- Strings are compared by value; the set of distinct C string pointers is not modelled.

Transfers:

- Validation of requests, the map of placements and the latch all transfers of a cycle wait for.
- The order of the threads that wait on the shared semaphore of a device: a thread gives the mutex back before it starts to wait, so the model lets `removeFromDevice` wake any of them.
- A section that would throw while it holds the mutex is no step; that the mutex is then never given back is not modelled.
- ComponentTransfers.NeverStuck: says nothing about waiting threads, whose progress depends on requests still to come.

MIMPI:

- Finalizing or dying ranks, payloads above one packet, and the failure path of broadcast.
- A receive takes a whole packet off its channel. When a rank takes a packet of another call and the two calls are of different kinds, the bytes that the code then sees are not modelled.
- CollectiveProgress.SucceedsIff: for neighbouring calls that send the same data down, as reduces do, it is not decided which roots that do not go together let the calls that do return give right results; that some rank then need not return at all is `CollectiveFinish.FinishesIff`.
- Point-to-point sending and receiving.

UDPR:

- Plain UDP mode, sessions after `serve_client` has returned, I/O errors, packets from other addresses at the client, and foreign packets that carry the session's number.
- A datagram of a type that neither program sends: the server then compares the session number without swapping its bytes; the model stops, and no reachable state takes that branch.
- The output buffer of `print_message`; the proofs are about accepted payloads.

Macchiato:

- Console commands and dumps; `continueRun`, which repeats steps until the stack is empty and need not end.
- How often a loop runs: a loop executed again has one more `EndForLoop` in its list, as in the code, and in `MacchiatoMeaning`.
- The chain of scopes keeps procedures in copied tables; that these are the nearest declarations is shown along runs, in `MacchiatoProcedures`.
- Instructions executed without any frame, other than the program's block, which no run reaches.

Sequences:

- Names of classes, NULL strings, and deleting the whole library.

SameGame:

- Reading and showing the board; boards that are not settled to begin with.

Black Lady:

- Rule 6 follows the code, which like `server_library.h` gives 10 points for the 7th and the 13th trick; the project's README mentions the 7th only.
- Reconnecting clients, pauses, timeouts as times, and the text of messages other than TAKEN.

Keyed stack:

- Copy-on-write and the exception guard of the outer class, and iteration over the keys in order.

scopy:

- Opening and closing files and the command line; files that grow while they are copied, for which it would matter that the counter is not cleared when the last run is flushed.

Mastermind:

- The genetic search: any list of candidates stands for what it finds. Values of the fitness, and the manual player.

Other projects:

- Game of Life, Palindromes, the module system, stable storage, the thread pool, the websites and the smaller exercises.
