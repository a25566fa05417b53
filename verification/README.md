# AntNet, its packet pool and its interface queue, verified in Dafny

The repository adds the AntNet routing protocol to the ns-2 network simulator. Every node keeps a routing table with
one row of pheromones per destination. Forward ants walk the network, choosing each hop by a roulette wheel over a row,
and remember their path with loops erased. At the destination an ant turns round and goes back along its memory,
reinforcing at each node the neighbour it had used. This project models that protocol, the traffic statistics that the
code defines beside it, the packet pool that all packets come from, and the two-priority interface queue that sends them.

## Files

| file | contents |
|---|---|
| `AntTypes.dfy`, `RealArith.dfy` | entities shared by the protocol modules; facts of real multiplication |
| `Pheromones.dfy` | arithmetic of one row update, and of histories of updates |
| `Roulette.dfy` | the roulette wheel of `calc_next` |
| `RoutingTable.dfy` | class `antnet_rtable`, in place, proved against the functions of the two files above |
| `LoopErasure.dfy` | loop erasure by last exits, and `memorize` as a refinement of it |
| `AntHandlers.dfy`, `Antnet.dfy` | the handlers as functions; the agent and its packets, in place, proved against them |
| `Network.dfy` | the network as a step system and its inductive invariant |
| `NetworkTheorems.dfy`, `HopLaws.dfy` | what follows for every state of every run; the law of each hop |
| `Errands.dfy` | an ant's origin, start time and destination, from its creation to its end |
| `BackwardTrip.dfy`, `InterleavedRuns.dfy` | the effect of one way home; progress of an ant, what it brings, and history of a row while others go on |
| `Traffic.dfy`, `TrafficTheorems.dfy` | `update_traffic`, the range of its factor, and its statistics as those of all samples |
| `PacketPool.dfy` | the intrusive free list with reference counts, on the heap |
| `InterfaceQueue.dfy`, `QueueTheorems.dfy` | `PriQueue` over `DropTail`; admission, precedence and delivery of each packet |

## How the protocol is modelled

- An outcome `Fault` stands for what C++ leaves undefined: an index outside `pkt_memory_` or before it, a search that
  runs past the used part of the memory, and `calc_next` leaving without a return value. The theorems show that no
  reachable state produces it, and that an arriving packet is always either sent on or freed.
- Random draws are arguments. A draw for `calc_next` is any real in [0,1); the rejection loop takes as many as it needs,
  and the outcome `Drawing` says that a given supply was not enough. Nothing is assumed about fairness.
- A run is any interleaving of three kinds of events: a node generates an ant, an ant in flight is received, an ant in
  flight is lost. The clock never goes back, and an ant arrives strictly later than it was sent.
- `Flight.walk` and `Flight.trail` are histories added by the model: every arrival of a forward ant, and every node that
  received the backward ant. No handler reads them.
- `double` is `real`. The topology is fixed, with 2 to 16 nodes, symmetric and duplicate-free neighbour lists without
  self-links, none of them empty, and 0 < r < 1. `antnet.tcl` sets up such a network: 12 nodes, duplex links, every
  neighbour pair added once, r = 0.05. `antaodv.tcl` does not: it asks for 70 nodes and adds no neighbours, and nothing is
  claimed for it. The array bound of 16 is `MAX_NUM_NODES`. Every node's `start` command has run once before the first ant.

## Where the code surprises

- `update_traffic` is defined but never called. If its factor were used, the first report of a destination, and every
  later best sample, would give exactly r = 1, which sets the favoured entry to one and all others to zero
  (`Traffic.FirstReportGivesOne`, `Traffic.ReinforcementBound`, `Traffic.BestSampleCollapsesRow`; two ants with equal trip
  times in `Traffic.TwoEqualReports`). Its branch for equal limits, which sets r to 0, can
  never be taken, because the variance stays positive.
- `enque` and `recvHighPriority` keep at most `qlim_`-1 packets, but `shrink_queue` keeps `qlim_`. A run that counts
  packets therefore keeps to `qlim_`-1 exactly if no limit is ever set that the packets then queued have reached
  (`InterfaceQueue.CapacityIff`), and shrinking meets that bound exactly when the queue was within it already
  (`InterfaceQueue.ShrinkMeetsCapacityIff`, `InterfaceQueue.ShrinkLeavesOneMore`). Against the largest limit ever set it
  does hold (`InterfaceQueue.CapacityUnderChangingLimits`).
- A limit in bytes is enforced only by dropping the arriving packet: all runs keep to it exactly for a queue that drops
  from the tail and prefers nothing. `recvHighPriority` counts packets even then, and a front drop may exchange a small
  packet for a large one (`InterfaceQueue.ByteLimitIff`).
- `update_traffic` squares the old variance at every step. Samples that never deviate from the mean then still make it
  grow, exactly when it is above 1/(1-0.005), and it starts as the first trip time
  (`Traffic.VarianceGrowsWithoutDeviation`; from 2.0 upwards in `Traffic.TwoEqualReports`).
- A revisit in `memorize` makes all kept trip times later by the same amount. The first entry's time is therefore the
  total time spent in erased loops: zero exactly when the ant has met no node twice (`LoopErasure.FirstTripTimeZeroIff`),
  and three units after a walk 0, 1, 2, 0 of unit hops (`LoopErasure.FirstTripTimeCanBePositive`). The differences are
  the delays of the retained hops in every case.

## Model

| member | source | states |
|---|---|---|
| Pheromones.NormalisationErrorContracts | AntNet/antnet_rtable.cc:144-151 | with the reinforced neighbour named once, the total's distance from one shrinks by exactly 1-r |
| Pheromones.StaysDistributionIff | AntNet/antnet_rtable.cc:141-152 | a distribution stays one if and only if the reinforced neighbour is in the row |
| Pheromones.UpdateMovesEveryEntry | AntNet/antnet_rtable.cc:147-150 | the reinforced entry strictly rises unless it is one, every other strictly falls and stays positive |
| Pheromones.HistoryClosedForm | AntNet/antnet_rtable.cc:144-151 | an entry after any history of updates is its decayed start plus the discounted reinforcements |
| Pheromones.EntryFloor | AntNet/antnet_rtable.cc:144-151 | after m updates an entry keeps at least (1-r)^m of its start |
| Pheromones.DeficitDecaysGeometrically | AntNet/antnet_rtable.cc:147-148 | after m reinforcements of one neighbour its distance from one is exactly (1-r)^m of the original |
| Roulette.SlotsPartitionUnit | AntNet/antnet_rtable.cc:116-131 | every draw in [0,1) lies in exactly one slot of the wheel, the one the second pass finds |
| Roulette.SlotLength | AntNet/antnet_rtable.cc:116-131 | a slot lies within [0,1) and is as long as its pheromone |
| Roulette.DeadEndIffOnlyParent | AntNet/antnet_rtable.cc:84-107 | the dead-end test holds exactly when the parent is the only neighbour |
| Roulette.RejectedIffParentSlot | AntNet/antnet_rtable.cc:86-113 | the draws rejected after the first pass are exactly those in the parent's slot of the second |
| Roulette.ChoosesBySlot | AntNet/antnet_rtable.cc:83-131 | a neighbour other than the parent is returned exactly when the first draw outside the parent's slot is in its slot |
| Roulette.ChoosesFirstOutside | AntNet/antnet_rtable.cc:83-131 | the same law with the range of the first pass replaced by the parent's slot |
| Roulette.CalcNextIsSafe | AntNet/antnet_rtable.cc:58-132 | on a distribution calc_next never runs off its end, returns a neighbour, and the parent exactly when it is the only one |
| Roulette.AcceptableDrawExists | AntNet/antnet_rtable.cc:103-113 | outside a dead end the rejection loop has a draw that ends it |
| RoutingTable.GetNumNeighbors | AntNet/antnet_common.cc:4-14 | the count is the length of the linked neighbour list |
| RoutingTable.AntnetRtable.AddEntry | AntNet/antnet_rtable.cc:8-22 | one entry is appended to the row of one destination, nothing else changes |
| RoutingTable.AntnetRtable.Update | AntNet/antnet_rtable.cc:135-153 | the row of one destination becomes the reinforced row, entry by entry in place, nothing else changes |
| RoutingTable.AntnetRtable.CalcDestination | AntNet/antnet_rtable.cc:36-43 | the first draw that differs from the source is returned, a node in range other than the source; there is one exactly if some draw differs |
| RoutingTable.AntnetRtable.CalcNext | AntNet/antnet_rtable.cc:45-133 | the two passes and the rejection loop compute the hop of the roulette wheel on the row of the destination; what that hop is, by draws and slots, is HopLaws.ForwardGoesBySlot and HopLaws.NewAntGoesBySlot |
| LoopErasure.ExitsShape | AntNet/antnet.cc:214-234 | the loop erasure starts and ends with the walk, steps with the walk, and leaves every node for good |
| LoopErasure.ExitsAppend | AntNet/antnet.cc:219-234 | one more visit cuts the erasure before the visited node, if it is there, and ends it with that visit |
| LoopErasure.MemorizeTracks | AntNet/antnet.cc:214-234 | memorize keeps the memory equal to the loop erasure, with the delays of the retained hops and the age of the ant |
| LoopErasure.MemoryIsLoopErasure | AntNet/antnet.cc:139-143 | for every walk the memory built up by memorize is its loop erasure |
| LoopErasure.TrackedMemoryIsSimple | AntNet/antnet.cc:214-234 | such a memory is a simple path of steps of the walk with strictly increasing trip times |
| LoopErasure.FirstTripTimeIsLoopTime | AntNet/antnet.cc:222-226 | the first trip time is the total time from the arrival at each retained node to its last exit |
| LoopErasure.FirstTripTimeZeroIff | AntNet/antnet.cc:217-234 | after any walk the first trip time is that time, not negative, and zero exactly when no node was visited twice |
| LoopErasure.FirstTripTimeCanBePositive | AntNet/antnet.cc:221-228 | a walk 0, 1, 2, 0 of unit hops leaves the creating node alone in memory with trip time 3 |
| AntHandlers.GoesToTheNodeDrawn | AntNet/antnet.cc:138-139 | a new ant is for the first node drawn other than its own |
| AntHandlers.DisposalExactly | AntNet/antnet.cc:101-121 | which packets are dropped, forgotten, or handled as ants, exactly, and that only a backward ant changes the table |
| AntHandlers.UniformRowIsDistribution | AntNet/antnet.cc:457-480 | the initial rows are distributions |
| AntHandlers.UpdatedFromClosedForm | AntNet/antnet.cc:448-453 | the update loop reinforces exactly the rows of the destinations from its start on, each once |
| AntHandlers.SearchesAgree | AntNet/antnet.cc:298-305 | in a simple path the back search finds the entry that the front search of update_table finds |
| Antnet.AntnetAgent.InitializeRtable | AntNet/antnet.cc:457-480 | a uniform row over the neighbours for every other node |
| Antnet.AntnetAgent.SendAntPkt | AntNet/antnet.cc:126-166 | a fresh packet with the memory of its node only, for the first node drawn other than its own, is sent to the chosen hop, or freed |
| Antnet.AntnetAgent.Memorize | AntNet/antnet.cc:214-239 | scanning, truncating and shifting in place computes the function proved to be loop erasure; no other field changes |
| Antnet.AntnetAgent.ForwardAntPkt | AntNet/antnet.cc:242-263 | the ant is sent to the chosen hop or freed, once |
| Antnet.AntnetAgent.CreateBackwardAntPkt | AntNet/antnet.cc:267-289 | source and destination swap and the ant is sent to the last but one entry |
| Antnet.AntnetAgent.BackwardAntPkt | AntNet/antnet.cc:293-317 | the ant is sent to the entry before the last occurrence of this node |
| Antnet.AntnetAgent.UpdateTablePkt | AntNet/antnet.cc:425-454 | the unguarded search and the loop compute the table of the update function |
| Antnet.AntnetAgent.RecvAntPkt | AntNet/antnet.cc:170-210 | table and packet become what the handler function says, and the packet is disposed of exactly so |
| Antnet.AntnetAgent.Recv | AntNet/antnet.cc:96-122 | the same for the entry point with its own-address and packet-type branches |
| Network.UpdatedFromOK | AntNet/antnet.cc:448-453 | reinforcing a neighbour keeps every row of a table a distribution over the neighbours |
| Network.PathFacts | AntNet/antnet.cc:220-234 | a carried path is simple, along links, within the memory array, with increasing trip times |
| Network.RoomForOneMore | AntNet/antnet.cc:231-234 | by counting nodes, memorize never writes outside the array |
| Network.GenerateOK | AntNet/antnet.cc:126-166 | a new ant is always sent, as a good forward ant |
| Network.TurnRoundOK | AntNet/antnet.cc:181-187 | a forward ant at its destination is turned round with at least two entries and is a good backward ant |
| Network.ForwardOnOK | AntNet/antnet.cc:188-193 | elsewhere it goes on as a good forward ant, or is freed exactly where the parent is the only neighbour |
| Network.BackwardReceiveOK | AntNet/antnet.cc:195-208 | a backward ant reinforces the neighbour it came from and goes to the entry before, or completes at the first |
| Network.StepKeepsInv | AntNet/antnet.cc:96-317 | every enabled event keeps the network invariant |
| Network.RunKeepsInv | AntNet/antnet.cc:96-317 | every state of every run satisfies the invariant |
| NetworkTheorems.RowsStayDistributions | AntNet/antnet.cc:425-480 | always, each row lists its node's neighbours once each with positive pheromones of sum one |
| NetworkTheorems.AntsCarrySimplePaths | AntNet/antnet.cc:126-143 | always, an ant's memory is the loop erasure of its walk, a simple path from its origin that fits the array |
| NetworkTheorems.FirstTripTimeIsLostTime | AntNet/antnet.cc:217-234 | always, an ant's first trip time is the time it lost in loops, zero exactly if it met no node twice |
| NetworkTheorems.WalksDoNotBacktrack | AntNet/antnet.cc:247-254 | no forward ant ever turns straight back |
| NetworkTheorems.PacketsCrossLinks | AntNet/antnet.cc:101-110 | every packet is on its way to a neighbour of its sender, so the own-address branches are never taken |
| NetworkTheorems.HandlersNeverFault | AntNet/antnet.cc:96-122 | whatever arrives is sent on or freed; nothing undefined happens; forward ants change no table |
| NetworkTheorems.NewAntsAreSent | AntNet/antnet.cc:150-165 | a new ant is always sent to a neighbour, for the first node drawn other than its own, never freed at once |
| NetworkTheorems.EveryAntCanArrive | AntNet/antnet_rtable.cc:109-113 | in every reachable state every ant in flight can be received, with draws that end the rejection loop |
| NetworkTheorems.DeadEndExactly | AntNet/antnet.cc:249-254 | a forward ant is freed exactly at a node, not its destination, whose only neighbour it came from |
| NetworkTheorems.CompletedAntsRetraced | AntNet/antnet.cc:195-208 | a completed ant was received at exactly its memory in reverse, in size-1 hops, ending at its origin |
| NetworkTheorems.AntsAreConserved | AntNet/antnet.cc:153-262 | generated = forward + backward + completed + dead-ended + lost, and nothing is dropped or forgotten |
| NetworkTheorems.BackwardAntsFeedTraffic | AntNet/antnet.cc:339-350 | wherever a backward ant arrives, its memory meets what update_traffic needs |
| HopLaws.ForwardGoesBySlot | AntNet/antnet.cc:247-258 | a forward ant goes on to the k-th neighbour of the row of its destination exactly when the first draw outside the slot of its last node is in the k-th slot, with only sender and next hop changed |
| HopLaws.NewAntGoesBySlot | AntNet/antnet.cc:150-165 | a new ant leaves for the k-th neighbour of the row of its destination exactly when its first draw is in the k-th slot |
| HopLaws.ForwardHopLaw | AntNet/antnet_rtable.cc:54-131 | the law of forwarding in every reachable state, with this node memorised and nothing else of the ant changed |
| HopLaws.NewAntHopLaw | AntNet/antnet.cc:126-166 | the law of a new ant's first hop, and its destination, in every reachable state |
| HopLaws.EveryHopIsPossible | AntNet/antnet_rtable.cc:109-131 | in every reachable state a forward ant can still go on to each neighbour but the one it came from |
| HopLaws.EveryNodeCanGenerate | AntNet/antnet.cc:126-166 | in every reachable state each node can send an ant to each other node over each of its neighbours |
| Errands.ErrandIsKept | AntNet/antnet.cc:170-210 | in every run an ant keeps its origin, start time and the destination drawn for it until it is turned round there |
| Errands.CompletedAntsFoundTheirDestination | AntNet/antnet.cc:126-289 | a completed ant's memory leads from the node that created it to the destination drawn there, with the time it took |
| BackwardTrip.TripPosition | AntNet/antnet.cc:293-317 | with no other event in between, after j receptions the ant is j entries further, or home |
| BackwardTrip.TripRow | AntNet/antnet.cc:195-208 | after j receptions exactly the rows of the entries reached are updated, once each |
| BackwardTrip.TripEffect | AntNet/antnet.cc:448-453 | the way home updates the row of mem[k] for mem[l], k < l, once in favour of mem[k+1], and no other row anywhere |
| BackwardTrip.TripFavoursThePath | AntNet/antnet_rtable.cc:144-151 | on those rows the neighbour used strictly rises unless it is one, and every other strictly falls |
| InterleavedRuns.ProgressUnderInterleaving | AntNet/antnet.cc:195-208 | whatever else happens, a backward ant that is not lost keeps its memory, moves one entry with each of its receptions, and is home after size-1 of them, for good |
| InterleavedRuns.RowIsItsHistory | AntNet/antnet.cc:425-454 | in every run a row is the uniform row after exactly the reinforcements backward ants have brought to its node, in order |
| InterleavedRuns.PheromoneFloor | AntNet/antnet_rtable.cc:144-151 | after m of them each pheromone is at least (1-r)^m of the initial 1/num_nb |
| InterleavedRuns.EachRowOnceInAnyRun | AntNet/antnet.cc:425-454 | in every run, for k < l, exactly one event of a completed ant reinforces the row of mem[k] for mem[l], in favour of mem[k+1] |
| InterleavedRuns.OtherRowsUntouchedInAnyRun | AntNet/antnet.cc:440-453 | in every run no event of a completed ant reinforces the row of a node for one that does not stand after it in its memory |
| Traffic.PushAllContents | AntNet/antnet.cc:346-362 | a window holds all samples of its destination in order |
| Traffic.ReportKeepsModel | AntNet/antnet.cc:346-397 | any report with positive trip times keeps best the minimum, the mean within the samples, and the variance positive |
| Traffic.HistoryBound | AntNet/antnet.cc:331-397 | the same after any history of reports, about all samples of a destination |
| Traffic.ReinforcementBound | AntNet/antnet.cc:399-416 | every division is defined, r is in (0,1], it is one exactly for a best sample, and the zero branch is never taken |
| Traffic.FirstReportGivesOne | AntNet/antnet.cc:390-416 | the first report of a destination, whatever its trip time, gives r = 1 |
| Traffic.TwoEqualReports | AntNet/antnet.cc:331-416 | two ants with trip time 2.0 give r = 1 both times, and the variance rises although the mean is met exactly |
| Traffic.VarianceGrowsWithoutDeviation | AntNet/antnet.cc:384-388 | without any deviation the variance grows exactly when it is above 1/(1-VARSIGMA) |
| Traffic.BestSampleCollapsesRow | AntNet/antnet.cc:413-416 | used in a row update, the factor of a best sample sets the favoured entry to one and all others to zero |
| TrafficTheorems.StatisticsAreOfAllSamples | AntNet/antnet.cc:380-397 | after any history of reports mean and variance of a destination are the exponential mean and the kept variance of all its samples in order |
| TrafficTheorems.MeanMovesToSample | AntNet/antnet.cc:385 | a sample moves the mean a two-hundredth of the way towards it |
| TrafficTheorems.SamplesAreTravelTimes | AntNet/antnet.cc:340-350 | what an ant reports about a later node is the time it travelled there, loops not counted |
| TrafficTheorems.UpperLimitWidth | AntNet/antnet.cc:409-412 | the upper limit is above the mean by 1.7 standard errors |
| TrafficTheorems.FactorAtUpperLimit | AntNet/antnet.cc:416 | at the upper limit the factor is 0.7 of the ratio of best to sample, plus 0.15 |
| TrafficTheorems.FactorFalls | AntNet/antnet.cc:416 | a slower sample has a smaller factor |
| Traffic.TrafficModel.GetWinSize | AntNet/antnet.cc:319-328 | the number of samples in the window |
| Traffic.TrafficModel.PushSamples | AntNet/antnet.cc:346-362 | the first loop appends every sample to the window of its destination |
| Traffic.TrafficModel.RefreshStats | AntNet/antnet.cc:365-397 | the second loop updates mean, variance and best of every destination reported |
| Traffic.TrafficModel.FactorOf | AntNet/antnet.cc:407-416 | the factor is computed without dividing by zero, is in (0,1], and is one exactly for a best sample |
| Traffic.TrafficModel.UpdateTraffic | AntNet/antnet.cc:331-422 | windows and statistics become those of the functions above, the model stays right, and r is the factor of the last sample under them |
| PacketPool.RunKeepsPool | Ns2.35Files/packet.h:644-668 | over any run of operations the free list has no repetition and no packet in use, so alloc never returns one |
| PacketPool.InUseWhileReferenced | Ns2.35Files/packet.h:454-455 | a packet stays in use with its outstanding references, whatever happens to others |
| PacketPool.ReturnsOnLastFree | Ns2.35Files/packet.h:694-738 | with k references outstanding it returns to the pool on the (k+1)-th free and not before |
| PacketPool.FreeThenAlloc | Ns2.35Files/packet.h:646-650 | the packet freed last is the one handed out next, and the pool is then as before |
| PacketPool.AllocThenFree | Ns2.35Files/packet.h:646-656 | a packet is made only when the pool is empty; one taken from it goes back to where it was |
| PacketPool.PacketPool.Alloc | Ns2.35Files/packet.h:644-668 | a packet not in use before, with no data, no references and a header of zeros but for -2, -2 and -1; the assertions hold |
| PacketPool.PacketPool.Free | Ns2.35Files/packet.h:694-738 | one reference less, or back to the pool with header and data cleared; freeing a packet in the pool changes nothing |
| PacketPool.PacketPool.RefCopy | Ns2.35Files/packet.h:454 | one reference more on the same packet |
| PacketPool.PacketPool.SetData | Ns2.35Files/packet.h:480-484 | the data is replaced and the pool is as it was |
| PacketPool.PacketPool.AllocData | Ns2.35Files/packet.h:675-681 | a buffer is attached to a packet without data and the pool is as it was |
| PacketPool.PacketPool.Copy | Ns2.35Files/packet.h:740-771 | another packet with the same header and data and no references; the original is unchanged |
| InterfaceQueue.RunInv | Ns2.35Files/priqueue.cc:39-154 | over any run the queue keeps its shape, packets are conserved, and nothing waits while the link is idle |
| InterfaceQueue.QueueShape | Ns2.35Files/priqueue.cc:39-98 | the queue is always a segment of high packets, latest first, and then one of low packets, earliest first |
| InterfaceQueue.StepDelivers | Ns2.35Files/priqueue.cc:73-98 | an event only adds to the deliveries, and only high packets while a high packet is queued |
| InterfaceQueue.HighIsNotOvertaken | Ns2.35Files/priqueue.cc:39-98 | from the queueing of a high packet until it has gone, only high packets are delivered |
| QueueTheorems.BackwardAntsGoFirst | Ns2.35Files/priqueue.cc:45-64 | with preference, while a backward ant or a packet of a routing type is queued, no data packet and no forward ant is delivered |
| QueueTheorems.PreferredArrival | Ns2.35Files/priqueue.cc:73-98 | such an arrival goes to the head, or at once to an idle link; at the limit exactly the last packet is dropped |
| QueueTheorems.OrdinaryArrival | Ns2.35Files/drop-tail.cc:62-76 | any other arrival goes to the end, or at once to an idle link; at the limit, in packets or bytes, exactly it or the head is dropped |
| QueueTheorems.NothingDroppedIff | Ns2.35Files/drop-tail.cc:57-98 | a run drops nothing exactly if every arrival finds room and no shrink or end cuts packets off |
| QueueTheorems.StepSendsExactly | Ns2.35Files/priqueue.cc:85-97 | which packet each event gives to the link: the head on a service, the arrival on an idle link |
| QueueTheorems.DeliveriesAreServices | Ns2.35Files/priqueue.cc:85-97 | over any run the packets given to the link are exactly the services of a busy link plus the one on it |
| QueueTheorems.OrdinaryLeaveInOrder | Ns2.35Files/priqueue.cc:39-70 | data packets and forward ants are delivered in the order of arrival; with preference off all packets are |
| QueueTheorems.FilterTakesThePicked | Ns2.35Files/priqueue.cc:100-114 | the filter takes out exactly the packets it picks |
| QueueTheorems.FilterHopTakesTheFirst | Ns2.35Files/priqueue.cc:116-140 | exactly the first packet for the hop is taken out |
| QueueTheorems.TerminateSettlesAll | Ns2.35Files/priqueue.cc:145-154 | after it nothing is queued and every arrival is delivered, dropped or filtered out |
| InterfaceQueue.OnePacketPerService | Ns2.35Files/priqueue.cc:85-97 | the link is never given a packet while it is busy |
| InterfaceQueue.StepNeverGrowsPastLimit | Ns2.35Files/priqueue.cc:77-83 | counting packets, no event makes the queue longer than the larger of what it was and qlim-1 |
| InterfaceQueue.CapacityUnderChangingLimits | Ns2.35Files/drop-tail.cc:57-98 | so under any changes of the limit the queue stays below the largest limit |
| InterfaceQueue.CapacityBound | Ns2.35Files/drop-tail.cc:57-77 | counting packets with a fixed limit of at least one, at most qlim-1 packets wait |
| InterfaceQueue.CapacityIff | Ns2.35Files/drop-tail.cc:57-98 | counting packets, the limit in force is obeyed after every event of a run if and only if each limit set is above the number of packets then queued |
| InterfaceQueue.StepNeverGrowsPastByteLimit | Ns2.35Files/drop-tail.cc:57-77 | counting bytes, with tail drop and no preference, no event makes the queue larger than it was unless it stays below the limit |
| InterfaceQueue.ByteCapacityUnderChangingLimits | Ns2.35Files/drop-tail.cc:62-75 | so in any run fewer bytes wait than the largest limit allows |
| InterfaceQueue.ByteLimitIff | Ns2.35Files/priqueue.cc:73-83 | all runs obey a fixed limit in bytes exactly if the queue drops from the tail and prefers nothing |
| InterfaceQueue.ShrinkMeetsCapacityIff | Ns2.35Files/drop-tail.cc:80-98 | shrinking leaves min(length, qlim) packets, so it meets that bound exactly if it held before |
| InterfaceQueue.ShrinkLeavesOneMore | Ns2.35Files/drop-tail.cc:87-88 | a run that ends with a shrink and leaves as many packets waiting as the limit |
| InterfaceQueue.ShrinkTailIsLongestFit | Ns2.35Files/drop-tail.cc:80-98 | with tail drop exactly the longest prefix that fits remains, counting packets or bytes |
| InterfaceQueue.ShrinkFrontIsLongestFit | Ns2.35Files/drop-tail.cc:80-98 | with front drop exactly the longest suffix that fits remains |
| InterfaceQueue.PriQueue.Enque | Ns2.35Files/drop-tail.cc:57-77 | the packet is appended, or it or the head is dropped at the limit; when and which is QueueTheorems.OrdinaryArrival |
| InterfaceQueue.PriQueue.Deque | Ns2.35Files/drop-tail.cc:100-106 | the head leaves, if there is one |
| InterfaceQueue.PriQueue.ShrinkQueue | Ns2.35Files/drop-tail.cc:80-98 | the loop ends with what the shrink function leaves and drops the rest |
| InterfaceQueue.PriQueue.Recv | Ns2.35Files/priqueue.cc:39-70 | routing packets and backward ants go to the front, everything else to the back; type by type in QueueTheorems.PreferredArrival and OrdinaryArrival |
| InterfaceQueue.PriQueue.RecvHighPriority | Ns2.35Files/priqueue.cc:73-98 | insertion at the head, drop of the last packet at the limit, and a send if the link is idle; in packets, QueueTheorems.PreferredArrival |
| InterfaceQueue.PriQueue.Filter | Ns2.35Files/priqueue.cc:100-114 | exactly the packets failing the filter remain, in order, and the others are taken out in order |
| InterfaceQueue.PriQueue.FilterForHop | Ns2.35Files/priqueue.cc:116-140 | exactly the first packet for the given next hop is taken out and returned |
| InterfaceQueue.PriQueue.Terminate | Ns2.35Files/priqueue.cc:145-154 | every queued packet is dropped in order |

## Left out

- `thisprob`, `qtotal`, the queue lengths read through Tcl, and the global `N`: they never affect the hop that is returned.
- Printing, debugging output, Tcl binding and commands, timers, ports, `pkt_len`, sequence numbers and the time-to-live
  field: the time to live is set but not decremented in the code at hand, so no claim is made that forward ants end.
- Networks with more nodes than the memory array has entries, and `start` run twice on one agent.
- Search past the used part of `pkt_memory_`: stale entries could stop the unguarded searches before the array ends; the
  model counts any such search as a fault and shows that it never happens.
- The IP destination field, which always equals the next hop.
- Rounding of `double`: all arithmetic is exact.
- Header bits are words with three named positions; DCCP options, `AppData` subclasses, radio stamps and the sizes of
  buffers are left out, and the assertion on `uid_` is a precondition of freeing a packet for good.
- Traffic.TrafficModel.UpdateTraffic: takes the memory as a sequence and the square root as a parameter with its defining
  property; the three loops and their bodies are separate methods.
- InterfaceQueue.RunInv: the base class `Queue` is not part of this model; its `recv` is taken to enqueue and then send if
  the link is idle, and its `resume` to send the next packet or mark the link idle. Statistics are left out.
- `PacketQueue` is a sequence; removal by pointer finds the packet by its identity, and a packet is never queued twice.
- The name tables of packet types, trace formatting, the Tcl libraries and scripts, and the analysis scripts.
