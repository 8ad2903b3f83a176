# The Nano-RK sensor-network stack, verified

This project models, in Dafny 4.11, the parts of the Nano-RK experimental network stack that keep
state and have to get it right, and proves what they promise.

* **Gateway routing** (the `Topology` modules, `FloydWarshall`, `ShortestPaths`, `RoutingTables`): neighbour
  reports become a link graph, aged and pruned; an in-place Floyd-Warshall that records intermediate
  vertices solves it; a recursion recovers first hops; one table is built per node.
* **Node forwarding** (`Forwarding`, `Delivery`, `EndToEnd`, `Flooding`) and the ageing **neighbour
  table** (`NeighborTable`): what one node does with a packet, and what whole networks of such nodes
  do, with the gateway's tables or with arbitrary ones.
* **Dissemination** (`Dissemination`, `NearestFirst`): how the tables reach the nodes over a network that
  has none yet, or only some.
* **Transmit queues** (`TransmitQueue`, `TransmitRefinement`, on `LinkedBuffers` and `BufferPlaces`):
  buffers in a C array threaded through two linked queues, refined to a bag with a priority scan.
* **Receive queues** (`ReceiveQueue`, `ReceiveLists`, `ReceiveSpec`, `ReceiveRuns`, `ExcessPolicy`):
  the free queue and port queue of one port at pointer level, their specification on values, and runs.
  `ReceivePool` puts all ports' managers over the one buffer array they share.
* **Sockets** (`TransportLayer`, `SocketSpec`, `SocketInvariants`, `SocketPool`, `SocketRuns`,
  `SocketPromises`, `SocketFaults`, `SocketWitnesses`): descriptors, port elements, receive buffer
  managers and the shared pool. `TransportRuns` runs any calls by any tasks on the real arrays and linked queues.
* **SLIP framing** (`Slip`): encoder, decoder, streams and noise, after the PROTOCOL section of
  RFC 1055.

`PriorityQueue`, `Sums` and `Options` hold small shared definitions. Where the source changes state in
place the model has classes and methods, each proved equal to a function on values; the properties are
lemmas about those functions.

The code is modelled as it is written, also where it departs from its evident intent. For each such
place there is a lemma that says exactly when it does what it is meant to, and one with a run, from an
initial state, in which it does not:

* `remove_rx_fq` leaves `tail_fq` behind when it unlinks the last of several buffers, and nothing puts it
  right again before the free queue has been emptied. `StepKeepsTail` and `TailStaysRightExactly` say
  which arrivals and which runs of a port do that, `CallKeepsTails` and `TailsStayRightExactly` the same
  for all calls of all tasks; the run is `OutOfOrderLosesTail`. Nothing goes wrong yet: linked lists, pool and
  correspondence stay exactly right until a call appends behind such a pointer (`PerformAll`). What that
  call does is in `InsertRxFq`: its buffer does not enter the free queue, and the port queue may be cut
  off. `TailAtRiskExactly` and `PortAtRiskExactly` say from which states arrivals can leave the pointer
  behind, `InOrderRunsKeepTail` and `CarefulRunsKeepTails` how tasks can avoid it, and `RepairedInTime` is
  a run that takes the risk and comes to no harm.
* `receive` panics when a task that has accepted a port's only segment receives again before releasing
  it, and when a buffer is stranded and nothing is queued: `ReceiveKeepsIntact`, with the run in
  `ReceivingTwicePanics`.
* `insert_rx_pq` on a full port unlinks the new segment when its place is exactly the old tail's:
  `ArriveWhenFull`, with the run in `EvictionLosesInRun`. Such a buffer is called stranded; the port's
  counters still include it, and `CheckReceiveQueue` says what that does to the count.
* `bind` compares the result of `check_port_available`, NRK_OK or NRK_ERROR, with FALSE, so the check
  never refuses, contrary to the comment after it that the port is available:
  `BindKeepsPortsDistinctExactly` and `RunsKeepPortsDistinct`, with the run in `TwoSocketsOnePort`.
* `set_rx_queue_size` on a mapped socket uses a local variable it has not set: the model takes its
  value as a parameter. `GrowthReachesSocketExactly`, with the run in `GrowthGoesElsewhere`.
* `close_socket` does not add to `num_bufs_free`: `RunsKeepIntact` gives the exact shortfall after any
  run, and `CloseForgetsBuffer` a run.
* `process_topology_desc` has no free slot to write to when a node's array is full: `free_index` then
  holds what an earlier scan of the same call left, or nothing that was set, which the model takes as a
  parameter. The new neighbour overwrites another: `ReportOneExactly`, `ProcessExactly`,
  `NeverForgetsExactly`, `LinksFaithfulExactly` for what is stored, `CountsAreExactly` for the counts;
  the run is `SixReportersForgetOne`.
* A destination delivers every copy of a packet it hears, from any node on the route, not only the one
  its next-to-last hop sends: `RunsDeliver`, `CopiesFromRoute` and `TwoHopsTwoCopies` say how many those
  are, and `DeliveredTwice` is a run.
* A node that gets back a packet of its own concludes that its routing table is corrupted, and stops. While
  tables are being sent out this happens although all of them are right: a gateway that has no table yet
  broadcasts, and a node that has one hands the packet back. `AlarmExactly` says for which networks,
  `AlarmRun` is the run, and `NearestFirstIsSafe` and `NearestFirstFinishes` give an order of sending
  that avoids it; the code sends the tables in the order in which the gateway came to know the nodes.
* `add_neighbor` counts one too many for a HELLO that claims the broadcast address, in one case:
  `AddKeepsSound` and `CountIsExact`, with the run in `BroadcastHelloMiscounts`.

Each critical section is one atomic step. The radio is a relation that says who hears whom, separate
from the links the gateway computes with; the serial line is a sequence of bytes. Addresses, priorities
and payloads are unbounded; where the source's 8-bit arithmetic could matter (the time to live, loop
counters that limit the number of nodes) it is written out or bounds the statement.

## Model

| member | source | states |
|---|---|---|
| FloydWarshall.RunInPlace | tools/networkgateway/NetworkGateway.c:654-668 | the in-place triple loop, although it overwrites entries later iterations of a round read, computes exactly the simultaneous rounds 1..n, for every n up to 126 |
| FloydWarshall.RoundKeepsTriangle | tools/networkgateway/NetworkGateway.c:654-668 | after round k no cost exceeds a detour through any of the vertices 1..k |
| FloydWarshall.RoundKeepsSplits | tools/networkgateway/NetworkGateway.c:654-668 | a recorded intermediate differs from both ends and still splits its cost exactly, however much the two halves have improved since; no intermediate and a finite cost means a direct link or the diagonal |
| FloydWarshall.RoundsKeepInvariant | tools/networkgateway/NetworkGateway.c:566-668 | from the matrices as prepared, every round keeps all of this, for every link graph |
| ShortestPaths.CostIsShortest | tools/networkgateway/NetworkGateway.c:654-668 | the cost of a pair is the length of its shortest directed walk, capped at INFINITY: no walk is shorter, and a finite cost is some walk's length |
| ShortestPaths.InfinityMeansUnreachable | tools/networkgateway/NetworkGateway.c:566-609 | with at most 100 nodes a cost of INFINITY says exactly that there is no walk at all |
| ShortestPaths.GetParent | tools/networkgateway/NetworkGateway.c:753-759 | the recursion over recorded intermediates ends and yields a vertex the source has a link to, one hop nearer the destination |
| RoutingTables.BuildTable | tools/networkgateway/NetworkGateway.c:680-693 | one row of the dissemination loop fills the table with address, cost and first hop of every vertex, and the invalid address where there is no route |
| RoutingTables.RouteAddr | projects/experimental/UDP_v1/NetworkLayer.c:217-240 | the search returns the next hop of the first entry for the address, and the broadcast address for broadcasts and unknown addresses |
| RoutingTables.LookupIsFirstHop | projects/experimental/UDP_v1/NetworkLayer.c:217-240 | looking up a destination in the table built for a node gives the first hop of a shortest route, or the invalid address when there is none |
| RoutingTables.LookupUnknown | projects/experimental/UDP_v1/NetworkLayer.c:217-240 | an address that is no node of the network is broadcast |
| RoutingTables.TablesCompose | tools/networkgateway/NetworkGateway.c:680-693 | hop-by-hop composition: if every node uses the table built for it, a packet follows a walk to its destination in exactly as many hops as the cost, no node twice, and no walk is shorter |
| Forwarding.NetworkLayer.SetRoutingTable | projects/experimental/UDP_v1/NetworkLayer.c:1219-1232 | the node's table becomes the message's table |
| Forwarding.NetworkLayer.RoutePacket | projects/experimental/UDP_v1/NetworkLayer.c:242-260 | one less to live in signed 8-bit arithmetic, nothing sent at zero; otherwise the packet with its next hop looked up is queued stably by priority, or lost if no transmit buffer is free |
| Forwarding.NetworkLayer.ReceivePacket | projects/experimental/UDP_v1/NetworkLayer.c:726-783 | the dispatch of a received packet on the node's real table and queue: the table changes only to one that is for this node and addressed to it or to all, data for this node is delivered, a HELLO is learned from, and relays, drops and the alarm are exactly those of ReactsExactly |
| Forwarding.ReactsExactly | projects/experimental/UDP_v1/NetworkLayer.c:726-787 | for every packet: exactly which are delivered, learned from, installed, passed on or taken as a sign of a corrupted table, by address, kind, next hop and source; and what a relay changes |
| Forwarding.NetworkLayer.TransmitNext | projects/experimental/UDP_v1/NetworkLayer.c:917-964 | the dequeue and release pair sends the head of the transmit queue and returns its buffer |
| Delivery.TransmissionDoes | projects/experimental/UDP_v1/NetworkLayer.c:726-783 | whichever nodes hear a transmission, as long as its next hop is among them: the destination delivers it if it hears it, the first hop, if another node, relays it if there is time left to live, and nothing else happens anywhere |
| Delivery.FirstHopActs | projects/experimental/UDP_v1/NetworkLayer.c:735-750 | a first hop that is not the destination relays exactly if there is time left, and never finds its routing table corrupted |
| Delivery.TransmissionKeepsFate | projects/experimental/UDP_v1/NetworkLayer.c:242-260 | a transmission turns a flight into exactly what it was fated to become, with one transmission less to come |
| Delivery.RunsDeliver | projects/experimental/UDP_v1/NetworkLayer.c:242-260 | in every interleaving of sends, transmissions and losses of any number of packets, each transmission heard or missed by next hop and destination in any combination, and for any hearing relation that contains the links the tables were computed from: deliveries made, deliveries to come and copies lost are exactly what the sends promise, one copy for each node on the route that the destination hears; nothing is misdelivered and no routing table is ever found corrupted |
| Delivery.NetworkFallsSilent | projects/experimental/UDP_v1/NetworkLayer.c:242-260 | whichever flights are chosen, the network falls silent after exactly the sum over flights of hops left, each cut off at its ttl, and not before |
| Delivery.DeliveredExactlyIfNear | projects/experimental/UDP_v1/TransportLayerUDP.c:1013-1021 | a packet sent with ttl T is delivered at least once if some walk of at most T hops (and fewer than INFINITY) leads to its destination; and if nodes hear just the links, once if there is such a walk and otherwise not at all; the network is silent after at most T transmissions |
| Delivery.CopiesFromRoute | projects/experimental/UDP_v1/TransportLayerUDP.c:1013-1021 | the copies of a packet that arrive are as many as the nodes of its shortest route that transmit it within its ttl and that the destination hears |
| Delivery.CopiesReach | projects/experimental/UDP_v1/NetworkLayer.c:242-260 | at least one copy arrives where a walk within the ttl leads, whatever else is heard; exactly one, and none elsewhere, if nodes hear just the links |
| Delivery.TwoHopsTwoCopies | projects/experimental/UDP_v1/NetworkLayer.c:726-783 | a packet over a route of two hops is delivered a second time if and only if its destination hears the source as well |
| Delivery.DeliveredTwice | projects/experimental/UDP_v1/NetworkLayer.c:726-783 | a run of one packet through a quiet network of three nodes whose destination receives it twice, once over a pruned link |
| EndToEnd.ReportsDecideDelivery | tools/networkgateway/NetworkGateway.c:483-651 | from reports to deliveries: with the tables computed from any run of neighbour reports, and nodes that hear at least what the gateway has them hear, links it has pruned included, no table is found corrupted; if no report of the run has thrown out a standing one, a packet to another node is delivered whenever a chain of reports that still stand, no longer than its ttl, leads there; and if nodes hear no more than the links, it is delivered at most once, and only if there is such a chain |
| EndToEnd.HearingOneself | projects/experimental/UDP_v1/NetworkLayer.c:726-783 | a packet a node sends to itself is delivered, once, if and only if the node hears itself |
| Dissemination.TablesArrive | projects/experimental/UDP_v1/Serial.c:171-231 | in every run of tables and other packets, through nodes with any tables, with losses: the nodes that have received the table meant for them have the one computed for them, and nobody else's table has changed; once all have, the network is the one packets are delivered in |
| Dissemination.NoAlarm | projects/experimental/UDP_v1/NetworkLayer.c:760-787 | while tables are sent out over a network without tables, no node finds its table corrupted if no route between two other nodes leads through the gateway's node, whatever is heard or lost |
| Dissemination.AlarmRun | projects/experimental/UDP_v1/NetworkLayer.c:764-775 | and for every network with such a route there is a run of five steps after which the gateway's node has stopped, although every table sent is right |
| Dissemination.AlarmExactly | projects/experimental/UDP_v1/NetworkLayer.c:760-787 | so an alarm is possible if and only if some route leads through the gateway's node |
| NearestFirst.NearestFirstIsSafe | tools/networkgateway/NetworkGateway.c:680-740 | if each node is sent its table only when the gateway and all nodes nearer to it have theirs, no table is ever found corrupted in any network, and every table in flight is on a shortest route |
| NearestFirst.NearestFirstFinishes | tools/networkgateway/NetworkGateway.c:680-740 | in that order a network without tables can be given all of them: some run ends with the right table at every node the gateway has a route to |
| Flooding.StepKeepsBudget | projects/experimental/UDP_v1/NetworkLayer.c:444-466 | for any tables and any losses, transmissions made plus the load of what is in flight never exceed what was originated, and each transmission strictly lowers the load |
| Flooding.FloodsAreBounded | projects/experimental/UDP_v1/NetworkLayer.c:729-787 | in every run one originated packet causes at most 1 + D + ... + D^(ttl-1) transmissions, D the greatest number of hearers; every packet in flight keeps a ttl of at least 1 |
| Flooding.FloodsDieOut | projects/experimental/UDP_v1/NetworkLayer.c:729-787 | once nothing new is originated the network is silent after at most its load of transmissions |
| Flooding.FullFloodMeetsBound | projects/experimental/UDP_v1/NetworkLayer.c:444-466 | the bound is met, for every D and ttl: a run in which one packet, flooded by D neighbours each time, causes exactly 1 + D + ... + D^(ttl-1) transmissions |
| NeighborTable.NeighborList.AddNeighbor | projects/experimental/UDP_v1/NetworkLayer.c:110-183 | the two passes in place do exactly what the function on values does, for any table and any HELLO |
| NeighborTable.AddKeepsSound | projects/experimental/UDP_v1/NetworkLayer.c:110-183 | every call keeps entries distinct, their time within 1..TIMEOUT_COUNTER and count at least the number used; the sanity panic is never reached, even for broadcast senders; count stays exact if and only if it is not a broadcast HELLO to a full table with an entry that expires in the same pass |
| NeighborTable.RepliesExactly | projects/experimental/UDP_v1/NetworkLayer.c:110-183 | a HELLO is accepted if and only if its sender is listed, or count leaves room, or another sender's time is up in this very call; while count is right, room means an unused entry |
| NeighborTable.NewUntilHeardAgain | projects/experimental/UDP_v1/NetworkLayer.c:122-171 | an entry is marked new by the call that lists its sender, until that sender is heard again |
| NeighborTable.CountIsExact | projects/experimental/UDP_v1/NetworkLayer.c:110-183 | over every sequence of HELLOs count is the number of used entries at every moment if and only if no HELLO has miscounted, which only one from the broadcast address can |
| NeighborTable.BroadcastHelloMiscounts | projects/experimental/UDP_v1/NetworkLayer.c:150-183 | a run from the empty table after which it counts five entries and uses four |
| NeighborTable.TableIsRecent | projects/experimental/UDP_v1/NetworkLayer.c:110-183 | over every sequence of HELLOs an address is listed with lastReport TIMEOUT_COUNTER - k if and only if its last report was k calls ago, k is below TIMEOUT_COUNTER and the table before that call had it listed, had room, or had an entry whose time was up; the rssi is that report's |
| TopologyManager.Manager.ProcessTopologyDesc | tools/networkgateway/NetworkGateway.c:262-405 | the method with the source's loops does exactly what the function on values does, keeps the list sound, and raises the counts too far by exactly the overflowing entries |
| TopologyManager.AgeNode | tools/networkgateway/NetworkGateway.c:368-402 | the ageing loop over one node, which also finds its first strongest neighbour, equals its specification |
| TopologyInvariants.RecordedIsSound | tools/networkgateway/NetworkGateway.c:336-363 | recording an entry keeps the node sound wherever free_index points; its count comes out right if and only if there was room |
| TopologyInvariants.ProcessKeepsSound | tools/networkgateway/NetworkGateway.c:262-405 | a report keeps addresses distinct, every stored neighbour listed, time left in every entry and n at a strongest neighbour; each overflowing entry makes one count one too high |
| TopologyInvariants.PruningKeepsStrongest | tools/networkgateway/NetworkGateway.c:543-558 | pruning never follows a null pointer, removes exactly the weak links other than the strongest, and never isolates a node that had a neighbour |
| TopologyInvariants.RunsKeepSound | tools/networkgateway/NetworkGateway.c:262-405 | all of this in every run of reports and prunings, and the counts are together too high by exactly the number of overflowed entries |
| TopologyInvariants.CountsAreExactly | tools/networkgateway/NetworkGateway.c:342-362 | every count is the number of valid entries if and only if no entry has ever overflowed |
| TopologyHistory.ProcessEntry | tools/networkgateway/NetworkGateway.c:262-405 | after a report nothing is stored but the pairs it names, fresh, and all others one report nearer to expiry; and all of that is stored if none of its entries has thrown out a neighbour that would have outlived the report |
| TopologyHistory.StoredIsKnown | tools/networkgateway/NetworkGateway.c:262-405 | in every run whatever is stored is known: the latest report of the pair has neither expired nor been pruned, and remaining life and strength are that report's |
| TopologyHistory.ReportOneExactly | tools/networkgateway/NetworkGateway.c:336-363 | one entry of a report makes its own pair fresh and leaves all else stored as before, if and only if the node it names has room for the reporter |
| TopologyHistory.NewUntilReportedAgain | tools/networkgateway/NetworkGateway.c:336-363 | a recorded entry is marked new if and only if its sender was not listed before; all other marks stay |
| TopologyHistory.ProcessExactly | tools/networkgateway/NetworkGateway.c:262-405 | a whole report does what it is meant to if and only if none of its entries throws out a neighbour that would have outlived it |
| TopologyHistory.KnownIsStored | tools/networkgateway/NetworkGateway.c:262-405 | after a run that has dropped nothing whatever is known is stored |
| TopologyHistory.NeverForgetsExactly | tools/networkgateway/NetworkGateway.c:336-363 | at every moment of a run all that is known is stored, if and only if no entry has thrown out a neighbour that would have outlived its report |
| TopologyFaults.SixReportersForgetOne | tools/networkgateway/NetworkGateway.c:336-363 | a run in which six nodes report one neighbour and the first of them is forgotten while its report still stands |
| TopologyHistory.PruningByStrength | tools/networkgateway/NetworkGateway.c:543-558 | what pruning leaves of a node's known neighbours: all that are not weak, and one that no other is stronger than |
| TopologyManager.NodeToGraph | tools/networkgateway/NetworkGateway.c:467-476 | returns the vertex of a listed address and the invalid address otherwise |
| TopologyManager.PrepareMatrices | tools/networkgateway/NetworkGateway.c:566-609 | the preparation loops make exactly the cost and parent matrices of the graph of stored neighbours; the look-up of a neighbour never fails |
| TopologyManager.Manager.GenerateRoutingTables | tools/networkgateway/NetworkGateway.c:483-651 | prunes, maps, prepares and solves: the matrices it leaves are the shortest-path solution of the pruned graph |
| TopologyManager.GraphIsANetwork | tools/networkgateway/NetworkGateway.c:543-565 | after any run the map from vertices to addresses is one to one and free of reserved addresses |
| TopologyManager.LinksAreReports | tools/networkgateway/NetworkGateway.c:588-609 | in every run a link from a to b means that an unexpired, unpruned report from b says it heard a; and there is a link for each such report if the run has dropped nothing |
| TopologyManager.LinksFaithfulExactly | tools/networkgateway/NetworkGateway.c:588-609 | at every moment of a run the links are exactly the unexpired, unpruned reports, if and only if the run has dropped nothing |
| TopologyManager.ComputedLinks | tools/networkgateway/NetworkGateway.c:543-609 | the links of a node after a route computation in terms of known strengths: those who hear it well enough, and one of those who hear it best |
| LinkedBuffers.InsertByPriority | projects/experimental/UDP_v2/BufferManager.c:547-585 | pointer surgery: the buffer is linked in before the first of lower priority, and the rest of the chain is untouched |
| LinkedBuffers.Append | projects/experimental/UDP_v2/BufferManager.c:618-635 | what the four assignments do for any tail pointer: with the right one the buffer is linked in behind all others |
| TransmitQueue.TransmitBufferManager.InsertTxAq | projects/experimental/UDP_v2/BufferManager.c:530-587 | fails if and only if no buffer is free; otherwise the packet stands behind all of its own or higher priority; pool partition, counters and all four pointers stay right |
| TransmitQueue.TransmitBufferManager.RemoveTxAq | projects/experimental/UDP_v2/BufferManager.c:589-616 | takes the head of the active queue, the free queue untouched, the buffer now taken |
| TransmitQueue.TransmitBufferManager.InsertTxFq | projects/experimental/UDP_v2/BufferManager.c:618-635 | releases a taken buffer to the tail of the free queue |
| TransmitQueue.TransmitBufferManager.RemoveTxFq | projects/experimental/UDP_v2/BufferManager.c:637-654 | takes the head of the free queue, or reports that it is empty |
| TransmitQueue.TransmitBufferManager.constructor | projects/experimental/UDP_v2/BufferManager.c:94-108 | starts with all buffers in the free queue |
| TransmitRefinement.HeadIsOldestHighest | projects/experimental/UDP_v2/BufferManager.c:530-616 | the head of the queue is the oldest packet of the highest priority waiting, and taking it leaves the queue of the rest |
| TransmitRefinement.QueueRefinesBag | projects/experimental/UDP_v2/BufferManager.c:530-654 | over any sequence of inserts, removals and releases the linked queues answer exactly as a bounded bag scanned for its oldest highest packet |
| ExcessPolicy.Settings.SetExcessPolicy | projects/experimental/UDP_v2/BufferManager.c:194-212 | sets the policy of one priority in the 32-bit word and leaves every other as it was; refuses bad arguments |
| ReceiveQueue.ReceiveBufferManager.RemoveRxFq | projects/experimental/UDP_v2/BufferManager.c:486-528 | takes the first empty (or held) buffer; a right tail pointer stays right if and only if that buffer is not the last of several |
| ReceiveQueue.ReceiveBufferManager.InsertRxFq | projects/experimental/UDP_v2/BufferManager.c:462-484 | with a right tail pointer the buffer joins the free queue at its tail and buffers of other ports are untouched; with one left behind the buffer does not enter the free queue, and the port queue is cut off if tail_fq names one of its buffers |
| ReceiveQueue.ReceiveBufferManager.Grant | projects/experimental/UDP_v1/TransportLayerUDP.c:450-453 | with a right tail pointer the port has one more empty buffer; otherwise it counts one more that its free queue does not have; other ports untouched |
| ReceiveQueue.ReceiveBufferManager.TakeSegment | projects/experimental/UDP_v1/TransportLayerUDP.c:1296-1305 | accepting takes the head of the port queue; its buffer is held at the tail of the free queue if the tail pointer is right, and otherwise outside it |
| ReceiveQueue.ReceiveBufferManager.ReleaseBuffer | projects/experimental/UDP_v1/TransportLayerUDP.c:705-725 | releases the first held buffer that matches; fails if and only if the task does not hold it; buffers of other ports untouched |
| ReceiveQueue.ReceiveBufferManager.GetInProcessBufCount | projects/experimental/UDP_v1/BufferManager.c:1156-1171 | counts the held buffers |
| ReceiveQueue.ReceiveBufferManager.CheckReceiveQueue | projects/experimental/UDP_v1/TransportLayerUDP.c:1350-1356 | the count reported is the port queue's length plus the stranded buffers |
| ReceiveQueue.ReceiveBufferManager.EvictTail | projects/experimental/UDP_v2/BufferManager.c:382-404 | the relinking leaves both lists, all pointers and the counters right: the port queue is its segments but the last with the new one inserted stably, or without either when the new priority falls between the last two; buffers of other ports untouched |
| ReceiveQueue.ReceiveBufferManager.InsertRxPq | projects/experimental/UDP_v2/BufferManager.c:276-440 | for every state of the linked lists and of the tail pointer an arrival does exactly what the function on values says, eviction, policy and the tail pointer's next state included; buffers of other ports untouched |
| ReceiveQueue.ReceiveBufferManager.CloseQueues | projects/experimental/UDP_v1/TransportLayerUDP.c:779-797 | closing gives back exactly the queued, free and held buffers, whatever the tail pointer; stranded ones stay behind |
| ReceiveLists.OtherPortUnaffected | projects/experimental/UDP_v2/BufferManager.c:276-528 | changes to buffers another port owns leave a port's queues as they are, pointers and contents |
| ReceiveLists.WrongTailLoses | projects/experimental/UDP_v2/BufferManager.c:462-484 | appending behind a tail pointer left behind leaves the free queue without the buffer, and ends the chain of the port queue early if tail_fq names one of its buffers |
| ReceivePool.StepKeepsSystem | projects/experimental/UDP_v2/BufferManager.c:276-528 | all managers over one array: a step of one on buffers it owns leaves every other consistent with its queues unchanged, and the pool too |
| ReceivePool.GrantKeepsSystem | projects/experimental/UDP_v1/TransportLayerUDP.c:450-453 | an unallocated buffer may be given to any port: all others keep their queues and the pool loses that buffer |
| ReceivePool.CloseKeepsSystem | projects/experimental/UDP_v1/TransportLayerUDP.c:779-797 | a port that closes gives its queued, free and held buffers back to the pool, and all others keep their queues |
| ReceivePool.ReceiveBuffers.constructor | projects/experimental/UDP_v2/BufferManager.c:71-92 | all buffers unallocated, all queues empty |
| ReceivePool.ReceiveBuffers.TakeSegment | projects/experimental/UDP_v1/TransportLayerUDP.c:1296-1305 | on the shared array: one port with a right tail pointer accepts a segment, every other port's lists stay exactly as they were, whatever their tail pointers |
| ReceivePool.ReceiveBuffers.ReleaseBuffer | projects/experimental/UDP_v1/TransportLayerUDP.c:705-725 | on the shared array: one port releases a held buffer, or is refused, and every other port's lists stay as they were |
| ReceivePool.ReceiveBuffers.Insert | projects/experimental/UDP_v2/BufferManager.c:276-440 | on the shared array: a segment arrives for one port, in any state of its tail pointer, and every other port's lists stay as they were |
| ReceivePool.ReceiveBuffers.Close | projects/experimental/UDP_v1/TransportLayerUDP.c:779-797 | on the shared array: one port's lists are emptied into the pool and every other port's stay as they were |
| ReceiveSpec.ArriveWithRoom | projects/experimental/UDP_v2/BufferManager.c:298-331 | with a free buffer the segment is queued stably and nothing is lost |
| ReceiveSpec.ArriveWhenFull | projects/experimental/UDP_v2/BufferManager.c:364-436 | a full port, where the last segment is outranked, or tied under OVERWRITE, holds the others with the new one inserted stably, and otherwise what it held; and loses no buffer; if and only if the new priority does not fall between the last two queued, in which case it loses both segments and a buffer |
| ReceiveSpec.TieAtFullPort | projects/experimental/UDP_v2/BufferManager.c:406-428 | on a tie at a full port OVERWRITE replaces the last segment by the new one and DROP leaves all as it was |
| ReceiveRuns.ReceiveOutcome | projects/experimental/UDP_v1/TransportLayerUDP.c:1176-1294 | receiving succeeds, blocks, or panics in exactly the states given |
| ReceiveRuns.StepKeepsTail | projects/experimental/UDP_v2/BufferManager.c:486-528 | a right tail pointer stays right if and only if the step is not an arrival that takes the last of several buffers |
| ReceiveRuns.StepKeepsSafe | projects/experimental/UDP_v2/BufferManager.c:486-528 | from a safe state no step leaves the tail pointer behind, and the state stays safe if and only if the step is not the release of the latest accepted buffer while an older one is held |
| ReceiveRuns.TailStaysRightExactly | projects/experimental/UDP_v2/BufferManager.c:486-528 | over every run of a port the tail pointer is right at every moment if and only if no arrival has taken the last of several buffers, and then no accept goes wrong |
| ReceiveRuns.InOrderRunsKeepTail | projects/experimental/UDP_v2/BufferManager.c:486-528 | no run without such a release ever leaves the tail pointer behind |
| ReceiveRuns.TailAtRiskExactly | projects/experimental/UDP_v2/BufferManager.c:523-527 | a state can lose its tail pointer to arrivals alone if and only if a buffer is held and the one at the tail is not |
| TransportLayer.TransportLayerUDP.Create | projects/experimental/UDP_v1/TransportLayerUDP.c:99-150 | the call does what its function says, finding the first unassigned descriptor |
| TransportLayer.TransportLayerUDP.GetNextAvailablePort | projects/experimental/UDP_v1/TransportLayerUDP.c:152-173 | the lowest ephemeral port number no element has: all lower ones are taken; or none, when all are |
| TransportLayer.TransportLayerUDP.BindSocket | projects/experimental/UDP_v1/TransportLayerUDP.c:320-459 | the call, checks in the source's order, does what its function says |
| TransportLayer.TransportLayerUDP.AllocateBuffers | projects/experimental/UDP_v1/TransportLayerUDP.c:439-454 | the allocation loop gives out the first unallocated buffers of the array one by one, each linked into the port's free queue, and fails only when there is none |
| TransportLayer.TransportLayerUDP.MapBeforeSend | projects/experimental/UDP_v1/TransportLayerUDP.c:933-996 | mapping an unbound socket on its first send |
| TransportLayer.TransportLayerUDP.SetReceiveQueueSize | projects/experimental/UDP_v1/TransportLayerUDP.c:520-654 | as written, with the value of the unset local variable a parameter |
| TransportLayer.TransportLayerUDP.ReceiveSegment | projects/experimental/UDP_v1/TransportLayerUDP.c:1113-1320 | unless it would put a buffer behind a tail pointer left behind: the test of the two counters and the move of the head buffer from the port queue to the free queue, on the linked lists, make the call accept the oldest segment of the highest priority and return it, or block, or panic, exactly as the port's queues decide; no other port's lists change |
| TransportLayer.TransportLayerUDP.Release | projects/experimental/UDP_v1/TransportLayerUDP.c:656-730 | the search through the linked free queue finds the buffer the task holds, or the call is refused |
| TransportLayer.TransportLayerUDP.DeliverSegment | projects/experimental/UDP_v1/NetworkLayer.c:349-366 | a segment is queued, on the linked lists, for the first element that serves its port, whatever the state of its tail pointer |
| TransportLayer.TransportLayerUDP.CloseDescriptor | projects/experimental/UDP_v1/TransportLayerUDP.c:732-807 | as written: num_bufs_free is left as it was |
| TransportLayer.TransportLayerUDP.CheckQueue | projects/experimental/UDP_v1/TransportLayerUDP.c:1322-1357 | counting the held buffers along the linked free queue and subtracting from the two counters gives the queued segments plus the stranded buffers |
| TransportRuns.Perform | projects/experimental/UDP_v1/TransportLayerUDP.c:320-807 | any call that does not put a buffer behind a tail pointer left behind, in any reachable state: on the real arrays and linked lists it does what its function says, and every port's lists and counters are exactly right afterwards |
| TransportRuns.PerformAll | projects/experimental/UDP_v1/TransportLayerUDP.c:320-807 | and so for any run of such calls by any tasks, those that leave a tail pointer behind included: receive list integrity for every port |
| TransportRuns.ProcessSegment | projects/experimental/UDP_v2/BufferManager.c:406-428 | the policy set for the segment's priority is the one that decides |
| SocketInvariants.ElementsLeft | projects/experimental/UDP_v1/TransportLayerUDP.c:265-287 | while some socket is unmapped a port element and an rbm element are free, so the searches for them never fail |
| SocketInvariants.MapKeepsBijection | projects/experimental/UDP_v1/TransportLayerUDP.c:417-437 | mapping keeps sockets, port elements and rbm elements in one-to-one correspondence |
| SocketInvariants.UnmapKeepsBijection | projects/experimental/UDP_v1/TransportLayerUDP.c:769-800 | and so does closing |
| SocketPool.AllocateManySucceeds | projects/experimental/UDP_v1/TransportLayerUDP.c:439-454 | while num_bufs_free does not overstate the pool the allocation never fails, and the one free queue grows by exactly the buffers taken |
| SocketPool.GrantingIsSafeExactly | projects/experimental/UDP_v1/TransportLayerUDP.c:632-645 | growing a port keeps its tail pointer safe if and only if the port holds nothing |
| SocketPool.CloseKeepsPool | projects/experimental/UDP_v1/TransportLayerUDP.c:779-797 | closing returns buffers to the pool, loses the stranded ones, and leaves num_bufs_free short by exactly the number returned |
| SocketRuns.ReceiveKeepsIntact | projects/experimental/UDP_v1/TransportLayerUDP.c:1113-1320 | receive() panics if and only if nothing is queued while something is held or stranded, and keeps the correspondence, the pool and the counts all the same |
| SocketRuns.EveryCallKeepsIntact | projects/experimental/UDP_v1/TransportLayerUDP.c:320-807 | every call by any task, whatever the tail pointers, keeps sockets, port elements and rbm elements one to one, each buffer in one place, and num_bufs_free within the pool; only receive() can reach a panic; only close_socket() disturbs num_bufs_free or loses buffers |
| SocketRuns.TailsStayRightExactly | projects/experimental/UDP_v1/TransportLayerUDP.c:320-807 | all tail pointers are right at every moment of a run if and only if no arrival in it has taken the last of several buffers; and then no call puts a buffer behind a wrong one |
| SocketRuns.CallKeepsTails | projects/experimental/UDP_v1/TransportLayerUDP.c:320-807 | while all tail pointers are right a call leaves them right if and only if it is not such an arrival |
| SocketRuns.CallKeepsSafe | projects/experimental/UDP_v1/TransportLayerUDP.c:320-807 | from a safe state no call leaves a tail pointer behind, and the state stays safe if and only if the call neither releases the latest accepted buffer while an older one is held nor grows a port that holds any |
| SocketRuns.CarefulRunsKeepTails | projects/experimental/UDP_v1/TransportLayerUDP.c:320-807 | what tasks can see to: no run without such releases and growth ever leaves a tail pointer behind |
| SocketRuns.PortAtRiskExactly | projects/experimental/UDP_v2/BufferManager.c:523-527 | segments alone can leave the tail pointer of a port behind if and only if a buffer is held there and the one at the tail of its free queue is not |
| SocketRuns.RunsKeepIntact | projects/experimental/UDP_v1/TransportLayerUDP.c:320-807 | in every run of any calls, as far as the code follows it, each buffer is unallocated, owned by one port, or lost, and num_bufs_free falls short of the unallocated by exactly what closed sockets gave back |
| SocketRuns.InitialIsIntact | projects/experimental/UDP_v1/TransportLayerUDP.c:60-97 | the initial state has all of this, every tail pointer right and safe, and num_bufs_free exact |
| SocketPromises.CreateTakesLowest | projects/experimental/UDP_v1/TransportLayerUDP.c:115-150 | create_socket() takes the lowest unassigned descriptor, for the task and the kind asked for, and is refused exactly for SEQPACKET or when there is none |
| SocketPromises.BindMaps | projects/experimental/UDP_v1/TransportLayerUDP.c:320-459 | bind() succeeds exactly for an owned, unmapped socket that is not RAW, a number from 1 to 255 and a buffer left; the socket then has an unused port element of that number with one more buffer, and nothing else changes |
| SocketPromises.SendMaps | projects/experimental/UDP_v1/TransportLayerUDP.c:933-996 | a first send gives the socket the lowest ephemeral number nobody has, with one buffer |
| SocketPromises.SizeMaps | projects/experimental/UDP_v1/TransportLayerUDP.c:556-612 | on an unmapped socket set_rx_queue_size() gives as many buffers as asked for, or all there are, with the lowest free ephemeral number |
| SocketPromises.SizeGrows | projects/experimental/UDP_v1/TransportLayerUDP.c:613-653 | on a mapped socket it gives the buffers asked for beyond the first, or all there are, to the element the unset variable names, takes them from num_bufs_free, and replies one more than it gave |
| SocketPromises.CloseGivesUp | projects/experimental/UDP_v1/TransportLayerUDP.c:732-807 | close_socket() by the owner gives up the descriptor of any kind of socket, its port element, its rbm element and its queued, free and held buffers, and changes nothing else |
| SocketPromises.ClosedIsGone | projects/experimental/UDP_v1/TransportLayerUDP.c:732-807 | after it no task can use the descriptor, and create_socket() finds it or a lower one |
| SocketPromises.OnlyOwners | projects/experimental/UDP_v1/TransportLayerUDP.c:320-807 | a call on a descriptor by a task that does not own it is refused and changes nothing |
| SocketPromises.RefusedChangesNothing | projects/experimental/UDP_v1/TransportLayerUDP.c:320-807 | no call that is refused, would wait or panics has changed anything |
| SocketPromises.RunsKeepHolders | projects/experimental/UDP_v1/TransportLayerUDP.c:99-807 | in every run a descriptor belongs to the task that last created it and has not closed it since, as the kind it was created as |
| SocketPromises.ReceiveTakesHead | projects/experimental/UDP_v1/TransportLayerUDP.c:1113-1320 | receive() takes the head segment of the port and leaves its buffer held; it waits, or panics, in exactly the states given |
| SocketPromises.ReleaseFrees | projects/experimental/UDP_v1/TransportLayerUDP.c:656-730 | release_buffer() succeeds exactly for a buffer the port holds, and only that buffer is empty then |
| SocketPromises.SegmentsFindTheirSocket | projects/experimental/UDP_v1/NetworkLayer.c:349-366 | while numbers are distinct a segment goes to the socket that has its number, and nowhere if none has it |
| SocketPromises.BoundSocketReceives | projects/experimental/UDP_v1/TransportLayerUDP.c:320-459 | from bind() to receive(): a segment sent to the number just bound is the one the task receives |
| SocketFaults.BindKeepsPortsDistinctExactly | projects/experimental/UDP_v1/TransportLayerUDP.c:385-390 | a successful bind() keeps port numbers distinct if and only if the number was not taken |
| SocketFaults.CallKeepsPortsDistinct | projects/experimental/UDP_v1/TransportLayerUDP.c:152-188 | any call makes two port elements share a number if and only if it is such a bind(); the ephemeral port numbers of the other calls are always free |
| SocketFaults.RunsKeepPortsDistinct | projects/experimental/UDP_v1/TransportLayerUDP.c:152-188 | port numbers are distinct at every moment of a run if and only if no bind() in it has succeeded with a number already taken |
| SocketFaults.GrowthReachesSocketExactly | projects/experimental/UDP_v1/TransportLayerUDP.c:613-653 | set_rx_queue_size() on a mapped socket grows that socket's queue by what it replies if and only if the unset variable names its element, or there is nothing to give |
| SocketFaults.CheckCountsQueued | projects/experimental/UDP_v1/TransportLayerUDP.c:1322-1357 | check_receive_queue() never panics in any reachable state, and answers exactly the callers that own a mapped socket; its answer is all buffers of the port less the empty and the accepted ones |
| SocketWitnesses.OutOfOrderLosesTail | projects/experimental/UDP_v2/BufferManager.c:523-527 | a run from the initial state: two segments accepted, the later one released first, and the next arrival leaves the tail pointer at a buffer that has left the free queue |
| SocketWitnesses.RepairedInTime | projects/experimental/UDP_v2/BufferManager.c:523-527 | a run from the initial state with the same release in which all tail pointers stay right, because the older buffer is released before the next arrivals |
| SocketWitnesses.EvictionLosesInRun | projects/experimental/UDP_v2/BufferManager.c:394-401 | a run from the initial state: four arrivals at a port of three buffers after which two segments remain and a buffer is stranded |
| SocketWitnesses.ReceivingTwicePanics | projects/experimental/UDP_v1/TransportLayerUDP.c:1176-1294 | a run from the initial state after which receive() panics: the task has accepted the only segment and not released it |
| SocketWitnesses.TwoSocketsOnePort | projects/experimental/UDP_v1/TransportLayerUDP.c:385-390 | a run from the initial state in which two tasks bind the same port number |
| SocketWitnesses.GrowthGoesElsewhere | projects/experimental/UDP_v1/TransportLayerUDP.c:613-653 | a run from the initial state after which the buffer one task asks for goes to another task's port |
| SocketWitnesses.CloseForgetsBuffer | projects/experimental/UDP_v1/TransportLayerUDP.c:779-797 | a run from the initial state after which all three buffers are unallocated and two are counted |
| Slip.SendToSerial | projects/experimental/UDP_v1/Flood.c:194-249 | the loop puts out exactly the encoding of the packet |
| Slip.BytesOnLine | projects/experimental/UDP_v1/Flood.c:194-249 | the bytes on the line: 192 before and after a packet, 192 inside it as 219 220, 219 as 219 221, all others as they are |
| Slip.ReceiveFromSerial | projects/experimental/UDP_v1/collectTopology.c:35-106 | the byte loop stores exactly the next frame, at most len bytes of it, and stops after its END |
| Slip.StreamsDecode | projects/experimental/UDP_v1/collectTopology.c:35-106 | decoding the encodings of any packets yields the non-empty ones in order, each cut to the buffer |
| Slip.StreamsRoundTrip | projects/experimental/UDP_v1/collectTopology.c:35-106 | streams round-trip if and only if no packet is longer than the buffer |
| Slip.ResynchronisesAfterNoise | projects/experimental/UDP_v1/collectTopology.c:35-106 | after noise with no ESC dangling at most one junk frame comes out, then every packet |
| Slip.DanglingEscapeSpoilsOne | projects/experimental/UDP_v1/collectTopology.c:79-98 | after noise with an ESC dangling exactly the first packet is spoilt, and how |
| Slip.DanglingExactly | projects/experimental/UDP_v1/collectTopology.c:79-98 | an ESC is left dangling if and only if the noise ends in an odd number of ESC bytes |
| Slip.LastFrameExactly | projects/experimental/UDP_v1/collectTopology.c:35-106 | for every noise and every non-empty packet, the last frame is the packet cut to the buffer if and only if the noise ends in an even number of ESC bytes, or the packet fills the buffer with a repetition of what the noise left over and an END |

## Left out

- Delivery.RunsDeliver: the nodes are in reach of each other at least along the links the tables were computed from; links that have failed since then appear as transmissions that the next hop, the destination, or both do not hear. The flooding results hold for any tables, any hearers and full queues.
- Delivery.DeliveredExactlyIfNear: stated for application packets between nodes of the network and for a network without losses; broadcast and control packets are covered by the flooding results only.
- Dissemination.TablesArrive: that a table gets through is shown for the order nearest nodes first (NearestFirst); in other orders it may be lost, or a node may stop. The pause between two tables and the gateway's retries on a full transmit queue are not modelled.
- TransportRuns.PerformAll: up to the first call that puts a buffer behind a tail pointer left behind, after which that port's buffers are no longer two queues (InsertRxFq says what is left of them); and with the unset variable of set_rx_queue_size within the array, since otherwise foreign memory is written.
- SocketSpec.Receive: the wait for the data-arrived signal and the receive timeout appear as the reply WouldBlock; what other tasks do meanwhile are further steps of the run.
- TopologyManager.Manager.ProcessTopologyDesc: the malloc-ed list of nodes is a sequence that the methods reassign; the next links between nodes and allocation failure are not modelled. The branch for an empty list cannot be reached, since the reporting node has just been added, and is omitted. Reports do not come from the reserved broadcast address, and an unset free_index lies within the array.
- TopologyManager.PrepareMatrices: the edge matrix, which is filled with the same values and only printed, is not kept.
- TopologyHistory.KnownIsStored: for runs that have dropped nothing; otherwise some stored neighbour has been overwritten, and which one depends on free_index. NeverForgetsExactly shows the condition to be exact.
- TopologyHistory.PruningByStrength: which of several equally strong neighbours a pruning spares depends on the order of the slots and is left open.
- Slip.ReceiveFromSerial: a stream that ends inside a frame ends the call; the C code would go on storing what fgetc returns at the end of the file.
- Forwarding.NetworkLayer.ReceivePacket: HELLO messages are counted here and processed in NeighborTable; the serial copy of NGB_LIST messages to the gateway is I/O.
- The duplicate copies in UDP_v1/NetworkGateway.c, UDP_v2/Flood.c and the FloodWithSlip.c files: each algorithm is modelled once.
- Sending on IPC sockets to a port that no socket has: insert_rx_pq would index with -1.
- Packing and unpacking of messages, statistics counters, LEDs, printing and DOT files: straight-line code or I/O.
- Kernel calls, the radio link layer and the serial device: foreign code, not part of this model.
- tools/ff3_serial_bootloader, tools/ff3_wireless_bootloader, java/gr13, projects/examples and projects/demos: outside the network stack.
