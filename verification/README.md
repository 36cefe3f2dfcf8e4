# Proofs about merging, routing and medium access

A Dafny model of the parts of the repository whose promises are about whole runs: the element
merge rule of the data-conformance cases, and the routing, forwarding, coding and medium-access
studies of the simulator. `dafny verify dfyconfig.toml` checks everything.

**Element merge** (`Element*.dfy`). A collection is one element; each version carries edits, and the
versions it was made over. `ElementModel` defines the merged value as a function of a history, a map
from version ids to versions, with no mention of arrival. `ElementApplied` is the device: nodes in
arrival order, pasts as index sets frozen on arrival, a greedy order, a slot map edited in place. It is
proved to compute the history's value. `ElementConvergence` says what deliveries give the same
history, `ElementClosedForm` what the merge loop leaves without mentioning the loop, `ElementValues`
what each slot and each field of the value then show, edit by edit, `ElementLocks` whom a lock keeps
out, `ElementCheckpoint` that a checkpoint stands for its past, and `ElementReplica` how counting
behaves over a run.

**Routing and forwarding** (`Graphs`, `ShortestPath`, `DistanceVector`, `Mpr`, `Geographic`, `Ip`,
`IpNetwork`, `IpDevice`). Least cost is defined over walks; lazy-deletion Dijkstra and in-place
Bellman-Ford are proved against it, and hop-by-hop forwarding over the tables against both. The IP
plane adds longest-prefix match, time to live, and links that go up and down.

**Coding and dissemination** (`Gf2`, `Dissemination`, `Lossless`). A combination is the set of its set
bits, a span the exclusive-ors of subsets of entries, defined without the echelon form. The epidemic
is specified receiver by receiver and carried out sender by sender. `Lossless` shows that without
losses it succeeds, given rounds enough.

**Slotted carrier sense** (`Relay`, `Chain`, `Mrmc`, `Pipes`, `Pigeonhole`). Packets in a chain of
queues carry an exact potential, the hops they have made, which turns what fits in a slot into
capacity.

**LoRa** (`LoraMedium`, `LoraRuns`, `LoraDuty`, `LoraAirtime`), **channel assignment**
(`ChannelDiversity`) and **mobility** (`Bfs`, `Mobility`). `Basics`, `Sums` and `Options` are shared.

Random draws (losses, timers, positions, received power) are arbitrary inputs, so every result holds
for all of them. Floating-point quantities are exact: 0.95 is 95 hundredths, times are whole
nanoseconds or epochs, received power is any integer function, airtime is a real number. Machine
integers are written out where they matter: `u32::MAX` as the unreachable cost with saturating sums,
saturating `u64` times, the last address octet and channel numbers modulo 256.

Hypotheses that the source leaves to its callers are named in the statements: causal delivery and
unique version ids; transitively closed pasts for checkpoints; at most 254 nodes and links inside the
node range; weights of at least 1 where loops are excluded; starts in time order and a frame resolved
by the end of its window.

Where the code and its own documentation differ, the code is followed:

- `element.rs:22-24` promises the same value for the same set of versions; since a past is frozen on
  arrival this needs causal delivery (`ShownExactlyWhenCausal`, `LateVersionIsHead`). A splice
  starts from the alternative shown among all current heads, concurrent ones included, not only those
  of its own past; the result is still determined by the set.
- `routing.rs:160-162` calls the relay set minimal; it is the greedy one, which can hold a relay that
  the others make redundant (`GreedyNeedNotBeMinimal`). `MinimalExactlyWhen` says when it holds none,
  and `GreedyBound` how good it is.
- `ip.rs:519-521` says routes come from a breadth-first search; they come from Dijkstra over unit costs.
- `lora.rs:302-307` has two overlapping frames lost unless one captures the receiver; each frame is
  judged with the positions of its own verdict, so both can be decoded if the nodes move in between
  (`MovingDecodesBoth`). `AtMostOneDecoded` therefore asks for the same positions at both verdicts.
- `lora.rs:308-309` promises an off-time after every frame; dropping a node from the positions clears
  it (`ShrinkingForgetsDuty`), so the promise holds exactly when the positions always cover the node
  (`SpacedExactlyWhenCovered`).
- `mrmc_throughput.rs:34` says that rotating the start leaves the aggregate alone; on an odd number of
  leaky channels it does not: three pipes on three channels carry two pipes from start 0 and one from
  start 1 (`StartIsImmaterialExactlyWhen`).

## Model

| member | source | states |
|---|---|---|
| ElementConvergence.Convergence | crates/ndn-data-conformance/src/element.rs:22-24 | Two devices that applied the same set of versions, each in any causal order and with any repetitions, hold the same state, variants, locks and heads. |
| ElementConvergence.DeliveredIsIntended | crates/ndn-data-conformance/src/element.rs:644-655 | Because a past is frozen when its version first arrives, the history a delivery builds is the one its set of versions stands for exactly when the delivery is causal. |
| ElementConvergence.ShownExactlyWhenCausal | crates/ndn-data-conformance/src/element.rs:22-24 | At every moment of a delivery the device shows the value of the history that the versions it got stand for, exactly when the delivery is causal. |
| ElementConvergence.NonCausalDeliveryDiverges | crates/ndn-data-conformance/src/element.rs:650-652 | Two devices that get two versions, one made over the other, in opposite orders show different sets of heads: without causal delivery the promise of lines 22-24 fails. |
| ElementConvergence.HeadExactlyWhen | crates/ndn-data-conformance/src/element.rs:644-655 | After any delivery a version is a head exactly when nothing that first arrives after it was made over it. |
| ElementConvergence.LateVersionIsHead | crates/ndn-data-conformance/src/element.rs:650-652 | After any delivery, a version that arrives later than one made over it is a head there, and is none in the history its set of versions stands for. |
| ElementConvergence.DeliveredWellFormed | crates/ndn-data-conformance/src/element.rs:644-655 | After any delivery, causal or not, the history holds exactly the ids delivered and is free of causal cycles. |
| ElementConvergence.DeliveredAt | crates/ndn-data-conformance/src/element.rs:645-660 | A version keeps the past it had when it first arrived; later copies of it change nothing. |
| ElementApplied.Replay | crates/ndn-data-conformance/src/element.rs:644-669 | Applying any delivery to the node list, duplicates included, and asking for the value gives the value of the delivered history, whatever indices the nodes got. |
| ElementApplied.Applied.Apply | crates/ndn-data-conformance/src/element.rs:644-669 | The node list and the reported set become those of the history with this version absorbed; the answer is NotCounted exactly when someone else's lock in force, in the version's past, is on a setting it writes. |
| ElementApplied.Applied.NowCounted | crates/ndn-data-conformance/src/element.rs:671-688 | The answer is exactly the reported versions that no lock in force keeps out by now, and exactly they leave the reported set. |
| ElementApplied.Applied.Push | crates/ndn-data-conformance/src/element.rs:650-659 | A new node's index past stands for the applied part of the version's past. |
| ElementApplied.Applied.Locks | crates/ndn-data-conformance/src/element.rs:353-383 | The list holds exactly the locks taken: a later unlock in the same version undoes a lock, and a checkpoint takes those of its state. |
| ElementApplied.Applied.LinearOrder | crates/ndn-data-conformance/src/element.rs:425-437 | The greedy choice never finds nothing ready (the `expect` cannot fail), lists every node once, and lists the ids that the history's own order lists. |
| ElementApplied.Applied.NextReady | crates/ndn-data-conformance/src/element.rs:428-432 | Over index pasts and a done list the choice is the least id among the versions whose past is done. |
| ElementApplied.OrderIsLinearExtension | crates/ndn-data-conformance/src/element.rs:423-437 | Each listed version is new and comes after everything in its past. |
| ElementApplied.OrdersAgree | crates/ndn-data-conformance/src/element.rs:423-437 | Two devices with the same history list the same ids in the same order, though their indices differ. |
| ElementApplied.Applied.Merged | crates/ndn-data-conformance/src/element.rs:439-545 | The value computed from arrival-order indices and an in-place slot map is the history's merged value. |
| ElementApplied.Applied.MergeAll | crates/ndn-data-conformance/src/element.rs:439-493 | The slot map after the loop stands for the history's final slots; lists left empty do not matter. |
| ElementApplied.Applied.WriteCheckpoint | crates/ndn-data-conformance/src/element.rs:453-461 | A checkpoint drops its past's entries from every slot and writes its state's slots, in whatever order the slots are visited. |
| ElementApplied.Applied.WriteEdits | crates/ndn-data-conformance/src/element.rs:462-491 | The edits of one version over index heads do what they do over ids; a splice starts from the alternative shown among the current heads. |
| ElementApplied.Applied.Show | crates/ndn-data-conformance/src/element.rs:495-545 | State, variants, locks in force and heads read off the slot map are those of the history's final slots. |
| ElementApplied.CountsAgree | crates/ndn-data-conformance/src/element.rs:387-421 | The index test for a blocking lock decides counting in the history. |
| ElementApplied.LocksInForceAgree | crates/ndn-data-conformance/src/element.rs:387-404 | The locks no applied version lifts, found by index, are the history's locks in force. |
| ElementLocks.CountsExactlyWhen | crates/ndn-data-conformance/src/element.rs:406-421 | A version counts exactly when no lock keeps it out: one that its writer took and did not undo, or a checkpoint kept, in the version's past, on a setting it sets or changes, by another writer, and that nothing made over it freed. |
| ElementLocks.LockShownExactlyWhen | crates/ndn-data-conformance/src/element.rs:523-533 | The merged state shows a lock exactly when some version took it and everything made over that version leaves it: no unlock of it by its holder, no checkpoint without it. |
| ElementLocks.LockHolds | crates/ndn-data-conformance/src/element.rs:18-20 | Whatever other writers do short of a checkpoint, strangers' unlocks included, their writes of a locked setting made over the lock do not count, and the lock is shown. |
| ElementApplied.InsertLift | crates/ndn-data-conformance/src/element.rs:548-555 | Sorting by (writer, digest) commutes with the change from indices to ids. |
| ElementClosedForm.ClosedForm | crates/ndn-data-conformance/src/element.rs:439-493 | After the loop a version is among a slot's alternatives exactly when it counts, writes the slot, and no counting version made over it writes the slot or is a checkpoint. |
| ElementClosedForm.AlternativesAreConcurrent | crates/ndn-data-conformance/src/element.rs:14-17 | The alternatives of one slot come from different versions, none in another's past. |
| ElementClosedForm.ShownIsLeast | crates/ndn-data-conformance/src/element.rs:547-560 | The state shows the alternative with the least (writer, digest) among all versions that hold the slot. |
| ElementClosedForm.SortedSorts | crates/ndn-data-conformance/src/element.rs:547-555 | The alternatives' order is sorted by key and a permutation of the slot's entries. |
| ElementClosedForm.StepHolds | crates/ndn-data-conformance/src/element.rs:448-492 | Each merge step keeps every slot held by exactly the versions the closed form names. |
| ElementValues.FinalLeaves | crates/ndn-data-conformance/src/element.rs:439-493 | The final slots are what the versions leave one after another, least writer and number first among those whose past is done: one locked out nothing, a checkpoint its own state in place of its past, any other its edits in turn. |
| ElementValues.EditDoes | crates/ndn-data-conformance/src/element.rs:462-491 | One edit replaces in its slot what its version and its past wrote, beside what concurrent versions wrote, by its kind, value, place or removal; a change by the text shown there with the characters replaced. |
| ElementValues.CheckpointDoes | crates/ndn-data-conformance/src/element.rs:453-461 | A checkpoint clears its past from every slot and puts its state's kind, place, removal and settings there. |
| ElementValues.SplicedReplaces | crates/ndn-data-conformance/src/element.rs:581-590 | Character by character, the splice replaces as many characters from its offset on as there are to remove, both clamped to the end. |
| ElementValues.EntriesCarry | crates/ndn-data-conformance/src/element.rs:439-493 | Every entry left in a slot carries its version's last word on it: a checkpoint's own state, otherwise what its last edit of the slot gives. |
| ElementValues.EntriesStand | crates/ndn-data-conformance/src/element.rs:439-493 | The slot has exactly one entry for each version that counts, writes it, and is followed by no counting version that writes it or is a checkpoint. |
| ElementValues.KindShown | crates/ndn-data-conformance/src/element.rs:495-500 | The state's kind is the last word of the first standing version by writer and digest, and none exactly when no version stands. |
| ElementValues.PlaceShown | crates/ndn-data-conformance/src/element.rs:495-501 | The same for the place. |
| ElementValues.RemovedShown | crates/ndn-data-conformance/src/element.rs:495-502 | The element is shown removed exactly when some removal stands. |
| ElementValues.SettingShown | crates/ndn-data-conformance/src/element.rs:495-505 | A setting is shown exactly when some version stands in it, with the last word of the first by writer and digest. |
| ElementValues.SetIsShown | crates/ndn-data-conformance/src/element.rs:465-471 | If the first standing version's last edit of the setting is a set, its value is what the setting shows. |
| ElementValues.CheckpointIsShown | crates/ndn-data-conformance/src/element.rs:8-9 | A checkpoint made over everything else is the merged state to the letter: kind, place, removal, settings and locks. |
| ElementValues.VariantsAre | crates/ndn-data-conformance/src/element.rs:508-521 | A slot is among the variants exactly when more than one version stands; there is one alternative for each, with its writer, digest and last word, in order of writer and digest. |
| ElementValues.HeadShownExactlyWhen | crates/ndn-data-conformance/src/element.rs:534-543 | A head is shown exactly for each version, with its writer, number and digest, that no other is made over. |
| ElementCheckpoint.Truncation | crates/ndn-data-conformance/src/element.rs:439-545 | If every other version is in a checkpoint's past or made over it, and pasts are transitively closed, dropping the checkpoint's past leaves the whole merged value, and which later versions count, unchanged. |
| ElementCheckpoint.LateDeviceAgrees | crates/ndn-data-conformance/src/element.rs:886-904 | A device that applied everything and one that never had the checkpoint's past hold the same value, each after any causal delivery. |
| ElementCheckpoint.CountsAlike | crates/ndn-data-conformance/src/element.rs:406-421 | A version counts with the checkpoint's past exactly when it counts without it: a lock still in force there is one the checkpoint keeps. |
| ElementCheckpoint.LocksAlike | crates/ndn-data-conformance/src/element.rs:387-404 | The locks in force are the same with and without the checkpoint's past. |
| ElementReplica.CountingIsMonotone | crates/ndn-data-conformance/src/element.rs:387-421 | Applying a version never makes another that counts stop counting. |
| ElementReplica.ReportedExactlyWhenFirstCounting | crates/ndn-data-conformance/src/element.rs:671-688 | Over any run of applies and questions, a question is answered with exactly the versions that count, were answered NotCounted before, and counted at no earlier question. |
| ElementReplica.ReportedAtMostOnce | crates/ndn-data-conformance/src/element.rs:671-688 | No version is reported twice in a run. |
| ElementReplica.ReportedAtLeastOnce | crates/ndn-data-conformance/src/element.rs:671-688 | Once a version answered NotCounted counts at a question, that question or an earlier one reported it. |
| ShortestPath.Distances | crates/ndn-sim-studies/src/routing.rs:237-262 | Dijkstra with stale heap entries gives every node its least walk cost, costs of `u32::MAX` or more counting as unreachable, and a first hop that starts a walk of that cost; section 16.1 of RFC 2328. |
| ShortestPath.DijkstraTable | crates/ndn-sim-studies/src/routing.rs:237-270 | The table has one row for exactly the reachable destinations, each with the least cost and a first hop on a walk of that cost. |
| ShortestPath.Compute | crates/ndn-sim-studies/src/routing.rs:222-224 | Every node's table, computed on its own, is correct. |
| ShortestPath.Relax | crates/ndn-sim-studies/src/routing.rs:251-258 | Taking a cheaper offer keeps every distance grounded in a walk through the recorded first hop, and never raises one. |
| ShortestPath.PopLeast | crates/ndn-sim-studies/src/routing.rs:247-249 | The entry popped is the least by cost then node, and the others stay. |
| ShortestPath.FixedPointIsLeast | crates/ndn-sim-studies/src/routing.rs:247-260 | When nothing is pending in the heap no walk is cheaper than the distance of its end. |
| Graphs.FollowingReaches | crates/ndn-sim-studies/src/routing.rs:222-270 | With positive weights, following the independently computed tables hop by hop from any routed node reaches the destination, repeats no node, and costs the metric in all. |
| Graphs.Shorten | crates/ndn-sim-studies/src/routing.rs:237-270 | Any walk can be cut to fewer arcs than nodes at no greater cost. |
| DistanceVector.RelaxationKeepsSupport | crates/ndn-sim-studies/src/routing.rs:308-317 | Any one relaxation keeps every distance grounded in a walk and every next hop accounting for the rest of the distance. |
| DistanceVector.LoopFreeAlways | crates/ndn-sim-studies/src/routing.rs:308-317 | With weights of at least 1 the next pointers are free of loops after every single relaxation of every schedule; section 3.4 of RFC 2453. |
| DistanceVector.SupportedChain | crates/ndn-sim-studies/src/routing.rs:308-317 | From any reached node the next hops lead to the destination at strictly falling distance. |
| DistanceVector.Round | crates/ndn-sim-studies/src/routing.rs:306-319 | After round k no walk of at most k arcs below the infinity beats a vector, and a round that changes nothing is a fixed point. |
| DistanceVector.Converge | crates/ndn-sim-studies/src/routing.rs:305-324 | The in-place relaxation is at its fixed point within n rounds, and there every entry below the infinity is the least cost. |
| DistanceVector.Compute | crates/ndn-sim-studies/src/routing.rs:295-337 | The tables route exactly the destinations whose least cost is below `max_metric`, at that cost. |
| DistanceVector.RefinesLinkState | crates/ndn-sim-studies/src/routing.rs:272-275 | The distance-vector tables are the link-state ones restricted to metrics below `max_metric`: same destinations, same metrics. |
| Mpr.CollectTwoHop | crates/ndn-sim-studies/src/routing.rs:163-175 | The loops collect exactly the neighbours of neighbours that are neither the node nor its neighbours. |
| Mpr.Best | crates/ndn-sim-studies/src/routing.rs:188-199 | The choice is a neighbour not yet picked that covers most, ties to the lowest id. |
| Mpr.MprSet | crates/ndn-sim-studies/src/routing.rs:163-208 | Every pick is a best one, and in the end every two-hop neighbour is covered; neither early `break` is ever taken. |
| Mpr.ProgressPossible | crates/ndn-sim-studies/src/routing.rs:200-203 | While something is uncovered some neighbour not yet picked covers some of it. |
| Mpr.OnePickBound | crates/ndn-sim-studies/src/routing.rs:186-207 | On simple graphs one pick leaves at most (k-1)/k of what was uncovered, for any cover by k neighbours. |
| Mpr.GreedyBound | crates/ndn-sim-studies/src/routing.rs:160-208 | On simple graphs, for any cover by k neighbours, k^t times what is uncovered after t picks is at most (k-1)^t times the two-hop neighbours; section 8.3.1 of RFC 3626. |
| Mpr.GreedyIsOne | crates/ndn-sim-studies/src/routing.rs:186-207 | The relays are a function of the topology: there is one greedy run that covers everything. |
| Mpr.MinimalExactlyWhen | crates/ndn-sim-studies/src/routing.rs:160-162 | No relay can be left out exactly when each was the first to cover some two-hop neighbour that no later relay covers again. |
| Mpr.LastPicksAreNeeded | crates/ndn-sim-studies/src/routing.rs:186-207 | The last relay picked is always needed, and on simple graphs so is the last but one. |
| Mpr.TwoAreMinimal | crates/ndn-sim-studies/src/routing.rs:160-162 | On simple graphs one or two relays are always a minimal set. |
| Mpr.GreedyNeedNotBeMinimal | crates/ndn-sim-studies/src/routing.rs:160-162 | Three relays need not be: on a simple topology the greedy run picks 1, 2 and 3 though 2 and 3 alone cover everything. |
| Mpr.EightNodesAreTangled | crates/ndn-sim-studies/src/routing.rs:160-208 | A symmetric topology of eight nodes is such a one. |
| Geographic.GreedyIsLoopFree | crates/ndn-sim-studies/src/routing.rs:362-388 | Along greedy hops the distance to the destination strictly falls, so no node repeats. |
| Geographic.UnroutedExactlyAtVoid | crates/ndn-sim-studies/src/routing.rs:371-385 | A destination is left unrouted exactly when no neighbour is strictly closer to it. |
| Geographic.NearestIsNearest | crates/ndn-sim-studies/src/routing.rs:374-379 | The hop chosen is strictly closer than the node and nearest among the neighbours that are. |
| Geographic.NearestIsFirst | crates/ndn-sim-studies/src/routing.rs:374-379 | Of equally near neighbours the first listed is the hop. |
| Ip.LpmIsLongest | crates/ndn-sim-studies/src/ip.rs:173-181 | The route chosen matches and no matching route is more specific; none is chosen exactly when none matches. |
| Ip.LpmIsLast | crates/ndn-sim-studies/src/ip.rs:173-181 | Of equally specific matching routes the one installed last is chosen. |
| Ip.InPrefixExactlyWhen | crates/ndn-sim-studies/src/ip.rs:61-71 | An address is within a prefix exactly when its first bits, as many as the prefix is long, are the prefix's. |
| Ip.AddrReads | crates/ndn-sim-studies/src/ip.rs:586 | Node i's address reads 10.0.0.i+1. |
| Ip.ForwardsBounded | crates/ndn-sim-studies/src/ip.rs:211-250 | Under any tables, even looping ones, a packet handled with time to live t is forwarded at most t-1 times; section 5.3.1 of RFC 1812. |
| Ip.OriginatedForwardsBounded | crates/ndn-sim-studies/src/ip.rs:211-250 | A packet originated with time to live 64 is forwarded at most 63 times under any tables. |
| Ip.FromLinks | crates/ndn-sim-studies/src/routing.rs:66-78 | The view's adjacency lists are the unit-cost ends of the links, in list order. |
| IpNetwork.HostRoutesLookup | crates/ndn-sim-studies/src/ip.rs:724-739 | Looking up a node's address among installed host routes gives the face of the table's next hop, or nothing where the table has no row; section 5.2.4.3 of RFC 1812. |
| IpNetwork.HopArrives | crates/ndn-sim-studies/src/ip.rs:700-741 | Over any link list, repeated links included, sending out of the installed face reaches exactly the next hop, over a link that is up: the face kept is the last link's, and only the first of a pair is ever cut. |
| IpNetwork.ArrivesOverUpLink | crates/ndn-sim-studies/src/ip.rs:698-709 | Whatever the routes, a packet gets from a node to another only over a link between them that is up, and over a face whose link is up it does. |
| IpNetwork.DeliveredOverUpLinks | crates/ndn-sim-studies/src/ip.rs:211-250 | However stale the routes, a packet delivered anywhere got there along links that are up, one for each forward. |
| IpNetwork.OriginatedOverUpLinks | crates/ndn-sim-studies/src/ip.rs:211-250 | The same for a packet of the node's own, one link more than its forwards. |
| IpNetwork.WithinHopsReaches | crates/ndn-sim-studies/src/routing.rs:66-78 | Hops in the computed topology are hops over links that are up, in either direction. |
| IpNetwork.JourneyAlongTables | crates/ndn-sim-studies/src/ip.rs:211-250 | From a node m hops away a packet arrives exactly when its time to live exceeds m, forwarded m times, and is never dropped for want of a route or lost on a cut link. |
| IpNetwork.MetricIsHopDistance | crates/ndn-sim-studies/src/ip.rs:717-741 | A row exists exactly for a reachable destination and its metric is the hop distance over up links. |
| IpNetwork.EndToEnd | crates/ndn-sim-studies/src/ip.rs:700-741 | After a re-route a time-to-live-64 request between distinct nodes is delivered exactly when their hop distance over up links is 1 to 64, and no node drops it for lack of a route. |
| IpNetwork.DeliveredExactlyWhenReached | crates/ndn-sim-studies/src/ip.rs:700-741 | After a re-route a request is delivered exactly when some path of at most 64 links that are up leads to its destination. |
| IpNetwork.ReplyReturns | crates/ndn-sim-studies/src/ip.rs:218-230 | The echo reply to a delivered request, marked as one and with its number, gets back to the pinger, over as many hops. |
| IpDevice.Network.constructor | crates/ndn-sim-studies/src/ip.rs:578-640 | The links are wired with a face at each end, the maps keeping the face of the last link between two nodes, all up, and the installed routes are those of the link-state tables. |
| IpDevice.Network.SetLink | crates/ndn-sim-studies/src/ip.rs:700-711 | Exactly the first link between the two nodes changes, and whether there is one is returned. |
| IpDevice.CutKeepsWired | crates/ndn-sim-studies/src/ip.rs:700-711 | Cutting or restoring the first link between two nodes leaves every repeat of a link up. |
| IpDevice.Network.Reroute | crates/ndn-sim-studies/src/ip.rs:717-741 | The installed routes become those of correct tables over exactly the links that are up. |
| IpDevice.Network.Handle | crates/ndn-sim-studies/src/ip.rs:211-250 | One node's handling of a packet under any routes: it goes on only over a link that is up, and is lost when its route leads out of a face whose link is down; of the four counters of all nodes exactly one goes up, by one and at this node. |
| IpDevice.Network.Carry | crates/ndn-sim-studies/src/ip.rs:211-250 | Handling from node to node is the packet's journey, along a trail of links that are all up; the forwarded counters grow by the forwards in all and none falls, and the outcome is counted once, at the node where the trail ends, and nowhere else. |
| IpDevice.Network.SendFrom | crates/ndn-sim-studies/src/ip.rs:211-250 | A packet of the node's own: where it is delivered a path of links that are up leads, one more than the forwards, and the outcome is counted. |
| IpDevice.Network.Ping | crates/ndn-sim-studies/src/ip.rs:700-741 | After any sequence of link changes and a re-route, a request between distinct nodes is delivered exactly when they are within 64 hops over up links, and no node's missing-route counter changes. |
| IpDevice.FirstLinkExactly | crates/ndn-sim-studies/src/ip.rs:700-711 | The link found is the first one that joins the two nodes in either direction. |
| Gf2.ResidueDecidesSpan | crates/ndn-sim-studies/examples/coding_cclf_scale.rs:109-118 | A vector's residue is zero exactly when the vector is an exclusive-or of basis entries. |
| Gf2.AddingGrowsExactly | crates/ndn-sim-studies/examples/coding_cclf_scale.rs:120-129 | Adding v keeps the echelon form, makes the span exactly that of the entries and v, and raises the rank by one exactly when v was outside. |
| Gf2.HelpsIsNonContainment | crates/ndn-sim-studies/examples/coding_cclf_scale.rs:130-135 | `helps` is exactly non-containment of the sender's span in the receiver's. |
| Gf2.RecodingGainsIffHelps | crates/ndn-sim-studies/examples/coding_cclf_scale.rs:136-150 | A recoded packet raises the rank by one exactly when the sender helps, and otherwise changes nothing; no combination is ever lost. |
| Gf2.FullRankIsEverything | crates/ndn-sim-studies/examples/coding_cclf_scale.rs:102-107 | Rank 16 is exactly the span of everything. |
| Gf2.ContainedRank | crates/ndn-sim-studies/examples/coding_cclf_scale.rs:105-107 | The rank grows with the span: it does not depend on the entries. |
| Gf2.TopNeedsPivot | crates/ndn-sim-studies/examples/coding_cclf_scale.rs:101-118 | A combination with highest bit p needs an entry with highest bit p. |
| Gf2.Reduce | crates/ndn-sim-studies/examples/coding_cclf_scale.rs:109-118 | The loop computes the residue, zero exactly for vectors of the span. |
| Gf2.AddVec | crates/ndn-sim-studies/examples/coding_cclf_scale.rs:120-129 | In place, the entries become those after adding v; innovative exactly when v was outside the span. |
| Gf2.RecodeInnovative | crates/ndn-sim-studies/examples/coding_cclf_scale.rs:140-150 | In place, the receiver takes the sender's first direction it lacks; whether it gained is whether the sender helps. |
| Dissemination.QuiescenceMeansSuccess | crates/ndn-sim-studies/examples/coding_cclf_scale.rs:187-211 | When a run falls silent and no node has spent its budget, exactly the nodes connected to the source have all sixteen packets, plain and coded, whatever was lost. |
| Lossless.LosslessSendsFew | crates/ndn-sim-studies/examples/coding_cclf_scale.rs:188-257 | Without losses no node ever sends more than 16 packets, plain or coded: the budget of 32 never binds. |
| Lossless.LosslessSilenceIsSuccess | crates/ndn-sim-studies/examples/coding_cclf_scale.rs:188-211 | Without losses silence alone means that exactly the nodes connected to the source have decoded. |
| Lossless.LosslessFallsSilent | crates/ndn-sim-studies/examples/coding_cclf_scale.rs:198-257 | Without losses a run is loud for at most 16 rounds per node, suppression or not. |
| Lossless.LosslessRunSucceeds | crates/ndn-sim-studies/examples/coding_cclf_scale.rs:198-260 | Every run without losses falls silent within 16 rounds per node, and then exactly the nodes connected to the source have all sixteen packets. |
| Lossless.LosslessBeforeTheCap | crates/ndn-sim-studies/examples/coding_cclf_scale.rs:198-260 | With at most 14 nodes that is before the cap of 240 rounds. |
| Lossless.SharedAfterTaking | crates/ndn-sim-studies/examples/coding_cclf_scale.rs:136-150 | After a recoded packet the receiver's span has one more dimension in common with that of a sender that knows more than they had in common. |
| Lossless.SharedNext | crates/ndn-sim-studies/examples/coding_cclf_scale.rs:226-257 | A coded round without losses keeps as many dimensions common to a node and each neighbour as the node has sent packets. |
| Lossless.PickDone | crates/ndn-sim-studies/examples/coding_cclf_scale.rs:229-246 | A plain packet sent without losses was missing at some neighbour and is then known to all of them, so no node sends it twice. |
| Dissemination.DecodedSpreads | crates/ndn-sim-studies/examples/coding_cclf_scale.rs:178-196 | If a decoded node has nothing to offer a neighbour, that neighbour has decoded. |
| Dissemination.DecodedIsEverything | crates/ndn-sim-studies/examples/coding_cclf_scale.rs:169-175 | A node has decoded exactly when, coded, every combination of the sixteen packets is in its span or, plain, it has every packet. |
| Dissemination.WantsExactlyWhen | crates/ndn-sim-studies/examples/coding_cclf_scale.rs:179-199 | A node is willing exactly when it has sent fewer than 32 and has something that some neighbour lacks. |
| Dissemination.TransmitsExactlyWhen | crates/ndn-sim-studies/examples/coding_cclf_scale.rs:204-220 | A willing node transmits exactly when, under suppression, fewer than two willing neighbours have an earlier timer. |
| Dissemination.CliqueTransmits | crates/ndn-sim-studies/examples/coding_cclf_scale.rs:204-220 | In a clique of willing nodes with distinct timers exactly the two earliest transmit. |
| Dissemination.LackingIs | crates/ndn-sim-studies/examples/coding_cclf_scale.rs:233-242 | The count that decides the plain packet is the number of neighbours that lack it. |
| Dissemination.DecodedForever | crates/ndn-sim-studies/examples/coding_cclf_scale.rs:226-257 | A node that has decoded stays so, whatever is received later. |
| Dissemination.OnlyConnectedEverKnow | crates/ndn-sim-studies/examples/coding_cclf_scale.rs:226-257 | Only nodes connected to the source ever know anything. |
| Dissemination.SomebodyTransmits | crates/ndn-sim-studies/examples/coding_cclf_scale.rs:209-225 | In every round with a willing node some node transmits, even under CCLF suppression. |
| Dissemination.SomebodyLearns | crates/ndn-sim-studies/examples/coding_cclf_scale.rs:229-256 | Every packet put on air is new to some neighbour: received there, it raises the rank by one or adds the packet. |
| Dissemination.PlainPacket | crates/ndn-sim-studies/examples/coding_cclf_scale.rs:229-246 | The plain packet on air is one of the sender's that most neighbours lack, the lowest of those. |
| Dissemination.Broadcast | crates/ndn-sim-studies/examples/coding_cclf_scale.rs:226-256 | One sender's loop over its neighbours gives each receiver what the receiver-by-receiver definition says, from what the sender knew when the round began. |
| Dissemination.PlayRound | crates/ndn-sim-studies/examples/coding_cclf_scale.rs:198-257 | A round of sender loops is the receiver-by-receiver next state; the packets on air are what the budgets went up by, and not none if anyone was willing. |
| Dissemination.Disseminate | crates/ndn-sim-studies/examples/coding_cclf_scale.rs:152-260 | The run ends silent or at 240 rounds; the airtime is the sum of what was sent, at least the rounds and at most 32 per node; the nodes given are exactly those that have all sixteen packets, coded or plain; silence with no budget spent means they are exactly the connected ones. |
| Relay.MoveAdvances | crates/ndn-sim-studies/examples/chain_throughput.rs:87-110 | Moving one packet over one link keeps the queues consistent (nothing lost, made, or taken from an empty queue) and raises the hops done by exactly one. |
| Relay.RestRuns | crates/ndn-sim-studies/examples/chain_throughput.rs:87-110 | Running one picked link leaves every other picked link with a packet to move: no queue underflows. |
| Relay.ActivationsAreProgress | crates/ndn-sim-studies/examples/chain_throughput.rs:28-115 | The links that ran are the hops of the delivered objects plus the progress of the packets in flight. |
| Relay.Capacity | crates/ndn-sim-studies/examples/chain_throughput.rs:28-115 | If no more than m links fit in a slot, the hops of delivered objects over k slots are at most k*m and at least k less a window of objects one hop short. |
| Relay.CandidatesAre | crates/ndn-sim-studies/examples/chain_throughput.rs:43-56 | The candidates are exactly the links with a packet to move, each once. |
| Relay.SomeRuns | crates/ndn-sim-studies/examples/chain_throughput.rs:43-84 | While the source is saturated and there is a hop, some link runs in every slot. |
| Relay.TurnRuns | crates/ndn-sim-studies/examples/chain_throughput.rs:60-63 | The turn goes on by one candidate a slot, and whoever's turn it is runs. |
| Relay.ProgressWithin | crates/ndn-sim-studies/examples/chain_throughput.rs:36-40 | A packet in flight has at least one hop to go, and no more than a window of them is in flight. |
| Relay.Flow.Refill | crates/ndn-sim-studies/examples/chain_throughput.rs:37-41 | The source's queue is topped up until a window of requests is outstanding. |
| Relay.Flow.Collect | crates/ndn-sim-studies/examples/chain_throughput.rs:43-56 | The loops collect the candidates in order, forward links first. |
| Relay.Flow.Execute | crates/ndn-sim-studies/examples/chain_throughput.rs:86-110 | Executing the active links one by one gives the state after moving all of them. |
| Chain.ChainCapacity | crates/ndn-sim-studies/examples/chain_throughput.rs:28-115 | Channel time of delivered objects over any number of slots is at most the slots times the spatial reuse (senders over carrier-sense range plus one, rounded up) and at least the slots less the objects in flight. |
| Chain.ActiveBound | crates/ndn-sim-studies/examples/chain_throughput.rs:64-84 | Transmitters that run together are more than the carrier-sense range apart, so at most one per block of that many nodes runs. |
| Chain.OneLinkPerSlot | crates/ndn-sim-studies/examples/chain_throughput.rs:64-84 | When the whole chain is within carrier-sense range exactly one link runs in every slot. |
| Chain.Collapse | crates/ndn-sim-studies/examples/chain_throughput.rs:147-148 | Within carrier-sense range a round trip over h hops delivers one object per 2h slots, less at most a window in flight: the 1/6 at 3 hops and 1/8 at 4; one way, one per h. |
| Chain.GreedyIsMaximal | crates/ndn-sim-studies/examples/chain_throughput.rs:66-84 | A candidate is left out only because it conflicts with a link that runs. |
| Chain.RunsExactlyWhen | crates/ndn-sim-studies/examples/chain_throughput.rs:64-84 | A candidate runs exactly when, with every running link before it in the slot's order, no sender is within range of the other or of its receiver and, half-duplex, no node is in both. |
| Chain.RunningAreTogether | crates/ndn-sim-studies/examples/chain_throughput.rs:64-84 | Any two links that run in a slot are out of each other's range and, half-duplex, share no node. |
| Chain.Schedule | crates/ndn-sim-studies/examples/chain_throughput.rs:64-84 | The loop activates the greedy choice. |
| Chain.PlaySlot | crates/ndn-sim-studies/examples/chain_throughput.rs:35-113 | One slot: refill, collect, rotate, schedule and execute. |
| Chain.ChainTput | crates/ndn-sim-studies/examples/chain_throughput.rs:28-115 | The throughput is the delivered objects of the slot-by-slot run over the slots. |
| Mrmc.RadioCapacity | crates/ndn-sim-studies/examples/mrmc_throughput.rs:59-140 | Every running link keeps two radios busy, so hops of delivered objects per slot are at most half the radios of all nodes, rounded down. |
| Mrmc.ChannelCapacity | crates/ndn-sim-studies/examples/mrmc_throughput.rs:59-140 | They are also at most the channels times one channel's spatial reuse, for any coupling in which a channel collides with itself. |
| Mrmc.SingleRadioIsTheChain | crates/ndn-sim-studies/examples/mrmc_throughput.rs:93-140 | With one radio and one channel the multi-radio chain is, slot by slot, the half-duplex single-radio chain. |
| Mrmc.GreedyIsBudgeted | crates/ndn-sim-studies/examples/mrmc_throughput.rs:101-118 | The busy radios are twice the running links, and no node uses more than it has. |
| Mrmc.RunsExactlyWhen | crates/ndn-sim-studies/examples/mrmc_throughput.rs:99-120 | A candidate runs exactly when the links running before it in the slot's order leave both its ends a radio and none of them, on a hop whose channel couples with its own above a tenth, is in range. |
| Mrmc.RunningKeepApart | crates/ndn-sim-studies/examples/mrmc_throughput.rs:67-92 | A hop uses one channel both ways, its number modulo the channels: links that run together on channels that couple are out of each other's range. |
| Mrmc.RadioUseIs | crates/ndn-sim-studies/examples/mrmc_throughput.rs:104-118 | A node's busy radios are the running links it is an end of. |
| Mrmc.Schedule | crates/ndn-sim-studies/examples/mrmc_throughput.rs:101-118 | Counting busy radios in a table gives the greedy choice. |
| Mrmc.ChainMrmc | crates/ndn-sim-studies/examples/mrmc_throughput.rs:59-140 | The throughput is the delivered objects of the slot-by-slot run over the slots. |
| Pipes.OrthogonalScales | crates/ndn-sim-studies/examples/mrmc_throughput.rs:25-46 | On orthogonal channels every channel in use carries one pipe in every slot, wherever the round starts. |
| Pipes.LeakageTax | crates/ndn-sim-studies/examples/mrmc_throughput.rs:25-46 | With adjacent-channel leakage half of the channels in use carry a pipe in a slot, rounded up when the slot starts on an even channel and down when on an odd one: the about C/2 of line 8, exactly. |
| Pipes.StartIsImmaterialExactlyWhen | crates/ndn-sim-studies/examples/mrmc_throughput.rs:34 | Where a slot starts leaves the leaky aggregate alone exactly when the channels in use are even in number or only one. |
| Pipes.ChannelsAre | crates/ndn-sim-studies/examples/mrmc_throughput.rs:29-37 | Whatever pipe a slot starts at, the channels tried are exactly the ones in use. |
| Pipes.PlayRound | crates/ndn-sim-studies/examples/mrmc_throughput.rs:32-43 | Starting at a rotating pipe, the loop picks the greedy choice in that order. |
| Pipes.PickedAre | crates/ndn-sim-studies/examples/mrmc_throughput.rs:36-45 | The pipes picked are pairwise uncoupled, and every pipe tried is picked or coupled with one that is. |
| Pipes.OrthogonalTotal | crates/ndn-sim-studies/examples/mrmc_throughput.rs:28-46 | Over any number of slots the orthogonal aggregate is the slots times the channels in use. |
| Pipes.TotalIs | crates/ndn-sim-studies/examples/mrmc_throughput.rs:32-44 | The total is over slots that start at one pipe after the other, round the end. |
| Pipes.LeakyTotal | crates/ndn-sim-studies/examples/mrmc_throughput.rs:28-46 | Over any number of slots the leaky aggregate is half of the orthogonal one, rounded up or down in each slot. |
| Pipes.ParallelPipes | crates/ndn-sim-studies/examples/mrmc_throughput.rs:28-46 | The aggregate per slot is the slot-by-slot total, the start rotating, over the slots. |
| LoraRuns.PruningIsInvisible | crates/ndn-sim-studies/src/lora.rs:376-437 | With starts in time order, a frame resolved no later than its window's end gets on the pruned list the verdict of the whole history. |
| LoraRuns.PruningKeepsLate | crates/ndn-sim-studies/src/lora.rs:376-380 | The list holds only windows that were on air, and all that ended no more than an airtime before the latest start. |
| LoraRuns.VerdictIsFinal | crates/ndn-sim-studies/src/lora.rs:410-437 | Frames that start when this one has ended, or later, never change its verdict. |
| LoraRuns.BothLostWithoutCapture | crates/ndn-sim-studies/src/lora.rs:302-304 | In any run a frame that overlaps another in range is lost unless it is a capture margin stronger than the other where the nodes stand at its own verdict; so both are lost when neither is. |
| LoraRuns.OrderDoesNotMatter | crates/ndn-sim-studies/src/lora.rs:304-307 | The verdict depends on when each node asked to send, not on how the calls of different nodes were interleaved or which identifiers that gave. |
| LoraRuns.AtMostOneDecoded | crates/ndn-sim-studies/src/lora.rs:302-304 | In any run, of two overlapping in-range frames of different nodes at most one is decoded at a receiver, each by its own verdict on its own pruned list, if the positions are the same at both verdicts. |
| LoraRuns.BothDecodedExactlyWhen | crates/ndn-sim-studies/src/lora.rs:402-437 | In any run, whatever positions are set in between, both of two overlapping frames are decoded exactly when each, at its own verdict, is undisturbed by the other or captures the receiver from it, and nothing else keeps either from being decoded. |
| LoraRuns.MovingDecodesBoth | crates/ndn-sim-studies/src/lora.rs:302-307 | If nodes move between the two verdicts both of two overlapping in-range frames can be decoded, whatever the margin: two nodes start at once, the first is loud at its verdict and the second at its own. |
| LoraRuns.RegulatedAlone | crates/ndn-sim-studies/src/lora.rs:362-398 | The starts granted to a node that stays on the medium depend on that node's own requests alone. |
| LoraRuns.IdsAreUnique | crates/ndn-sim-studies/src/lora.rs:381-382 | Windows carry their position in the run as identifier. |
| LoraRuns.WindowIs | crates/ndn-sim-studies/src/lora.rs:379-389 | Every window lasts one airtime from its start, up to the last instant. |
| LoraRuns.OfferedFramesAreCounted | crates/ndn-sim-studies/src/lora.rs:370-398 | Transmissions are the windows on air, and with the gated frames they are all the calls. |
| LoraDuty.StartsAreSpaced | crates/ndn-sim-studies/src/lora.rs:308-309 | With enforcement on, a node's accepted starts are at least an airtime and an off-time apart. |
| LoraDuty.NodeNeverOverlapsItself | crates/ndn-sim-studies/src/lora.rs:308-309 | A regulated node never has two frames on air at once. |
| LoraDuty.DutyCycleHolds | crates/ndn-sim-studies/src/lora.rs:134-149 | For every limit, in every interval of every run a node is on air for at most the limit's share of it and one frame more, the share growing only in the proportion by which rounding to whole nanoseconds shortens the period. |
| LoraDuty.DutyCycleHoldsExactly | crates/ndn-sim-studies/src/lora.rs:134-149 | With an off-time no shorter than the exact one, on-air time in an interval is at most the limit times the interval and one frame more. |
| LoraDuty.OnePartIn | crates/ndn-sim-studies/src/lora.rs:134-149 | For a limit of one part in k the same in whole numbers: k times the on-air time is at most the interval and k frames more. |
| LoraDuty.ShareOfInterval | crates/ndn-sim-studies/src/lora.rs:134-149 | Frames at least a period apart fill at most the airtime's share of an interval, and one frame more. |
| LoraDuty.OffTime | crates/ndn-sim-studies/src/lora.rs:146-149 | Airtime and off-time together, times the limit, are the airtime for limits up to one, and never less than it. |
| LoraDuty.OffTimeExact | crates/ndn-sim-studies/src/lora.rs:142-149 | For a limit of one part in k the off-time is exactly k-1 airtimes. |
| LoraDuty.ShrinkingForgetsDuty | crates/ndn-sim-studies/src/lora.rs:347-353 | After any run, taking a node off the medium and putting it back clears its regulator: its next start is granted at once, whatever the limit. |
| LoraDuty.DroppedNodeIsFree | crates/ndn-sim-studies/src/lora.rs:362-372 | After any run, a node that a relocation drops is granted two starts at the same instant, whatever the limit. |
| LoraDuty.SpacedExactlyWhenCovered | crates/ndn-sim-studies/src/lora.rs:308-309 | With enforcement on and a positive period, a node's starts are a period apart in every run with given relocations exactly when the initial positions and every relocation cover the node. |
| LoraMedium.LoraMedium.BeginTx | crates/ndn-sim-studies/src/lora.rs:362-398 | Gated exactly before the next allowed time; otherwise old windows are pruned, the frame's window is added and the node's next allowed time is set. |
| LoraMedium.LoraMedium.Resolve | crates/ndn-sim-studies/src/lora.rs:402-437 | Comparing with the loudest interferer decides exactly whether the frame captures the receiver from every interferer; each loss is counted. |
| LoraMedium.LoraMedium.SetPositions | crates/ndn-sim-studies/src/lora.rs:347-353 | The regulator's table follows the number of nodes. |
| LoraAirtime.MoreSpreadingIsLonger | crates/ndn-sim-studies/src/lora.rs:98-114 | Airtime is strictly increasing in the spreading factor for every payload, preamble, bandwidth and coding rate, through the ceiling, the clamp at zero and the low-data-rate step. |
| LoraAirtime.BlocksLessThanHalve | crates/ndn-sim-studies/src/lora.rs:58-60 | A step up in spreading less than halves the coded blocks, rounding and the low-data-rate step included. |
| LoraAirtime.BlocksAreFewest | crates/ndn-sim-studies/src/lora.rs:106-112 | The coded blocks are the fewest whose bits hold the payload, header and checksum, fewer bits fitting where the low-data-rate mode is on. |
| LoraAirtime.SymbolsOnAir | crates/ndn-sim-studies/src/lora.rs:98-114 | The time on air is a whole and a quarter number of symbols: preamble, synchronisation, eight, and four and the coding rate for each block. |
| LoraAirtime.MorePayloadIsLonger | crates/ndn-sim-studies/src/lora.rs:98-114 | Airtime never falls as the payload grows, and rises when it grows by a block's bits. |
| LoraAirtime.MoreCodingIsLonger | crates/ndn-sim-studies/src/lora.rs:98-114 | More coding never shortens a frame, and lengthens it exactly when it has coded blocks. |
| LoraAirtime.MeetsExactlyWhen | crates/ndn-sim-studies/src/lora.rs:47-56 | The demodulation floor is -7.5 decibels for the fastest factor and 2.5 lower for each step. |
| LoraAirtime.AdrMinimisesAirtime | crates/ndn-sim-studies/src/lora.rs:125-132 | The factor selected has the least airtime among all that meet the margin; none is selected exactly when SF12 does not meet it. |
| ChannelDiversity.DescentNeverLoses | crates/ndn-sim-studies/examples/channel_diversity.rs:119-140 | However many pipes, passes and whatever the jammer, the rebalanced assignment's pairwise interaction and jam cost is no more than its seed's. |
| ChannelDiversity.MoveChangesPotential | crates/ndn-sim-studies/examples/channel_diversity.rs:58-81 | Moving one pipe changes the total cost by exactly the change in that pipe's own cost. |
| ChannelDiversity.CostIsInteraction | crates/ndn-sim-studies/examples/channel_diversity.rs:58-81 | The cost sensed from channel loads is the pipe's interaction with every other pipe and the jammer. |
| ChannelDiversity.SensedCostIs | crates/ndn-sim-studies/examples/channel_diversity.rs:58-81 | The cost sensed is a hundred for each other pipe on the channel, 95 for each on a channel next to it, and the jammer's 10800 on its own channel or 2760 next to it. |
| ChannelDiversity.CleanIsFree | crates/ndn-sim-studies/examples/channel_diversity.rs:56-70 | A channel costs nothing exactly when every other pipe and the jammer are at least two channels away. |
| ChannelDiversity.CleanIsTaken | crates/ndn-sim-studies/examples/channel_diversity.rs:58-81 | While such a channel is free a pipe takes one, and never one on or next to an occupied channel. |
| ChannelDiversity.ResponseNeverLoses | crates/ndn-sim-studies/examples/channel_diversity.rs:123-137 | A best response never raises the total, and keeps it only by staying or moving to a lower channel. |
| ChannelDiversity.PassIsProgress | crates/ndn-sim-studies/examples/channel_diversity.rs:122-138 | A pass that changes anything makes the assignment cheaper, or as cheap on lower channels: passes never cycle. |
| ChannelDiversity.UnchangedIsLocalOptimum | crates/ndn-sim-studies/examples/channel_diversity.rs:122-138 | A pass that changes nothing has reached an assignment no pipe can improve by moving alone. |
| ChannelDiversity.DescentReachesOptimum | crates/ndn-sim-studies/examples/channel_diversity.rs:119-140 | From every assignment some number of passes reaches one that further passes leave alone and no pipe can improve by moving alone. |
| ChannelDiversity.SenseAvoid | crates/ndn-sim-studies/examples/channel_diversity.rs:95-116 | Each pipe joins on the channel cheapest given the pipes before it, the lowest of equals. |
| ChannelDiversity.Rebalance | crates/ndn-sim-studies/examples/channel_diversity.rs:122-138 | One pass in place is the pipes' best responses in turn, each to what the others then have. |
| ChannelDiversity.SoftState | crates/ndn-sim-studies/examples/channel_diversity.rs:118-140 | Six passes from the sensed assignment, costing no more than it. |
| ChannelDiversity.BestChannel | crates/ndn-sim-studies/examples/channel_diversity.rs:127-135 | The first channel of least cost. |
| Bfs.Search | crates/ndn-sim-studies/examples/mobility_study.rs:55-82 | A shortest path is returned if there is any path, and nothing otherwise. |
| Bfs.NearIsSeen | crates/ndn-sim-studies/examples/mobility_study.rs:62-79 | Whatever a walk reaches in no more hops than the node being settled is away has been seen, at that distance or less. |
| Bfs.TracePath | crates/ndn-sim-studies/examples/mobility_study.rs:68-75 | Following predecessors back gives a path as long as the search depth. |
| Mobility.Forward | crates/ndn-sim-studies/examples/mobility_study.rs:125-145 | One epoch: the committed route delivers exactly when it is not down and a path exists; it breaks exactly when some hop of it is gone, and stays otherwise; an intact route is never down, so the branch commented unreachable is. |
| Mobility.Trial | crates/ndn-sim-studies/examples/mobility_study.rs:112-146 | For every graph sequence stateless forwarding delivers in exactly the connected epochs, the committed route in those of them in which no break is being repaired; each epoch's route is the last one's until a hop is gone, then a shortest path found when it next delivers. |
| Mobility.MissedAreRepairs | crates/ndn-sim-studies/examples/mobility_study.rs:112-146 | What the committed route misses is at most the repair time, in epochs rounded up, for each break, and it never delivers more. |
| Mobility.RepairedWhen | crates/ndn-sim-studies/examples/mobility_study.rs:134-140 | A route is allowed again exactly after the repair time rounded up to epochs. |
| Mobility.Run | crates/ndn-sim-studies/examples/mobility_study.rs:108-148 | Summed over the pairs: delivered by stateless forwarding less delivered by committed routes is at least zero and at most the repair epochs times the breaks. |

## Left out

- JSON, names, signatures and the string handling of `check` in `element.rs`: operations are taken decoded, with writers and digests as ordered integers; the basis, `after_ms` and the claimed writer of an operation do not reach the merge.
- The reason text of a NotCounted answer, and the order of the lists that the source keeps sorted (locks, heads, variants, newly counted versions): they are sets and maps here.
- ElementApplied.Applied.WriteEdits: one edit is applied by a function on the slot map rather than by the closure that mutates it.
- `Gpsr`, control-overhead estimates, average hop counts, route categories and the reactive protocols, whose tables are the shortest-path ones.
- ShortestPath.PopLeast: the binary heap is a sequence from which the least entry is taken.
- Geographic.GreedyIsLoopFree: distances are any real function of two nodes; the integer metric column is not modelled.
- IpDevice.Network.Carry: forwarding is one hop after another rather than spawned tasks over byte channels; loss, delay, payload and byte counters, and the LoRa branch of sending, are not modelled.
- IpDevice.Network.Ping: the source's echo reply is stated as `ReplyReturns` rather than carried by the object, and flow statistics are left out.
- Wi-Fi and mobility reconnection, access-point association, the background router and telemetry of `ip.rs`.
- Dissemination.Disseminate: the delivery ratio is the set of decoded nodes; the placement of nodes, the seed and the random generator are inputs.
- Relay.Capacity: holds for any number of slots; the source's 20 000 slots are one case of it.
- `main` functions, tables, JSON output and the engine-backed measurements of the examples.
- LoraMedium.LoraMedium.BeginTx: the mutex is left out, a call being one step; identifiers do not wrap.
- LoraDuty.DutyCycleHolds: the rounding of the off-time to whole nanoseconds is a parameter, the slack, since the source rounds through floating point.
- LoraAirtime.MoreSpreadingIsLonger: exact arithmetic; the rounding of seconds to a `Duration` is not modelled.
- Device classes, link cost, demodulation curves and propagation of `lora.rs`.
- ChannelDiversity.SoftState: costs only; goodput on the engine is not modelled, nor are the naive, separated and oracle assignments, which are direct maps.
- Mobility.Run: graphs are inputs, so waypoint positions and disc ranges are not modelled; ratios and hop averages are left out.
