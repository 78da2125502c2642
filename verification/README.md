# Verified model of libp2p-gossip-bench

This project models the algorithms and protocols of the gossip benchmark in Dafny and proves what they are
for: the random topology builder and the super-cluster built on it, the latency-injecting connection and its
clock-synchronisation handshake, the observer list and the message loops that run on it, the parallel runner,
the connection rendezvous and the log aggregation.

`dafny verify dfyconfig.toml` checks everything.

## How the model is laid out

| file | what it holds |
|---|---|
| `Common.dfy` | options, time units, lists without duplicates and sizes of sets |
| `Graph.dfy` | connection lists read as graphs on ports: degree, adjacency, simple graphs, walks, connectedness |
| `Ring.dfy` | the ring prelude of the random topology |
| `TopologyInvariant.dfy` | the invariants of the builder, on values, and what each kind of step does to them |
| `RandomTopology.dfy` | the builder itself: peer objects, live slice, peer map, ring, main loop |
| `SuperCluster.dfy` | the super-cluster plan: two random topologies and round-robin bridges |
| `Runner.dfy` | the work partition of `MultiRoutineRunner` and all interleavings of its workers |
| `ConnectionHelper.dfy` | pair keys and the two-notification rendezvous, as steps |
| `Header.dfy`, `NetConn.dfy` | packet headers and the connection objects |
| `LatencyPackets.dfy`, `LatencyRuns.dfy` | the packets of one Write; whole runs of Writes and Reads and when they lose no byte |
| `SendClock.dfy`, `LatencyReads.dfy`, `LatencyTiming.dfy` | the exact send clock; what every Read hands out; when bytes arrive and how the objects follow the runs |
| `Sync.dfy` | the latency-measuring handshake as steps of two parties over two FIFO channels |
| `Observer.dfy`, `ObserverSteps.dfy` | the observer as heap objects, and under concurrency with `update` split into its two writes |
| `MessageLoop.dfy` | leader choice and both message loops, run on top of `ObserverSteps` |
| `Stats.dfy` | the aggregation fold and the definition it computes |
| `StatsSummary.dfy` | the summary counters, in terms of the log |
| `Arithmetic.dfy` | integer division |

Random choices are arbitrary choices in range, so every result about the builder holds for every sequence of
them. `now` and `sleep` are a clock that never goes back and a sleep that lasts at least its argument. Goroutines are
steps that interleave freely.

## What comes out

- **Builder.** For every list of agents with different ports: the plan starts with the ring, never exceeds
  `Count`, is a simple graph on the given agents, gives no connection of the random phase to a peer at
  `MaxPeers` (although the code tests only the destination), and if it stops short of `Count` no further
  connection was possible. The main loop ends within n² iterations. The key is one invariant (`Covered`): a pair
  on which something is left to do has both peers live and in each other's candidate list; and one dichotomy
  (`Uniform`): all live peers can be used, or none.
- The code comment calls `MaxPeers` the maximum number of connected peers. The ring ignores it; the maximum holds
  exactly when min(ring connections, 2) is at most `MaxPeers` (`CapHoldsIff`).
- The port -1, which `PopRandomPortID` returns for an empty list, needs no precondition: an empty list is only popped
  when no live peer can be used, and then both branches of the test do the same.
- Connecting an empty plan divides by zero. The builder plans nothing exactly when `Count` is 0, there are fewer than
  two agents, or there is no ring and `MaxPeers` is 0 (`Topology.MakeConnections`).
- **Super-cluster.** Connecting an empty list divides by zero, so the plan goes through exactly with at least two
  validators and a number of non-validators other than one. Then all phases together are a simple graph, every
  non-validator has one bridge, bridge counts differ by at most one, and everybody is connected as soon as the
  validators number at most 1000001, however many non-validators there are. In each group no agent has more
  connections than its peering number (or the ring's two), and below a million connections no two agents under it are
  left unjoined.
- **Latency connection.** Bytes arrive unchanged and in order. This fails for a packet of 2^31 bytes or more, whose size
  field is read as another number: the reader leaves part of it in front of the next header. The exact condition is on
  MTU and payload lengths (`TransparentIff`): if every Write's packets stay below 2^31 bytes, the run stays transparent
  and so does every continuation by Reads; if one does not, some Reads break it. Read times that do not fit their
  field change no byte, so the time of arrival (`NothingArrivesEarly`) alone needs them to fit.
- **Send clock and Reads.** A packet ends exactly one transmission time after the later of the previous packet's end
  and its Write's start, and leaves at the first moment the backlog is at most the delay; on an idle connection a
  one-packet Write is readable at exactly start plus delay plus transmission time. A Read blocks exactly when all is
  read, else hands out exactly what it asked for or all that is there; as many Reads as bytes deliver everything.
- **Rendezvous.** A Wait returns if and only if its wait group had two notifications since its Add; a call stands still
  only for want of them. A notification panics exactly on a wait group already notified twice, and the notifications under way
  can end so exactly when three of them looked up one wait group since its Add.
- **Message loops.** At constant rate every agent sends exactly once for each update it reads; in the hotstuff loop
  agent 0 exactly for odd whole seconds, all others for even ones. A run that can not go on has been stopped, all agents
  have left, and each counter is the number of sends with its outcome.
- **Handshake.** Every interleaving ends. Each lag is the other side's stamp minus the time of the party's own ping, and
  a party is done exactly when its lags first meet the stop rule.
- **Aggregation.** The fold panics exactly on a duplicate send. The printed counts per duration and of incomplete
  messages are numbers of sends in the log, and together they make up all messages exactly when no message has more
  receptions by validators after its send than announced.

## Model

| member | source | states |
|---|---|---|
| RandomTopology.Topology.Populate | cluster/random_topology.go:32-110 | appends a plan that starts with the ring, holds at most `Count` connections between given agents, is a simple graph, respects the cap after the ring and is maximal if short of `Count`; at most n² iterations whatever the random choices |
| RandomTopology.Topology.Prepare | cluster/random_topology.go:33-59 | after initialisation and ring: count plus ring connections is `Count`, slice and map in step, and if connections are left all peers can be used or none, with every open pair covered |
| RandomTopology.Topology.Connect | cluster/random_topology.go:62-109 | the main loop adds at most the remaining count, keeps the graph simple and capped, ends maximal if it runs out of peers, in at most as many iterations as candidates plus live peers |
| RandomTopology.Round | cluster/random_topology.go:62-109 | one iteration keeps slice and map in step, all invariants, adds at most one connection and strictly lowers candidates plus live peers |
| RandomTopology.Choose | cluster/random_topology.go:63-73 | a destination that passes the test is another peer that lists the source, and both are below the cap |
| RandomTopology.Join | cluster/random_topology.go:82-108 | connecting records the pair of agents, drops exactly the peers that became unusable and keeps the invariants |
| RandomTopology.DeadEnd | cluster/random_topology.go:73-80 | a fruitless pop removes the source exactly when it can not be used |
| RandomTopology.DropUnusable | cluster/random_topology.go:96-107 | in-place compaction keeps exactly the usable agents, in order, and deletes the others from the map |
| RandomTopology.CreateRing | cluster/random_topology.go:44-59 | plans the first min(`Count`, ring size) ring connections and updates both peers of each |
| RandomTopology.NewPeers | cluster/random_topology.go:35-41 | one fresh peer per port with count zero and all other ports as candidates |
| RandomTopology.Peer.constructor | cluster/random_topology.go:120-133 | a new peer lists the ports of all other agents |
| RandomTopology.Peer.RemoveIndex | cluster/random_topology.go:148-152 | swap-remove deletes exactly that element |
| RandomTopology.Peer.RemovePortId | cluster/random_topology.go:139-146 | removes the first occurrence, or nothing if there is none |
| RandomTopology.Peer.PopRandomPortID | cluster/random_topology.go:154-162 | returns and removes any one candidate, or -1 from an empty list |
| RandomTopology.OthersListsTheRest | cluster/random_topology.go:120-127 | the initial candidate list holds every other port once |
| RandomTopology.RingStart | cluster/random_topology.go:37-41 | the initial peers satisfy the ring invariant with no connection |
| RandomTopology.RingAdvance | cluster/random_topology.go:49-58 | each ring connection keeps count plus candidates equal to n-1 and every unconnected pair listed |
| RandomTopology.RingIsUniform | cluster/random_topology.go:44-62 | after a complete or absent ring all peers look alike: all usable or none, and all open pairs covered |
| RandomTopology.DeadEndKeepsReady | cluster/random_topology.go:69-80 | popping a dead or unusable destination and possibly dropping the source keeps the invariants and lowers the measure |
| RandomTopology.UsableDestination | cluster/random_topology.go:69-83 | when the destination is usable every live peer is, so the untested source is below the cap and listed by the destination |
| RandomTopology.ConnectKeepsReady | cluster/random_topology.go:82-108 | connecting and pruning keeps the invariants and lowers the measure |
| RandomTopology.DegreeBound | cluster/random_topology.go:44-109 | every final degree is at most `MaxPeers` or equals the ring degree, which is at most 2 |
| RandomTopology.CapHoldsIff | cluster/random_topology.go:11-59 | all degrees are at most `MaxPeers` exactly without a ring or when min(`Count`, n-1, 2) is |
| RandomTopology.DegreeAtMost | cluster/random_topology.go:44-109 | no degree exceeds `MaxPeers`, or 2 if there is a ring and `MaxPeers` is less |
| RandomTopology.ShortPlanIsMaximal | cluster/random_topology.go:62-109 | with fewer than `Count` connections any two peers are joined or one has at least `MaxPeers` connections |
| RandomTopology.NeighboursAreJoined | cluster/random_topology.go:44-59 | with a ring, neighbours in the list are joined as far as `Count` allows |
| RandomTopology.Topology.MakeConnections | cluster/random_topology.go:17-30 | fails exactly when `Count` is 0, there are fewer than two agents, or there is no ring and `MaxPeers` is 0; otherwise connects a plan as `Populate` makes it |
| RandomTopology.EmptyPlanIff | cluster/random_topology.go:32-110 | a plan is empty in exactly these cases |
| RandomTopology.DegreesSumToTwiceTheEdges | cluster/random_topology.go:86-90 | degrees over all peers sum to twice the planned connections |
| RandomTopology.RingConnectsIff | cluster/random_topology.go:44-59 | with a ring the plan connects all peers exactly when `Count` is at least n-1 |
| TopologyInvariant.SwapRemoveRemoves | cluster/random_topology.go:148-152 | on a list without duplicates swap-remove removes that port and no other |
| TopologyInvariant.ConnectConsistent | cluster/random_topology.go:82-90 | connecting two live peers that list each other keeps the graph simple and every count equal to the degree |
| TopologyInvariant.ConnectCovered | cluster/random_topology.go:82-90 | connecting keeps every open pair covered |
| TopologyInvariant.PopDeadKeeps | cluster/random_topology.go:69-80 | popping a dead candidate loses no open pair |
| TopologyInvariant.DeleteUnusableKeeps | cluster/random_topology.go:74-77 | forgetting peers that can not be used loses no open pair |
| TopologyInvariant.StuckIsMaximal | cluster/random_topology.go:62-109 | when no live peer can be used, any two peers are connected or one is at the cap |
| TopologyInvariant.CandidatesAreMutual | cluster/random_topology.go:72-83 | candidate lists of live peers below the cap are symmetric |
| TopologyInvariant.CappedBoundsDegree | cluster/random_topology.go:62-109 | never connecting a peer at the cap bounds its degree by the cap or by what the ring gave it |
| TopologyInvariant.FuelFalls | cluster/random_topology.go:62-109 | dropping a candidate or a live peer strictly lowers the termination measure |
| TopologyInvariant.FuelBound | cluster/random_topology.go:62-109 | the measure is at most live peers times peers |
| Ring.PrefixDegree | cluster/random_topology.go:49-58 | a peer's ring degree is one as source plus one as its predecessor's destination |
| Ring.PrefixDegreeBound | cluster/random_topology.go:49-58 | the highest ring degree is min(k, 2) and the second peer has it |
| Ring.PrefixFresh | cluster/random_topology.go:45-51 | no ring connection is a loop or repeats an earlier pair |
| Ring.ConnectedIff | cluster/random_topology.go:44-59 | at least n-1 connections starting with the ring connect everybody, fewer leave the last peer alone |
| RandomTopology.ConnectionList.Add | cluster/connections_list.go:22-27 | appends exactly one connection |
| SuperCluster.SuperClusterTopology.MakeConnections | cluster/supercluster_topology.go:16-54 | fails exactly with fewer than two validators or exactly one non-validator, otherwise yields two ring-based plans and the bridges |
| SuperCluster.SplitAgents | cluster/supercluster_topology.go:18-26 | separates validators from the rest in order |
| SuperCluster.Bridge | cluster/supercluster_topology.go:46-50 | joins non-validator i to validator i mod k |
| SuperCluster.BridgeLoad | cluster/supercluster_topology.go:46-50 | validator j carries m/k bridges, one more if j is below m mod k |
| SuperCluster.PeeringIsMet | cluster/supercluster_topology.go:28-40 | both peering numbers reach the plan: in each group degrees are at most the number or 2, and below a million connections any two agents are joined or one has that many |
| SuperCluster.SelectDistinct | cluster/supercluster_topology.go:17-26 | the two groups are exactly the validators and the others |
| SuperCluster.BridgingIsBalanced | cluster/supercluster_topology.go:45-50 | every non-validator has exactly one bridge and bridge counts of validators differ by at most one |
| SuperCluster.PlanIsSimple | cluster/supercluster_topology.go:28-50 | the three phases together repeat no pair and have no loop |
| SuperCluster.PlanConnects | cluster/supercluster_topology.go:17-50 | with at most 1000001 validators all agents are connected |
| Runner.Partition | utils/utils.go:15-29 | fails exactly on an empty list, otherwise computes every worker's range |
| Runner.ExactlyOneOwner | utils/utils.go:15-29 | every index belongs to exactly one worker's range and ranges hold nothing else, negative counts included |
| Runner.WorkersAreEnough | utils/utils.go:15-18 | at most maxRoutines workers, none more than perRoutine items each need, and enough of them unless capped |
| Runner.RangesAreEven | utils/utils.go:15-29 | no range is larger than the first, which is the least size the workers need, at most perRoutine unless capped |
| Runner.StepInv | utils/utils.go:31-47 | every call and every counter increment keeps calls and counters in line with the workers' progress |
| Runner.NeverTwice | utils/utils.go:25-48 | at no moment of any run has an index been called twice |
| Runner.WorkerCan | utils/utils.go:31-47 | an unfinished worker can always count its last call or make the next one, with either outcome |
| Runner.StopsIffFinished | utils/utils.go:25-48 | a run can go on exactly while some worker is not done, for at most two steps per item |
| Runner.ExactlyOnce | utils/utils.go:12-55 | when all workers are done every index was called exactly once, success and failed are the outcomes and add up to the items |
| ConnectionHelper.KeyIff | agent/connection_helper.go:95-104 | keys are equal exactly for the same unordered pair of ports |
| ConnectionHelper.SimplePlanDistinctKeys | agent/connection_helper.go:95-104 | a simple plan uses a different key for every connection |
| ConnectionHelper.StepInv | agent/connection_helper.go:24-93 | every step that does not panic keeps each call's wait group in the map, counter plus notifications equal to two, and lookups equal to notifications plus those pending |
| ConnectionHelper.Rendezvous | agent/connection_helper.go:24-93 | for a simple plan, up to a panic: no Add is refused, no Wait misses its group, and Wait returns only after two notifications for its own key since its Add |
| ConnectionHelper.WakeIff | agent/connection_helper.go:41-73 | in every reachable state a waiting call can wake exactly when its wait group had two notifications under its own key since its Add, and two own steps then end it and free its key |
| ConnectionHelper.StandsStillIff | agent/connection_helper.go:24-73 | a call has no step of its own exactly when it has ended or its wait group had fewer than two notifications |
| ConnectionHelper.LookupIff | agent/connection_helper.go:75-93 | a notification finds a wait group exactly while the call of its key is between Add and Delete, and it is that call's |
| ConnectionHelper.DonePanicsIff | agent/connection_helper.go:75-82 | a Done panics exactly when its wait group was already notified twice since its Add |
| ConnectionHelper.PanicAheadIff | agent/connection_helper.go:75-93 | in every reachable state the notifications under way can end in a panic exactly when three or more looked up the same wait group since its Add |
| Header.BigEndianRoundTrip | latency/network_latency.go:121-122 | k big-endian bytes carry every number below 256^k |
| Header.MostSignificantFirst | latency/network_latency.go:121-122 | the first byte is the most significant |
| Header.Layout | latency/network_latency.go:94-98 | the first eight bytes carry the read time, the last four the size |
| Header.RoundTripIff | latency/network_latency.go:95-139 | a header survives the wire exactly when time and size fit 64 and 32 bits |
| NetConn.Conn.constructor | latency/network_latency.go:80-83 | a new connection has an empty buffer and the network's latency as delay |
| NetConn.Conn.SendPacket | latency/network_latency.go:106-129 | one packet: its size, the wait for congestion, the send clock and the bytes on the wire |
| NetConn.Conn.Write | latency/network_latency.go:100-132 | puts exactly the fragments of the payload on the wire, advances the send clock, asks to sleep exactly as long as that and returns the payload's length |
| NetConn.Conn.Read | latency/network_latency.go:134-148 | blocks, drains the buffer, or takes one packet and sleeps until exactly its read time |
| LatencyPackets.SendFragments | latency/network_latency.go:105-112 | fragments concatenate to the payload, none is empty or above a positive MTU |
| LatencyPackets.FragmentsAreFull | latency/network_latency.go:105-112 | every packet of a Write but the last has exactly MTU bytes, and without an MTU there is one packet |
| LatencyPackets.PktTimeIs | latency/network_latency.go:300-305 | a packet's time is the whole nanoseconds that its bytes take at 128 bytes per kilobit, 0 without a limit |
| LatencyPackets.PacketSurvivesIff | latency/network_latency.go:121-142 | the reader always finds a packet, and finds its data and what follows it unchanged exactly when it is below 2^31 bytes |
| LatencyPackets.SendSmallIff | latency/network_latency.go:105-112 | all packets of a Write stay below 2^31 bytes exactly when its first one does, which MTU and payload length tell |
| LatencyRuns.BigPacketBreaks | latency/network_latency.go:95-148 | a Read that reaches a packet of 2^31 bytes or more does not block and the connection is no longer transparent |
| LatencyRuns.TransparentIff | latency/network_latency.go:100-148 | a run and all its continuations by Reads keep written bytes equal to read bytes, read buffer and payloads in flight, in order, exactly when every Write's packets stay below 2^31 bytes |
| LatencyRuns.FittingRunStays | latency/network_latency.go:100-148 | the same for runs whose Writes fit, at every moment and with no condition on times |
| LatencyRuns.UsualMtuIsTransparent | latency/network_latency.go:100-148 | with a positive MTU below 2^31 every run is transparent |
| LatencyTiming.SendersAreTimed | latency/network_latency.go:100-121 | over whole runs every packet ends at least its transmission time after the one before and after its Write's start, and back-pressure holds |
| SendClock.SendClockIsExact | latency/network_latency.go:100-121 | over whole runs every packet ends exactly its transmission time after the later of the previous packet's end and its Write's start, and leaves at the earliest sender clock at which the backlog is at most the delay |
| SendClock.PacketsOfAWrite | latency/network_latency.go:100-112 | the packets a Write adds carry its start and make up its payload |
| SendClock.IdleDelayIsExact | latency/network_latency.go:100-128 | on an idle connection a one-packet Write puts a header on the wire whose read time is exactly start plus delay plus transmission time |
| LatencyReads.ReadHandsOut | latency/network_latency.go:134-148 | a Read after a fitting run blocks exactly when all is read, else hands out the next bytes written, as many as asked for or available, and keeps the rest |
| LatencyReads.ReadsDeliverAll | latency/network_latency.go:134-148 | as many Reads of positive size as bytes are outstanding deliver everything written |
| LatencyTiming.ReadOwesIff | latency/network_latency.go:134-141 | a Read that takes a packet owes a sleep until exactly the packet's end plus the delay if and only if that time fits the header; a Read from the buffer owes none |
| LatencyTiming.ReadTimesAreSpaced | latency/network_latency.go:120-121 | a later packet becomes readable at least its own transmission time after any earlier one |
| LatencyTiming.BacklogIsBounded | latency/network_latency.go:113-121 | with a bandwidth limit the backlog after a packet is at most delay plus its transmission time |
| LatencyTiming.RunsAreTraced | latency/network_latency.go:134-148 | the deliveries of a run concatenate to the bytes read, each is a slice of one packet's data, and the buffer is the rest of the last packet taken |
| LatencyTiming.NothingArrivesEarly | latency/network_latency.go:100-148 | every delivered byte lies in a packet and is delivered no earlier than its Write's start plus delay plus that packet's transmission time |
| LatencyPackets.WriteRoundsDown | latency/network_latency.go:300-305 | fragments together take at most the whole payload's time and fall short by less than a nanosecond per cut |
| LatencyTiming.TrackedWrite | latency/network_latency.go:100-132 | Write on the connection object is the Write step of the runs |
| LatencyTiming.TrackedRead | latency/network_latency.go:134-148 | Read on the connection object is the Read step of the runs and returns what the run says was read |
| Sync.StepInv | latency/network_latency.go:183-230 | every step of a party keeps at most one unanswered ping, one stop message, the attempt limit and the sum of lags |
| Sync.StepWorks | latency/network_latency.go:183-230 | every step strictly lowers the work left |
| Sync.NoDeadlock | latency/network_latency.go:183-230 | if neither party can move both have finished and both channels are empty |
| Sync.StuckMeansWaiting | latency/network_latency.go:192-214 | an unfinished party is stuck only on an empty inbox, so no answer reaches a party that has not asked and the average never divides by zero |
| Sync.FinishedHasEmptyInbox | latency/network_latency.go:183-230 | a finished party leaves nothing unread |
| Sync.EveryRun | latency/network_latency.go:178-230 | every interleaving makes at most 50 attempts and has at most one unanswered ping per side, and takes at most 1006 steps |
| Sync.EveryMaximalRun | latency/network_latency.go:178-230 | a run that can not go on has finished after 10 to 50 attempts per side with the average of exactly the measured lags |
| Sync.LagsAndStopAreExact | latency/network_latency.go:183-229 | each lag is the other side's stamp on the party's ping of that number minus the time of that ping, and a party is done exactly when its lags meet the stop rule, for the first time with the last one |
| Sync.TruncatedIs | latency/network_latency.go:214 | the average is rounded toward zero |
| Observer.State.Update | observer/state.go:22-26 | links a fresh open node and closes the old one |
| Observer.Subject.constructor | observer/subject.go:23-25 | a new subject has its initial value as history |
| Observer.Subject.Value | observer/subject.go:27-31 | the latest value |
| Observer.Subject.Update | observer/subject.go:33-37 | extends the history by one value and keeps all earlier nodes |
| Observer.Subject.Observe | observer/subject.go:39-43 | a new stream stands at the latest value |
| Observer.Stream.HasNext | observer/stream.go:46-53 | true exactly when an update lies beyond the stream |
| Observer.Stream.Next | observer/stream.go:41-59 | moves to the very next update and returns it |
| Observer.DrainAll | observer/subject_test.go:111-128 | draining a stream returns exactly the updates after its position, in order |
| ObserverSteps.StepsAreSafe | observer/state.go:22-26 | in a reachable state no step closes a channel twice or follows a nil pointer |
| ObserverSteps.StepInv | observer/state.go:22-26 | each of the two writes, the lock steps and every reader step keep list and readers consistent |
| ObserverSteps.ListSafety | observer/stream.go:46-59 | a closed channel has a next node, the list is acyclic with one open tail, and every stream reaches it |
| ObserverSteps.UpdatePublishes | observer/state.go:22-26 | an update's writes are possible one after another and publish exactly one more value |
| ObserverSteps.NoUpdateLostDuplicatedOrReordered | observer/subject.go:33-43 | a stream made after m updates that advanced k times saw exactly updates m+1 to m+k; HasNext is true exactly while published updates are unseen |
| MessageLoop.PickLeader | cluster/message_loop.go:99-102 | the in-place removal leaves leader and rest a partition of the agents |
| MessageLoop.MovesAreSafe | cluster/message_loop.go:117-120 | no move panics; the value read after advancing is always a duration |
| MessageLoop.MoveGood | cluster/message_loop.go:104-171 | every move of ticker and agents keeps streams separate and sends unique, exactly those called for, and counted |
| MessageLoop.ConstantRateSends | cluster/message_loop.go:40-66 | every agent has sent exactly once for each update its stream returned, and for nothing else |
| MessageLoop.HotstuffSends | cluster/message_loop.go:104-186 | agent 0 has sent exactly once for each update it read whose whole second is odd, every other agent for those whose whole second is even, negative times included |
| MessageLoop.TickPublishes | cluster/message_loop.go:205-216 | a tick of a running loop becomes one more published update |
| MessageLoop.AgentCan | cluster/message_loop.go:43-66 | an agent can subscribe when the lock is free, read exactly while a published update is unread, count at once, and leave exactly when stopped |
| MessageLoop.EveryMaximalRun | cluster/message_loop.go:69-77 | a run that can not go on has been stopped, all agents have left and each counter is the number of sends with its outcome |
| MessageLoop.LeaderAndRestAlternate | cluster/message_loop.go:117-169 | the leader and the others never send for the same update |
| MessageLoop.CountersAddUp | cluster/message_loop.go:126-180 | when all agents have left, published and failed are the numbers of sends with that outcome and together all sends |
| Stats.Aggregator.AddStatistics | cmd/stats/commands/stats_cmd.go:119-169 | one log line changes the table as specified or reports the duplicate send |
| Stats.Aggregator.IncrementAll | cmd/stats/commands/stats_cmd.go:161-212 | increments the histogram at every threshold the delay meets |
| Stats.Aggregator.Process | cmd/stats/commands/stats_cmd.go:105-114 | the whole log leaves the fold's table or panics exactly when the fold does |
| Stats.FoldMeetsDefinition | cmd/stats/commands/stats_cmd.go:119-169 | per message: counts, delay sums, latest times and histogram of exactly the receptions logged after its send, a threshold counting as often as it is listed |
| Stats.FoldCountsMessages | cmd/stats/commands/stats_cmd.go:124-132 | the message number is the number of entries |
| Stats.PanicsIffDuplicate | cmd/stats/commands/stats_cmd.go:120-124 | the fold panics exactly on a log that sends a message twice |
| Stats.HistogramIsCumulative | cmd/stats/commands/stats_cmd.go:149-166 | the histogram is monotone in the threshold and bounded by the validators and nodes that received |
| StatsSummary.Summarize | cmd/stats/commands/stats_cmd.go:243-264 | complete messages per duration and in total, incomplete messages and the largest number of missing validators |
| StatsSummary.CountIsSends | cmd/stats/commands/stats_cmd.go:214-264 | counting entries in any order is counting the sends of the log they stand for |
| StatsSummary.SummaryAddsUpIff | cmd/stats/commands/stats_cmd.go:254-264 | complete plus incomplete messages are the message number exactly when no message has more receptions by validators, logged after its send, than announced |
| StatsSummary.PrintStats | cmd/stats/commands/stats_cmd.go:214-264 | on the table of any log, iterated in any order: counts per duration and of incomplete messages are numbers of sends in the log, their total is the message number exactly when no message exceeds the announced validators, and the largest number missing is that of the log |

## Left out

- libp2p hosts, gossipsub, transports, dialers, listeners, command lines, logging, printing and JSON decoding.
- Probability of random choices; they are arbitrary.
- Errors of the inner connection in Write and Read; a Read that would wait for more bytes is one blocked call that
  changes nothing until a whole packet is there.
- Overflow of 64-bit times, durations and of the product in `pktTime`; only the header fields wrap.
- LatencyTiming.NothingArrivesEarly: the packets' read times are taken to fit the 64-bit field; a read time that wraps
  is no longer waited for.
- SendClock.SendClockIsExact: the Writes of one side come one after another, as its clock never goes back; the code has
  no lock for concurrent Writes.
- NetConn.Conn.Read: a packet whose announced size is not positive is taken as empty.
- The initial ping exchange of the handshake (latency/network_latency.go:166-175) and the final choice of the delay
  (lines 231-238); clock readings are taken to be non-zero, as zero is the protocol's own marker.
- ConnectionHelper.Rendezvous: locks, map and wait groups are steps on values, one owner per key; two owners of one key
  can overwrite each other between the two lock sections of Add.
- `WaitWithTimeout`, `Disconnect`, `LinearTopology`, city and latency look-up.
- Prompt stopping on a cancelled context: the code does not stop there.
- The 32-bit range of the runner's counters and its progress output.
- MessageLoop.LeaderAndRestAlternate: seconds are exact; the code goes through a float64, which is the same for every agent.
- Whether a message is aggregated (`shouldAggregate`, `AggregateStats`); the log holds the lines that were.
- Stats.HistogramIsCumulative: thresholds are taken to be different; a second call of `RunStats` appends them again, and
  FoldMeetsDefinition says what is counted then.
- The percentages and the sorting in `printStats`.
