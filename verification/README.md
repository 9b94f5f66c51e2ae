# Mesh collector and credential vault: a verified model

A Dafny model of the stateful core of akroasis: the Meshtastic collector
(`kerykeion`) and the credential vault (`kryphos`), with proofs over every input,
every run or every interleaving.

| module | what it models |
|---|---|
| `Codec` | the serial frame decoder, which resynchronises after corruption, and the encoder |
| `TopologySpec`, `TopologySnapshot`, `Connectivity`, `MeshTopology` | the capped link graph: eviction, pruning, snapshots, weak components |
| `Outbound`, `OutboundRuns` | the priority queue with in-flight tracking, and whole runs of it |
| `StoreForward` | bounded per-destination queues with priority eviction |
| `Delivery` | message lifecycle and per-destination counters |
| `Router`, `RouterRuns` | the three above driven together, routing ACK/NAK, and whole runs of the router |
| `VaultSpec`, `VaultThreads`, `EntryAad`, `Vault` | credential lifecycle, audit-before-write, locking, identity binding |
| `Bridge` | gateway health, selection and failover |
| `Handshake` | the config handshake and the bounded node database |

Each component has a specification on values, a class or method written in the
source's own imperative form and proved against it, and theorems about the
specification. `dafny verify dfyconfig.toml` checks the whole project.

Conventions. The clock is a parameter in milliseconds. Iteration over a hash map
is an arbitrary choice of the next key, so every result holds for every iteration
order, and operations that break ties that way are specified as relations. The
node and link caps are parameters (at least two nodes, at least one link). Protobuf
is a parameter: a partial function from bytes to messages. A signal-to-noise ratio
is a real number or "non-finite"; JSON writes the latter as null, refuses null on
reading, and reads a number beyond the range of a 32-bit float as an infinity. The AEAD (section 2.8 of RFC 8439) is ideal: a
ciphertext opens only under the associated data it was sealed with. The keyed
hashes that derive store keys and audit references are taken as injective, so
entries and audit records are keyed by name.

Where code and comments disagree the model follows the code: a comment at
`crates/kerykeion/src/codec.rs:152` gives the packet limit as 4096 (the constant is
512), and `crates/kerykeion/src/topology.rs:338` speaks of a breadth-first search
(the code pops a stack).

What the code does not give unconditionally is stated with its exact condition and
an input that fails it:

- the delivery counters add up exactly under a guard
  (`Delivery.BalanceIsKeptIffGuarded`, and per router call `Router.SendBalance`,
  `Router.NakBalance`, `Router.PopBalance`; a run that breaks them is in
  `Router.LateNakMiscounts`);
- a per-destination queue stays within its bound exactly when the bound is positive
  (`StoreForward.BoundHoldsIffPositive`);
- a refused send leaves the state as it was exactly when it opens no empty queue for
  a new destination (`Router.RefusedSendLeavesNoTrace`; with queues of size zero it
  does, `Router.RefusedSendCanOpenAQueue`);
- bringing a node online loses no message exactly when its packets decode and the
  deferred ones fit (`Router.OnlineConservesIff`; a restored queue above its bound
  loses one in `Router.OverfullQueueLoses`);
- a topology survives a restart exactly when every SNR in it is finite
  (`TopologySnapshot.SnapshotRoundTrip`; only a loaded document can bring in one that
  is not, `TopologySnapshot.RunsStayFinite` and
  `TopologySnapshot.LoadedInfinityBlocksRestart`);
- merging a handshake's report gives the database the handshake wrote exactly when
  nothing new came after the first records, as many as the cap
  (`Handshake.ConnectAndMerge`; two nodes that show it are in
  `Handshake.RecordsPastTheCapAreDropped`);
- a stored secret opens at an entry exactly when it is bound to that entry, or when
  both it and the entry are legacy (`Vault.SecretOpensIff`).

## Model

| member | source | states |
|---|---|---|
| Codec.ChunkingIsInvisible | crates/kerykeion/src/codec.rs:34-130 | however arrivals and decoder calls are interleaved, the messages delivered plus those drained at the end, and the leftover, are those of one decode of the whole stream |
| Codec.ScheduleInvariant | crates/kerykeion/src/codec.rs:34-130 | the same at every moment of a schedule and for every continuation of the stream |
| Codec.DrainedSplit | crates/kerykeion/src/codec.rs:34-130 | draining early and carrying on with the leftover equals draining late |
| Codec.WireRoundTrip | crates/kerykeion/src/codec.rs:34-162 | encoded frames interleaved with garbage (magic pairs allowed if their length is impossible, even cut off inside the header) deliver exactly the non-empty parseable payloads in order, and decoding continues with the following bytes as if they stood alone |
| Codec.GarbageIsSkipped | crates/kerykeion/src/codec.rs:41-90 | resynchronisation never eats a byte of the frame behind the garbage |
| Codec.OversizeCostsTwoBytes | crates/kerykeion/src/codec.rs:81-90 | an impossible length discards the two magic bytes and nothing more |
| Codec.NoneLeavesAWaitingBuffer | crates/kerykeion/src/codec.rs:34-103 | a call without a message leaves at most 515 bytes, on which a repeated call changes nothing |
| Codec.Decode | crates/kerykeion/src/codec.rs:34-130 | the decode loop terminates, never fails, and leaves the message and buffer of the specification |
| Codec.Encode | crates/kerykeion/src/codec.rs:136-162 | appends exactly one frame (0x94, 0xC3, the length high byte first, the payload), or refuses a payload over 512 bytes and appends nothing |
| TopologySpec.UpdatesLinkKeeps | crates/kerykeion/src/topology.rs:141-193 | a finite observation ends with both endpoints and their link present even when it evicts, alters no other surviving link, and keeps both caps; a non-finite one changes nothing |
| TopologySpec.UpdatesLinkWithRoom | crates/kerykeion/src/topology.rs:141-193 | when everything fits, only that link changes |
| TopologySpec.TwoAdmissionsShape | crates/kerykeion/src/topology.rs:62-85 | admitting the second endpoint never evicts the first |
| TopologySpec.StalePruningIsExact | crates/kerykeion/src/topology.rs:196-225 | pruning keeps exactly the nodes with a link observed within the timeout (all while the clock is below it) and the links between them, unaltered; so no link observed within the timeout is lost |
| TopologySpec.StalePruningIsIdempotent | crates/kerykeion/src/topology.rs:196-225 | a second pass with the same cutoff does nothing |
| TopologySpec.StaleLinksAreExact | crates/kerykeion/src/topology.rs:228-247 | exactly the links observed within the timeout stay, unaltered, and every node |
| TopologySpec.AdmissionEvictsTheColdest | crates/kerykeion/src/topology.rs:75-125 | a node is evicted exactly when a new one finds the table full: one, unprotected, none of whose links is fresher than the freshest of any other unprotected node; its links go and no others |
| TopologySpec.ObservationEvictsTheColdest | crates/kerykeion/src/topology.rs:163-192 | the link gets the SNR, the time and one more packet, up to the counter's limit; a link is evicted exactly when a new pair finds the table full, observed no later than any other |
| TopologySnapshot.SnapshotRoundTrip | crates/kerykeion/src/topology.rs:432-540 | if every SNR is finite, restoring what was saved, written in any order, gives the same nodes and links with the same SNR and packet count, stamped with the restore time; if one is not, the saved document is refused |
| TopologySnapshot.RestartIsAFixedPoint | crates/kerykeion/src/topology.rs:432-540 | a first restart succeeds exactly when every SNR is finite, and then so does every later one, changing nothing but the time stamp |
| TopologySnapshot.DocumentRoundTrip | crates/kerykeion/src/topology.rs:452-475 | a written snapshot reads back as itself if every SNR is finite and is refused otherwise |
| TopologySnapshot.RunsStayFinite | crates/kerykeion/src/topology.rs:141-155 | in every run whose loaded documents hold no number beyond the float range, every stored SNR is finite |
| TopologySnapshot.RunsSurviveRestart | crates/kerykeion/src/topology.rs:141-540 | every state of such a run is restored by a restart |
| TopologySnapshot.LoadedInfinityBlocksRestart | crates/kerykeion/src/topology.rs:498-538 | a run of one load whose well-formed result can be saved and never restored |
| TopologySnapshot.LoadsWhenItFits | crates/kerykeion/src/topology.rs:470-540 | for a snapshot of any shape whose nodes fit, repeated pairs fold (last SNR, summed counts) and nothing is evicted |
| TopologySnapshot.FoldedIsLastAndSum | crates/kerykeion/src/topology.rs:511-538 | a repeated pair becomes one link with the SNR listed last and the sum of the counts, up to the counter's limit |
| TopologySnapshot.LoadedFromPrefix | crates/kerykeion/src/topology.rs:495-510 | of a snapshot larger than the caps only the first nodes and the first links count |
| TopologySnapshot.LoadedIsWellFormed | crates/kerykeion/src/topology.rs:459-540 | whatever snapshot was parsed, the restored graph is within both caps with links between tracked nodes |
| TopologySnapshot.RunsStayWellFormed | crates/kerykeion/src/topology.rs:75-247 | every state of every run of add, update, pruning and load keeps both caps and links between tracked nodes |
| Connectivity.SharedGroupDecides | crates/kerykeion/src/topology.rs:398-407 | two nodes share a component exactly when an undirected path joins them |
| Connectivity.GroupIsComponent | crates/kerykeion/src/topology.rs:347-375 | a neighbour-closed group reached from one start is exactly the set of nodes connected to each of its members |
| MeshTopology.RepresentedGraphIsSimple | crates/kerykeion/src/topology.rs:39-42 | under the class invariant edges join live slots, no ordered pair has two edges, and slots and links are equally many |
| MeshTopology.Topology.AddNodeProtecting | crates/kerykeion/src/topology.rs:75-125 | finds or inserts a node, evicting at most the coldest unprotected one, keeping index and graph in bijection |
| MeshTopology.Topology.ColdestNode | crates/kerykeion/src/topology.rs:93-125 | the victim's freshness is minimal among all unprotected nodes; none only if all are protected |
| MeshTopology.Topology.ColdestEdge | crates/kerykeion/src/topology.rs:128-138 | the victim was observed no later than any other edge |
| MeshTopology.Topology.UpdateLink | crates/kerykeion/src/topology.rs:141-193 | implements the link update and keeps the class invariant |
| MeshTopology.Topology.RemoveStaleNodes | crates/kerykeion/src/topology.rs:196-225 | keeps exactly the nodes with a link observed within the timeout, all while the clock is below it |
| MeshTopology.Topology.RemoveStaleLinks | crates/kerykeion/src/topology.rs:228-247 | keeps exactly the links observed within the timeout, and every node |
| MeshTopology.Topology.ConnectedComponents | crates/kerykeion/src/topology.rs:333-389 | terminates with a partition of exactly the tracked nodes into non-empty groups without repetition, two nodes sharing a group iff a path joins them |
| MeshTopology.Topology.Explore | crates/kerykeion/src/topology.rs:347-371 | the stack search visits exactly a neighbour-closed set of nodes connected to its start |
| MeshTopology.Topology.AppendSingletons | crates/kerykeion/src/topology.rs:378-386 | adds a group for exactly the unvisited slots, so nothing when all were visited |
| MeshTopology.Topology.IsPartitioned | crates/kerykeion/src/topology.rs:399-407 | true exactly when one of the nodes is untracked or no undirected path joins them |
| MeshTopology.Topology.Save | crates/kerykeion/src/topology.rs:432-457 | writes every node and every link exactly once |
| MeshTopology.Load | crates/kerykeion/src/topology.rs:470-540 | refuses a document that does not parse, and otherwise builds one of the graphs the restore rules allow, with the class invariant |
| MeshTopology.Restart | crates/kerykeion/src/topology.rs:427-540 | save followed by load gives the same topology, restamped, if every SNR is finite, and no topology otherwise |
| Outbound.PoppedIsFirst | crates/kerykeion/src/outbound.rs:169-184 | what is handed out is unexpired, everything ahead of it had expired, nothing unexpired has a higher priority, and nothing behind it is touched |
| Outbound.InsertIsFifo | crates/kerykeion/src/outbound.rs:153-164 | each priority is a first-in first-out queue: a new message joins the end of its own and changes no other |
| Outbound.InsertSorted | crates/kerykeion/src/outbound.rs:153-164 | insertion keeps the queue in non-increasing priority |
| Outbound.FreshIsUnexpired | crates/kerykeion/src/outbound.rs:280-284 | expiry keeps exactly the unexpired messages |
| Outbound.DrainedIffPast | crates/kerykeion/src/outbound.rs:280-284 | exactly the messages, waiting or in flight, whose TTL has not passed since they were first enqueued stay, unaltered |
| Outbound.OverdueIff | crates/kerykeion/src/outbound.rs:240-247 | exactly the messages in flight whose timeout has passed since they were sent are overdue |
| Outbound.TrackedIsInFlight | crates/kerykeion/src/outbound.rs:209-222 | a tracked message is in flight with its packet, retries and deadline, overdue exactly its timeout later; no other is affected |
| Outbound.OutboundQueue.Enqueue | crates/kerykeion/src/outbound.rs:153-164 | inserts in front of the first lower priority, or hands the message back when full |
| Outbound.OutboundQueue.NextToSend | crates/kerykeion/src/outbound.rs:169-184 | the popping loop implements the hand-out, and pops nothing when the in-flight limit is reached |
| Outbound.OutboundQueue.Retry | crates/kerykeion/src/outbound.rs:250-277 | leaves flight in every case; requeued with its original deadline only with retries and room left |
| Outbound.OutboundQueue.TrackInflight | crates/kerykeion/src/outbound.rs:209-222 | carries retries and deadline forward unchanged |
| Outbound.OutboundQueue.HandleAck | crates/kerykeion/src/outbound.rs:227-229 | takes exactly the acknowledged message out of flight and returns it |
| Outbound.OutboundQueue.DrainExpired | crates/kerykeion/src/outbound.rs:280-284 | removes exactly what has outlived its TTL, waiting or in flight |
| OutboundRuns.HandOutsAreBounded | crates/kerykeion/src/outbound.rs:169-277 | in every run with fresh ids no message is handed out more than `max_retries + 1` times |
| OutboundRuns.NeverHandedOutLate | crates/kerykeion/src/outbound.rs:169-284 | every packet handed out is that of its own send, before that send's time plus TTL, whatever the retries |
| OutboundRuns.PendingIsBoundedAndApart | crates/kerykeion/src/outbound.rs:153-284 | in every run pending is ordered, within `max_pending`, without repeated ids, and shares no id with in-flight |
| OutboundRuns.FirstComeFirstServed | crates/kerykeion/src/outbound.rs:153-284 | in every run the waiting messages of one priority stand in the order they were enqueued |
| OutboundRuns.WaitingAsSent | crates/kerykeion/src/outbound.rs:153-277 | in every run a waiting message has the packet and deadline of its own send, the priority it was sent with or after a retry its packet's own, and as many retries as hand-outs |
| OutboundRuns.OverdueSinceTracked | crates/kerykeion/src/outbound.rs:209-247 | in every run a message is overdue exactly when it is in flight and its timeout has passed since it was last tracked |
| OutboundRuns.NothingVanishes | crates/kerykeion/src/outbound.rs:153-284 | in every run a message disappears only if acknowledged, out of retries or of room for one, or past its TTL, and appears only by its own send |
| OutboundRuns.RunKeeps | crates/kerykeion/src/outbound.rs:153-284 | the invariant tying retry counts to hand-outs holds in every state of every run |
| StoreForward.KeepsTheLargest | crates/kerykeion/src/store_forward.rs:73-98 | for a positive bound, over any offers to one destination the queue holds as many as fit, offered = kept + lost as multisets, and nothing refused or evicted outranks anything kept |
| StoreForward.NoneKeepsOneHighest | crates/kerykeion/src/store_forward.rs:80-97 | with a bound of zero, offered = kept + lost, and one message of the highest positive priority is kept, none if no priority is positive |
| StoreForward.KeptWhole | crates/kerykeion/src/store_forward.rs:73-98 | a fresh queue keeps every message offered exactly when they are within the bound, or the bound is zero and there is one of positive priority |
| StoreForward.KeptInArrivalOrder | crates/kerykeion/src/store_forward.rs:78-98 | what is kept stands in arrival order |
| StoreForward.BoundHoldsIffPositive | crates/kerykeion/src/store_forward.rs:80-97 | the per-destination bound is kept for every queue and message exactly when it is at least one |
| StoreForward.StoreKeepsBounds | crates/kerykeion/src/store_forward.rs:73-98 | storing keeps the limit of 256 destinations and, for every bound, what a queue may hold under it: a positive bound, or under zero one message of positive priority |
| StoreForward.PruneKeepsBounds | crates/kerykeion/src/store_forward.rs:112-123 | pruning keeps both bounds |
| StoreForward.PrunedIffPast | crates/kerykeion/src/store_forward.rs:112-123 | exactly the messages whose TTL in seconds has not passed since they were stored stay, in order, and no empty queue |
| StoreForward.UnexpiredIsShorter | crates/kerykeion/src/store_forward.rs:112-120 | pruning keeps exactly the messages whose saturating expiry time lies ahead |
| StoreForward.RestoreKeepsDestinations | crates/kerykeion/src/store_forward.rs:173-200 | restoring one's own snapshot changes nothing, any snapshot keeps the limit of 256 destinations, and the per-destination bound survives exactly if the accepted snapshot keeps it |
| StoreForward.MessageStore.Store | crates/kerykeion/src/store_forward.rs:73-98 | implements the offer, including the refusal of a new destination at the limit |
| StoreForward.MessageStore.DrainFor | crates/kerykeion/src/store_forward.rs:101-106 | takes the whole queue of one destination and touches no other |
| StoreForward.MessageStore.PruneExpired | crates/kerykeion/src/store_forward.rs:112-123 | removes the expired messages and the queues this empties |
| StoreForward.MessageStore.Deserialize | crates/kerykeion/src/store_forward.rs:173-200 | takes over a parsed snapshot whole if its destinations are within the limit, and otherwise leaves the store unmodified |
| Delivery.BalanceIsKeptIffGuarded | crates/kerykeion/src/delivery.rs:124-237 | from a balanced tracker a step keeps attempted = acknowledged + failed + active for every destination if and only if it does not re-track an active record nor re-mark a finished one; the same holds with the clause that failures cover the retained losses |
| Delivery.GuardedRunsBalance | crates/kerykeion/src/delivery.rs:124-264 | every guarded run ends balanced, through duplicate and late acknowledgements, expiry and pruning |
| Delivery.LostIsCounted | crates/kerykeion/src/delivery.rs:150-174 | in a balanced tracker the saturating subtraction never saturates |
| Delivery.ExpiryKeeps | crates/kerykeion/src/delivery.rs:248-264 | expiring stale records keeps the balance and changes exactly those records |
| Delivery.RetentionKeepsTheYoung | crates/kerykeion/src/delivery.rs:226-264 | expiring and then pruning keeps exactly the records younger than the age, as they were, and counts each active one dropped as a failure of its destination |
| Delivery.PrunedIffAged | crates/kerykeion/src/delivery.rs:226-237 | exactly the finished records of the age go; no other and no counter changes |
| Delivery.MarkFollows | crates/kerykeion/src/delivery.rs:138-201 | each mark sets its status, time, hops or reason and moves the counters and the latency sum of that destination, and nothing else; on an unknown id it does nothing |
| Delivery.TrackFollows | crates/kerykeion/src/delivery.rs:124-135 | tracking starts a queued record and counts one attempt, and changes nothing else |
| Delivery.DeliveryTracker.ExpireStale | crates/kerykeion/src/delivery.rs:248-264 | expires exactly the active records created at least the age ago, each once, in some order |
| Delivery.DeliveryTracker.MarkAcknowledged | crates/kerykeion/src/delivery.rs:150-174 | implements the acknowledgement, a no-op on a record already acknowledged |
| Delivery.DeliveryTracker.Track | crates/kerykeion/src/delivery.rs:124-135 | records a queued message and counts the attempt |
| Delivery.DeliveryTracker.MarkSent | crates/kerykeion/src/delivery.rs:138-142 | overwrites whatever status the record has |
| Delivery.DeliveryTracker.MarkLost | crates/kerykeion/src/delivery.rs:177-190 | overwrites whatever status the record has and counts a failure |
| Delivery.DeliveryTracker.RecordRetry | crates/kerykeion/src/delivery.rs:193-201 | counts a retry on the record and its destination |
| Delivery.DeliveryTracker.PruneCompleted | crates/kerykeion/src/delivery.rs:226-237 | the retain pass keeps exactly the records that are active or younger than the age, visited in any order, and touches no counter |
| Router.OnlineConserves | crates/kerykeion/src/router.rs:274-316 | when a node comes online as many messages as fit become pending, each at the end of its own priority, the rest stays stored in order, other destinations are untouched and `max_pending` holds |
| Router.OnlineConservesIff | crates/kerykeion/src/router.rs:274-316 | the number of messages held is conserved if and only if every moved packet decodes and the deferred ones fit the destination's bound |
| Router.OverfullQueueLoses | crates/kerykeion/src/router.rs:274-316 | two messages restored from a snapshot for one destination, with room for one and a full outbound queue, become one |
| Router.RevivedAt | crates/kerykeion/src/router.rs:284-300 | each moved message becomes, in order, a send of its own packet made now, with its own TTL in seconds and its priority, an unknown one reading as the default |
| Router.RevivalIsASend | crates/kerykeion/src/router.rs:163-185 | a message stored for an unreachable node and revived later is what sending it then would have been |
| Router.MeshRouter.NodeCameOnline | crates/kerykeion/src/router.rs:274-316 | implements it; the mid-drain refusal is never taken |
| Router.MeshRouter.MoveToQueue | crates/kerykeion/src/router.rs:284-309 | every decodable message taken is enqueued, none refused |
| Router.MeshRouter.Send | crates/kerykeion/src/router.rs:141-193 | implements routing of a packet with its refusals; what is queued or stored is in `Router.AcceptedSendIsRecorded` |
| Router.RefusedSendLeavesNoTrace | crates/kerykeion/src/router.rs:141-193 | a send is refused exactly when the queue or store is full for it; it then adds no record and no message, and changes nothing at all if and only if it opens no empty queue for a new destination |
| Router.RefusedSendCanOpenAQueue | crates/kerykeion/src/store_forward.rs:73-92 | with queues of size zero, a refused send to a new destination leaves an empty queue behind |
| Router.AcceptedSendIsRecorded | crates/kerykeion/src/router.rs:141-193 | an accepted send records the message as queued, touches no other record or destination, and adds just the packet sent, with its priority and expiring its TTL in seconds later, to the end of its priority in the queue or to the end of its destination's store, which otherwise keeps everything in order or, if full, loses just the first of its lowest messages, outranked by the new one |
| Router.NakBalance | crates/kerykeion/src/router.rs:204-232 | a NAK or timeout keeps the counters balanced exactly when the message is in flight with retries and room left, or its record is not finished |
| Router.PopBalance | crates/kerykeion/src/router.rs:319-324 | handing out keeps them balanced exactly when, below the in-flight limit, the first unexpired pending message has no finished record |
| Router.SendBalance | crates/kerykeion/src/router.rs:141-193 | sending keeps them balanced unless there is room for it, by the queue's or the store's own rule, and its record is still active |
| Router.AckAndMaintenanceBalance | crates/kerykeion/src/router.rs:196-257 | acknowledgements and maintenance always keep them balanced |
| Router.LateNakMiscounts | crates/kerykeion/src/router.rs:196-212 | a run in which a NAK after the ACK counts one message as both acknowledged and failed |
| Router.NakRetriesOrFails | crates/kerykeion/src/router.rs:204-232 | the message leaves flight; with retries and room left the same packet with the same deadline joins the end of its packet's priority and the retry is counted, otherwise its record has failed for the reason given; nothing else changes |
| Router.AckEnds | crates/kerykeion/src/router.rs:196-199 | an acknowledgement ends the flight and acknowledges the record, and moves no other message |
| Router.PopMarksSent | crates/kerykeion/src/router.rs:319-324 | the record of the message handed out is marked sent at that time, and nothing else |
| Router.MeshRouter.HandleNak | crates/kerykeion/src/router.rs:204-212 | retries, or fails the record |
| Router.MeshRouter.HandleAck | crates/kerykeion/src/router.rs:196-199 | ends the flight and acknowledges the record |
| Router.MeshRouter.NextToSend | crates/kerykeion/src/router.rs:319-324 | pops the next message and marks its record sent |
| Router.MeshRouter.TrackSent | crates/kerykeion/src/router.rs:327-329 | puts a sent message in flight |
| Router.MeshRouter.ProcessTimeouts | crates/kerykeion/src/router.rs:217-232 | handles exactly the messages in flight whose timeout has passed, each once, in some order, and returns exactly those not retried |
| Router.TimeoutsRetryWhileRoom | crates/kerykeion/src/router.rs:217-232 | of the overdue messages those with retries left are retried in order while pending has room; every other one is reported failed, and all leave flight |
| Router.TimeoutRecords | crates/kerykeion/src/router.rs:217-232 | in a timeout pass each failed record has failed for want of retries, each retried one counts a retry, and no other changes |
| Router.MeshRouter.RunMaintenance | crates/kerykeion/src/router.rs:248-257 | expires exactly the active records of the age, prunes records and stores, and drains the queue |
| Router.MaintenanceIsExact | crates/kerykeion/src/router.rs:248-257 | what stays is exactly the records younger than the age, the queued and in-flight messages within their TTL, and the stored ones within theirs, unaltered |
| Router.OnlyExplicitSuccessConfirms | crates/kerykeion/src/processor.rs:563-662 | a record becomes acknowledged exactly on a routing packet for that id with an explicit zero error code |
| Router.RoutingVerdict | crates/kerykeion/src/processor.rs:563-662 | a routing packet acknowledges or fails the packet it names by its code, known error codes told from unknown ones; anything else changes nothing |
| RouterRuns.RunKeeps | crates/kerykeion/src/router.rs:141-329 | in every state of every run of send, pop, track, ACK, NAK, timeout, maintenance and node-online, the outbound queue is in a state the queue alone can reach, stored messages decode and wait at their own node, and the stores are within bounds |
| RouterRuns.OnePlacePerId | crates/kerykeion/src/router.rs:141-329 | in every such state a message is in at most one of store, pending, hand and flight, and there at most once |
| RouterRuns.OnlineConservesInRuns | crates/kerykeion/src/router.rs:274-316 | in every such state a node coming online loses no message and reorders none |
| RouterRuns.QueueGuarantees | crates/kerykeion/src/router.rs:141-329 | in every such state hand-outs per message, the length of pending and the order within a priority are as in runs of the queue alone |
| RouterRuns.NothingVanishes | crates/kerykeion/src/router.rs:141-329 | in every run a message disappears only if acknowledged, out of retries or of room for one, past its TTL, or pushed out of a full store by one of higher priority, and appears only by its own send |
| RouterRuns.HandedOutInTime | crates/kerykeion/src/router.rs:141-329 | in every run every packet handed out was sent, and goes out within its TTL in seconds, counted from the send or, if it was stored, from when its node came online |
| RouterRuns.StepIsReachable | crates/kerykeion/src/router.rs:141-329 | every router step acts on the outbound queue as a sequence of the queue's own steps |
| RouterRuns.TimeoutPassIsTheRouters | crates/kerykeion/src/router.rs:217-232 | a timeout pass, message by message, is the router's own pass |
| VaultThreads.InterleavingsAreSerial | crates/kryphos/src/storage.rs:270-291 | in every state of every interleaving only the lock holder is past the lock, and the store is a stage of the serial execution in lock order |
| VaultThreads.QuiescentIsSerial | crates/kryphos/src/storage.rs:621-960 | whenever the lock is free, store and returned outcomes are those of the serial execution |
| VaultThreads.ReadersSeeSerialStates | crates/kryphos/src/storage.rs:685-691 | a reader without the lock sees the entries before or after the holder's call |
| VaultThreads.OneAddWins | crates/kryphos/src/storage.rs:621-676 | between two successful adds of one name lies a removal, so concurrent adds have one winner |
| VaultThreads.OneAddWinsInRuns | crates/kryphos/src/storage.rs:621-676 | in every state of every interleaving, between two adds of one name that both returned success lies, in lock order, a removal of it |
| VaultThreads.NoRotationIsLost | crates/kryphos/src/storage.rs:849-905 | without a removal, the rotation count grows by exactly the rotations that reached the keyspace |
| VaultThreads.NoRotationIsLostInRuns | crates/kryphos/src/storage.rs:849-905 | between two lock-free moments of any interleaving an entry that was not removed stays, and its rotation count grows by at least the rotations that returned success, by exactly those if no call met a fault |
| VaultThreads.OutcomesAreSerial | crates/kryphos/src/storage.rs:270-291 | in every state every outcome returned so far is that of its call in the serial execution |
| VaultThreads.OutcomesFollowTheWritesInRuns | crates/kryphos/src/storage.rs:621-960 | in every state of every interleaving a call returned success exactly when it met no fault and the writes before it in lock order leave its name free for an add, or present and active otherwise |
| VaultThreads.OkMeansWritten | crates/kryphos/src/storage.rs:1150-1169 | a call that reports success reached the keyspace, and without faults the two are the same |
| VaultThreads.AuditFollowsLockOrder | crates/kryphos/src/storage.rs:1150-1209 | over any interleaving audit order is commit order, replay of the writes gives the vault, and the log is exactly the writes iff no recorded write failed |
| VaultSpec.WritesAreAudited | crates/kryphos/src/storage.rs:1125-1169 | under any failures the keyspace writes are a subsequence of the audit log |
| VaultSpec.AuditIsExactIff | crates/kryphos/src/storage.rs:1150-1169 | the log equals the writes exactly when no recorded mutation failed to reach the keyspace |
| VaultSpec.AuditReplays | crates/kryphos/src/storage.rs:1150-1209 | without a failed audited mutation, replaying the log gives exactly the present names, statuses and rotation counts |
| VaultSpec.HistoriesAreWellTold | crates/kryphos/src/storage.rs:621-987 | in every reachable vault a history is Created, one Rotated per counted rotation, and one Revoked exactly when revoked |
| VaultSpec.GetReturnsTheLatest | crates/kryphos/src/storage.rs:685-757 | a successful retrieval returns the secret of the last add or rotation that reached the keyspace |
| VaultSpec.RevocationIsFinal | crates/kryphos/src/storage.rs:704-960 | a revoked entry never changes again and every later call on its name fails |
| VaultSpec.SucceedsIff | crates/kryphos/src/storage.rs:621-960 | a mutation succeeds exactly when the vault admits it and nothing fails; the log grows and the entry changes, as the mutation says and no other entry, exactly as far as the failures let it |
| VaultSpec.FailsWith | crates/kryphos/src/storage.rs:621-960 | each error is reported exactly in its own case |
| VaultSpec.RetrievedIff | crates/kryphos/src/storage.rs:685-757 | a secret is returned exactly from a present, active entry; otherwise the error says which it was not |
| VaultSpec.OutcomeFollowsTheWrites | crates/kryphos/src/storage.rs:621-960 | over every history a call succeeds exactly when nothing fails and the replayed writes leave its name free for an add, or present and active otherwise |
| VaultSpec.GetFollowsTheWrites | crates/kryphos/src/storage.rs:685-757 | over every history a secret is returned exactly while the replayed writes leave its entry active, and it is the latest |
| EntryAad.BindingIsInjective | crates/kryphos/src/crypto.rs:269-301 | equal associated data means equal salt, name, type and version |
| EntryAad.BindingIsApart | crates/kryphos/src/vault.rs:200-220 | it is never empty nor the signing-key associated data |
| EntryAad.PrefixRoundTrip | crates/kryphos/src/crypto.rs:297-301 | the four prefix bytes decode to the length |
| EntryAad.BindingExistsIff | crates/kryphos/src/crypto.rs:269-301 | a binding exists exactly when salt, name and type each fit a four-byte length |
| EntryAad.BindingLayout | crates/kryphos/src/crypto.rs:269-301 | the bytes bound are the version, then salt, name and type in this order, each behind its length |
| Vault.BoundOpeningIsAuthentic | crates/kryphos/src/crypto.rs:243-287 | what opens under an entry's binding was sealed for that name, type and version, in vaults that hold legacy secrets too |
| Vault.DowngradeFails | crates/kryphos/src/storage.rs:710-738 | a bound secret does not open as a legacy one |
| Vault.SecretOpensIff | crates/kryphos/src/storage.rs:710-750 | a bound secret opens at its own entry under the current version only; a legacy secret at any legacy entry and at no bound one |
| Vault.CredentialVault.Get | crates/kryphos/src/storage.rs:685-757 | whatever stands in the keyspace, success on a non-legacy envelope returns a secret sealed for that name and type, and success on a legacy one never a bound secret; on an honest keyspace, legacy entries included, the result is the specified one |
| Vault.CredentialVault.Add | crates/kryphos/src/storage.rs:621-676 | refines the state machine under all faults, and on success the secret is bound to its entry |
| Vault.CredentialVault.Remove | crates/kryphos/src/storage.rs:809-837 | refines the state machine under all faults, on vaults with legacy entries too; when that succeeds is in `VaultSpec.SucceedsIff` |
| Vault.CredentialVault.Rotate | crates/kryphos/src/storage.rs:849-905 | refines the state machine under all faults; on success the entry is bound whatever its envelope was before, and no other envelope changes |
| Vault.CredentialVault.Revoke | crates/kryphos/src/storage.rs:916-960 | refines the state machine under all faults, keeping the envelope version and the sealed secret |
| Vault.CredentialVault.CommitAudited | crates/kryphos/src/storage.rs:1150-1169 | audit, then write, then persist, with what each failure leaves behind |
| Vault.CredentialVault.History | crates/kryphos/src/storage.rs:970-987 | returns the entry's recorded events |
| Bridge.RunsKeep | crates/kerykeion/src/bridge.rs:168-346 | in every reachable state gateways are distinct, the active one is registered and not offline, and replaying a gateway's events since registration gives its health class |
| Bridge.OfflineIffThreshold | crates/kerykeion/src/bridge.rs:268-340 | with a fixed threshold of at least one a gateway is offline exactly when its failures in a row reach it |
| Bridge.BestIsBest | crates/kerykeion/src/bridge.rs:204-210 | selection returns a gateway that is not offline, healthy if any is, of the lowest priority value in its class and the first with it; none only if all are offline |
| Bridge.EnsureActiveIsComplete | crates/kerykeion/src/bridge.rs:216-236 | outside the cooldown a gateway is active exactly when one is available |
| Bridge.FailoverKeeps | crates/kerykeion/src/bridge.rs:241-261 | failover installs the selection and keeps the invariant |
| Bridge.SuccessDecides | crates/kerykeion/src/bridge.rs:268-300 | an answer within both limits heals the gateway, any other degrades it; failures are reset, the loss halves, a change of class is announced, and nothing else changes |
| Bridge.FailureDecides | crates/kerykeion/src/bridge.rs:307-346 | a failed check counts, keeps seven tenths of the delivered share, and makes the gateway offline at the threshold and degraded below; the active one going offline is replaced by the best |
| Bridge.FailoverDecides | crates/kerykeion/src/bridge.rs:241-261 | the best available gateway becomes active; a change is timed, and announced if there is a new one; without a change nothing happens |
| Bridge.EnsureActiveDecides | crates/kerykeion/src/bridge.rs:216-236 | a serving gateway is kept; without one nothing is selected until the cooldown has passed since the last change, and then the best |
| Bridge.LossDecides | crates/kerykeion/src/bridge.rs:349-353 | a reported loss is clamped to zero and one; nothing else changes |
| Bridge.AddDecides | crates/kerykeion/src/bridge.rs:168-172 | a new node joins at the end, healthy; a known one is left as it is |
| Bridge.RemoveDecides | crates/kerykeion/src/bridge.rs:175-180 | exactly that node goes, the order stays, and it is no longer active |
| Bridge.GatewayBridge.RecordHealthFailure | crates/kerykeion/src/bridge.rs:307-346 | implements the failure step with its events and automatic failover |
| Bridge.GatewayBridge.RecordHealthSuccess | crates/kerykeion/src/bridge.rs:268-300 | implements the success step with its events |
| Bridge.GatewayBridge.SelectGateway | crates/kerykeion/src/bridge.rs:204-210 | implements the selection |
| Bridge.GatewayBridge.EnsureActive | crates/kerykeion/src/bridge.rs:216-236 | implements reselection with its cooldown |
| Bridge.GatewayBridge.ForceFailover | crates/kerykeion/src/bridge.rs:241-261 | installs the selection and announces it if it changed |
| Bridge.GatewayBridge.AddGateway | crates/kerykeion/src/bridge.rs:168-172 | registers a node once |
| Bridge.GatewayBridge.RemoveGateway | crates/kerykeion/src/bridge.rs:175-180 | removes exactly that node and deactivates it |
| Bridge.GatewayBridge.DrainEvents | crates/kerykeion/src/bridge.rs:195-197 | hands over the pending events and forgets them |
| Bridge.GatewayBridge.UpdatePacketLoss | crates/kerykeion/src/bridge.rs:349-353 | sets the clamped loss ratio of that gateway |
| Handshake.Run | crates/kerykeion/src/handshake.rs:94-196 | for every list of messages and receive failures the result is the specified one, the database takes every node record read, in order, and one that starts empty ends as the latest record of each node if the distinct nodes fit |
| Handshake.ConnectAndMerge | crates/kerykeion/src/collector.rs:297-313 | a failed handshake leaves the shared database alone; a successful one is merged into it, and if it was empty it ends as the latest of the first records, as many as the cap; if the distinct nodes fit, it then equals the database the handshake wrote exactly when no final record after those differs from what they held |
| Handshake.PrefixSufficesIff | crates/kerykeion/src/handshake.rs:105-127 | a prefix of the records gives the same latest-record map as all of them exactly when nothing new came after |
| Handshake.RecordsPastTheCapAreDropped | crates/kerykeion/src/handshake.rs:105-127 | one node repeated up to the cap and then a second: the report holds one, the database two |
| Handshake.Merge | crates/kerykeion/src/collector.rs:308-312 | the database takes the reported own node and records as it takes messages, from any contents; an empty one ends as the latest record of each if the distinct nodes fit |
| Handshake.ResultIff | crates/kerykeion/src/handshake.rs:94-196 | the first completing, reboot or failing message decides: none is a timeout, a completed dump succeeds exactly if it named the own node, and reports the last such name, the first eight channels and the first node records |
| Handshake.PickedInOrder | crates/kerykeion/src/handshake.rs:105-140 | channels and node records are picked out of the dump in order |
| Handshake.NeverOutdated | crates/kerykeion/src/node_db.rs:113-147 | whatever is evicted, the database holds no outdated record |
| Handshake.OwnStays | crates/kerykeion/src/node_db.rs:113-147 | the own record is never evicted while the radio keeps its number |
| Handshake.NoiseIsIgnored | crates/kerykeion/src/handshake.rs:142-169 | a mismatched completion id, a mesh packet or an empty message anywhere changes nothing in the result |
| Handshake.ReportIsBounded | crates/kerykeion/src/handshake.rs:105-140 | channels and known nodes stay within their ceilings |
| Handshake.InsertKeeps | crates/kerykeion/src/node_db.rs:113-147 | an insertion stores the record, never evicts our own node and alters no other record |
| Handshake.InsertFits | crates/kerykeion/src/node_db.rs:113-118 | an insertion never exceeds the cap |
| Handshake.InsertEvictsTheStalest | crates/kerykeion/src/node_db.rs:113-147 | a node is evicted exactly when a new one finds the table full: one, not our own, heard from no later than any other but our own |
| Handshake.NodeDb.Insert | crates/kerykeion/src/node_db.rs:113-147 | evicts the least recently heard other node exactly when a new node finds the table full |
| Handshake.NodeDb.FindStalest | crates/kerykeion/src/node_db.rs:137-147 | the victim was heard no later than any other node but our own |

## Left out

- `hop_count`, `shortest_path*`, `neighbors` and gateway detection: they rest on petgraph's search or are single lookups.
- The slot numbers a stable graph reuses: any unused slot may be chosen.
- Protobuf and JSON encodings, Argon2id, Ed25519, BLAKE3, the cipher itself and the tamper log's hash chain: library code, taken as ideal.
- `OutboundQueue::mark_sent` and constructors that only fill defaults: the router uses `track_inflight`.
- Outbound: `max_inflight` is not claimed as a bound on messages in flight; the flush task pops several messages before it tracks the first.
- Handshake.InsertEvictsTheStalest: assumes times of hearing are above the least 64-bit integer, which stands for never heard.
- RouterRuns: packet ids are not reused, protobuf decodes what it encoded, and no store snapshot is loaded during a run; a message revived from the store counts its TTL from then.
- StoreForward: the JSON text of a snapshot is not modelled, only whether it parses and what it holds.
- TopologySnapshot: of JSON only the reading and writing of an SNR is modelled; malformed text is not.
- Delivery: the counters, retry counts and rotation counts are unbounded naturals, without the overflow of their fixed-width fields; only the latency sum saturates as in the code.
- Vault: creation, opening and listing, the header, key derivation, installation identity, file permissions, zeroization and the cross-process lock; encryption itself never fails.
- Vault.CredentialVault.Get: the claim that the secret was sealed for the name asked covers non-legacy envelopes only, because a legacy seal names no entry (`Vault.SecretOpensIff`).
- Vault.CredentialVault.Add: assumes the seals in the keyspace are the vault's own, as the other mutations do; only retrieval is proved on an arbitrary keyspace.
- Bridge: reasons and timestamps inside a health state, float rounding, and the background monitor task.
- Handshake.ConnectAndMerge: with more distinct nodes than the cap, when the two databases agree is not stated, since both evict; a failure to send the first request is not modelled.
- Tokio tasks, transports, timers, the HTTP server and the command line: only the atomic steps they trigger are modelled.
