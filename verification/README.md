# Pensieve in Dafny

A model of Pensieve, a decentralised cache written in C++20, with proofs about its four hard parts:

- **SWIM membership**: any number of nodes gossiping over a network that loses, duplicates and reorders
  packets (`SwimNode`, `SwimCluster`), incarnation numbers (`SwimIncarnations`), what a successful probe
  means (`SwimCausality`, `SwimProbes`), where suspicion comes from (`SwimSuspicion`), what is
  gossiped (`SwimGossip`), the merging of views (`MemberRules`), the gossip queue (`Disseminator`) and the wire format (`SwimCodec`);
- **the storage engine**: slots and size classes (`SlabAllocator`), byte layout (`SlabEntry`), clock eviction
  (`ClockEvictor`), the agreement of shard maps, evictors and allocator over one byte memory
  (`StoreRules`) and the store as a map that may lose entries (`LocalStore`);
- **the consistent-hash ring**: lookup and successor lists (`RingRules`, `RingStore`), migrations
  (`RingMigration`), the callback that drives the ring from membership (`RingSync`, `MemberList`,
  `Startup`, `Coordinator`), and the client's own ring built from the server's listing (`ClusterInfo`, `Topology`);
- **request collapsing**: every interleaving of the wait group and what joiners answer (`WaitGroup`,
  `Coordinator`);

and the 32-bit MurmurHash3 that places keys (`Murmur`).

Where the source is an object, the model has a class whose methods are proved against functions or
relations on values; the theorems about whole runs are stated about these. `dafny verify dfyconfig.toml`
checks everything.

## Reading the model

- A coroutine is cut at its suspension points; what it keeps on its frame is a field (`probe`, `relays`).
  A return from an awaited sub-task is a step boundary too, which only adds interleavings.
- The network of `SwimCluster` is the set of all packets ever sent. A packet reaches only the node it is
  addressed to, that is, different node ids are taken to resolve to different addresses. Nodes start at any
  time and never restart. Incarnations and sequence numbers are unbounded.
- Clocks, random choice, the order of hash-map iteration and the result of an unstable sort are
  parameters or any allowed outcome. `hash_key` and `hash_node_token` are arbitrary functions in the ring
  and store models.
- A pointer into the arena is an offset; a `shared_ptr<PendingFetch>` is an index into the table of all
  fetches. Each locked region is one step. Integers copied with `memcpy` are little-endian.

## Where the code differs from its comments

- An Ack never clears a suspicion: it proposes Alive at the incarnation already recorded, which
  `update_state` rejects (`SwimIncarnations.AckNeverClearsSuspicion`).
- News of the suspicion or death of an unknown node is dropped, so for unknown nodes the order of updates
  matters; `MemberRules.UnknownNodeOrderIrrelevantIff` says when it does not.
- A failed put loses the old value too, a put that is too large for any slot still evicts, and a ninth
  eviction is always in vain; `LocalStores.LocalStore.Put` says exactly when a put fails and what it evicts.
- A dead node that becomes suspected is not put back on the ring; `RingSync.SuspectOnRingIffWasAlive` says
  which suspects are on it.
- A suspected member that was alive before stays on the server's ring but is left out of the listing, so clients
  route its keys elsewhere; `TopologyRules.ClientAgreesIff` says when client and server agree.
- `get_n_nodes_for_key` with n = 0 returns every node (`RingStores.RingStore.GetNNodesForKey`).
- An error at the initiator of a collapsed GET reaches its joiners as not found;
  `CoordinatorRules.JoinerAnswersLikeInitiator` says when their answers are the same.
- The comment on the wire format leaves out the data port at the end of every update; the model has it.
- The migrations are minimal in the hashes they cover, not in their number: ranges that follow each other
  and move between the same nodes are not joined; `RingMigrations.JoinableIffSameChange` says when there are
  such ranges.

## Model

| member | source | states |
|---|---|---|
| SwimCluster.RunBounded | src/membership/swim_protocol.cpp:144-279 | In every run of any number of nodes over a network that loses, duplicates and reorders packets, no view, gossip queue or packet holds an incarnation of a node above that node's own counter, and every node sees itself alive at its counter |
| SwimCluster.RefutationBeatsEveryView | src/membership/swim_protocol.cpp:236-246 | When a node raises its counter in a run, the new value is strictly above every view of it and every queued update about it at every other node, and every update about it in flight at that moment |
| SwimCluster.RefutationIsAdopted | src/membership/swim_protocol.cpp:265-272 | A node whose view of the refuting node is from before takes it for alive at the new incarnation as soon as it applies the refutation |
| SwimCluster.RunViewsGrow | src/membership/member_list.cpp:7-57 | Between any two moments of a run a node forgets no member, and each member's (incarnation, state) only grows lexicographically |
| SwimCluster.RevivalNeedsRefutation | src/membership/member_list.cpp:37-57 | A peer once suspected, dead or left is alive again in a view only at a strictly higher incarnation, and only after the peer itself raised its counter |
| SwimCausality.RunAccounted | src/membership/swim_protocol.cpp:99-234 | In every run every packet, every pending acknowledgement and every suspended probe or relay is accounted for by an earlier event, events are causally ordered, and no sequence number is drawn twice |
| SwimCausality.DirectPingCausality | src/membership/swim_protocol.cpp:99-115 | `direct_ping` can return true only if the probed node answered this very ping after the probe began |
| SwimCausality.IndirectPingCausality | src/membership/swim_protocol.cpp:117-142 | `indirect_ping` can return true only if, after it began, a relay pinged the target on its behalf and the target answered the relay afterwards |
| SwimCausality.AckMeansAnswered | src/membership/swim_protocol.cpp:191-195 | Although acknowledgements are matched by number alone, one for a number drawn to ping a node proves that this node answered that ping |
| SwimCausality.AckMeansRelayed | src/membership/swim_protocol.cpp:205-234 | An acknowledgement for an indirect probe proves that the acknowledging relay pinged the probe's target and was answered |
| SwimProbes.DeliveredAckCounts | src/membership/swim_protocol.cpp:191-195 | While a probe waits, a delivered acknowledgement with its number makes it succeed: it is not forgotten before the probe ends |
| SwimProbes.AckedNeedsDelivery | src/membership/swim_protocol.cpp:99-142 | A waiting probe becomes acknowledged only through a delivered acknowledgement with its number |
| SwimProbes.StepAcknowledges | src/membership/swim_protocol.cpp:191-195 | In one step a waited-for number turns acknowledged if and only if the step receives an Ack carrying it |
| SwimProbes.FailedProbeSuspects | src/membership/swim_protocol.cpp:49-55 | A probe that failed both ways turns an alive target into a suspect at the known incarnation and changes no other member |
| SwimProbes.ReapIsExact | src/membership/swim_protocol.cpp:76-97 | The reaper declares dead exactly the other members that are suspected and expired, each at its known incarnation |
| SwimSuspicion.EverythingIsGrounded | src/membership/swim_protocol.cpp:34-97 | In every run, every suspicion in any view, queue or packet goes back to a node whose direct and then indirect probe of the suspect failed and which then turned it from alive to suspected at that incarnation; every death goes back to a reaper, and before that to such a suspicion at the same incarnation; nobody is ever said to have left |
| SwimSuspicion.RunProbeHistory | src/membership/swim_protocol.cpp:43-55 | In every run a node about to suspect its target first failed the direct probe of it and then the indirect one, or found nobody to ask |
| SwimSuspicion.LocalStepBacked | src/membership/swim_protocol.cpp:34-279 | Whatever one node does in one step, it believes, queues and sends only what there are grounds for, if so was what it held and received and what it declares itself |
| SwimGossip.RunQueuesOk | src/membership/disseminator.cpp:10-46 | In every run the queue of every node has at most one entry per node, each still owed a transmission when the limit is positive |
| SwimGossip.DeclarationIsGossiped | src/membership/swim_protocol.cpp:49-55 | In every run, when a node turns a member into a suspect or declares it dead, its queue then holds that update or a stronger one about the member |
| SwimGossip.SenderBecomesKnown | src/membership/swim_protocol.cpp:146-165 | In every run the sender of a received message is a known member afterwards, and if it was not before, news of it is in the queue after the whole step or already in the reply, unless the transmission limit is zero and the message is a Ping |
| SwimGossip.RefutationIsQueued | src/membership/swim_protocol.cpp:239-247 | In every run a node raises its counter only on a message, and the refutation is then queued, not sent yet, or already in the reply, unless the transmission limit is zero and the message is a Ping |
| SwimGossip.AbsorbedIsGossiped | src/membership/swim_protocol.cpp:165-189 | What a node queued while absorbing a message is in its reply or still queued, unless the transmission limit is zero and the message is a Ping |
| SwimIncarnations.LocalStepTame | src/membership/swim_protocol.cpp:34-279 | Whatever one node does in one step, its state and the packets it sends stay below the incarnation counters, given that what it received was |
| SwimIncarnations.ApplyUpdatesIsMerge | src/membership/swim_protocol.cpp:236-279 | Applying a message's updates changes the view of every known peer exactly as the join of the updates about it |
| SwimIncarnations.ApplyUpdatesOrderIrrelevant | src/membership/swim_protocol.cpp:236-279 | Lists with the same updates in any order and multiplicity leave the same (incarnation, state) for every known peer |
| SwimIncarnations.AckNeverClearsSuspicion | src/membership/swim_protocol.cpp:197-202 | An Ack leaves the view of every member as it was, suspected or not |
| SwimProtocols.SwimProtocol.HandleMessage | src/membership/swim_protocol.cpp:144-210 | The handler takes exactly the receiving step of the cluster model, replies included, and the ring stays what the member list made of it |
| SwimProtocols.SwimProtocol.ApplyUpdates | src/membership/swim_protocol.cpp:236-279 | The update loop computes the fold of single updates, refutations included |
| SwimProtocols.SwimProtocol.ApplyUpdate | src/membership/swim_protocol.cpp:238-277 | One update: refute a suspicion of oneself, ignore other news of oneself, merge news of others |
| SwimProtocols.SwimProtocol.LearnSender | src/membership/swim_protocol.cpp:148-163 | An unknown sender is added alive at incarnation 0 with the first data port announced for it, and queued |
| SwimProtocols.SwimProtocol.OnAck | src/membership/swim_protocol.cpp:191-203 | Marks the pending number if there is one; the state change it proposes goes through `update_state` |
| SwimProtocols.SwimProtocol.BeginRelay | src/membership/swim_protocol.cpp:213-224 | A relay draws its own number, remembers requester and original number, and pings the target |
| SwimProtocols.SwimProtocol.EndRelay | src/membership/swim_protocol.cpp:226-232 | On timeout an acknowledged relay sends the original number back to the requester and keeps its own number while that send is suspended; an unacknowledged one ends and sends nothing |
| SwimProtocols.SwimProtocol.FinishRelay | src/membership/swim_protocol.cpp:233-233 | After the reply is sent the number is forgotten |
| SwimProtocols.SwimProtocol.BeginDirectPing | src/membership/swim_protocol.cpp:99-110 | Draws a number, waits for it and pings an alive peer with piggybacked updates |
| SwimProtocols.SwimProtocol.EndDirectPing | src/membership/swim_protocol.cpp:112-114 | Returns whether the number was acknowledged and forgets it |
| SwimProtocols.SwimProtocol.BeginIndirectPing | src/membership/swim_protocol.cpp:117-123 | Picks up to k alive peers as relays; without any the probe fails at once |
| SwimProtocols.SwimProtocol.AskPeer | src/membership/swim_protocol.cpp:125-135 | Asks the next relay, carrying the probe's number and target |
| SwimProtocols.SwimProtocol.EndIndirectPing | src/membership/swim_protocol.cpp:139-141 | Returns whether any relay reported back and forgets the number |
| SwimProtocols.SwimProtocol.MarkSuspect | src/membership/swim_protocol.cpp:49-55 | Takes the suspicion step of the model |
| SwimProtocols.SwimProtocol.ReapSuspects | src/membership/swim_protocol.cpp:81-95 | The loop over all members computes the reaping of the expired ones in iteration order |
| SwimProtocols.Step | src/membership/swim_protocol.cpp:34-279 | In every state the object can take every action the model allows there, and then moves as the model does, keeping the ring in step |
| SwimProtocols.LocalStepCanBeTaken | src/membership/swim_protocol.cpp:34-279 | The model takes an action only where the object can |
| Startup.StartNode | src/main.cpp:78-130 | `main` leaves the protocol in the state in which the cluster model starts a node, with a ring that follows the member list from the first member on |
| Startup.RunNode | src/main.cpp:78-130 | A node built by `main`, through any of its actions chosen in whatever way, moves as the model does from its start on, and its ring then routes only to listed members that are neither dead nor left |
| MemberRules.MergeAllIsJoin | src/membership/member_list.cpp:7-57 | After any list of updates a known member's (incarnation, state) is the least upper bound of what was recorded and all updates about it |
| MemberRules.MergeOrderIrrelevant | src/membership/member_list.cpp:7-57 | Order and repetition of updates about known members do not matter |
| MemberRules.UnknownNodeOrderMatters | src/membership/member_list.cpp:39-40 | For a node unknown to any list order does matter: a Dead update that arrives before the first Alive one is dropped |
| MemberRules.UnknownNodeOrderIrrelevantIff | src/membership/member_list.cpp:7-57 | For a node not yet known all lists with the same updates agree on it if and only if no Join or Alive update about it occurs, or every other update about it has an incarnation below that of some Join or Alive update |
| MemberRules.UnknownStamp | src/membership/member_list.cpp:7-57 | A node unknown at first becomes known exactly when some update introduces it, and ends with the stamp of one of the updates, at least that of every introduction |
| MemberRules.AddGrows | src/membership/member_list.cpp:7-22 | `add_node` forgets nobody and lowers no stamp |
| MemberRules.UpdateGrows | src/membership/member_list.cpp:37-57 | `update_state` forgets nobody and lowers no stamp |
| MemberLists.MemberList.AddNode | src/membership/member_list.cpp:7-22 | Accepts exactly newer information, replaces the record, and keeps the attached ring equal to the replay of all operations so far |
| MemberLists.MemberList.UpdateState | src/membership/member_list.cpp:37-57 | Accepts exactly a newer stamp of a known node and keeps the attached ring equal to the replay of all operations so far |
| MemberLists.MemberList.RemoveNode | src/membership/member_list.cpp:24-35 | Forgets the node and reports it to the callback as dead |
| MemberLists.MemberList.OnChange | src/main.cpp:84-91 | The callback: alive adds the node's tokens, dead or left removes its entries, suspect changes nothing |
| RingSync.ReplayRoutes | src/main.cpp:84-97 | After any sequence of member-list operations every token belongs to a listed member that is alive or suspected |
| RingSync.OwnerIsLiveMember | src/coordinator/coordinator.cpp:141-146 | The owner of any key is a listed member, neither dead nor left, so the coordinator always finds its record |
| RingSync.TokensOwnedIffNoCollisions | src/membership/ring_store.cpp:17-34 | Alive members own all their tokens in every history about given nodes if and only if no two of these nodes share a token |
| RingSync.CollisionLosesToken | src/membership/ring_store.cpp:21-23 | Two nodes with a common token: adding both leaves the first alive without it |
| RingSync.SuspectAfterDeathStaysOff | src/main.cpp:84-91 | A suspected member need not be on the ring: added, declared dead and then suspected at the next incarnation, it is listed as suspected and owns no token |
| RingSync.SuspectOnRingIffWasAlive | src/main.cpp:84-91 | In every history without collisions, a member that becomes suspected owns all its tokens if it was alive before the call and none if it was not |
| RingSync.OnRingIffSettledAlive | src/main.cpp:84-97 | In every history without collisions, a member owns all its tokens if its last state other than suspected is alive, and none otherwise |
| Coordinators.RouteKey | src/coordinator/coordinator.cpp:51-57 | A key goes to the owner the ring names at the data port recorded for it, or is served locally; while the ring follows the member list the lookup never fails and never yields a dead or left member |
| GossipQueue.QueueHoldsGreatest | src/membership/disseminator.cpp:10-46 | At every point of every run the queue holds at most one update per node, the greatest by (incarnation, type) enqueued since the node entered |
| GossipQueue.EnqueueKeepsGreatest | src/membership/disseminator.cpp:10-24 | Enqueueing leaves other nodes' entries alone and the node with the greater of its old and new update, a replacement starting afresh |
| GossipQueue.GetUpdatesSelection | src/membership/disseminator.cpp:26-39 | A call returns min(limit, size) distinct queued updates, none sent more often than one held back |
| GossipQueue.GetUpdatesRemainder | src/membership/disseminator.cpp:36-43 | Returned updates count one transmission more and leave at the limit, held-back ones are untouched, nothing else is in the queue |
| GossipQueue.GetUpdatesSpendsBudget | src/membership/disseminator.cpp:26-46 | The total of transmissions owed falls by exactly the number of updates returned |
| GossipQueue.DrainSendsExactly | src/membership/disseminator.cpp:26-46 | With nothing enqueued, as many calls as the budget empty the queue, each update having been sent exactly as often as owed: a fresh one exactly max_transmissions times |
| GossipQueue.RunWithinLimit | src/membership/disseminator.cpp:10-46 | With a positive transmission limit every queued update is owed a transmission at every point of every run |
| GossipQueue.ZeroLimitDropsAll | src/membership/disseminator.cpp:41-43 | With a transmission limit of zero the first call empties the queue, sent or not |
| Dissemination.Disseminator.Enqueue | src/membership/disseminator.cpp:10-24 | The loop over the queue computes the specified queue |
| Dissemination.Disseminator.GetUpdates | src/membership/disseminator.cpp:26-46 | Sorting, counting up and erasing yields one of the specified outcomes |
| Dissemination.Serve | src/membership/disseminator.cpp:7-46 | A disseminator from its construction on, through any calls: its queue moves as a run of the model, each call handing out what the model does |
| SwimWire.DecodeEncoded | src/membership/swim_message.cpp:115-170 | Deserializing a serialized message, with any bytes after it, yields the message and stops at its end |
| SwimWire.AcceptedIsEncoding | src/membership/swim_message.cpp:135-170 | Any accepted input fits the format and re-serializes to exactly the bytes consumed |
| SwimWire.PrefixRejected | src/membership/swim_message.cpp:29-170 | Every strict prefix of an encoding is rejected |
| SwimWire.RoundTripIffFits | src/membership/swim_message.cpp:94-133 | The round trip succeeds if and only if hosts and update count are below 65536, numbers fit their types and a target is present exactly on a PingReq |
| SwimWire.EncodingInjective | src/membership/swim_message.cpp:115-133 | Different messages that fit never have the same encoding |
| SwimWire.DecodeUpdateAt | src/membership/swim_message.cpp:62-90 | An update is read back wherever it stands in the input |
| SwimWire.DecodeIdExact | src/membership/swim_message.cpp:94-113 | An accepted node id is the encoding of its result, host length included |
| SwimCodecs.Serialize | src/membership/swim_message.cpp:115-133 | The buffer-growing encoder computes the specified encoding |
| SwimCodecs.Deserialize | src/membership/swim_message.cpp:135-170 | The offset-advancing decoder accepts and returns exactly what is specified |
| SwimCodecs.Writer.WriteU64 | src/membership/swim_message.cpp:23-27 | Eight bytes, most significant first |
| SwimCodecs.Reader.ReadBytes | src/membership/swim_message.cpp:35-60 | Shifting in bytes reads the big-endian number, or fails when fewer are left |
| SwimCodecs.Reader.ReadUpdate | src/membership/swim_message.cpp:69-90 | Rejects unknown update types and truncated updates, and otherwise advances past one update |
| RingRules.RotationIsClockwise | src/membership/ring_store.cpp:64-79 | Iterating the ordered map from its lower bound and round its end meets the tokens in clockwise order |
| RingRules.FirstNodesShape | src/membership/ring_store.cpp:55-82 | For n >= 1 the successor list has no duplicates, starts with the owner and has min(n, number of nodes) members |
| RingRules.SuccessorsAfterRemoval | src/membership/ring_store.cpp:36-82 | Removing any node removes it from the successor list and changes nothing else in it |
| RingRules.FallbackAfterHeadLeaves | src/membership/ring_store.cpp:36-82 | The tail of the list is the (n-1)-list once its head has left the ring |
| RingRules.FallbackBecomesOwner | src/membership/ring_store.cpp:36-82 | The k-th fallback of a key owns it as soon as the k nodes before it are gone |
| RingStores.RingStore.AddNode | src/membership/ring_store.cpp:27-34 | Places one token per virtual node, replacing the owner of a token already there |
| RingStores.RingStore.AddNodeTokens | src/membership/ring_store.cpp:17-25 | The cloned ring with the given tokens assigned replaces the old one |
| RingStores.RingStore.RemoveNode | src/membership/ring_store.cpp:36-42 | Drops exactly the entries owned by the node |
| RingStores.RingStore.GetNodeForKey | src/membership/ring_store.cpp:44-53 | Returns the owner of the first token clockwise from the hash, or nothing on an empty ring |
| RingStores.RingStore.GetNNodesForKey | src/membership/ring_store.cpp:55-82 | Returns the first n distinct nodes met clockwise; n = 0 returns all of them |
| RingStores.Walk | src/membership/ring_store.cpp:69-79 | The circular walk ends, and collects first occurrences until the list is long enough |
| RingMigrations.ComputeMigrations | src/membership/ring_migration.cpp:19-47 | For two non-empty rings every hash lies in at most one returned range, and in one exactly when its owner changed, naming old and new owner; there is one range for each boundary at which the owner changed |
| RingMigrations.JoinableIffSameChange | src/membership/ring_migration.cpp:34-44 | Two returned ranges follow each other and move between the same nodes if and only if two neighbouring boundaries have the same old owner and the same other new owner |
| RingMigrations.TakeoverIsSplit | src/membership/ring_migration.cpp:34-44 | For example when a node with two tokens is replaced by another with the same tokens |
| RingMigrations.RangeEndsAtNearest | src/membership/ring_migration.cpp:31-43 | A hash lies in the circular range ending at a boundary exactly when that boundary is the first met clockwise from it |
| RingMigrations.JoinTransfersGoToNode | src/membership/ring_migration.cpp:19-47 | Between a ring and the ring with a node added every transfer goes to that node |
| RingMigrations.LeaveTransfersComeFromNode | src/membership/ring_migration.cpp:19-47 | Between a ring and the ring with a node removed every transfer comes from that node |
| RingMigrations.AddingMovesOnlyToNode | src/membership/ring_store.cpp:17-25 | Adding tokens of a node moves hashes only to it |
| RingMigrations.RemovingMovesOnlyFromNode | src/membership/ring_store.cpp:36-42 | Removing a node moves only hashes it owned |
| ClusterListing.ListingRoundTrip | src/coordinator/coordinator.cpp:108-139 | A client reads a listing back as it was if and only if it has fewer than 65536 entries and every host is shorter than 65536 bytes |
| ClusterListing.ServeClusterInfo | src/coordinator/coordinator.cpp:108-139 | The growing buffer holds the encoding of exactly the alive members, in iteration order |
| ClusterListing.ReadListing | src/sdk/topology_manager.cpp:97-126 | The decoder, advancing through the payload, returns exactly the specified list, or fails on a truncated one |
| TopologyRules.AliveEndpointsExact | src/coordinator/coordinator.cpp:113-136 | The listing names exactly the alive members, each once |
| TopologyRules.ClientMirrorsServer | src/sdk/topology_manager.cpp:221-229 | Without collisions the client's ring has the tokens and owners of any ring holding exactly the listed nodes, whatever the order of the list |
| TopologyRules.ClientAgreesWithServer | src/sdk/topology_manager.cpp:172-229 | If the server's ring holds exactly the tokens of the listed nodes, no two of them collide and the listing fits its format, a client that decodes the listing and rebuilds the ring has the server's owner and the server's successor list for every key |
| TopologyRules.ClientAgreesIff | src/sdk/topology_manager.cpp:221-229 | After any history without collisions, a client that built its ring from the alive members agrees with the server on the owner of every key if and only if no suspected member is still on the server's ring |
| TopologyRules.SuspectServesUnlisted | src/coordinator/coordinator.cpp:113-121 | A suspected member that was alive before keeps its tokens on the server's ring and is not in the listing, so no client can name it for its keys |
| TopologyRules.RingServesAliveIff | src/main.cpp:84-97 | After any history without collisions, the server's ring holds exactly the tokens of its alive members if and only if no suspected member is still on it |
| Topology.TopologyManager.Load | src/sdk/topology_manager.cpp:129-139 | An unreadable or empty listing changes nothing; otherwise nodes and ring are replaced together |
| Topology.TopologyManager.RebuildRing | src/sdk/topology_manager.cpp:221-229 | The nested loops build the specified ring |
| Topology.TopologyManager.FindOwner | src/sdk/topology_manager.cpp:172-181 | Returns the node owning the hash in the client's ring |
| Topology.TopologyManager.FindSuccessors | src/sdk/topology_manager.cpp:183-209 | Returns the first n distinct nodes met clockwise |
| WaitGroupRuns.RunKeeps | src/coordinator/wait_group.cpp:5-57 | In every interleaving of joins, checks, suspensions and the parts of `complete`, each generation is in the state of its starter and owes a resume to exactly its waiting requests |
| WaitGroupRuns.OneInitiatorPerKey | src/coordinator/wait_group.cpp:5-10 | At most one request fetches a key at a time, and the pending entry it completes is its own |
| WaitGroupRuns.WaiterIsOwedResume | src/coordinator/wait_group.cpp:16-53 | No lost wakeup: while a request waits, the starter of its generation has not returned and owes it exactly one resume |
| WaitGroupRuns.ResumedExactlyOnce | src/coordinator/wait_group.cpp:34-53 | A request suspends and is resumed at most once, and past the wait equally often |
| WaitGroupRuns.ResumesOnlySuspended | src/coordinator/wait_group.cpp:34-36 | A coroutine about to be resumed is suspended in this generation |
| WaitGroupRuns.ServedWithGenerationResult | src/coordinator/wait_group.cpp:55-57 | A joiner is served what the starter of its generation passed to `complete` |
| WaitGroupRuns.JoinsOwnKey | src/coordinator/wait_group.cpp:5-10 | The generation a request joins is one for its own key |
| WaitGroupRuns.StarterMakesProgress | src/coordinator/wait_group.cpp:16-37 | Until the starter of a generation has returned it always has an enabled step, one that brings its return nearer |
| WaitGroupRuns.ResumeLoopBounded | src/coordinator/wait_group.cpp:34-36 | Between any two moments after the publication the number of steps the starter has left only falls, and stays the same exactly while the starter does not move: nobody else can set it back |
| WaitGroupRuns.OthersLeaveStarter | src/coordinator/wait_group.cpp:34-53 | Once the starter resumes its waiters, no step of another request moves it or adds to what it has to do |
| WaitGroupSchedules.Perform | src/coordinator/wait_group.cpp:5-57 | Each step of a request, taken by the methods of the object, is the step of the model |
| WaitGroupSchedules.Serve | src/coordinator/wait_group.cpp:5-57 | A wait group from its construction on, under any schedule of any requests, is in the shared state of the system the schedule leads to, which a run reaches |
| WaitGroups.WaitGroup.TryJoin | src/coordinator/wait_group.cpp:5-10 | The first request for a key starts a generation, later ones join it |
| WaitGroups.WaitGroup.CompleteErase | src/coordinator/wait_group.cpp:20-26 | Takes the pending fetch out of the table, or finds none |
| WaitGroups.WaitGroup.CompletePublish | src/coordinator/wait_group.cpp:27-32 | Publishes the result and takes over the waiters |
| WaitGroups.WaitGroup.AwaitSuspend | src/coordinator/wait_group.cpp:48-53 | Registers the waiter unless the fetch is complete |
| CoordinatorRules.JoinerAnswersLikeInitiator | src/coordinator/coordinator.cpp:58-76 | In every run a joiner gives the very response its initiator got if and only if that is Ok or a NotFound without value; any other, an error above all, reaches it as not found |
| LocalStores.Serve | src/storage/local_store.cpp:7-79 | A store from its construction on, through any list of calls: its contents form a run of the cache, and every read that finds something returns the bytes of the last successful put of that key with no later delete or failed put |
| LocalStores.Perform | src/storage/local_store.cpp:15-79 | One call, whichever, takes a step of the cache from the contents before to the contents after |
| CacheRuns.ReadIsLastWrite | src/storage/local_store.cpp:15-79 | In every run a read returns nothing or exactly the bytes of the last successful put of that key with no later delete or failed put |
| CacheRuns.CachedIsLastWrite | src/storage/local_store.cpp:15-79 | At every moment of every run what is cached under a key is its last write |
| CacheRuns.ReadAfterWrite | src/storage/local_store.cpp:27-79 | A read right after a put sees it, and after a failed put or a delete sees nothing |
| LocalStores.LocalStore.Put | src/storage/local_store.cpp:27-63 | Keeps all views in agreement; a success binds the key, a failure loses it. It succeeds if and only if a slot of the class is free, a page is left, the old entry of the key has that class, or one of the first eight entries the clock of the shard would evict has it, all in the state before the call. It evicts exactly the entries the clock picks up to the first of that class: at most eight on success, the last of that class and none before it, and on failure nine or all of the shard, none of the first eight of that class |
| LocalStores.LocalStore.MakeRoom | src/storage/local_store.cpp:32-57 | Freeing the old entry and reserving a slot: the exact condition of success and the exact victims, from the state before the call |
| LocalStores.LocalStore.Get | src/storage/local_store.cpp:15-25 | Returns the cached bytes, changes no entry, and sets exactly the access bit of the entry read |
| LocalStores.LocalStore.Del | src/storage/local_store.cpp:65-79 | Removes exactly the key, reports whether it was there, keeps all views in agreement |
| LocalStores.LocalStore.Release | src/storage/local_store.cpp:37-38 | Takes exactly the entry out of the evictor and back into the free list of its class |
| LocalStores.LocalStore.Remove | src/storage/local_store.cpp:34-39 | Untracking, freeing and forgetting one entry keeps the views in agreement, removes exactly that key and adds exactly its slot to the free list of its class |
| LocalStores.LocalStore.EvictEntry | src/storage/local_store.cpp:47-54 | Evicts the entry at which the shard's clock stops, from map, ring and allocator, and nothing else; its slot goes to the free list of its class, the clock ticks once |
| LocalStores.LocalStore.Reserve | src/storage/local_store.cpp:42-57 | The retry loop succeeds if and only if a slot of the class is at hand or one of the next eight victims of the clock has that class; it evicts the victims up to the first of that class, or nine, or all |
| LocalStores.LocalStore.WriteEntry | src/storage/slab_entry.h:31-44 | Writing an entry into its slot changes no other entry, and the slot then holds key and value with a clear bit |
| LocalStores.LocalStore.Enter | src/storage/local_store.cpp:59-62 | Entering a filled slot into map and evictor binds the key to the stored value |
| StoreRules.MapValuesAreRing | src/storage/local_store.cpp:27-79 | A shard's map values are exactly the entries its evictor tracks |
| StoreRules.EntriesDisjoint | src/storage/slab_entry.h:16-29 | Two live entries never share a byte |
| StoreRules.WriteKeepsSound | src/storage/slab_entry.h:31-44 | Filling a free slot keeps all other entries and the contents as they were |
| StoreRules.BitsKeepSound | src/storage/clock_evictor.cpp:50-51 | Setting or clearing access bits changes no entry |
| StoreRules.RemoveKeepsSound | src/storage/local_store.cpp:34-39 | Removing one entry from all three views keeps them in agreement and removes exactly that key |
| StoreRules.InsertKeepsSound | src/storage/local_store.cpp:59-61 | Adding one entry to all three views keeps them in agreement and adds exactly that key |
| StoreRules.EmptyShard | src/storage/clock_evictor.cpp:36-37 | Nothing is tracked in a shard exactly when no cached key belongs to it |
| SlabRules.ClassIsSmallestFit | src/storage/slab_allocator.cpp:60-70 | The class of a size is the smallest whose slots are big enough |
| SlabRules.ClassForSize | src/storage/slab_allocator.cpp:60-66 | A size has a class exactly when it is at most the largest slot |
| SlabRules.SlotsDisjoint | src/storage/slab_allocator.cpp:72-88 | Two different slots never share a byte, across classes and pages |
| SlabRules.SlotsTile | src/storage/slab_allocator.cpp:72-88 | A byte is in a slot exactly when its page has been handed out, and then in one slot only |
| SlabTables.FreeAndLiveTile | src/storage/slab_allocator.cpp:72-115 | Free and live slots of all classes together tile exactly the pages handed out |
| SlabTables.AddPageKeepsTiled | src/storage/slab_allocator.cpp:72-88 | Cutting a new page adds exactly its slots to the free list of its class |
| SlabTables.PopKeepsTiled | src/storage/slab_allocator.cpp:104-106 | Handing out a slot keeps the tiling |
| SlabTables.PushKeepsTiled | src/storage/slab_allocator.cpp:109-115 | Taking back a live slot keeps the tiling |
| SlabTables.PushKeepsTiledIff | src/storage/slab_allocator.cpp:109-115 | Pushing any pointer keeps the tiling if and only if it is a live slot of that class |
| SlabAllocators.SlabAllocator.Allocate | src/storage/slab_allocator.cpp:90-107 | Fails only above the largest class or when the class has no free slot and no page is left; otherwise hands out a slot of that class that was not live |
| SlabAllocators.SlabAllocator.Deallocate | src/storage/slab_allocator.cpp:109-115 | A null pointer and an oversize request are ignored, anything else is pushed onto the free list of the size's class; the tiling survives a push if and only if the slot was live and of that class |
| SlabAllocators.SlabAllocator.AssignPage | src/storage/slab_allocator.cpp:72-88 | Cuts the next page into slots, or does nothing when none is left |
| SlabEntries.ImageRoundTrip | src/storage/slab_entry.h:16-44 | Key, value and sizes are read back from the bytes written, the access bit is clear |
| SlabEntries.EntryDependsOnItsBytes | src/storage/slab_entry.h:16-25 | What an entry reads as depends on its own bytes only, and not on its access bit |
| SlabEntries.InitAt | src/storage/slab_entry.h:31-44 | Writes the image of the entry and no byte outside it |
| ClockRules.SweepStopsAtFirstUnmarked | src/storage/clock_evictor.cpp:36-55 | The sweep stops at the first entry clockwise from the hand with a clear bit, or at the hand after one round: at most n + 1 inspections |
| ClockRules.AccessedSurvives | src/storage/clock_evictor.cpp:36-55 | No accessed entry is evicted while one has not been accessed |
| ClockRules.SwapRemoveElements | src/storage/clock_evictor.cpp:5-15 | Swap-removal takes out exactly the entry at its position |
| ClockEvictors.ClockEvictor.EvictOne | src/storage/clock_evictor.cpp:36-55 | Evicts the entry at which the sweep stops, clears exactly the bits passed, and moves ring, marks and hand by one tick of the clock |
| ClockEvictors.ClockEvictor.SweepHand | src/storage/clock_evictor.cpp:39-52 | The hand stops where specified, within the limit of two rounds |
| ClockEvictors.ClockEvictor.Untrack | src/storage/clock_evictor.cpp:22-34 | Removes a tracked entry and brings the hand back into range; an unknown entry changes nothing |
| ClockEvictors.ClockEvictor.Track | src/storage/clock_evictor.cpp:17-20 | Appends the entry and indexes its new place; ring and index still describe each other if and only if it was not tracked before |
| MurmurRules.NearKeysNeverCollide | src/hash/murmurhash3.cpp:73-121 | For every seed two keys of equal length that differ in exactly one aligned four-byte block, or only in the last one to three bytes, have different hashes |
| MurmurRules.FinishUndone | src/hash/murmurhash3.cpp:24-31 | The finalizer has an explicit inverse on all words |
| MurmurRules.RoundUndone | src/hash/murmurhash3.cpp:86-96 | A round can be undone knowing its block, and its block found knowing the state before |
| MurmurRules.ScrambleUndone | src/hash/murmurhash3.cpp:89-91 | The scrambling of a block has an explicit inverse |
| MurmurRules.BlocksTellApart | src/hash/murmurhash3.cpp:86-96 | A difference in one block survives all later rounds |
| Murmur.Murmurhash3X86 | src/hash/murmurhash3.cpp:73-121 | The loop over blocks, the tail and the finalizer compute the specified hash |
| Murmur.ReadTail | src/hash/murmurhash3.cpp:98-110 | The fall-through switch assembles the tail word |

## Left out

- Sockets, io_uring, coroutine plumbing, registered buffers, `mmap` and huge pages: system interfaces without protocol content.
- Wrap-around of 32-bit sequence numbers and 64-bit incarnations in the cluster model: probe causality needs numbers that are not reused.
- Process restarts: a restarted node reuses sequence numbers and incarnation 0, which the protocol does not guard against.
- Concurrent operations on different shards: the store is modelled one call at a time.
- `last_state_change` and all timeouts: any timer may fire at any time.
- Gossip convergence and detection deadlines: the code does not guarantee them.
- The peer client, the client's connection pool, its retry loop and circuit breaker: their behaviour depends on sockets and time, which the model does not have.
- The 8-byte request and response header: a fixed layout, simpler than the gossip codec.
- The 128-bit hashes: not used for placement.
- A store with zero shards or a zero-byte arena: the first divides by zero in the source, the second throws.
- Counters and gauges such as `size`, `memory_used` and `pending_count`: no other operation reads them.
- Uniformity of the hash and balance of load: statistical.
- Ring snapshots handed to concurrent readers: a snapshot is the value of the ring at one step.
