# Verified model of the gossip sentry

The program relays transactions and events between Opera/Sonic peers on behalf of a trusted backend
node. This project models its stateful and concurrent parts in Dafny and proves what they keep over
every run.

Two forms are used. Code that one goroutine runs on its own data is a class or a method with loops,
proved against specification functions whose properties are lemmas. Code whose point is the
interleaving of goroutines is a step system: a `State`, a `Step` for every access to shared state,
`Enabled` and `Apply`; `Runs`/`Exec` give whole interleavings and `Reachable` all states of all runs,
with any number of goroutines.

| module | what it models |
|---|---|
| `OutboundQueue` | one peer's outbound queue: senders, writer and `Close` over the semaphore and the channel |
| `PeerSets`, `Lifecycle` | the peer set; peer goroutines against `Stop`, with `quitSync`, the `closed` flag and both wait groups |
| `Reservoir`, `Topology` | reservoir sampling; the connection advisor, pruning a map while ranging over it in any order |
| `HashCaches` | the ring cache of hashes a peer knows, refining a bounded first-in first-out list |
| `Batching` | greedy splitting of transactions and events, and requests |
| `Recipients` | the 64-bit arithmetic that decides how many peers get full bodies, and which peers get an event in full |
| `PeerSending`, `Broadcast` | a broadcast of transactions end to end, over the caches and queues above, with other goroutines using the same caches and queues at any point in between |
| `Staleness` | epoch mismatches and the grace period, over runs of progress reports |
| `Handshake` | the handshake's three goroutines and the channel of results |
| `Arrivals` | the sidecar's ledger of which side saw a hash first |
| `Inbound` | the semaphore bracket of inbound messages, and the sizes both semaphores need |
| `Relay` | announcements and deliveries in any number of goroutines over the shared cache of seen hashes, evictions included |
| `Basics`, `Sums`, `Filters`, `Semaphores` | options; sums over lists; the reference for loops that keep some elements of a list; the contract of the library's data semaphore |

## Where the code and its own words differ

The model follows the code in each case.

- The comment at pkg/gossip/handler.go:286 says that `Stop` waits for all peer handler goroutines.
  A goroutine that passed the look at `quitSync` and has not reached `wg.Add` is not waited for; it
  can start handling after the wait returned. `Lifecycle.HandlersOutliveStopIff` and
  `Lifecycle.StopReturnsIff` prove for both waits that this is exactly when it happens,
  `Lifecycle.StopCanMissAHandler` and `Lifecycle.StopCanReturnEarly` are such runs, and
  `Lifecycle.ClosedSetGainsNobody` says that such a handler never gets into the peer set.
- pkg/gossip/handler_test.go:66-110 expects that the message semaphore is not held while a payload is
  being read. `handleMsg` acquires it before decoding. `Inbound.SlowReadKeepsOthersOut` is a run at that
  test's limit and sizes in which the acquisition that the test makes is refused, and
  `Inbound.AdmitsIffFitsBesideInFlight` says exactly when one is refused.
- pkg/gossip/handler.go:79-80 says that the hook gets a first look at a transaction. Announcements and
  deliveries share one cache, and looking and inserting are two accesses, so the hook may get a
  transaction never, once or more often. `Relay.EffectsAreAbsentLooks` proves for every run how often,
  `Relay.HookedOnceIff` and `Relay.NeverHookedIff` exactly when once and when never;
  `Relay.TwoDeliveriesHookTwice` and `Relay.AnnouncedFirstYetHooked` are runs without any eviction.
- pkg/gossip/peer.go:517-518 gives the handshake's channel room for two results, but its goroutines may
  post three. `Handshake.NilMeansAllSucceeded` holds all the same. That a goroutine is left behind for
  good has an exact condition, `Handshake.StuckIff` with `Handshake.StuckForGood`, and does happen,
  `Handshake.StuckIsReachable`.

## Model

| member | source | states |
|---|---|---|
| OutboundQueue.QueueLedger | pkg/gossip/peer.go:133-149 | in every reachable state the semaphore holds exactly the channel's items, the one with the writer and those of senders between acquiring and pushing; its warning has never fired |
| OutboundQueue.NoChannelFullDrop | pkg/gossip/peer.go:203-239 | a sender with tokens always finds room and can never take its default case; a refused sender failed to acquire, or watches for termination and saw it |
| OutboundQueue.WireIsPrefixOfAccepted | pkg/gossip/peer.go:133-143 | the sends attempted are a prefix of the accepted pushes, the rest is in hand or in the channel in order, and one sender ended accepted per push |
| OutboundQueue.DropIffUndersized | pkg/gossip/peer.go:116-117 | for any capacity and limit: a drop for a full channel is reachable iff the semaphore admits one more smallest item than the channel has room for |
| OutboundQueue.AcquiredIffItFitted | pkg/gossip/peer.go:199-206 | in any run, where a sender takes its tokens one item and its bytes plus 1024 fitted beside what was held and the semaphore was not terminated; where one that does not wait gives up, that was not so |
| OutboundQueue.NobodyAcquiresAfterTermination | pkg/gossip/peer.go:146-149 | over any run after the semaphore was terminated nobody takes tokens any more |
| OutboundQueue.WriterCanDrain | pkg/gossip/peer.go:133-143 | from every state with a living writer, the writer alone can go on until the wire has seen every accepted item in order, the channel is empty and only senders hold tokens |
| OutboundQueue.RoomForHolder | pkg/gossip/peer.go:297-308 | whoever holds tokens finds room, unless the channel is undersized in that sense |
| OutboundQueue.InvStep | pkg/gossip/peer.go:203-239 | each step of any sender, of the writer or of `Close` keeps the ledger, the order and the reasons of refusals |
| OutboundQueue.InvReleaseSent | pkg/gossip/peer.go:137-138 | the writer's release gives back exactly what the sent item had taken |
| OutboundQueue.FillChannel | pkg/gossip/peer.go:297-308 | with a sleeping writer any number of smallest items up to capacity and limit is accepted (half of the drop's exact condition) |
| PeerSets.PeerSet.RegisterPeer | pkg/gossip/peerset.go:43-59 | registers iff the set is open and the id free, reports a closed set before a taken id, and otherwise leaves the set as it was |
| PeerSets.PeerSet.UnregisterPeer | pkg/gossip/peerset.go:63-73 | removes exactly the id, and fails iff it is absent |
| PeerSets.PeerSet.UselessNum | pkg/gossip/peerset.go:83-94 | the number of registered peers with the useless mark, whatever the order of the map |
| PeerSets.PeerSet.Close | pkg/gossip/peerset.go:158-166 | every registered peer is told to disconnect, nobody else is, and the set is closed |
| Lifecycle.ShutdownSafety | pkg/gossip/handler.go:276-288 | once `Stop` has waited for `wg` the peer set is empty and stays empty in every continuation; once the set is closed every peer in it was told to disconnect |
| Lifecycle.RegistrationOwnership | pkg/gossip/handler.go:364-369 | a registered id belongs to exactly the goroutine between its registration and its removal; the failed-removal branch was never taken |
| Lifecycle.OnlyTheOwnerRemoves | pkg/gossip/peerset.go:43-73 | a step takes an id out of the set, or reassigns it, iff it is its owner's own removal; a rejected duplicate never evicts |
| Lifecycle.RemovalFindsItsPeer | pkg/gossip/handler.go:201-213 | both lookups of the deferred removal find the goroutine's own peer, and exactly that entry goes |
| Lifecycle.HandlersOutliveStopIff | pkg/gossip/service.go:143-160 | when the wait for `wg` returns no handler runs; one can still start later iff some goroutine is between the look at `quitSync` and `wg.Add` |
| Lifecycle.StopReturnsIff | pkg/gossip/handler.go:286-290 | when `Stop` returns nobody is counted by `peerWG`; a handler runs then or later iff some goroutine passed the look at `quitSync` and has not left `handle` |
| Lifecycle.StopCanMissAHandler | pkg/gossip/service.go:143-160 | a run up to the wait for `wg` in which nobody is counted and a goroutine is past the look at `quitSync` |
| Lifecycle.StopCanReturnEarly | pkg/gossip/handler.go:276-290 | a run in which `Stop` has returned and that goroutine is in `handle` |
| Lifecycle.ClosedSetGainsNobody | pkg/gossip/handler.go:278-283 | over any run after the set is closed, whoever is in it was in it, under the same id, when it closed |
| Lifecycle.StagesOnlyAdvance | pkg/gossip/handler.go:276-288 | over any run, closing and waiting are never undone |
| Lifecycle.InvStep | pkg/gossip/handler.go:326-390 | every step of every goroutine and of `Stop` keeps: wait groups count exactly the goroutines in their sections, and the peer map is owned |
| Lifecycle.WaitLeavesNobody | pkg/gossip/handler.go:286-287 | when `wg` is zero no goroutine is in `handle` and the set is empty |
| Lifecycle.PeerCap | pkg/gossip/handler.go:357-369 | with at most k untrusted handlers between check and registration, those registered or in between never exceed maxPeers - 1 + k, however many trusted peers join |
| Lifecycle.PeerCapIsTight | pkg/gossip/handler.go:357-369 | for every k some run within k reaches that bound |
| Lifecycle.UselessShare | pkg/gossip/handler.go:330-338 | the half of the slots open to useless peers: with at most k between check and registration, never more than maxPeers/2 - 1 + k |
| Lifecycle.UselessShareIsTight | pkg/gossip/handler.go:330-338 | for every k some run within k reaches that bound |
| Lifecycle.UselessNumCounts | pkg/gossip/peerset.go:83-94 | what the loop counts is the number of goroutines that are registered with the mark |
| Lifecycle.AdmissionMeans | pkg/gossip/handler.go:330-361 | a trusted peer passes both checks; another passes the first unless it is marked and half of the slots are taken by registered marked peers, the second iff fewer than maxPeers are registered; and who does not pass is rejected |
| Lifecycle.StopCanAlwaysFinish | pkg/gossip/handler.go:276-290 | no deadlock: every reachable state has a continuation in which `Stop` returns, every goroutine has exited and nobody is registered |
| Reservoir.PickIsChosen | pkg/gossip/topology/connection_advisor.go:95-114 | a candidate is kept iff there is one, and it is the one of the last draw that came out zero |
| Reservoir.DrawingsAreAll | pkg/gossip/topology/connection_advisor.go:100-105 | the drawings counted are exactly the sequences whose j-th draw lies in 0..j-1 |
| Reservoir.ReservoirIsUniform | pkg/gossip/topology/connection_advisor.go:82-106 | of the k! drawings exactly (k-1)! select each of the k candidates |
| Topology.ConnectionAdvisor.GetNewPeerSuggestion | pkg/gossip/topology/connection_advisor.go:77-115 | for some order of the keys and some draws the result is the reservoir's pick among the candidates met; exactly the fresh entries remain |
| Topology.CandidateIff | pkg/gossip/topology/connection_advisor.go:89-98 | a peer is a candidate iff a fresh entry lists it, it is not local, and its id is no key, or a stale key visited before that entry |
| Topology.CandidateOccurrences | pkg/gossip/topology/connection_advisor.go:89-98 | a candidate takes part in the draws exactly once for each place (turn, position) at which it is met |
| Topology.View.UnknownIsFilter | pkg/gossip/topology/connection_advisor.go:94-98 | an entry contributes its strangers, all of them, in its order |
| Topology.NewPeerSuggestionIsRight | pkg/gossip/topology/connection_advisor.go:77-115 | for any order and draws: a suggestion comes from a fresh entry and is neither local nor a fresh neighbor; one is made whenever a fresh entry names a stranger |
| Topology.CandidatesIgnoreOrder | pkg/gossip/topology/connection_advisor.go:89-98 | without stale entries the order of the keys does not decide who is a candidate |
| Topology.OccurrencesIgnoreOrder | pkg/gossip/topology/connection_advisor.go:89-106 | nor how often each candidate occurs, and so how likely each is: the multiset of occurrences is the same for all orders |
| Topology.View.OccurrencesMeans | pkg/gossip/topology/connection_advisor.go:130-135 | what a loop over an entry counts for an id is the number of places at which the entry names it |
| Topology.ConnectionAdvisor.CountEntry | pkg/gossip/topology/connection_advisor.go:130-135 | adds to each key's count its occurrences in the entry |
| Topology.ConnectionAdvisor.CountConnections | pkg/gossip/topology/connection_advisor.go:121-137 | counts every id as met in some order of the keys, and leaves exactly the fresh entries |
| Topology.MostCounted | pkg/gossip/topology/connection_advisor.go:140-151 | the list holds exactly the keys with the highest count, each once |
| Topology.ConnectionAdvisor.GetRedundantPeerSuggestion | pkg/gossip/topology/connection_advisor.go:117-157 | the tie list holds exactly the non-local ids with the highest positive count, and the result is one of them, or none if it is empty |
| Topology.TiesAreExact | pkg/gossip/topology/connection_advisor.go:138-151 | deleting the local id and keeping the highest counts gives exactly the argmax over all ids |
| Topology.CountedMeans | pkg/gossip/topology/connection_advisor.go:121-136 | a fresh id's count is its exact number of occurrences in fresh entries, a stale id's at most that, any other id's zero |
| Topology.CountedIsNamings | pkg/gossip/topology/connection_advisor.go:121-136 | the same for every order as the cardinality of the set of places (entry, position) at which fresh entries name the id |
| Topology.TiesAreMostNamed | pkg/gossip/topology/connection_advisor.go:121-151 | without stale entries the tie list holds exactly the non-local keys that the most places name |
| Topology.TiesIgnoreOrder | pkg/gossip/topology/connection_advisor.go:121-151 | without stale entries counts and ties are the same for every order |
| Topology.ConnectionAdvisor.UpdatePeers | pkg/gossip/topology/connection_advisor.go:159-171 | at every later reading of the clock the fresh entries are what they would have been, with this peer's list for as long as it is young enough and without this peer afterwards |
| Topology.ReportTakesEffect | pkg/gossip/topology/connection_advisor.go:77-171 | while a report is fresh its sender is never suggested, and if it names a stranger some peer is, for any order and any draws |
| HashCaches.HashCache.Add | pkg/gossip/peer.go:644-661 | map and ring stay in agreement, and read from `next` the ring is the bounded list with the hash added |
| HashCaches.HashCache.AddAll | pkg/gossip/peer.go:187-190 | a marking loop adds every hash, in order |
| HashCaches.HashCache.Contains | pkg/gossip/peer.go:674-679 | answers for the bounded list |
| HashCaches.HashCache.Cardinality | pkg/gossip/peer.go:681-685 | the length of the bounded list, at most max |
| HashCaches.HashCache.FilterNew | pkg/gossip/peer.go:663-672 | appends exactly the elements the bounded list lacks, in order |
| HashCaches.NotInIsFilter | pkg/gossip/peer.go:663-672 | those are the elements at the positions whose hash the list lacks, each in the place its rank gives it |
| Filters.FilterAtMeans | pkg/gossip/peer.go:663-672 | the reference: as many as there are kept positions, and each kept element at its rank among them |
| HashCaches.RingReading | pkg/gossip/peer.go:655-659 | overwriting the slot at `next` and stepping on drops the oldest hash of the reading and appends the new one |
| HashCaches.RingMembers | pkg/gossip/peer.go:655-660 | the overwritten ring stays without duplicates and holds the old hashes but the evicted one, and the new one |
| HashCaches.FifoIsLastAdmitted | pkg/gossip/peer.go:644-661 | after any adds the list is exactly the last min(n, max) admitted hashes in order of admission |
| HashCaches.FifoDistinct | pkg/gossip/peer.go:644-661 | it never holds a hash twice |
| HashCaches.AdmittedHashSurvives | pkg/gossip/peer.go:644-661 | an admitted hash is resident until exactly max further hashes have been admitted |
| HashCaches.NotReadmitted | pkg/gossip/peer.go:647-649 | until then it is not admitted a second time |
| Batching.WeightMeans | pkg/gossip/peer.go:247 | the charge for a list is the sum of the sizes and 1024 for each element |
| Batching.NextBatch | pkg/gossip/peer.go:244-252 | a prefix of 1 to 250 elements, no proper prefix of which is charged 2 MiB, and which is everything, or has 250 elements, or is charged 2 MiB |
| Batching.Split | pkg/gossip/peer.go:241-256 | the batches concatenate to the input; each has 1 to 250 elements, no proper prefix charged 2 MiB; all but the last have 250 or are charged 2 MiB |
| Batching.GreedyInBytes | pkg/gossip/peer.go:241-275 | that is what greedy means, in sums of sizes |
| Batching.ConcatMeans | pkg/gossip/peer.go:253-254 | concatenation puts every element of every batch at its place behind the earlier batches |
| Batching.GreedyIsOptimal | pkg/gossip/peer.go:241-275 | no other split into sendable batches has fewer |
| Batching.GreedyStaysAhead | pkg/gossip/peer.go:241-275 | greedy on any suffix needs no more batches than any split of the whole |
| Batching.BatchCountBound | pkg/gossip/peer.go:241-275 | at most 1 + n/250 + W/limit batches for n elements of weight W |
| Batching.CheckLenLimits | pkg/gossip/handler.go:50-58 | a list is legal iff it has 1 to 1000 elements |
| Batching.BatchesAreLegal | pkg/gossip/handler.go:50-58 | every batch passes the receiver's length check |
| Batching.Request | pkg/gossip/peer.go:450-490 | requests of at most 250 ids follow the input; the first that cannot be sent is the last attempted |
| Batching.RequestedSoFar | pkg/gossip/peer.go:471-489 | exactly the first 250 ids are asked for with every request attempted |
| Batching.RequestedIff | pkg/gossip/peer.go:471-489 | it succeeds iff each of the requests that the number of ids takes can be sent |
| Recipients.DecideBroadcastAggressiveness | pkg/gossip/handler.go:655-689 | with wrap-around the result lies in 0..peersNum for all inputs; without weight on throughput it is all peers; and wherever latency*100 and passed*(128+size) fit it is the answer in the inputs alone |
| Recipients.FullRecipientsMeans | pkg/gossip/handler.go:659-688 | that answer: all at a weight ratio of a million or more, none at opposite signs or a share under one percent; else all up to 7 ms of cost for each percent of latency, the root but at least four up to ten times that, none beyond |
| Recipients.RatioMeans | pkg/gossip/handler.go:661-672 | the truncated share reaches the maximum iff the ratio of the weights reaches a million, and is positive iff the ratio reaches one percent |
| Recipients.TargetsFit | pkg/gossip/handler.go:665-666 | on every branch that uses them neither cost target overflows |
| Recipients.CostWraps | pkg/gossip/handler.go:664 | wherever the product fits, the wrap-around of the sum does not change it |
| Recipients.LessForLargerOrOlder | pkg/gossip/handler.go:668-688 | a larger or older payload never goes to more peers |
| Recipients.MoreForMorePeers | pkg/gossip/handler.go:678-687 | more peers never mean fewer full recipients |
| Recipients.CostFitsIff | pkg/gossip/handler.go:664 | exactly up to which size the product fits, for every age |
| Recipients.DivideRecipients | pkg/gossip/handler.go:706-715 | the first peers without the useless mark, as many as asked for or as there are, get the event in full; all others get its hash |
| Recipients.GoodAreUnmarked | pkg/gossip/handler.go:710 | exactly the peers of the list without the mark may get the event in full |
| Recipients.GoodIsFilter | pkg/gossip/handler.go:709-715 | and they do so in the order of the list |
| Broadcast.BroadcastTxs | pkg/gossip/handler.go:729-758 | with other goroutines acting at every point: the plan holds exactly what each registered peer lacked when it was looked at; each planned peer was handed that, greedily split, all as bodies or all as hashes; exactly as many as the decision says got bodies; to the others only other goroutines did anything |
| Broadcast.Plan | pkg/gossip/handler.go:733-741 | exactly the peers that lacked something, each with all it lacked at the readings, in order, and the total size |
| Broadcast.LackingIsFilter | pkg/gossip/handler.go:734-738 | what a peer lacked, in plain terms: the transactions at whose reading it was registered and their hash not among the last ones added to its cache |
| Broadcast.TotalSizeMeans | pkg/gossip/handler.go:739 | the total is the sum of the sizes |
| Broadcast.PlanStep | pkg/gossip/handler.go:734-738 | adding one transaction to the lists of those without it keeps the plan exact |
| Broadcast.PlanStays | pkg/gossip/handler.go:733-741 | what other goroutines add to the caches later does not change what the plan was read from |
| Broadcast.PeersWithoutTx | pkg/gossip/peerset.go:113-124 | exactly the registered peers whose cache lacked the hash when it was looked at, each once |
| Broadcast.ServePlan | pkg/gossip/handler.go:743-757 | in any order of the map, every planned peer is served its own list and exactly `fullRecipients` of them get bodies |
| Broadcast.ServeStep | pkg/gossip/handler.go:744-757 | serving one more peer keeps what the others got, whatever other goroutines do to them meanwhile |
| PeerSending.Peer.SendBatches | pkg/gossip/handler.go:745-755 | the peer's batches are the greedy split; each has a sender of its own in the queue, accepted ones are pushed in order, and the broadcast adds to the cache, in order, exactly the accepted batches' hashes |
| PeerSending.ServedMeans | pkg/gossip/handler.go:745-755 | what serving a peer comes to, element by element: batches of 1 to 250 that concatenate to its list, each handed over as the transactions or as the hash of each; every accepted one's own encoding pushed under its message code and all its hashes marked; every other one without encoding, without room when it tried, or, for hashes only, before a closed queue |
| PeerSending.EncodedMeans | pkg/gossip/peer.go:279-318 | bodies are encoded as transactions and sent under code 2, announcements as hashes under code 3 |
| PeerSending.Peer.AsyncSendTransactions | pkg/gossip/peer.go:279-294 | hashes are marked known iff the queue took the batch; otherwise it could not be encoded or did not fit when it came to the acquisition |
| PeerSending.Peer.AsyncSendTransactionHashes | pkg/gossip/peer.go:312-326 | the same for announcements, which may also have met a closed queue |
| PeerSending.Peer.SendAndMark | pkg/gossip/peer.go:286-291 | one item goes through the queue with a sender of its own, and its hashes are marked iff it was pushed |
| PeerSending.Peer.MarkKnown | pkg/gossip/peer.go:287-290 | with additions by others in between: the hashes are added, in order, and nothing else by this goroutine |
| PeerSending.Peer.TrySend | pkg/gossip/peer.go:203-221 | with other goroutines interleaved: true means that this item was pushed, false that it did not fit at its acquisition, or that the queue is closed and the routine watches for that |
| PeerSending.Peer.TakeTokens | pkg/gossip/peer.go:199-206 | the acquisition takes place in a state that others' steps reach from the call, and succeeds iff there one item and its bytes plus 1024 fit and the semaphore is not terminated |
| PeerSending.Peer.PushOrRefuse | pkg/gossip/peer.go:213-220 | with tokens in hand the push succeeds, or the queue is closed and the tokens went back |
| PeerSending.OthersFollow | pkg/gossip/peer.go:203-239 | whatever other goroutines do, this sender's state, what was accepted and how others ended stay |
| PeerSending.HolderCanPush | pkg/gossip/peer.go:301-307 | a holder of tokens can push and cannot drop |
| PeerSending.InOrderGrows | pkg/gossip/handler.go:745-755 | one more batch has a later sender and, if pushed, a later place than all before it |
| PeerSending.ServedAmidOthers | pkg/gossip/handler.go:744-757 | what serving a peer means does not depend on what other goroutines do before and after |
| PeerSending.NewlyKnownWasPushed | pkg/gossip/peer.go:286-291 | a hash newly known after a broadcast was told by another goroutine, or was in a batch that the queue accepted |
| Staleness.Peer.CheckPeerStaleness | pkg/gossip/handler.go:626-653 | a match clears the mark; a mismatch sets it once and drops the peer iff a positive grace has run out since it was set |
| Staleness.Peer.OnProgress | pkg/gossip/handler.go:512-521 | an accepted report is stored; a dropping one leaves the stored progress alone |
| Staleness.StaleSinceMeans | pkg/gossip/handler.go:626-651 | `staleSince` is the time of the first report of the current unbroken run of mismatches, unset iff there is none; the stored progress is the last report's |
| Staleness.DroppedIffOverdue | pkg/gossip/handler.go:640-644 | a peer is dropped at a report iff that run has lasted longer than the grace |
| Staleness.KeptIffNeverOverdue | pkg/gossip/handler.go:626-653 | over whole runs: kept iff no report was overdue |
| Staleness.NoGraceNeverDrops | pkg/gossip/handler.go:629 | without a positive grace nobody is dropped and nothing is marked |
| Handshake.NilMeansAllSucceeded | pkg/gossip/peer.go:515-595 | in every interleaving nil means that both sends succeeded and that one message was read: code 0, of legal size, decodable, with our genesis, our network or none, and our version |
| Handshake.ReadStatusMeans | pkg/gossip/peer.go:564-595 | those are exactly the messages that readStatus accepts |
| Handshake.HandshakeCanSucceed | pkg/gossip/peer.go:515-554 | and for each of them some run returns nil |
| Handshake.InvStep | pkg/gossip/peer.go:520-553 | every step keeps: each posted result tells how its operation ended, and a side's second result follows a failure |
| Handshake.AcceptMeans | pkg/gossip/peer.go:564-595 | what accepting a status says about its sender, wildcard and 32-bit version included |
| Handshake.OneSidedAcceptanceIsWeaker | pkg/gossip/peer.go:580-583 | one acceptance alone does not give equal networks |
| Handshake.BothNilAgree | pkg/gossip/peer.go:515-595 | two handshakes that both return nil on each other's status agree on version, network and genesis |
| Handshake.StuckIff | pkg/gossip/peer.go:517-552 | once nothing is left to do, a goroutine is left behind iff the send of the status failed and the caller gave up before it received anything |
| Handshake.StuckForGood | pkg/gossip/peer.go:517-552 | whoever is blocked on the full channel after the caller returned stays blocked in every continuation |
| Handshake.StuckOnlyAfterFailedSend | pkg/gossip/peer.go:517-540 | at any time, settled or not, that much is needed |
| Handshake.StuckIsReachable | pkg/gossip/peer.go:517-552 | a run in which the sender's two results fill the channel, the caller times out and the reader is blocked |
| Arrivals.Sidecar.Record | sidecar/main.go:61-83 | opens an entry, ignores a duplicate, or closes the match and observes its signed delta |
| Arrivals.Sidecar.Sweep | sidecar/main.go:159-179 | in any order of the map, removes exactly the expired entries and counts them by side |
| Arrivals.SweepStep | sidecar/main.go:162-176 | looking at one more key removes and counts it iff it has expired |
| Arrivals.SideLedger | sidecar/main.go:61-83 | over every run, each side's arrivals = its duplicates + all matches + its orphans + its entries still tracked |
| Arrivals.ArrivalLedger | sidecar/main.go:61-83 | arrivals = duplicates + 2 * matches + orphans + entries still tracked |
| Arrivals.TallyMeans | sidecar/main.go:61-83 | the ledger's totals are numbers of positions: the arrivals of a side, those that found an entry of their own side, those that ended one of the other, and the entries that sweeps removed |
| Arrivals.DeltaSign | sidecar/main.go:68-77 | over every run with a clock that does not go back, the sign of a delta tells which side opened the entry |
| Arrivals.DeltaIsElapsed | sidecar/main.go:68-77 | over every run its size is exactly the time since the arrival that opened the entry |
| Arrivals.TrackedIff | sidecar/main.go:61-83 | over every run a hash is tracked iff some arrival opened it and neither the other side nor a sweep more than two minutes later has come since; and it keeps that arrival |
| Inbound.InboundBalance | pkg/gossip/handler.go:482-504 | in every interleaving the semaphore holds exactly the messages in flight, nothing once all have returned by whichever path; its warning has never fired |
| Inbound.InvStep | pkg/gossip/handler.go:490-504 | every step of every handler keeps that balance |
| Inbound.AllCanFinish | pkg/gossip/handler.go:482-504 | from every state all handlers can end, and then nothing is held |
| Inbound.AdmitsIffFitsBesideInFlight | pkg/gossip/handler.go:496-504 | in every interleaving a message is admitted iff it fits beside all those between acquisition and release, payloads still being read among them |
| Inbound.HeldWhileDecoding | pkg/gossip/handler.go:500-525 | while one handler decodes or processes, its tokens are held: a message that does not fit beside it is not admitted |
| Inbound.SlowReadKeepsOthersOut | pkg/gossip/handler_test.go:70-110 | a run with a limit of one message of 100 bytes in which such a payload is being read and one byte is not admitted |
| Inbound.IdleAdmitsLegalIffValid | pkg/gossip/config.go:149-157 | an idle semaphore admits every message that passes the size check iff the config validates and the item limit is positive |
| Inbound.IdleQueueAdmitsLegalIff | pkg/gossip/config.go:159-166 | an idle default queue admits every message of legal length iff the scale makes up for the last quarter of the maximum |
| Inbound.IdentityScaleSufficesIff | pkg/gossip/config.go:159-166 | at identity scale that is so iff the maximum is divisible by four |
| Inbound.DefaultAtIdentity | pkg/gossip/config.go:159-166 | the sizes at identity scale |
| Inbound.DefaultPeersAreSound | pkg/gossip/config.go:159-166 | under any scale the default caches and queue have room for something, and no run of the default queue drops an item for a full channel |
| Relay.EffectsAreAbsentLooks | pkg/gossip/handler.go:392-442 | in every run, evictions and all interleavings included, the listings of a hash for a request and the hooks of it number exactly the looks, of announcements and of valid deliveries, that found it absent, but for those still on the way |
| Relay.HookedOnceIff | pkg/gossip/handler.go:414-442 | a transaction reached the hook exactly once iff exactly one valid delivery looked for it while it was not resident |
| Relay.NeverHookedIff | pkg/gossip/handler.go:403-436 | it never reached the hook iff every valid delivery looked for it while it was resident, by whichever message it came in |
| Relay.ResidentIff | pkg/gossip/handler.go:403-436 | a hash is resident iff it was inserted and not evicted since |
| Relay.AbsentIffBeforeInsertion | pkg/gossip/handler.go:403-436 | without evictions a hash is absent, for every look, exactly until its first insertion |
| Relay.FateOfLook | pkg/gossip/handler.go:403-440 | a task goes on after its look iff the hash was not resident then |
| Relay.EndOfTask | pkg/gossip/handler.go:403-440 | over every run a task that has ended was skipped iff the hash was resident at its look, refused iff it was absent and the delivery invalid, and otherwise went all the way |
| Relay.TwoDeliveriesHookTwice | pkg/gossip/handler.go:420-438 | a run without evictions in which two peers' deliveries of one transaction are both hooked |
| Relay.AnnouncedFirstYetHooked | pkg/gossip/handler.go:403-438 | a run without evictions in which an announcement brings the hash in and a delivery is hooked all the same |
| Relay.OthersFollow | pkg/gossip/handler.go:392-442 | whatever other goroutines do, this task's state, the effects so far and how others ended stay |
| Relay.Handler.HandleTxHashes | pkg/gossip/handler.go:392-412 | with other goroutines between any two accesses: every announced hash has a task of its own, the list is the announced hashes whose task went all the way, in order, and it is requested batch by batch until a send fails |
| Relay.ThroughIsFilter | pkg/gossip/handler.go:397-407 | the list is that filter of the announced hashes |
| Relay.Handler.HandleTxs | pkg/gossip/handler.go:414-442 | with other goroutines between any two accesses: every delivery has a task of its own, skipped when it was found, refused only if it is invalid, hooked only if it is valid |

## Left out

- RLP, `p2p.Send` and `ReadMsg`, enode parsing, signatures and gas prices: opaque values, or success and failure as inputs.
- The inside of the data semaphore: its contract is stated in `Semaphores`; its counters do not wrap at their machine width. A blocking acquisition may fail at any time, since timeouts have no clock here.
- The inside of `wlru`: a set whose single calls are atomic and which may evict any entry at any time.
- Go's `math.Sqrt` on float64: floor of the square root, the same for peer counts below 2^52; `common.StorageSize`, a float64, is a natural number, the same for totals below 2^53.
- `sync.WaitGroup` panics on misuse (an `Add` beside a `Wait` at zero): only the counters are modelled.
- Recipients.DecideBroadcastAggressiveness: for negative sizes or ages, and where passed*(128+size) exceeds 64 bits, only the range of the result is stated.
- Batching.Split: sizes are unbounded naturals, without the conversion to `int` and its overflow.
- HashCaches.HashCache.Add: requires max > 0; with max = 0 the source panics on its first `Add`.
- HashCaches.HashCache.Contains: the map and ring are under one lock in the source; here a call is one step.
- The second copies of the cache and of the splitter, for events: the generic ones stand for both.
- Broadcast.BroadcastTxs: which peers are registered at each lookup is an input; a peer that is served stays one of the peers considered even if it unregisters meanwhile, as in the source.
- Broadcast.PeersWithoutTx: the peer set is a set of peers; the lookup by id is in `PeerSets`.
- `enqueueSendEncodedItem` is a kind of sender in `OutboundQueue`, not a method of `PeerSending.Peer`.
- `BroadcastEvent` apart from whom it sends to (`Recipients.DivideRecipients`): its sends are one event through the caches and queues modelled for transactions. `PeersWithoutEvent`, `InterestedIn`, `handleEvents` and `handleEventHashes`.
- Staleness.Peer.CheckPeerStaleness: the clock is read through two arbitrary readings per report, and the lock around the mark is not modelled, a peer having one message loop.
- The hook's own channel in `MakeProtocols`, which drops when full, and the goroutine count under `peerInfoStop` and the other loops.
- A listed hash whose request could not be sent stays in the cache, in the source and here; nothing is said about who asks for it later.
- `handleTxHashes` and `handleTxs` also mark the hashes as known to the sending peer: `HashCaches.HashCache.AddAll` on that peer's cache, not repeated in `Relay`.
- The copy of the list that `UpdatePeers` takes: a sequence cannot be changed by its caller.
- `SendTransactionHashes`, `SendEvents` and the other blocking sends: an encoding and a send.
- Discovery loops, saving and loading peers, the RPC backend, metrics, logging, `config/`, `cmd/` and the sentry's node construction.
- The message codes that `handleMsg` ignores, getters, setters, and `PeerProgress.Less`.
