# Bifrost, verified

A Dafny model of the parts of the Bifrost Kafka proxy where a mistake would be hard to see:
the wire codec that rewrites and merges Metadata responses, the SASL relay, and the state
machines that decide where traffic goes when clusters fail.

`dafny verify dfyconfig.toml` checks the whole project.

## What is modelled

**Wire codec.** `Wire`, `WireArrays`, `MetadataGrammar` and `TopicGrammar` give the Metadata
grammar as the code reads it ("Protocol Primitive Types" and "The Messages: Metadata API" of the
Apache Kafka protocol guide), as chains of readers and printers. `MetadataCodec` and `SyntheticCodec`
are the cursor loops and buffer writers, proved to compute what the grammar says. On top of that:
parser and printer are inverse, rewriting preserves meaning, and a synthesised frame reads back as
the merge of two clusters (`SyntheticMetadata`, `MergeByKey`).

**Leader cache.** `LeaderGrammar` and `LeaderCache` are the second, independent version 0 parser.
`LeaderLaws` and `SyntheticLeaders` say what its map means and how it agrees with the rewriter and the
synthesiser on the same bytes; `Addresses` says what the addresses in it are.

**SASL.** `SaslExchange` is the relay as a transducer between two byte streams, with its conservation law
in both directions.

**Load balancing with slow failback.** `LoadBalance` and `LoadBalanceLaws`: exactly when an endpoint fails
over and back, where traffic goes, and what the circuit breaker bounds, over every run of results.

**Disaster recovery.** `DisasterRecovery` composes the state machine, the controller, the drain manager and the
coordinator; `DisasterRecoveryObjects` are the objects that carry it out; `DisasterRecoveryLaws` and `ClusterHealth` hold
what is true of every run, and when exactly the controller acts. `TransitionRaces`, `CallbackOrder` and `DrainCounting` take the locks apart: concurrent
transition calls, their callbacks, and the connection count under every interleaving. `SlidingWindow` is the arithmetic of the two circuit breakers,
`Picking` says what a filtering loop keeps.

**Connection pool.** `ConnectionPool`: token conservation under every interleaving, and the pool's own operations.

**Sticky weights.** `StickyRouting`, `WeightRebalance` and `WeightLaws`: the hash, the automatic weight shifting and
exactly when original weights return, and when too soon.

Times are numbers that do not decrease, one clock reading a step; randomness, dial results and write failures are
parameters or arbitrary choices; each atomic section of the source is one step.

## Where the code and its comments differ

The model follows the code.

- internal/failover/rebalance.go:14-16 says a tripped breaker locks an endpoint DOWN until someone intervenes; the history is
  pruned on every attempt, so the lock expires with the window (`LoadBalanceLaws.FailbackExactly`). It guards promotions only,
  so a window can hold one demotion more than the maximum (`LoadBalanceLaws.BreakerBoundIsReached`).
- internal/failover/controller.go:215-244 takes a drain always to leave the configured active cluster. A failback's or a reload's
  drain may not, and then entering BOTH_DOWN moves traffic (`DisasterRecoveryLaws.EntryKeepsTargetExactly`).
- internal/failover/rebalance.go:160-161 sends all traffic to the endpoint that is UP; one with a configured weight of 0 gets none, and all
  goes to the endpoint that is not UP (`LoadBalanceLaws.RoutingAvoidsDown`).
- internal/failover/state.go:188-195 runs callbacks after the lock is released, so later commits can overtake them, and the callback is what
  starts a drain: the last one to run decides (`CallbackOrder.OrderKeptExactly`, `CallbackOrder.OrderlyDrainIsRight`,
  `CallbackOrder.CallbacksCanReorder`).
- internal/routing/rebalance.go:9-11 promises that a primary's weight returns only after recovery_min_uptime. Three things return it sooner:
  the secondary going down (all the weight, even to a primary that is down), the secondary coming up, and a recovering primary dropping,
  whose uptime is then the zero time. A primary that is down in the first report keeps its weight. Nothing else breaks the promise
  (`WeightLaws.NeverPrematureExactly`, `WeightLaws.SecondaryFlapRestores`, `WeightLaws.FlapInRecoveryRestores`,
  `WeightLaws.PrimaryDropRestores`).
- internal/pool/pool.go:108-109 says a blocked Get is woken when cleanup closes a connection; only one that is put back wakes it, and it can
  wait beside a free slot (`ConnectionPool.WaitsForAReturnOnly`, `ConnectionPool.WaitsBesideAFreeSlot`).
- internal/routing/sasl.go:210-211 speaks of a 6-byte header; the whole request header is consumed and returned.
- From version 8 internal/routing/synthetic_metadata.go:189-195 reads ClusterAuthorizedOperations before the topic array, where the protocol
  guide has it after; and the compact encodings of version 9 are not handled. The grammar here is the code's.
- The merge keeps the first of several entries of one topic and the leader cache the last (`SyntheticLeaders.SynthesisMergesLeaders`).
- The rewriter keeps bytes after the topic array and the synthesiser drops them (`SyntheticMetadata.SynthesisWithoutSecondary`).

## Model

| member | source | states |
|---|---|---|
| Wire.Read16Inverts | internal/routing/metadata.go:132-203 | Reading a printed signed 16-bit number gives it back, with what follows left unread |
| Wire.Read32Inverts | internal/routing/metadata.go:132-203 | The same for 32 bits |
| Wire.ReadU32Inverts | internal/pool/leader_cache.go:477-590 | The same for the unsigned 32-bit counts the leader parser reads |
| Wire.Read16Splits | internal/routing/metadata.go:132-203 | Any two bytes are the printed form of the signed, and of the unsigned, number read from them |
| Wire.Read32Splits | internal/routing/metadata.go:132-203 | The same for four bytes |
| Wire.BigEndian | internal/routing/metadata.go:132-203 | The first byte counts most, and its top bit is the sign |
| Wire.Copy | internal/routing/metadata.go:295-305 | Copying into an output buffer at an offset changes exactly that stretch |
| MetadataGrammar.BrokerReaderInvertsPrinter | internal/routing/metadata.go:132-203 | The broker parser accepts exactly the printed form of a valid broker followed by anything, at every version |
| MetadataGrammar.BrokerSize | internal/routing/metadata.go:132-203 | A broker has a rack from version 1 on |
| MetadataGrammar.BodyReadsBrokers | internal/routing/metadata.go:61-123 | On any printed valid brokers, with any bytes after them, the body reader finds exactly those: behind the throttle from version 3 on, first before that |
| MetadataGrammar.FrameReaderInvertsPrinter | internal/routing/metadata.go:61-351 | The frame parser accepts exactly the byte strings within the size limit that start with the printed form of a well-formed response, and returns that response: parser and printer are inverse in both directions |
| MetadataGrammar.RewritePreservesMeaning | internal/routing/metadata.go:319-351 | A rewritten frame reads back as the original response with every broker at the proxy's host and port and nothing else changed |
| MetadataGrammar.RewriteFixpoint | internal/routing/metadata.go:319-351 | Rewriting returns a frame unchanged, cut to its declared size, if and only if its brokers already carry the proxy's address |
| MetadataGrammar.RewriteTwice | internal/routing/metadata.go:319-351 | Rewriting twice is rewriting once with the last address, errors included |
| MetadataGrammar.RewriteAccepts | internal/routing/metadata.go:217-351 | When rewriting succeeds, by the lengths of the frame and its hosts alone, and otherwise with which error |
| MetadataGrammar.CutShort | internal/routing/metadata.go:319-351 | A printed frame cut short anywhere is refused as too short |
| MetadataCodec.ParseAddress | internal/routing/metadata.go:132-168 | Node id, host and port are those the address grammar reads, or the truncation error |
| MetadataCodec.ParseBroker | internal/routing/metadata.go:132-203 | The cursor parser consumes what the broker grammar consumes and fails with the same error |
| MetadataCodec.ParseRack | internal/routing/metadata.go:170-202 | Absent, null, negative and present racks, by version |
| MetadataCodec.ParseBrokers | internal/routing/metadata.go:105-113 | The broker loop reads the whole array or reports the first error |
| MetadataCodec.ParseMetadataResponseBody | internal/routing/metadata.go:61-123 | The body parser computes the grammar's reading: size limit, throttle by version, brokers, raw bytes before and after |
| MetadataCodec.WriteBroker | internal/routing/metadata.go:231-264 | Appends the printed broker at the proxy's address with its own id and rack |
| MetadataCodec.WriteBrokers | internal/routing/metadata.go:223-264 | The output buffer holds the printed array of all brokers readdressed, in order |
| MetadataCodec.AssembleFrame | internal/routing/metadata.go:275-308 | The buffer filled at a moving offset is the frame with the recomputed size, or the size-limit error |
| MetadataCodec.RewriteBrokers | internal/routing/metadata.go:217-308 | The rewritten frame, or the host-length or size-limit error |
| MetadataCodec.RewriteMetadataResponse | internal/routing/metadata.go:319-351 | The imperative rewriter computes `Rewrite`, the function the rewriting laws are about |
| TopicGrammar.TopicReaderInvertsPrinter | internal/routing/synthetic_metadata.go:239-307 | Topic entries are self-delimiting: the topic reader accepts exactly a printed topic followed by anything |
| TopicGrammar.SkipInterBrokerIsLocal | internal/routing/synthetic_metadata.go:163-195 | What is skipped between brokers and topics depends on the skipped bytes only, so it can be moved to another frame |
| TopicGrammar.InterBrokerReaderInvertsPrinter | internal/routing/synthetic_metadata.go:163-195 | What is skipped is exactly a cluster id from version 2 on (any negative length for null), a controller id from version 1 on and authorised operations from version 8 on |
| TopicGrammar.SectionReaderInvertsPrinter | internal/routing/synthetic_metadata.go:163-227 | A topic section is read exactly when it starts with those fields and a printed array of valid topics, and these are what is read |
| TopicGrammar.PartitionSize | internal/routing/synthetic_metadata.go:321-374 | A partition has a leader epoch from version 7 on and offline replicas from version 5 on |
| TopicGrammar.TopicSize | internal/routing/synthetic_metadata.go:239-307 | A topic has an internal flag from version 1 on and authorised operations from version 8 on |
| TopicGrammar.SectionSplits | internal/routing/synthetic_metadata.go:163-227 | The raw bytes of the topic entries tile the topic array |
| TopicGrammar.SectionInverts | internal/routing/synthetic_metadata.go:163-227 | A topic section keeps its meaning when its topics are replaced and other bytes follow it |
| TopicGrammar.IntsFit | internal/routing/synthetic_metadata.go:378-392 | Skipping an int32 array by its length accepts exactly when its elements can be read |
| SyntheticCodec.SkipInt32Array | internal/routing/synthetic_metadata.go:378-392 | The skipping cursor moves past exactly what reading the array consumes, with the same errors |
| SyntheticCodec.SkipPartitionHeader | internal/routing/synthetic_metadata.go:321-348 | The fixed fields of a partition, with the leader epoch from version 7 |
| SyntheticCodec.SkipPartition | internal/routing/synthetic_metadata.go:321-374 | The same for a whole partition, at every version |
| SyntheticCodec.SkipPartitions | internal/routing/synthetic_metadata.go:287-293 | The same for the partition loop |
| SyntheticCodec.ParseTopicName | internal/routing/synthetic_metadata.go:239-274 | The name returned is the one the topic reader reads |
| SyntheticCodec.ParseOneTopic | internal/routing/synthetic_metadata.go:239-307 | The entry's raw bytes are the printed form of the topic that is read, and its name that topic's |
| SyntheticCodec.ParseTopics | internal/routing/synthetic_metadata.go:216-226 | The topic loop collects the entry of every topic, in order |
| SyntheticCodec.SkipToTopics | internal/routing/synthetic_metadata.go:163-195 | Cluster id, controller id and, from version 8, authorised operations are skipped as the grammar says |
| SyntheticCodec.ParseTopicArray | internal/routing/synthetic_metadata.go:163-227 | The entries and the inter-broker bytes are those of the section the grammar reads |
| SyntheticCodec.ParseResponseFrame | internal/routing/synthetic_metadata.go:130-157 | The frame parser of the synthesiser computes the rewriter's reading of the same bytes |
| MergeByKey.MergeMeaning | internal/routing/synthetic_metadata.go:497-535 | The merge keeps the primary list and appends exactly the entries with new keys, each once, by its first entry, in order |
| MergeByKey.MergeAddsNothing | internal/routing/synthetic_metadata.go:497-535 | The merge is the primary list if and only if the secondary has no new key |
| MergeByKey.MergeLists | internal/routing/synthetic_metadata.go:497-535 | The loop with its `seen` map computes the merge |
| SyntheticCodec.MergeBrokers | internal/routing/synthetic_metadata.go:497-512 | Brokers are merged by node id, the primary winning |
| SyntheticCodec.MergeTopics | internal/routing/synthetic_metadata.go:516-535 | Topics are merged by name, the primary winning, raw bytes untouched |
| SyntheticCodec.MergeEntries | internal/routing/synthetic_metadata.go:516-535 | Merging raw entries is merging the topics they are the bytes of |
| SyntheticCodec.WriteTopics | internal/routing/synthetic_metadata.go:447-454 | The topic buffer is the printed array of the merged topics |
| SyntheticCodec.BuildSyntheticResponse | internal/routing/synthetic_metadata.go:396-492 | The frame built from merged brokers, the primary's inter-broker bytes and merged topics |
| SyntheticCodec.ParseSide | internal/routing/synthetic_metadata.go:54-64 | A cluster's frame read down to its topic entries |
| SyntheticCodec.SynthesizeMetadataResponse | internal/routing/synthetic_metadata.go:44-126 | The imperative synthesiser computes `Synthesize`: an unreadable primary is an error, an unreadable secondary counts as none |
| SyntheticMetadata.SideReaderInvertsPrinter | internal/routing/synthetic_metadata.go:130-227 | A response is read down to its topics exactly when it starts with the printed form of a well-formed response whose tail is a printed valid topic section: reader and printer are inverse at every version |
| SyntheticMetadata.SynthesisReparses | internal/routing/synthetic_metadata.go:44-126 | Re-reading a synthesised frame gives back exactly the merge: the primary's ids, throttle and inter-broker bytes, merged brokers at the proxy with their racks, merged topics as they were, and nothing after them |
| SyntheticMetadata.SynthesisListsBoth | internal/routing/synthetic_metadata.go:44-126 | The synthesised frame field by field, with the secondary missing, unreadable or read: the primary's fields, its brokers and then exactly the secondary's with a new node id, each first entry, at the proxy's address, its topics and then exactly those with a new name |
| SyntheticMetadata.SynthesisAccepts | internal/routing/synthetic_metadata.go:44-126 | When synthesis succeeds, and otherwise with which error |
| SyntheticMetadata.SynthesisWithoutSecondary | internal/routing/synthetic_metadata.go:66-79 | Without a secondary, synthesis equals plain rewriting byte for byte, errors included, if and only if nothing follows the primary's topic array or synthesis is refused |
| SyntheticMetadata.UselessSecondary | internal/routing/synthetic_metadata.go:44-126 | On every input: a secondary leaves the result as it would be without one if and only if that is an error, or the secondary cannot be read or adds no new node id and no new topic name |
| SyntheticMetadata.SelfMerge | internal/routing/synthetic_metadata.go:81-126 | A cluster merged with itself is the cluster alone, errors included |
| SyntheticMetadata.SynthesisIdempotent | internal/routing/synthetic_metadata.go:44-126 | Merging the same secondary into the result again gives the result again |
| LeaderCache.SkipIntsBlindlyV0 | internal/pool/leader_cache.go:678-690 | Skipping an array of a partition in error does not check that its values are there |
| LeaderCache.SkipIntsV0 | internal/pool/leader_cache.go:626-652 | Skipping an array of a partition without error checks that they are |
| LeaderCache.SkipPartitionV0 | internal/pool/leader_cache.go:669-693 | The skipping cursor of a topic in error, which may move past the end of the body |
| LeaderCache.ParsePartitionStartV0 | internal/pool/leader_cache.go:605-624 | Error code, index and leader id, with the truncation errors |
| LeaderCache.SkipReplicasV0 | internal/pool/leader_cache.go:626-652 | The replica and ISR lists are skipped as the grammar says |
| LeaderCache.ParsePartitionFieldsV0 | internal/pool/leader_cache.go:605-652 | The fields of one partition up to its end are those the grammar reads |
| LeaderCache.LookUpLeader | internal/pool/leader_cache.go:656-665 | The leader's address, none for a partition in error, or the unknown-leader error |
| LeaderCache.ParsePartitionV0 | internal/pool/leader_cache.go:605-666 | Index and leader address of one partition; none for a partition in error; an error for an unknown leader |
| LeaderCache.ParsePartitionsV0 | internal/pool/leader_cache.go:573-584 | The partition loop fills the map, later entries overwriting earlier ones |
| LeaderCache.SkipPartitionsV0 | internal/pool/leader_cache.go:559-571 | The partitions of a topic in error are stepped over one by one |
| LeaderCache.ParseBrokersV0 | internal/pool/leader_cache.go:495-519 | The broker loop fills the node map, later entries overwriting earlier ones |
| LeaderCache.ParseTopicStartV0 | internal/pool/leader_cache.go:531-556 | Error code, name and partition count of a topic |
| LeaderCache.ParseTopicsV0 | internal/pool/leader_cache.go:528-589 | The topic loop over both branches |
| LeaderCache.ParseMetadataResponseV0 | internal/pool/leader_cache.go:477-590 | The imperative leader parser computes `ParseLeaders` |
| LastWins.FillValue | internal/pool/leader_cache.go:573-587 | After filling a map entry by entry, a key has the value of its last entry |
| LastWins.FillKeys | internal/pool/leader_cache.go:573-587 | Its keys are those some entry mentions |
| LeaderLaws.LeaderParserInvertsPrinter | internal/pool/leader_cache_helpers_test.go:34-103 | On any printed version 0 response, with any replica and ISR lists and any errors, the leader parser returns exactly the leaders the response announces, and fails exactly when an error-free partition of an error-free topic names an unknown broker |
| LeaderLaws.LeadersMeaning | internal/pool/leader_cache.go:477-590 | A partition's leader is host, colon and decimal port of the last broker entry with the node id of the last error-free entry of the partition in the last error-free entry of the topic |
| LeaderLaws.LeadersListTopics | internal/pool/leader_cache.go:558-587 | Exactly the error-free topics are listed |
| LeaderLaws.LeadersListPartitions | internal/pool/leader_cache.go:573-587 | And of the last error-free entry of a topic exactly the error-free partitions |
| LeaderLaws.SkipsOnBytes | internal/pool/leader_cache.go:626-690 | The values of a skipped list must be there, except in a topic in error |
| Addresses.DecimalReads | internal/pool/leader_cache.go:518 | The port is printed in digits that read, most significant first, as the port, with no zero in front |
| Addresses.AddressReads | internal/pool/leader_cache.go:518 | An address is the host, a colon and the port in decimal, and nothing else is |
| Addresses.AddressDecides | internal/pool/leader_cache.go:518 | Equal addresses have equal hosts and ports |
| LeaderLaws.RewritingRedirectsLeaders | internal/routing/metadata.go:319-351 | Two independent parsers agree: the leader parser accepts a rewritten version 0 frame exactly when it accepts the original, fails the same way otherwise, and the leader map keeps its topics and partitions with every leader at the proxy |
| SyntheticLeaders.SideLeaders | internal/pool/leader_cache.go:477-590 | On every frame the synthesiser can read, the leader parser reads the same brokers and topics |
| SyntheticLeaders.SynthesisedLeaders | internal/routing/synthetic_metadata.go:44-126 | The leader map of a synthesised frame is that of the merged brokers, readdressed, and the merged topics |
| SyntheticLeaders.SynthesisMergesLeaders | internal/routing/synthetic_metadata.go:44-126 | When the leader parser accepts both clusters' frames it accepts the synthesised one: the primary's topics and the secondary's others, each with its own cluster's partitions (by the secondary's first entry of a name), every leader at the proxy |
| SyntheticLeaders.FirstTopicsAreOwn | internal/routing/synthetic_metadata.go:516-535 | When the secondary repeats no topic name, those are the leaders its own frame announces |
| SaslExchange.SaslHandler.PassthroughResponse | internal/routing/sasl.go:91-102 | The frame is returned unchanged and error code 0 marks the connection authenticated |
| SaslExchange.Conn.ReadFull | internal/routing/sasl.go:243-246 | A full read or an error that uses up the stream |
| SaslExchange.Conn.Write | internal/routing/sasl.go:315-318 | A write may fail having sent any prefix |
| SaslExchange.ReadHeader | internal/routing/sasl.go:250-288 | The returned header, correlation id and client id, or the truncation error |
| SaslExchange.ReadRequest | internal/routing/sasl.go:290-306 | The whole SASL frame, or the malformed-size or truncation error |
| SaslExchange.ReadResponse | internal/routing/sasl.go:320-339 | The whole response frame, or its errors |
| SaslExchange.ForwardPair | internal/routing/sasl.go:290-349 | One request and its response relayed byte for byte; the handler is told only about Authenticate responses |
| SaslExchange.Turn | internal/routing/sasl.go:240-350 | One turn of the loop relays a pair, shortening the input, or ends the exchange |
| SaslExchange.HandleSaslExchange | internal/routing/sasl.go:239-351 | The loop does what `Exchange` specifies; on a read or format error it fails as `Exchange` does; and whatever happens only bytes read from one side are sent to the other, in order |
| SaslExchange.ExchangeConserves | internal/routing/sasl.go:239-351 | Conservation: client bytes are whole SASL requests, the header and the rest; upstream bytes are one whole response per request and the rest; authenticated if and only if it was or some Authenticate request was answered with error code 0 |
| SaslExchange.ExchangeComplete | internal/routing/sasl.go:239-351 | The converse: streams of that shape make the exchange finish with exactly that outcome |
| SaslExchange.ExchangeOnBytes | internal/routing/sasl.go:239-351 | The same on bytes: relayed frames have key 17 or 36 and the length their size field gives; the connection is authenticated if and only if it was or a request with key 36 was answered with two zero bytes at offset 8 |
| SaslExchange.HeaderParses | internal/protocol/parser.go:51-86 | The returned header parses, is read to its end, and reads the same whatever follows |
| SaslExchange.HeaderFields | internal/protocol/parser.go:51-86 | The ids taken from the stream are those parsing the header reads |
| LoadBalance.Rebalancer.constructor | internal/failover/rebalance.go:109-152 | Both endpoints start UP with their configured weights |
| LoadBalance.Rebalancer.EndpointFor | internal/failover/rebalance.go:333-341 | The primary comes first when both have one address; unknown addresses have no endpoint |
| LoadBalance.Rebalancer.PruneFailoverHistory | internal/failover/rebalance.go:403-412 | The compacting loop keeps exactly the entries after the cutoff, in order |
| LoadBalance.Rebalancer.PromoteToUp | internal/failover/rebalance.go:345-378 | Cooldown, then breaker, then UP with the original weight |
| LoadBalance.Rebalancer.DemoteToDown | internal/failover/rebalance.go:382-399 | DOWN with weight 0, the time remembered for cooldown and breaker |
| LoadBalance.Rebalancer.RecordSuccess | internal/failover/rebalance.go:191-240 | The new state is the specified one, for any address |
| LoadBalance.Rebalancer.RecordFailure | internal/failover/rebalance.go:244-281 | The same for a failure |
| LoadBalance.Rebalancer.SelectTarget | internal/failover/rebalance.go:162-187 | The target is the specified weighted choice |
| LoadBalanceLaws.AlwaysKnows | internal/failover/rebalance.go:191-281 | After every run, an endpoint's counters, times and weight are what the recorded results say: the weight is the original exactly when UP |
| LoadBalanceLaws.FailbackExactly | internal/failover/rebalance.go:191-240 | An endpoint that is not UP comes UP with the next result if and only if it is its own success, makes at least two and recovery_threshold of them since its last failure lasting recovery_min_uptime, min_time_between_failovers after its last demotion, with fewer demotions in the window than the breaker allows |
| LoadBalanceLaws.FailoverExactly | internal/failover/rebalance.go:244-281 | An UP endpoint leaves UP with the next result if and only if it is its own failure and makes failure_threshold in a row; it is then DOWN; a secondary that shares the primary's address has no results and stays UP |
| LoadBalanceLaws.RoutingAvoidsDown | internal/failover/rebalance.go:154-187 | After any run, with one endpoint UP and the other not, traffic goes to the UP one if and only if it has a configured weight, or neither has and it is the primary; with both or neither UP the primary is chosen exactly for the random numbers below its configured weight modulo the sum |
| LoadBalanceLaws.WeightsAreShares | internal/failover/rebalance.go:162-187 | So of any primary_weight + secondary_weight consecutive random numbers exactly primary_weight choose the primary |
| LoadBalanceLaws.AlwaysRemembers | internal/failover/rebalance.go:345-412 | The pruned history holds every demotion later than some cutoff outside the window |
| LoadBalanceLaws.BreakerBoundsEveryWindow | internal/failover/rebalance.go:345-412 | In any run every window of the configured length holds at most circuit_breaker_max_failovers + 1 demotions, over both endpoints, and at most circuit_breaker_max_failovers when they share one address |
| LoadBalanceLaws.BreakerBoundIsReached | internal/failover/rebalance.go:345-412 | For every maximum and all thresholds a run with distinct addresses attains it, when the window leaves time for the recoveries |
| SlidingWindow.SuffixIsAfter | internal/failover/controller.go:388-398 | Cutting the suffix after the cutoff equals filtering, for a sorted log |
| SlidingWindow.AfterAt | internal/failover/rebalance.go:403-412 | Pruning keeps exactly the entries later than the cutoff, in order |
| SlidingWindow.AfterAfter | internal/failover/rebalance.go:403-412 | Pruning twice is pruning once with the later cutoff |
| SlidingWindow.SpacedBound | internal/failover/controller.go:292-398 | Entries a gap apart that are a window apart bound every window by that gap |
| DisasterRecoveryObjects.StateMachine.Initialize | internal/failover/state.go:100-110 | A BU is initialised once |
| DisasterRecoveryObjects.StateMachine.Transition | internal/failover/state.go:141-195 | A transition does what the machine's request does to this BU, drain included, and reports an error exactly for an edge that is not allowed; an unknown BU is created in the target state; every other BU is left alone |
| DisasterRecoveryObjects.StateMachine.OnStateChange | internal/proxy/dr_coordinator.go:68-97 | Entering DRAINING starts a drain from the state left to the opposite cluster |
| DisasterRecoveryObjects.DrainManager.Remove | internal/proxy/drain.go:264-298 | The drain ends and its destination is what the callbacks are told |
| DisasterRecoveryObjects.Controller.constructor | internal/failover/controller.go:68-82 | A new controller holds neither cluster healthy |
| DisasterRecoveryObjects.Controller.RecordHealthResult | internal/failover/controller.go:87-127 | Hysteresis counters of one cluster change as specified, the other's not |
| DisasterRecoveryObjects.Controller.PruneFailoverTimestamps | internal/failover/controller.go:388-398 | The loop with its early exit keeps the suffix from the first time after the cutoff |
| DisasterRecoveryObjects.Controller.MayFailover | internal/failover/controller.go:320-337 | Cooldown, then the window check, which prunes |
| DisasterRecoveryObjects.Controller.Trigger | internal/failover/controller.go:339-384 | A failover: remembered, DRAINING, and the breaker tripped when the window is full; nothing while the breaker is broken |
| DisasterRecoveryObjects.Controller.EnterBothDownState | internal/failover/controller.go:215-244 | BOTH_DOWN, counted, holding the cluster the controller takes to have been active |
| DisasterRecoveryObjects.Controller.EvaluateAt | internal/failover/controller.go:140-211 | The decision algorithm changes the BU and returns the action exactly as specified, and leaves other BUs alone |
| DisasterRecoveryObjects.Controller.ResetCircuitBreaker | internal/failover/controller.go:292-302 | The breaker closes and the window empties; the cooldown stays |
| DisasterRecoveryObjects.Controller.FailoverWindowCount | internal/failover/controller.go:282-290 | Counts the window after pruning it |
| DisasterRecoveryObjects.DrCoordinator.OnDrainTimer | internal/proxy/dr_coordinator.go:100-135 | The timer ends the drain and moves a draining BU to its destination; other BUs are left alone |
| DisasterRecoveryObjects.DrCoordinator.TargetForRouting | internal/proxy/dr_coordinator.go:144-176 | The target of new connections is the specified one, with or without a controller |
| DisasterRecoveryLaws.NextState | internal/failover/state.go:236-249 | Every step follows the transition graph and only entering DRAINING starts a drain |
| DisasterRecoveryLaws.AllowedEdges | internal/failover/state.go:236-249 | Every change of state is allowed except from BOTH_DOWN to DRAINING |
| DisasterRecoveryLaws.DrainingHasItsDrain | internal/proxy/dr_coordinator.go:68-176 | In every reachable state DRAINING means one live drain to the cluster opposite to the state it was entered from; new connections go there and the timer leaves DRAINING for exactly that cluster |
| DisasterRecoveryLaws.LeavesBothDownExactly | internal/failover/controller.go:158-171 | BOTH_DOWN is left if and only if an evaluation with the breaker closed finds a cluster healthy, and for the primary if that is |
| DisasterRecoveryLaws.EntersBothDownExactly | internal/failover/controller.go:149-156 | It is entered if and only if an evaluation with the breaker closed finds none healthy, and counted each time |
| DisasterRecoveryLaws.BothDownLatches | internal/failover/controller.go:140-171 | While neither cluster comes up, no sequence of results, evaluations, timers, reloads or resets changes state, target or count |
| DisasterRecoveryLaws.EntryKeepsTargetExactly | internal/failover/controller.go:215-244 | In every run, entering BOTH_DOWN keeps the routing target if and only if the BU was not draining or its drain was entered from the configured active cluster |
| DisasterRecoveryLaws.BothDownHoldsACluster | internal/failover/controller.go:213-256 | In every run BOTH_DOWN holds a cluster, so the fallback for a controller that holds none is not used while one controller lives |
| DisasterRecoveryLaws.EntryKeepsTarget | internal/failover/controller.go:215-244 | So it always does with the primary configured active, auto_failback off and no reload |
| DisasterRecoveryLaws.FailbackCanMoveTarget | internal/failover/controller.go:215-244 | A run with auto_failback in which it does not |
| DisasterRecoveryLaws.NextFailover | internal/failover/controller.go:140-211 | A failover happens only in an evaluation with the breaker closed and the cooldown over, and starts a drain from the cluster in use to the opposite one, which is healthy |
| DisasterRecoveryLaws.FailsOverExactly | internal/failover/controller.go:140-211 | In every run: an event is a failover if and only if it is an evaluation in active_passive mode with the breaker closed and the cooldown since the last failover over, on the primary with it down and the secondary up, or on the secondary with the primary up and auto_failback on; the action returned says so; and nothing but that and a reload starts a drain |
| DisasterRecoveryLaws.AbortsDrainExactly | internal/failover/controller.go:149-208 | Exactly when an evaluation ends a drain, and in which state |
| DisasterRecoveryLaws.BreakerTripsExactly | internal/failover/controller.go:339-384 | In every run the breaker trips if and only if a failover makes circuit_breaker_max_failovers in its window since the last reset; only a reset closes it |
| DisasterRecoveryLaws.FailoversAreSpaced | internal/failover/controller.go:320-347 | In every run, resets included, failovers in a row are at least min_time_between_failovers apart |
| DisasterRecoveryLaws.BreakerBoundsEveryWindow | internal/failover/controller.go:320-398 | Between resets every window holds at most circuit_breaker_max_failovers failovers |
| DisasterRecoveryLaws.OnlyCooldownRefuses | internal/failover/controller.go:320-337 | While the breaker is closed the window check before a failover never refuses it |
| ClusterHealth.HealthyExactly | internal/failover/controller.go:87-127 | In every run a cluster is held healthy if and only if some recovery_threshold of its checks in a row succeeded and no failure_threshold of them in a row have failed since |
| TransitionRaces.CommitsFormAPath | internal/failover/state.go:141-195 | For any number of concurrent calls and any interleaving, the committed edges form a path in the allowed graph from the initial state to the current one |
| TransitionRaces.OneCallbackPerCommit | internal/failover/state.go:188-262 | Each commit fires one callback with its edge; with no call in progress the callbacks have received exactly the committed edges |
| TransitionRaces.GivesUpOnlyWhenOvertaken | internal/failover/state.go:178-186 | A valid call gives up only when another committed after it read the state |
| CallbackOrder.OrderKeptExactly | internal/failover/state.go:178-262 | Callbacks run in the order of the commits throughout a run if and only if no call commits in it while the callback of another commit is pending |
| CallbackOrder.OrderlyLag | internal/failover/state.go:178-262 | In such a run the callbacks are a prefix of the commits, at most one behind |
| CallbackOrder.OrderlyDrainIsRight | internal/proxy/dr_coordinator.go:68-97 | And a BU left DRAINING with no callback pending has the drain of the state it was entered from |
| TransitionRaces.AloneIsRequest | internal/failover/state.go:141-195 | A call that runs alone does what the machine's request does, drain included, and fires exactly when the state changed |
| CallbackOrder.CallbacksCanReorder | internal/failover/state.go:188-195 | A run in which they are reversed and leave the BU DRAINING from the secondary with a drain to the secondary |
| DrainCounting.CountIsTrackedPlusInFlight | internal/proxy/drain.go:83-136 | Under every interleaving the count is the tracked connections plus registrations and removals in flight; never negative; zero means nothing is tracked; each id is counted down at most once |
| DrainCounting.OnlyRemovalsRemove | internal/proxy/drain.go:110-124 | A tracked connection stays until it is unregistered or forced off the cluster it targets |
| DrainCounting.ConnTracker.Register | internal/proxy/drain.go:83-106 | A fresh id is tracked with its target and counted |
| DrainCounting.ConnTracker.Unregister | internal/proxy/drain.go:110-124 | The id is no longer tracked, counted down if it was; repeats do nothing |
| DrainCounting.ConnTracker.CollectOld | internal/proxy/drain.go:242-248 | Exactly the connections still on the old cluster are collected, each once, whatever the map's order |
| DrainCounting.ConnTracker.DeleteAll | internal/proxy/drain.go:249-253 | Exactly those collected leave the map |
| DrainCounting.ConnTracker.CloseAll | internal/proxy/drain.go:255-262 | Each is closed and counted down once |
| DrainCounting.ConnTracker.ForceCloseOld | internal/proxy/drain.go:228-262 | A forced close closes exactly the connections of the old cluster and keeps count and map in step |
| ConnectionPool.SlotsAreConserved | internal/pool/pool.go:110-175 | Under every interleaving of Get, Put, cleanup and health checks the occupied slots are the idle connections plus those in hand, being dialed or about to be released, and never more than the maximum |
| ConnectionPool.GivingBackNeverBlocks | internal/pool/pool.go:251-341 | So releasing a slot and putting a connection back never block |
| ConnectionPool.OneHolder | internal/pool/pool.go:110-175 | A connection has one holder from when it is dialed until it is closed and none otherwise |
| ConnectionPool.WaitsForAReturnOnly | internal/pool/pool.go:110-154 | In every run a Get blocked at capacity is woken by a step if and only if that puts a connection back, for a caller or for the cleanup |
| ConnectionPool.WaitsBesideAFreeSlot | internal/pool/pool.go:110-154 | So it goes on waiting, beside a free slot, when a caller closes its connection and releases the slot |
| ConnectionPool.StaleUpToFirstLive | internal/pool/pool.go:113-126 | The expired connections at the front are those before the first live one |
| ConnectionPool.UnexpiredAt | internal/pool/pool.go:251-274 | The cleanup keeps exactly the connections idle for at most the timeout, in order |
| ConnectionPool.BrokerPool.constructor | internal/pool/pool.go:195-216 | An empty pool with the configured or default capacity and idle timeout |
| ConnectionPool.BrokerPool.Get | internal/pool/pool.go:110-154 | The first live idle connection, those before it closed and released; else a dial if a slot is free; blocks exactly when all slots are with callers |
| ConnectionPool.BrokerPool.GetResumed | internal/pool/pool.go:147-153 | A blocked call, once a connection is back, has the outcome of a new one and does not block again |
| ConnectionPool.BrokerPool.Put | internal/pool/pool.go:158-175 | The connection goes to the back of the queue |
| ConnectionPool.BrokerPool.ReleaseSem | internal/pool/pool.go:330-341 | One slot is released |
| ConnectionPool.BrokerPool.CleanupBrokerPool | internal/pool/pool.go:251-274 | Exactly the expired idle connections are closed and released; the others keep their order |
| StickyRouting.FoldAppend | internal/routing/sticky.go:19-29 | Hashing piece by piece is hashing the pieces in one |
| StickyRouting.KnownHashes | internal/routing/sticky.go:19-29 | The published 64-bit FNV-1a hashes of nothing and of one byte |
| StickyRouting.MixInjective | internal/routing/sticky.go:19-29 | A hash step tells apart its byte and its state |
| StickyRouting.OneByteMatters | internal/routing/sticky.go:19-29 | Changing one byte anywhere changes the 64-bit hash |
| StickyRouting.PartitionMatters | internal/routing/sticky.go:19-29 | So partitions of one topic that differ in the last byte have different hashes |
| StickyRouting.Hasher.Write | internal/routing/sticky.go:19-29 | The mutable hasher computes FNV-1a over what is written |
| StickyRouting.ComputeStickyHash | internal/routing/sticky.go:19-29 | The percentage is the hash of topic and big-endian partition modulo 100 |
| StickyRouting.RaisingMovesOnlyToPrimary | internal/routing/sticky.go:36-46 | Raising the primary's weight moves to it exactly the partitions whose hash lies between the two weights, and none away |
| StickyRouting.ExtremeWeights | internal/routing/sticky.go:36-46 | Weight 0 gives all partitions to the secondary, 100 all to the primary |
| WeightRebalance.Router.constructor | internal/routing/data.go:392-411 | Weights are seeded for the load_balance clusters |
| WeightRebalance.Router.UpdateConfig | internal/routing/data.go:425-444 | Weights are seeded for load_balance clusters that have none; weights in force stay |
| WeightRebalance.Router.GetEffectiveWeights | internal/routing/data.go:448-459 | The override, else the configured weights, else none |
| WeightRebalance.Rebalancer.constructor | internal/routing/rebalance.go:70-93 | The configured weights are captured |
| WeightRebalance.Rebalancer.HandleDown | internal/routing/rebalance.go:193-214 | All weight to the other endpoint, the primary's failure taking precedence; nothing for a name that is not configured |
| WeightRebalance.Rebalancer.HandleSecondaryUp | internal/routing/rebalance.go:217-225 | The original weights, if captured, come back at once, configured or not |
| WeightRebalance.Rebalancer.HandlePrimaryUp | internal/routing/rebalance.go:229-257 | The original weights if the uptime is met, else recovering; nothing for a name that is not configured |
| WeightRebalance.Rebalancer.CheckPrimaryRecovery | internal/routing/rebalance.go:261-285 | The original weights once the uptime is met; a name that is not configured is no longer recovering |
| WeightRebalance.Rebalancer.HandleTransitions | internal/routing/rebalance.go:165-187 | The four checks in order, each on what the one before left |
| WeightRebalance.Rebalancer.TickCluster | internal/routing/rebalance.go:147-189 | One cluster's tick is the specified one and touches no other cluster |
| WeightRebalance.Rebalancer.TickAll | internal/routing/rebalance.go:137-190 | Every reported cluster takes its tick, in any order |
| WeightRebalance.Rebalancer.UpdateConfig | internal/routing/rebalance.go:288-301 | New originals are captured, for new names too; the weights in force stay |
| WeightRebalance.Rebalancer.ResetAll | internal/routing/rebalance.go:305-314 | Every cluster is back at its original weights |
| WeightLaws.WeightsSumTo100 | internal/routing/rebalance.go:137-314 | In every run of ticks, resets and reloads of the rebalancer and of the router, over validated configurations, the effective weights are a split of 100 |
| WeightLaws.OwnersThroughOneFailure | internal/routing/rebalance.go:137-285 | When the primary fails once and the secondary stays healthy, every partition is the secondary's from the tick that sees the failure until the first tick with uptime recovery_min_uptime, and its configured owner's before and after |
| WeightLaws.TickExactly | internal/routing/rebalance.go:161-187 | Every tick: the originals come back if and only if the secondary comes up or a recovering primary passes the uptime test; otherwise an endpoint that goes down loses its weight, the primary first; otherwise nothing changes |
| WeightLaws.RestoresConfigured | internal/routing/rebalance.go:137-314 | In every run, reloads included, what a restoring tick or a reset brings back is the latest configured weights; a first tick, or one of a cluster that is not rebalanced, leaves the weights alone |
| WeightLaws.ReloadsKeepShares | internal/routing/data.go:425-444 | A reload leaves weights in force alone; the router's seeds a load_balance cluster that has none |
| WeightLaws.PrematureExactly | internal/routing/rebalance.go:161-285 | Exactly when a tick gives weight to a primary that had lost it and is not back for recovery_min_uptime |
| WeightLaws.NeverPrematureExactly | internal/routing/rebalance.go:137-285 | In every run of reports a primary that is down gets no weight before it is back if and only if the first report has it up, the secondary does not come up in the report in which it goes down, and while it is away the secondary neither goes down nor comes up and the primary, once up, does not drop (only if: for a primary with a share in the configuration) |
| WeightLaws.SecondaryFlapRestores | internal/routing/rebalance.go:193-225 | A run in which the secondary's flap gives a primary that is down first all the weight, then its share |
| WeightLaws.PrimaryDropRestores | internal/routing/rebalance.go:184-186 | A run in which a primary that drops while recovering gets its share back |
| WeightLaws.FlapInRecoveryRestores | internal/routing/rebalance.go:193-225 | A run in which the secondary's flap gives a primary that is up its weight before recovery_min_uptime |

## Left out

- Integer widths: counts and lengths are at most 32 bits and Go's `int` has 64, so offsets cannot overflow and unbounded integers are exact; 16- and 32-bit fields, signs and the 64-bit hash are modelled.
- Error texts: errors are reduced to their kinds; wrapping and messages are not modelled.
- Buffers: `make` with a huge count, slice aliasing and the buffer pool of internal/protocol/parser.go are not modelled; a Go string or slice is a value.
- A nil and an empty slice are the same, except for the secondary response, where nil means none; a rack and its presence flag are one optional value.
- Sockets, TLS, dialing, deadlines and `io.Copy`: byte streams and arbitrary outcomes take their place.
- HandleSASLPassthrough, Produce and Fetch body parsing, MetadataTarget, the legacy sticky helpers: simpler variants of what is modelled.
- How much of a frame a failed write has sent: any prefix.
- Configuration loading, reload watching and DiffClusters: configurations are parameters, taken as validated with weights that are not negative.
- Manager.Reconfigure, which follows every reload's DRAINING with new controllers for the new configuration and so drops the held cluster; the laws are about one controller.
- StateMachine.Remove and ConfigChangeHandler; and in the laws, business units that are not initialised before their first transition, as start-up initialises them all (entering DRAINING on one would drain the primary to itself).
- A drain timer that fires although it was stopped: stopping the timer of a replaced drain is taken to succeed.
- The disaster-recovery laws take each operation as atomic; interleaving inside Transition and inside connection tracking is modelled separately in TransitionRaces and DrainCounting. The moment between the end of a drain and the transition it triggers, when routing falls back to the primary, is not.
- Closing a pool (Close, drainPool) and pools of several brokers in one map: a pool is that of one broker.
- Callers of the pool that return a connection twice, or one they do not hold.
- Liveness: how long a blocked Get or a drain lasts; the machines are about safety.
- Ids that wrap around after 2^64 registrations.
- Clusters that leave the configuration: the rebalancer of weights keeps their entries and no longer ticks them.
- Statistics of the hash and of the weighted choice: only range, determinism and thresholds are decided by the code.
- HTTP endpoints, metrics, dashboards and logging.
