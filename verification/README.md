# Traffic-shaping engine: model and proofs

A Dafny model of the traffic-shaping engine in `bandwidth_optimizer/`, with proofs of what it
keeps over whole runs. Verify it with `dafny verify dfyconfig.toml`.

Objects that the program updates in place are classes whose methods change the same fields in
the same order. Each class is tied by its contracts to functions on plain values, and the
properties of runs are lemmas about those functions. The project follows the program's parts:

- **Bounded queues.** `Heapq` has the binary heap with the array moves of Python's `heapq`.
  `BoundedQueue` is the queue that both schedulers implement; `PriorityScheduling` and
  `ValueScheduling` are the two classes. `QueueRuns` proves what a queue keeps, loses and
  serves, and in which order; `ServiceOrder` says it in classes and values. `Lockstep`
  compares the two schedulers, and `OverlappingEnqueues` treats calls whose ticket and lock
  are taken at different times.
- **Rate limits.** `TokenBucketModel`, `PacketFiltering` and `FilterRuns`: the buckets, random
  early detection (RED), exactly which packets they let through, and bounds on the bytes that
  pass over every interval of time.
- **The pipeline.** `Pipelines` and `PipelineRuns` on values, `Optimizers` over shared objects:
  the ledger of packets, bytes and value, and which packets can meet a full queue.
- **Caches and windows.** `FlowTracking`, `FlowRuns` and `FlowSessions` (least recently used,
  with a time to live), `LossTracking` (a pruned sliding window), `Sla` (dequeues that discard
  stale packets).
- **State machines.** `Safety` (a circuit breaker under overlapping calls), `Tuning` with
  `ValuePolicy` (a feedback loop over rule coefficients).
- **Fleet.** `Fleet`: the registry of nodes and the aggregate of their value.

Every clock reading, random draw, classifier answer and DEFLATE result is a parameter. Floats
are reals. A section under a lock is one atomic step.

## Where the code and its documentation differ

The model follows the code in each case.

- The filter's documentation says that CRITICAL packets still consume tokens
  (packet_filter.py:104-105). One that finds too few passes and consumes none
  (packet_filter.py:58-61, 143). `FilterRuns.CriticalPaysExactly` says when it pays, and
  `FilterRuns.CriticalPassesFree` gives a packet above any size that passes free.
- The configuration says that a total bandwidth of 0 is unlimited (config.py:49). Each bucket
  then gets the floor of one byte per second (packet_filter.py:204-208);
  `FilterRuns.ZeroBandwidthThrottles`.
- The tuner is said to boost below the contracted rate (value.py:941-942). It boosts below the
  violation share of that rate, 90% by default; `Tuning.BoostsBelowViolationShare`.
- Overflow is described as a tail drop (scheduler.py:8-10). The packet evicted is the oldest of
  the worst class; `BoundedQueue.WorstIsWorst`.
- The eviction of a flow is said to remove the single most idle one (flow_tracker.py:347-348).
  The clock is read again for every key of the scan, so a later key looks more idle than it is.
  The right flow goes exactly when the scan does not let the clock overtake the gap behind the
  oldest flow (`FlowRuns.EvictsOldestExactly`), and the table is a least-recently-used cache
  throughout a run exactly when that holds of every such scan (`FlowRuns.TableIsLruExactly`).
  `FlowRuns.DriftBreaksLru` is a run of three packets for which it is not.
- `process` reports `dropped=False` even when the queue refuses the packet
  (optimizer.py:147-154). Such reports are true in every run exactly when the queue size is at
  least one and both RED thresholds are at most one and, in value mode, the policy gives every
  packet the same effective coefficient; with a policy that gives only 0, they are true
  whatever RED does (`PipelineRuns.ReportsAreTrueExactly`). `PipelineRuns.TwoPricesFail` and
  `PipelineRuns.BackgroundMeetsFull` are the packets that are lost.
- "Within the same priority class the order is FIFO" (scheduler.py:5-6) holds in the order of
  tickets. A ticket is taken before the lock is (scheduler.py:76-81). Of two packets accepted
  one after the other, the first leaves first exactly when it holds the older ticket or had
  left before the second was accepted (`OverlappingEnqueues.LeavesFirstExactly`). Every
  interleaving of at most k overlapping enqueues keeps the order of acceptance exactly when k
  is at most one or the queue has one place (`OverlappingEnqueues.AcceptanceOrderExactly`).
- BYPASSED is meant to last until a reset (safety.py:190-195). With three or more overlapping
  calls and a threshold of at least two it can be left without one;
  `Safety.OpenCircuitNeedsReset`.
- `decompress` returns an uncompressed payload unchanged (compressor.py:111-117) only when that
  payload does not itself begin with the mark; `Compression.DecompressUndoesCompress`.

## Model

| member | source | states |
|---|---|---|
| Heapq.PushRestores | bandwidth_optimizer/scheduler.py:97 | a push keeps the array a heap and adds exactly the new entry |
| Heapq.PopRestores | bandwidth_optimizer/scheduler.py:110 | a pop removes exactly the root and leaves a heap |
| Heapq.HeapifyRestores | bandwidth_optimizer/scheduler.py:94 | heapify makes a heap of any array and keeps its entries |
| Heapq.SiftDownRestores | bandwidth_optimizer/scheduler.py:97 | sifting towards the root repairs a heap that is broken at one place only |
| Heapq.SinkReachesLeaf | bandwidth_optimizer/scheduler.py:110 | sinking an entry to a leaf leaves a heap broken at that leaf only, with the same entries |
| Heapq.RootIsLeast | bandwidth_optimizer/scheduler.py:115-118 | no entry of a heap is less than its root |
| BoundedQueue.WorstIsWorst | bandwidth_optimizer/scheduler.py:165-177 | the scan finds the unique entry of greatest key, the oldest among equals |
| BoundedQueue.EvictRemoves | bandwidth_optimizer/scheduler.py:91-94 | overwriting, popping and heapifying removes exactly the worst entry and leaves a heap |
| BoundedQueue.AdmitEffect | bandwidth_optimizer/scheduler.py:81-99 | admission keeps the heap, the bound and distinct tickets; a full queue refuses exactly a newcomer of greater key and otherwise trades its worst entry; every refusal and eviction is counted once |
| BoundedQueue.OfferEffect | bandwidth_optimizer/scheduler.py:73-99 | the same for a whole enqueue, which takes the next ticket |
| BoundedQueue.ServeEffect | bandwidth_optimizer/scheduler.py:107-113 | a dequeue removes exactly the unique least entry, and returns nothing exactly when the queue is empty |
| PriorityScheduling.PriorityScheduler.constructor | bandwidth_optimizer/scheduler.py:48-59 | an empty queue of at least one place, all counters zero |
| PriorityScheduling.PriorityScheduler.FindWorstIndex | bandwidth_optimizer/scheduler.py:165-177 | the loop finds the position that the specification's scan finds |
| PriorityScheduling.PriorityScheduler.Enqueue | bandwidth_optimizer/scheduler.py:63-99 | stamps the packet and offers it under its class; the answer, the contents and the enqueue counters afterwards |
| PriorityScheduling.PriorityScheduler.Admit | bandwidth_optimizer/scheduler.py:81-99 | the locked section implements admission |
| PriorityScheduling.PriorityScheduler.EvictAt | bandwidth_optimizer/scheduler.py:91-95 | the array and the overflow counter after an eviction |
| PriorityScheduling.PriorityScheduler.Dequeue | bandwidth_optimizer/scheduler.py:101-113 | returns the unique least entry's packet, removes only that entry, and counts it once |
| PriorityScheduling.PriorityScheduler.Peek | bandwidth_optimizer/scheduler.py:115-118 | shows the packet that a drain would yield first |
| PriorityScheduling.PriorityScheduler.Drain | bandwidth_optimizer/scheduler.py:135-140 | terminates with an empty queue, yields the whole order of service, and counts each packet once under its class |
| PriorityScheduling.PriorityScheduler.ResetStats | bandwidth_optimizer/scheduler.py:156-161 | clears the counters and leaves the waiting packets alone |
| ValueScheduling.ValueScheduler.constructor | bandwidth_optimizer/value.py:520-531 | an empty queue of at least one place, all counters zero |
| ValueScheduling.ValueScheduler.FindWorstIndex | bandwidth_optimizer/value.py:640-651 | the loop finds the position that the specification's scan finds |
| ValueScheduling.ValueScheduler.Enqueue | bandwidth_optimizer/value.py:535-571 | stamps the packet and offers it under its negated effective value |
| ValueScheduling.ValueScheduler.Admit | bandwidth_optimizer/value.py:555-571 | the locked section implements admission |
| ValueScheduling.ValueScheduler.EvictAt | bandwidth_optimizer/value.py:564-567 | the array and the overflow counter after an eviction |
| ValueScheduling.ValueScheduler.Dequeue | bandwidth_optimizer/value.py:573-581 | returns the unique least entry's packet, removes only that entry, and counts it once |
| ValueScheduling.ValueScheduler.Peek | bandwidth_optimizer/value.py:583-586 | shows the packet that a drain would yield first |
| ValueScheduling.ValueScheduler.Drain | bandwidth_optimizer/value.py:603-608 | terminates with an empty queue, yields the whole order of service, and counts each packet once under its class |
| ValueScheduling.ValueScheduler.ResetStats | bandwidth_optimizer/value.py:624-629 | clears the counters and leaves the waiting packets alone |
| QueueRuns.OffersKeepBest | bandwidth_optimizer/scheduler.py:82-99 | after any run of enqueues from empty the queue holds the k best of all packets ever offered, k its capacity: lower key first, newer ticket first among equals |
| QueueRuns.OfferKeepsBest | bandwidth_optimizer/scheduler.py:82-99 | one enqueue keeps the queue the k best of whatever collection it was the k best of |
| QueueRuns.OfferLeavesBest | bandwidth_optimizer/value.py:555-571 | with dequeues interleaved, each enqueue leaves the k best of the contents and the newcomer |
| QueueRuns.BestIsUnique | bandwidth_optimizer/scheduler.py:165-177 | there is only one collection of the k best |
| QueueRuns.Conservation | bandwidth_optimizer/scheduler.py:82-113 | in every run each packet offered is waiting, served or shed, as multisets, and the overflow counter is the number shed |
| QueueRuns.RunIsFirstInFirstOut | bandwidth_optimizer/scheduler.py:76-80 | in any interleaving of enqueues, evictions and dequeues, entries of one key are served by ticket, before any that still wait |
| QueueRuns.DrainSorts | bandwidth_optimizer/scheduler.py:135-140 | a drain yields every entry once, in strictly ascending order of service |
| ServiceOrder.StrictPriority | bandwidth_optimizer/scheduler.py:4-6 | a drain of the priority scheduler serves CRITICAL, HIGH, MEDIUM, LOW and BACKGROUND strictly in turn, and each class by ticket |
| ServiceOrder.GreatestValueFirst | bandwidth_optimizer/value.py:495-505 | a drain of the value scheduler serves by falling product of the coefficient, if positive, and five for CRITICAL down to one for BACKGROUND, and equals by ticket |
| ServiceOrder.EvictsLeastUrgent | bandwidth_optimizer/scheduler.py:67-69 | eviction takes a packet of the least urgent class present, the oldest of that class |
| ServiceOrder.RefusesLessUrgent | bandwidth_optimizer/scheduler.py:82-90 | a full priority queue refuses a packet if and only if everything that waits is of a more urgent class |
| Traffic.Class | bandwidth_optimizer/scheduler.py:73 | a packet without a class counts as MEDIUM, any other as what it is |
| Counters.TallyCounts | bandwidth_optimizer/scheduler.py:111-112 | each class's counter grows by the number of its packets in the list |
| Lockstep.OfferCommutes | bandwidth_optimizer/value.py:546-571 | for a coefficient c > 0 an enqueue on the value scheduler mirrors one on the priority scheduler, heap slot by heap slot and with the same evictions |
| Lockstep.SchedulersInLockstep | bandwidth_optimizer/value.py:504-505 | for every run of enqueue, dequeue and peek calls of one coefficient c > 0 both schedulers give the same replies and keep corresponding heaps |
| Lockstep.LockstepNeedsPositive | bandwidth_optimizer/value.py:634-638 | for every c <= 0 and every capacity a run exists on which the replies differ, so c > 0 is exact |
| OverlappingEnqueues.StepKeepsSound | bandwidth_optimizer/scheduler.py:76-99 | with tickets taken outside the lock every step still keeps the heap, the bound and distinct tickets |
| OverlappingEnqueues.AdmissionKeepsBestExactly | bandwidth_optimizer/scheduler.py:82-99 | an admission leaves the k best of contents and newcomer, except exactly when a full queue trades its worst entry for one of the same key and an older ticket |
| OverlappingEnqueues.ServedByTicket | bandwidth_optimizer/scheduler.py:76-113 | in every interleaving, of two entries of one key that wait together the older ticket is served first |
| OverlappingEnqueues.AcceptanceOrderCanBreak | bandwidth_optimizer/scheduler.py:76-81 | for every capacity above one and any overlap of two or more, an interleaving in which two packets of one key leave against the order of their acceptance |
| OverlappingEnqueues.LeavesFirstExactly | bandwidth_optimizer/scheduler.py:76-113 | in every reachable log, of two entries of one key that are both served, the one accepted first leaves first if and only if it holds the older ticket or had left before the other was accepted |
| OverlappingEnqueues.AcceptanceOrderExactly | bandwidth_optimizer/scheduler.py:76-113 | every interleaving of at most k overlapping enqueues on a queue of given capacity keeps the order of acceptance, if and only if k <= 1 or the capacity is 1 |
| TokenBucketModel.TokenBucket.Create | bandwidth_optimizer/packet_filter.py:38-46 | a full bucket exactly when rate and capacity are positive |
| TokenBucketModel.TokenBucket.Refill | bandwidth_optimizer/packet_filter.py:78-85 | refills for the elapsed time, up to the capacity; what that means for a run is AdmissionExactly |
| TokenBucketModel.TokenBucket.TryConsume | bandwidth_optimizer/packet_filter.py:50-61 | refills, then takes all the tokens asked for or none; which requests that grants is AdmissionExactly |
| TokenBucketModel.TokenBucket.Available | bandwidth_optimizer/packet_filter.py:63-66 | refills and tells the tokens |
| TokenBucketModel.AdmissionExactly | bandwidth_optimizer/packet_filter.py:50-85 | in every run a request is granted if and only if it and the bytes granted before fit into the first tokens and the earnings since, and it and the bytes granted from any earlier call on fit into a full bucket and the earnings since that call |
| TokenBucketModel.NextGrantedExactly | bandwidth_optimizer/packet_filter.py:50-61 | the same for the request that follows a run |
| TokenBucketModel.TokensExactly | bandwidth_optimizer/packet_filter.py:63-85 | the tokens found at any time after any run, from the history of grants alone |
| TokenBucketModel.RefillCompose | bandwidth_optimizer/packet_filter.py:78-85 | capped refills over adjacent intervals are one refill |
| TokenBucketModel.RateBound | bandwidth_optimizer/packet_filter.py:50-61 | over every interval of every run the bytes passed are at most capacity + rate * length |
| TokenBucketModel.BoundFromInside | bandwidth_optimizer/packet_filter.py:50-61 | from any moment on, at most the tokens at hand and those earned since are passed |
| TokenBucketModel.InertCallsLeaveNoTrace | bandwidth_optimizer/packet_filter.py:50-66 | dropping any probes and refused requests from a run changes no other decision and no later token count, even for a bucket that lags behind by a refill |
| TokenBucketModel.RefillSplitting | bandwidth_optimizer/packet_filter.py:50-85 | the same for two runs of one bucket |
| Config.BucketRate | bandwidth_optimizer/packet_filter.py:204-207 | the rate given to a bucket is always positive |
| PacketFiltering.PacketFilter.InitBucket | bandwidth_optimizer/packet_filter.py:204-212 | a full bucket of the class's rate, raised to the floor, exactly when the capacity multiplier is positive |
| PacketFiltering.PacketFilter.InitBuckets | bandwidth_optimizer/packet_filter.py:201-212 | one full bucket of its own for every class, exactly when the capacity multiplier is positive |
| PacketFiltering.PacketFilter.ShouldDrop | bandwidth_optimizer/packet_filter.py:131-157 | the verdict and all five buckets afterwards, and one drop counted for the class exactly when the packet is dropped; the verdict in numbers is VerdictExactly |
| PacketFiltering.PacketFilter.ResetDropCounts | bandwidth_optimizer/packet_filter.py:163-165 | clears the drop counters |
| FilterRuns.ForwardedIsPassed | bandwidth_optimizer/packet_filter.py:138-157 | the bytes of a non-CRITICAL class that get past the filter are those its own bucket grants and RED keeps, whatever the other classes do |
| FilterRuns.ClassRateBound | bandwidth_optimizer/packet_filter.py:131-157 | over every interval of every run a non-CRITICAL class passes at most its capacity + rate * length |
| FilterRuns.TotalRateBound | bandwidth_optimizer/packet_filter.py:201-212 | all non-CRITICAL traffic of a new filter is at most the sum of the four rates times (multiplier + length) |
| FilterRuns.VerdictExactly | bandwidth_optimizer/packet_filter.py:131-197 | the verdict in numbers: CRITICAL passes; what its bucket refuses is rate limited; the rest is forwarded below redMin * size, dropped as full from redMax * size on, and in between dropped early if and only if 5 * draw * (redMax - redMin) * size < (queued - redMin * size) * level |
| FilterRuns.BucketSeesItsClass | bandwidth_optimizer/packet_filter.py:140-142 | after any run a class's bucket is what the calls of that class alone make of it |
| FilterRuns.RateLimitedExactly | bandwidth_optimizer/packet_filter.py:138-148 | after any run of a new filter a non-CRITICAL packet is rate limited if and only if it does not fit the bounds of its class, with the configured rate and the capacity of rate times multiplier |
| FilterRuns.RateIsConfigured | bandwidth_optimizer/config.py:82-87 | a bucket gets the explicit rate, or else the share of the total, or one byte per second where that is not positive |
| FilterRuns.ConfiguredRateBound | bandwidth_optimizer/config.py:82-87 | the bytes of a class over every interval, bounded in the configuration's own numbers |
| FilterRuns.ZeroBandwidthThrottles | bandwidth_optimizer/config.py:49-50 | with a total bandwidth of 0 and no explicit rates, all non-CRITICAL traffic is held to four times (multiplier + length) bytes |
| FilterRuns.CriticalPaysExactly | bandwidth_optimizer/packet_filter.py:140-157 | a CRITICAL packet is always forwarded; its bucket loses exactly its bytes, for any size but 0, if and only if they do not exceed the refilled tokens, and otherwise it loses none |
| FilterRuns.CriticalPassesFree | bandwidth_optimizer/packet_filter.py:58-61 | above any limit a CRITICAL packet that a new filter forwards without any token moving |
| FilterRuns.RedClosesFullQueue | bandwidth_optimizer/packet_filter.py:173-197 | RED lets no non-CRITICAL packet meet a full queue, whatever the draw, if and only if the size is at least one and both thresholds are at most one |
| FilterRuns.OpeningCoin | bandwidth_optimizer/packet_filter.py:186-197 | otherwise it gives a draw that lets a BACKGROUND packet through at a full queue |
| FilterRuns.RedIsMonotone | bandwidth_optimizer/packet_filter.py:184-197 | with one draw, what RED drops it also drops in any fuller queue and in any less urgent class |
| Compression.CompressionSaves | bandwidth_optimizer/compressor.py:81-109 | a compressed payload is strictly shorter and any other is untouched |
| Compression.CompressesExactly | bandwidth_optimizer/compressor.py:81-109 | a payload is compressed if and only if it reaches the threshold, does not begin with SBOC, and the mark and the deflated bytes are shorter; the result is then just those |
| Compression.DecompressUndoesCompress | bandwidth_optimizer/compressor.py:111-124 | the round trip holds if and only if the payload did not carry the mark, or what follows its mark inflates to the payload itself |
| Pipelines.ProcessKeepsValid | bandwidth_optimizer/optimizer.py:98-159 | a processed packet leaves a valid queue and a bucket for every class |
| Pipelines.BytesFollowPayload | bandwidth_optimizer/optimizer.py:138-144 | size and bytes saved change by exactly what the payload loses, which is something if and only if the result says compressed; a dropped packet changes neither |
| PipelineRuns.ProcessFilters | bandwidth_optimizer/optimizer.py:125-136 | a packet is dropped or passed by what the filter says of its class, its size and the number of packets waiting |
| PipelineRuns.ProcessOffers | bandwidth_optimizer/optimizer.py:146-147 | a dropped packet leaves the queue alone; a passed one is offered under its class, or in value mode its effective value |
| PipelineRuns.ResetKeepsWaiting | bandwidth_optimizer/optimizer.py:218-226 | a reset keeps configuration, buckets, waiting packets and tickets |
| PipelineRuns.LedgerBalances | bandwidth_optimizer/optimizer.py:98-226 | in every run, resets included: received + waiting at the last reset = filter drops + dequeued + waiting + overflow drops; received = filter drops + counted as enqueued + refused; each class's drop and enqueue counters are the numbers of its packets dropped and accepted, none of CRITICAL dropped; bytes past the filter = bytes when offered + bytes saved = bytes when offered + bytes their payloads lost; delivered and lost value are the coefficients of the packets passed and of those dropped |
| PipelineRuns.NewLedgerBalances | bandwidth_optimizer/optimizer.py:65-226 | every run of a new optimizer balances |
| PipelineRuns.TrackerSeesRun | bandwidth_optimizer/optimizer.py:127-150 | in value mode the tracker is, after every run, that of the packets passed and dropped at the times they were recorded, so that what holds of its runs holds of the optimizer |
| PipelineRuns.OthersFindRoom | bandwidth_optimizer/optimizer.py:86-89 | a non-CRITICAL packet that passes the filter finds room in the queue |
| PipelineRuns.PassedIsAccepted | bandwidth_optimizer/optimizer.py:126-147 | a packet that passes the filter and finds room, or has the least key of all, is accepted and is in the queue afterwards |
| PipelineRuns.OnlyCriticalMeetsFullExactly | bandwidth_optimizer/optimizer.py:86-147 | in every reachable state in priority mode, and in value mode under any given policy, only CRITICAL packets meet a full queue, if and only if the size is at least one and both thresholds are at most one |
| PipelineRuns.ReportsAreTrueExactly | bandwidth_optimizer/optimizer.py:120-154 | in every run every packet reported as not dropped entered the queue, if and only if RED closes the full queue and, in value mode, the policy looks up one effective coefficient for all packets; one of 0 suffices on its own |
| PipelineRuns.TwoPricesFail | bandwidth_optimizer/optimizer.py:120-150 | under a policy with two different effective coefficients a reachable state and a packet falsify such a report |
| PipelineRuns.BackgroundMeetsFull | bandwidth_optimizer/packet_filter.py:173-197 | when RED does not close the full queue, a reachable state and a BACKGROUND packet of any one price that meets it, and is lost there if its key is greater |
| Optimizers.HintMovesOneLevel | bandwidth_optimizer/flow_tracker.py:293-317 | a hint moves the class by at most one level, never past either end, and the latency rule comes first |
| Optimizers.BandwidthOptimizer.GivenClassIsKept | bandwidth_optimizer/optimizer.py:110-118 | a class the caller gave ends within one level of itself, whatever the classifier says, and is kept without a hint |
| Optimizers.BandwidthOptimizer.MissingClassIsClassified | bandwidth_optimizer/optimizer.py:110-118 | a missing class ends within one level of the classifier's |
| Optimizers.BandwidthOptimizer.Track | bandwidth_optimizer/optimizer.py:107-108 | the record returned is the one stored under the packet's key, with that key and the time of this packet, and only the flow table changes |
| Optimizers.BandwidthOptimizer.Create | bandwidth_optimizer/optimizer.py:65-94 | an optimizer exists exactly when the capacity multiplier is positive, and starts with full buckets, an empty queue, zero totals and a flow table of 65536 flows and 120 seconds |
| Optimizers.BandwidthOptimizer.Classify | bandwidth_optimizer/optimizer.py:110-118 | only a missing class is classified, then the hint is applied |
| Optimizers.BandwidthOptimizer.AssignValue | bandwidth_optimizer/optimizer.py:120-123 | in value mode packet and record both get the policy's coefficient, else both keep theirs |
| Optimizers.BandwidthOptimizer.Decision | bandwidth_optimizer/optimizer.py:125-126 | the filter sees the length of the optimizer's own queue, and changes only the buckets and the class's drop counter |
| Optimizers.BandwidthOptimizer.CompressPayload | bandwidth_optimizer/optimizer.py:138-144 | payload, size and bytes saved after compression |
| Optimizers.BandwidthOptimizer.EnqueuePacket | bandwidth_optimizer/optimizer.py:146-150 | the packet is offered and counted as enqueued if accepted, and its value counts as delivered whether or not it is |
| Optimizers.BandwidthOptimizer.Process | bandwidth_optimizer/optimizer.py:98-159 | a call over the shared objects does to buckets, drop and enqueue counters, queue, totals, value tracker, packet and flow table what the pipeline on values does; the result tells drop, reason and payload sizes; the record returned is the one of the packet's key and carries its coefficient in value mode; the packet's class ends within one level of the one given, or else classified |
| Optimizers.BandwidthOptimizer.Dequeue | bandwidth_optimizer/optimizer.py:167-174 | the next packet of the order of service, counted under its class, and nothing else changes |
| Optimizers.BandwidthOptimizer.ResetStats | bandwidth_optimizer/optimizer.py:218-226 | clears the totals, the drop, enqueue and dequeue counters, the overflow counter and the tracker, and keeps the waiting packets and buckets |
| FlowTracking.SameKeyMeansSameConversation | bandwidth_optimizer/flow_tracker.py:66-86 | two packets share a key if and only if their unordered endpoints and their lower-cased protocols agree |
| FlowTracking.KeyNamesConversation | bandwidth_optimizer/flow_tracker.py:66-86 | a key holds the packet's two endpoints, each with its own port, the smaller first, and the lower-cased protocol |
| Text.BeforeExactly | bandwidth_optimizer/flow_tracker.py:72 | addresses compare by the first character in which they differ, a proper prefix first |
| Text.SameLower | bandwidth_optimizer/flow_tracker.py:78 | two protocols agree if and only if they differ in the case of ASCII letters at most |
| FlowTracking.FlowRecord.Update | bandwidth_optimizer/flow_tracker.py:131-140 | one more packet, its bytes added, and the time noted |
| FlowTracking.FlowTracker.EvictExpired | bandwidth_optimizer/flow_tracker.py:337-345 | exactly the flows idle for longer than the time to live go; the others keep their order and records |
| FlowTracking.FlowTracker.FindIdlest | bandwidth_optimizer/flow_tracker.py:351 | the loop finds the first key of greatest idle time, each read at its own clock |
| FlowTracking.FlowTracker.EvictOldest | bandwidth_optimizer/flow_tracker.py:347-352 | that flow alone is removed, and nothing from an empty table |
| FlowTracking.FlowTracker.Enter | bandwidth_optimizer/flow_tracker.py:277-283 | the locked section purges, makes room for a new key, and finds or creates its record |
| FlowTracking.FlowTracker.Update | bandwidth_optimizer/flow_tracker.py:269-285 | the table of record objects afterwards as a function of the table before; the record returned is the one stored under the packet's key, carries that key and was last seen now |
| FlowRuns.UpdateKeepsBound | bandwidth_optimizer/flow_tracker.py:279-282 | an update leaves at most max(1, max_flows) flows |
| FlowRuns.UpdateCountsPacket | bandwidth_optimizer/flow_tracker.py:269-285 | an update counts its packet last on its key's record, on top of what the purge left of it, and changes no other record that stays |
| FlowRuns.EvictsOldest | bandwidth_optimizer/flow_tracker.py:347-352 | on a scan during which the clock moves no further than the flows are apart, the flow seen longest ago goes |
| FlowRuns.EvictsOldestExactly | bandwidth_optimizer/flow_tracker.py:347-352 | the flow seen longest ago goes if and only if during the scan from it to each later flow the clock moves no further than the two are apart |
| FlowRuns.OldestEvictedExactly | bandwidth_optimizer/flow_tracker.py:347-352 | from whatever time on, for every clock that moves by at most d during the scan the oldest flow goes, if and only if each flow stored after it was seen at least d later |
| FlowRuns.EvictedIsNearlyOldest | bandwidth_optimizer/flow_tracker.py:347-352 | however the scan drifts by d, the flow that goes was seen within d of every older one |
| FlowRuns.PurgeHolds | bandwidth_optimizer/flow_tracker.py:337-345 | a lazy purge cuts the list of flows by recency at the time to live |
| FlowRuns.UpdateHoldsExactly | bandwidth_optimizer/flow_tracker.py:269-285 | one update of a table that is the right prefix of the list by recency leaves the right prefix, if and only if its eviction, if it needs one, is steady |
| FlowRuns.TableIsLruExactly | bandwidth_optimizer/flow_tracker.py:269-352 | throughout a run the table holds exactly those of the max(1, max_flows) most recently seen flows that were within the time to live at the last purge, if and only if no scan for a flow to evict lets the clock overtake the gap behind the oldest flow |
| FlowRuns.DriftBreaksLru | bandwidth_optimizer/flow_tracker.py:351 | a run of three flows in a table for two after which an older flow is kept and a newer one is gone |
| FlowRuns.FrozenScansAreSteady | bandwidth_optimizer/flow_tracker.py:351 | a clock that stands still during each scan meets that condition |
| FlowSessions.SessionIsLongestGapless | bandwidth_optimizer/flow_tracker.py:337-345 | a session is the longest suffix of a flow's packets without a gap over the time to live |
| FlowSessions.RunCounts | bandwidth_optimizer/flow_tracker.py:269-285 | while nothing is evicted for room, a missing record means the flow has gone idle and a present one counts its session |
| FlowSessions.FewFlowsNeverFill | bandwidth_optimizer/flow_tracker.py:279-281 | no run of at most max_flows different flows evicts one for room |
| FlowSessions.RecordCountsSession | bandwidth_optimizer/flow_tracker.py:131-140 | a record's packet and byte counts are those of its flow's longest gapless suffix, whichever flows triggered the purges |
| LossTracking.ValueLossTracker.constructor | bandwidth_optimizer/value.py:726-732 | an empty tracker with a window of at least a tenth of a second |
| LossTracking.ValueLossTracker.RecordDelivered | bandwidth_optimizer/value.py:736-742 | appends, adds to the total, and prunes both deques |
| LossTracking.ValueLossTracker.RecordDropped | bandwidth_optimizer/value.py:744-750 | appends, adds to the total, and prunes both deques |
| LossTracking.ValueLossTracker.EvictOld | bandwidth_optimizer/value.py:820-826 | the two loops remove exactly the leading events older than two windows |
| LossTracking.ValueLossTracker.RateOf | bandwidth_optimizer/value.py:813-818 | the loop computes the value per second of the window, in any order of timestamps |
| LossTracking.ValueLossTracker.ValueEfficiencyPct | bandwidth_optimizer/value.py:778-790 | the efficiency of two rates read at two clocks |
| LossTracking.ValueLossTracker.Reset | bandwidth_optimizer/value.py:803-809 | forgets everything but the window |
| LossTracking.RateIsValueOfWindow | bandwidth_optimizer/value.py:813-818 | rate times window is the sum of the values of exactly the events one window back, the cutoff included |
| LossTracking.PrunedExactly | bandwidth_optimizer/value.py:820-826 | pruning drops a prefix of events that are all older than the cutoff and stops at the first that is not |
| LossTracking.RecordsPrune | bandwidth_optimizer/value.py:736-750 | after a record neither deque begins with an event older than two windows |
| LossTracking.PruningIsInvisible | bandwidth_optimizer/value.py:813-826 | at a query no more than one window earlier than any eviction, both rates and totals are those of everything recorded since the last reset, even out of order |
| LossTracking.PruningShowsBeyondOneWindow | bandwidth_optimizer/value.py:820-826 | any earlier than one window, a run exists whose rate differs, so the window is tight |
| LossTracking.RunEfficiencyIsPercentage | bandwidth_optimizer/value.py:786-790 | after every run without negative values the efficiency lies in [0, 100] |
| ValuePolicy.FlowValuePolicy.constructor | bandwidth_optimizer/value.py:340-349 | the rules as given, a default of at least zero, no overrides |
| ValuePolicy.FlowValuePolicy.GetCoefficient | bandwidth_optimizer/value.py:353-366 | the loop returns the first match's override or coefficient, or the default |
| ValuePolicy.LookupExactly | bandwidth_optimizer/value.py:362-366 | the first rule whose ports are empty or hold either port, and whose protocols are empty or hold the packet's in lower case, gives its override or its coefficient; without one the default is given |
| ValuePolicy.LookupIgnoresDirectionAndCase | bandwidth_optimizer/value.py:464-473 | direction and letter case of the protocol do not matter |
| ValuePolicy.FlowValuePolicy.Assign | bandwidth_optimizer/value.py:368-375 | the packet carries what the lookup returns |
| ValuePolicy.FlowValuePolicy.SetOverride | bandwidth_optimizer/value.py:377-386 | one override is set, to at least zero |
| ValuePolicy.FlowValuePolicy.ClearOverride | bandwidth_optimizer/value.py:393-396 | one override is removed, if there is one |
| ValuePolicy.FlowValuePolicy.BaseOf | bandwidth_optimizer/value.py:1038-1042 | the loop finds the coefficient of the first rule of that name, or 1 |
| Tuning.ValueCoefficientTuner.constructor | bandwidth_optimizer/value.py:905-921 | every setting is clamped into its sane range |
| Tuning.ValueCoefficientTuner.GetOrCreateState | bandwidth_optimizer/value.py:1034-1048 | a new state starts at the rule's coefficient, or at an earlier override unless that is 0 |
| Tuning.ValueCoefficientTuner.Observe | bandwidth_optimizer/value.py:946-974 | states and overrides after an observation, and the coefficient returned; in rates that is ObservationByRates |
| Tuning.ObservationByRates | bandwidth_optimizer/value.py:948-969 | below violation * contracted a boost up to the ceiling, from perfection * contracted on a decay down to the base, and in between neither the coefficient nor a counter changes; a contract for no rate counts as fully served |
| Tuning.ObservationIsLocal | bandwidth_optimizer/value.py:971-974 | the policy is told the rule's new coefficient, at least zero, and no other rule is touched |
| Tuning.AcceptableChangesNothing | bandwidth_optimizer/value.py:967-969 | any series of observations in the acceptable zone leaves the rule as it was |
| Tuning.FirstObservation | bandwidth_optimizer/value.py:1034-1048 | a rule starts at an earlier override unless that is 0, or at the first rule of its name, or at 1 |
| Tuning.ValueCoefficientTuner.Reset | bandwidth_optimizer/value.py:993-1001 | one tuned rule goes back to its base and loses its override |
| Tuning.ValueCoefficientTuner.ResetAll | bandwidth_optimizer/value.py:1003-1011 | the loop puts every tuned rule back, in whatever order, and leaves other overrides |
| Tuning.ResetRests | bandwidth_optimizer/value.py:993-1001 | a reset puts a tuned rule back to its base, clears its counters and its override, and touches nothing else |
| Tuning.ResetAllRests | bandwidth_optimizer/value.py:1003-1011 | so for every tuned rule, and for no other override |
| Tuning.ResetAllRestoresPolicy | bandwidth_optimizer/value.py:1003-1011 | after any run that ends in resetting everything the policy answers every packet as if it had never been tuned |
| Tuning.RunStaysInStep | bandwidth_optimizer/value.py:946-1011 | after every run each tuned rule has base <= current <= max, every override is a tuned rule's current coefficient, and a tuned rule without an override is at its base |
| Tuning.LookupAgreesExactly | bandwidth_optimizer/value.py:353-366 | after every run, with names repeated or not, the lookup of a tuned rule's packet gives the tuner's coefficient if and only if the rule is overridden or its own coefficient is that of the first rule of its name |
| Tuning.TunerAndPolicyAgree | bandwidth_optimizer/value.py:946-1048 | with unique names the lookup of any packet whose first match is a tuned rule gives exactly the tuner's coefficient, which lies between base and max |
| Tuning.BoostsBelowViolationShare | bandwidth_optimizer/value.py:948-959 | an observation boosts if and only if the delivered rate is below the violation share of the contracted rate |
| Tuning.ObservationsFollowSeries | bandwidth_optimizer/value.py:946-974 | repeated observations of one rule move its coefficient as the series of services does |
| Tuning.PerfectSeries | bandwidth_optimizer/value.py:960-966 | n perfect observations from c >= base leave exactly max(c * decay^n, base) |
| Tuning.ViolationSeries | bandwidth_optimizer/value.py:953-959 | n violations from 0 <= c <= max leave exactly min(c * boost^n, max) |
| Tuning.ViolationsReachCeiling | bandwidth_optimizer/value.py:953-959 | with boost > 1 and c > 0 an explicit number of violations reaches the ceiling |
| Tuning.PerfectionReachesBase | bandwidth_optimizer/value.py:960-966 | with 0 < decay < 1 and base > 0 an explicit number of perfect observations reaches the base |
| Safety.SafetyGuard.EnterSection | bandwidth_optimizer/safety.py:157-159 | counts the call and tells whether the circuit is open |
| Safety.SafetyGuard.SuccessSection | bandwidth_optimizer/safety.py:166-170 | clears the consecutive errors and heals DEGRADED, but not BYPASSED |
| Safety.SafetyGuard.ErrorSection | bandwidth_optimizer/safety.py:241-255 | counts the error and sets the state by the threshold, whatever it was |
| Safety.SafetyGuard.BypassSection | bandwidth_optimizer/safety.py:270-271 | counts one bypass |
| Safety.SafetyGuard.Process | bandwidth_optimizer/safety.py:147-174 | the state and the reply of a call that nothing overlaps; it never raises |
| Safety.SafetyGuard.Reset | bandwidth_optimizer/safety.py:190-202 | back to HEALTHY with no errors, consecutive errors or bypasses; the count of calls stays |
| Safety.CircuitBreaker | bandwidth_optimizer/safety.py:157-261 | in every interleaving of at most k calls and threshold T > 0: HEALTHY has 0 consecutive errors, DEGRADED 1 to T - 1, BYPASSED 0 or at least T, and there are never more than T + k - 1 |
| Safety.InvariantHolds | bandwidth_optimizer/safety.py:157-261 | the stronger invariant behind it is kept by every interleaving |
| Safety.NeverTrips | bandwidth_optimizer/safety.py:247-253 | with T <= 0 no interleaving opens the circuit |
| Safety.CallsAreAccounted | bandwidth_optimizer/safety.py:157-174 | without a reset every call is in flight, has succeeded, or has counted exactly one bypass |
| Safety.OpenCircuitNeedsReset | bandwidth_optimizer/safety.py:164-174 | a step other than a reset can leave BYPASSED in some reachable state if and only if at least three calls may overlap and T is at least two |
| Safety.TripClearFail | bandwidth_optimizer/safety.py:164-174 | the interleaving that does it: one call trips, one succeeds, one fails |
| Safety.ResetHeals | bandwidth_optimizer/safety.py:190-202 | from every state a reset leads to HEALTHY with all three counters 0, keeps the count of calls and the calls in flight, and the next call to enter reaches the optimizer |
| Safety.HealthyAfterReset | bandwidth_optimizer/safety.py:157-202 | after a reset any number of successful calls, one after another, leave the guard healthy and count no bypass |
| Safety.OnlyResetCloses | bandwidth_optimizer/safety.py:157-202 | with at most two calls overlapping or T = 1, a step leaves BYPASSED if and only if it is a reset |
| Safety.TripsAtThreshold | bandwidth_optimizer/safety.py:239-261 | failing calls one after another open the circuit at the T-th, and from then on reach the optimizer no more |
| Sla.CountersMatchHistory | bandwidth_optimizer/sla.py:323-330 | after any violations each counter is the number of its kind and class, the total is their number, and the ring buffer holds the latest |
| Sla.SlaMonitor.Create | bandwidth_optimizer/sla.py:198-219 | a monitor with zero counters, exactly when the ring buffer's length is not negative |
| Sla.SlaMonitor.RecordViolation | bandwidth_optimizer/sla.py:323-330 | counters, total and ring buffer after one violation |
| Sla.SlaMonitor.ResetSlaStats | bandwidth_optimizer/sla.py:291-299 | all counters and the ring buffer are cleared |
| Sla.LastOfExactly | bandwidth_optimizer/sla.py:217-219 | the ring buffer keeps as many as it may, and they are the latest |
| Sla.SlaMonitor.CheckPipeline | bandwidth_optimizer/sla.py:233-244 | a violation is recorded exactly when the class has a ceiling and it is exceeded |
| Sla.SlaMonitor.Expire | bandwidth_optimizer/sla.py:259-276 | a packet is expired exactly when it is stale; then its class's sojourn counter, the total, the ring buffer and the expiry counter change, and nothing else |
| Sla.StaleExactly | bandwidth_optimizer/sla.py:259-266 | a packet is stale if and only if its class has a ceiling, it is stamped, and a thousand times its wait in seconds exceeds the ceiling |
| Sla.SlaMonitor.Dequeue | bandwidth_optimizer/sla.py:248-278 | terminates; returns the first packet of the order of service that is fresh when its clock is read, having removed those before it, each of which had waited longer than its ceiling in milliseconds and is recorded in all counters and the ring buffer, or empties the queue |
| Sla.EachExpiredOnce | bandwidth_optimizer/sla.py:259-276 | the packets skipped are each counted once: as expired, in the total, and in one sojourn counter; no pipeline counter moves |
| Sla.ExpiredAreRecorded | bandwidth_optimizer/sla.py:262-276 | after any earlier violations the counters are those of the earlier ones and one sojourn violation for each packet skipped, of its class, with its ceiling and its milliseconds |
| Sla.SkippedIsFirstFresh | bandwidth_optimizer/sla.py:254-278 | the number of packets a dequeue skips is the only one its contract admits |
| Sla.DequeuesReturnFresh | bandwidth_optimizer/sla.py:248-278 | repeated dequeues return exactly the packets of the order of service that are fresh when taken, and expire each of the others once |
| Sla.DequeuesAtOneInstant | bandwidth_optimizer/sla.py:248-278 | at one instant that is the fresh subsequence of the drain order |
| Sla.StaleFirstExactly | bandwidth_optimizer/sla.py:259-276 | for any queue of the priority scheduler, however its enqueues overlapped, at every instant the stale packets of each class come first in the order of service, if and only if within each class that has a ceiling the stamps follow the tickets |
| Sla.StaleArePrefix | bandwidth_optimizer/scheduler.py:73-80 | so it is in every run whose packets are stamped in the order of their tickets |
| Fleet.AgentCoordinator.constructor | bandwidth_optimizer/coordinator.py:68-79 | an empty registry |
| Fleet.AgentCoordinator.Ingest | bandwidth_optimizer/coordinator.py:83-93 | the node's report replaces its last one |
| Fleet.AgentCoordinator.Remove | bandwidth_optimizer/coordinator.py:149-152 | that node goes, and the others stay in order |
| Fleet.AgentCoordinator.EvictStale | bandwidth_optimizer/coordinator.py:245-251 | exactly the nodes not heard from since the cutoff go |
| Fleet.LiveExactly | bandwidth_optimizer/coordinator.py:245-251 | a node stays, with its report, if and only if it was silent for at most the time to live |
| Fleet.AgentCoordinator.Partition | bandwidth_optimizer/coordinator.py:185-192 | the live nodes in order, in two lists |
| Fleet.PvmNodesReport | bandwidth_optimizer/coordinator.py:187-190 | the first list holds exactly the nodes that report a value part, each with its own |
| Fleet.NonPvmNodesReport | bandwidth_optimizer/coordinator.py:191-192 | the second holds exactly the ids of those that report none, and together they are as long as the registry |
| Fleet.AgentCoordinator.FleetValueSummary | bandwidth_optimizer/coordinator.py:183-241 | evicts first; totals, efficiency, best and worst node over the live value-mode nodes, and the ids of the other live nodes in order |
| Fleet.Best | bandwidth_optimizer/coordinator.py:218-222 | a node that no other exceeds in efficiency |
| Fleet.Worst | bandwidth_optimizer/coordinator.py:218-223 | a node that no other undercuts in efficiency |
| Fleet.BestIsFirst | bandwidth_optimizer/coordinator.py:222 | of several best nodes the first in the registry is named |
| Fleet.WorstIsFirst | bandwidth_optimizer/coordinator.py:223 | of several worst nodes the first in the registry is named |
| Fleet.WeightedBounds | bandwidth_optimizer/coordinator.py:207-216 | bounds on every node's efficiency bound the sums, weighted by flow |
| Fleet.FleetIsWeightedMean | bandwidth_optimizer/coordinator.py:207-216 | the fleet's efficiency times its flow is a hundred times what it delivers and the sum of the nodes' efficiencies weighted by flow; with no flow it is 100 |
| Fleet.SumsAdd | bandwidth_optimizer/coordinator.py:207-212 | the sums add up over the parts of the fleet |
| Fleet.OneNode | bandwidth_optimizer/coordinator.py:208-220 | a rate a node does not report counts as 0, and an efficiency as 100 |
| Fleet.FleetBetweenWorstAndBest | bandwidth_optimizer/coordinator.py:207-223 | the fleet's efficiency lies between those of its worst and its best node, idle nodes included |

## Left out

- `api/`, `main.py`, the demos and the dashboard: web plumbing and scripts.
- `agent.py`, `trust.py`, `license.py` and authenticated ingestion: HTTP and cryptography through libraries.
- `capture/`, `benchmark.py`, `stress.py`: kernel bindings and measurement over wall-clock time.
- The inside of zlib: DEFLATE is a parameter, and its round trip a premise where it is needed.
- YAML policies, classifier rules and regular expressions: the class given to an unlabelled packet is a parameter.
- Scores of a flow record (moving averages, bursts) and its first-seen time: the hint reads two flags instead.
- Float rounding, NaN, and figures rounded for display: floats are reals.
- Lower-casing outside ASCII.
- Probabilities of RED: only what holds for every draw is stated. A filter without a queue-size callback, for which RED is off, is not modelled either; the optimizer always passes one.
- Races on the optimizer's own unlocked counters: its ledger is for sequential calls.
- The laziness of `drain`: the packets are collected in one call.
- `BackpressureMonitor`, value contracts, presets, `process_batch`, and the dictionaries that statistics are returned in.
- Timestamps and error texts of violations and errors.
- An empty value part of a node's statistics counts as none; the model has no empty part to tell apart.
- `heapq` is library code: its operations are functions on the array's contents, not loops on it.
- FlowTracking.FlowTracker.Update: updates of the flow table are modelled as not overlapping. In the original the record counts its packet after the lock is released, so another update can purge or evict it in between and the packet is then counted on a record the table has lost. One clock reading stands for those of a new record and of its first packet.
- FlowRuns.TableIsLruExactly: asks that sightings have different times, as two flows seen at one instant have no order of recency.
- PipelineRuns.ReportsAreTrueExactly: is about a policy that stays as it is; overrides that a tuner moves during the run are not modelled there.
- Tuning.ValueCoefficientTuner.Observe: the per-rule state is a value in a map, so aliasing of state objects is not modelled; the time of the last observation is left out.
- Sla.SlaMonitor.Dequeue: counters are changed under a lock in two steps in the original, and in one here.
- Sla.StaleFirstExactly: is about packets whose class does not change after they are enqueued.
