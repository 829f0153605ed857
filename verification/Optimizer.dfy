/**
 The optimizer: the stages wired together over shared objects.  Without a value policy it
 keeps a priority scheduler; with one it keeps a value scheduler and a value tracker.
 */
module Optimizers {
  import opened Heapq
  import opened BoundedQueue
  import opened Traffic
  import opened Counters
  import opened Config
  import opened Compression
  import opened TokenBucketModel
  import opened PacketFiltering
  import opened PriorityScheduling
  import opened ValueScheduling
  import opened ValuePolicy
  import opened FlowTracking
  import opened Pipelines
  import LossTracking

  /** A class moved one level up for a latency-sensitive flow, or else one down for a hungry one. */
  function Hinted(base: Priority, latencySensitive: bool, bandwidthHungry: bool): Priority {
    if latencySensitive && base != Critical then
      (match base case High => Critical case Medium => High case Low => Medium case _ => Low)
    else if bandwidthHungry && base != Background then
      (match base case Critical => High case High => Medium case Medium => Low case _ => Background)
    else base
  }

  /** A hint moves a class by at most one level, and the latency rule comes first. */
  lemma HintMovesOneLevel(base: Priority, latencySensitive: bool, bandwidthHungry: bool)
    ensures Level(Hinted(base, latencySensitive, bandwidthHungry)) == Level(base)
              + (if latencySensitive && base != Critical then -1 else if bandwidthHungry && base != Background then 1 else 0)
  {
    match base case Critical => case High => case Medium => case Low => case Background =>
  }

  /** What one call of `process` reads from outside: clocks, scores, the classifier, zlib and the draw. */
  datatype Surroundings = Surroundings(
    flowClock: Clock, classified: Priority, latencySensitive: bool, bandwidthHungry: bool,
    coin: real, filterAt: real, enqueueAt: real, recordAt: real, deflated: Bytes)

  datatype ProcessResult = ProcessResult(dropped: bool, reason: Decision, compressed: bool, originalSize: nat, compressedSize: nat)

  twostate lemma Untouched(flows: FlowTracker)
    requires unchanged(flows) && forall r | r in flows.Records() :: unchanged(r)
    ensures flows.State() == old(flows.State())
    ensures forall k | k in flows.table.vals ::
              old(flows.IsRecordOf(flows.table.vals[k], k)) ==> flows.IsRecordOf(flows.table.vals[k], k)
  {
    assert flows.table == old(flows.table);
    forall k | k in flows.table.vals
      ensures flows.table.vals[k].State() == old(flows.table.vals[k].State())
    {
      assert flows.table.vals[k] in flows.Records();
    }
    assert flows.State().vals == old(flows.State().vals);
  }

  class BandwidthOptimizer {
    const config: OptimizerConfig
    const policy: FlowValuePolicy?
    const filter: PacketFilter
    const flows: FlowTracker
    const scheduler: PriorityScheduler?
    const valueScheduler: ValueScheduler?
    const tracker: LossTracking.ValueLossTracker?
    var totalIn: nat
    var totalDropped: nat
    var totalBytesSaved: int

    ghost predicate Valid()
      reads filter, flows, scheduler, valueScheduler
    {
      && filter.Valid() && filter.config == config && flows.Valid()
      && (policy == null ==> scheduler != null && valueScheduler == null && tracker == null && scheduler.Valid())
      && (policy != null ==> scheduler == null && valueScheduler != null && tracker != null && valueScheduler.Valid())
    }

    ghost function QueueState(): Queue<Packet>
      requires Valid()
      reads filter, flows, scheduler, valueScheduler
    {
      if policy == null then scheduler.Model() else valueScheduler.Model()
    }

    ghost function DequeueCounts(): map<Priority, nat>
      requires Valid()
      reads filter, flows, scheduler, valueScheduler
    {
      if policy == null then scheduler.dequeueCounts else valueScheduler.dequeueCounts
    }

    ghost function EnqueueCounts(): map<Priority, nat>
      requires Valid()
      reads filter, flows, scheduler, valueScheduler
    {
      if policy == null then scheduler.enqueueCounts else valueScheduler.enqueueCounts
    }

    ghost function Values(): LossTracking.Tracker
      reads tracker
    {
      if tracker == null then LossTracking.NewTracker(5.0) else tracker.State()
    }

    /** The pipeline this optimizer implements. */
    ghost function State(): (s: Pipeline<Packet>)
      requires Valid()
      ensures Pipelines.Valid(s)
      reads `totalIn, `totalDropped, `totalBytesSaved
      reads filter, filter.buckets.Values, flows, scheduler, valueScheduler, tracker
    {
      Pipeline(config, policy != null, filter.States(), filter.dropCounts, QueueState(), EnqueueCounts(),
               Sum(DequeueCounts()), totalIn, totalDropped, totalBytesSaved, Values())
    }

    constructor (config: OptimizerConfig, policy: FlowValuePolicy?, filter: PacketFilter)
      requires filter.Valid() && filter.config == config
      ensures flows.ttl == 120.0 && flows.maxFlows == 65536
      ensures Valid() && this.filter == filter && this.policy == policy
      ensures State() == Pipeline(config, policy != null, filter.States(), filter.dropCounts,
                                  Empty(if config.maxQueueSize < 1 then 1 else config.maxQueueSize), Zeros(),
                                  0, 0, 0, 0, LossTracking.NewTracker(5.0))
      ensures flows.State() == Dicts.EmptyDict()
    {
      hide PacketFilter.Valid, PacketFilter.States, PriorityScheduler.Valid, ValueScheduler.Valid, FlowTracker.Valid, Sum;
      this.config, this.policy, this.filter := config, policy, filter;
      flows := new FlowTracker(120.0, 65536);
      if policy == null {
        scheduler := new PriorityScheduler(config.maxQueueSize);
        valueScheduler, tracker := null, null;
      } else {
        scheduler := null;
        valueScheduler := new ValueScheduler(config.maxQueueSize);
        tracker := new LossTracking.ValueLossTracker(5.0);
      }
      totalIn, totalDropped, totalBytesSaved := 0, 0, 0;
    }

    /** A new optimizer, or nothing where a bucket's constructor would raise. */
    static method Create(config: OptimizerConfig, policy: FlowValuePolicy?, now: real) returns (r: Option<BandwidthOptimizer>)
      ensures r.Some? <==> config.capacityMultiplier > 0.0
      ensures r.Some? ==> r.value.Valid() && fresh(r.value) && r.value.policy == policy
      ensures r.Some? ==> r.value.flows.ttl == 120.0 && r.value.flows.maxFlows == 65536
      ensures r.Some? ==> Fresh(r.value.State(), config, policy != null, now)
    {
      var buckets := PacketFilter.InitBuckets(config, now);
      if buckets.None? {
        return None;
      }
      var filter := new PacketFilter.Over(config, buckets.value);
      var optimizer := new BandwidthOptimizer(config, policy, filter);
      return Some(optimizer);
    }

    method CountIn()
      requires Valid()
      modifies `totalIn
      ensures Valid() && State() == old(State()).(totalIn := old(State()).totalIn + 1)
    {
      hide PacketFilter.Valid, PacketFilter.States, PriorityScheduler.Valid, ValueScheduler.Valid, FlowTracker.Valid, Pipelines.Valid;
      totalIn := totalIn + 1;
    }

    /** Stage 0: the flow table counts the packet before it is classified. */
    method Track(packet: Packet, env: Surroundings) returns (record: FlowRecord)
      requires Valid()
      modifies flows, flows.Records()`lastSeen, flows.Records()`packetCount, flows.Records()`byteCount
      ensures Valid() && State() == old(State())
      ensures record in flows.Records() && fresh(flows.Records() - old(flows.Records()))
      ensures flows.State() == old(FlowsAfter(packet, env))
      ensures flows.IsRecordOf(record, FlowKeyOf(packet)) && record.lastSeen == env.flowClock.seen
    {
      hide Updated, PacketFilter.Valid, FlowTracker.Valid, PriorityScheduler.Valid, ValueScheduler.Valid, PacketFilter.States,
           KeyOf, FlowTracker.State, FlowTracker.IsRecordOf, Sum, Pipelines.Valid;
      record := flows.Update(Endpoint(packet.srcIp, packet.srcPort), Endpoint(packet.dstIp, packet.dstPort),
                             packet.protocol, packet.size, env.flowClock);
    }

    /** Stage 1: the classifier sets a missing class, and the flow's behaviour may shift it. */
    method Classify(packet: Packet, env: Surroundings)
      modifies packet`priority
      ensures packet.priority == Some(AssignedClass(old(packet.priority), env))
    {
      if packet.priority == None {
        packet.priority := Some(env.classified);
      }
      packet.priority := Some(Hinted(packet.priority.value, env.latencySensitive, env.bandwidthHungry));
    }

    /** Stage 1b: in value mode the policy assigns the coefficient. */
    method AssignValue(packet: Packet, record: FlowRecord)
      modifies packet`coefficient, record`valueCoefficient
      ensures packet.coefficient == AssignedCoefficient(old(packet.coefficient), packet)
      ensures record.valueCoefficient == if policy != null then packet.coefficient else old(record.valueCoefficient)
    {
      if policy != null {
        var coefficient := policy.Assign(packet);
        record.valueCoefficient := coefficient;
      }
    }

    static function AssignedClass(given: Option<Priority>, env: Surroundings): Priority {
      Hinted(if given.Some? then given.value else env.classified, env.latencySensitive, env.bandwidthHungry)
    }

    /** A class that the caller gave survives: the classifier has no say, and a hint moves it one level at most. */
    static lemma GivenClassIsKept(given: Priority, env: Surroundings, other: Priority)
      ensures AssignedClass(Some(given), env) == AssignedClass(Some(given), env.(classified := other))
      ensures -1 <= Level(AssignedClass(Some(given), env)) - Level(given) <= 1
      ensures !env.latencySensitive && !env.bandwidthHungry ==> AssignedClass(Some(given), env) == given
    {
      HintMovesOneLevel(given, env.latencySensitive, env.bandwidthHungry);
    }

    /** A packet without a class takes the classifier's, and a hint moves that one level at most. */
    static lemma MissingClassIsClassified(env: Surroundings)
      ensures -1 <= Level(AssignedClass(None, env)) - Level(env.classified) <= 1
      ensures !env.latencySensitive && !env.bandwidthHungry ==> AssignedClass(None, env) == env.classified
    {
      HintMovesOneLevel(env.classified, env.latencySensitive, env.bandwidthHungry);
    }

    ghost function AssignedCoefficient(given: real, packet: Packet): real
      reads policy, packet`srcPort, packet`dstPort, packet`protocol
    {
      if policy == null then given
      else Lookup(policy.State(), Header(packet.srcPort, packet.dstPort, packet.protocol))
    }

    /** The arrival that a classified packet is. */
    ghost function ArrivalOf(packet: Packet, env: Surroundings): Arrival<Packet>
      reads packet
    {
      Arrival(packet, Class(packet.priority), packet.size, packet.payload, env.deflated, packet.coefficient,
              env.coin, env.filterAt, env.recordAt)
    }

    /** The arrival that a packet not yet classified will be. */
    ghost function ArrivalFrom(packet: Packet, env: Surroundings): Arrival<Packet>
      reads packet, policy
    {
      ArrivalOf(packet, env).(priority := AssignedClass(packet.priority, env),
                              coefficient := AssignedCoefficient(packet.coefficient, packet))
    }

    /** The flow table after it has counted a packet. */
    ghost function FlowsAfter(packet: Packet, env: Surroundings): Table
      requires flows.Valid()
      reads flows, packet
      reads flows.Records()`lastSeen, flows.Records()`packetCount, flows.Records()`byteCount
    {
      Updated(flows.State(), flows.ttl, flows.maxFlows, FlowKeyOf(packet), packet.size, env.flowClock)
    }

    /** The key of the packet's flow. */
    static ghost function FlowKeyOf(packet: Packet): FlowKey
      reads packet`srcIp, packet`dstIp, packet`srcPort, packet`dstPort, packet`protocol
    {
      KeyOf(Endpoint(packet.srcIp, packet.srcPort), Endpoint(packet.dstIp, packet.dstPort), packet.protocol)
    }

    ghost function Trackers(): set<object>
    {
      if tracker == null then {} else {tracker}
    }

    ghost function Queues(): set<object>
    {
      (if scheduler == null then {} else {scheduler}) + (if valueScheduler == null then {} else {valueScheduler})
    }

    /** Stage 2: the filter decides on the packet and the current queue size. */
    method Decision(packet: Packet, env: Surroundings) returns (decision: Decision)
      requires Valid()
      modifies filter`dropCounts, filter.buckets.Values
      ensures Valid()
      ensures var s := old(State());
              var (buckets, d) := Decide(config, s.buckets, CallOf(s, ArrivalOf(packet, env)));
              && decision == d
              && State() == s.(buckets := buckets,
                               drops := if d.Forward? then s.drops else Bump(s.drops, Class(packet.priority)))
    {
      hide PacketFilter.Valid, PacketFilter.States, PriorityScheduler.Valid, ValueScheduler.Valid, FlowTracker.Valid,
           Decide, Pipelines.Valid;
      decision := filter.ShouldDrop(packet, QueueSize(), env.coin, env.filterAt);
    }

    /** A drop is counted, and in value mode the packet's value is lost. */
    method CountDrop(packet: Packet, env: Surroundings)
      requires Valid()
      modifies `totalDropped, Trackers()
      ensures Valid()
      ensures var s, a := old(State()), ArrivalOf(packet, env);
              State() == s.(totalDropped := s.totalDropped + 1,
                            values := if s.byValue then LossTracking.Dropped(s.values, a.coefficient, a.recordAt)
                                      else s.values)
    {
      hide PacketFilter.Valid, PacketFilter.States, PriorityScheduler.Valid, ValueScheduler.Valid, FlowTracker.Valid,
           LossTracking.Dropped, Pipelines.Valid;
      totalDropped := totalDropped + 1;
      if tracker != null {
        tracker.RecordDropped(packet.coefficient, env.recordAt);
      }
    }

    function QueueSize(): (n: nat)
      requires Valid()
      reads filter, flows, scheduler, valueScheduler
      ensures n == |QueueState().heap|
    {
      if policy == null then |scheduler.heap| else |valueScheduler.heap|
    }

    /** Stage 3: the payload is replaced by a shorter one when compression helps. */
    method CompressPayload(packet: Packet, env: Surroundings) returns (compressed: bool)
      requires Valid()
      modifies `totalBytesSaved, packet`payload, packet`size
      ensures Valid()
      ensures var c := Compress(old(packet.payload), config.compressionThreshold, env.deflated);
              && compressed == c.wasCompressed && packet.payload == c.data
              && packet.size == SizeAfter(old(ArrivalOf(packet, env)), c)
              && State() == old(State()).(bytesSaved := old(totalBytesSaved)
                              + if c.wasCompressed then |old(packet.payload)| - |c.data| else 0)
    {
      hide PacketFilter.Valid, PacketFilter.States, PriorityScheduler.Valid, ValueScheduler.Valid, FlowTracker.Valid,
           Compress, QueueState, DequeueCounts, Values, Sum, Pipelines.Valid, Marked;
      CompressionSaves(packet.payload, config.compressionThreshold, env.deflated);
      var originalSize := |packet.payload|;
      var result := Compress(packet.payload, config.compressionThreshold, env.deflated);
      if result.wasCompressed {
        packet.payload := result.data;
        packet.size := packet.size - originalSize + |result.data|;
        totalBytesSaved := totalBytesSaved + if originalSize >= |result.data| then originalSize - |result.data| else 0;
      }
      compressed := result.wasCompressed;
    }

    /** Stage 4: the packet is offered to the queue, whose answer is ignored. */
    method EnqueuePacket(packet: Packet, env: Surroundings) returns (ghost accepted: bool)
      requires Valid()
      modifies packet`enqueuedAt, Queues(), Trackers()
      ensures Valid() && packet.enqueuedAt == Some(env.enqueueAt)
      ensures var s, a := old(State()), old(ArrivalOf(packet, env));
              var (queue, ok) := Offer(s.queue, QueueKey(s.byValue, a.priority, a.coefficient), packet);
              && accepted == ok
              && State() == s.(queue := queue, enqueues := if ok then Bump(s.enqueues, a.priority) else s.enqueues,
                               values := if s.byValue then LossTracking.Delivered(s.values, a.coefficient, a.recordAt)
                                         else s.values)
    {
      hide PacketFilter.Valid, PacketFilter.States, PriorityScheduler.Valid, ValueScheduler.Valid, FlowTracker.Valid,
           Offer, AfterOffer, LossTracking.Delivered, Pipelines.Valid;
      if scheduler != null {
        accepted := scheduler.Enqueue(packet, env.enqueueAt);
      } else {
        accepted := valueScheduler.Enqueue(packet, env.enqueueAt);
      }
      if tracker != null {
        tracker.RecordDelivered(packet.coefficient, env.recordAt);
      }
    }

    /** Stages 0 to 1b: everything that happens before the filter. */
    method Prepare(packet: Packet, env: Surroundings) returns (record: FlowRecord)
      requires Valid()
      modifies `totalIn, packet`priority, packet`coefficient, flows, flows.Records()
      ensures Valid() && State() == old(State()).(totalIn := old(State()).totalIn + 1)
      ensures flows.State() == old(FlowsAfter(packet, env))
      ensures ArrivalOf(packet, env) == old(ArrivalFrom(packet, env)) && packet.priority.Some?
      ensures flows.IsRecordOf(record, FlowKeyOf(packet)) && PricedRecord(record, packet)
    {
      hide Valid, State, FlowsAfter, FlowTracker.State, FlowTracker.IsRecordOf, FlowKeyOf, ArrivalOf, ArrivalFrom, Pipelines.Valid;
      CountIn();
      record := Track(packet, env);
      Label(packet, record, env);
    }

    /** In value mode the flow's record carries the packet's coefficient. */
    ghost predicate PricedRecord(record: FlowRecord, packet: Packet)
      reads record`valueCoefficient, packet`coefficient
    {
      policy != null ==> record.valueCoefficient == packet.coefficient
    }

    /** Stages 1 and 1b together. */
    method Label(packet: Packet, record: FlowRecord, env: Surroundings)
      modifies packet`priority, packet`coefficient, record`valueCoefficient
      ensures ArrivalOf(packet, env) == old(ArrivalFrom(packet, env)) && packet.priority.Some?
      ensures PricedRecord(record, packet)
    {
      hide Lookup, Hinted;
      Classify(packet, env);
      AssignValue(packet, record);
    }

    /** Stages 2 to 4. */
    method Handle(packet: Packet, env: Surroundings) returns (result: ProcessResult)
      requires Valid()
      modifies `totalDropped, `totalBytesSaved, packet`payload, packet`size, packet`enqueuedAt
      modifies filter`dropCounts, filter.buckets.Values, Queues(), Trackers()
      ensures Valid()
      ensures var (s, verdict) := Handled(old(State()), old(ArrivalOf(packet, env)));
              State() == s && Reports(result, verdict, |old(packet.payload)|)
              && (verdict.Passed? ==>
                    packet.size == verdict.size && packet.payload == verdict.payload && packet.enqueuedAt == Some(env.enqueueAt))
    {
      hide Valid, Decide, Compress, Offer, LossTracking.Dropped, LossTracking.Delivered,
           PacketFilter.States, QueueState, DequeueCounts, Values, CallOf, QueueKey, Pipelines.Valid;
      var decision := Decision(packet, env);
      if !decision.Forward? {
        CountDrop(packet, env);
        return ProcessResult(true, decision, false, 0, 0);
      }
      var originalSize := |packet.payload|;
      var compressed := CompressPayload(packet, env);
      ghost var accepted := EnqueuePacket(packet, env);
      result := ProcessResult(false, Forward, compressed, originalSize, |packet.payload|);
    }

    /** Those stages leave the flow table and its records alone. */
    method HandleTracked(packet: Packet, env: Surroundings, ghost record: FlowRecord, ghost key: FlowKey)
      returns (result: ProcessResult)
      requires Valid() && flows.IsRecordOf(record, key)
      modifies `totalDropped, `totalBytesSaved, packet`payload, packet`size, packet`enqueuedAt
      modifies filter`dropCounts, filter.buckets.Values, Queues(), Trackers()
      ensures Valid() && flows.State() == old(flows.State()) && flows.IsRecordOf(record, key)
      ensures var (s, verdict) := Handled(old(State()), old(ArrivalOf(packet, env)));
              State() == s && Reports(result, verdict, |old(packet.payload)|)
              && (verdict.Passed? ==>
                    packet.size == verdict.size && packet.payload == verdict.payload && packet.enqueuedAt == Some(env.enqueueAt))
    {
      hide Valid, State, Handled, ArrivalOf, Reports, FlowTracker.State, Pipelines.Valid;
      result := Handle(packet, env);
      Untouched(flows);
    }

    /** What a result tells the caller about the verdict. */
    static predicate Reports(result: ProcessResult, verdict: Verdict, originalSize: nat) {
      match verdict
      case Dropped(reason) => result == ProcessResult(true, reason, false, 0, 0)
      case Passed(_, _, payload, compressed) => result == ProcessResult(false, Forward, compressed, originalSize, |payload|)
    }

    static lemma ReportsTell(result: ProcessResult, s: Pipeline<Packet>, a: Arrival<Packet>)
      requires Pipelines.Valid(s) && Reports(result, Pipelines.Process(s, a).1, |a.payload|)
      ensures var verdict := Pipelines.Process(s, a).1;
              && result.dropped == verdict.Dropped? && (verdict.Dropped? ==> result.reason == verdict.reason)
              && (verdict.Passed? ==>
                    && result.originalSize == |a.payload| && result.compressedSize == |verdict.payload|
                    && result.compressed == (|verdict.payload| < |a.payload|))
    {
      hide Pipelines.Process;
      BytesFollowPayload(s, a);
    }

    /** The class an arrival will have is one level at most from the packet's own, or the classifier's. */
    lemma ArrivalClass(packet: Packet, env: Surroundings)
      ensures var base := if packet.priority.Some? then packet.priority.value else env.classified;
              -1 <= Level(ArrivalFrom(packet, env).priority) - Level(base) <= 1
    {
      if packet.priority.Some? {
        GivenClassIsKept(packet.priority.value, env, env.classified);
      } else {
        MissingClassIsClassified(env);
      }
    }

    /** Runs a packet through all stages. */
    method Process(packet: Packet, env: Surroundings) returns (result: ProcessResult, record: FlowRecord)
      requires Valid()
      modifies `totalIn, `totalDropped, `totalBytesSaved, packet, flows, flows.Records()
      modifies filter`dropCounts, filter.buckets.Values, Queues(), Trackers()
      ensures Valid() && flows.State() == old(FlowsAfter(packet, env))
      ensures flows.IsRecordOf(record, FlowKeyOf(packet)) && PricedRecord(record, packet)
      ensures packet.priority.Some?
      ensures var base := if old(packet.priority).Some? then old(packet.priority).value else env.classified;
              -1 <= Level(packet.priority.value) - Level(base) <= 1
      ensures var arrival := old(ArrivalFrom(packet, env));
              var (s, verdict) := Pipelines.Process(old(State()), arrival);
              && State() == s && Reports(result, verdict, |arrival.payload|)
              && result.dropped == verdict.Dropped? && (verdict.Dropped? ==> result.reason == verdict.reason)
              && packet.priority == Some(arrival.priority) && packet.coefficient == arrival.coefficient
              && (verdict.Passed? ==>
                    && result.originalSize == |arrival.payload| && result.compressedSize == |packet.payload|
                    && result.compressed == (|packet.payload| < |arrival.payload|))
              && (verdict.Passed? ==>
                    packet.size == verdict.size && packet.payload == verdict.payload && packet.enqueuedAt == Some(env.enqueueAt))
    {
      hide Valid, State, Handled, ArrivalFrom, FlowsAfter, Reports, FlowKeyOf, FlowTracker.IsRecordOf, FlowTracker.State, Pipelines.Valid;
      ArrivalClass(packet, env);
      record := Prepare(packet, env);
      result := HandleTracked(packet, env, record, FlowKeyOf(packet));
      ReportsTell(result, old(State()), old(ArrivalFrom(packet, env)));
    }

    /** The next packet for transmission. */
    method Dequeue() returns (packet: Option<Packet>)
      requires Valid()
      modifies Queues()
      ensures Valid()
      ensures var (s, out) := Pipelines.Dequeue(old(State()));
              State() == s && packet == (if out.Some? then Some(out.value.packet) else None)
      ensures DequeueCounts() == if packet.Some? then Bump(old(DequeueCounts()), Class(packet.value.priority))
                                 else old(DequeueCounts())
    {
      hide PacketFilter.Valid, PacketFilter.States, FlowTracker.Valid, BoundedQueue.Valid,
           Serve, IsLeast, Sum, Bump, Class, Contents, Pipelines.Valid;
      if scheduler != null {
        packet := scheduler.Dequeue();
      } else {
        packet := valueScheduler.Dequeue();
      }
    }

    /** The part of a reset that concerns the queue in use. */
    method ResetQueue()
      requires Valid()
      modifies Queues()
      ensures Valid() && DequeueCounts() == Zeros()
      ensures var s := old(State());
              State() == s.(queue := s.queue.(overflow := 0), enqueues := Zeros(), dequeued := 0)
    {
      hide PacketFilter.Valid, PacketFilter.States, PriorityScheduler.Valid, ValueScheduler.Valid, FlowTracker.Valid,
           BoundedQueue.Valid, HasAll, Sum, Pipelines.Valid;
      if scheduler != null {
        scheduler.ResetStats();
      } else {
        valueScheduler.ResetStats();
      }
    }

    /** The part of a reset that concerns the optimizer's own totals and the filter. */
    method ResetTotals()
      requires Valid()
      modifies this, filter`dropCounts
      ensures Valid()
      ensures State() == old(State()).(drops := Zeros(), totalIn := 0, totalDropped := 0, bytesSaved := 0)
    {
      hide PacketFilter.Valid, PacketFilter.States, PriorityScheduler.Valid, ValueScheduler.Valid, FlowTracker.Valid,
           BoundedQueue.Valid, HasAll, Sum, Pipelines.Valid;
      totalIn, totalDropped, totalBytesSaved := 0, 0, 0;
      filter.ResetDropCounts();
    }

    /** The part of a reset that concerns the value tracker. */
    method ResetTracker()
      requires Valid()
      modifies Trackers()
      ensures Valid() && DequeueCounts() == old(DequeueCounts())
      ensures var s := old(State());
              State() == s.(values := if s.byValue then LossTracking.NewTracker(s.values.window) else s.values)
    {
      hide PacketFilter.Valid, PacketFilter.States, PriorityScheduler.Valid, ValueScheduler.Valid, FlowTracker.Valid,
           BoundedQueue.Valid, HasAll, Sum, Pipelines.Valid;
      if tracker != null {
        tracker.Reset();
      }
    }

    method ResetStats()
      requires Valid()
      modifies this, filter`dropCounts, Queues(), Trackers()
      ensures Valid() && State() == Pipelines.ResetStats(old(State())) && DequeueCounts() == Zeros()
    {
      hide Valid, State, DequeueCounts;
      ResetTotals();
      ResetQueue();
      ResetTracker();
    }
  }
}
