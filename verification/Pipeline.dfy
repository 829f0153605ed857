/**
 The pipeline on values: filter, compress, enqueue, and the running totals.
 */
module Pipelines {
  import opened Heapq
  import opened BoundedQueue
  import opened Traffic
  import opened Counters
  import opened Config
  import opened Compression
  import opened PacketFiltering
  import LossTracking

  datatype Pipeline<+P> = Pipeline(
    cfg: OptimizerConfig,
    byValue: bool,
    buckets: Buckets,
    drops: map<Priority, nat>,
    queue: Queue<P>,
    enqueues: map<Priority, nat>,
    dequeued: nat,
    totalIn: nat,
    totalDropped: nat,
    bytesSaved: int,
    values: LossTracking.Tracker)

  /** A classified packet with what the stages read from their surroundings. */
  datatype Arrival<+P> = Arrival(
    packet: P, priority: Priority, size: int, payload: Bytes, deflated: Bytes, coefficient: real,
    coin: real, filterAt: real, recordAt: real)

  /** The outcome of one packet; `accepted` is the answer of the queue, which the caller never sees. */
  datatype Verdict = Dropped(reason: Decision) | Passed(accepted: bool, size: int, payload: Bytes, compressed: bool)

  ghost predicate Valid<P>(s: Pipeline<P>) {
    HasAll(s.buckets) && HasAll(s.drops) && HasAll(s.enqueues) && BoundedQueue.Valid(s.queue)
  }

  function QueueKey(byValue: bool, priority: Priority, coefficient: real): real {
    if byValue then ValueKey(priority, coefficient) else PriorityKey(priority)
  }

  function CallOf<P>(s: Pipeline<P>, a: Arrival<P>): FilterCall {
    FilterCall(a.priority, a.size, |s.queue.heap|, a.coin, a.filterAt)
  }

  /** The size of a packet after the compressor has had its payload. */
  function SizeAfter(a: Arrival, c: Compressed): int {
    if c.wasCompressed then a.size - |a.payload| + |c.data| else a.size
  }

  /** Everything after the packet is counted in. */
  function Handled<P>(s: Pipeline<P>, a: Arrival<P>): (r: (Pipeline<P>, Verdict))
    requires Valid(s)
  {
    var (buckets, decision) := Decide(s.cfg, s.buckets, CallOf(s, a));
    if !decision.Forward? then
      (s.(buckets := buckets, drops := Bump(s.drops, a.priority), totalDropped := s.totalDropped + 1,
          values := if s.byValue then LossTracking.Dropped(s.values, a.coefficient, a.recordAt) else s.values),
       Dropped(decision))
    else
      var c := Compress(a.payload, s.cfg.compressionThreshold, a.deflated);
      var (queue, accepted) := Offer(s.queue, QueueKey(s.byValue, a.priority, a.coefficient), a.packet);
      (s.(buckets := buckets, queue := queue,
          enqueues := if accepted then Bump(s.enqueues, a.priority) else s.enqueues,
          bytesSaved := s.bytesSaved + (if c.wasCompressed then |a.payload| - |c.data| else 0),
          values := if s.byValue then LossTracking.Delivered(s.values, a.coefficient, a.recordAt) else s.values),
       Passed(accepted, SizeAfter(a, c), c.data, c.wasCompressed))
  }

  function Process<P>(s: Pipeline<P>, a: Arrival<P>): (r: (Pipeline<P>, Verdict))
    requires Valid(s)
  {
    Handled(s.(totalIn := s.totalIn + 1), a)
  }

  function Dequeue<P>(s: Pipeline<P>): (r: (Pipeline<P>, Option<Entry<P>>)) {
    var (queue, out) := Serve(s.queue);
    (s.(queue := queue, dequeued := s.dequeued + (if out.Some? then 1 else 0)), out)
  }

  function ResetStats<P>(s: Pipeline<P>): Pipeline<P> {
    s.(drops := Zeros(), queue := s.queue.(overflow := 0), enqueues := Zeros(), dequeued := 0,
       totalIn := 0, totalDropped := 0, bytesSaved := 0,
       values := if s.byValue then LossTracking.NewTracker(s.values.window) else s.values)
  }

  /** The state a new optimizer starts in; its buckets are full. */
  ghost predicate Fresh<P>(s: Pipeline<P>, cfg: OptimizerConfig, byValue: bool, now: real) {
    && s.cfg == cfg && s.byValue == byValue && HasAll(s.buckets)
    && (forall p | p in s.buckets :: s.buckets[p] == PacketFilter.FullBucket(cfg, p, now))
    && s.queue == Empty(if cfg.maxQueueSize < 1 then 1 else cfg.maxQueueSize)
    && s.drops == s.enqueues == Zeros()
    && s.dequeued == s.totalIn == s.totalDropped == 0 && s.bytesSaved == 0
    && s.values == LossTracking.NewTracker(5.0)
  }

  /** What becomes of a packet's bytes: its size and the bytes saved follow its payload. */
  lemma BytesFollowPayload<P>(s: Pipeline<P>, a: Arrival<P>)
    requires Valid(s)
    ensures var (s', verdict) := Process(s, a);
            if verdict.Dropped? then s'.bytesSaved == s.bytesSaved && s'.queue == s.queue
            else
              && verdict.payload == Compress(a.payload, s.cfg.compressionThreshold, a.deflated).data
              && verdict.compressed == (|verdict.payload| < |a.payload|)
              && |verdict.payload| <= |a.payload|
              && a.size - verdict.size == |a.payload| - |verdict.payload| == s'.bytesSaved - s.bytesSaved
  {
    hide Decide, BoundedQueue.Valid, Offer, Compress;
    CompressionSaves(a.payload, s.cfg.compressionThreshold, a.deflated);
  }

  lemma ProcessKeepsValid<P>(s: Pipeline<P>, a: Arrival<P>)
    requires Valid(s)
    ensures Valid(Process(s, a).0)
  {
    hide Decide, BoundedQueue.Valid, Offer;
    OfferEffect(s.queue, QueueKey(s.byValue, a.priority, a.coefficient), a.packet);
  }
}
