/**
 Whole runs of the pipeline: its ledger balances, and which packets can meet a full queue.
 */
module PipelineRuns {
  import opened Heapq
  import opened BoundedQueue
  import opened Traffic
  import opened Counters
  import opened Config
  import opened Compression
  import opened TokenBucketModel
  import opened PacketFiltering
  import opened Pipelines
  import opened ValuePolicy
  import FilterRuns
  import ServiceOrder
  import LossTracking

  datatype Op<+P> = Arrive(a: Arrival<P>) | Depart | Reset

  function Apply<P>(s: Pipeline<P>, op: Op<P>): Pipeline<P>
    requires Pipelines.Valid(s)
  {
    match op
    case Arrive(a) => Process(s, a).0
    case Depart => Dequeue(s).0
    case Reset => ResetStats(s)
  }

  lemma ApplyKeepsValid<P>(s: Pipeline<P>, op: Op<P>)
    requires Pipelines.Valid(s)
    ensures Pipelines.Valid(Apply(s, op))
  {
    hide BoundedQueue.Valid, Process;
    match op
    case Arrive(a) => ProcessKeepsValid(s, a);
    case Depart => ServeEffect(s.queue);
    case Reset => ResetKeepsQueue(s.queue);
  }

  lemma ResetKeepsQueue<P>(q: Queue<P>)
    requires BoundedQueue.Valid(q)
    ensures BoundedQueue.Valid(q.(overflow := 0))
  {
  }

  /** The state after a run. */
  function Final<P>(s: Pipeline<P>, ops: seq<Op<P>>): (r: Pipeline<P>)
    requires Pipelines.Valid(s)
    ensures Pipelines.Valid(r)
    decreases |ops|
  {
    if ops == [] then s
    else
      ApplyKeepsValid(s, ops[0]);
      Final(Apply(s, ops[0]), ops[1..])
  }

  // ----- The ledger -----

  /**
   What an observer adds up from outside since the last reset: packets already waiting at
   that reset, bytes of packets that passed the filter on arrival and when offered to the
   queue, bytes their payloads lost, packets the queue refused, the coefficients of packets
   passed and dropped, and how many of each class were dropped and accepted.
   */
  datatype Books = Books(
    carried: nat, arrived: int, offered: int, shrunk: int, refused: nat, delivered: real, lost: real,
    dropped: map<Priority, nat>, accepted: map<Priority, nat>)

  const NEW_BOOKS := Books(0, 0, 0, 0, 0, 0.0, 0.0, Zeros(), Zeros())

  function CountIn(m: map<Priority, nat>, p: Priority): map<Priority, nat> {
    m[p := (if p in m then m[p] else 0) + 1]
  }

  function Noted<P>(s: Pipeline<P>, b: Books, op: Op<P>): Books
    requires Pipelines.Valid(s)
  {
    match op
    case Arrive(a) =>
      var verdict := Process(s, a).1;
      if verdict.Dropped? then b.(lost := b.lost + a.coefficient, dropped := CountIn(b.dropped, a.priority))
      else
        b.(arrived := b.arrived + a.size, offered := b.offered + verdict.size,
           shrunk := b.shrunk + |a.payload| - |verdict.payload|,
           refused := b.refused + (if verdict.accepted then 0 else 1),
           accepted := if verdict.accepted then CountIn(b.accepted, a.priority) else b.accepted,
           delivered := b.delivered + a.coefficient)
    case Depart => b
    case Reset => NEW_BOOKS.(carried := |s.queue.heap|)
  }

  function FinalBooks<P>(s: Pipeline<P>, b: Books, ops: seq<Op<P>>): Books
    requires Pipelines.Valid(s)
    decreases |ops|
  {
    if ops == [] then b
    else
      ApplyKeepsValid(s, ops[0]);
      FinalBooks(Apply(s, ops[0]), Noted(s, b, ops[0]), ops[1..])
  }

  /** The pipeline's counters account for every packet, byte and unit of value. */
  ghost predicate Balanced<P>(s: Pipeline<P>, b: Books) {
    && s.totalIn + b.carried == s.totalDropped + s.dequeued + |s.queue.heap| + s.queue.overflow
    && HasAll(s.drops) && s.totalDropped == Sum(s.drops) && s.drops[Critical] == 0
    && HasAll(s.enqueues) && s.totalIn == s.totalDropped + Sum(s.enqueues) + b.refused
    && s.drops == b.dropped && s.enqueues == b.accepted
    && s.bytesSaved == b.shrunk && b.arrived == b.offered + s.bytesSaved
    && (s.byValue ==> s.values.totalDelivered == b.delivered && s.values.totalDropped == b.lost)
  }

  lemma ArriveBalances<P>(s: Pipeline<P>, b: Books, a: Arrival<P>)
    requires Pipelines.Valid(s) && Balanced(s, b)
    ensures Balanced(Process(s, a).0, Noted(s, b, Arrive(a)))
  {
    CriticalIsNotDropped(s, a);
    BytesFollowPayload(s, a);
    hide Decide, Compress, BoundedQueue.Valid, Offer, LossTracking.Pruned, Bump, Sum, CountIn;
    BumpCounts(s.drops, a.priority);
    BumpCounts(s.enqueues, a.priority);
    OfferCounts(s.queue, QueueKey(s.byValue, a.priority, a.coefficient), a.packet);
    BumpAddsOne(s.drops, a.priority);
    BumpAddsOne(s.enqueues, a.priority);
    if a.priority != Critical { BumpElsewhere(s.drops, a.priority); }
  }

  lemma BumpCounts(m: map<Priority, nat>, p: Priority)
    requires HasAll(m)
    ensures Bump(m, p) == CountIn(m, p)
  {
    HasEach(m, p);
  }

  lemma CriticalIsNotDropped<P>(s: Pipeline<P>, a: Arrival<P>)
    requires Pipelines.Valid(s)
    ensures !Decide(s.cfg, s.buckets, CallOf(s, a)).1.Forward? ==> a.priority != Critical
  {
  }

  lemma BumpElsewhere(m: map<Priority, nat>, p: Priority)
    requires HasAll(m) && p != Critical
    ensures Bump(m, p)[Critical] == m[Critical]
  {
  }

  /** An offer either lengthens the queue by one or is counted as an overflow. */
  lemma OfferCounts<P>(q: Queue<P>, key: real, packet: P)
    requires BoundedQueue.Valid(q)
    ensures var q' := Offer(q, key, packet).0; |q'.heap| + q'.overflow == |q.heap| + q.overflow + 1
  {
  }

  lemma StepBalances<P>(s: Pipeline<P>, b: Books, op: Op<P>)
    requires Pipelines.Valid(s) && Balanced(s, b)
    ensures Balanced(Apply(s, op), Noted(s, b, op))
  {
    hide Process, BoundedQueue.Valid;
    match op
    case Arrive(a) => ArriveBalances(s, b, a);
    case Depart =>
    case Reset =>
  }

  /**
   In every run, resets included: packets received, and those waiting at the last reset, are
   the filter's drops, the dequeued, the waiting and the overflow drops; what the filter lets
   through was either counted as enqueued or refused; the counters of each class are the
   numbers of its packets dropped and accepted, none of Critical dropped; the bytes of packets
   past the filter are their bytes when offered plus the bytes saved, which are what their
   payloads lost; delivered and lost value are the coefficients of packets passed and dropped.
   */
  lemma {:induction false} LedgerBalances<P>(s: Pipeline<P>, b: Books, ops: seq<Op<P>>)
    requires Pipelines.Valid(s) && Balanced(s, b)
    ensures Balanced(Final(s, ops), FinalBooks(s, b, ops))
    decreases |ops|
  {
    if ops != [] {
      ApplyKeepsValid(s, ops[0]);
      StepBalances(s, b, ops[0]);
      LedgerBalances(Apply(s, ops[0]), Noted(s, b, ops[0]), ops[1..]);
    }
  }

  /** Every run of a new optimizer balances. */
  lemma NewLedgerBalances<P>(s: Pipeline<P>, cfg: OptimizerConfig, byValue: bool, now: real, ops: seq<Op<P>>)
    requires Fresh(s, cfg, byValue, now)
    ensures Pipelines.Valid(s) && Balanced(Final(s, ops), FinalBooks(s, NEW_BOOKS, ops))
  {
    FreshIsBalanced(s, cfg, byValue, now);
    LedgerBalances(s, NEW_BOOKS, ops);
  }

  /** A reset keeps the configuration, the buckets, the waiting packets and the tickets. */
  lemma ResetKeepsWaiting<P>(s: Pipeline<P>)
    requires Pipelines.Valid(s)
    ensures var s' := Apply(s, Reset);
            && s'.cfg == s.cfg && s'.byValue == s.byValue && s'.buckets == s.buckets
            && s'.queue.heap == s.queue.heap && s'.queue.next == s.queue.next && s'.queue.cap == s.queue.cap
  {
  }

  /** The filter decides on the packet's class and size and on the number of packets that wait; only it moves tokens. */
  lemma ProcessFilters<P>(s: Pipeline<P>, a: Arrival<P>)
    requires Pipelines.Valid(s)
    ensures var (s', verdict) := Process(s, a);
            var (buckets, decision) :=
              Decide(s.cfg, s.buckets, FilterCall(a.priority, a.size, |s.queue.heap|, a.coin, a.filterAt));
            && s'.buckets == buckets
            && verdict.Passed? == decision.Forward? && (verdict.Dropped? ==> verdict.reason == decision)
  {
    hide Decide, Compress, BoundedQueue.Valid, Offer;
  }

  /** A packet the filter drops leaves the queue alone; one it passes is offered under its class or its value. */
  lemma ProcessOffers<P>(s: Pipeline<P>, a: Arrival<P>)
    requires Pipelines.Valid(s)
    ensures var (s', verdict) := Process(s, a);
            var key := if s.byValue then -ServiceOrder.EffectiveValue(a.priority, a.coefficient) else PriorityKey(a.priority);
            && s'.cfg == s.cfg && s'.byValue == s.byValue
            && (verdict.Dropped? ==> s'.queue == s.queue)
            && (verdict.Passed? ==> (s'.queue, verdict.accepted) == Offer(s.queue, key, a.packet))
  {
    ServiceOrder.ValueKeyIsNegated(a.priority, a.coefficient);
    hide Decide, Compress, BoundedQueue.Valid, Offer, ValueKey, ServiceOrder.EffectiveValue;
  }

  // ----- What the value tracker sees -----

  /** One operation as the value tracker should see it. */
  function TrackerOp<P>(s: Pipeline<P>, op: Op<P>): seq<LossTracking.Op>
    requires Pipelines.Valid(s)
  {
    match op
    case Arrive(a) =>
      [if Process(s, a).1.Passed? then LossTracking.Deliver(a.coefficient, a.recordAt)
       else LossTracking.Drop(a.coefficient, a.recordAt)]
    case Depart => []
    case Reset => [LossTracking.Clear]
  }

  function TrackerOps<P>(s: Pipeline<P>, ops: seq<Op<P>>): seq<LossTracking.Op>
    requires Pipelines.Valid(s)
    decreases |ops|
  {
    if ops == [] then []
    else
      ApplyKeepsValid(s, ops[0]);
      TrackerOp(s, ops[0]) + TrackerOps(Apply(s, ops[0]), ops[1..])
  }

  lemma TrackerStep<P>(s: Pipeline<P>, op: Op<P>, before: seq<LossTracking.Op>)
    requires Pipelines.Valid(s) && s.byValue && s.values == LossTracking.Run(s.values.window, before)
    ensures Apply(s, op).byValue && Apply(s, op).values.window == s.values.window
    ensures Apply(s, op).values == LossTracking.Run(s.values.window, before + TrackerOp(s, op))
  {
    hide Decide, Compress, BoundedQueue.Valid, Offer, LossTracking.Pruned, LossTracking.Run;
    if op.Depart? {
      assert before + [] == before;
    } else {
      RunOneMore(s.values.window, before, TrackerOp(s, op)[0]);
    }
  }

  /**
   In value mode the tracker's state is that of a run which delivers each packet the filter
   passes and drops each other one, at the times they are recorded.
   */
  lemma {:induction false} TrackerSeesRun<P>(s: Pipeline<P>, ops: seq<Op<P>>, before: seq<LossTracking.Op>)
    requires Pipelines.Valid(s) && s.byValue && s.values == LossTracking.Run(s.values.window, before)
    ensures Final(s, ops).values == LossTracking.Run(s.values.window, before + TrackerOps(s, ops))
    decreases |ops|
  {
    hide Apply, TrackerOp, LossTracking.Run;
    if ops == [] {
      assert before + [] == before;
    } else {
      var now, rest := TrackerOp(s, ops[0]), ops[1..];
      ApplyKeepsValid(s, ops[0]);
      TrackerStep(s, ops[0], before);
      TrackerSeesRun(Apply(s, ops[0]), rest, before + now);
      assert before + (now + TrackerOps(Apply(s, ops[0]), rest)) == before + now + TrackerOps(Apply(s, ops[0]), rest);
    }
  }

  lemma RunOneMore(window: real, ops: seq<LossTracking.Op>, op: LossTracking.Op)
    ensures LossTracking.Run(window, ops + [op]) == LossTracking.Apply(LossTracking.Run(window, ops), op)
  {
    assert (ops + [op])[..|ops|] == ops;
  }

  lemma FreshIsBalanced<P>(s: Pipeline<P>, cfg: OptimizerConfig, byValue: bool, now: real)
    requires Fresh(s, cfg, byValue, now)
    ensures Pipelines.Valid(s) && Balanced(s, NEW_BOOKS)
  {
  }

  // ----- Who can meet a full queue -----

  /** The size and thresholds that make RED close the full queue. */
  predicate ClosesAtFull(cfg: OptimizerConfig) {
    cfg.maxQueueSize >= 1 && cfg.redMin <= 1.0 && cfg.redMax <= 1.0
  }

  /** How the optimizer was set up; in value mode its policy gives every packet its coefficient. */
  datatype Mode = ByPriority | ByValue(policy: Policy)

  ghost predicate Priced(mode: Mode, coefficient: real) {
    mode.ByValue? ==> exists h: Header :: coefficient == Lookup(mode.policy, h)
  }

  /** A packet the optimizer can receive: a fair draw, and a coefficient that its policy gives. */
  ghost predicate Admissible<P>(mode: Mode, a: Arrival<P>) {
    0.0 <= a.coin < 1.0 && Priced(mode, a.coefficient)
  }

  /** No packet is ever given a key below `floor`. */
  ghost predicate KeysFrom(mode: Mode, floor: real) {
    forall p: Priority, c: real | Priced(mode, c) :: QueueKey(mode.ByValue?, p, c) >= floor
  }

  ghost predicate AtLeast<P>(m: multiset<Entry<P>>, floor: real) {
    forall e | e in m :: e.key >= floor
  }

  /** The queue has the configured capacity, and no key below the floor of its mode. */
  ghost predicate QueueInvariant<P>(s: Pipeline<P>, mode: Mode, floor: real) {
    && s.byValue == mode.ByValue?
    && s.queue.cap == (if s.cfg.maxQueueSize < 1 then 1 else s.cfg.maxQueueSize)
    && (KeysFrom(mode, floor) ==> AtLeast(Contents(s.queue), floor))
  }

  /** What an offer adds is at most the newcomer, and it is there if it was accepted. */
  lemma OfferAddsNewcomer<P>(q: Queue<P>, key: real, packet: P)
    requires BoundedQueue.Valid(q)
    ensures var (q', ok) := Offer(q, key, packet);
            && (forall e | e in Contents(q') :: e in Contents(q) || e == Entry(key, q.next, packet))
            && (ok ==> Entry(key, q.next, packet) in Contents(q'))
            && ok == (|q.heap| < q.cap || WorstEntry(q).key >= key)
            && q'.cap == q.cap
  {
    hide Offer, IsHeap, Ticketed, IsWorst;
    OfferEffect(q, key, packet);
  }

  lemma StepKeepsQueueInvariant<P>(s: Pipeline<P>, op: Op<P>, mode: Mode, floor: real)
    requires Pipelines.Valid(s) && QueueInvariant(s, mode, floor) && (op.Arrive? ==> Admissible(mode, op.a))
    ensures QueueInvariant(Apply(s, op), mode, floor) && Apply(s, op).cfg == s.cfg
  {
    hide Decide, BoundedQueue.Valid, IsLeast, Offer, Serve, Compress, Priced, QueueKey;
    match op
    case Arrive(a) => OfferAddsNewcomer(s.queue, QueueKey(s.byValue, a.priority, a.coefficient), a.packet);
    case Depart => ServeEffect(s.queue);
    case Reset =>
  }

  lemma {:induction false} FinalQueueInvariant<P>(s: Pipeline<P>, ops: seq<Op<P>>, mode: Mode, floor: real)
    requires Pipelines.Valid(s) && QueueInvariant(s, mode, floor)
    requires forall op | op in ops && op.Arrive? :: Admissible(mode, op.a)
    ensures QueueInvariant(Final(s, ops), mode, floor) && Final(s, ops).cfg == s.cfg
    decreases |ops|
  {
    hide QueueInvariant, Admissible;
    if ops != [] {
      assert ops[0] in ops;
      ApplyKeepsValid(s, ops[0]);
      StepKeepsQueueInvariant(s, ops[0], mode, floor);
      FinalQueueInvariant(Apply(s, ops[0]), ops[1..], mode, floor);
    }
  }

  /** A packet other than Critical that passes the filter finds room. */
  lemma OthersFindRoom<P>(s: Pipeline<P>, a: Arrival<P>)
    requires Pipelines.Valid(s) && ClosesAtFull(s.cfg) && s.queue.cap == s.cfg.maxQueueSize && 0.0 <= a.coin < 1.0
    requires a.priority != Critical
    ensures Process(s, a).1.Passed? ==> |s.queue.heap| < s.queue.cap
  {
    FilterRuns.RedClosesFullQueue(s.cfg);
    assert Process(s, a).1.Passed? ==> RedCheck(s.cfg, a.priority, |s.queue.heap|, a.coin).Forward?;
  }

  /** A packet that passes the filter and finds room, or has the least key of all, is accepted. */
  lemma PassedIsAccepted<P>(s: Pipeline<P>, a: Arrival<P>, floor: real)
    requires Pipelines.Valid(s) && AtLeast(Contents(s.queue), floor)
    requires |s.queue.heap| < s.queue.cap || QueueKey(s.byValue, a.priority, a.coefficient) <= floor
    ensures Process(s, a).1.Passed? ==>
              && Process(s, a).1.accepted
              && Entry(QueueKey(s.byValue, a.priority, a.coefficient), s.queue.next, a.packet)
                 in Contents(Process(s, a).0.queue)
  {
    if |s.queue.heap| == s.queue.cap { assert WorstEntry(s.queue) in Contents(s.queue); }
    hide Decide, Offer, BoundedQueue.Valid, Compress, WorstFrom, QueueKey;
    OfferAddsNewcomer(s.queue, QueueKey(s.byValue, a.priority, a.coefficient), a.packet);
  }

  // ----- The condition is exact -----

  /** s is the state after a run of a new optimizer. */
  ghost predicate RunsTo<P>(cfg: OptimizerConfig, mode: Mode, start: Pipeline<P>, now: real, ops: seq<Op<P>>, s: Pipeline<P>) {
    && Fresh(start, cfg, mode.ByValue?, now) && Pipelines.Valid(start)
    && (forall op | op in ops && op.Arrive? :: Admissible(mode, op.a))
    && s == Final(start, ops)
  }

  ghost predicate Reachable<P(!new)>(cfg: OptimizerConfig, mode: Mode, s: Pipeline<P>) {
    exists start: Pipeline<P>, now: real, ops: seq<Op<P>> :: RunsTo(cfg, mode, start, now, ops, s)
  }

  /** In every run, only Critical packets that pass the filter can meet a full queue. */
  ghost predicate OnlyCriticalMeetsFull<P(!new)>(cfg: OptimizerConfig, mode: Mode) {
    forall s: Pipeline<P>, a: Arrival<P> |
      Pipelines.Valid(s) && Reachable(cfg, mode, s) && Admissible(mode, a) && a.priority != Critical ::
      Process(s, a).1.Passed? ==> |s.queue.heap| < s.queue.cap
  }

  /** In every run, every packet reported as not dropped really entered the queue. */
  ghost predicate ReportsAreTrue<P(!new)>(cfg: OptimizerConfig, mode: Mode) {
    forall s: Pipeline<P>, a: Arrival<P> |
      Pipelines.Valid(s) && Reachable(cfg, mode, s) && Admissible(mode, a) ::
      Process(s, a).1.Passed? ==> Process(s, a).1.accepted
  }

  lemma ReachableInvariant<P(!new)>(cfg: OptimizerConfig, mode: Mode, s: Pipeline<P>, floor: real)
    requires Reachable(cfg, mode, s)
    ensures Pipelines.Valid(s) && QueueInvariant(s, mode, floor) && s.cfg == cfg
  {
    var start, now, ops :| RunsTo(cfg, mode, start, now, ops, s);
    FinalQueueInvariant(start, ops, mode, floor);
  }

  /** A zero-sized packet of the given class, at the time the buckets were filled. */
  function Tiny<P>(packet: P, priority: Priority, coefficient: real, coin: real, now: real): Arrival<P> {
    Arrival(packet, priority, 0, [], [], coefficient, coin, now, now)
  }

  /** A state reached from `start` by Critical packets alone, its buckets still full. */
  ghost predicate Filled<P>(s: Pipeline<P>, cfg: OptimizerConfig, byValue: bool, now: real, coefficient: real) {
    && Pipelines.Valid(s) && s.cfg == cfg && s.byValue == byValue
    && s.queue.cap == (if cfg.maxQueueSize < 1 then 1 else cfg.maxQueueSize)
    && (forall p | p in s.buckets :: s.buckets[p] == PacketFilter.FullBucket(cfg, p, now))
    && (forall e | e in Contents(s.queue) :: e.key == QueueKey(byValue, Critical, coefficient))
  }

  lemma FullBucketGrantsNothing(cfg: OptimizerConfig, p: Priority, now: real)
    requires cfg.capacityMultiplier > 0.0
    ensures Consume(PacketFilter.FullBucket(cfg, p, now), 0, now) == (PacketFilter.FullBucket(cfg, p, now), true)
  {
    hide OptimizerConfig.BucketRate;
    FilterRuns.FullBucketFacts(cfg, p, now);
    assert Earned(cfg.BucketRate(p), now - now) == 0.0;
  }

  /** What the filter makes of a zero-sized packet: the buckets stay as they are. */
  lemma TinyAtFilter<P>(s: Pipeline<P>, cfg: OptimizerConfig, byValue: bool, now: real, c: real, a: Arrival<P>)
    requires cfg.capacityMultiplier > 0.0 && Filled(s, cfg, byValue, now, c) && a.size == 0 && a.filterAt == now
    ensures Decide(s.cfg, s.buckets, CallOf(s, a))
         == (s.buckets, if a.priority == Critical then Forward else RedCheck(cfg, a.priority, |s.queue.heap|, a.coin))
  {
    hide Consume, BoundedQueue.Valid, RedCheck;
    HasEach(s.buckets, a.priority);
    FullBucketGrantsNothing(cfg, a.priority, now);
    assert s.buckets[a.priority := s.buckets[a.priority]] == s.buckets;
  }

  lemma FillOne<P>(s: Pipeline<P>, cfg: OptimizerConfig, byValue: bool, now: real, c: real, packet: P)
    requires cfg.capacityMultiplier > 0.0 && Filled(s, cfg, byValue, now, c) && |s.queue.heap| < s.queue.cap
    ensures var s' := Process(s, Tiny(packet, Critical, c, 0.0, now)).0;
            Filled(s', cfg, byValue, now, c) && |s'.queue.heap| == |s.queue.heap| + 1
  {
    var a := Tiny(packet, Critical, c, 0.0, now);
    TinyAtFilter(s, cfg, byValue, now, c, a);
    ProcessKeepsValid(s, a);
    hide Decide, BoundedQueue.Valid, Push, QueueKey, Compress;
    OfferAddsNewcomer(s.queue, QueueKey(byValue, Critical, c), packet);
  }

  /** n Critical packets fill a new optimizer's queue to n. */
  lemma {:induction false} Fill<P>(
    start: Pipeline<P>, cfg: OptimizerConfig, byValue: bool, now: real, c: real, packet: P, n: nat)
    returns (ops: seq<Op<P>>)
    requires cfg.capacityMultiplier > 0.0 && Filled(start, cfg, byValue, now, c)
    requires |start.queue.heap| + n <= start.queue.cap
    ensures forall op | op in ops && op.Arrive? :: op.a.coin == 0.0 && op.a.coefficient == c
    ensures Filled(Final(start, ops), cfg, byValue, now, c)
    ensures |Final(start, ops).queue.heap| == |start.queue.heap| + n
    decreases n
  {
    if n == 0 {
      ops := [];
    } else {
      hide Filled, Process;
      var op := Arrive(Tiny(packet, Critical, c, 0.0, now));
      FilledIsValid(start, cfg, byValue, now, c);
      FillOne(start, cfg, byValue, now, c, packet);
      var more := Fill(Apply(start, op), cfg, byValue, now, c, packet, n - 1);
      ops := [op] + more;
      assert ops[1..] == more;
    }
  }

  lemma FilledIsValid<P>(s: Pipeline<P>, cfg: OptimizerConfig, byValue: bool, now: real, c: real)
    requires Filled(s, cfg, byValue, now, c)
    ensures Pipelines.Valid(s) && s.queue.cap == (if cfg.maxQueueSize < 1 then 1 else cfg.maxQueueSize)
  {
  }

  /** A new optimizer. */
  ghost function Start<P>(cfg: OptimizerConfig, byValue: bool, now: real): (s: Pipeline<P>)
    ensures Fresh(s, cfg, byValue, now) && Pipelines.Valid(s) && forall c: real :: Filled(s, cfg, byValue, now, c)
  {
    var full := (p: Priority) => PacketFilter.FullBucket(cfg, p, now);
    Pipeline(cfg, byValue,
             map[Critical := full(Critical), High := full(High), Medium := full(Medium), Low := full(Low),
                 Background := full(Background)],
             Zeros(), Empty(if cfg.maxQueueSize < 1 then 1 else cfg.maxQueueSize), Zeros(),
             0, 0, 0, 0, LossTracking.NewTracker(5.0))
  }

  /** A reachable state whose queue is full of Critical packets of one coefficient. */
  lemma FullOfCritical<P(!new)>(cfg: OptimizerConfig, mode: Mode, c: real, packet: P) returns (s: Pipeline<P>)
    requires cfg.capacityMultiplier > 0.0 && Priced(mode, c)
    ensures Reachable(cfg, mode, s) && Filled(s, cfg, mode.ByValue?, 0.0, c) && |s.queue.heap| == s.queue.cap
  {
    hide Filled, Fresh, Priced;
    var start: Pipeline<P> := Start(cfg, mode.ByValue?, 0.0);
    StartIsEmpty<P>(cfg, mode.ByValue?, 0.0);
    var ops := Fill(start, cfg, mode.ByValue?, 0.0, c, packet, start.queue.cap);
    s := Final(start, ops);
    assert RunsTo(cfg, mode, start, 0.0, ops, s);
    CapStays(s, start, cfg, mode.ByValue?, c);
  }

  lemma StartIsEmpty<P>(cfg: OptimizerConfig, byValue: bool, now: real)
    ensures Start<P>(cfg, byValue, now).queue.heap == []
  {
  }

  lemma CapStays<P>(s: Pipeline<P>, t: Pipeline<P>, cfg: OptimizerConfig, byValue: bool, c: real)
    requires Filled(s, cfg, byValue, 0.0, c) && Filled(t, cfg, byValue, 0.0, c)
    ensures s.queue.cap == t.queue.cap
  {
  }

  /** A packet let through to a queue full of Critical ones is accepted only if its key is no greater. */
  lemma MeetsFull<P>(s: Pipeline<P>, cfg: OptimizerConfig, byValue: bool, c: real, a: Arrival<P>)
    requires Filled(s, cfg, byValue, 0.0, c) && |s.queue.heap| == s.queue.cap
    requires Decide(s.cfg, s.buckets, CallOf(s, a)).1.Forward?
    ensures Process(s, a).1.Passed?
    ensures Process(s, a).1.accepted <==> QueueKey(byValue, Critical, c) >= QueueKey(byValue, a.priority, a.coefficient)
  {
    assert WorstEntry(s.queue) in Contents(s.queue);
    hide Decide, BoundedQueue.Valid, Compress, Offer, WorstFrom, QueueKey;
    OfferAddsNewcomer(s.queue, QueueKey(byValue, a.priority, a.coefficient), a.packet);
  }

  /** With an open RED, a Background packet passes the filter at a full queue, and is lost there if its key is greater. */
  lemma BackgroundMeetsFull<P(!new)>(cfg: OptimizerConfig, mode: Mode, c: real, packet: P)
    requires cfg.capacityMultiplier > 0.0 && !ClosesAtFull(cfg) && Priced(mode, c)
    ensures !OnlyCriticalMeetsFull<P>(cfg, mode)
    ensures QueueKey(mode.ByValue?, Critical, c) < QueueKey(mode.ByValue?, Background, c) ==> !ReportsAreTrue<P>(cfg, mode)
  {
    hide Process, Reachable, Filled, Decide, RedCheck, Pipelines.Valid, QueueKey, Priced;
    var s := FullOfCritical(cfg, mode, c, packet);
    FilledIsValid(s, cfg, mode.ByValue?, 0.0, c);
    var coin := FilterRuns.OpeningCoin(cfg, s.queue.cap);
    var a := Tiny(packet, Background, c, coin, 0.0);
    TinyAtFilter(s, cfg, mode.ByValue?, 0.0, c, a);
    MeetsFull(s, cfg, mode.ByValue?, c, a);
    assert Admissible(mode, a) && Process(s, a).1.Passed?;
  }

  /** Some packet can be received in any mode: its coefficient is the one of this header. */
  ghost function SomePrice(mode: Mode): (c: real)
    ensures Priced(mode, c)
  {
    if mode.ByValue? then Lookup(mode.policy, Header(0, 0, "")) else 1.0
  }

  /**
   In either mode only Critical packets can meet a full queue exactly when RED closes it, that
   is, when the configured size is at least one and both thresholds are at most one.
   */
  lemma OnlyCriticalMeetsFullExactly<P(!new)>(cfg: OptimizerConfig, mode: Mode, packet: P)
    requires cfg.capacityMultiplier > 0.0
    ensures OnlyCriticalMeetsFull<P>(cfg, mode) <==> ClosesAtFull(cfg)
  {
    hide Priced, QueueKey;
    if ClosesAtFull(cfg) {
      forall s: Pipeline<P>, a: Arrival<P> |
        Pipelines.Valid(s) && Reachable(cfg, mode, s) && Admissible(mode, a) && a.priority != Critical
        ensures Process(s, a).1.Passed? ==> |s.queue.heap| < s.queue.cap
      {
        ReachableInvariant(cfg, mode, s, 0.0);
        OthersFindRoom(s, a);
      }
    } else {
      BackgroundMeetsFull(cfg, mode, SomePrice(mode), packet);
    }
  }

  // ----- When the optimizer's reports are true -----

  /** Whatever a packet looks like, its effective coefficient is c. */
  ghost predicate UniformPrice(policy: Policy, c: real) {
    forall h: Header :: Max(0.0, Lookup(policy, h)) == c
  }

  /** In value mode the policy may know one price only, and RED must close the full queue unless that is 0. */
  ghost predicate Truthful(cfg: OptimizerConfig, mode: Mode) {
    match mode
    case ByPriority => ClosesAtFull(cfg)
    case ByValue(policy) => exists c: real :: UniformPrice(policy, c) && (c == 0.0 || ClosesAtFull(cfg))
  }

  /** The least key of a mode with one price: that of every Critical packet, and at price 0 of all. */
  lemma LeastKey(mode: Mode, c: real)
    requires mode.ByValue? ==> UniformPrice(mode.policy, c)
    ensures var floor := if mode.ByValue? then -(c * 5.0) else 1.0;
            && KeysFrom(mode, floor)
            && (forall x: real | Priced(mode, x) :: QueueKey(mode.ByValue?, Critical, x) == floor)
            && (mode.ByValue? && c == 0.0 ==>
                  forall p: Priority, x: real | Priced(mode, x) :: QueueKey(mode.ByValue?, p, x) == floor)
  {
    hide Lookup;
  }

  lemma TruthfulSuffices<P(!new)>(cfg: OptimizerConfig, mode: Mode, c: real, s: Pipeline<P>, a: Arrival<P>)
    requires mode.ByValue? ==> UniformPrice(mode.policy, c)
    requires ClosesAtFull(cfg) || (mode.ByValue? && c == 0.0)
    requires Reachable(cfg, mode, s) && Pipelines.Valid(s) && Admissible(mode, a)
    ensures Process(s, a).1.Passed? ==> Process(s, a).1.accepted
  {
    hide Process, QueueKey, KeysFrom, Priced, UniformPrice, Reachable, Pipelines.Valid, AtLeast;
    var floor := if mode.ByValue? then -(c * 5.0) else 1.0;
    LeastKey(mode, c);
    ReachableInvariant(cfg, mode, s, floor);
    FitsWithin(s);
    if a.priority != Critical && ClosesAtFull(cfg) { OthersFindRoom(s, a); }
    if Process(s, a).1.Passed? { PassedIsAccepted(s, a, floor); }
  }

  lemma FitsWithin<P>(s: Pipeline<P>)
    requires Pipelines.Valid(s)
    ensures |s.queue.heap| <= s.queue.cap
  {
  }

  /** Two prices in one policy: a cheap Critical packet is lost to a queue of dearer ones. */
  lemma TwoPricesFail<P(!new)>(cfg: OptimizerConfig, policy: Policy, dear: Header, cheap: Header, packet: P)
    requires cfg.capacityMultiplier > 0.0
    requires Max(0.0, Lookup(policy, dear)) > Max(0.0, Lookup(policy, cheap))
    ensures !ReportsAreTrue<P>(cfg, ByValue(policy))
  {
    hide Process, Reachable, Filled, Decide, Pipelines.Valid, Lookup;
    var mode, c := ByValue(policy), Lookup(policy, dear);
    var s := FullOfCritical(cfg, mode, c, packet);
    FilledIsValid(s, cfg, true, 0.0, c);
    var a := Tiny(packet, Critical, Lookup(policy, cheap), 0.0, 0.0);
    TinyAtFilter(s, cfg, true, 0.0, c, a);
    MeetsFull(s, cfg, true, c, a);
    assert Admissible(mode, a) && Process(s, a).1.Passed? && !Process(s, a).1.accepted;
  }

  lemma TruthfulIsNeeded<P(!new)>(cfg: OptimizerConfig, mode: Mode, packet: P)
    requires cfg.capacityMultiplier > 0.0 && !Truthful(cfg, mode)
    ensures !ReportsAreTrue<P>(cfg, mode)
  {
    hide ReportsAreTrue, Lookup;
    if mode.ByValue? {
      var first := Header(0, 0, "");
      var c := Max(0.0, Lookup(mode.policy, first));
      if UniformPrice(mode.policy, c) {
        BackgroundMeetsFull(cfg, mode, Lookup(mode.policy, first), packet);
      } else {
        var other: Header :| Max(0.0, Lookup(mode.policy, other)) != c;
        if Max(0.0, Lookup(mode.policy, other)) < c {
          TwoPricesFail(cfg, mode.policy, first, other, packet);
        } else {
          TwoPricesFail(cfg, mode.policy, other, first, packet);
        }
      }
    } else {
      BackgroundMeetsFull(cfg, mode, 1.0, packet);
    }
  }

  /**
   The optimizer's reports are true in every run exactly when RED closes the full queue and,
   in value mode, the policy gives all packets one effective coefficient; when that is 0 the
   reports are true whatever RED does.
   */
  lemma ReportsAreTrueExactly<P(!new)>(cfg: OptimizerConfig, mode: Mode, packet: P)
    requires cfg.capacityMultiplier > 0.0
    ensures ReportsAreTrue<P>(cfg, mode) <==> Truthful(cfg, mode)
  {
    hide Process, Reachable, UniformPrice, Admissible;
    if Truthful(cfg, mode) {
      var c: real :| mode.ByValue? ==> UniformPrice(mode.policy, c) && (c == 0.0 || ClosesAtFull(cfg));
      forall s: Pipeline<P>, a: Arrival<P> |
        Pipelines.Valid(s) && Reachable(cfg, mode, s) && Admissible(mode, a)
        ensures Process(s, a).1.Passed? ==> Process(s, a).1.accepted
      {
        TruthfulSuffices(cfg, mode, c, s, a);
      }
    } else {
      TruthfulIsNeeded(cfg, mode, packet);
    }
  }
}
