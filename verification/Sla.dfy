/**
 The service-level monitor: it times the pipeline, and its dequeue discards packets that have
 waited longer than their class may.
 */
module Sla {
  import opened Heapq
  import opened BoundedQueue
  import opened Traffic
  import opened Counters
  import opened Optimizers
  import opened Pipelines
  import QueueRuns

  /** Ceilings in microseconds and milliseconds; a class without one is not checked. */
  datatype SlaConfig = SlaConfig(pipelineCeiling: map<Priority, real>, sojournCeiling: map<Priority, real>, maxTracked: int)

  datatype Kind = PipelineTime | Sojourn

  datatype Violation = Violation(kind: Kind, priority: Priority, ceiling: real, actual: real)

  // ----- The counters and the ring buffer -----

  datatype Stats = Stats(
    pipeline: map<Priority, nat>, sojourn: map<Priority, nat>, expired: nat, total: nat, recent: seq<Violation>)

  function NoStats(): Stats {
    Stats(Zeros(), Zeros(), 0, 0, [])
  }

  /** The last n elements, or all of them. */
  function LastOf<T>(xs: seq<T>, n: nat): seq<T> {
    if |xs| <= n then xs else xs[|xs| - n..]
  }

  ghost predicate Total(st: Stats) {
    HasAll(st.pipeline) && HasAll(st.sojourn)
  }

  function Recorded(st: Stats, v: Violation, capacity: nat): (r: Stats)
    requires Total(st)
    ensures Total(r)
  {
    st.(pipeline := if v.kind.PipelineTime? then Bump(st.pipeline, v.priority) else st.pipeline,
        sojourn := if v.kind.Sojourn? then Bump(st.sojourn, v.priority) else st.sojourn,
        total := st.total + 1,
        recent := LastOf(st.recent + [v], capacity))
  }

  function AllRecorded(vs: seq<Violation>, capacity: nat): (r: Stats)
    ensures Total(r)
  {
    if vs == [] then NoStats() else Recorded(AllRecorded(vs[..|vs| - 1], capacity), vs[|vs| - 1], capacity)
  }

  function CountOf(vs: seq<Violation>, kind: Kind, p: Priority): nat {
    if vs == [] then 0
    else
      var v := vs[|vs| - 1];
      CountOf(vs[..|vs| - 1], kind, p) + (if v.kind == kind && v.priority == p then 1 else 0)
  }

  lemma LastOfExtends<T>(xs: seq<T>, x: T, n: nat)
    ensures LastOf(LastOf(xs, n) + [x], n) == LastOf(xs + [x], n)
  {
  }

  lemma BumpAt(m: map<Priority, nat>, p: Priority, q: Priority)
    requires HasAll(m)
    ensures p in m && q in m && q in Bump(m, p) && Bump(m, p)[q] == m[q] + (if p == q then 1 else 0)
  {
    HasEach(m, p);
    HasEach(m, q);
  }

  lemma ZerosAt(p: Priority)
    ensures p in Zeros() && Zeros()[p] == 0
  {
    match p case Critical => case High => case Medium => case Low => case Background =>
  }

  /**
   After any violations since a reset, each counter is the number of violations of its kind
   and class, the total is their number, and the ring buffer holds the latest of them.
   */
  lemma {:induction false} CountersMatchHistory(vs: seq<Violation>, capacity: nat, p: Priority)
    ensures var st := AllRecorded(vs, capacity);
            && p in st.pipeline && st.pipeline[p] == CountOf(vs, PipelineTime, p)
            && p in st.sojourn && st.sojourn[p] == CountOf(vs, Sojourn, p)
            && st.total == |vs| && st.recent == LastOf(vs, capacity)
  {
    hide HasAll, Bump, LastOf, Zeros;
    if vs == [] {
      ZerosAt(p);
      LastOfNothing(capacity);
    } else {
      var before, v := vs[..|vs| - 1], vs[|vs| - 1];
      var st := AllRecorded(before, capacity);
      CountersMatchHistory(before, capacity, p);
      BumpAt(st.pipeline, v.priority, p);
      BumpAt(st.sojourn, v.priority, p);
      LastOfExtends(before, v, capacity);
      assert before + [v] == vs;
    }
  }

  /** The ring buffer keeps n elements, or all if there are fewer, and they are the latest. */
  lemma LastOfExactly<T>(xs: seq<T>, n: nat)
    ensures var r := LastOf(xs, n); |r| == (if |xs| <= n then |xs| else n) && r == xs[|xs| - |r|..]
  {
  }

  lemma LastOfNothing(n: nat)
    ensures LastOf<Violation>([], n) == []
  {
  }

  // ----- Stale packets -----

  /** What the monitor reads from a packet it has dequeued. */
  datatype Waiting = Waiting(priority: Option<Priority>, enqueuedAt: Option<real>)

  function SojournMs(w: Waiting, now: real): real
    requires w.enqueuedAt.Some?
  {
    (now - w.enqueuedAt.value) * 1000.0
  }

  predicate Stale(cfg: SlaConfig, w: Waiting, now: real) {
    && w.priority.Some? && w.enqueuedAt.Some?
    && w.priority.value in cfg.sojournCeiling
    && SojournMs(w, now) > cfg.sojournCeiling[w.priority.value]
  }

  /** A packet is stale exactly when its class has a ceiling and it has waited longer, in milliseconds. */
  lemma StaleExactly(cfg: SlaConfig, w: Waiting, now: real)
    ensures Stale(cfg, w, now) <==>
            && w.priority.Some? && w.enqueuedAt.Some? && w.priority.value in cfg.sojournCeiling
            && 1000.0 * (now - w.enqueuedAt.value) > cfg.sojournCeiling[w.priority.value]
  {
  }

  /** The counters after a packet was taken from the queue: a stale one is a violation, and expired. */
  function Expired(st: Stats, cfg: SlaConfig, w: Waiting, now: real): (r: Stats)
    requires Total(st) && cfg.maxTracked >= 0
    ensures Total(r)
  {
    if Stale(cfg, w, now) then
      var v := Violation(Sojourn, w.priority.value, cfg.sojournCeiling[w.priority.value], SojournMs(w, now));
      Recorded(st, v, cfg.maxTracked).(expired := st.expired + 1)
    else st
  }

  /** The counters after the first n packets of an order were taken, each at its own clock reading. */
  function AllExpired(st: Stats, cfg: SlaConfig, order: seq<Waiting>, clock: nat -> real, n: nat): (r: Stats)
    requires Total(st) && cfg.maxTracked >= 0 && n <= |order|
    ensures Total(r)
  {
    if n == 0 then st else Expired(AllExpired(st, cfg, order, clock, n - 1), cfg, order[n - 1], clock(n - 1))
  }

  lemma OneMoreExpired(st: Stats, cfg: SlaConfig, order: seq<Waiting>, clock: nat -> real, n: nat)
    requires Total(st) && cfg.maxTracked >= 0 && n < |order|
    ensures AllExpired(st, cfg, order, clock, n + 1) == Expired(AllExpired(st, cfg, order, clock, n), cfg, order[n], clock(n))
  {
  }

  lemma StaleHasClass(cfg: SlaConfig, w: Waiting, now: real)
    requires Stale(cfg, w, now)
    ensures w.priority.Some? && w.enqueuedAt.Some?
  {
  }

  lemma NoneExpired(st: Stats, cfg: SlaConfig, order: seq<Waiting>, clock: nat -> real)
    requires Total(st) && cfg.maxTracked >= 0
    ensures AllExpired(st, cfg, order, clock, 0) == st
  {
  }

  lemma FreshStays(st: Stats, cfg: SlaConfig, w: Waiting, now: real)
    requires Total(st) && cfg.maxTracked >= 0
    ensures !Stale(cfg, w, now) ==> Expired(st, cfg, w, now) == st
  {
  }

  /** If the first n are stale, each is counted once, as expired, in the total and in a sojourn counter. */
  lemma {:induction false} EachExpiredOnce(st: Stats, cfg: SlaConfig, order: seq<Waiting>, clock: nat -> real, n: nat)
    requires Total(st) && cfg.maxTracked >= 0 && n <= |order|
    requires forall i | 0 <= i < n :: Stale(cfg, order[i], clock(i))
    ensures var r := AllExpired(st, cfg, order, clock, n);
            && r.expired == st.expired + n && r.total == st.total + n && r.pipeline == st.pipeline
            && Sum(r.sojourn) == Sum(st.sojourn) + n
  {
    hide Sum, Stale, SojournMs, LastOf, HasAll, Bump;
    if n > 0 {
      EachExpiredOnce(st, cfg, order, clock, n - 1);
      StaleHasClass(cfg, order[n - 1], clock(n - 1));
      BumpAddsOne(AllExpired(st, cfg, order, clock, n - 1).sojourn, order[n - 1].priority.value);
    }
  }

  /** The violations of the first n packets of an order, all stale: their class, its ceiling and the milliseconds waited. */
  ghost predicate Sojourns(cfg: SlaConfig, order: seq<Waiting>, clock: nat -> real, vs: seq<Violation>) {
    && |vs| <= |order|
    && (forall i | 0 <= i < |vs| ::
          && order[i].priority.Some? && order[i].enqueuedAt.Some? && order[i].priority.value in cfg.sojournCeiling
          && vs[i].kind == Sojourn && vs[i].priority == order[i].priority.value
          && vs[i].ceiling == cfg.sojournCeiling[vs[i].priority]
          && vs[i].actual == 1000.0 * (clock(i) - order[i].enqueuedAt.value) > vs[i].ceiling)
  }

  /** The violation of one stale packet. */
  function ViolationOf(cfg: SlaConfig, w: Waiting, now: real): Violation
    requires Stale(cfg, w, now)
  {
    Violation(Sojourn, w.priority.value, cfg.sojournCeiling[w.priority.value], 1000.0 * (now - w.enqueuedAt.value))
  }

  /**
   What a dequeue's skipped packets leave behind: after any earlier violations, the counters
   are those of the earlier ones followed by one sojourn violation for each, and as many more
   packets are expired.
   */
  lemma {:induction false} ExpiredAreRecorded(
    vs: seq<Violation>, expired: nat, cfg: SlaConfig, order: seq<Waiting>, clock: nat -> real, n: nat)
    returns (more: seq<Violation>)
    requires cfg.maxTracked >= 0 && n <= |order| && forall i | 0 <= i < n :: Stale(cfg, order[i], clock(i))
    ensures |more| == n && Sojourns(cfg, order, clock, more)
    ensures AllExpired(AllRecorded(vs, cfg.maxTracked).(expired := expired), cfg, order, clock, n)
         == AllRecorded(vs + more, cfg.maxTracked).(expired := expired + n)
  {
    hide AllRecorded, Recorded, Expired, AllExpired, Stale, Sojourns, ViolationOf, HasAll;
    if n == 0 {
      more := [];
      assert vs + [] == vs;
      NoSojourns(cfg, order, clock);
      NoneExpired(AllRecorded(vs, cfg.maxTracked).(expired := expired), cfg, order, clock);
    } else {
      var before := ExpiredAreRecorded(vs, expired, cfg, order, clock, n - 1);
      var v := ViolationOf(cfg, order[n - 1], clock(n - 1));
      more := before + [v];
      SojournsExtend(cfg, order, clock, before);
      assert vs + more == (vs + before) + [v];
      OneMoreExpired(AllRecorded(vs, cfg.maxTracked).(expired := expired), cfg, order, clock, n - 1);
      ExpiredStep(vs + before, expired + n - 1, cfg, order[n - 1], clock(n - 1));
    }
  }

  lemma ExpiredStep(vs: seq<Violation>, expired: nat, cfg: SlaConfig, w: Waiting, now: real)
    requires cfg.maxTracked >= 0 && Stale(cfg, w, now)
    ensures Expired(AllRecorded(vs, cfg.maxTracked).(expired := expired), cfg, w, now)
         == AllRecorded(vs + [ViolationOf(cfg, w, now)], cfg.maxTracked).(expired := expired + 1)
  {
    hide AllRecorded, Recorded, Expired, Stale, ViolationOf;
    OneMoreRecorded(vs, ViolationOf(cfg, w, now), cfg.maxTracked);
    ExpiredIsRecorded(AllRecorded(vs, cfg.maxTracked), expired, cfg, w, now);
  }

  lemma NoSojourns(cfg: SlaConfig, order: seq<Waiting>, clock: nat -> real)
    ensures Sojourns(cfg, order, clock, [])
  {
  }

  lemma SojournsExtend(cfg: SlaConfig, order: seq<Waiting>, clock: nat -> real, vs: seq<Violation>)
    requires Sojourns(cfg, order, clock, vs) && |vs| < |order| && Stale(cfg, order[|vs|], clock(|vs|))
    ensures Sojourns(cfg, order, clock, vs + [ViolationOf(cfg, order[|vs|], clock(|vs|))])
  {
  }

  lemma OneMoreRecorded(vs: seq<Violation>, v: Violation, capacity: nat)
    ensures AllRecorded(vs + [v], capacity) == Recorded(AllRecorded(vs, capacity), v, capacity)
  {
    assert (vs + [v])[..|vs|] == vs;
  }

  lemma ExpiredIsRecorded(st: Stats, expired: nat, cfg: SlaConfig, w: Waiting, now: real)
    requires Total(st) && cfg.maxTracked >= 0 && Stale(cfg, w, now)
    ensures Expired(st.(expired := expired), cfg, w, now)
         == Recorded(st, ViolationOf(cfg, w, now), cfg.maxTracked).(expired := expired + 1)
  {
    hide Bump, LastOf, HasAll;
  }

  class SlaMonitor {
    const optimizer: BandwidthOptimizer
    const config: SlaConfig
    var pipelineViolations: map<Priority, nat>
    var sojournViolations: map<Priority, nat>
    var packetsExpired: nat
    var totalViolations: nat
    var recent: seq<Violation>

    ghost predicate Valid()
      reads this
    {
      config.maxTracked >= 0 && HasAll(pipelineViolations) && HasAll(sojournViolations)
    }

    ghost function State(): (st: Stats)
      requires Valid()
      reads this
      ensures Total(st)
    {
      Stats(pipelineViolations, sojournViolations, packetsExpired, totalViolations, recent)
    }

    constructor Over(optimizer: BandwidthOptimizer, config: SlaConfig)
      requires config.maxTracked >= 0
      ensures Valid() && State() == NoStats() && this.optimizer == optimizer && this.config == config
    {
      this.optimizer, this.config := optimizer, config;
      pipelineViolations, sojournViolations, packetsExpired, totalViolations, recent := Zeros(), Zeros(), 0, 0, [];
    }

    /** A new monitor, or nothing where the ring buffer's constructor raises on a negative length. */
    static method Create(optimizer: BandwidthOptimizer, config: SlaConfig) returns (r: Option<SlaMonitor>)
      ensures r.Some? <==> config.maxTracked >= 0
      ensures r.Some? ==> fresh(r.value) && r.value.Valid() && r.value.State() == NoStats() && r.value.optimizer == optimizer
    {
      if config.maxTracked < 0 {
        return None;
      }
      var monitor := new SlaMonitor.Over(optimizer, config);
      return Some(monitor);
    }

    method ResetSlaStats()
      requires Valid()
      modifies this
      ensures Valid() && State() == NoStats() == AllRecorded([], config.maxTracked)
      ensures Sum(pipelineViolations) == Sum(sojournViolations) == packetsExpired == totalViolations == |recent| == 0
    {
      pipelineViolations, sojournViolations, packetsExpired, totalViolations, recent := Zeros(), Zeros(), 0, 0, [];
    }

    method RecordViolation(v: Violation)
      requires Valid()
      modifies this
      ensures Valid() && State() == Recorded(old(State()), v, config.maxTracked)
    {
      if v.kind == PipelineTime {
        pipelineViolations := Bump(pipelineViolations, v.priority);
      } else {
        sojournViolations := Bump(sojournViolations, v.priority);
      }
      totalViolations := totalViolations + 1;
      recent := recent + [v];
      if |recent| > config.maxTracked {
        recent := recent[|recent| - config.maxTracked..];
      }
    }

    /** Checks the time, in microseconds, that one call of the pipeline took. */
    method CheckPipeline(packet: Packet, elapsed: real)
      requires Valid()
      modifies this
      ensures Valid()
      ensures State() ==
              if packet.priority.Some? && packet.priority.value in config.pipelineCeiling
                 && elapsed > config.pipelineCeiling[packet.priority.value]
              then Recorded(old(State()),
                            Violation(PipelineTime, packet.priority.value, config.pipelineCeiling[packet.priority.value], elapsed),
                            config.maxTracked)
              else old(State())
    {
      if packet.priority.Some? && packet.priority.value in config.pipelineCeiling {
        var ceiling := config.pipelineCeiling[packet.priority.value];
        if elapsed > ceiling {
          RecordViolation(Violation(PipelineTime, packet.priority.value, ceiling, elapsed));
        }
      }
    }

    static function WaitingOf(packet: Packet): Waiting
      reads packet
    {
      Waiting(packet.priority, packet.enqueuedAt)
    }

    /** What the monitor will read from the packets of an order. */
    static ghost function Waitings(order: seq<Entry<Packet>>): (ws: seq<Waiting>)
      reads set e | e in order :: e.packet
      ensures |ws| == |order| && forall i | 0 <= i < |order| :: ws[i] == WaitingOf(order[i].packet)
    {
      seq(|order|, i requires 0 <= i < |order| reads set e | e in order :: e.packet => WaitingOf(order[i].packet))
    }

    /** Records a stale packet as expired; tells whether it was stale. */
    method Expire(packet: Packet, now: real) returns (stale: bool)
      requires Valid()
      modifies this
      ensures Valid() && stale == Stale(config, WaitingOf(packet), now)
      ensures State() == Expired(old(State()), config, WaitingOf(packet), now)
    {
      stale := false;
      if packet.priority.Some? && packet.enqueuedAt.Some? {
        var priority := packet.priority.value;
        if priority in config.sojournCeiling {
          var ceiling := config.sojournCeiling[priority];
          var sojourn := (now - packet.enqueuedAt.value) * 1000.0;
          if sojourn > ceiling {
            RecordViolation(Violation(Sojourn, priority, ceiling, sojourn));
            packetsExpired := packetsExpired + 1;
            stale := true;
          }
        }
      }
    }

    /**
     The next packet in the order of service that is not stale.  The clock is read once for
     every packet taken from the queue; `skipped` of them were stale.
     */
    method Dequeue(clock: nat -> real) returns (packet: Option<Packet>, ghost skipped: nat)
      requires Valid() && optimizer.Valid()
      modifies this, optimizer.Queues()
      ensures Valid() && optimizer.Valid()
      ensures var order := QueueRuns.Drained(old(optimizer.QueueState()));
              var waits := old(Waitings(QueueRuns.Drained(optimizer.QueueState())));
              && skipped <= |order| && State() == AllExpired(old(State()), config, waits, clock, skipped)
              && (forall i | 0 <= i < skipped :: Stale(config, waits[i], clock(i)))
              && (forall i | 0 <= i < skipped ::
                    && waits[i].priority.Some? && waits[i].enqueuedAt.Some? && waits[i].priority.value in config.sojournCeiling
                    && 1000.0 * (clock(i) - waits[i].enqueuedAt.value) > config.sojournCeiling[waits[i].priority.value])
              && (packet.None? ==>
                    skipped == |order| && QueueRuns.Drained(optimizer.QueueState()) == [])
              && (packet.Some? ==>
                    && skipped < |order| && packet.value == order[skipped].packet
                    && !Stale(config, waits[skipped], clock(skipped))
                    && QueueRuns.Drained(optimizer.QueueState()) == order[skipped + 1..])
    {
      hide BandwidthOptimizer.Valid, BandwidthOptimizer.QueueState, Sum, HasAll, Stale, QueueRuns.Drained, Serve,
           Expired, AllExpired;
      ghost var order := QueueRuns.Drained(optimizer.QueueState());
      OrderIsInQueue();
      ghost var waits := Waitings(order);
      NoneExpired(State(), config, waits, clock);
      var taken: nat := 0;
      while true
        invariant Valid() && optimizer.Valid() && taken <= |order|
        invariant QueueRuns.Drained(optimizer.QueueState()) == order[taken..]
        invariant forall i | 0 <= i < taken :: Stale(config, waits[i], clock(i))
        invariant forall i | 0 <= i < taken ::
                    && waits[i].priority.Some? && waits[i].enqueuedAt.Some? && waits[i].priority.value in config.sojournCeiling
                    && 1000.0 * (clock(i) - waits[i].enqueuedAt.value) > config.sojournCeiling[waits[i].priority.value]
        invariant State() == AllExpired(old(State()), config, waits, clock, taken)
        decreases |order| - taken
      {
        var next := Next();
        if next.None? {
          return None, taken;
        }
        assert WaitingOf(next.value) == waits[taken];
        OneMoreExpired(old(State()), config, waits, clock, taken);
        FreshStays(State(), config, waits[taken], clock(taken));
        StaleExactly(config, waits[taken], clock(taken));
        var stale := Expire(next.value, clock(taken));
        if !stale {
          return next, taken;
        }
        taken := taken + 1;
      }
    }

    /** The packets of the order of service are those in the queue. */
    lemma OrderIsInQueue()
      requires optimizer.Valid()
      ensures forall e | e in QueueRuns.Drained(optimizer.QueueState()) :: allocated(e.packet)
    {
      var q := optimizer.QueueState();
      QueueRuns.DrainSorts(q);
      forall e | e in QueueRuns.Drained(q)
        ensures allocated(e.packet)
      {
        assert e in multiset(QueueRuns.Drained(q));
        assert e in q.heap;
      }
    }

    /** Takes the first packet of the remaining order, if any. */
    method Next() returns (packet: Option<Packet>)
      requires optimizer.Valid()
      modifies optimizer.Queues()
      ensures optimizer.Valid()
      ensures var order := QueueRuns.Drained(old(optimizer.QueueState()));
              if order == [] then packet.None? && QueueRuns.Drained(optimizer.QueueState()) == []
              else packet == Some(order[0].packet) && QueueRuns.Drained(optimizer.QueueState()) == order[1..]
    {
      hide BandwidthOptimizer.Valid, BandwidthOptimizer.QueueState, QueueRuns.Drained, PopRest;
      QueueRuns.DrainTakes(optimizer.QueueState());
      packet := optimizer.Dequeue();
    }
  }

  // ----- Repeated dequeues -----

  /** How many packets at the front are stale when their clock is read. */
  function Skipped(cfg: SlaConfig, order: seq<Waiting>, clock: nat -> real, read: nat): (n: nat)
    ensures n <= |order|
  {
    if order == [] || !Stale(cfg, order[0], clock(read)) then 0 else 1 + Skipped(cfg, order[1..], clock, read + 1)
  }

  /** What dequeue returns when it is called again and again until the queue is empty. */
  function Returned(cfg: SlaConfig, order: seq<Waiting>, clock: nat -> real, read: nat): seq<Waiting>
    decreases |order|
  {
    var n := Skipped(cfg, order, clock, read);
    if n == |order| then [] else [order[n]] + Returned(cfg, order[n + 1..], clock, read + n + 1)
  }

  /** The packets that are fresh when their clock is read. */
  function FreshOnes(cfg: SlaConfig, order: seq<Waiting>, clock: nat -> real, read: nat): (r: seq<Waiting>)
    ensures |r| <= |order|
  {
    if order == [] then []
    else (if Stale(cfg, order[0], clock(read)) then [] else [order[0]]) + FreshOnes(cfg, order[1..], clock, read + 1)
  }

  /** All packets discarded by those calls. */
  function Discards(cfg: SlaConfig, order: seq<Waiting>, clock: nat -> real, read: nat): nat
    decreases |order|
  {
    var n := Skipped(cfg, order, clock, read);
    if n == |order| then n else n + Discards(cfg, order[n + 1..], clock, read + n + 1)
  }

  lemma {:induction false} SkippedAreStale(cfg: SlaConfig, order: seq<Waiting>, clock: nat -> real, read: nat)
    ensures var n := Skipped(cfg, order, clock, read);
            && FreshOnes(cfg, order, clock, read) == FreshOnes(cfg, order[n..], clock, read + n)
            && (n < |order| ==> !Stale(cfg, order[n], clock(read + n)))
  {
    if order != [] && Stale(cfg, order[0], clock(read)) {
      SkippedAreStale(cfg, order[1..], clock, read + 1);
      assert order[1..][Skipped(cfg, order[1..], clock, read + 1)..] == order[Skipped(cfg, order, clock, read)..];
    }
  }

  /** A call of `SlaMonitor.Dequeue` skips exactly this many: its contract admits no other number. */
  lemma {:induction false} SkippedIsFirstFresh(cfg: SlaConfig, order: seq<Waiting>, clock: nat -> real, read: nat, n: nat)
    requires n <= |order|
    ensures n == Skipped(cfg, order, clock, read)
       <==> (forall i | 0 <= i < n :: Stale(cfg, order[i], clock(read + i)))
            && (n < |order| ==> !Stale(cfg, order[n], clock(read + n)))
  {
    hide Stale;
    if n > 0 {
      SkippedIsFirstFresh(cfg, order[1..], clock, read + 1, n - 1);
      assert (forall i | 0 <= i < n :: Stale(cfg, order[i], clock(read + i)))
        <==> Stale(cfg, order[0], clock(read))
             && forall i | 0 <= i < n - 1 :: Stale(cfg, order[1..][i], clock(read + 1 + i))
      by {
        StaleFromSecond(cfg, order, clock, read, n);
      }
    }
  }

  lemma StaleFromSecond(cfg: SlaConfig, order: seq<Waiting>, clock: nat -> real, read: nat, n: nat)
    requires 0 < n <= |order|
    ensures (forall i | 0 <= i < n :: Stale(cfg, order[i], clock(read + i)))
       <==> Stale(cfg, order[0], clock(read))
            && forall i | 0 <= i < n - 1 :: Stale(cfg, order[1..][i], clock(read + 1 + i))
  {
    hide Stale;
    if Stale(cfg, order[0], clock(read)) && forall i | 0 <= i < n - 1 :: Stale(cfg, order[1..][i], clock(read + 1 + i)) {
      forall i | 0 <= i < n
        ensures Stale(cfg, order[i], clock(read + i))
      {
        if i > 0 { assert Stale(cfg, order[1..][i - 1], clock(read + 1 + (i - 1))); }
      }
    }
    if forall i | 0 <= i < n :: Stale(cfg, order[i], clock(read + i)) {
      assert Stale(cfg, order[0], clock(read + 0));
      forall i | 0 <= i < n - 1
        ensures Stale(cfg, order[1..][i], clock(read + 1 + i))
      {
        assert Stale(cfg, order[i + 1], clock(read + (i + 1)));
      }
    }
  }

  /**
   Calling dequeue until the queue is empty returns exactly the packets of the order of
   service that are fresh when taken, in that order, and expires each of the others once.
   */
  lemma {:induction false} DequeuesReturnFresh(cfg: SlaConfig, order: seq<Waiting>, clock: nat -> real, read: nat)
    ensures Returned(cfg, order, clock, read) == FreshOnes(cfg, order, clock, read)
    ensures Discards(cfg, order, clock, read) + |Returned(cfg, order, clock, read)| == |order|
    decreases |order|
  {
    var n := Skipped(cfg, order, clock, read);
    SkippedAreStale(cfg, order, clock, read);
    if n < |order| {
      DequeuesReturnFresh(cfg, order[n + 1..], clock, read + n + 1);
      assert order[n..][1..] == order[n + 1..];
    }
  }

  /** The fresh packets at one instant, without the clock. */
  function FreshAt(cfg: SlaConfig, order: seq<Waiting>, now: real): seq<Waiting> {
    if order == [] then []
    else (if Stale(cfg, order[0], now) then [] else [order[0]]) + FreshAt(cfg, order[1..], now)
  }

  lemma {:induction false} DequeuesAtOneInstant(cfg: SlaConfig, order: seq<Waiting>, clock: nat -> real, read: nat, now: real)
    requires forall i: nat :: clock(i) == now
    ensures Returned(cfg, order, clock, read) == FreshAt(cfg, order, now)
    decreases |order|
  {
    DequeuesReturnFresh(cfg, order, clock, read);
    FreshIgnoresSteadyClock(cfg, order, clock, read, now);
  }

  lemma {:induction false} FreshIgnoresSteadyClock(cfg: SlaConfig, order: seq<Waiting>, clock: nat -> real, read: nat, now: real)
    requires forall i: nat :: clock(i) == now
    ensures FreshOnes(cfg, order, clock, read) == FreshAt(cfg, order, now)
  {
    if order != [] { FreshIgnoresSteadyClock(cfg, order[1..], clock, read + 1, now); }
  }

  // ----- Stale packets are the oldest of their class -----

  type WaitingQueue = Queue<Waiting>

  /** Arrivals as the priority scheduler sees them: stamped in order, and keyed by class. */
  ghost predicate StampedArrivals(ops: seq<QueueRuns.Op<Waiting>>) {
    && (forall i | 0 <= i < |ops| && ops[i].Arrive? :: Stamped(ops[i]))
    && (forall i, j | 0 <= i < j < |ops| && ops[i].Arrive? && ops[j].Arrive? :: StampOf(ops[i]) <= StampOf(ops[j]))
  }

  ghost predicate Stamped(op: QueueRuns.Op<Waiting>)
    requires op.Arrive?
  {
    && op.packet.priority.Some? && op.packet.enqueuedAt.Some?
    && op.key == PriorityKey(op.packet.priority.value)
  }

  ghost function StampOf(op: QueueRuns.Op<Waiting>): real
    requires op.Arrive?
  {
    if op.packet.enqueuedAt.Some? then op.packet.enqueuedAt.value else 0.0
  }

  /** Every entry is keyed by its class and later tickets carry later stamps, none after `last`. */
  ghost predicate InStampOrder(m: multiset<Entry<Waiting>>, last: real) {
    && (forall e | e in m ::
          && e.packet.priority.Some? && e.packet.enqueuedAt.Some? && e.packet.enqueuedAt.value <= last
          && e.key == PriorityKey(e.packet.priority.value))
    && (forall e, f | e in m && f in m && e.ticket < f.ticket :: e.packet.enqueuedAt.value <= f.packet.enqueuedAt.value)
  }

  lemma ArrivalKeepsStamps(m: multiset<Entry<Waiting>>, last: real, e: Entry<Waiting>, m': multiset<Entry<Waiting>>)
    requires InStampOrder(m, last) && Ticketed(m, e.ticket) && m' <= m + multiset{e}
    requires e.packet.priority.Some? && e.packet.enqueuedAt.Some? && last <= e.packet.enqueuedAt.value
    requires e.key == PriorityKey(e.packet.priority.value)
    ensures InStampOrder(m', e.packet.enqueuedAt.value)
  {
    assert forall x | x in m' :: x in m || x == e;
  }

  lemma FewerKeepStamps(m: multiset<Entry<Waiting>>, last: real, m': multiset<Entry<Waiting>>)
    requires InStampOrder(m, last) && m' <= m
    ensures InStampOrder(m', last)
  {
    assert forall x | x in m' :: x in m;
  }

  lemma StampedBefore(ops: seq<QueueRuns.Op<Waiting>>, last: real)
    requires StampedArrivals(ops) && ops != [] && NoneAfter(ops, last)
    ensures var n := |ops| - 1;
            && StampedArrivals(ops[..n]) && NoneAfter(ops[..n], last)
            && (ops[n].Arrive? ==> NoneAfter(ops[..n], StampOf(ops[n])) && Stamped(ops[n]) && StampOf(ops[n]) <= last)
  {
  }

  ghost predicate NoneAfter(ops: seq<QueueRuns.Op<Waiting>>, last: real) {
    forall i | 0 <= i < |ops| && ops[i].Arrive? :: StampOf(ops[i]) <= last
  }

  lemma WeakenLast(m: multiset<Entry<Waiting>>, last: real, later: real)
    requires InStampOrder(m, last) && last <= later
    ensures InStampOrder(m, later)
  {
  }

  lemma ServiceShrinks<P>(q: Queue<P>)
    requires BoundedQueue.Valid(q)
    ensures Contents(Serve(q).0) <= Contents(q)
  {
    ServeEffect(q);
  }

  lemma {:induction false} RunKeepsStamps(cap: nat, ops: seq<QueueRuns.Op<Waiting>>, last: real)
    requires cap > 0 && StampedArrivals(ops) && NoneAfter(ops, last)
    ensures InStampOrder(Contents(QueueRuns.Run(cap, ops).queue), last)
  {
    if ops != [] {
      hide BoundedQueue.Valid, Ticketed, Offer, Serve, StampedArrivals, NoneAfter, InStampOrder, Contents;
      var n := |ops| - 1;
      var q, op := QueueRuns.Run(cap, ops[..n]).queue, ops[n];
      StampedBefore(ops, last);
      match op
      case Arrive(key, packet) =>
        RunKeepsStamps(cap, ops[..n], StampOf(op));
        QueueRuns.OfferSheds(q, key, packet);
        TicketedQueue(q);
        ArrivalKeepsStamps(Contents(q), StampOf(op), Entry(key, q.next, packet), Contents(Offer(q, key, packet).0));
        WeakenLast(Contents(Offer(q, key, packet).0), StampOf(op), last);
      case Depart =>
        RunKeepsStamps(cap, ops[..n], last);
        ServiceShrinks(q);
        FewerKeepStamps(Contents(q), last, Contents(Serve(q).0));
    }
  }

  lemma TicketedQueue<P>(q: Queue<P>)
    requires BoundedQueue.Valid(q)
    ensures Ticketed(Contents(q), q.next)
  {
  }

  /** Both have a class, and of one class the second is stale only if the first is. */
  ghost predicate StaleTogether(cfg: SlaConfig, first: Waiting, second: Waiting, now: real) {
    && first.priority.Some? && second.priority.Some?
    && (first.priority == second.priority && Stale(cfg, second, now) ==> Stale(cfg, first, now))
  }

  /** In the order of service the stale packets of each class come before its fresh ones. */
  ghost predicate StaleFirst(cfg: SlaConfig, order: seq<Entry<Waiting>>, now: real) {
    forall i, j | 0 <= i < j < |order| :: StaleTogether(cfg, order[i].packet, order[j].packet, now)
  }

  /** Every entry is stamped and keyed by its class. */
  ghost predicate ByClass(m: multiset<Entry<Waiting>>) {
    forall e | e in m ::
      e.packet.priority.Some? && e.packet.enqueuedAt.Some? && e.key == PriorityKey(e.packet.priority.value)
  }

  /** Within each class that has a ceiling, later tickets carry later stamps. */
  ghost predicate StampsFollowTickets(cfg: SlaConfig, m: multiset<Entry<Waiting>>)
    requires ByClass(m)
  {
    forall e, f | e in m && f in m && e.packet.priority == f.packet.priority
                  && e.packet.priority.value in cfg.sojournCeiling && e.ticket < f.ticket ::
      e.packet.enqueuedAt.value <= f.packet.enqueuedAt.value
  }

  lemma OlderIsStaler(cfg: SlaConfig, m: multiset<Entry<Waiting>>, e: Entry<Waiting>, f: Entry<Waiting>, now: real)
    requires ByClass(m) && StampsFollowTickets(cfg, m) && e in m && f in m && Less(e, f)
    ensures StaleTogether(cfg, e.packet, f.packet, now)
  {
  }

  /** When a later ticket carries an earlier stamp, it is stale for a while before the older one. */
  lemma OvertakesWhenStale(cfg: SlaConfig, e: Entry<Waiting>, f: Entry<Waiting>) returns (now: real)
    requires e.packet.priority.Some? && e.packet.priority == f.packet.priority
    requires e.packet.enqueuedAt.Some? && f.packet.enqueuedAt.Some?
    requires e.packet.priority.value in cfg.sojournCeiling && e.packet.enqueuedAt.value > f.packet.enqueuedAt.value
    ensures !StaleTogether(cfg, e.packet, f.packet, now)
  {
    now := e.packet.enqueuedAt.value + cfg.sojournCeiling[e.packet.priority.value] / 1000.0;
  }

  /**
   For any queue of stamped packets keyed by class, whatever enqueues filled it: at every
   instant the stale packets of a class come first in the order of service, so that they are
   what a series of dequeues discards from its front, exactly when within each class that has
   a ceiling the stamps follow the tickets.
   */
  lemma StaleFirstExactly(cfg: SlaConfig, q: Queue<Waiting>)
    requires BoundedQueue.Valid(q) && ByClass(Contents(q))
    ensures (forall now: real :: StaleFirst(cfg, QueueRuns.Drained(q), now)) <==> StampsFollowTickets(cfg, Contents(q))
  {
    hide BoundedQueue.Valid, QueueRuns.Drained, StaleTogether, QueueRuns.Ascending;
    var order := QueueRuns.Drained(q);
    QueueRuns.DrainSorts(q);
    assert forall i | 0 <= i < |order| :: order[i] in multiset(order);
    if StampsFollowTickets(cfg, Contents(q)) {
      forall now: real, i, j | 0 <= i < j < |order|
        ensures StaleTogether(cfg, order[i].packet, order[j].packet, now)
      {
        AscendingAt(order, i, j);
        OlderIsStaler(cfg, Contents(q), order[i], order[j], now);
      }
    } else {
      var e, f :| e in Contents(q) && f in Contents(q) && e.packet.priority == f.packet.priority
                  && e.packet.priority.value in cfg.sojournCeiling && e.ticket < f.ticket
                  && e.packet.enqueuedAt.value > f.packet.enqueuedAt.value;
      var i, j := Places(order, e, f);
      var now := OvertakesWhenStale(cfg, e, f);
      assert !StaleFirst(cfg, order, now);
    }
  }

  lemma AscendingAt(order: seq<Entry<Waiting>>, i: nat, j: nat)
    requires QueueRuns.Ascending(order) && i < j < |order|
    ensures Less(order[i], order[j])
  {
  }

  lemma Places(order: seq<Entry<Waiting>>, e: Entry<Waiting>, f: Entry<Waiting>) returns (i: nat, j: nat)
    requires QueueRuns.Ascending(order) && e in multiset(order) && f in multiset(order) && Less(e, f)
    ensures i < j < |order| && order[i] == e && order[j] == f
  {
    i :| 0 <= i < |order| && order[i] == e;
    j :| 0 <= j < |order| && order[j] == f;
  }

  /** At every instant of a run whose packets are stamped in the order of their tickets. */
  lemma StaleArePrefix(cap: nat, ops: seq<QueueRuns.Op<Waiting>>, cfg: SlaConfig, now: real)
    requires cap > 0 && StampedArrivals(ops)
    ensures StaleFirst(cfg, QueueRuns.Drained(QueueRuns.Run(cap, ops).queue), now)
  {
    hide QueueRuns.Run, BoundedQueue.Valid, StampedArrivals, QueueRuns.Drained, StaleFirst;
    var q := QueueRuns.Run(cap, ops).queue;
    var last := LatestBound(ops);
    RunKeepsStamps(cap, ops, last);
    StaleFirstExactly(cfg, q);
  }

  /** A time that no arrival of the run comes after. */
  lemma {:induction false} LatestBound(ops: seq<QueueRuns.Op<Waiting>>) returns (last: real)
    ensures NoneAfter(ops, last)
  {
    if ops == [] {
      last := 0.0;
    } else {
      var n := |ops| - 1;
      last := LatestBound(ops[..n]);
      if ops[n].Arrive? { last := Max(last, StampOf(ops[n])); }
      forall i | 0 <= i < |ops| && ops[i].Arrive?
        ensures StampOf(ops[i]) <= last
      {
        if i < n { assert ops[..n][i] == ops[i]; }
      }
    }
  }
}
