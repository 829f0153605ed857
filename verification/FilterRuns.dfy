/**
 Whole runs of the packet filter: the rate bounds, and what RED guarantees at a full queue.
 */
module FilterRuns {
  import opened Traffic
  import opened Counters
  import opened Config
  import opened Reals
  import opened TokenBucketModel
  import opened PacketFiltering

  /** Bytes of class p that the filter forwards at times in [s, t]. */
  function Forwarded(cfg: OptimizerConfig, buckets: Buckets, calls: seq<FilterCall>, p: Priority, s: real, t: real): int
    requires HasAll(buckets)
    decreases |calls|
  {
    if calls == [] then 0
    else
      var (buckets', verdict) := Decide(cfg, buckets, calls[0]);
      (if verdict.Forward? && calls[0].priority == p && s <= calls[0].at <= t then calls[0].bytes else 0)
      + Forwarded(cfg, buckets', calls[1..], p, s, t)
  }

  /** The calls of class p as its bucket sees them; a packet RED drops has still taken its tokens. */
  function Requests(cfg: OptimizerConfig, calls: seq<FilterCall>, p: Priority): seq<Call>
    decreases |calls|
  {
    if calls == [] then []
    else if calls[0].priority != p then Requests(cfg, calls[1..], p)
    else
      [Request(calls[0].at, calls[0].bytes, RedCheck(cfg, p, calls[0].queued, calls[0].coin).Forward?)]
      + Requests(cfg, calls[1..], p)
  }

  ghost predicate InOrder(from: real, calls: seq<FilterCall>)
    decreases |calls|
  {
    calls == [] || (from <= calls[0].at && InOrder(calls[0].at, calls[1..]))
  }

  ghost predicate NoNegativeSizes(calls: seq<FilterCall>) {
    forall call | call in calls :: call.bytes >= 0
  }

  lemma {:induction false} RequestsAreOrdered(cfg: OptimizerConfig, calls: seq<FilterCall>, p: Priority, from: real, since: real)
    requires InOrder(from, calls) && since <= from && NoNegativeSizes(calls)
    ensures Ordered(since, Requests(cfg, calls, p)) && NonNegative(Requests(cfg, calls, p))
    decreases |calls|
  {
    if calls != [] {
      var rest := Requests(cfg, calls[1..], p);
      assert calls[0] in calls;
      if calls[0].priority == p {
        RequestsAreOrdered(cfg, calls[1..], p, calls[0].at, calls[0].at);
        assert Requests(cfg, calls, p)[1..] == rest;
      } else {
        RequestsAreOrdered(cfg, calls[1..], p, calls[0].at, since);
      }
    }
  }

  /** What the filter forwards of a class other than Critical is what that class's bucket passes. */
  lemma {:induction false} ForwardedIsPassed(
    cfg: OptimizerConfig, buckets: Buckets, calls: seq<FilterCall>, p: Priority, s: real, t: real)
    requires HasAll(buckets) && p in buckets && p != Critical
    ensures Forwarded(cfg, buckets, calls, p, s, t) == PassedIn(buckets[p], Requests(cfg, calls, p), s, t)
    decreases |calls|
  {
    hide Consume, RedCheck, HasAll;
    if calls != [] {
      var buckets' := Decide(cfg, buckets, calls[0]).0;
      HasEach(buckets, calls[0].priority);
      HasEach(buckets', p);
      ForwardedIsPassed(cfg, buckets', calls[1..], p, s, t);
      if calls[0].priority == p {
        assert Requests(cfg, calls, p)[1..] == Requests(cfg, calls[1..], p);
      }
    }
  }

  /**
   Over every interval of every run, the bytes of a class other than Critical that get past
   the filter are at most its bucket's capacity plus its rate times the interval.
   */
  lemma ClassRateBound(cfg: OptimizerConfig, buckets: Buckets, calls: seq<FilterCall>, p: Priority, s: real, t: real)
    requires HasAll(buckets) && p in buckets && p != Critical
    requires Good(buckets[p]) && buckets[p].tokens >= 0.0
    requires InOrder(buckets[p].last, calls) && NoNegativeSizes(calls) && s <= t
    ensures Forwarded(cfg, buckets, calls, p, s, t) as real <= buckets[p].capacity + Earned(buckets[p].rate, t - s)
  {
    ForwardedIsPassed(cfg, buckets, calls, p, s, t);
    RequestsAreOrdered(cfg, calls, p, buckets[p].last, buckets[p].last);
    RateBound(buckets[p], Requests(cfg, calls, p), s, t);
  }

  /** The buckets a filter starts with. */
  ghost predicate Initial(cfg: OptimizerConfig, buckets: Buckets, now: real) {
    HasAll(buckets) && forall p | p in buckets :: buckets[p] == PacketFilter.FullBucket(cfg, p, now)
  }

  /** Traffic outside Critical as a whole is bounded by the four capacities and rates. */
  lemma TotalRateBound(cfg: OptimizerConfig, buckets: Buckets, now: real, calls: seq<FilterCall>, s: real, t: real)
    requires cfg.capacityMultiplier > 0.0 && Initial(cfg, buckets, now)
    requires InOrder(now, calls) && NoNegativeSizes(calls) && s <= t
    ensures var rate := cfg.BucketRate(High) + cfg.BucketRate(Medium) + cfg.BucketRate(Low) + cfg.BucketRate(Background);
            Forwarded(cfg, buckets, calls, High, s, t) as real + Forwarded(cfg, buckets, calls, Medium, s, t) as real
            + Forwarded(cfg, buckets, calls, Low, s, t) as real + Forwarded(cfg, buckets, calls, Background, s, t) as real
            <= rate * (cfg.capacityMultiplier + (t - s))
  {
    hide Forwarded, Initial, InOrder, NoNegativeSizes, OptimizerConfig.BucketRate;
    InitialClassBound(cfg, buckets, now, calls, High, s, t);
    InitialClassBound(cfg, buckets, now, calls, Medium, s, t);
    InitialClassBound(cfg, buckets, now, calls, Low, s, t);
    InitialClassBound(cfg, buckets, now, calls, Background, s, t);
    FactorOut(cfg.BucketRate(High), cfg.BucketRate(Medium), cfg.BucketRate(Low), cfg.BucketRate(Background),
              cfg.capacityMultiplier + (t - s));
  }

  lemma FactorOut(a: real, b: real, c: real, d: real, x: real)
    ensures a * x + b * x + c * x + d * x == (a + b + c + d) * x
  {
  }

  lemma InitialClassBound(
    cfg: OptimizerConfig, buckets: Buckets, now: real, calls: seq<FilterCall>, p: Priority, s: real, t: real)
    requires cfg.capacityMultiplier > 0.0 && Initial(cfg, buckets, now) && p != Critical
    requires InOrder(now, calls) && NoNegativeSizes(calls) && s <= t
    ensures Forwarded(cfg, buckets, calls, p, s, t) as real <= cfg.BucketRate(p) * (cfg.capacityMultiplier + (t - s))
  {
    hide Forwarded, Earned, OptimizerConfig.BucketRate, PacketFilter.FullBucket;
    HasEach(buckets, p);
    FullBucketFacts(cfg, p, now);
    ClassRateBound(cfg, buckets, calls, p, s, t);
    CapacityAndRate(cfg, p, now, t - s);
  }

  lemma FullBucketFacts(cfg: OptimizerConfig, p: Priority, now: real)
    requires cfg.capacityMultiplier > 0.0
    ensures var b := PacketFilter.FullBucket(cfg, p, now); Good(b) && b.tokens >= 0.0 && b.last == now
  {
    assert cfg.BucketRate(p) * cfg.capacityMultiplier > 0.0;
  }

  lemma CapacityAndRate(cfg: OptimizerConfig, p: Priority, now: real, elapsed: real)
    ensures var b := PacketFilter.FullBucket(cfg, p, now);
            b.capacity + Earned(b.rate, elapsed) == cfg.BucketRate(p) * (cfg.capacityMultiplier + elapsed)
  {
  }

  /**
   A total bandwidth of zero is not unlimited: without explicit rates every class gets the
   floor of one byte per second, and all traffic outside Critical is held to that.
   */
  lemma ZeroBandwidthThrottles(cfg: OptimizerConfig, buckets: Buckets, now: real, calls: seq<FilterCall>, s: real, t: real)
    requires cfg.totalBandwidth == 0 && cfg.tokenRefillRate == map[]
    requires cfg.capacityMultiplier > 0.0 && Initial(cfg, buckets, now)
    requires InOrder(now, calls) && NoNegativeSizes(calls) && s <= t
    ensures Forwarded(cfg, buckets, calls, High, s, t) as real + Forwarded(cfg, buckets, calls, Medium, s, t) as real
            + Forwarded(cfg, buckets, calls, Low, s, t) as real + Forwarded(cfg, buckets, calls, Background, s, t) as real
            <= 4.0 * (cfg.capacityMultiplier + (t - s))
  {
    hide Forwarded, Initial, InOrder, NoNegativeSizes;
    FloorRate(cfg, High);
    FloorRate(cfg, Medium);
    FloorRate(cfg, Low);
    FloorRate(cfg, Background);
    TotalRateBound(cfg, buckets, now, calls, s, t);
  }

  lemma FloorRate(cfg: OptimizerConfig, p: Priority)
    requires cfg.totalBandwidth == 0 && cfg.tokenRefillRate == map[]
    ensures cfg.BucketRate(p) == 1.0
  {
  }

  // ----- What the filter decides -----

  /** The buckets after a run of the filter. */
  function BucketsAfter(cfg: OptimizerConfig, buckets: Buckets, calls: seq<FilterCall>): (r: Buckets)
    requires HasAll(buckets)
    ensures HasAll(r)
    decreases |calls|
  {
    if calls == [] then buckets else BucketsAfter(cfg, Decide(cfg, buckets, calls[0]).0, calls[1..])
  }

  /** A class's bucket sees the calls of its class and no others. */
  lemma {:induction false} BucketSeesItsClass(cfg: OptimizerConfig, buckets: Buckets, calls: seq<FilterCall>, p: Priority)
    requires HasAll(buckets) && p in buckets
    ensures p in BucketsAfter(cfg, buckets, calls)
    ensures BucketsAfter(cfg, buckets, calls)[p] == Final(buckets[p], Requests(cfg, calls, p))
    decreases |calls|
  {
    hide Consume, RedCheck, HasAll;
    if calls != [] {
      var buckets' := Decide(cfg, buckets, calls[0]).0;
      HasEach(buckets, calls[0].priority);
      HasEach(buckets', p);
      BucketSeesItsClass(cfg, buckets', calls[1..], p);
      if calls[0].priority == p {
        assert Requests(cfg, calls, p)[1..] == Requests(cfg, calls[1..], p);
      }
    }
  }

  /**
   After any run of a new filter, a packet of a class other than Critical is refused by the
   rate limit exactly when it does not fit the bounds of its class: a full bucket and its
   earnings, from the start or from any earlier packet of the class on.
   */
  lemma RateLimitedExactly(
    cfg: OptimizerConfig, buckets: Buckets, now: real, calls: seq<FilterCall>, call: FilterCall, rate: real, capacity: real)
    requires Initial(cfg, buckets, now) && call.priority != Critical && call.priority in buckets
    requires rate == cfg.BucketRate(call.priority) && capacity == rate * cfg.capacityMultiplier
    ensures var requests := Requests(cfg, calls, call.priority);
            Decide(cfg, BucketsAfter(cfg, buckets, calls), call).1.RateLimited?
            <==> !Affordable(capacity, now, rate, capacity, requests, Decisions(buckets[call.priority], requests),
                             call.bytes as real, call.at)
  {
    var p := call.priority;
    IsFull(cfg, buckets, p, now, rate, capacity);
    hide Affordable, OptimizerConfig.BucketRate, Decide, Granted, BucketsAfter, Final, Decisions, PacketFilter.FullBucket;
    BucketSeesItsClass(cfg, buckets, calls, p);
    NextGrantedExactly(buckets[p], Requests(cfg, calls, p), Request(call.at, call.bytes, true));
    NeverLimited(cfg, BucketsAfter(cfg, buckets, calls), call);
  }

  lemma IsFull(cfg: OptimizerConfig, buckets: Buckets, p: Priority, now: real, rate: real, capacity: real)
    requires Initial(cfg, buckets, now) && p in buckets
    requires rate == cfg.BucketRate(p) && capacity == rate * cfg.capacityMultiplier
    ensures buckets[p] == Bucket(rate, capacity, capacity, now)
  {
    hide OptimizerConfig.BucketRate;
    SameProduct(rate, cfg.BucketRate(p), cfg.capacityMultiplier);
  }

  lemma NeverLimited(cfg: OptimizerConfig, buckets: Buckets, call: FilterCall)
    requires HasAll(buckets) && call.priority in buckets && call.priority != Critical
    ensures Decide(cfg, buckets, call).1.RateLimited? <==> !Granted(buckets[call.priority], Request(call.at, call.bytes, true))
  {
    hide Consume, EarlyDropChance;
  }

  lemma FillExactly(queued: nat, size: int, x: real)
    requires size > 0
    ensures queued as real / size as real < x <==> queued as real < x * size as real
  {
    var n, m := queued as real, size as real;
    assert n / m * m == n;
    if n / m < x { assert (x - n / m) * m > 0.0; } else { assert (n / m - x) * m >= 0.0; }
  }

  lemma ChanceExactly(cfg: OptimizerConfig, p: Priority, queued: nat, coin: real)
    requires cfg.maxQueueSize > 0 && cfg.redMin < cfg.redMax
    ensures var size := cfg.maxQueueSize as real;
            coin < EarlyDropChance(cfg, p, queued as real / size)
            <==> 5.0 * coin * (cfg.redMax - cfg.redMin) * size < (queued as real - cfg.redMin * size) * Level(p) as real
  {
    var n, size, d, level := queued as real, cfg.maxQueueSize as real, cfg.redMax - cfg.redMin, Level(p) as real;
    var share := (n / size - cfg.redMin) / d;
    assert share * d == n / size - cfg.redMin;
    assert n / size * size == n;
    assert share * d * size == n - cfg.redMin * size by { Distribute(n / size, cfg.redMin, size); }
    ScaleUp(coin, share, level, d * size);
    Rearrange(coin, share, level, d, size);
  }

  lemma Distribute(a: real, b: real, c: real)
    ensures (a - b) * c == a * c - b * c
  {
  }

  lemma ScaleUp(coin: real, share: real, level: real, scale: real)
    requires scale > 0.0
    ensures coin < Times(share, level / 5.0) <==> 5.0 * coin * scale < share * level * scale
  {
    var gap := share * level - 5.0 * coin;
    assert share * (level / 5.0) * 5.0 == share * level;
    assert coin < Times(share, level / 5.0) <==> gap > 0.0;
    assert share * level * scale - 5.0 * coin * scale == gap * scale;
    assert gap > 0.0 <==> gap * scale > 0.0;
  }

  lemma Rearrange(coin: real, share: real, level: real, d: real, size: real)
    ensures 5.0 * coin * (d * size) == 5.0 * coin * d * size
    ensures share * level * (d * size) == share * d * size * level
  {
  }

  /**
   The verdict in the configuration's own numbers.  Critical is forwarded; a packet its bucket
   cannot pay for is rate limited; of the others, and unless the queue is unbounded, those
   that find a fill below the lower threshold are forwarded, from there on those at the upper
   threshold or above are dropped as full, and those between are dropped early exactly when
   the draw is below the share of the way that the fill has gone times the level over five.
   */
  lemma VerdictExactly(cfg: OptimizerConfig, buckets: Buckets, call: FilterCall)
    requires HasAll(buckets)
    ensures var p, verdict := call.priority, Decide(cfg, buckets, call).1;
            var queued, size := call.queued as real, cfg.maxQueueSize as real;
            if p == Critical then verdict == Forward
            else if p in buckets && !Granted(buckets[p], Request(call.at, call.bytes, true)) then verdict == RateLimited
            else if cfg.maxQueueSize <= 0 || queued < cfg.redMin * size then verdict == Forward
            else if queued >= cfg.redMax * size then verdict == RedFull
            else if 5.0 * call.coin * (cfg.redMax - cfg.redMin) * size < (queued - cfg.redMin * size) * Level(p) as real
            then verdict == RedEarly
            else verdict == Forward
  {
    hide Consume, EarlyDropChance;
    HasEach(buckets, call.priority);
    if cfg.maxQueueSize > 0 {
      FillExactly(call.queued, cfg.maxQueueSize, cfg.redMin);
      FillExactly(call.queued, cfg.maxQueueSize, cfg.redMax);
      if cfg.redMin < cfg.redMax { ChanceExactly(cfg, call.priority, call.queued, call.coin); }
    }
  }

  /** The bytes a class may pass, from the configuration: its explicit rate, or its share of the total. */
  lemma ConfiguredRateBound(
    cfg: OptimizerConfig, buckets: Buckets, now: real, calls: seq<FilterCall>, p: Priority, rate: real, s: real, t: real)
    requires cfg.capacityMultiplier > 0.0 && Initial(cfg, buckets, now) && p != Critical
    requires InOrder(now, calls) && NoNegativeSizes(calls) && s <= t
    requires if p in cfg.tokenRefillRate then rate == cfg.tokenRefillRate[p]
             else p in cfg.bandwidthBudget && rate == cfg.bandwidthBudget[p] * cfg.totalBandwidth as real
    ensures var bytes := Forwarded(cfg, buckets, calls, p, s, t) as real;
            bytes <= (if rate > 0.0 then rate else 1.0) * (cfg.capacityMultiplier + (t - s))
  {
    hide Forwarded, Initial, InOrder, NoNegativeSizes;
    RateIsConfigured(cfg, p, rate);
    BoundByRate(cfg, buckets, now, calls, p, if rate > 0.0 then rate else 1.0, s, t);
  }

  lemma BoundByRate(
    cfg: OptimizerConfig, buckets: Buckets, now: real, calls: seq<FilterCall>, p: Priority, rate: real, s: real, t: real)
    requires cfg.capacityMultiplier > 0.0 && Initial(cfg, buckets, now) && p != Critical && rate == cfg.BucketRate(p)
    requires InOrder(now, calls) && NoNegativeSizes(calls) && s <= t
    ensures Forwarded(cfg, buckets, calls, p, s, t) as real <= rate * (cfg.capacityMultiplier + (t - s))
  {
    hide Forwarded, Initial, InOrder, NoNegativeSizes, OptimizerConfig.BucketRate;
    InitialClassBound(cfg, buckets, now, calls, p, s, t);
    SameProduct(cfg.BucketRate(p), rate, cfg.capacityMultiplier + (t - s));
  }

  lemma SameProduct(a: real, b: real, x: real)
    requires a == b
    ensures a * x == b * x
  {
  }

  /** A bucket's rate is the explicit one, or the class's share, or the floor when that is not positive. */
  lemma RateIsConfigured(cfg: OptimizerConfig, p: Priority, rate: real)
    requires if p in cfg.tokenRefillRate then rate == cfg.tokenRefillRate[p]
             else if p in cfg.bandwidthBudget then rate == cfg.bandwidthBudget[p] * cfg.totalBandwidth as real
             else rate == 0.0
    ensures cfg.BucketRate(p) == if rate > 0.0 then rate else 1.0
  {
  }

  // ----- What Critical pays -----

  /**
   A Critical packet is always forwarded.  Its bucket loses exactly the packet's bytes when
   it has them after the refill, and otherwise, for any size but zero, it does not.
   */
  lemma CriticalPaysExactly(cfg: OptimizerConfig, buckets: Buckets, call: FilterCall)
    requires HasAll(buckets) && call.priority == Critical && call.bytes != 0
    ensures var (buckets', verdict) := Decide(cfg, buckets, call);
            var full := Refilled(buckets[Critical], call.at);
            && verdict.Forward?
            && (buckets'[Critical].tokens == full.tokens - call.bytes as real <==> call.bytes as real <= full.tokens)
            && (call.bytes as real > full.tokens ==> buckets'[Critical] == full)
  {
    hide Refilled;
  }

  /** Above any limit there is a Critical packet that a new filter forwards without a token moving. */
  lemma CriticalPassesFree(cfg: OptimizerConfig, buckets: Buckets, now: real, limit: nat) returns (call: FilterCall)
    requires cfg.capacityMultiplier > 0.0 && Initial(cfg, buckets, now)
    ensures call.at == now && Decide(cfg, buckets, call).0 == buckets
    ensures Forwarded(cfg, buckets, [call], Critical, now, now) > limit
  {
    hide OptimizerConfig.BucketRate;
    var full := buckets[Critical];
    FullBucketFacts(cfg, Critical, now);
    var bytes := limit + full.tokens.Floor + 1;
    call := FilterCall(Critical, bytes, 0, 0.0, now);
    assert Earned(full.rate, now - full.last) == 0.0;
    assert Refilled(full, now) == full;
    assert bytes as real > full.tokens;
    assert buckets[Critical := full] == buckets;
    assert Forwarded(cfg, buckets, [call], Critical, now, now) == bytes + Forwarded(cfg, buckets, [], Critical, now, now);
  }

  // ----- RED at a full queue -----

  /** Nothing but Critical gets past RED when the queue is full, whatever the draw. */
  ghost predicate ClosedWhenFull(cfg: OptimizerConfig) {
    forall p: Priority, queued: nat, coin: real | p != Critical && queued >= cfg.maxQueueSize && 0.0 <= coin < 1.0 ::
      !RedCheck(cfg, p, queued, coin).Forward?
  }

  lemma FullFillIsAtLeastOne(cfg: OptimizerConfig, queued: nat)
    requires cfg.maxQueueSize >= 1 && queued >= cfg.maxQueueSize
    ensures queued as real / cfg.maxQueueSize as real >= 1.0
    ensures queued == cfg.maxQueueSize ==> queued as real / cfg.maxQueueSize as real == 1.0
  {
    var n, m := queued as real, cfg.maxQueueSize as real;
    assert n / m * m == n;
  }

  /**
   RED closes the full queue to every class but Critical exactly when the configured size is
   at least one and both thresholds are at most one.
   */
  lemma RedClosesFullQueue(cfg: OptimizerConfig)
    ensures ClosedWhenFull(cfg) <==> cfg.maxQueueSize >= 1 && cfg.redMin <= 1.0 && cfg.redMax <= 1.0
  {
    if cfg.maxQueueSize >= 1 && cfg.redMin <= 1.0 && cfg.redMax <= 1.0 {
      forall p: Priority, queued: nat, coin: real | p != Critical && queued >= cfg.maxQueueSize && 0.0 <= coin < 1.0
        ensures !RedCheck(cfg, p, queued, coin).Forward?
      {
        FullFillIsAtLeastOne(cfg, queued);
      }
    } else {
      OpenWhenFull(cfg);
    }
  }

  /** Otherwise a draw exists that lets a Background packet meet a full queue. */
  lemma OpenWhenFull(cfg: OptimizerConfig)
    requires cfg.maxQueueSize < 1 || cfg.redMin > 1.0 || cfg.redMax > 1.0
    ensures !ClosedWhenFull(cfg)
  {
    var coin := OpeningCoin(cfg, if cfg.maxQueueSize < 1 then 1 else cfg.maxQueueSize);
  }

  lemma OpeningCoin(cfg: OptimizerConfig, queued: nat) returns (coin: real)
    requires cfg.maxQueueSize < 1 || cfg.redMin > 1.0 || cfg.redMax > 1.0
    requires queued == if cfg.maxQueueSize < 1 then 1 else cfg.maxQueueSize
    ensures 0.0 <= coin < 1.0 && RedCheck(cfg, Background, queued, coin).Forward?
  {
    coin := 0.0;
    if cfg.maxQueueSize >= 1 {
      FullFillIsAtLeastOne(cfg, queued);
      if cfg.redMin <= 1.0 {
        FractionBelowOne(1.0 - cfg.redMin, cfg.redMax - cfg.redMin);
        coin := EarlyDropChance(cfg, Background, 1.0);
      }
    }
  }

  lemma FractionBelowOne(x: real, y: real)
    requires 0.0 <= x < y
    ensures 0.0 <= x / y < 1.0
  {
    assert x / y * y == x;
  }

  // ----- RED is fair -----

  lemma DivideMono(x: real, y: real, d: real)
    requires x <= y && d > 0.0
    ensures x / d <= y / d
  {
    assert y / d - x / d == (y - x) / d;
  }

  lemma ChanceGrows(cfg: OptimizerConfig, p: Priority, q: Priority, fill: real, fuller: real)
    requires cfg.redMin <= fill <= fuller < cfg.redMax && Level(p) <= Level(q)
    ensures EarlyDropChance(cfg, p, fill) <= EarlyDropChance(cfg, q, fuller)
  {
    hide Times;
    var d := cfg.redMax - cfg.redMin;
    var share, more := (fill - cfg.redMin) / d, (fuller - cfg.redMin) / d;
    DivideMono(fill - cfg.redMin, fuller - cfg.redMin, d);
    Quotient(fill - cfg.redMin, d);
    TimesMono(share, Level(p) as real / 5.0, Level(q) as real / 5.0);
    TimesSwap(share, Level(q) as real / 5.0);
    TimesSwap(more, Level(q) as real / 5.0);
    TimesMono(Level(q) as real / 5.0, share, more);
  }

  /**
   With the same draw, a packet that RED drops is dropped in every fuller queue, and so is
   every packet of a less urgent class.
   */
  lemma RedIsMonotone(cfg: OptimizerConfig, p: Priority, q: Priority, queued: nat, more: nat, coin: real)
    requires queued <= more && Level(p) <= Level(q) && !RedCheck(cfg, p, queued, coin).Forward?
    ensures !RedCheck(cfg, q, more, coin).Forward?
  {
    hide EarlyDropChance;
    if cfg.maxQueueSize > 0 {
      var fill, fuller := queued as real / cfg.maxQueueSize as real, more as real / cfg.maxQueueSize as real;
      DivideMono(queued as real, more as real, cfg.maxQueueSize as real);
      if fuller < cfg.redMax && fill >= cfg.redMin { ChanceGrows(cfg, p, q, fill, fuller); }
    }
  }
}
