/**
 The packet filter: a token bucket for each priority class, then random early detection (RED)
 on the fill level of the shared queue.  The random draw of a call is its `coin` in [0, 1).
 */
module PacketFiltering {
  import opened BoundedQueue
  import opened Traffic
  import opened Counters
  import opened Config
  import opened Reals
  import opened TokenBucketModel

  datatype Decision = Forward | RateLimited | RedFull | RedEarly

  /** The chance of an early drop between the two thresholds; lower classes are hit harder. */
  function EarlyDropChance(cfg: OptimizerConfig, p: Priority, fill: real): real
    requires cfg.redMin < cfg.redMax
  {
    Times((fill - cfg.redMin) / (cfg.redMax - cfg.redMin), Level(p) as real / 5.0)
  }

  /** What RED says to a packet that meets `queued` packets in the queue. */
  function RedCheck(cfg: OptimizerConfig, p: Priority, queued: nat, coin: real): Decision {
    if cfg.maxQueueSize <= 0 then Forward
    else
      var fill := queued as real / cfg.maxQueueSize as real;
      if fill < cfg.redMin then Forward
      else if fill >= cfg.redMax then RedFull
      else if coin < EarlyDropChance(cfg, p, fill) then RedEarly
      else Forward
  }

  type Buckets = map<Priority, Bucket>

  /** One decision on the buckets: the buckets afterwards, and the verdict. */
  function Decide(cfg: OptimizerConfig, buckets: Buckets, call: FilterCall): (r: (Buckets, Decision))
    requires HasAll(buckets)
    ensures HasAll(r.0)
  {
    HasEach(buckets, call.priority);
    var (bucket, granted) := Consume(buckets[call.priority], call.bytes, call.at);
    var buckets' := buckets[call.priority := bucket];
    if call.priority == Critical then (buckets', Forward)
    else if !granted then (buckets', RateLimited)
    else (buckets', RedCheck(cfg, call.priority, call.queued, call.coin))
  }

  /** A packet of a class shown to the filter, with what the filter reads from its surroundings. */
  datatype FilterCall = FilterCall(priority: Priority, bytes: int, queued: nat, coin: real, at: real)

  class PacketFilter {
    const config: OptimizerConfig
    const buckets: map<Priority, TokenBucket>
    var dropCounts: map<Priority, nat>

    ghost predicate Valid()
      reads this
    {
      && HasAll(buckets) && HasAll(dropCounts)
      && (forall p, q | p in buckets && q in buckets && p != q :: buckets[p] != buckets[q])
    }

    ghost function States(): (s: Buckets)
      requires HasAll(buckets)
      reads buckets.Values
      ensures HasAll(s)
    {
      map p | p in buckets :: buckets[p].State()
    }

    constructor Over(config: OptimizerConfig, buckets: map<Priority, TokenBucket>)
      requires HasAll(buckets)
      requires forall p, q | p in buckets && q in buckets && p != q :: buckets[p] != buckets[q]
      ensures Valid() && this.config == config && this.buckets == buckets && dropCounts == Zeros()
    {
      this.config, this.buckets, dropCounts := config, buckets, Zeros();
    }

    /** The bucket a class starts with. */
    static ghost function FullBucket(config: OptimizerConfig, p: Priority, now: real): Bucket {
      var capacity := config.BucketRate(p) * config.capacityMultiplier;
      Bucket(config.BucketRate(p), capacity, capacity, now)
    }

    /** The bucket of one class, its rate raised to the floor. */
    static method InitBucket(config: OptimizerConfig, p: Priority, now: real) returns (r: Option<TokenBucket>)
      ensures r.Some? <==> config.capacityMultiplier > 0.0
      ensures r.Some? ==> fresh(r.value) && r.value.State() == FullBucket(config, p, now)
    {
      var rate := config.EffectiveRefillRate(p);
      if rate <= 0.0 {
        rate := 1.0;
      }
      r := TokenBucket.Create(rate, rate * config.capacityMultiplier, now);
    }

    /** A full bucket for every class, or nothing where a bucket's constructor would raise. */
    static method InitBuckets(config: OptimizerConfig, now: real) returns (r: Option<map<Priority, TokenBucket>>)
      ensures r.Some? <==> config.capacityMultiplier > 0.0
      ensures r.Some? ==> HasAll(r.value) && forall p | p in r.value :: fresh(r.value[p])
      ensures r.Some? ==> forall p, q | p in r.value && q in r.value && p != q :: r.value[p] != r.value[q]
      ensures r.Some? ==> forall p | p in r.value :: r.value[p].State() == FullBucket(config, p, now)
    {
      hide FullBucket;
      var classes := [Critical, High, Medium, Low, Background];
      var made: map<Priority, TokenBucket> := map[];
      for i := 0 to |classes|
        invariant forall j | 0 <= j < i :: classes[j] in made
        invariant i > 0 ==> config.capacityMultiplier > 0.0
        invariant forall p | p in made :: fresh(made[p]) && made[p].State() == FullBucket(config, p, now)
        invariant forall p, q | p in made && q in made && p != q :: made[p] != made[q]
      {
        var bucket := InitBucket(config, classes[i], now);
        if bucket.None? {
          return None;
        }
        made := made[classes[i] := bucket.value];
      }
      assert classes[0] in made && classes[1] in made && classes[2] in made && classes[3] in made && classes[4] in made;
      return Some(made);
    }

    method ShouldDrop(packet: Packet, queued: nat, coin: real, now: real) returns (decision: Decision)
      requires Valid()
      modifies this`dropCounts, buckets.Values
      ensures Valid()
      ensures (States(), decision)
           == Decide(config, old(States()), FilterCall(Class(packet.priority), packet.size, queued, coin, now))
      ensures dropCounts == if decision.Forward? then old(dropCounts)
                            else Bump(old(dropCounts), Class(packet.priority))
    {
      var priority := Class(packet.priority);
      HasEach(buckets, priority);
      var allowed := buckets[priority].TryConsume(packet.size, now);
      assert States() == old(States())[priority := buckets[priority].State()];
      if !allowed && priority != Critical {
        dropCounts := Bump(dropCounts, priority);
        return RateLimited;
      }
      if priority != Critical {
        decision := RedCheck(config, priority, queued, coin);
        if !decision.Forward? {
          dropCounts := Bump(dropCounts, priority);
        }
        return;
      }
      return Forward;
    }

    method ResetDropCounts()
      requires Valid()
      modifies `dropCounts
      ensures Valid() && dropCounts == Zeros()
    {
      dropCounts := Zeros();
    }
  }
}
