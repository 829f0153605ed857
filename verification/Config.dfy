/**
 The tuneable parameters that the modelled stages read.
 */
module Config {
  import opened Traffic

  datatype OptimizerConfig = OptimizerConfig(
    totalBandwidth: int,
    bandwidthBudget: map<Priority, real>,
    tokenRefillRate: map<Priority, real>,
    capacityMultiplier: real,
    maxQueueSize: int,
    compressionThreshold: int,
    redMin: real,
    redMax: real)
  {
    /** An explicit rate, or else the class's share of the total bandwidth. */
    function EffectiveRefillRate(p: Priority): real {
      if p in tokenRefillRate then tokenRefillRate[p]
      else (if p in bandwidthBudget then bandwidthBudget[p] else 0.0) * totalBandwidth as real
    }

    /** The rate a bucket is given: the configured one, or a floor of one byte per second. */
    function BucketRate(p: Priority): (rate: real)
      ensures rate > 0.0
    {
      if EffectiveRefillRate(p) <= 0.0 then 1.0 else EffectiveRefillRate(p)
    }
  }
}
