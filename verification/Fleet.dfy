/**
 The coordinator: a registry of nodes that expire when silent, and the fleet-wide view of
 the value they deliver.
 */
module Fleet {
  import opened BoundedQueue
  import opened Reals
  import opened Dicts
  import opened LossTracking

  /** The value part of a node's statistics; each field may be absent. */
  datatype NodeValue = NodeValue(delivered: Option<real>, lost: Option<real>, efficiency: Option<real>)

  /** A node's last report; a node outside value mode reports no value part. */
  datatype Agent = Agent(value: Option<NodeValue>, lastSeen: real)

  type Registry = Dict<string, Agent>

  function Or(x: Option<real>, default: real): real {
    if x.Some? then x.value else default
  }

  /** The agents heard from at the cutoff or later. */
  ghost function Live(r: Registry, cutoff: real): Registry {
    Select(r, set k | k in r.vals && r.vals[k].lastSeen >= cutoff)
  }

  /** Exactly the agents silent for longer than the time to live are not live; the others keep their reports. */
  lemma LiveExactly(r: Registry, now: real, ttl: real, id: string)
    ensures id in Live(r, now - ttl).vals <==> id in r.vals && now - r.vals[id].lastSeen <= ttl
    ensures id in Live(r, now - ttl).vals ==> Live(r, now - ttl).vals[id] == r.vals[id]
  {
  }

  datatype Node = Node(id: string, value: NodeValue)

  /** The value-mode nodes of some keys of a registry, in order. */
  function PvmNodes(r: Registry, keys: seq<string>): seq<Node>
    requires forall k | k in keys :: k in r.vals
  {
    if keys == [] then []
    else
      var last := keys[|keys| - 1];
      PvmNodes(r, keys[..|keys| - 1])
      + (if r.vals[last].value.Some? then [Node(last, r.vals[last].value.value)] else [])
  }

  /** The other nodes, in order. */
  function NonPvmNodes(r: Registry, keys: seq<string>): seq<string>
    requires forall k | k in keys :: k in r.vals
  {
    if keys == [] then []
    else
      var last := keys[|keys| - 1];
      NonPvmNodes(r, keys[..|keys| - 1]) + (if r.vals[last].value.None? then [last] else [])
  }

  /** The value-mode nodes are exactly those that report a value part, each with its own. */
  lemma {:induction false} PvmNodesReport(r: Registry, keys: seq<string>, n: Node)
    requires forall k | k in keys :: k in r.vals
    ensures n in PvmNodes(r, keys) <==> n.id in keys && r.vals[n.id].value == Some(n.value)
  {
    if keys != [] {
      var rest := keys[..|keys| - 1];
      PvmNodesReport(r, rest, n);
      assert keys == rest + [keys[|keys| - 1]];
    }
  }

  /** The others are exactly those that report none, and no node is in both lists or in neither. */
  lemma {:induction false} NonPvmNodesReport(r: Registry, keys: seq<string>, k: string)
    requires forall k | k in keys :: k in r.vals
    ensures k in NonPvmNodes(r, keys) <==> k in keys && r.vals[k].value.None?
    ensures |NonPvmNodes(r, keys)| + |PvmNodes(r, keys)| == |keys|
  {
    if keys != [] {
      var rest := keys[..|keys| - 1];
      NonPvmNodesReport(r, rest, k);
      assert keys == rest + [keys[|keys| - 1]];
    }
  }

  function TotalDelivered(nodes: seq<Node>): real {
    if nodes == [] then 0.0 else Or(nodes[0].value.delivered, 0.0) + TotalDelivered(nodes[1..])
  }

  function TotalLost(nodes: seq<Node>): real {
    if nodes == [] then 0.0 else Or(nodes[0].value.lost, 0.0) + TotalLost(nodes[1..])
  }

  function NodeEfficiency(n: Node): real {
    Or(n.value.efficiency, 100.0)
  }

  /** The first node of greatest (or least) efficiency. */
  function Best(nodes: seq<Node>): (b: Node)
    requires nodes != []
    ensures b in nodes && forall n | n in nodes :: NodeEfficiency(n) <= NodeEfficiency(b)
  {
    if |nodes| == 1 then nodes[0]
    else
      var rest := Best(nodes[1..]);
      if NodeEfficiency(nodes[0]) >= NodeEfficiency(rest) then nodes[0] else rest
  }

  function Worst(nodes: seq<Node>): (b: Node)
    requires nodes != []
    ensures b in nodes && forall n | n in nodes :: NodeEfficiency(n) >= NodeEfficiency(b)
  {
    if |nodes| == 1 then nodes[0]
    else
      var rest := Worst(nodes[1..]);
      if NodeEfficiency(nodes[0]) <= NodeEfficiency(rest) then nodes[0] else rest
  }

  /** Of several best nodes the first is taken. */
  lemma {:induction false} BestIsFirst(nodes: seq<Node>) returns (i: nat)
    requires nodes != []
    ensures i < |nodes| && nodes[i] == Best(nodes)
    ensures forall j | 0 <= j < i :: NodeEfficiency(nodes[j]) < NodeEfficiency(Best(nodes))
  {
    i := 0;
    if |nodes| > 1 && NodeEfficiency(nodes[0]) < NodeEfficiency(Best(nodes[1..])) {
      i := BestIsFirst(nodes[1..]);
      i := i + 1;
      assert forall j | 0 < j < i :: nodes[j] == nodes[1..][j - 1];
    }
  }

  lemma {:induction false} WorstIsFirst(nodes: seq<Node>) returns (i: nat)
    requires nodes != []
    ensures i < |nodes| && nodes[i] == Worst(nodes)
    ensures forall j | 0 <= j < i :: NodeEfficiency(nodes[j]) > NodeEfficiency(Worst(nodes))
  {
    i := 0;
    if |nodes| > 1 && NodeEfficiency(nodes[0]) > NodeEfficiency(Worst(nodes[1..])) {
      i := WorstIsFirst(nodes[1..]);
      i := i + 1;
      assert forall j | 0 < j < i :: nodes[j] == nodes[1..][j - 1];
    }
  }

  function FleetEfficiency(nodes: seq<Node>): real {
    Efficiency(TotalDelivered(nodes), TotalLost(nodes))
  }

  datatype Summary =
    | NoPvmNodes(nonPvm: seq<string>)
    | Summary(efficiency: real, delivered: real, lost: real, best: string, worst: string, count: nat, nonPvm: seq<string>)

  class AgentCoordinator {
    const ttl: real
    var registry: Registry

    ghost predicate Valid()
      reads this
    {
      Dicts.Valid(registry)
    }

    constructor (ttl: real)
      ensures Valid() && registry == EmptyDict() && this.ttl == ttl
    {
      this.ttl, registry := ttl, EmptyDict();
    }

    method Ingest(id: string, value: Option<NodeValue>, now: real)
      requires Valid()
      modifies this
      ensures Valid() && registry == Put(old(registry), id, Agent(value, now))
      ensures registry.vals == old(registry.vals)[id := Agent(value, now)]
      ensures registry.keys == if id in old(registry.vals) then old(registry.keys) else old(registry.keys) + [id]
    {
      registry := Put(registry, id, Agent(value, now));
    }

    method Remove(id: string)
      requires Valid()
      modifies this
      ensures Valid() && registry == Delete(old(registry), id)
    {
      SelectKeepsValid(registry, registry.vals.Keys - {id});
      registry := Delete(registry, id);
    }

    method EvictStale(now: real)
      requires Valid()
      modifies this
      ensures Valid() && registry == Live(old(registry), now - ttl)
    {
      var cutoff := now - ttl;
      var stale := set k | k in registry.vals && registry.vals[k].lastSeen < cutoff;
      assert registry.vals.Keys - stale == set k | k in registry.vals && registry.vals[k].lastSeen >= cutoff;
      registry := DeleteAll(registry, stale);
    }

    /** The live nodes in two lists: those that report a value part, and the others. */
    method Partition() returns (nodes: seq<Node>, nonPvm: seq<string>)
      requires Valid()
      ensures nodes == PvmNodes(registry, registry.keys) && nonPvm == NonPvmNodes(registry, registry.keys)
    {
      nodes, nonPvm := [], [];
      for i := 0 to |registry.keys|
        invariant nodes == PvmNodes(registry, registry.keys[..i])
        invariant nonPvm == NonPvmNodes(registry, registry.keys[..i])
      {
        var id := registry.keys[i];
        assert registry.keys[..i + 1][..i] == registry.keys[..i];
        var value := registry.vals[id].value;
        if value.Some? {
          nodes := nodes + [Node(id, value.value)];
        } else {
          nonPvm := nonPvm + [id];
        }
      }
      assert registry.keys[..|registry.keys|] == registry.keys;
    }

    /** Figures before they are rounded for display. */
    method FleetValueSummary(now: real) returns (s: Summary)
      requires Valid()
      modifies this
      ensures Valid() && registry == Live(old(registry), now - ttl)
      ensures var nodes := PvmNodes(registry, registry.keys);
              if nodes == [] then s.NoPvmNodes?
              else
                && s.Summary? && s.efficiency == FleetEfficiency(nodes) && s.count == |nodes|
                && s.delivered == TotalDelivered(nodes) && s.lost == TotalLost(nodes)
                && s.best == Best(nodes).id && s.worst == Worst(nodes).id
      ensures s.nonPvm == NonPvmNodes(registry, registry.keys)
    {
      EvictStale(now);
      var nodes, nonPvm := Partition();
      if nodes == [] {
        return NoPvmNodes(nonPvm);
      }
      return Summary(FleetEfficiency(nodes), TotalDelivered(nodes), TotalLost(nodes),
                     Best(nodes).id, Worst(nodes).id, |nodes|, nonPvm);
    }
  }

  // ----- The fleet lies between its worst and its best node -----

  /** A node that reports its own non-negative rates and the efficiency they give. */
  ghost predicate Honest(n: Node) {
    var d, l := Or(n.value.delivered, 0.0), Or(n.value.lost, 0.0);
    d >= 0.0 && l >= 0.0 && NodeEfficiency(n) == Efficiency(d, l)
  }

  /** An honest node's efficiency times its flow is its delivered rate in percent, idle or not. */
  lemma HonestShare(n: Node)
    requires Honest(n)
    ensures var d, l := Or(n.value.delivered, 0.0), Or(n.value.lost, 0.0);
            Times(NodeEfficiency(n), d + l) == 100.0 * d
  {
    var d, l := Or(n.value.delivered, 0.0), Or(n.value.lost, 0.0);
    if d + l > 0.0 { Quotient(100.0 * d, d + l); }
  }

  /** Sums of honest nodes keep any bounds on their efficiencies, weighted by flow. */
  lemma {:induction false} WeightedBounds(nodes: seq<Node>, low: real, high: real)
    requires forall n | n in nodes :: Honest(n) && low <= NodeEfficiency(n) <= high
    ensures TotalDelivered(nodes) >= 0.0 && TotalLost(nodes) >= 0.0
    ensures Times(low, TotalDelivered(nodes) + TotalLost(nodes)) <= 100.0 * TotalDelivered(nodes)
    ensures 100.0 * TotalDelivered(nodes) <= Times(high, TotalDelivered(nodes) + TotalLost(nodes))
  {
    hide Times, Efficiency;
    if nodes == [] {
      TimesOne(low);
      TimesOne(high);
    } else {
      var n, rest := nodes[0], nodes[1..];
      assert n in nodes && forall m | m in rest :: m in nodes;
      WeightedBounds(rest, low, high);
      HonestShare(n);
      var flow := Or(n.value.delivered, 0.0) + Or(n.value.lost, 0.0);
      var more := TotalDelivered(rest) + TotalLost(rest);
      TimesAdds(low, flow, more);
      TimesAdds(high, flow, more);
      TimesSwap(low, flow);
      TimesSwap(high, flow);
      TimesSwap(NodeEfficiency(n), flow);
      TimesMono(flow, low, NodeEfficiency(n));
      TimesMono(flow, NodeEfficiency(n), high);
      assert TotalDelivered(nodes) + TotalLost(nodes) == flow + more;
    }
  }

  /** The sums add up over parts of the fleet; a figure a node does not report counts as zero. */
  lemma {:induction false} SumsAdd(a: seq<Node>, b: seq<Node>)
    ensures TotalDelivered(a + b) == TotalDelivered(a) + TotalDelivered(b)
    ensures TotalLost(a + b) == TotalLost(a) + TotalLost(b)
  {
    if a == [] {
      assert a + b == b;
    } else {
      assert (a + b)[1..] == a[1..] + b;
      SumsAdd(a[1..], b);
    }
  }

  lemma OneNode(n: Node)
    ensures TotalDelivered([n]) == match n.value.delivered case Some(d) => d case None => 0.0
    ensures TotalLost([n]) == match n.value.lost case Some(l) => l case None => 0.0
    ensures NodeEfficiency(n) == match n.value.efficiency case Some(e) => e case None => 100.0
  {
  }

  /** Each node's efficiency weighted by its flow. */
  function Weighted(nodes: seq<Node>): real {
    if nodes == [] then 0.0
    else NodeEfficiency(nodes[0]) * (TotalDelivered([nodes[0]]) + TotalLost([nodes[0]])) + Weighted(nodes[1..])
  }

  lemma {:induction false} WeightedIsDelivered(nodes: seq<Node>)
    requires forall n | n in nodes :: Honest(n)
    ensures Weighted(nodes) == 100.0 * TotalDelivered(nodes)
  {
    hide Honest, Efficiency;
    if nodes != [] {
      var n, rest := nodes[0], nodes[1..];
      assert n in nodes && forall m | m in rest :: m in nodes;
      WeightedIsDelivered(rest);
      HonestShare(n);
      assert TotalDelivered([n]) == Or(n.value.delivered, 0.0) && TotalLost([n]) == Or(n.value.lost, 0.0);
    }
  }

  /** The fleet's efficiency is the share of all value delivered: the flow-weighted mean of its nodes'. */
  lemma FleetIsWeightedMean(nodes: seq<Node>)
    requires forall n | n in nodes :: Honest(n)
    ensures var flow := TotalDelivered(nodes) + TotalLost(nodes);
            && FleetEfficiency(nodes) * flow == 100.0 * TotalDelivered(nodes) == Weighted(nodes)
            && (flow == 0.0 ==> FleetEfficiency(nodes) == 100.0)
  {
    WeightedIsDelivered(nodes);
    FlowIsNonNegative(nodes);
    hide Weighted, TotalDelivered, TotalLost;
    var d, flow := TotalDelivered(nodes), TotalDelivered(nodes) + TotalLost(nodes);
    if flow > 0.0 { Quotient(100.0 * d, flow); }
  }

  lemma Divide(bound: real, share: real, total: real)
    requires total > 0.0
    ensures Times(bound, total) <= share ==> bound <= share / total
    ensures share <= Times(bound, total) ==> share / total <= bound
  {
    assert share / total * total == share;
  }

  /**
   Whatever the nodes report of their own flow, idle ones included, the fleet's efficiency
   lies between that of its worst node and that of its best.
   */
  lemma FleetBetweenWorstAndBest(nodes: seq<Node>)
    requires nodes != [] && forall n | n in nodes :: Honest(n)
    ensures NodeEfficiency(Worst(nodes)) <= FleetEfficiency(nodes) <= NodeEfficiency(Best(nodes))
  {
    var low, high := NodeEfficiency(Worst(nodes)), NodeEfficiency(Best(nodes));
    WeightedBounds(nodes, low, high);
    var total := TotalDelivered(nodes) + TotalLost(nodes);
    if total > 0.0 {
      Divide(low, 100.0 * TotalDelivered(nodes), total);
      Divide(high, 100.0 * TotalDelivered(nodes), total);
    } else {
      IdleFleet(nodes);
    }
  }

  lemma {:induction false} IdleFleet(nodes: seq<Node>)
    requires (forall n | n in nodes :: Honest(n)) && TotalDelivered(nodes) + TotalLost(nodes) == 0.0
    ensures forall n | n in nodes :: NodeEfficiency(n) == 100.0
  {
    if nodes != [] {
      assert nodes[0] in nodes && forall m | m in nodes[1..] :: m in nodes;
      FlowIsNonNegative(nodes[1..]);
      IdleFleet(nodes[1..]);
      assert nodes == [nodes[0]] + nodes[1..];
    }
  }

  lemma {:induction false} FlowIsNonNegative(nodes: seq<Node>)
    requires forall n | n in nodes :: Honest(n)
    ensures TotalDelivered(nodes) >= 0.0 && TotalLost(nodes) >= 0.0
  {
    if nodes != [] {
      assert nodes[0] in nodes && forall m | m in nodes[1..] :: m in nodes;
      FlowIsNonNegative(nodes[1..]);
    }
  }
}
