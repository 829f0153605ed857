/**
 Packets and their priority classes.
 */
module Traffic {
  import opened BoundedQueue

  datatype Priority = Critical | High | Medium | Low | Background

  /** The numeric value of a class; lower is more urgent. */
  function Level(p: Priority): (n: int)
    ensures 1 <= n <= 5
  {
    match p
    case Critical => 1
    case High => 2
    case Medium => 3
    case Low => 4
    case Background => 5
  }

  /** A packet that has no class yet is treated as Medium. */
  function Class(p: Option<Priority>): (c: Priority)
    ensures Some(c) == p || (p == None && Level(c) == 3)
  {
    if p.Some? then p.value else Medium
  }

  function Max(a: real, b: real): (m: real)
    ensures m >= a && m >= b && (m == a || m == b)
  {
    if a >= b then a else b
  }

  function Min(a: real, b: real): (m: real)
    ensures m <= a && m <= b && (m == a || m == b)
  {
    if a <= b then a else b
  }

  /** The key `PriorityScheduler` sorts by. */
  function PriorityKey(p: Priority): real {
    Level(p) as real
  }

  function Multiplier(p: Priority): real {
    match p
    case Critical => 5.0
    case High => 4.0
    case Medium => 3.0
    case Low => 2.0
    case Background => 1.0
  }

  /** The key `ValueScheduler` sorts by: the negated effective value. */
  function ValueKey(p: Priority, coefficient: real): real {
    -(Max(0.0, coefficient) * Multiplier(p))
  }

  class Packet {
    var srcIp: string
    var dstIp: string
    var srcPort: int
    var dstPort: int
    var protocol: string
    var payload: seq<bv8>
    var size: int
    var priority: Option<Priority>
    var enqueuedAt: Option<real>
    var coefficient: real

    /** A size of zero stands for the length of the payload. */
    constructor (srcIp: string, dstIp: string, srcPort: int, dstPort: int, protocol: string,
                 payload: seq<bv8>, size: int, priority: Option<Priority>)
      ensures this.size == if size == 0 then |payload| else size
      ensures this.payload == payload && this.priority == priority && enqueuedAt == None && coefficient == 1.0
      ensures this.srcIp == srcIp && this.dstIp == dstIp && this.srcPort == srcPort && this.dstPort == dstPort
      ensures this.protocol == protocol
    {
      this.srcIp, this.dstIp, this.srcPort, this.dstPort := srcIp, dstIp, srcPort, dstPort;
      this.protocol, this.payload, this.priority := protocol, payload, priority;
      this.size := if size == 0 then |payload| else size;
      enqueuedAt, coefficient := None, 1.0;
    }
  }

  /** The classes packets have now. */
  ghost function Classes(packets: seq<Packet>): (r: seq<Priority>)
    reads packets
    ensures |r| == |packets|
  {
    seq(|packets|, i requires 0 <= i < |packets| reads packets => Class(packets[i].priority))
  }
}
