/**
 The strict-priority scheduler: lower priority value first, first come first served within a class.
 */
module PriorityScheduling {
  import opened Heapq
  import opened BoundedQueue
  import opened Traffic
  import opened Counters
  import QueueRuns

  class PriorityScheduler {
    const maxSize: nat
    var heap: seq<Entry<Packet>>
    var counter: nat
    var enqueueCounts: map<Priority, nat>
    var dequeueCounts: map<Priority, nat>
    var droppedOverflow: nat

    ghost function Model(): Queue<Packet>
      reads this
    {
      Queue(maxSize, heap, counter, droppedOverflow)
    }

    ghost predicate Valid()
      reads this
    {
      BoundedQueue.Valid(Model()) && HasAll(enqueueCounts) && HasAll(dequeueCounts)
    }

    constructor (maxQueueSize: int)
      ensures Valid() && Model() == Empty(if maxQueueSize < 1 then 1 else maxQueueSize)
      ensures enqueueCounts == Zeros() && dequeueCounts == Zeros()
    {
      maxSize := if maxQueueSize < 1 then 1 else maxQueueSize;
      heap, counter, droppedOverflow := [], 0, 0;
      enqueueCounts, dequeueCounts := Zeros(), Zeros();
    }

    method FindWorstIndex() returns (worst: nat)
      requires |heap| > 0
      ensures worst < |heap| && worst == WorstFrom(heap, 0, 0)
    {
      worst := 0;
      for i := 0 to |heap|
        invariant worst < |heap|
        invariant WorstFrom(heap, i, worst) == WorstFrom(heap, 0, 0)
      {
        if heap[i].key > heap[worst].key {
          worst := i;
        } else if heap[i].key == heap[worst].key && heap[i].ticket < heap[worst].ticket {
          worst := i;
        }
      }
    }

    /** Stamps the packet and offers it to the queue. */
    method Enqueue(packet: Packet, now: real) returns (accepted: bool)
      requires Valid()
      modifies this, packet`enqueuedAt
      ensures Valid() && packet.enqueuedAt == Some(now)
      ensures (Model(), accepted) == Offer(old(Model()), PriorityKey(Class(packet.priority)), packet)
      ensures Contents(Model()) == AfterOffer(old(Model()), Entry(PriorityKey(Class(packet.priority)), old(counter), packet))
      ensures enqueueCounts == if accepted then Bump(old(enqueueCounts), Class(packet.priority)) else old(enqueueCounts)
      ensures dequeueCounts == old(dequeueCounts)
    {
      hide IsHeap, Ticketed, NewTicket, BoundedQueue.Admit, AfterOffer;
      packet.enqueuedAt := Some(now);
      OfferEffect(Model(), PriorityKey(Class(packet.priority)), packet);
      TakeTicket(Model());
      var entry := Entry(PriorityKey(Class(packet.priority)), counter, packet);
      counter := counter + 1;
      accepted := Admit(entry);
      if accepted {
        enqueueCounts := Bump(enqueueCounts, Class(packet.priority));
      }
    }

    /** The part of an enqueue that runs under the lock; the ticket was taken before. */
    method Admit(entry: Entry<Packet>) returns (accepted: bool)
      requires Valid() && NewTicket(Contents(Model()), entry.ticket, counter)
      modifies `heap, `droppedOverflow
      ensures Valid() && (Model(), accepted) == BoundedQueue.Admit(old(Model()), entry)
      ensures Contents(Model()) == AfterOffer(old(Model()), entry)
    {
      hide IsHeap, Ticketed, NewTicket, Push, Heapify, RemoveAt, WorstFrom, IsWorst;
      AdmitEffect(Model(), entry);
      if |heap| >= maxSize {
        var worst := FindWorstIndex();
        if heap[worst].key < entry.key {
          droppedOverflow := droppedOverflow + 1;
          return false;
        }
        EvictAt(worst);
      }
      heap := Push(heap, entry);
      return true;
    }

    /** Overwrites the entry at `worst` with the last one, pops that, and heapifies. */
    method EvictAt(worst: nat)
      requires worst < |heap|
      modifies `heap, `droppedOverflow
      ensures heap == Heapify(RemoveAt(old(heap), worst)) && droppedOverflow == old(droppedOverflow) + 1
    {
      heap := heap[worst := heap[|heap| - 1]];
      heap := heap[..|heap| - 1];
      heap := Heapify(heap);
      droppedOverflow := droppedOverflow + 1;
    }

    /** Removes the next packet; the class it is counted under is the one it has now. */
    method Dequeue() returns (packet: Option<Packet>)
      requires Valid()
      modifies this
      ensures Valid() && enqueueCounts == old(enqueueCounts)
      ensures var (q, out) := Serve(old(Model()));
              Model() == q && packet == (if out.Some? then Some(out.value.packet) else None)
      ensures packet.None? <==> old(heap) == []
      ensures packet.Some? ==>
                var e := old(heap)[0];
                && packet.value == e.packet && IsLeast(old(Contents(Model())), e)
                && Contents(Model()) == old(Contents(Model())) - multiset{e}
      ensures dequeueCounts == if packet.Some? then Bump(old(dequeueCounts), Class(packet.value.priority))
                               else old(dequeueCounts)
      ensures Sum(dequeueCounts) == old(Sum(dequeueCounts)) + (if packet.Some? then 1 else 0)
    {
      hide IsHeap, Ticketed;
      ServeEffect(Model());
      if heap == [] {
        return None;
      }
      var entry := heap[0];
      heap := PopRest(heap);
      BumpAddsOne(dequeueCounts, Class(entry.packet.priority));
      dequeueCounts := Bump(dequeueCounts, Class(entry.packet.priority));
      return Some(entry.packet);
    }

    function Peek(): (packet: Option<Packet>)
      reads this
      requires Valid()
      ensures packet == if heap == [] then None else Some(QueueRuns.Drained(Model())[0].packet)
    {
      if heap == [] then None else Some(heap[0].packet)
    }

    /** Empties the queue; the packets come out in the order of service. */
    method Drain() returns (packets: seq<Packet>)
      requires Valid()
      modifies this
      ensures Valid() && Model() == old(Model()).(heap := [])
      ensures packets == QueueRuns.Packets(QueueRuns.Drained(old(Model())))
      ensures enqueueCounts == old(enqueueCounts) && dequeueCounts == Tally(old(dequeueCounts), Classes(packets))
    {
      hide BoundedQueue.Valid, IsLeast, PopRest, QueueRuns.Drained, QueueRuns.Packets, Tally, Bump;
      packets := [];
      TallyNone(dequeueCounts);
      ghost var was := Model();
      while heap != []
        invariant Valid() && Model() == was.(heap := heap)
        invariant enqueueCounts == old(enqueueCounts) && dequeueCounts == Tally(old(dequeueCounts), Classes(packets))
        invariant packets + QueueRuns.Packets(QueueRuns.Drained(Model())) == QueueRuns.Packets(QueueRuns.Drained(was))
        decreases |heap|
      {
        QueueRuns.DrainUnfolds(Model());
        var packet := Dequeue();
        TallyOneMore(old(dequeueCounts), Classes(packets), Class(packet.value.priority));
        assert Classes(packets + [packet.value]) == Classes(packets) + [Class(packet.value.priority)];
        packets := packets + [packet.value];
      }
      assert QueueRuns.Packets(QueueRuns.Drained(Model())) == [] by { QueueRuns.DrainUnfolds(Model()); }
    }

    method ResetStats()
      requires Valid()
      modifies `enqueueCounts, `dequeueCounts, `droppedOverflow
      ensures Valid() && Model() == old(Model()).(overflow := 0)
      ensures enqueueCounts == Zeros() && dequeueCounts == Zeros()
    {
      enqueueCounts, dequeueCounts, droppedOverflow := Zeros(), Zeros(), 0;
    }
  }
}
