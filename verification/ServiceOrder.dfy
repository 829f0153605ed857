/**
 The order in which the two schedulers serve and evict, in terms of classes and values rather
 than keys.
 */
module ServiceOrder {
  import opened Heapq
  import opened BoundedQueue
  import opened Traffic
  import QueueRuns

  /** Every packet is keyed by its class, as the priority scheduler does. */
  ghost predicate KeyedByClass<P(!new)>(m: multiset<Entry<P>>, classOf: P -> Priority) {
    forall e | e in m :: e.key == PriorityKey(classOf(e.packet))
  }

  /** Every packet is keyed by its class and coefficient, as the value scheduler does. */
  ghost predicate KeyedByValue<P(!new)>(m: multiset<Entry<P>>, classOf: P -> Priority, coefficient: P -> real) {
    forall e | e in m :: e.key == ValueKey(classOf(e.packet), coefficient(e.packet))
  }

  /** What a packet is worth: its coefficient, if positive, times five for Critical down to one for Background. */
  function EffectiveValue(p: Priority, coefficient: real): real {
    if coefficient <= 0.0 then 0.0
    else
      match p
      case Critical => 5.0 * coefficient
      case High => 4.0 * coefficient
      case Medium => 3.0 * coefficient
      case Low => 2.0 * coefficient
      case Background => coefficient
  }

  lemma ValueKeyIsNegated(p: Priority, coefficient: real)
    ensures ValueKey(p, coefficient) == -EffectiveValue(p, coefficient)
  {
  }

  /** a is to be served before b: Critical first and Background last. */
  predicate MoreUrgent(a: Priority, b: Priority) {
    match a
    case Critical => b != Critical
    case High => b != Critical && b != High
    case Medium => b == Low || b == Background
    case Low => b == Background
    case Background => false
  }

  lemma KeysFollowUrgency(a: Priority, b: Priority)
    ensures PriorityKey(a) < PriorityKey(b) <==> MoreUrgent(a, b)
  {
  }

  /** A drain serves the classes strictly in turn, and each class by ticket. */
  lemma StrictPriority<P(!new)>(q: Queue<P>, classOf: P -> Priority, i: nat, j: nat)
    requires BoundedQueue.Valid(q) && KeyedByClass(Contents(q), classOf) && i < j < |QueueRuns.Drained(q)|
    ensures var first, second := QueueRuns.Drained(q)[i], QueueRuns.Drained(q)[j];
            || MoreUrgent(classOf(first.packet), classOf(second.packet))
            || (classOf(first.packet) == classOf(second.packet) && first.ticket < second.ticket)
  {
    var order := QueueRuns.Drained(q);
    Ordered(q, i, j);
    KeysFollowUrgency(classOf(order[i].packet), classOf(order[j].packet));
    KeysFollowUrgency(classOf(order[j].packet), classOf(order[i].packet));
  }

  /** A drain of the value scheduler serves the packets of greatest value first, and equals by ticket. */
  lemma GreatestValueFirst<P(!new)>(q: Queue<P>, classOf: P -> Priority, coefficient: P -> real, i: nat, j: nat)
    requires BoundedQueue.Valid(q) && KeyedByValue(Contents(q), classOf, coefficient) && i < j < |QueueRuns.Drained(q)|
    ensures var first, second := QueueRuns.Drained(q)[i], QueueRuns.Drained(q)[j];
            var v, w := EffectiveValue(classOf(first.packet), coefficient(first.packet)),
                        EffectiveValue(classOf(second.packet), coefficient(second.packet));
            v > w || (v == w && first.ticket < second.ticket)
  {
    hide ValueKey, EffectiveValue;
    var order := QueueRuns.Drained(q);
    Ordered(q, i, j);
    ValueKeyIsNegated(classOf(order[i].packet), coefficient(order[i].packet));
    ValueKeyIsNegated(classOf(order[j].packet), coefficient(order[j].packet));
  }

  lemma Ordered<P>(q: Queue<P>, i: nat, j: nat)
    requires BoundedQueue.Valid(q) && i < j < |QueueRuns.Drained(q)|
    ensures var order := QueueRuns.Drained(q);
            order[i] in Contents(q) && order[j] in Contents(q) && Less(order[i], order[j])
  {
    hide BoundedQueue.Valid, QueueRuns.Drained;
    QueueRuns.DrainSorts(q);
    var order := QueueRuns.Drained(q);
    assert order[i] in multiset(order) && order[j] in multiset(order);
  }

  /** Eviction takes a packet of the least urgent class present, the oldest of that class. */
  lemma EvictsLeastUrgent<P(!new)>(q: Queue<P>, classOf: P -> Priority, e: Entry<P>)
    requires BoundedQueue.Valid(q) && KeyedByClass(Contents(q), classOf) && |q.heap| > 0
    requires e in Contents(q) && e != WorstEntry(q)
    ensures var worst := WorstEntry(q);
            || MoreUrgent(classOf(e.packet), classOf(worst.packet))
            || (classOf(e.packet) == classOf(worst.packet) && worst.ticket < e.ticket)
  {
    WorstIsWorst(q);
    var worst := WorstEntry(q);
    hide BoundedQueue.Valid, WorstFrom;
    KeysFollowUrgency(classOf(e.packet), classOf(worst.packet));
    KeysFollowUrgency(classOf(worst.packet), classOf(e.packet));
  }

  /** A full queue refuses a packet exactly when everything that waits is more urgent. */
  lemma RefusesLessUrgent<P(!new)>(q: Queue<P>, classOf: P -> Priority, packet: P)
    requires BoundedQueue.Valid(q) && KeyedByClass(Contents(q), classOf) && |q.heap| == q.cap
    ensures !Offer(q, PriorityKey(classOf(packet)), packet).1
       <==> forall e | e in Contents(q) :: MoreUrgent(classOf(e.packet), classOf(packet))
  {
    OfferEffect(q, PriorityKey(classOf(packet)), packet);
    var worst := WorstEntry(q);
    hide BoundedQueue.Valid, WorstFrom, Offer;
    forall e | e in Contents(q)
      ensures MoreUrgent(classOf(e.packet), classOf(packet)) <==> e.key < PriorityKey(classOf(packet))
    {
      KeysFollowUrgency(classOf(e.packet), classOf(packet));
    }
    assert worst in Contents(q);
  }
}
