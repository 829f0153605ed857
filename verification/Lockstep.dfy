/**
 The two schedulers in lockstep.  When every packet carries the same coefficient c, the key
 of the value scheduler is -c * (6 - k) where k is the key of the priority scheduler.  For
 c > 0 that map keeps the order of keys, so every heap operation makes the same moves.
 */
module Lockstep {
  import opened Heapq
  import opened BoundedQueue
  import opened Traffic

  function Rekey<P>(e: Entry<P>, c: real): Entry<P> {
    Entry(-(c * (6.0 - e.key)), e.ticket, e.packet)
  }

  function RekeyAll<P>(h: seq<Entry<P>>, c: real): (r: seq<Entry<P>>)
    ensures |r| == |h| && forall i | 0 <= i < |h| :: r[i] == Rekey(h[i], c)
  {
    seq(|h|, i requires 0 <= i < |h| => Rekey(h[i], c))
  }

  function RekeyQueue<P>(q: Queue<P>, c: real): Queue<P> {
    q.(heap := RekeyAll(q.heap, c))
  }

  lemma RekeyKeepsOrder<P>(a: Entry<P>, b: Entry<P>, c: real)
    requires c > 0.0
    ensures Less(Rekey(a, c), Rekey(b, c)) <==> Less(a, b)
    ensures Rekey(a, c).key < Rekey(b, c).key <==> a.key < b.key
    ensures Worse(Rekey(a, c), Rekey(b, c)) <==> Worse(a, b)
  {
    assert Rekey(a, c).key - Rekey(b, c).key == c * (a.key - b.key);
  }

  lemma SwapCommutes<P>(h: seq<Entry<P>>, c: real, i: nat, j: nat)
    requires i < |h| && j < |h|
    ensures Swap(RekeyAll(h, c), i, j) == RekeyAll(Swap(h, i, j), c)
  {
  }

  lemma {:induction false} SiftDownCommutes<P>(h: seq<Entry<P>>, c: real, start: nat, pos: nat)
    requires c > 0.0 && pos < |h|
    ensures SiftDown(RekeyAll(h, c), start, pos) == RekeyAll(SiftDown(h, start, pos), c)
    decreases pos
  {
    if pos > start {
      RekeyKeepsOrder(h[pos], h[Parent(pos)], c);
      SwapCommutes(h, c, pos, Parent(pos));
      SiftDownCommutes(Swap(h, pos, Parent(pos)), c, start, Parent(pos));
    }
  }

  lemma {:induction false} SinkCommutes<P>(h: seq<Entry<P>>, c: real, pos: nat)
    requires c > 0.0 && pos < |h|
    ensures Sink(RekeyAll(h, c), pos) == (RekeyAll(Sink(h, pos).0, c), Sink(h, pos).1)
    decreases |h| - pos
  {
    if 2 * pos + 1 < |h| {
      var child := SmallerChild(h, pos);
      if 2 * pos + 2 < |h| { RekeyKeepsOrder(h[2 * pos + 1], h[2 * pos + 2], c); }
      SwapCommutes(h, c, pos, child);
      SinkCommutes(Swap(h, pos, child), c, child);
    }
  }

  lemma SiftUpCommutes<P>(h: seq<Entry<P>>, c: real, pos: nat)
    requires c > 0.0 && pos < |h|
    ensures SiftUp(RekeyAll(h, c), pos) == RekeyAll(SiftUp(h, pos), c)
  {
    SinkCommutes(h, c, pos);
    SiftDownCommutes(Sink(h, pos).0, c, pos, Sink(h, pos).1);
  }

  lemma PushCommutes<P>(h: seq<Entry<P>>, c: real, e: Entry<P>)
    requires c > 0.0
    ensures Push(RekeyAll(h, c), Rekey(e, c)) == RekeyAll(Push(h, e), c)
  {
    assert RekeyAll(h, c) + [Rekey(e, c)] == RekeyAll(h + [e], c);
    SiftDownCommutes(h + [e], c, 0, |h|);
  }

  lemma PopRestCommutes<P>(h: seq<Entry<P>>, c: real)
    requires c > 0.0 && |h| > 0
    ensures PopRest(RekeyAll(h, c)) == RekeyAll(PopRest(h), c)
  {
    var n := |h| - 1;
    if n > 0 {
      assert RekeyAll(h, c)[..n][0 := RekeyAll(h, c)[n]] == RekeyAll(h[..n][0 := h[n]], c);
      SiftUpCommutes(h[..n][0 := h[n]], c, 0);
    }
  }

  lemma {:induction false} HeapifyBelowCommutes<P>(h: seq<Entry<P>>, c: real, n: nat)
    requires c > 0.0 && n <= |h|
    ensures HeapifyBelow(RekeyAll(h, c), n) == RekeyAll(HeapifyBelow(h, n), c)
    decreases n
  {
    if n > 0 {
      hide SiftUp;
      SiftUpCommutes(h, c, n - 1);
      HeapifyBelowCommutes(SiftUp(h, n - 1), c, n - 1);
    }
  }

  lemma {:induction false} WorstFromCommutes<P>(h: seq<Entry<P>>, c: real, i: nat, worst: nat)
    requires c > 0.0 && i <= |h| && worst < |h|
    ensures WorstFrom(RekeyAll(h, c), i, worst) == WorstFrom(h, i, worst)
    decreases |h| - i
  {
    if i < |h| {
      RekeyKeepsOrder(h[i], h[worst], c);
      WorstFromCommutes(h, c, i + 1, if Worse(h[i], h[worst]) then i else worst);
    }
  }

  lemma EvictCommutes<P>(h: seq<Entry<P>>, c: real)
    requires c > 0.0 && |h| > 0
    ensures Evict(RekeyAll(h, c)) == RekeyAll(Evict(h), c)
  {
    WorstFromCommutes(h, c, 0, 0);
    var w := WorstFrom(h, 0, 0);
    assert RemoveAt(RekeyAll(h, c), w) == RekeyAll(RemoveAt(h, w), c);
    HeapifyBelowCommutes(RemoveAt(h, w), c, |RemoveAt(h, w)| / 2);
  }

  lemma FullOfferCommutes<P>(q: Queue<P>, c: real, e: Entry<P>)
    requires c > 0.0 && |q.heap| > 0
    ensures WorstEntry(RekeyQueue(q, c)).key < Rekey(e, c).key <==> WorstEntry(q).key < e.key
    ensures Push(Evict(RekeyAll(q.heap, c)), Rekey(e, c)) == RekeyAll(Push(Evict(q.heap), e), c)
  {
    WorstFromCommutes(q.heap, c, 0, 0);
    RekeyKeepsOrder(WorstEntry(q), e, c);
    EvictCommutes(q.heap, c);
    PushCommutes(Evict(q.heap), c, e);
  }

  lemma OfferCommutes<P>(q: Queue<P>, c: real, key: real, packet: P)
    requires c > 0.0 && q.cap > 0
    ensures Offer(RekeyQueue(q, c), Rekey(Entry(key, q.next, packet), c).key, packet)
         == (RekeyQueue(Offer(q, key, packet).0, c), Offer(q, key, packet).1)
  {
    var e := Entry(key, q.next, packet);
    assert RekeyQueue(q, c).(next := q.next + 1) == RekeyQueue(q.(next := q.next + 1), c);
    if |q.heap| < q.cap {
      PushCommutes(q.heap, c, e);
    } else {
      FullOfferCommutes(q, c, e);
    }
  }

  lemma ServeCommutes<P>(q: Queue<P>, c: real)
    requires c > 0.0
    ensures var (q', out) := Serve(q);
            Serve(RekeyQueue(q, c)) == (RekeyQueue(q', c), if out.Some? then Some(Rekey(out.value, c)) else None)
  {
    if |q.heap| > 0 { PopRestCommutes(q.heap, c); }
  }

  // ----- Runs of calls on the two schedulers -----

  datatype Call<+P> = Enqueue(priority: Option<Priority>, coefficient: real, packet: P) | Dequeue | Peek

  datatype Reply<+P> = Accepted(ok: bool) | Packet(packet: Option<P>)

  /** One call on a scheduler that gives an enqueued packet the key `key`. */
  function Answer<P>(q: Queue<P>, call: Call<P>, key: real): (Queue<P>, Reply<P>)
    requires q.cap > 0
  {
    match call
    case Enqueue(_, _, packet) =>
      var (q', ok) := Offer(q, key, packet);
      (q', Accepted(ok))
    case Dequeue =>
      var (q', out) := Serve(q);
      (q', Packet(if out.Some? then Some(out.value.packet) else None))
    case Peek =>
      (q, Packet(if |q.heap| > 0 then Some(q.heap[0].packet) else None))
  }

  function Key<P>(call: Call<P>, byValue: bool): real {
    if !call.Enqueue? then 0.0
    else if byValue then ValueKey(Class(call.priority), call.coefficient)
    else PriorityKey(Class(call.priority))
  }

  /** The final queue and the replies of a whole run. */
  function Answers<P>(q: Queue<P>, calls: seq<Call<P>>, byValue: bool): (r: (Queue<P>, seq<Reply<P>>))
    requires q.cap > 0
    ensures r.0.cap == q.cap && |r.1| == |calls|
    decreases |calls|
  {
    if calls == [] then (q, [])
    else
      var (q', reply) := Answer(q, calls[0], Key(calls[0], byValue));
      var (last, replies) := Answers(q', calls[1..], byValue);
      (last, [reply] + replies)
  }

  ghost predicate Uniform<P>(calls: seq<Call<P>>, c: real) {
    forall call | call in calls && call.Enqueue? :: call.coefficient == c
  }

  lemma KeysCorrespond<P>(p: Option<Priority>, c: real, ticket: nat, packet: P)
    requires c > 0.0
    ensures ValueKey(Class(p), c) == Rekey(Entry(PriorityKey(Class(p)), ticket, packet), c).key
  {
  }

  lemma AnswerCommutes<P>(q: Queue<P>, call: Call<P>, c: real)
    requires c > 0.0 && q.cap > 0 && (call.Enqueue? ==> call.coefficient == c)
    ensures var (q', reply) := Answer(q, call, Key(call, false));
            Answer(RekeyQueue(q, c), call, Key(call, true)) == (RekeyQueue(q', c), reply)
  {
    match call
    case Enqueue(p, _, packet) =>
      KeysCorrespond(p, c, q.next, packet);
      OfferCommutes(q, c, Key(call, false), packet);
    case Dequeue => ServeCommutes(q, c);
    case Peek =>
  }

  /**
   With one positive coefficient the value scheduler answers every call as the priority
   scheduler does and its heap corresponds to the other entry for entry.
   */
  lemma {:induction false} SchedulersInLockstep<P>(q: Queue<P>, calls: seq<Call<P>>, c: real)
    requires c > 0.0 && q.cap > 0 && Uniform(calls, c)
    ensures var (last, replies) := Answers(q, calls, false);
            Answers(RekeyQueue(q, c), calls, true) == (RekeyQueue(last, c), replies)
    decreases |calls|
  {
    if calls != [] {
      AnswerCommutes(q, calls[0], c);
      SchedulersInLockstep(Answer(q, calls[0], Key(calls[0], false)).0, calls[1..], c);
    }
  }

  /** A run that tells the two schedulers apart when the coefficient is not positive. */
  function Witness<P>(cap: nat, c: real, a: P, b: P): seq<Call<P>> {
    if cap == 1 then [Enqueue(Some(Critical), c, a), Enqueue(Some(Background), c, b)]
    else [Enqueue(Some(Background), c, a), Enqueue(Some(Critical), c, b), Dequeue]
  }

  lemma PushOntoOne<P>(x: Entry<P>, e: Entry<P>)
    ensures Push([x], e) == if Less(e, x) then [e, x] else [x, e]
  {
    assert SiftDown([x, e], 0, 1) == if Less(e, x) then SiftDown([e, x], 0, 0) else [x, e];
  }

  /** Replies of a run of two or three calls, one call at a time. */
  lemma AnswersUnfold<P>(q: Queue<P>, calls: seq<Call<P>>, byValue: bool)
    requires q.cap > 0 && |calls| > 0
    ensures var (q', reply) := Answer(q, calls[0], Key(calls[0], byValue));
            Answers(q, calls, byValue).1 == [reply] + Answers(q', calls[1..], byValue).1
  {
  }

  /** Whatever the capacity, lockstep on the uniform runs of coefficient c needs c > 0. */
  lemma LockstepNeedsPositive<P>(cap: nat, c: real, a: P, b: P)
    requires cap > 0 && c <= 0.0 && a != b
    ensures Uniform(Witness(cap, c, a, b), c)
    ensures Answers(Empty(cap), Witness(cap, c, a, b), true).1 != Answers(Empty(cap), Witness(cap, c, a, b), false).1
  {
    if cap == 1 { SecondCallDiffers(c, a, b); } else { ThirdCallDiffers(cap, c, a, b); }
  }

  lemma SecondCallDiffers<P>(c: real, a: P, b: P)
    requires c <= 0.0
    ensures Answers(Empty(1), Witness(1, c, a, b), true).1[1] == Accepted(true)
    ensures Answers(Empty(1), Witness(1, c, a, b), false).1[1] == Accepted(false)
  {
    var calls := Witness(1, c, a, b);
    assert calls[1..] == [Enqueue(Some(Background), c, b)];
    assert forall k: real :: Offer<P>(Empty(1), k, a).0.heap == [Entry(k, 0, a)];
  }

  lemma ThirdCallDiffers<P>(cap: nat, c: real, a: P, b: P)
    requires cap > 1 && c <= 0.0 && a != b
    ensures Answers(Empty(cap), Witness(cap, c, a, b), true).1[2] == Packet(Some(a))
    ensures Answers(Empty(cap), Witness(cap, c, a, b), false).1[2] == Packet(Some(b))
  {
    forall byValue: bool
      ensures Answers(Empty(cap), Witness(cap, c, a, b), byValue).1[2] == Packet(Some(if byValue then a else b))
    {
      var calls := Witness(cap, c, a, b);
      var x, e := Entry(Key(calls[0], byValue), 0, a), Entry(Key(calls[1], byValue), 1, b);
      var q := Offer<P>(Empty(cap), x.key, a).0;
      assert q.heap == [x];
      PushOntoOne(x, e);
      var q' := Offer(q, e.key, b).0;
      assert q'.heap == if Less(e, x) then [e, x] else [x, e];
      AnswersUnfold(Empty(cap), calls, byValue);
      AnswersUnfold(q, calls[1..], byValue);
      AnswersUnfold(q', calls[1..][1..], byValue);
    }
  }
}
