/**
 The bounded queue that `PriorityScheduler` and `ValueScheduler` both implement, on values:
 a heap of entries, a ticket counter and an overflow counter.  The two schedulers differ only
 in the key they give a packet.  Service takes the least entry (oldest first among equal
 keys); eviction takes the worst entry (greatest key, and again oldest first among equals).
 */
module BoundedQueue {
  import opened Heapq

  datatype Option<+T> = None | Some(value: T)

  datatype Queue<+P> = Queue(cap: nat, heap: seq<Entry<P>>, next: nat, overflow: nat)

  /** a is evicted before b: worse key, or the same key and an older ticket. */
  predicate Worse<P>(a: Entry<P>, b: Entry<P>) {
    a.key > b.key || (a.key == b.key && a.ticket < b.ticket)
  }

  /** The scan for the worst entry, position i onwards, with `worst` the candidate so far. */
  function WorstFrom<P>(h: seq<Entry<P>>, i: nat, worst: nat): (w: nat)
    requires i <= |h| && worst < |h|
    ensures w < |h|
    decreases |h| - i
  {
    if i == |h| then worst else WorstFrom(h, i + 1, if Worse(h[i], h[worst]) then i else worst)
  }

  /** Overwrites the entry at w with the last one and shortens the array. */
  function RemoveAt<P>(h: seq<Entry<P>>, w: nat): (r: seq<Entry<P>>)
    requires w < |h|
    ensures |r| == |h| - 1
  {
    h[w := h[|h| - 1]][..|h| - 1]
  }

  /** The entry that eviction would choose. */
  function WorstEntry<P>(q: Queue<P>): Entry<P>
    requires |q.heap| > 0
  {
    q.heap[WorstFrom(q.heap, 0, 0)]
  }

  function Evict<P>(h: seq<Entry<P>>): (r: seq<Entry<P>>)
    requires |h| > 0
    ensures |r| == |h| - 1
  {
    Heapify(RemoveAt(h, WorstFrom(h, 0, 0)))
  }

  /** The locked section of an enqueue: the flag says whether the entry was accepted. */
  function Admit<P>(q: Queue<P>, e: Entry<P>): (r: (Queue<P>, bool))
    requires q.cap > 0
  {
    if |q.heap| < q.cap then (q.(heap := Push(q.heap, e)), true)
    else if WorstEntry(q).key < e.key then (q.(overflow := q.overflow + 1), false)
    else (q.(heap := Push(Evict(q.heap), e), overflow := q.overflow + 1), true)
  }

  /** A whole enqueue: the packet takes the next ticket and is admitted at once. */
  function Offer<P>(q: Queue<P>, key: real, packet: P): (r: (Queue<P>, bool))
    requires q.cap > 0
  {
    Admit(q.(next := q.next + 1), Entry(key, q.next, packet))
  }

  /** Serves the next packet, if any. */
  function Serve<P>(q: Queue<P>): (r: (Queue<P>, Option<Entry<P>>)) {
    if |q.heap| == 0 then (q, None) else (q.(heap := PopRest(q.heap)), Some(q.heap[0]))
  }

  function Empty<P>(cap: nat): Queue<P> {
    Queue(cap, [], 0, 0)
  }

  // ----- The invariant -----

  /** Each entry occurs once and tickets identify entries. */
  ghost predicate Ticketed<P>(m: multiset<Entry<P>>, next: nat) {
    && (forall x | x in m :: m[x] == 1 && x.ticket < next)
    && (forall x, y | x in m && y in m && x.ticket == y.ticket :: x == y)
  }

  ghost function Contents<P>(q: Queue<P>): multiset<Entry<P>> {
    multiset(q.heap)
  }

  ghost predicate Valid<P>(q: Queue<P>) {
    && 0 < q.cap && |q.heap| <= q.cap
    && IsHeap(q.heap)
    && Ticketed(multiset(q.heap), q.next)
  }

  /** w is the entry of m that eviction would choose. */
  ghost predicate IsWorst<P>(m: multiset<Entry<P>>, w: Entry<P>) {
    w in m && forall x | x in m && x != w :: Worse(w, x)
  }

  /** w is the entry of m that service would choose. */
  ghost predicate IsLeast<P>(m: multiset<Entry<P>>, w: Entry<P>) {
    w in m && forall x | x in m && x != w :: Less(w, x)
  }

  lemma {:induction false} WorstFromScans<P>(h: seq<Entry<P>>, i: nat, worst: nat)
    requires i <= |h| && worst < |h|
    requires forall j | 0 <= j < i :: !Worse(h[j], h[worst])
    ensures var w := WorstFrom(h, i, worst); forall j | 0 <= j < |h| :: !Worse(h[j], h[w])
    decreases |h| - i
  {
    if i < |h| {
      WorstFromScans(h, i + 1, if Worse(h[i], h[worst]) then i else worst);
    }
  }

  lemma WorstIsWorst<P>(q: Queue<P>)
    requires Valid(q) && |q.heap| > 0
    ensures IsWorst(Contents(q), q.heap[WorstFrom(q.heap, 0, 0)])
  {
    WorstFromScans(q.heap, 0, 0);
    var w := q.heap[WorstFrom(q.heap, 0, 0)];
    forall x | x in Contents(q) && x != w
      ensures Worse(w, x)
    {
      var j :| 0 <= j < |q.heap| && q.heap[j] == x;
      assert x.ticket != w.ticket;
    }
  }

  lemma RemoveAtRemoves<P>(h: seq<Entry<P>>, w: nat)
    requires w < |h|
    ensures multiset(RemoveAt(h, w)) == multiset(h) - multiset{h[w]}
  {
    var n := |h| - 1;
    var over := h[w := h[n]];
    assert over == over[..n] + [h[n]];
    assert h == h[..n] + [h[n]];
    if w < n {
      assert over[..n] == h[..n][w := h[n]];
    }
  }

  lemma EvictRemoves<P>(h: seq<Entry<P>>)
    requires |h| > 0
    ensures IsHeap(Evict(h))
    ensures multiset(Evict(h)) == multiset(h) - multiset{h[WorstFrom(h, 0, 0)]}
  {
    RemoveAtRemoves(h, WorstFrom(h, 0, 0));
    HeapifyRestores(RemoveAt(h, WorstFrom(h, 0, 0)));
  }

  /** The ticket has been given out and no entry of m carries it. */
  ghost predicate NewTicket<P>(m: multiset<Entry<P>>, ticket: nat, next: nat) {
    ticket < next && forall x | x in m :: x.ticket != ticket
  }

  lemma TicketedAfterAdding<P>(m: multiset<Entry<P>>, e: Entry<P>, next: nat)
    requires Ticketed(m, next) && NewTicket(m, e.ticket, next)
    ensures Ticketed(m + multiset{e}, next)
  {
  }

  lemma TicketedLater<P>(m: multiset<Entry<P>>, next: nat)
    requires Ticketed(m, next)
    ensures Ticketed(m, next + 1) && NewTicket(m, next, next + 1)
  {
  }

  lemma TradeEffect<P>(q: Queue<P>, e: Entry<P>)
    requires Valid(q) && |q.heap| > 0 && NewTicket(Contents(q), e.ticket, q.next)
    ensures var w := WorstEntry(q);
            var h' := Push(Evict(q.heap), e);
            && IsWorst(Contents(q), w) && IsHeap(h')
            && multiset(h') == Contents(q) - multiset{w} + multiset{e}
            && Ticketed(multiset(h'), q.next)
  {
    WorstIsWorst(q);
    EvictRemoves(q.heap);
    PushRestores(Evict(q.heap), e);
    TicketedAfterAdding(multiset(Evict(q.heap)), e, q.next);
  }

  /**
   What admission does to the contents.  With room the newcomer joins; a full queue refuses
   exactly a newcomer whose key is greater than the worst key, and otherwise trades the
   worst entry for it.
   */
  ghost function AfterOffer<P>(q: Queue<P>, e: Entry<P>): multiset<Entry<P>>
    requires Valid(q)
  {
    if |q.heap| < q.cap then Contents(q) + multiset{e}
    else if WorstEntry(q).key < e.key then Contents(q)
    else Contents(q) - multiset{WorstEntry(q)} + multiset{e}
  }

  /** Admission keeps the invariant, and every refusal and every eviction is counted once. */
  lemma AdmitEffect<P>(q: Queue<P>, e: Entry<P>)
    requires Valid(q) && NewTicket(Contents(q), e.ticket, q.next)
    ensures var (q', ok) := Admit(q, e);
            && Valid(q') && q'.cap == q.cap && q'.next == q.next
            && q'.overflow == q.overflow + (if |q.heap| < q.cap then 0 else 1)
            && ok == (|q.heap| < q.cap || WorstEntry(q).key >= e.key)
            && (|q.heap| == q.cap ==> IsWorst(Contents(q), WorstEntry(q)))
            && Contents(q') == AfterOffer(q, e)
  {
    hide IsHeap, Ticketed, IsWorst, Push, Evict, WorstFrom, NewTicket;
    if |q.heap| < q.cap {
      PushRestores(q.heap, e);
      TicketedAfterAdding(Contents(q), e, q.next);
    } else {
      TradeEffect(q, e);
    }
  }

  lemma TakeTicket<P>(q: Queue<P>)
    requires Valid(q)
    ensures var q' := q.(next := q.next + 1); Valid(q') && NewTicket(Contents(q'), q.next, q'.next)
  {
    TicketedLater(Contents(q), q.next);
  }

  /** The same for a whole enqueue. */
  lemma OfferEffect<P>(q: Queue<P>, key: real, packet: P)
    requires Valid(q)
    ensures var (q', ok) := Offer(q, key, packet);
            && Valid(q') && q'.cap == q.cap && q'.next == q.next + 1
            && q'.overflow == q.overflow + (if |q.heap| < q.cap then 0 else 1)
            && ok == (|q.heap| < q.cap || WorstEntry(q).key >= key)
            && (|q.heap| == q.cap ==> IsWorst(Contents(q), WorstEntry(q)))
            && Contents(q') == AfterOffer(q, Entry(key, q.next, packet))
  {
    hide IsHeap, Ticketed, IsWorst, Admit, NewTicket;
    TakeTicket(q);
    AdmitEffect(q.(next := q.next + 1), Entry(key, q.next, packet));
  }

  /** Service removes exactly the unique least entry. */
  lemma ServeEffect<P>(q: Queue<P>)
    requires Valid(q)
    ensures var (q', out) := Serve(q);
            && Valid(q') && q'.(heap := q.heap) == q
            && (out.None? <==> q.heap == [])
            && (out.None? ==> q' == q)
            && (out.Some? ==> IsLeast(Contents(q), out.value) && Contents(q') == Contents(q) - multiset{out.value})
  {
    if q.heap != [] {
      PopRestores(q.heap);
      forall x | x in Contents(q) && x != q.heap[0]
        ensures Less(q.heap[0], x)
      {
        var j :| 0 <= j < |q.heap| && q.heap[j] == x;
        RootIsLeast(q.heap, j);
        assert q.heap[0] in Contents(q);
      }
    }
  }
}
