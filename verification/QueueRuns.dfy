/**
 Whole runs of a bounded queue: what is kept, what is served and in which order.
 */
module QueueRuns {
  import opened Heapq
  import opened BoundedQueue

  datatype Op<+P> = Arrive(key: real, packet: P) | Depart

  /** A run so far: the queue, everything ever offered, what was served (in order) and what was shed. */
  datatype History<P(==)> = History(
    queue: Queue<P>, offered: multiset<Entry<P>>, served: seq<Entry<P>>, shed: multiset<Entry<P>>)

  ghost function Step<P>(s: History<P>, op: Op<P>): History<P>
    requires Valid(s.queue)
  {
    match op
    case Arrive(key, packet) =>
      var e := Entry(key, s.queue.next, packet);
      var q' := Offer(s.queue, key, packet).0;
      History(q', s.offered + multiset{e}, s.served, s.shed + (Contents(s.queue) + multiset{e} - Contents(q')))
    case Depart =>
      var (q', out) := Serve(s.queue);
      s.(queue := q', served := s.served + (if out.Some? then [out.value] else []))
  }

  /** The state after all of `ops`, starting from an empty queue. */
  ghost function Run<P>(cap: nat, ops: seq<Op<P>>): (s: History<P>)
    requires cap > 0
    ensures Valid(s.queue) && s.queue.cap == cap
  {
    if ops == [] then History(Empty(cap), multiset{}, [], multiset{})
    else
      var s := Run(cap, ops[..|ops| - 1]);
      StepKeepsValid(s, ops[|ops| - 1]);
      Step(s, ops[|ops| - 1])
  }

  lemma StepKeepsValid<P>(s: History<P>, op: Op<P>)
    requires Valid(s.queue)
    ensures Valid(Step(s, op).queue) && Step(s, op).queue.cap == s.queue.cap
    ensures Step(s, op).queue.next == s.queue.next + (if op.Arrive? then 1 else 0)
  {
    match op
    case Arrive(key, packet) => OfferEffect(s.queue, key, packet);
    case Depart => ServeEffect(s.queue);
  }

  // ----- What is kept: the k best of everything offered -----

  /** kept is the best min(k, |all|) entries of `all` in the order of eviction. */
  ghost predicate IsBest<P>(kept: multiset<Entry<P>>, all: multiset<Entry<P>>, k: nat) {
    && kept <= all
    && |kept| == (if |all| < k then |all| else k)
    && forall x, y | x in kept && y in all - kept :: Worse(y, x)
  }

  lemma SubsetOfSameSize<P>(a: multiset<Entry<P>>, b: multiset<Entry<P>>)
    requires a <= b && |a| == |b|
    ensures a == b
  {
    assert b == a + (b - a);
  }

  lemma BestWithRoom<P>(q: Queue<P>, all: multiset<Entry<P>>, e: Entry<P>)
    requires Valid(q) && IsBest(Contents(q), all, q.cap) && |q.heap| < q.cap
    ensures IsBest(Contents(q) + multiset{e}, all + multiset{e}, q.cap)
  {
    SubsetOfSameSize(Contents(q), all);
  }

  lemma BestWhenRefusing<P>(kept: multiset<Entry<P>>, all: multiset<Entry<P>>, k: nat, w: Entry<P>, e: Entry<P>)
    requires IsBest(kept, all, k) && |kept| == k && IsWorst(kept, w) && w.key < e.key
    ensures IsBest(kept, all + multiset{e}, k)
  {
    forall x, y | x in kept && y in all + multiset{e} - kept
      ensures Worse(y, x)
    {
      assert y == e || y in all - kept;
    }
  }

  lemma BestWhenTrading<P>(kept: multiset<Entry<P>>, all: multiset<Entry<P>>, k: nat, w: Entry<P>, e: Entry<P>)
    requires IsBest(kept, all, k) && |kept| == k && IsWorst(kept, w) && Worse(w, e) && all[w] == 1
    ensures IsBest(kept - multiset{w} + multiset{e}, all + multiset{e}, k)
  {
    var kept' := kept - multiset{w} + multiset{e};
    assert all + multiset{e} - kept' == all - kept + multiset{w};
    forall x, y | x in kept' && y in all - kept + multiset{w}
      ensures Worse(y, x)
    {
      assert kept[w] <= all[w] == 1;
      assert y == w || Worse(y, w);
      assert x == e || (x in kept && x != w);
    }
  }

  /** There is only one such collection. */
  lemma BestIsUnique<P>(a: multiset<Entry<P>>, b: multiset<Entry<P>>, all: multiset<Entry<P>>, k: nat)
    requires IsBest(a, all, k) && IsBest(b, all, k) && forall x | x in all :: all[x] == 1
    ensures a == b
  {
    if a != b {
      if a <= b { SubsetOfSameSize(a, b); }
      if b <= a { SubsetOfSameSize(b, a); }
      var x :| x in a && a[x] > b[x];
      var y :| y in b && b[y] > a[y];
      OutsiderIsWorse(a, all, k, x, y);
      OutsiderIsWorse(b, all, k, y, x);
      assert false;
    }
  }

  lemma OutsiderIsWorse<P>(kept: multiset<Entry<P>>, all: multiset<Entry<P>>, k: nat, x: Entry<P>, y: Entry<P>)
    requires IsBest(kept, all, k) && x in kept && kept[y] < all[y]
    ensures Worse(y, x)
  {
    assert y in all - kept;
  }

  /**
   If the queue holds the `cap` best of some collection, then after an offer it holds the
   `cap` best of that collection and the newcomer.  Every queue is the best of its own
   contents, so this also describes each single offer when services are interleaved.
   */
  lemma OfferKeepsBest<P>(q: Queue<P>, all: multiset<Entry<P>>, key: real, packet: P)
    requires Valid(q) && Ticketed(all, q.next) && IsBest(Contents(q), all, q.cap)
    ensures IsBest(Contents(Offer(q, key, packet).0), all + multiset{Entry(key, q.next, packet)}, q.cap)
  {
    var e := Entry(key, q.next, packet);
    OfferEffect(q, key, packet);
    if |q.heap| < q.cap {
      BestWithRoom(q, all, e);
    } else if WorstEntry(q).key < key {
      BestWhenRefusing(Contents(q), all, q.cap, WorstEntry(q), e);
    } else {
      assert WorstEntry(q) in all;
      BestWhenTrading(Contents(q), all, q.cap, WorstEntry(q), e);
    }
  }

  lemma {:induction false} OfferedTickets<P>(cap: nat, ops: seq<Op<P>>)
    requires cap > 0
    ensures Ticketed(Run(cap, ops).offered, Run(cap, ops).queue.next)
  {
    if ops != [] {
      var before := ops[..|ops| - 1];
      OfferedTickets(cap, before);
      StepKeepsValid(Run(cap, before), ops[|ops| - 1]);
      match ops[|ops| - 1]
      case Arrive(key, packet) =>
        TicketedLater(Run(cap, before).offered, Run(cap, before).queue.next);
        TicketedAfterAdding(Run(cap, before).offered, Entry(key, Run(cap, before).queue.next, packet),
                            Run(cap, before).queue.next + 1);
      case Depart =>
    }
  }

  /** A run of offers from empty keeps exactly the `cap` best packets ever offered. */
  lemma {:induction false} OffersKeepBest<P>(cap: nat, ops: seq<Op<P>>)
    requires cap > 0 && forall op | op in ops :: op.Arrive?
    ensures IsBest(Contents(Run(cap, ops).queue), Run(cap, ops).offered, cap)
  {
    if ops != [] {
      var before, op := ops[..|ops| - 1], ops[|ops| - 1];
      assert op in ops;
      OffersKeepBest(cap, before);
      OfferedTickets(cap, before);
      OfferKeepsBest(Run(cap, before).queue, Run(cap, before).offered, op.key, op.packet);
    }
  }

  /** With services interleaved, each offer leaves the best of the contents and the newcomer. */
  lemma OfferLeavesBest<P>(q: Queue<P>, key: real, packet: P)
    requires Valid(q)
    ensures IsBest(Contents(Offer(q, key, packet).0), Contents(q) + multiset{Entry(key, q.next, packet)}, q.cap)
  {
    OfferKeepsBest(q, Contents(q), key, packet);
  }

  // ----- Conservation -----

  /** Every packet offered is waiting, was served, or was shed, and the sheds are counted. */
  lemma {:induction false} Conservation<P>(cap: nat, ops: seq<Op<P>>)
    requires cap > 0
    ensures var s := Run(cap, ops);
            && s.offered == Contents(s.queue) + multiset(s.served) + s.shed
            && s.queue.overflow == |s.shed|
            && s.queue.next == |s.offered|
  {
    if ops != [] {
      var s, op := Run(cap, ops[..|ops| - 1]), ops[|ops| - 1];
      Conservation(cap, ops[..|ops| - 1]);
      StepConserves(s, op);
    }
  }

  lemma OfferSheds<P>(q: Queue<P>, key: real, packet: P)
    requires Valid(q)
    ensures var q' := Offer(q, key, packet).0;
            var all := Contents(q) + multiset{Entry(key, q.next, packet)};
            Contents(q') <= all && q'.overflow == q.overflow + |all - Contents(q')|
  {
    hide Valid, Offer, WorstEntry;
    var e := Entry(key, q.next, packet);
    OfferEffect(q, key, packet);
    FitsWithin(q);
    if |q.heap| == q.cap && WorstEntry(q).key >= key {
      TradedIsShed(Contents(q), WorstEntry(q), e);
    } else {
      NewcomerAlone(Contents(q), e);
    }
  }

  lemma FitsWithin<P>(q: Queue<P>)
    requires Valid(q)
    ensures |q.heap| <= q.cap
  {
  }

  lemma NewcomerAlone<P>(m: multiset<Entry<P>>, e: Entry<P>)
    ensures m + multiset{e} - m == multiset{e} && m + multiset{e} - (m + multiset{e}) == multiset{}
  {
  }

  lemma TradedIsShed<P>(m: multiset<Entry<P>>, w: Entry<P>, e: Entry<P>)
    requires w in m
    ensures m - multiset{w} + multiset{e} <= m + multiset{e}
    ensures m + multiset{e} - (m - multiset{w} + multiset{e}) == multiset{w}
  {
  }

  lemma ArriveAlgebra<P>(
    offered: multiset<Entry<P>>, c: multiset<Entry<P>>, served: multiset<Entry<P>>, shed: multiset<Entry<P>>,
    c': multiset<Entry<P>>, e: Entry<P>)
    requires offered == c + served + shed && c' <= c + multiset{e}
    ensures offered + multiset{e} == c' + served + (shed + (c + multiset{e} - c'))
  {
    assert c + multiset{e} == c' + (c + multiset{e} - c');
  }

  lemma StepConserves<P>(s: History<P>, op: Op<P>)
    requires Valid(s.queue)
    requires s.offered == Contents(s.queue) + multiset(s.served) + s.shed
    requires s.queue.overflow == |s.shed| && s.queue.next == |s.offered|
    ensures var s' := Step(s, op);
            && s'.offered == Contents(s'.queue) + multiset(s'.served) + s'.shed
            && s'.queue.overflow == |s'.shed| && s'.queue.next == |s'.offered|
  {
    match op
    case Arrive(key, packet) =>
      OfferSheds(s.queue, key, packet);
      StepKeepsValid(s, op);
      var q', e := Offer(s.queue, key, packet).0, Entry(key, s.queue.next, packet);
      ArriveAlgebra(s.offered, Contents(s.queue), multiset(s.served), s.shed, Contents(q'), e);
    case Depart =>
      DepartConserves(s);
  }

  lemma DepartConserves<P>(s: History<P>)
    requires Valid(s.queue)
    ensures var s' := Step(s, Depart);
            && Contents(s'.queue) + multiset(s'.served) == Contents(s.queue) + multiset(s.served)
            && s'.queue.overflow == s.queue.overflow && s'.queue.next == s.queue.next
            && s'.offered == s.offered && s'.shed == s.shed
  {
    ServeEffect(s.queue);
    var (q', out) := Serve(s.queue);
    if out.Some? {
      MoveOne(Contents(s.queue), s.served, out.value);
    } else {
      assert s.served + [] == s.served;
    }
  }

  lemma MoveOne<P>(m: multiset<Entry<P>>, served: seq<Entry<P>>, e: Entry<P>)
    requires e in m
    ensures m - multiset{e} + multiset(served + [e]) == m + multiset(served)
  {
    assert multiset(served + [e]) == multiset(served) + multiset{e};
  }

  // ----- The order of service -----

  /** Entries of one key left in the order of their tickets, and before any still waiting. */
  ghost predicate FirstInFirstOut<P>(served: seq<Entry<P>>, waiting: multiset<Entry<P>>, next: nat) {
    && (forall x | x in served :: x.ticket < next)
    && (forall x, y | x in served && y in waiting && x.key == y.key :: x.ticket < y.ticket)
    && (forall i, j | 0 <= i < j < |served| && served[i].key == served[j].key :: served[i].ticket < served[j].ticket)
  }

  lemma ArrivalKeepsOrder<P>(
    served: seq<Entry<P>>, waiting: multiset<Entry<P>>, e: Entry<P>, waiting': multiset<Entry<P>>)
    requires FirstInFirstOut(served, waiting, e.ticket) && waiting' <= waiting + multiset{e}
    ensures FirstInFirstOut(served, waiting', e.ticket + 1)
  {
    forall x, y | x in served && y in waiting' && x.key == y.key
      ensures x.ticket < y.ticket
    {
      assert y in waiting + multiset{e};
    }
  }

  lemma ServiceKeepsOrder<P>(served: seq<Entry<P>>, waiting: multiset<Entry<P>>, next: nat, out: Entry<P>)
    requires FirstInFirstOut(served, waiting, next) && Ticketed(waiting, next) && IsLeast(waiting, out)
    ensures FirstInFirstOut(served + [out], waiting - multiset{out}, next)
  {
    forall x, y | x in served + [out] && y in waiting - multiset{out} && x.key == y.key
      ensures x.ticket < y.ticket
    {
      assert y in waiting && y != out;
    }
    forall i | 0 <= i < |served| && served[i].key == out.key
      ensures served[i].ticket < out.ticket
    {
      assert served[i] in served;
    }
  }

  /** In any interleaving of offers, evictions and services, equal keys leave oldest first. */
  lemma {:induction false} RunIsFirstInFirstOut<P>(cap: nat, ops: seq<Op<P>>)
    requires cap > 0
    ensures var s := Run(cap, ops); FirstInFirstOut(s.served, Contents(s.queue), s.queue.next)
  {
    if ops != [] {
      var s, op := Run(cap, ops[..|ops| - 1]), ops[|ops| - 1];
      RunIsFirstInFirstOut(cap, ops[..|ops| - 1]);
      StepKeepsValid(s, op);
      match op
      case Arrive(key, packet) =>
        OfferSheds(s.queue, key, packet);
        ArrivalKeepsOrder(s.served, Contents(s.queue), Entry(key, s.queue.next, packet), Contents(Step(s, op).queue));
      case Depart =>
        ServeEffect(s.queue);
        if s.queue.heap != [] {
          ServiceKeepsOrder(s.served, Contents(s.queue), s.queue.next, Serve(s.queue).1.value);
        } else {
          assert s.served + [] == s.served;
        }
    }
  }

  /** Serving until nothing is left. */
  function Drained<P>(q: Queue<P>): (out: seq<Entry<P>>)
    ensures |out| == |q.heap|
    decreases |q.heap|
  {
    if q.heap == [] then [] else [q.heap[0]] + Drained(Serve(q).0)
  }

  lemma HeadPrecedesRest<P>(q: Queue<P>, x: Entry<P>)
    requires Valid(q) && q.heap != [] && x in Contents(Serve(q).0)
    ensures Less(q.heap[0], x)
  {
    ServeEffect(q);
    assert x in Contents(q) && Contents(q)[x] == 1;
  }

  function Packets<P>(entries: seq<Entry<P>>): (ps: seq<P>)
    ensures |ps| == |entries| && forall i | 0 <= i < |ps| :: ps[i] == entries[i].packet
  {
    seq(|entries|, i requires 0 <= i < |entries| => entries[i].packet)
  }

  lemma DrainTakes<P>(q: Queue<P>)
    ensures Drained(q) == if q.heap == [] then [] else [q.heap[0]] + Drained(Serve(q).0)
  {
  }

  lemma DrainUnfolds<P>(q: Queue<P>)
    ensures Packets(Drained(q)) ==
            if q.heap == [] then [] else [q.heap[0].packet] + Packets(Drained(Serve(q).0))
  {
  }

  ghost predicate Ascending<P>(s: seq<Entry<P>>) {
    forall i, j | 0 <= i < j < |s| :: Less(s[i], s[j])
  }

  lemma AscendingCons<P>(e: Entry<P>, s: seq<Entry<P>>)
    requires Ascending(s) && forall x | x in s :: Less(e, x)
    ensures Ascending([e] + s)
  {
  }

  lemma PutBack<P>(m: multiset<Entry<P>>, e: Entry<P>, rest: seq<Entry<P>>)
    requires e in m && multiset(rest) == m - multiset{e}
    ensures multiset([e] + rest) == m
  {
  }

  lemma NothingAscends<P>()
    ensures Ascending<P>([])
  {
  }

  /** A drain yields every entry once, in strictly increasing order of service. */
  lemma {:induction false} DrainSorts<P>(q: Queue<P>)
    requires Valid(q)
    ensures multiset(Drained(q)) == Contents(q) && Ascending(Drained(q))
    decreases |q.heap|
  {
    hide Valid, Ascending, PopRest, Less;
    if q.heap == [] {
      NothingAscends<P>();
    } else {
      var rest := Drained(Serve(q).0);
      ServeEffect(q);
      DrainSorts(Serve(q).0);
      forall x | x in rest
        ensures Less(q.heap[0], x)
      {
        assert x in multiset(rest);
        HeadPrecedesRest(q, x);
      }
      AscendingCons(q.heap[0], rest);
      PutBack(Contents(q), q.heap[0], rest);
    }
  }
}
