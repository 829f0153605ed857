/**
 Enqueues that overlap.  The ticket is taken before the lock is, so another enqueue can get
 between the two: here taking a ticket and being admitted are separate steps.  The heap and
 the bound never suffer, but the order of tickets and the order of acceptance can differ.
 At most k enqueues overlap.
 */
module OverlappingEnqueues {
  import opened Heapq
  import opened BoundedQueue
  import QueueRuns

  datatype Event<+P> = Accepted(e: Entry<P>) | Served(e: Entry<P>)

  /** The queue, the entries whose enqueue has a ticket but not yet the lock, and what has happened. */
  datatype System<P(==)> = System(queue: Queue<P>, pending: multiset<Entry<P>>, log: seq<Event<P>>)

  datatype Step<+P> = TakeTicket(key: real, packet: P) | Enter(e: Entry<P>) | Leave

  ghost predicate Enabled<P>(s: System<P>, step: Step<P>, k: nat) {
    (step.TakeTicket? ==> |s.pending| < k) && (step.Enter? ==> step.e in s.pending)
  }

  ghost function Apply<P>(s: System<P>, step: Step<P>): System<P>
    requires s.queue.cap > 0
  {
    match step
    case TakeTicket(key, packet) =>
      s.(queue := s.queue.(next := s.queue.next + 1), pending := s.pending + multiset{Entry(key, s.queue.next, packet)})
    case Enter(e) =>
      var (queue, ok) := Admit(s.queue, e);
      s.(queue := queue, pending := s.pending - multiset{e}, log := s.log + if ok then [Accepted(e)] else [])
    case Leave =>
      var (queue, out) := Serve(s.queue);
      s.(queue := queue, log := s.log + if out.Some? then [Served(out.value)] else [])
  }

  /** s' is reached from s by the steps, each enabled where it is taken. */
  ghost predicate Reaches<P>(s: System<P>, steps: seq<Step<P>>, s': System<P>, k: nat)
    requires s.queue.cap > 0
    decreases |steps|
  {
    if steps == [] then s' == s
    else Enabled(s, steps[0], k) && Apply(s, steps[0]).queue.cap > 0 && Reaches(Apply(s, steps[0]), steps[1..], s', k)
  }

  // ----- The queue is sound in every interleaving -----

  /** The queue is valid, and every ticket belongs to one entry, pending or not. */
  ghost predicate Sound<P>(s: System<P>) {
    && BoundedQueue.Valid(s.queue)
    && Ticketed(s.pending, s.queue.next)
    && (forall e | e in s.pending :: NewTicket(Contents(s.queue), e.ticket, s.queue.next))
  }

  lemma TakeKeepsSound<P>(s: System<P>, key: real, packet: P)
    requires Sound(s)
    ensures Sound(Apply(s, TakeTicket(key, packet)))
  {
    hide IsHeap;
    BoundedQueue.TakeTicket(s.queue);
    TicketedLater(s.pending, s.queue.next);
    TicketedAfterAdding(s.pending, Entry(key, s.queue.next, packet), s.queue.next + 1);
  }

  lemma StillNew<P>(pending: multiset<Entry<P>>, m: multiset<Entry<P>>, next: nat, e: Entry<P>, m': multiset<Entry<P>>)
    requires Ticketed(pending, next) && e in pending
    requires forall f | f in pending :: NewTicket(m, f.ticket, next)
    requires forall x | x in m' :: x in m || x == e
    ensures Ticketed(pending - multiset{e}, next)
    ensures forall f | f in pending - multiset{e} :: NewTicket(m', f.ticket, next)
  {
    forall f | f in pending - multiset{e}
      ensures NewTicket(m', f.ticket, next)
    {
      assert f in pending && f != e;
    }
  }

  lemma EnterKeepsSound<P>(s: System<P>, e: Entry<P>)
    requires Sound(s) && e in s.pending
    ensures Sound(Apply(s, Enter(e)))
  {
    hide Admit, BoundedQueue.Valid, IsWorst, Ticketed, NewTicket, AfterOffer;
    AdmitEffect(s.queue, e);
    AfterOfferIsPart(s.queue, e);
    StillNew(s.pending, Contents(s.queue), s.queue.next, e, AfterOffer(s.queue, e));
  }

  lemma AfterOfferIsPart<P>(q: Queue<P>, e: Entry<P>)
    requires BoundedQueue.Valid(q)
    ensures forall x | x in AfterOffer(q, e) :: x in Contents(q) || x == e
  {
  }

  lemma LeaveKeepsSound<P>(s: System<P>)
    requires Sound(s)
    ensures Sound(Apply(s, Leave))
  {
    hide IsHeap, IsLeast;
    ServeEffect(s.queue);
  }

  lemma StepKeepsSound<P>(s: System<P>, step: Step<P>, k: nat)
    requires Sound(s) && Enabled(s, step, k)
    ensures Sound(Apply(s, step)) && Apply(s, step).queue.cap == s.queue.cap
  {
    hide Sound, Admit, Serve;
    SoundQueue(s);
    match step
    case TakeTicket(key, packet) => TakeKeepsSound(s, key, packet);
    case Enter(e) =>
      EnterKeepsSound(s, e);
      CapStays(s.queue, e);
    case Leave =>
      LeaveKeepsSound(s);
      ServeEffect(s.queue);
  }

  lemma SoundQueue<P>(s: System<P>)
    requires Sound(s)
    ensures BoundedQueue.Valid(s.queue)
  {
  }

  lemma CapStays<P>(q: Queue<P>, e: Entry<P>)
    requires q.cap > 0
    ensures Admit(q, e).0.cap == q.cap
  {
  }

  // ----- What one admission keeps -----

  /**
   An admission leaves the best of the contents and the newcomer, except exactly when a full
   queue trades its worst entry for one of the same key that holds an older ticket.
   */
  lemma AdmissionKeepsBestExactly<P>(q: Queue<P>, e: Entry<P>)
    requires BoundedQueue.Valid(q) && NewTicket(Contents(q), e.ticket, q.next)
    ensures QueueRuns.IsBest(Contents(Admit(q, e).0), Contents(q) + multiset{e}, q.cap)
       <==> |q.heap| < q.cap || e.key != WorstEntry(q).key || e.ticket > WorstEntry(q).ticket
  {
    hide Admit, IsHeap;
    AdmitEffect(q, e);
    var m := Contents(q);
    if |q.heap| < q.cap {
      QueueRuns.BestWithRoom(q, m, e);
    } else {
      var w := WorstEntry(q);
      if w.key < e.key {
        QueueRuns.BestWhenRefusing(m, m, q.cap, w, e);
      } else if Worse(w, e) {
        QueueRuns.BestWhenTrading(m, m, q.cap, w, e);
      } else {
        TradedForOlder(m, q.cap, w, e);
      }
    }
  }

  lemma TradedForOlder<P>(m: multiset<Entry<P>>, k: nat, w: Entry<P>, e: Entry<P>)
    requires w in m && e !in m && !Worse(w, e)
    ensures !QueueRuns.IsBest(m - multiset{w} + multiset{e}, m + multiset{e}, k)
  {
    var kept := m - multiset{w} + multiset{e};
    assert w != e;
    assert e in kept && w in m + multiset{e} - kept;
  }

  // ----- The order of service -----

  /**
   Who overtakes whom.  Of two entries with one key: if y had been accepted when x was served
   and y was served later, then x held the older ticket.
   */
  ghost predicate TicketOrder<P>(log: seq<Event<P>>) {
    forall a, b, c | 0 <= a < b < c < |log| && log[a].Accepted? && log[b].Served? && log[c] == Served(log[a].e)
                     && log[b].e.key == log[a].e.key :: log[b].e.ticket < log[a].e.ticket
  }

  /** The same for entries still in the queue. */
  ghost predicate WaitingOrder<P>(log: seq<Event<P>>, waiting: multiset<Entry<P>>) {
    forall a, b | 0 <= a < b < |log| && log[a].Accepted? && log[b].Served? && log[a].e in waiting
                  && log[b].e.key == log[a].e.key :: log[b].e.ticket < log[a].e.ticket
  }

  /** Pending entries have been neither accepted nor served yet. */
  ghost predicate NotYet<P>(log: seq<Event<P>>, pending: multiset<Entry<P>>, next: nat) {
    forall a | 0 <= a < |log| :: log[a].e !in pending && log[a].e.ticket < next
  }

  /** No entry is accepted again once it was served. */
  ghost predicate AcceptedFirst<P>(log: seq<Event<P>>) {
    forall a, b | 0 <= a < b < |log| && log[a].Served? && log[b].Accepted? :: log[a].e != log[b].e
  }

  ghost predicate Ordered<P>(s: System<P>) {
    && TicketOrder(s.log) && WaitingOrder(s.log, Contents(s.queue))
    && NotYet(s.log, s.pending, s.queue.next) && AcceptedFirst(s.log)
  }

  lemma AcceptedOrder<P>(log: seq<Event<P>>, waiting: multiset<Entry<P>>, e: Entry<P>, waiting': multiset<Entry<P>>)
    requires TicketOrder(log) && WaitingOrder(log, waiting)
    requires forall a | 0 <= a < |log| && log[a].Accepted? :: log[a].e != e
    requires forall x | x in waiting' :: x in waiting || x == e
    ensures TicketOrder(log + [Accepted(e)]) && WaitingOrder(log + [Accepted(e)], waiting')
  {
  }

  lemma ServedOrder<P>(log: seq<Event<P>>, waiting: multiset<Entry<P>>, e: Entry<P>)
    requires TicketOrder(log) && WaitingOrder(log, waiting) && IsLeast(waiting, e) && waiting[e] == 1
    ensures TicketOrder(log + [Served(e)]) && WaitingOrder(log + [Served(e)], waiting - multiset{e})
  {
    assert forall x | x in waiting - multiset{e} :: x in waiting && x != e;
  }

  lemma EnterKeepsOrdered<P>(s: System<P>, e: Entry<P>)
    requires Sound(s) && Ordered(s) && e in s.pending
    ensures Ordered(Apply(s, Enter(e)))
  {
    hide TicketOrder, WaitingOrder, AcceptedFirst, IsHeap, Admit, AfterOffer, IsWorst;
    AdmitEffect(s.queue, e);
    AfterOfferIsPart(s.queue, e);
    var (queue, ok) := Admit(s.queue, e);
    if ok {
      AcceptedOrder(s.log, Contents(s.queue), e, Contents(queue));
      EnteredOnce(s.log, s.pending, s.queue.next, e);
    } else {
      assert s.log + [] == s.log;
      FewerPending(s.log, s.pending, s.queue.next, e);
      SameWaiting(s.log, s.queue, e);
    }
  }

  lemma SameWaiting<P>(log: seq<Event<P>>, q: Queue<P>, e: Entry<P>)
    requires BoundedQueue.Valid(q) && !Admit(q, e).1 && WaitingOrder(log, Contents(q))
    ensures WaitingOrder(log, Contents(Admit(q, e).0))
  {
  }

  lemma FewerPending<P>(log: seq<Event<P>>, pending: multiset<Entry<P>>, next: nat, e: Entry<P>)
    requires NotYet(log, pending, next)
    ensures NotYet(log, pending - multiset{e}, next)
  {
  }

  lemma EnteredOnce<P>(log: seq<Event<P>>, pending: multiset<Entry<P>>, next: nat, e: Entry<P>)
    requires NotYet(log, pending, next) && Ticketed(pending, next) && e in pending && AcceptedFirst(log)
    ensures NotYet(log + [Accepted(e)], pending - multiset{e}, next) && AcceptedFirst(log + [Accepted(e)])
  {
  }

  lemma LeaveKeepsOrdered<P>(s: System<P>)
    requires Sound(s) && Ordered(s)
    ensures Ordered(Apply(s, Leave))
  {
    hide TicketOrder, WaitingOrder, NotYet, AcceptedFirst, BoundedQueue.Valid, Ticketed, Serve, IsLeast;
    ServeEffect(s.queue);
    var out := Serve(s.queue).1;
    if out.Some? {
      LeastIsOnce(s.queue, out.value);
      LeastIsOld(s, out.value);
      ServedOrder(s.log, Contents(s.queue), out.value);
      ServedIsNotAccepted(s.log, s.pending, s.queue.next, out.value);
    } else {
      assert s.log + [] == s.log;
    }
  }

  lemma ServedIsNotAccepted<P>(log: seq<Event<P>>, pending: multiset<Entry<P>>, next: nat, e: Entry<P>)
    requires NotYet(log, pending, next) && e !in pending && e.ticket < next && AcceptedFirst(log)
    ensures NotYet(log + [Served(e)], pending, next) && AcceptedFirst(log + [Served(e)])
  {
  }

  lemma LeastIsOld<P>(s: System<P>, e: Entry<P>)
    requires Sound(s) && IsLeast(Contents(s.queue), e)
    ensures e !in s.pending && e.ticket < s.queue.next
  {
  }

  lemma TakeKeepsOrdered<P>(s: System<P>, key: real, packet: P)
    requires Sound(s) && Ordered(s)
    ensures Ordered(Apply(s, TakeTicket(key, packet)))
  {
    hide TicketOrder, WaitingOrder, AcceptedFirst, BoundedQueue.Valid;
  }

  lemma StepKeepsOrdered<P>(s: System<P>, step: Step<P>, k: nat)
    requires Sound(s) && Ordered(s) && Enabled(s, step, k)
    ensures Ordered(Apply(s, step))
  {
    match step
    case TakeTicket(key, packet) => TakeKeepsOrdered(s, key, packet);
    case Enter(e) => EnterKeepsOrdered(s, e);
    case Leave => LeaveKeepsOrdered(s);
  }

  lemma LeastIsOnce<P>(q: Queue<P>, e: Entry<P>)
    requires BoundedQueue.Valid(q) && IsLeast(Contents(q), e)
    ensures Contents(q)[e] == 1
  {
  }

  /** In every interleaving, entries of one key that wait together are served by ticket. */
  lemma {:induction false} ServedByTicket<P>(s: System<P>, steps: seq<Step<P>>, s': System<P>, k: nat)
    requires Sound(s) && Ordered(s) && Reaches(s, steps, s', k)
    ensures Sound(s') && Ordered(s')
    decreases |steps|
  {
    hide Sound, Ordered;
    if steps != [] {
      StepKeepsSound(s, steps[0], k);
      StepKeepsOrdered(s, steps[0], k);
      ServedByTicket(Apply(s, steps[0]), steps[1..], s', k);
    }
  }

  ghost function Start<P>(cap: nat): (s: System<P>)
    requires cap > 0
    ensures Sound(s) && Ordered(s)
  {
    System(Empty(cap), multiset{}, [])
  }

  lemma TwoInOrder<P>(x: Entry<P>, y: Entry<P>)
    requires Less(x, y)
    ensures Push([], y) == [y] && Push([y], x) == [x, y] && PopRest([x, y]) == [y] && PopRest([y]) == []
  {
    assert [y] + [x] == [y, x] && Swap([y, x], 1, 0) == [x, y];
    assert SiftDown([x, y], 0, 0) == [x, y];
    assert [x, y][..1][0 := y] == [y];
  }

  lemma Then<P>(s: System<P>, step: Step<P>, steps: seq<Step<P>>, s': System<P>, k: nat)
    requires s.queue.cap > 0 && Enabled(s, step, k) && Apply(s, step).queue.cap > 0 && Reaches(Apply(s, step), steps, s', k)
    ensures Reaches(s, [step] + steps, s', k)
  {
    assert ([step] + steps)[1..] == steps;
  }

  /** A queue of capacity cap after two tickets, with these entries, pending entries and events. */
  function Stage<P>(cap: nat, heap: seq<Entry<P>>, pending: multiset<Entry<P>>, log: seq<Event<P>>): System<P> {
    System(Queue(cap, heap, 2, 0), pending, log)
  }

  lemma Stages<P>(cap: nat, x: Entry<P>, y: Entry<P>)
    requires cap > 1 && Less(x, y)
    ensures Apply(Stage(cap, [], multiset{x, y}, []), Enter(y)) == Stage(cap, [y], multiset{x}, [Accepted(y)])
    ensures Apply(Stage(cap, [y], multiset{x}, [Accepted(y)]), Enter(x))
         == Stage(cap, [x, y], multiset{}, [Accepted(y), Accepted(x)])
    ensures Apply(Stage(cap, [x, y], multiset{}, [Accepted(y), Accepted(x)]), Leave)
         == Stage(cap, [y], multiset{}, [Accepted(y), Accepted(x), Served(x)])
    ensures Apply(Stage(cap, [y], multiset{}, [Accepted(y), Accepted(x), Served(x)]), Leave)
         == Stage(cap, [], multiset{}, [Accepted(y), Accepted(x), Served(x), Served(y)])
  {
    hide Push, PopRest;
    TwoInOrder(x, y);
  }

  /**
   So acceptance order is kept only as far as tickets follow it: two overlapping enqueues of
   one key, admitted against the order of their tickets, are served against the order of
   their acceptance.
   */
  lemma AcceptanceOrderCanBreak<P>(cap: nat, k: nat, key: real, p: P, q: P) returns (steps: seq<Step<P>>, s: System<P>)
    requires cap > 1 && k > 1
    ensures Reaches(Start(cap), steps, s, k)
    ensures var x, y := Entry(key, 0, p), Entry(key, 1, q);
            s.log == [Accepted(y), Accepted(x), Served(x), Served(y)]
  {
    var x, y := Entry(key, 0, p), Entry(key, 1, q);
    Stages(cap, x, y);
    var s0: System<P> := Start(cap);
    var s1 := Apply(s0, TakeTicket(key, p));
    var s2 := Stage(cap, [], multiset{x, y}, []);
    assert Apply(s1, TakeTicket(key, q)) == s2;
    hide Reaches, Apply;
    var s3 := Stage(cap, [y], multiset{x}, [Accepted(y)]);
    var s4 := Stage(cap, [x, y], multiset{}, [Accepted(y), Accepted(x)]);
    var s5 := Stage(cap, [y], multiset{}, [Accepted(y), Accepted(x), Served(x)]);
    s := Stage(cap, [], multiset{}, [Accepted(y), Accepted(x), Served(x), Served(y)]);
    Stay(s, k);
    Then(s5, Leave, [], s, k);
    Then(s4, Leave, [Leave] + [], s, k);
    Then(s3, Enter(x), [Leave] + ([Leave] + []), s, k);
    steps := [Enter(x)] + ([Leave] + ([Leave] + []));
    Then(s2, Enter(y), steps, s, k);
    steps := [Enter(y)] + steps;
    Then(s1, TakeTicket(key, q), steps, s, k);
    steps := [TakeTicket(key, q)] + steps;
    Then(s0, TakeTicket(key, p), steps, s, k);
    steps := [TakeTicket(key, p)] + steps;
  }

  lemma Stay<P>(s: System<P>, k: nat)
    requires s.queue.cap > 0
    ensures Reaches(s, [], s, k)
  {
  }

  // ----- The order of acceptance -----

  /** Packets of one key that are both served leave in the order of their acceptance. */
  ghost predicate AcceptanceKept<P>(log: seq<Event<P>>) {
    forall i, j, p, q | 0 <= i < j < |log| && 0 <= p < |log| && 0 <= q < |log| && ServedBoth(log, i, j, p, q) :: p < q
  }

  /** Of one key, one entry was accepted at i and served at p, the other at j and q. */
  ghost predicate ServedBoth<P>(log: seq<Event<P>>, i: nat, j: nat, p: nat, q: nat)
    requires i < |log| && j < |log| && p < |log| && q < |log|
  {
    && log[i].Accepted? && log[j].Accepted? && log[i].e.key == log[j].e.key
    && log[p] == Served(log[i].e) && log[q] == Served(log[j].e)
  }

  /**
   In every run, of two entries of one key the one accepted first leaves first exactly when
   it holds the older ticket or had left before the other was accepted.
   */
  lemma LeavesFirstExactly<P>(cap: nat, k: nat, steps: seq<Step<P>>, s: System<P>, i: nat, j: nat, p: nat, q: nat)
    requires cap > 0 && Reaches(Start(cap), steps, s, k)
    requires i < j < |s.log| && p < |s.log| && q < |s.log| && ServedBoth(s.log, i, j, p, q)
    ensures p < q <==> s.log[i].e.ticket < s.log[j].e.ticket || p < j
  {
    hide Reaches, Sound;
    ServedByTicket(Start(cap), steps, s, k);
  }

  /** Every interleaving of at most k overlapping enqueues keeps the order of acceptance. */
  ghost predicate KeepsAcceptance<P(!new)>(cap: nat, k: nat)
    requires cap > 0
  {
    forall steps: seq<Step<P>>, s: System<P> | Reaches(Start(cap), steps, s, k) :: AcceptanceKept(s.log)
  }

  /** Entries were accepted in the order of their tickets, and what is pending is later still. */
  ghost predicate AcceptedByTicket<P>(log: seq<Event<P>>, pending: multiset<Entry<P>>) {
    && (forall a, b | 0 <= a < b < |log| && log[a].Accepted? && log[b].Accepted? :: log[a].e.ticket < log[b].e.ticket)
    && (forall a, e | 0 <= a < |log| && log[a].Accepted? && e in pending :: log[a].e.ticket < e.ticket)
  }

  lemma OneAtATime<P>(s: System<P>, step: Step<P>)
    requires s.queue.cap > 0 && Ordered(s) && AcceptedByTicket(s.log, s.pending) && |s.pending| <= 1 && Enabled(s, step, 1)
    ensures AcceptedByTicket(Apply(s, step).log, Apply(s, step).pending) && |Apply(s, step).pending| <= 1
  {
    hide TicketOrder, WaitingOrder, AcceptedFirst, Admit, Serve;
    match step
    case TakeTicket(key, packet) => assert s.pending == multiset{};
    case Enter(e) => NonePending(s.pending, e);
    case Leave =>
  }

  lemma NonePending<P>(pending: multiset<Entry<P>>, e: Entry<P>)
    requires e in pending && |pending| <= 1
    ensures pending - multiset{e} == multiset{}
  {
    assert |pending - multiset{e}| == 0;
  }

  lemma {:induction false} NoOverlapKeepsTickets<P>(s: System<P>, steps: seq<Step<P>>, s': System<P>)
    requires Sound(s) && Ordered(s) && AcceptedByTicket(s.log, s.pending) && |s.pending| <= 1 && Reaches(s, steps, s', 1)
    ensures AcceptedByTicket(s'.log, s'.pending)
    decreases |steps|
  {
    hide Sound, Ordered, AcceptedByTicket;
    if steps != [] {
      StepKeepsSound(s, steps[0], 1);
      StepKeepsOrdered(s, steps[0], 1);
      OneAtATime(s, steps[0]);
      NoOverlapKeepsTickets(Apply(s, steps[0]), steps[1..], s');
    }
  }

  /** In a queue for one, an entry that waits was the last to be accepted, and so was one that is served. */
  ghost predicate LastAccepted<P>(log: seq<Event<P>>, waiting: multiset<Entry<P>>) {
    && (forall a, b | 0 <= a < b < |log| && log[a].Accepted? && log[a].e in waiting :: !log[b].Accepted?)
    && (forall a, b, c | 0 <= a < b < c < |log| && log[a].Accepted? && log[c] == Served(log[a].e) :: !log[b].Accepted?)
  }

  lemma AcceptedAlone<P>(q: Queue<P>, e: Entry<P>)
    requires BoundedQueue.Valid(q) && q.cap == 1 && NewTicket(Contents(q), e.ticket, q.next)
    ensures var (q', ok) := Admit(q, e); Contents(q') == if ok then multiset{e} else Contents(q)
  {
    hide IsHeap, Admit, Ticketed;
    AdmitEffect(q, e);
    if |q.heap| == 1 {
      assert q.heap == [q.heap[0]] && WorstEntry(q) in Contents(q);
    } else {
      assert Contents(q) == multiset{};
    }
  }

  lemma StepInQueueForOne<P>(s: System<P>, step: Step<P>, k: nat)
    requires Sound(s) && Ordered(s) && s.queue.cap == 1 && LastAccepted(s.log, Contents(s.queue)) && Enabled(s, step, k)
    ensures LastAccepted(Apply(s, step).log, Contents(Apply(s, step).queue))
  {
    hide TicketOrder, WaitingOrder, AcceptedFirst, NotYet, BoundedQueue.Valid, Ticketed, NewTicket, LastAccepted, Admit, Serve, IsLeast;
    match step
    case TakeTicket(key, packet) =>
    case Enter(e) =>
      AcceptedAlone(s.queue, e);
      if Admit(s.queue, e).1 { EntersQueueForOne(s, e); } else { assert s.log + [] == s.log; }
    case Leave =>
      ServeEffect(s.queue);
      if Serve(s.queue).1.Some? {
        LeastIsOnce(s.queue, Serve(s.queue).1.value);
        LeftInQueue(s, Serve(s.queue).1.value);
      } else {
        assert s.log + [] == s.log;
      }
  }

  lemma EntersQueueForOne<P>(s: System<P>, e: Entry<P>)
    requires LastAccepted(s.log, Contents(s.queue)) && NotYet(s.log, s.pending, s.queue.next) && e in s.pending
    ensures LastAccepted(s.log + [Accepted(e)], multiset{e})
  {
  }

  lemma LeftInQueue<P>(s: System<P>, e: Entry<P>)
    requires LastAccepted(s.log, Contents(s.queue)) && e in Contents(s.queue)
    ensures LastAccepted(s.log + [Served(e)], Contents(s.queue) - multiset{e})
  {
  }

  lemma {:induction false} QueueForOne<P>(s: System<P>, steps: seq<Step<P>>, s': System<P>, k: nat)
    requires Sound(s) && Ordered(s) && s.queue.cap == 1 && LastAccepted(s.log, Contents(s.queue)) && Reaches(s, steps, s', k)
    ensures LastAccepted(s'.log, Contents(s'.queue))
    decreases |steps|
  {
    hide Sound, Ordered, LastAccepted;
    if steps != [] {
      StepKeepsSound(s, steps[0], k);
      StepKeepsOrdered(s, steps[0], k);
      StepInQueueForOne(s, steps[0], k);
      QueueForOne(Apply(s, steps[0]), steps[1..], s', k);
    }
  }

  /** A run with no overlap at all is one with overlap at most one. */
  lemma {:induction false} ReachesMore<P>(s: System<P>, steps: seq<Step<P>>, s': System<P>, k: nat, more: nat)
    requires s.queue.cap > 0 && Reaches(s, steps, s', k) && k <= more
    ensures Reaches(s, steps, s', more)
    decreases |steps|
  {
    if steps != [] { ReachesMore(Apply(s, steps[0]), steps[1..], s', k, more); }
  }

  lemma NothingAccepted<P>()
    ensures LastAccepted<P>([], multiset{})
  {
  }

  lemma GoneBefore<P>(log: seq<Event<P>>, waiting: multiset<Entry<P>>, i: nat, j: nat, p: nat)
    requires LastAccepted(log, waiting) && i < j < |log| && p < |log|
    requires log[i].Accepted? && log[j].Accepted? && log[p] == Served(log[i].e)
    ensures p < j
  {
  }

  lemma AcceptanceIsKept<P>(cap: nat, k: nat, steps: seq<Step<P>>, s: System<P>)
    requires cap > 0 && (k <= 1 || cap == 1) && Reaches(Start(cap), steps, s, k)
    ensures AcceptanceKept(s.log)
  {
    hide Reaches, Sound, Ordered, LastAccepted;
    if k <= 1 {
      ReachesMore(Start(cap), steps, s, k, 1);
      NoOverlapKeepsTickets(Start(cap), steps, s);
    } else {
      NothingAccepted<P>();
      QueueForOne(Start(cap), steps, s, k);
    }
    forall i, j, p, q | 0 <= i < j < |s.log| && 0 <= p < |s.log| && 0 <= q < |s.log| && ServedBoth(s.log, i, j, p, q)
      ensures p < q
    {
      LeavesFirstExactly(cap, k, steps, s, i, j, p, q);
      if k > 1 { GoneBefore(s.log, Contents(s.queue), i, j, p); }
    }
  }

  /**
   Every interleaving keeps the order of acceptance exactly when no two enqueues overlap or
   the queue has a single place.
   */
  lemma AcceptanceOrderExactly<P(!new)>(cap: nat, k: nat, packet: P)
    requires cap > 0
    ensures KeepsAcceptance<P>(cap, k) <==> k <= 1 || cap == 1
  {
    hide Reaches, AcceptanceKept;
    if k <= 1 || cap == 1 {
      forall steps: seq<Step<P>>, s: System<P> | Reaches(Start(cap), steps, s, k)
        ensures AcceptanceKept(s.log)
      {
        AcceptanceIsKept(cap, k, steps, s);
      }
    } else {
      var steps, s := AcceptanceOrderCanBreak(cap, k, 0.0, packet, packet);
      NotKept(s.log);
    }
  }

  lemma NotKept<P>(log: seq<Event<P>>)
    requires |log| == 4 && log[0].Accepted? && log[1].Accepted? && log[0].e.key == log[1].e.key
    requires log[2] == Served(log[1].e) && log[3] == Served(log[0].e)
    ensures !AcceptanceKept(log)
  {
    assert ServedBoth(log, 0, 1, 3, 2);
  }
}
