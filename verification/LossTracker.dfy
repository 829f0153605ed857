/**
 The sliding-window tracker of value delivered and value lost.  Every record prunes events
 older than two windows from both deques; the rates look one window back.
 */
module LossTracking {
  import opened Traffic

  datatype Event = Event(at: real, value: real)

  datatype Tracker = Tracker(
    window: real, delivered: seq<Event>, dropped: seq<Event>, totalDelivered: real, totalDropped: real)

  /** Drops events from the front while they are older than the cutoff. */
  function Pruned(events: seq<Event>, cutoff: real): seq<Event> {
    if events != [] && events[0].at < cutoff then Pruned(events[1..], cutoff) else events
  }

  /** The value of the events at the cutoff or later, in any order. */
  function SumSince(events: seq<Event>, cutoff: real): real {
    if events == [] then 0.0
    else
      var n := |events| - 1;
      SumSince(events[..n], cutoff) + (if events[n].at >= cutoff then events[n].value else 0.0)
  }

  function Rate(events: seq<Event>, window: real, now: real): real
    requires window > 0.0
  {
    SumSince(events, now - window) / window
  }

  /** The share of value delivered, in percent; 100 when there is no flow at all. */
  function Efficiency(delivered: real, lost: real): real {
    if delivered + lost > 0.0 then 100.0 * delivered / (delivered + lost) else 100.0
  }

  function NewTracker(window: real): Tracker {
    Tracker(window, [], [], 0.0, 0.0)
  }

  function Evicted(t: Tracker, now: real): Tracker {
    var cutoff := now - 2.0 * t.window;
    t.(delivered := Pruned(t.delivered, cutoff), dropped := Pruned(t.dropped, cutoff))
  }

  function Delivered(t: Tracker, value: real, now: real): Tracker {
    Evicted(t.(delivered := t.delivered + [Event(now, value)], totalDelivered := t.totalDelivered + value), now)
  }

  function Dropped(t: Tracker, value: real, now: real): Tracker {
    Evicted(t.(dropped := t.dropped + [Event(now, value)], totalDropped := t.totalDropped + value), now)
  }

  class ValueLossTracker {
    const window: real
    var delivered: seq<Event>
    var dropped: seq<Event>
    var totalDelivered: real
    var totalDropped: real

    ghost predicate Valid() {
      window > 0.0
    }

    ghost function State(): Tracker
      reads this
    {
      Tracker(window, delivered, dropped, totalDelivered, totalDropped)
    }

    constructor (windowSeconds: real)
      ensures Valid() && State() == NewTracker(Max(0.1, windowSeconds))
    {
      window := Max(0.1, windowSeconds);
      delivered, dropped, totalDelivered, totalDropped := [], [], 0.0, 0.0;
    }

    method EvictOld(now: real)
      modifies `delivered, `dropped
      ensures State() == Evicted(old(State()), now)
    {
      var cutoff := now - 2.0 * window;
      while delivered != [] && delivered[0].at < cutoff
        invariant Pruned(delivered, cutoff) == Pruned(old(delivered), cutoff) && dropped == old(dropped)
        decreases |delivered|
      {
        delivered := delivered[1..];
      }
      while dropped != [] && dropped[0].at < cutoff
        invariant Pruned(dropped, cutoff) == Pruned(old(dropped), cutoff)
        invariant delivered == Pruned(old(delivered), cutoff)
        decreases |dropped|
      {
        dropped := dropped[1..];
      }
    }

    /** `now` is read before the lock is taken, so calls may append out of time order. */
    method RecordDelivered(value: real, now: real)
      modifies `delivered, `dropped, `totalDelivered
      ensures State() == Delivered(old(State()), value, now)
    {
      delivered := delivered + [Event(now, value)];
      totalDelivered := totalDelivered + value;
      EvictOld(now);
    }

    method RecordDropped(value: real, now: real)
      modifies `delivered, `dropped, `totalDropped
      ensures State() == Dropped(old(State()), value, now)
    {
      dropped := dropped + [Event(now, value)];
      totalDropped := totalDropped + value;
      EvictOld(now);
    }

    method RateOf(events: seq<Event>, now: real) returns (rate: real)
      requires Valid()
      ensures rate == Rate(events, window, now)
    {
      var cutoff, total := now - window, 0.0;
      for i := 0 to |events|
        invariant total == SumSince(events[..i], cutoff)
      {
        assert events[..i + 1][..i] == events[..i];
        if events[i].at >= cutoff {
          total := total + events[i].value;
        }
      }
      assert events[..|events|] == events;
      return total / window;
    }

    /** The two rates are read one after the other, so at two clock readings. */
    method ValueEfficiencyPct(now: real, later: real) returns (pct: real)
      requires Valid()
      ensures pct == Efficiency(Rate(delivered, window, now), Rate(dropped, window, later))
    {
      var d := RateOf(delivered, now);
      var l := RateOf(dropped, later);
      return if d + l > 0.0 then 100.0 * d / (d + l) else 100.0;
    }

    method Reset()
      modifies `delivered, `dropped, `totalDelivered, `totalDropped
      ensures State() == NewTracker(window)
    {
      delivered, dropped, totalDelivered, totalDropped := [], [], 0.0, 0.0;
    }
  }

  // ----- What the window holds -----

  /** The events at the cutoff or later, in the order they were recorded. */
  function Within(events: seq<Event>, cutoff: real): (r: seq<Event>)
    ensures forall e :: multiset(r)[e] == if e.at >= cutoff then multiset(events)[e] else 0
  {
    if events == [] then []
    else
      assert events == events[..|events| - 1] + [events[|events| - 1]];
      var e := events[|events| - 1];
      Within(events[..|events| - 1], cutoff) + (if e.at >= cutoff then [e] else [])
  }

  function Value(events: seq<Event>): real {
    if events == [] then 0.0 else Value(events[..|events| - 1]) + events[|events| - 1].value
  }

  lemma {:induction false} SumIsValueWithin(events: seq<Event>, cutoff: real)
    ensures SumSince(events, cutoff) == Value(Within(events, cutoff))
  {
    if events != [] {
      var before, e := events[..|events| - 1], events[|events| - 1];
      SumIsValueWithin(before, cutoff);
      assert (Within(before, cutoff) + [e])[..|Within(before, cutoff)|] == Within(before, cutoff);
      assert Within(before, cutoff) + [] == Within(before, cutoff);
    }
  }

  /** The rate times the window is the value of the events of one window back, the cutoff included. */
  lemma RateIsValueOfWindow(events: seq<Event>, window: real, now: real)
    requires window > 0.0
    ensures Rate(events, window, now) * window == Value(Within(events, now - window))
  {
    hide SumSince, Within, Value;
    SumIsValueWithin(events, now - window);
    Multiplied(SumSince(events, now - window), window);
  }

  lemma Multiplied(x: real, y: real)
    requires y > 0.0
    ensures x / y * y == x
  {
  }

  /** Pruning drops a prefix of events that are all older than the cutoff, and stops at the first that is not. */
  lemma {:induction false} PrunedExactly(events: seq<Event>, cutoff: real) returns (k: nat)
    ensures k <= |events| && Pruned(events, cutoff) == events[k..]
    ensures (forall i | 0 <= i < k :: events[i].at < cutoff) && (k < |events| ==> events[k].at >= cutoff)
  {
    k := 0;
    if events != [] && events[0].at < cutoff {
      k := PrunedExactly(events[1..], cutoff);
      k := k + 1;
    }
  }

  /** After a record at time `at` neither deque begins with an event older than two windows. */
  lemma RecordsPrune(t: Tracker, op: Op)
    requires !op.Clear?
    ensures var t', oldest := Apply(t, op), op.at - 2.0 * t.window;
            && (t'.delivered != [] ==> t'.delivered[0].at >= oldest)
            && (t'.dropped != [] ==> t'.dropped[0].at >= oldest)
  {
    var cutoff := op.at - 2.0 * t.window;
    var k := PrunedExactly(if op.Deliver? then t.delivered + [Event(op.at, op.value)] else t.delivered, cutoff);
    var j := PrunedExactly(if op.Deliver? then t.dropped else t.dropped + [Event(op.at, op.value)], cutoff);
  }

  // ----- Pruning is invisible -----

  datatype Op = Deliver(value: real, at: real) | Drop(value: real, at: real) | Clear

  function Apply(t: Tracker, op: Op): Tracker {
    match op
    case Deliver(value, at) => Delivered(t, value, at)
    case Drop(value, at) => Dropped(t, value, at)
    case Clear => NewTracker(t.window)
  }

  function Run(window: real, ops: seq<Op>): (t: Tracker)
    ensures t.window == window
  {
    if ops == [] then NewTracker(window) else Apply(Run(window, ops[..|ops| - 1]), ops[|ops| - 1])
  }

  /** One operation on a tracker that never prunes. */
  function Recorded(t: Tracker, op: Op): Tracker {
    match op
    case Deliver(value, at) => t.(delivered := t.delivered + [Event(at, value)], totalDelivered := t.totalDelivered + value)
    case Drop(value, at) => t.(dropped := t.dropped + [Event(at, value)], totalDropped := t.totalDropped + value)
    case Clear => NewTracker(t.window)
  }

  /** Everything recorded since the last reset, with nothing pruned. */
  function FullHistory(window: real, ops: seq<Op>): (t: Tracker)
    ensures t.window == window
  {
    if ops == [] then NewTracker(window) else Recorded(FullHistory(window, ops[..|ops| - 1]), ops[|ops| - 1])
  }

  lemma {:induction false} SumSinceSplitsFirst(events: seq<Event>, cutoff: real)
    requires events != []
    ensures SumSince(events, cutoff)
         == (if events[0].at >= cutoff then events[0].value else 0.0) + SumSince(events[1..], cutoff)
  {
    var n := |events| - 1;
    if n > 0 {
      SumSinceSplitsFirst(events[..n], cutoff);
      assert events[..n][1..] == events[1..][..n - 1];
    }
  }

  /** Pruning up to `old` does not change a sum that looks back no further than that. */
  lemma {:induction false} PruningKeepsSum(events: seq<Event>, older: real, cutoff: real)
    requires older <= cutoff
    ensures SumSince(Pruned(events, older), cutoff) == SumSince(events, cutoff)
  {
    if events != [] && events[0].at < older {
      SumSinceSplitsFirst(events, cutoff);
      PruningKeepsSum(events[1..], older, cutoff);
    }
  }

  lemma AppendToSum(events: seq<Event>, e: Event, cutoff: real)
    ensures SumSince(events + [e], cutoff) == SumSince(events, cutoff) + (if e.at >= cutoff then e.value else 0.0)
  {
    assert (events + [e])[..|events|] == events;
  }

  lemma RecordKeepsSum(kept: seq<Event>, all: seq<Event>, e: Event, older: real, cutoff: real)
    requires older <= cutoff && SumSince(kept, cutoff) == SumSince(all, cutoff)
    ensures SumSince(Pruned(kept + [e], older), cutoff) == SumSince(all + [e], cutoff)
  {
    PruningKeepsSum(kept + [e], older, cutoff);
    AppendToSum(kept, e, cutoff);
    AppendToSum(all, e, cutoff);
  }

  /** The query looks back no further than any eviction so far left intact. */
  ghost predicate QueryInReach(window: real, ops: seq<Op>, now: real) {
    forall op | op in ops && !op.Clear? :: now >= op.at - window
  }

  ghost predicate Agree(t: Tracker, full: Tracker, cutoff: real) {
    && t.window == full.window
    && SumSince(t.delivered, cutoff) == SumSince(full.delivered, cutoff)
    && SumSince(t.dropped, cutoff) == SumSince(full.dropped, cutoff)
    && t.totalDelivered == full.totalDelivered && t.totalDropped == full.totalDropped
  }

  lemma StepAgrees(t: Tracker, full: Tracker, op: Op, cutoff: real)
    requires Agree(t, full, cutoff) && (op.Clear? || op.at - 2.0 * t.window <= cutoff)
    ensures Agree(Apply(t, op), Recorded(full, op), cutoff)
  {
    hide SumSince, Pruned;
    match op
    case Deliver(value, at) =>
      RecordKeepsSum(t.delivered, full.delivered, Event(at, value), at - 2.0 * t.window, cutoff);
      PruningKeepsSum(t.dropped, at - 2.0 * t.window, cutoff);
    case Drop(value, at) =>
      RecordKeepsSum(t.dropped, full.dropped, Event(at, value), at - 2.0 * t.window, cutoff);
      PruningKeepsSum(t.delivered, at - 2.0 * t.window, cutoff);
    case Clear =>
  }

  lemma {:induction false} RunsAgree(window: real, ops: seq<Op>, now: real)
    requires window > 0.0 && QueryInReach(window, ops, now)
    ensures Agree(Run(window, ops), FullHistory(window, ops), now - window)
  {
    hide Agree, Apply, Recorded;
    if ops != [] {
      var n := |ops| - 1;
      assert ops[n] in ops;
      RunsAgree(window, ops[..n], now);
      StepAgrees(Run(window, ops[..n]), FullHistory(window, ops[..n]), ops[n], now - window);
    } else {
      NothingRecorded(window, now - window);
    }
  }

  lemma NothingRecorded(window: real, cutoff: real)
    ensures Agree(NewTracker(window), NewTracker(window), cutoff)
  {
  }

  /**
   At a query no more than one window earlier than any eviction, both rates and both totals
   are those of the full history since the last reset, even when timestamps were appended
   out of order.
   */
  lemma PruningIsInvisible(window: real, ops: seq<Op>, now: real)
    requires window > 0.0 && QueryInReach(window, ops, now)
    ensures var t, full := Run(window, ops), FullHistory(window, ops);
            && Rate(t.delivered, window, now) == Rate(full.delivered, window, now)
            && Rate(t.dropped, window, now) == Rate(full.dropped, window, now)
            && t.totalDelivered == full.totalDelivered && t.totalDropped == full.totalDropped
  {
    RunsAgree(window, ops, now);
  }

  /** One window is exact: any earlier, and a pruned event can be missed. */
  lemma PruningShowsBeyondOneWindow(window: real, early: real)
    requires window > 0.0 && early > 0.0
    ensures var ops := [Deliver(1.0, 0.0), Drop(0.0, 2.0 * window + early)];
            var now := (2.0 * window + early) - window - early;
            Rate(Run(window, ops).delivered, window, now) != Rate(FullHistory(window, ops).delivered, window, now)
  {
    hide Run, FullHistory;
    var now := (2.0 * window + early) - window - early;
    DeliveredThenPruned(window, early);
    assert now - window == 0.0;
    assert SumSince([Event(0.0, 1.0)], 0.0) == 1.0 by { assert [Event(0.0, 1.0)][..0] == []; }
    assert 1.0 / window != 0.0 by { assert 1.0 / window * window == 1.0; }
  }

  lemma DeliveredThenPruned(window: real, early: real)
    requires window > 0.0 && early > 0.0
    ensures var ops := [Deliver(1.0, 0.0), Drop(0.0, 2.0 * window + early)];
            Run(window, ops).delivered == [] && FullHistory(window, ops).delivered == [Event(0.0, 1.0)]
  {
    var ops := [Deliver(1.0, 0.0), Drop(0.0, 2.0 * window + early)];
    assert ops[..1] == [Deliver(1.0, 0.0)];
    DeliveredOnce(window);
    assert Pruned([Event(0.0, 1.0)], early) == [];
  }

  lemma DeliveredOnce(window: real)
    requires window > 0.0
    ensures Run(window, [Deliver(1.0, 0.0)]).delivered == [Event(0.0, 1.0)]
    ensures FullHistory(window, [Deliver(1.0, 0.0)]).delivered == [Event(0.0, 1.0)]
  {
    assert [Deliver(1.0, 0.0)][..0] == [];
    assert Pruned([] + [Event(0.0, 1.0)], 0.0 - 2.0 * window) == [Event(0.0, 1.0)];
  }

  lemma {:induction false} SumIsNonNegative(events: seq<Event>, cutoff: real)
    requires forall e | e in events :: e.value >= 0.0
    ensures SumSince(events, cutoff) >= 0.0
  {
    if events != [] {
      assert events[|events| - 1] in events;
      SumIsNonNegative(events[..|events| - 1], cutoff);
    }
  }

  lemma EfficiencyIsPercentage(delivered: real, lost: real)
    requires delivered >= 0.0 && lost >= 0.0
    ensures 0.0 <= Efficiency(delivered, lost) <= 100.0
  {
    var total := delivered + lost;
    if total > 0.0 {
      assert 100.0 * delivered / total * total == 100.0 * delivered;
    }
  }

  lemma {:induction false} ValuesStayNonNegative(window: real, ops: seq<Op>)
    requires forall op | op in ops && !op.Clear? :: op.value >= 0.0
    ensures forall e | e in Run(window, ops).delivered + Run(window, ops).dropped :: e.value >= 0.0
  {
    if ops != [] {
      var t, op := Run(window, ops[..|ops| - 1]), ops[|ops| - 1];
      assert op in ops;
      ValuesStayNonNegative(window, ops[..|ops| - 1]);
      forall e | e in Run(window, ops).delivered + Run(window, ops).dropped
        ensures e.value >= 0.0
      {
        if !op.Clear? {
          var now := op.at - 2.0 * window;
          var added := Event(op.at, op.value);
          PrunedIsPart(if op.Deliver? then t.delivered + [added] else t.delivered, now);
          PrunedIsPart(if op.Deliver? then t.dropped else t.dropped + [added], now);
          assert e in t.delivered + t.dropped || e == added;
        }
      }
    }
  }

  lemma {:induction false} PrunedIsPart(events: seq<Event>, cutoff: real)
    ensures forall e | e in Pruned(events, cutoff) :: e in events
  {
    if events != [] && events[0].at < cutoff { PrunedIsPart(events[1..], cutoff); }
  }

  /** With no negative values recorded, the efficiency is always a percentage. */
  lemma RunEfficiencyIsPercentage(window: real, ops: seq<Op>, now: real, later: real)
    requires window > 0.0 && forall op | op in ops && !op.Clear? :: op.value >= 0.0
    ensures var t := Run(window, ops);
            0.0 <= Efficiency(Rate(t.delivered, window, now), Rate(t.dropped, window, later)) <= 100.0
  {
    var t := Run(window, ops);
    ValuesStayNonNegative(window, ops);
    forall e | e in t.delivered ensures e.value >= 0.0 { assert e in t.delivered + t.dropped; }
    forall e | e in t.dropped ensures e.value >= 0.0 { assert e in t.delivered + t.dropped; }
    SumIsNonNegative(t.delivered, now - window);
    SumIsNonNegative(t.dropped, later - window);
    EfficiencyIsPercentage(Rate(t.delivered, window, now), Rate(t.dropped, window, later));
  }
}
