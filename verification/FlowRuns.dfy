/**
 Whole runs of the flow table: it is an LRU cache with a time to live, and each record counts
 the packets of its flow's current session.
 */
module FlowRuns {
  import opened Dicts
  import opened FlowTracking

  // ----- The table never outgrows its bound -----

  function Bound(maxFlows: int): nat {
    if maxFlows < 1 then 1 else maxFlows
  }

  lemma {:induction false} DistinctSize<K>(keys: seq<K>)
    requires Distinct(keys)
    ensures |set k | k in keys| == |keys|
  {
    if keys != [] {
      var rest := keys[1..];
      DistinctSize(rest);
      assert (set k | k in keys) == (set k | k in rest) + {keys[0]};
    }
  }

  lemma TableSize(t: Table)
    requires Dicts.Valid(t)
    ensures |t.keys| == |t.vals.Keys|
  {
    DistinctSize(t.keys);
    assert (set k | k in t.keys) == t.vals.Keys;
  }

  lemma DeleteSize(t: Table, key: FlowKey)
    requires Dicts.Valid(t) && key in t.vals
    ensures Dicts.Valid(Delete(t, key)) && |Delete(t, key).keys| == |t.keys| - 1
  {
    SelectKeepsValid(t, t.vals.Keys - {key});
    TableSize(t);
    TableSize(Delete(t, key));
    assert Delete(t, key).vals.Keys == t.vals.Keys - {key};
  }

  /** An update leaves at most max(1, maxFlows) flows. */
  lemma UpdateKeepsBound(t: Table, ttl: real, maxFlows: int, key: FlowKey, size: int, clock: Clock)
    requires Dicts.Valid(t) && |t.keys| <= Bound(maxFlows)
    ensures |Updated(t, ttl, maxFlows, key, size, clock).keys| <= Bound(maxFlows)
  {
    var purged := Purged(t, clock.purge, ttl);
    if key !in purged.vals && |purged.keys| >= maxFlows && purged.keys != [] {
      DeleteSize(purged, purged.keys[IdlestFrom(purged, clock.scan, 0, 0)]);
    }
  }

  /**
   An update counts its packet last on the record of its key: on top of the record the table
   had if the purge left it, and on a new one otherwise.  No other record changes.
   */
  lemma UpdateCountsPacket(t: Table, ttl: real, maxFlows: int, key: FlowKey, size: int, clock: Clock, other: FlowKey)
    requires Dicts.Valid(t)
    ensures var t', alive := Updated(t, ttl, maxFlows, key, size, clock), key in t.vals && clock.purge - t.vals[key].last <= ttl;
            && key in t'.vals
            && t'.vals[key] == (if alive then Flow(clock.seen, t.vals[key].packets + 1, t.vals[key].bytes + size)
                                else Flow(clock.seen, 1, size))
            && (other != key && other in t'.vals ==>
                  other in t.vals && t'.vals[other] == t.vals[other] && clock.purge - t.vals[other].last <= ttl)
  {
    hide Distinct, Filter, IdlestFrom;
  }

  // ----- Which flow an eviction removes -----

  /** The flow at position o was seen before every other flow of the table. */
  ghost predicate IsOldest(t: Table, o: nat)
    requires Dicts.Valid(t)
  {
    o < |t.keys| && forall i | 0 <= i < |t.keys| && i != o :: t.vals[t.keys[o]].last < t.vals[t.keys[i]].last
  }

  /** While the scan went from o to a later flow, the clock moved no further than the flows are apart. */
  ghost predicate Steady(t: Table, scan: nat -> real, o: nat)
    requires Dicts.Valid(t) && o < |t.keys|
  {
    forall j | o < j < |t.keys| :: scan(j) - scan(o) <= t.vals[t.keys[j]].last - t.vals[t.keys[o]].last
  }

  lemma {:induction false} IdlestFromFinds(t: Table, scan: nat -> real, o: nat, i: nat, best: nat)
    requires Dicts.Valid(t) && o < |t.keys| && i <= |t.keys| && best < |t.keys|
    requires forall j | 0 <= j < o :: Idle(t, scan, j) < Idle(t, scan, o)
    requires forall j | o < j < |t.keys| :: Idle(t, scan, j) <= Idle(t, scan, o)
    requires if i <= o then best <= o else best == o
    ensures IdlestFrom(t, scan, i, best) == o
    decreases |t.keys| - i
  {
    if i < |t.keys| {
      IdlestFromFinds(t, scan, o, i + 1, if Idle(t, scan, i) > Idle(t, scan, best) then i else best);
    }
  }

  /** On a steady scan the eviction removes the flow that was seen longest ago. */
  lemma EvictsOldest(t: Table, scan: nat -> real, o: nat)
    requires Dicts.Valid(t) && IsOldest(t, o) && Steady(t, scan, o)
    requires forall i: nat, j: nat | i <= j :: scan(i) <= scan(j)
    ensures WithoutIdlest(t, scan) == Delete(t, t.keys[o])
  {
    forall j | 0 <= j < o
      ensures Idle(t, scan, j) < Idle(t, scan, o)
    {
      assert scan(j) <= scan(o);
    }
    IdlestFromFinds(t, scan, o, 0, 0);
  }

  /** An eviction removes the flow that was seen longest ago exactly when its scan is steady. */
  lemma EvictsOldestExactly(t: Table, scan: nat -> real, o: nat)
    requires Dicts.Valid(t) && IsOldest(t, o)
    requires forall i: nat, j: nat | i <= j :: scan(i) <= scan(j)
    ensures WithoutIdlest(t, scan) == Delete(t, t.keys[o]) <==> Steady(t, scan, o)
  {
    hide WithoutIdlest, Delete;
    if Steady(t, scan, o) {
      EvictsOldest(t, scan, o);
    } else {
      var j :| o < j < |t.keys| && scan(j) - scan(o) > t.vals[t.keys[j]].last - t.vals[t.keys[o]].last;
      YoungerLooksIdler(t, scan, o, j);
    }
  }

  /** A scan that starts no earlier than `from` and takes at most `drift`. */
  ghost predicate Drifts(scan: nat -> real, from: real, drift: real) {
    forall i: nat, j: nat | i <= j :: from <= scan(i) <= scan(j) <= scan(i) + drift
  }

  /**
   Whenever the scan may start, the eviction is certain to remove the oldest flow, however the clock moves by at most
   `drift` during the scan, exactly when every flow stored after it was seen at least that
   much later.
   */
  lemma OldestEvictedExactly(t: Table, o: nat, from: real, drift: real)
    requires Dicts.Valid(t) && IsOldest(t, o) && drift >= 0.0
    ensures (forall scan: nat -> real | Drifts(scan, from, drift) :: WithoutIdlest(t, scan) == Delete(t, t.keys[o]))
       <==> (forall j | o < j < |t.keys| :: t.vals[t.keys[j]].last - t.vals[t.keys[o]].last >= drift)
  {
    hide WithoutIdlest, Delete;
    if j: nat :| o < j < |t.keys| && t.vals[t.keys[j]].last - t.vals[t.keys[o]].last < drift {
      var scan := DriftHidesOldest(t, o, j, from, drift);
    } else {
      forall scan: nat -> real | Drifts(scan, from, drift)
        ensures WithoutIdlest(t, scan) == Delete(t, t.keys[o])
      {
        EvictsOldest(t, scan, o);
      }
    }
  }

  /** A clock that moves between o and a later flow seen less than `drift` after it. */
  lemma DriftHidesOldest(t: Table, o: nat, j: nat, from: real, drift: real) returns (scan: nat -> real)
    requires Dicts.Valid(t) && o < j < |t.keys| && drift >= 0.0
    requires t.vals[t.keys[j]].last - t.vals[t.keys[o]].last < drift
    ensures Drifts(scan, from, drift) && WithoutIdlest(t, scan) != Delete(t, t.keys[o])
  {
    scan := i => if i < j then from else from + drift;
    YoungerLooksIdler(t, scan, o, j);
  }

  lemma {:induction false} IdlestFromIsGreatest(t: Table, scan: nat -> real, i: nat, best: nat)
    requires Dicts.Valid(t) && i <= |t.keys| && best < |t.keys|
    requires forall j | 0 <= j < i :: Idle(t, scan, j) <= Idle(t, scan, best)
    ensures var r := IdlestFrom(t, scan, i, best); forall j | 0 <= j < |t.keys| :: Idle(t, scan, j) <= Idle(t, scan, r)
    decreases |t.keys| - i
  {
    if i < |t.keys| {
      IdlestFromIsGreatest(t, scan, i + 1, if Idle(t, scan, i) > Idle(t, scan, best) then i else best);
    }
  }

  lemma YoungerLooksIdler(t: Table, scan: nat -> real, o: nat, j: nat)
    requires Dicts.Valid(t) && o < |t.keys| && j < |t.keys| && Idle(t, scan, j) > Idle(t, scan, o)
    ensures WithoutIdlest(t, scan) != Delete(t, t.keys[o])
  {
    IdlestFromIsGreatest(t, scan, 0, 0);
    var r := IdlestFrom(t, scan, 0, 0);
    assert t.keys[r] != t.keys[o];
    assert t.keys[o] in WithoutIdlest(t, scan).vals && t.keys[o] !in Delete(t, t.keys[o]).vals;
  }

  /** However the scan drifts, the evicted flow was last seen within `drift` of every older one. */
  lemma EvictedIsNearlyOldest(t: Table, scan: nat -> real, from: real, drift: real, i: nat)
    requires Dicts.Valid(t) && drift >= 0.0 && Drifts(scan, from, drift) && i < |t.keys|
    ensures var r := IdlestFrom(t, scan, 0, 0);
            t.vals[t.keys[r]].last <= t.vals[t.keys[i]].last + drift
  {
    var r := IdlestFrom(t, scan, 0, 0);
    IdlestFromIsGreatest(t, scan, 0, 0);
    assert Idle(t, scan, i) <= Idle(t, scan, r);
    assert i <= r ==> scan(r) <= scan(i) + drift;
    assert r <= i ==> scan(r) <= scan(i);
  }

  // ----- Least recently used, with a time to live -----

  /** One update as the table sees it. */
  datatype Update = Update(key: FlowKey, size: int, clock: Clock)

  function TableAfter(ttl: real, maxFlows: int, updates: seq<Update>): (t: Table)
    ensures Dicts.Valid(t)
  {
    if updates == [] then EmptyDict()
    else
      var u := updates[|updates| - 1];
      Updated(TableAfter(ttl, maxFlows, updates[..|updates| - 1]), ttl, maxFlows, u.key, u.size, u.clock)
  }

  datatype Sighting = Sighting(key: FlowKey, last: real)

  /** The position of a key, or the length of the list. */
  function Find(l: seq<Sighting>, key: FlowKey): (i: nat)
    ensures i <= |l| && (i < |l| ==> l[i].key == key)
    ensures forall j | 0 <= j < i :: l[j].key != key
  {
    if l == [] || l[0].key == key then 0 else 1 + Find(l[1..], key)
  }

  function Without(l: seq<Sighting>, key: FlowKey): seq<Sighting> {
    var i := Find(l, key);
    if i == |l| then l else l[..i] + l[i + 1..]
  }

  /** All keys ever seen, the most recently seen first. */
  function Recency(updates: seq<Update>): seq<Sighting> {
    if updates == [] then []
    else
      var u := updates[|updates| - 1];
      [Sighting(u.key, u.clock.seen)] + Without(Recency(updates[..|updates| - 1]), u.key)
  }

  /** How many flows at the front of the list were idle for at most the time to live. */
  function FreshCount(l: seq<Sighting>, now: real, ttl: real): (n: nat)
    ensures n <= |l|
  {
    if l == [] || now - l[0].last > ttl then 0 else 1 + FreshCount(l[1..], now, ttl)
  }

  /** Most recent first, each key once. */
  ghost predicate Ranked(l: seq<Sighting>) {
    forall i, j | 0 <= i < j < |l| :: l[i].last > l[j].last && l[i].key != l[j].key
  }

  /** The table holds exactly the first n flows of the list, with their times. */
  ghost predicate Holds(t: Table, l: seq<Sighting>, n: nat) {
    && n <= |l|
    && (forall i | 0 <= i < n :: l[i].key in t.vals && t.vals[l[i].key].last == l[i].last)
    && (forall k | k in t.vals :: Find(l, k) < n)
  }

  lemma {:induction false} FreshCountExact(l: seq<Sighting>, now: real, ttl: real, i: nat)
    requires Ranked(l) && i < |l|
    ensures i < FreshCount(l, now, ttl) <==> now - l[i].last <= ttl
  {
    if i > 0 {
      assert Ranked(l[1..]);
      FreshCountExact(l[1..], now, ttl, i - 1);
      assert l[0].last > l[i].last;
    }
  }

  lemma FindAt(l: seq<Sighting>, i: nat)
    requires Ranked(l) && i < |l|
    ensures Find(l, l[i].key) == i
  {
  }

  /** A purge keeps the flows of the list that are still fresh. */
  lemma PurgeHolds(t: Table, l: seq<Sighting>, n: nat, now: real, ttl: real)
    requires Dicts.Valid(t) && Ranked(l) && Holds(t, l, n)
    ensures var f := FreshCount(l, now, ttl); Holds(Purged(t, now, ttl), l, if n <= f then n else f)
  {
    hide Distinct, Filter, FreshCount;
    var t' := Purged(t, now, ttl);
    var f := FreshCount(l, now, ttl);
    forall i | 0 <= i < n && i < f
      ensures l[i].key in t'.vals && t'.vals[l[i].key].last == l[i].last
    {
      FreshCountExact(l, now, ttl, i);
    }
    forall k | k in t'.vals
      ensures Find(l, k) < n && Find(l, k) < f
    {
      FreshCountExact(l, now, ttl, Find(l, k));
    }
  }

  lemma {:induction false} HoldsSize(t: Table, l: seq<Sighting>, n: nat)
    requires Dicts.Valid(t) && Ranked(l) && Holds(t, l, n)
    ensures |t.keys| == n
  {
    TableSize(t);
    var front := seq(n, i requires 0 <= i < n => l[i].key);
    assert Distinct(front);
    DistinctSize(front);
    forall k | k in t.vals ensures k in front { assert front[Find(l, k)] == k; }
    forall k | k in front ensures k in t.vals {}
    assert (set k | k in front) == t.vals.Keys;
  }

  /** Where the i-th entry, i > 0, stood before the entry at j moved to the front. */
  function Source(j: nat, i: nat): (k: nat)
    requires i > 0
    ensures k == i - 1 || k == i
  {
    if i <= j then i - 1 else i
  }

  /** The list after key is seen at time `now`. */
  function MovedToFront(l: seq<Sighting>, key: FlowKey, now: real): (r: seq<Sighting>)
    ensures |r| > 0 && r[0] == Sighting(key, now)
    ensures |r| == (if Find(l, key) < |l| then |l| else |l| + 1)
    ensures forall i | 0 < i < |r| :: Source(Find(l, key), i) < |l| && r[i] == l[Source(Find(l, key), i)]
  {
    [Sighting(key, now)] + Without(l, key)
  }

  lemma MovedStaysRanked(l: seq<Sighting>, key: FlowKey, now: real)
    requires Ranked(l) && (l != [] ==> l[0].last < now)
    ensures Ranked(MovedToFront(l, key, now))
  {
    hide MovedToFront;
    var r, j := MovedToFront(l, key, now), Find(l, key);
    forall a, b | 0 <= a < b < |r|
      ensures r[a].last > r[b].last && r[a].key != r[b].key
    {
      var b' := Source(j, b);
      if a > 0 {
        assert r[a] == l[Source(j, a)] && Source(j, a) < b';
      } else {
        assert b' == 0 || l[0].last > l[b'].last;
        KeyIsElsewhere(l, key, b);
      }
    }
  }

  lemma KeyIsElsewhere(l: seq<Sighting>, key: FlowKey, b: nat)
    requires Ranked(l) && b > 0 && Source(Find(l, key), b) < |l|
    ensures l[Source(Find(l, key), b)].key != key
  {
    FindAt(l, Source(Find(l, key), b));
  }

  /** A key of the table that is seen again moves to the front; nothing else changes. */
  lemma TouchKnown(t: Table, l: seq<Sighting>, m: nat, key: FlowKey, size: int, now: real)
    requires Dicts.Valid(t) && Ranked(l) && Holds(t, l, m) && key in t.vals && l[0].last < now
    ensures Holds(Touched(t, key, size, now), MovedToFront(l, key, now), m)
  {
    hide Distinct, MovedToFront;
    var t', r, j := Touched(t, key, size, now), MovedToFront(l, key, now), Find(l, key);
    MovedStaysRanked(l, key, now);
    forall i | 0 <= i < m
      ensures r[i].key in t'.vals && t'.vals[r[i].key].last == r[i].last
    {
      if i > 0 { KeyIsElsewhere(l, key, i); }
    }
    forall k | k in t'.vals
      ensures Find(r, k) < m
    {
      if k == key { FindAt(r, 0); } else { FindMoved(l, key, now, k); }
    }
  }

  /** A key other than the one that moved stays where it was or goes back by one place. */
  lemma FindMoved(l: seq<Sighting>, key: FlowKey, now: real, k: FlowKey)
    requires Ranked(l) && (l != [] ==> l[0].last < now) && Find(l, k) < |l| && k != key
    ensures var i := Find(l, k); Find(MovedToFront(l, key, now), k) == if i < Find(l, key) then i + 1 else i
  {
    hide MovedToFront;
    var i, j := Find(l, k), Find(l, key);
    var i' := if i < j then i + 1 else i;
    MovedStaysRanked(l, key, now);
    assert i' > 0 && Source(j, i') == i;
    FindAt(MovedToFront(l, key, now), i');
  }

  /** A new key joins at the front of the first m flows. */
  lemma TouchNew(t: Table, l: seq<Sighting>, m: nat, key: FlowKey, size: int, now: real)
    requires Dicts.Valid(t) && Ranked(l) && Holds(t, l, m) && key !in t.vals && (l != [] ==> l[0].last < now)
    ensures Holds(Touched(t, key, size, now), MovedToFront(l, key, now), m + 1)
  {
    hide Distinct, MovedToFront;
    var t', r := Touched(t, key, size, now), MovedToFront(l, key, now);
    MovedStaysRanked(l, key, now);
    assert Find(l, key) >= m;
    forall i | 0 <= i < m + 1
      ensures r[i].key in t'.vals && t'.vals[r[i].key].last == r[i].last
    {
      if i > 0 { KeyIsElsewhere(l, key, i); }
    }
    forall k | k in t'.vals
      ensures Find(r, k) < m + 1
    {
      if k == key { FindAt(r, 0); } else { FindMoved(l, key, now, k); }
    }
  }

  /** Evicting on a steady scan drops the last of the m flows. */
  lemma EvictHolds(t: Table, l: seq<Sighting>, m: nat, scan: nat -> real)
    requires Dicts.Valid(t) && Ranked(l) && Holds(t, l, m) && m > 0
    requires forall i: nat, j: nat | i <= j :: scan(i) <= scan(j)
    requires forall o: nat | o < |t.keys| && IsOldest(t, o) :: Steady(t, scan, o)
    ensures Dicts.Valid(WithoutIdlest(t, scan)) && Holds(WithoutIdlest(t, scan), l, m - 1)
    ensures l[m - 1].key !in WithoutIdlest(t, scan).vals && WithoutIdlest(t, scan).vals.Keys <= t.vals.Keys
  {
    assert l[m - 1].key in t.keys;
    var o: nat :| o < |t.keys| && t.keys[o] == l[m - 1].key;
    forall i | 0 <= i < |t.keys| && i != o
      ensures t.vals[t.keys[o]].last < t.vals[t.keys[i]].last
    {
      assert t.keys[i] != t.keys[o];
      assert Find(l, t.keys[i]) < m - 1;
    }
    assert IsOldest(t, o);
    EvictsOldest(t, scan, o);
    LastDropped(t, l, m);
  }

  lemma LastDropped(t: Table, l: seq<Sighting>, m: nat)
    requires Dicts.Valid(t) && Ranked(l) && Holds(t, l, m) && m > 0
    ensures Dicts.Valid(Delete(t, l[m - 1].key)) && Holds(Delete(t, l[m - 1].key), l, m - 1)
  {
    hide Distinct, Filter;
    SelectKeepsValid(t, t.vals.Keys - {l[m - 1].key});
    var t' := Delete(t, l[m - 1].key);
    forall k | k in t'.vals ensures Find(l, k) < m - 1 {
      assert k != l[m - 1].key;
    }
  }

  /** How many flows of the list the table keeps after a purge at `now`. */
  function KeptCount(l: seq<Sighting>, now: real, ttl: real, maxFlows: int): nat {
    var f := FreshCount(l, now, ttl);
    if l == [] then 0 else if f == 0 then 1 else if f <= Bound(maxFlows) then f else Bound(maxFlows)
  }

  lemma FreshCountIs(l: seq<Sighting>, now: real, ttl: real, c: nat)
    requires Ranked(l) && c <= |l|
    requires c > 0 ==> now - l[c - 1].last <= ttl
    requires c < |l| ==> now - l[c].last > ttl
    ensures FreshCount(l, now, ttl) == c
  {
    if c > 0 { FreshCountExact(l, now, ttl, c - 1); }
    if c < |l| { FreshCountExact(l, now, ttl, c); }
  }

  /** A later purge finds no more fresh flows. */
  lemma FreshCountShrinks(l: seq<Sighting>, earlier: real, later: real, ttl: real)
    requires Ranked(l) && earlier <= later
    ensures FreshCount(l, later, ttl) <= FreshCount(l, earlier, ttl)
  {
    var f := FreshCount(l, later, ttl);
    if f > 0 {
      FreshCountExact(l, later, ttl, f - 1);
      FreshCountExact(l, earlier, ttl, f - 1);
    }
  }

  /** The fresh flows after a key is moved to the front. */
  lemma FreshAfterMove(l: seq<Sighting>, key: FlowKey, purge: real, seen: real, ttl: real)
    requires Ranked(l) && purge <= seen && (l != [] ==> l[0].last < seen && l[0].last <= purge)
    ensures var r, f, j := MovedToFront(l, key, seen), FreshCount(l, purge, ttl), Find(l, key);
            && (f > 0 ==> FreshCount(r, purge, ttl) == if j < f then f else f + 1)
            && (f == 0 ==> FreshCount(r, purge, ttl) <= 1)
  {
    hide MovedToFront, FreshCount, Ranked;
    var r, f, j := MovedToFront(l, key, seen), FreshCount(l, purge, ttl), Find(l, key);
    MovedStaysRanked(l, key, seen);
    if f > 0 {
      FreshCountExact(l, purge, ttl, 0);
      var c := if j < f then f else f + 1;
      if c >= 2 { FreshCountExact(l, purge, ttl, Source(j, c - 1)); }
      if c < |r| { FreshCountExact(l, purge, ttl, Source(j, c)); }
      FreshCountIs(r, purge, ttl, c);
    } else if |r| > 1 && FreshCount(r, purge, ttl) > 1 {
      FreshCountExact(r, purge, ttl, 1);
      FreshCountExact(l, purge, ttl, Source(j, 1));
    }
  }

  /** If the key needs room, the scan for it is steady. */
  ghost predicate SteadyEviction(t: Table, maxFlows: int, key: FlowKey, scan: nat -> real)
    requires Dicts.Valid(t)
  {
    key !in t.vals && |t.keys| >= maxFlows ==> forall o: nat | o < |t.keys| && IsOldest(t, o) :: Steady(t, scan, o)
  }

  /** An eviction on an unsteady scan takes a flow that was seen later than the oldest, which stays. */
  lemma UnsteadyTakesYounger(t: Table, scan: nat -> real, o: nat) returns (gone: FlowKey)
    requires Dicts.Valid(t) && IsOldest(t, o) && !Steady(t, scan, o)
    requires forall i: nat, j: nat | i <= j :: scan(i) <= scan(j)
    ensures gone in t.vals && gone != t.keys[o] && t.vals[gone].last > t.vals[t.keys[o]].last
    ensures gone !in WithoutIdlest(t, scan).vals && t.keys[o] in WithoutIdlest(t, scan).vals
  {
    hide Distinct, IdlestFrom, Steady, Filter;
    EvictsOldestExactly(t, scan, o);
    gone := t.keys[IdlestFrom(t, scan, 0, 0)];
  }

  /** So the table no longer holds a prefix of the list. */
  lemma UnsteadyBreaks(
    t: Table, l: seq<Sighting>, m: nat, scan: nat -> real, o: nat, key: FlowKey, size: int, now: real, kept: nat)
    requires Dicts.Valid(t) && Ranked(l) && Holds(t, l, m) && key !in t.vals && (l != [] ==> l[0].last < now)
    requires IsOldest(t, o) && !Steady(t, scan, o) && forall i: nat, j: nat | i <= j :: scan(i) <= scan(j)
    ensures !Holds(Touched(WithoutIdlest(t, scan), key, size, now), MovedToFront(l, key, now), kept)
  {
    var gone := UnsteadyTakesYounger(t, scan, o);
    var left := t.keys[o];
    hide Dicts.Valid, MovedToFront, WithoutIdlest, Steady, IsOldest;
    var t', r := Touched(WithoutIdlest(t, scan), key, size, now), MovedToFront(l, key, now);
    assert Find(l, gone) < Find(l, left) < m <= Find(l, key) by { YoungerIsNearer(t, l, m, gone, left, key); }
    FindMoved(l, key, now, gone);
    FindMoved(l, key, now, left);
    assert gone !in t'.vals && left in t'.vals;
    assert Find(r, gone) < |r| && r[Find(r, gone)].key == gone;
  }

  lemma YoungerIsNearer(t: Table, l: seq<Sighting>, m: nat, gone: FlowKey, left: FlowKey, key: FlowKey)
    requires Ranked(l) && Holds(t, l, m) && key !in t.vals && gone in t.vals && left in t.vals && gone != left
    requires t.vals[gone].last > t.vals[left].last
    ensures Find(l, gone) < Find(l, left) < m <= Find(l, key)
  {
  }

  /** One update of a table that holds what it should leaves one that does. */
  lemma SteadyUpdateHolds(
    t: Table, l: seq<Sighting>, earlier: real, ttl: real, maxFlows: int, key: FlowKey, size: int, clock: Clock)
    requires Dicts.Valid(t) && Ranked(l) && Holds(t, l, KeptCount(l, earlier, ttl, maxFlows))
    requires Ticks(clock) && earlier <= clock.purge && (l != [] ==> l[0].last < clock.seen && l[0].last <= clock.purge)
    requires SteadyEviction(Purged(t, clock.purge, ttl), maxFlows, key, clock.scan)
    ensures var r := MovedToFront(l, key, clock.seen);
            Holds(Updated(t, ttl, maxFlows, key, size, clock), r, KeptCount(r, clock.purge, ttl, maxFlows))
  {
    hide Distinct, Holds, Ranked, FreshCount, Purged, Touched, WithoutIdlest, MovedToFront, IsOldest, Steady;
    var purged, n, f := Purged(t, clock.purge, ttl), KeptCount(l, earlier, ttl, maxFlows), FreshCount(l, clock.purge, ttl);
    var m := if n <= f then n else f;
    assert clock.purge <= clock.scan(0) <= clock.seen;
    PurgeHolds(t, l, n, clock.purge, ttl);
    HoldsSize(purged, l, m);
    FreshCountShrinks(l, earlier, clock.purge, ttl);
    FreshAfterMove(l, key, clock.purge, clock.seen, ttl);
    KnownIsNear(purged, l, m, key);
    if key in purged.vals {
      TouchKnown(purged, l, m, key, size, clock.seen);
    } else if |purged.keys| >= maxFlows && m > 0 {
      EvictHolds(purged, l, m, clock.scan);
      TouchNew(WithoutIdlest(purged, clock.scan), l, m - 1, key, size, clock.seen);
    } else {
      EmptyHasNoIdlest(purged, clock.scan);
      TouchNew(purged, l, m, key, size, clock.seen);
    }
  }

  /** An update leaves a table that holds what it should exactly when its eviction, if any, is steady. */
  lemma UpdateHoldsExactly(
    t: Table, l: seq<Sighting>, earlier: real, ttl: real, maxFlows: int, key: FlowKey, size: int, clock: Clock)
    requires Dicts.Valid(t) && Ranked(l) && Holds(t, l, KeptCount(l, earlier, ttl, maxFlows))
    requires Ticks(clock) && earlier <= clock.purge && (l != [] ==> l[0].last < clock.seen && l[0].last <= clock.purge)
    ensures var r := MovedToFront(l, key, clock.seen);
            Holds(Updated(t, ttl, maxFlows, key, size, clock), r, KeptCount(r, clock.purge, ttl, maxFlows))
            <==> SteadyEviction(Purged(t, clock.purge, ttl), maxFlows, key, clock.scan)
  {
    hide Distinct, Holds, Ranked, Purged, Touched, WithoutIdlest, MovedToFront, IsOldest, Steady, KeptCount, FreshCount;
    var purged, n, f := Purged(t, clock.purge, ttl), KeptCount(l, earlier, ttl, maxFlows), FreshCount(l, clock.purge, ttl);
    if SteadyEviction(purged, maxFlows, key, clock.scan) {
      SteadyUpdateHolds(t, l, earlier, ttl, maxFlows, key, size, clock);
    } else {
      var o: nat :| o < |purged.keys| && IsOldest(purged, o) && !Steady(purged, clock.scan, o);
      PurgeHolds(t, l, n, clock.purge, ttl);
      UnsteadyBreaks(purged, l, if n <= f then n else f, clock.scan, o, key, size, clock.seen,
                     KeptCount(MovedToFront(l, key, clock.seen), clock.purge, ttl, maxFlows));
    }
  }

  lemma EmptyHasNoIdlest(t: Table, scan: nat -> real)
    requires Dicts.Valid(t)
    ensures t.keys == [] ==> WithoutIdlest(t, scan) == t
  {
  }

  lemma KnownIsNear(t: Table, l: seq<Sighting>, m: nat, key: FlowKey)
    requires Dicts.Valid(t) && Ranked(l) && Holds(t, l, m)
    ensures key in t.vals <==> Find(l, key) < m
  {
  }

  // ----- The whole run -----

  /** The clock ticks between updates, and sightings have distinct times. */
  ghost predicate Clocked(updates: seq<Update>) {
    && (forall i | 0 <= i < |updates| :: Ticks(updates[i].clock))
    && (forall i | 0 < i < |updates| ::
          updates[i - 1].clock.seen <= updates[i].clock.purge && updates[i - 1].clock.seen < updates[i].clock.seen)
  }

  /** No eviction scan of the run lets the clock overtake the gap behind the oldest flow. */
  ghost predicate SteadyRun(ttl: real, maxFlows: int, updates: seq<Update>) {
    updates == [] ||
    (var u := updates[|updates| - 1];
     var purged := Purged(TableAfter(ttl, maxFlows, updates[..|updates| - 1]), u.clock.purge, ttl);
     && SteadyRun(ttl, maxFlows, updates[..|updates| - 1])
     && SteadyEviction(purged, maxFlows, u.key, u.clock.scan))
  }

  /** A run is steady when the clock stands still during each scan. */
  lemma {:induction false} FrozenScansAreSteady(ttl: real, maxFlows: int, updates: seq<Update>)
    requires forall i, j: nat, k: nat | 0 <= i < |updates| :: updates[i].clock.scan(j) == updates[i].clock.scan(k)
    ensures SteadyRun(ttl, maxFlows, updates)
  {
    hide Purged;
    if updates != [] {
      FrozenScansAreSteady(ttl, maxFlows, updates[..|updates| - 1]);
    }
  }

  function LastPurge(updates: seq<Update>): real
    requires updates != []
  {
    updates[|updates| - 1].clock.purge
  }

  /**
   The table after the updates holds exactly the flows that are among the max(1, maxFlows)
   most recently seen and, the one just seen apart, were idle for at most the time to live
   at the last purge.
   */
  ghost predicate IsLru(ttl: real, maxFlows: int, updates: seq<Update>) {
    updates != [] ==>
      Holds(TableAfter(ttl, maxFlows, updates), Recency(updates),
            KeptCount(Recency(updates), LastPurge(updates), ttl, maxFlows))
  }

  /** So it was after every update. */
  ghost predicate LruThroughout(ttl: real, maxFlows: int, updates: seq<Update>) {
    forall n | 0 <= n <= |updates| :: IsLru(ttl, maxFlows, updates[..n])
  }

  lemma {:induction false} RecencyIsRanked(updates: seq<Update>)
    requires Clocked(updates) && updates != []
    ensures Ranked(Recency(updates)) && Recency(updates)[0].last == updates[|updates| - 1].clock.seen
  {
    hide Ranked, MovedToFront, Recency;
    var n := |updates| - 1;
    RecencyMoves(updates);
    if n == 0 {
      assert Ranked([]) by { NothingSeen(0.0, 0, updates[0]); }
      NoRecency();
    } else {
      ClockedBefore(updates);
      RecencyIsRanked(updates[..n]);
    }
    MovedStaysRanked(Recency(updates[..n]), updates[n].key, updates[n].clock.seen);
  }

  lemma NoRecency()
    ensures Recency([]) == []
  {
  }

  /** After a run that was right before its last update. */
  lemma LastUpdate(ttl: real, maxFlows: int, updates: seq<Update>)
    requires Clocked(updates) && updates != [] && IsLru(ttl, maxFlows, updates[..|updates| - 1])
    ensures var n := |updates| - 1;
            var purged := Purged(TableAfter(ttl, maxFlows, updates[..n]), updates[n].clock.purge, ttl);
            IsLru(ttl, maxFlows, updates) <==> SteadyEviction(purged, maxFlows, updates[n].key, updates[n].clock.scan)
  {
    hide Distinct, Holds, Ranked, Purged, Updated, SteadyEviction, KeptCount, MovedToFront;
    var n := |updates| - 1;
    var before, u := updates[..n], updates[n];
    RecencyMoves(updates);
    if n == 0 {
      NothingSeen(ttl, maxFlows, u);
      UpdateHoldsExactly(EmptyDict(), [], u.clock.purge, ttl, maxFlows, u.key, u.size, u.clock);
    } else {
      ClockedBefore(updates);
      RecencyIsRanked(before);
      UpdateHoldsExactly(TableAfter(ttl, maxFlows, before), Recency(before), LastPurge(before), ttl, maxFlows, u.key, u.size, u.clock);
    }
  }

  /**
   The table is a least-recently-used cache with a time to live after every update of a run,
   exactly when no scan for a flow to evict lets the clock overtake the gap behind the oldest.
   */
  lemma {:induction false} TableIsLruExactly(ttl: real, maxFlows: int, updates: seq<Update>)
    requires Clocked(updates)
    ensures LruThroughout(ttl, maxFlows, updates) <==> SteadyRun(ttl, maxFlows, updates)
  {
    hide LruThroughout, IsLru, Purged, SteadyEviction, Clocked;
    if updates == [] {
      NothingToHold(ttl, maxFlows);
    } else {
      var last := |updates| - 1;
      var before := updates[..last];
      PrefixesOf(ttl, maxFlows, updates);
      ClockedPrefix(updates);
      TableIsLruExactly(ttl, maxFlows, before);
      if LruThroughout(ttl, maxFlows, before) {
        WholeIsLru(ttl, maxFlows, before);
        LastUpdate(ttl, maxFlows, updates);
      }
    }
  }

  lemma NothingToHold(ttl: real, maxFlows: int)
    ensures LruThroughout(ttl, maxFlows, [])
  {
  }

  lemma WholeIsLru(ttl: real, maxFlows: int, updates: seq<Update>)
    requires LruThroughout(ttl, maxFlows, updates)
    ensures IsLru(ttl, maxFlows, updates)
  {
    hide IsLru;
    assert updates[..|updates|] == updates;
  }

  lemma ClockedPrefix(updates: seq<Update>)
    requires Clocked(updates) && updates != []
    ensures Clocked(updates[..|updates| - 1])
  {
  }

  lemma PrefixesOf(ttl: real, maxFlows: int, updates: seq<Update>)
    requires updates != []
    ensures var before := updates[..|updates| - 1];
            LruThroughout(ttl, maxFlows, updates) <==> LruThroughout(ttl, maxFlows, before) && IsLru(ttl, maxFlows, updates)
  {
    hide IsLru;
    var before := updates[..|updates| - 1];
    assert updates[..|updates|] == updates;
    assert forall n | 0 <= n <= |before| :: before[..n] == updates[..n];
    if LruThroughout(ttl, maxFlows, updates) {
      forall n | 0 <= n <= |before| ensures IsLru(ttl, maxFlows, before[..n]) {
        assert IsLru(ttl, maxFlows, updates[..n]);
      }
      assert IsLru(ttl, maxFlows, updates[..|updates|]);
    }
    if LruThroughout(ttl, maxFlows, before) && IsLru(ttl, maxFlows, updates) {
      forall n | 0 <= n <= |updates| ensures IsLru(ttl, maxFlows, updates[..n]) {
        if n < |updates| { assert IsLru(ttl, maxFlows, before[..n]); }
      }
    }
  }

  /**
   Three flows in a table for two.  The first was seen at 0 and the second at 1; while the
   third is entered, the clock moves from 2 to 4 between the two, and the second is evicted.
   */
  lemma DriftBreaksLru(a: FlowKey, b: FlowKey, c: FlowKey) returns (updates: seq<Update>)
    requires a != b && b != c && a != c
    ensures Clocked(updates) && |updates| == 3
    ensures Recency(updates) == [Sighting(c, 4.0), Sighting(b, 1.0), Sighting(a, 0.0)]
    ensures TableAfter(100.0, 2, updates).vals.Keys == {a, c}
    ensures !IsLru(100.0, 2, updates)
  {
    hide TableAfter, Recency, Clocked, Without, Updated, WithoutIdlest, Holds;
    var first, second, third := Readings(a, b, c);
    updates := [first] + [second] + [third];
    var two := TwoFlows(first, second);
    OneMore([first] + [second], third);
    NewToList([Sighting(b, 1.0), Sighting(a, 0.0)], c);
    SecondLooksIdler(two, third.clock.scan);
    FullTable(two, third);
    ThirdInList(a, b, c);
    MissingMiddle(TableAfter(100.0, 2, updates), Recency(updates), KeptCount(Recency(updates), 2.0, 100.0, 2), b, a);
  }

  lemma Readings(a: FlowKey, b: FlowKey, c: FlowKey) returns (first: Update, second: Update, third: Update)
    ensures first.key == a && first.clock.seen == 0.0
    ensures second.key == b && second.clock.purge == second.clock.seen == 1.0
    ensures third.key == c && third.clock.purge == 2.0 && third.clock.seen == 4.0
    ensures third.clock.scan(0) == 2.0 && third.clock.scan(1) == 4.0
    ensures Clocked([first] + [second] + [third])
  {
    hide Clocked;
    first := Update(a, 1, Clock(0.0, i => 0.0, 0.0));
    second := Update(b, 1, Clock(1.0, i => 1.0, 1.0));
    third := Update(c, 1, Clock(2.0, i => if i == 0 then 2.0 else 4.0, 4.0));
    ThreeClocked(first, second, third);
  }

  lemma ThreeClocked(first: Update, second: Update, third: Update)
    requires Ticks(first.clock) && Ticks(second.clock) && Ticks(third.clock)
    requires first.clock.seen <= second.clock.purge && first.clock.seen < second.clock.seen
    requires second.clock.seen <= third.clock.purge && second.clock.seen < third.clock.seen
    ensures Clocked([first] + [second] + [third])
  {
    hide Ticks;
  }

  /** A table that lacks one flow and has an older one holds no prefix of the list. */
  lemma MissingMiddle(t: Table, l: seq<Sighting>, kept: nat, gone: FlowKey, left: FlowKey)
    requires gone !in t.vals && left in t.vals && Find(l, gone) < Find(l, left)
    ensures !Holds(t, l, kept)
  {
    assert l[Find(l, gone)].key == gone;
  }

  lemma ThirdInList(a: FlowKey, b: FlowKey, c: FlowKey)
    requires a != b && b != c && a != c
    ensures var l := [Sighting(c, 4.0), Sighting(b, 1.0), Sighting(a, 0.0)]; Find(l, a) == 2 && Find(l, b) == 1
  {
    var l := [Sighting(c, 4.0), Sighting(b, 1.0), Sighting(a, 0.0)];
    assert l[2].key == a && l[1].key == b && l[0].key == c;
  }

  /** A new flow enters a full table of two whose second flow looks idler. */
  lemma FullTable(t: Table, u: Update)
    requires Dicts.Valid(t) && |t.keys| == 2 && u.key !in t.vals
    requires forall k | k in t.vals :: u.clock.purge - t.vals[k].last <= 100.0
    requires WithoutIdlest(t, u.clock.scan) == Delete(t, t.keys[1])
    ensures Updated(t, 100.0, 2, u.key, u.size, u.clock).vals.Keys == {t.keys[0], u.key}
  {
    hide WithoutIdlest, Purged, Filter, Distinct;
    assert t.keys[0] != t.keys[1] && t.vals.Keys == {t.keys[0], t.keys[1]} by { TwoKeys(t); }
    AllAlive(t, u.clock.purge, 100.0);
    assert Delete(t, t.keys[1]).vals.Keys == {t.keys[0]};
  }

  lemma TwoKeys(t: Table)
    requires Dicts.Valid(t) && |t.keys| == 2
    ensures t.keys[0] != t.keys[1] && t.vals.Keys == {t.keys[0], t.keys[1]}
  {
    assert t.keys[0] in t.keys && t.keys[1] in t.keys;
  }

  /** A new flow enters a table with room and no idle flows. */
  lemma EntersNew(t: Table, u: Update)
    requires Dicts.Valid(t) && |t.keys| < 2 && u.key !in t.vals
    requires forall k | k in t.vals :: u.clock.purge - t.vals[k].last <= 100.0
    ensures Updated(t, 100.0, 2, u.key, u.size, u.clock) == Put(t, u.key, Flow(u.clock.seen, 1, u.size))
  {
    hide Purged, Distinct;
    AllAlive(t, u.clock.purge, 100.0);
  }

  lemma NewToList(l: seq<Sighting>, key: FlowKey)
    requires forall i | 0 <= i < |l| :: l[i].key != key
    ensures Without(l, key) == l
  {
  }

  /** The idle times are 2 and 3 when they are read. */
  lemma SecondLooksIdler(t: Table, scan: nat -> real)
    requires Dicts.Valid(t) && |t.keys| == 2 && t.vals[t.keys[0]].last == 0.0 && t.vals[t.keys[1]].last == 1.0
    requires scan(0) == 2.0 && scan(1) == 4.0
    ensures WithoutIdlest(t, scan) == Delete(t, t.keys[1])
  {
    assert IdlestFrom(t, scan, 0, 0) == IdlestFrom(t, scan, 1, 0) == IdlestFrom(t, scan, 2, 1) == 1;
  }

  /** One new flow in an empty table. */
  lemma OneFlow(first: Update)
    ensures TableAfter(100.0, 2, [first]) == Dict([first.key], map[first.key := Flow(first.clock.seen, 1, first.size)])
    ensures Recency([first]) == [Sighting(first.key, first.clock.seen)]
  {
    hide TableAfter, Recency, Without, Updated;
    NothingRecorded();
    OneMore([], first);
    assert [] + [first] == [first];
    EntersNew(EmptyDict(), first);
    NewToList([], first.key);
    var seen := [Sighting(first.key, first.clock.seen)];
    assert seen + [] == seen;
  }

  /** Two new flows in an empty table for two. */
  lemma TwoFlows(first: Update, second: Update) returns (t: Table)
    requires first.key != second.key && second.clock.purge - first.clock.seen <= 100.0
    ensures t == Dict([first.key, second.key],
                      map[first.key := Flow(first.clock.seen, 1, first.size), second.key := Flow(second.clock.seen, 1, second.size)])
    ensures Dicts.Valid(t) && t == TableAfter(100.0, 2, [first] + [second])
    ensures Recency([first] + [second])
         == [Sighting(second.key, second.clock.seen), Sighting(first.key, first.clock.seen)]
  {
    hide TableAfter, Recency, Without, Updated;
    OneFlow(first);
    OneMore([first], second);
    var one := Dict([first.key], map[first.key := Flow(first.clock.seen, 1, first.size)]);
    EntersNew(one, second);
    NewToList([Sighting(first.key, first.clock.seen)], second.key);
    t := Put(one, second.key, Flow(second.clock.seen, 1, second.size));
  }

  lemma NothingRecorded()
    ensures TableAfter(100.0, 2, []) == EmptyDict() && Recency([]) == []
  {
  }

  lemma OneMore(updates: seq<Update>, u: Update)
    ensures TableAfter(100.0, 2, updates + [u])
         == Updated(TableAfter(100.0, 2, updates), 100.0, 2, u.key, u.size, u.clock)
    ensures Recency(updates + [u]) == [Sighting(u.key, u.clock.seen)] + Without(Recency(updates), u.key)
  {
    assert (updates + [u])[..|updates|] == updates;
  }

  lemma AllAlive(t: Table, now: real, ttl: real)
    requires Dicts.Valid(t) && forall k | k in t.vals :: now - t.vals[k].last <= ttl
    ensures Purged(t, now, ttl) == t
  {
    SelectAll(t);
    assert (set k | k in t.vals && now - t.vals[k].last <= ttl) == t.vals.Keys;
  }

  lemma RecencyMoves(updates: seq<Update>)
    requires updates != []
    ensures var u := updates[|updates| - 1];
            Recency(updates) == MovedToFront(Recency(updates[..|updates| - 1]), u.key, u.clock.seen)
  {
  }

  lemma ClockedBefore(updates: seq<Update>)
    requires Clocked(updates) && |updates| > 1
    ensures var n := |updates| - 1;
            && Clocked(updates[..n]) && updates[..n][n - 1] == updates[n - 1]
            && LastPurge(updates[..n]) <= updates[n - 1].clock.seen <= updates[n].clock.purge
  {
    assert updates[|updates| - 2].clock.purge <= updates[|updates| - 2].clock.scan(0);
  }

  lemma NothingSeen(ttl: real, maxFlows: int, u: Update)
    ensures var now := u.clock.purge;
            && Ranked([]) && KeptCount([], now, ttl, maxFlows) == 0 && Holds(EmptyDict(), [], 0)
            && Purged(EmptyDict(), now, ttl) == EmptyDict()
            && SteadyEviction(EmptyDict(), maxFlows, u.key, u.clock.scan)
  {
  }
}
