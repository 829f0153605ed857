/**
 What a flow record counts: the packets of the flow's current session, that is, of the
 longest run of its latest packets with no idle gap over the time to live.
 */
module FlowSessions {
  import opened Dicts
  import opened FlowTracking
  import opened FlowRuns

  /** The updates of one flow, in order. */
  function Of(updates: seq<Update>, key: FlowKey): (r: seq<Update>)
    ensures |r| <= |updates|
  {
    if updates == [] then []
    else
      var n := |updates| - 1;
      Of(updates[..n], key) + (if updates[n].key == key then [updates[n]] else [])
  }

  /** The purge before a packet comes more than the time to live after the packet before it. */
  predicate Gap(before: Update, after: Update, ttl: real) {
    after.clock.purge - before.clock.seen > ttl
  }

  /** The number of packets since the last gap. */
  function Session(packets: seq<Update>, ttl: real): (n: nat)
    ensures n <= |packets| && (packets != [] ==> n > 0)
  {
    var n := |packets| - 1;
    if |packets| <= 1 then |packets|
    else if Gap(packets[n - 1], packets[n], ttl) then 1
    else Session(packets[..n], ttl) + 1
  }

  ghost predicate Gapless(packets: seq<Update>, ttl: real) {
    forall i | 0 < i < |packets| :: !Gap(packets[i - 1], packets[i], ttl)
  }

  /** The latest n packets. */
  function Latest(packets: seq<Update>, n: nat): seq<Update>
    requires n <= |packets|
  {
    packets[|packets| - n..]
  }

  /** The session is the longest suffix without a gap. */
  lemma {:induction false} SessionIsLongestGapless(packets: seq<Update>, ttl: real, n: nat)
    requires n <= |packets|
    ensures Gapless(Latest(packets, n), ttl) <==> n <= Session(packets, ttl)
  {
    hide Gap, Gapless;
    if n >= 2 {
      var last := |packets| - 1;
      var shorter := Latest(packets[..last], n - 1);
      assert Latest(packets, n) == shorter + [packets[last]];
      assert shorter[n - 2] == packets[last - 1];
      SessionIsLongestGapless(packets[..last], ttl, n - 1);
      GaplessExtends(shorter, packets[last], ttl);
    } else {
      ShortIsGapless(Latest(packets, n), ttl);
    }
  }

  lemma ShortIsGapless(packets: seq<Update>, ttl: real)
    requires |packets| <= 1
    ensures Gapless(packets, ttl)
  {
  }

  lemma GaplessExtends(packets: seq<Update>, next: Update, ttl: real)
    requires packets != []
    ensures Gapless(packets + [next], ttl) <==> Gapless(packets, ttl) && !Gap(packets[|packets| - 1], next, ttl)
  {
    hide Gap;
    var n, all := |packets|, packets + [next];
    if Gapless(all, ttl) {
      assert !Gap(all[n - 1], all[n], ttl);
      forall i | 0 < i < n ensures !Gap(packets[i - 1], packets[i], ttl) { assert !Gap(all[i - 1], all[i], ttl); }
    }
    if Gapless(packets, ttl) && !Gap(packets[n - 1], next, ttl) {
      forall i | 0 < i < |all| ensures !Gap(all[i - 1], all[i], ttl) {
        if i < n { assert !Gap(packets[i - 1], packets[i], ttl); }
      }
    }
  }

  function Bytes(packets: seq<Update>): int {
    if packets == [] then 0 else Bytes(packets[..|packets| - 1]) + packets[|packets| - 1].size
  }

  /** The packets of the current session. */
  function SessionPackets(packets: seq<Update>, ttl: real): seq<Update> {
    Latest(packets, Session(packets, ttl))
  }

  /** No update of the run evicts a flow to make room. */
  ghost predicate NeverFull(ttl: real, maxFlows: int, updates: seq<Update>) {
    updates == [] ||
    (var n := |updates| - 1;
     var purged := Purged(TableAfter(ttl, maxFlows, updates[..n]), updates[n].clock.purge, ttl);
     && NeverFull(ttl, maxFlows, updates[..n])
     && (updates[n].key in purged.vals || |purged.keys| < maxFlows))
  }

  ghost function KeysSeen(updates: seq<Update>): (r: set<FlowKey>) {
    set u | u in updates :: u.key
  }

  /** Nothing is evicted while the table has room for every flow of the run. */
  lemma {:induction false} FewFlowsNeverFill(ttl: real, maxFlows: int, updates: seq<Update>)
    requires |KeysSeen(updates)| <= maxFlows
    ensures NeverFull(ttl, maxFlows, updates)
    ensures TableAfter(ttl, maxFlows, updates).vals.Keys <= KeysSeen(updates)
  {
    if updates != [] {
      var n := |updates| - 1;
      var before := updates[..n];
      assert updates[n] in updates && updates[n].key in KeysSeen(updates);
      assert KeysSeen(before) <= KeysSeen(updates);
      Cardinality(KeysSeen(before), KeysSeen(updates));
      FewFlowsNeverFill(ttl, maxFlows, before);
      RoomForOneMore(TableAfter(ttl, maxFlows, before), ttl, maxFlows, updates[n], KeysSeen(updates));
    }
  }

  lemma Cardinality<T>(a: set<T>, b: set<T>)
    requires a <= b
    ensures |a| <= |b|
  {
    assert b == a + (b - a);
  }

  lemma RoomForOneMore(t: Table, ttl: real, maxFlows: int, u: Update, seen: set<FlowKey>)
    requires Dicts.Valid(t) && t.vals.Keys <= seen && u.key in seen && |seen| <= maxFlows
    ensures var purged := Purged(t, u.clock.purge, ttl); u.key in purged.vals || |purged.keys| < maxFlows
    ensures Updated(t, ttl, maxFlows, u.key, u.size, u.clock).vals.Keys <= seen
  {
    hide Distinct, Filter;
    var purged := Purged(t, u.clock.purge, ttl);
    TableSize(purged);
    if u.key !in purged.vals {
      Cardinality(purged.vals.Keys, seen - {u.key});
    }
  }

  /** The record agrees with the session, and a missing record means the flow has gone idle. */
  ghost predicate Counts(t: Table, key: FlowKey, packets: seq<Update>, purge: real, ttl: real) {
    if key in t.vals then
      && packets != []
      && t.vals[key] == Flow(packets[|packets| - 1].clock.seen, Session(packets, ttl), Bytes(SessionPackets(packets, ttl)))
    else
      packets != [] ==> purge - packets[|packets| - 1].clock.seen > ttl
  }

  lemma SessionGrows(packets: seq<Update>, next: Update, ttl: real)
    requires packets != [] && !Gap(packets[|packets| - 1], next, ttl)
    ensures Session(packets + [next], ttl) == Session(packets, ttl) + 1
    ensures SessionPackets(packets + [next], ttl) == SessionPackets(packets, ttl) + [next]
  {
    assert (packets + [next])[..|packets|] == packets;
  }

  lemma SessionStarts(packets: seq<Update>, next: Update, ttl: real)
    requires packets == [] || Gap(packets[|packets| - 1], next, ttl)
    ensures Session(packets + [next], ttl) == 1 && SessionPackets(packets + [next], ttl) == [next]
  {
  }

  lemma BytesAdd(packets: seq<Update>, next: Update)
    ensures Bytes(packets + [next]) == Bytes(packets) + next.size
  {
    assert (packets + [next])[..|packets|] == packets;
  }

  /** What an update without an eviction does to each record. */
  lemma UpdatedRecords(t: Table, ttl: real, maxFlows: int, u: Update, key: FlowKey)
    requires Dicts.Valid(t)
    requires var purged := Purged(t, u.clock.purge, ttl); u.key in purged.vals || |purged.keys| < maxFlows
    ensures var t', alive := Updated(t, ttl, maxFlows, u.key, u.size, u.clock),
                             key in t.vals && u.clock.purge - t.vals[key].last <= ttl;
            && (key in t'.vals <==> alive || key == u.key)
            && (key != u.key && alive ==> t'.vals[key] == t.vals[key])
            && (key == u.key && alive ==>
                  t'.vals[key] == Flow(u.clock.seen, t.vals[key].packets + 1, t.vals[key].bytes + u.size))
            && (key == u.key && !alive ==> t'.vals[key] == Flow(u.clock.seen, 1, u.size))
  {
    hide Distinct, Filter;
  }

  /** One update without an eviction, as the record of each flow sees it. */
  lemma UpdateCounts(
    t: Table, ttl: real, maxFlows: int, u: Update, key: FlowKey, packets: seq<Update>, earlier: real)
    requires Dicts.Valid(t) && Counts(t, key, packets, earlier, ttl) && earlier <= u.clock.purge
    requires var purged := Purged(t, u.clock.purge, ttl); u.key in purged.vals || |purged.keys| < maxFlows
    ensures Counts(Updated(t, ttl, maxFlows, u.key, u.size, u.clock), key,
                   packets + (if u.key == key then [u] else []), u.clock.purge, ttl)
  {
    hide Dicts.Valid, Updated, Purged, Session, Bytes, SessionPackets;
    UpdatedRecords(t, ttl, maxFlows, u, key);
    if u.key == key {
      if key in t.vals && u.clock.purge - t.vals[key].last <= ttl {
        SessionGrows(packets, u, ttl);
        BytesAdd(SessionPackets(packets, ttl), u);
      } else {
        SessionStarts(packets, u, ttl);
        BytesOfOne(u);
      }
    } else {
      assert packets + [] == packets;
    }
  }

  lemma BytesOfOne(u: Update)
    ensures Bytes([u]) == u.size
  {
    assert [u][..0] == [];
  }

  lemma {:induction false} RunCounts(ttl: real, maxFlows: int, updates: seq<Update>, key: FlowKey)
    requires Clocked(updates) && NeverFull(ttl, maxFlows, updates) && updates != []
    ensures Counts(TableAfter(ttl, maxFlows, updates), key, Of(updates, key), LastPurge(updates), ttl)
  {
    hide Counts, Updated, Purged, Clocked;
    var n := |updates| - 1;
    if n > 0 {
      ClockedBefore(updates);
      RunCounts(ttl, maxFlows, updates[..n], key);
      UpdateCounts(TableAfter(ttl, maxFlows, updates[..n]), ttl, maxFlows, updates[n], key,
                   Of(updates[..n], key), LastPurge(updates[..n]));
    } else {
      NoCounts(key, updates[n].clock.purge, ttl);
      UpdateCounts(EmptyDict(), ttl, maxFlows, updates[n], key, [], updates[n].clock.purge);
    }
  }

  lemma NoCounts(key: FlowKey, purge: real, ttl: real)
    ensures Counts(EmptyDict(), key, [], purge, ttl)
  {
  }

  /**
   While the table never fills, each record's packet and byte counts are those of the longest
   gapless suffix of its flow's packets, whichever other flows triggered the purges.
   */
  lemma RecordCountsSession(ttl: real, maxFlows: int, updates: seq<Update>, key: FlowKey)
    requires Clocked(updates) && NeverFull(ttl, maxFlows, updates)
    requires key in TableAfter(ttl, maxFlows, updates).vals
    ensures var flow, packets := TableAfter(ttl, maxFlows, updates).vals[key], Of(updates, key);
            && 0 < flow.packets <= |packets|
            && flow.bytes == Bytes(Latest(packets, flow.packets))
            && (forall n | 0 <= n <= |packets| :: Gapless(Latest(packets, n), ttl) <==> n <= flow.packets)
  {
    if updates != [] {
      RunCounts(ttl, maxFlows, updates, key);
      var packets := Of(updates, key);
      forall n | 0 <= n <= |packets|
        ensures Gapless(Latest(packets, n), ttl) <==> n <= Session(packets, ttl)
      {
        SessionIsLongestGapless(packets, ttl, n);
      }
    }
  }
}
