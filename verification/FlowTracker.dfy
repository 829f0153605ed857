/**
 The flow table: one record for each conversation, purged of idle flows on every update and
 bounded by evicting the flow that has been idle longest.
 */
module FlowTracking {
  import opened Text
  import opened Dicts

  datatype FlowKey = FlowKey(srcIp: string, dstIp: string, srcPort: int, dstPort: int, protocol: string)

  datatype Endpoint = Endpoint(ip: string, port: int)

  /** Endpoints in the order of their addresses, then of their ports. */
  predicate AtMost(a: Endpoint, b: Endpoint) {
    Before(a.ip, b.ip) || (a.ip == b.ip && a.port <= b.port)
  }

  /** The key of a packet between two endpoints: the smaller endpoint is stored as the source. */
  function KeyOf(src: Endpoint, dst: Endpoint, protocol: string): FlowKey {
    if AtMost(src, dst)
    then FlowKey(src.ip, dst.ip, src.port, dst.port, Lower(protocol))
    else FlowKey(dst.ip, src.ip, dst.port, src.port, Lower(protocol))
  }

  /** A key holds the packet's two endpoints, each with its own port, the smaller first, and its protocol. */
  lemma KeyNamesConversation(src: Endpoint, dst: Endpoint, protocol: string)
    ensures var key := KeyOf(src, dst, protocol);
            var first, second := Endpoint(key.srcIp, key.srcPort), Endpoint(key.dstIp, key.dstPort);
            && ((first == src && second == dst) || (first == dst && second == src))
            && AtMost(first, second) && key.protocol == Lower(protocol)
  {
    AtMostIsTotal(src, dst);
  }

  lemma AtMostIsAntisymmetric(a: Endpoint, b: Endpoint)
    requires AtMost(a, b) && AtMost(b, a)
    ensures a == b
  {
    BeforeIsStrict(a.ip);
    if a.ip != b.ip { BeforeIsTotal(a.ip, b.ip); }
  }

  lemma AtMostIsTotal(a: Endpoint, b: Endpoint)
    ensures AtMost(a, b) || AtMost(b, a)
  {
    if a.ip != b.ip { BeforeIsTotal(a.ip, b.ip); }
  }

  /**
   Two packets share a key exactly when they run between the same two endpoints, in either
   direction, and their protocols agree up to letter case.
   */
  lemma SameKeyMeansSameConversation(
    a: Endpoint, b: Endpoint, protocol: string, c: Endpoint, d: Endpoint, protocol': string)
    ensures KeyOf(a, b, protocol) == KeyOf(c, d, protocol')
       <==> Lower(protocol) == Lower(protocol') && ((a == c && b == d) || (a == d && b == c))
  {
    AtMostIsTotal(a, b);
    if AtMost(a, b) && AtMost(b, a) { AtMostIsAntisymmetric(a, b); }
  }

  // ----- The table on values -----

  /** What decides a flow's life and its counters. */
  datatype Flow = Flow(last: real, packets: nat, bytes: int)

  type Table = Dict<FlowKey, Flow>

  /**
   The clock readings of one update: one for the purge, one for each key in table order
   while the longest-idle flow is looked for, and one for the record itself.
   */
  datatype Clock = Clock(purge: real, scan: nat -> real, seen: real)

  ghost predicate Ticks(c: Clock) {
    && (forall i: nat :: c.purge <= c.scan(i) <= c.seen)
    && (forall i: nat, j: nat | i <= j :: c.scan(i) <= c.scan(j))
  }

  function Purged(t: Table, now: real, ttl: real): (r: Table)
    requires Dicts.Valid(t)
    ensures Dicts.Valid(r)
  {
    var alive := set k | k in t.vals && now - t.vals[k].last <= ttl;
    SelectKeepsValid(t, alive);
    Select(t, alive)
  }

  /** How long the i-th flow has been idle when its clock is read. */
  function Idle(t: Table, scan: nat -> real, i: nat): real
    requires i < |t.keys| && t.keys[i] in t.vals
  {
    scan(i) - t.vals[t.keys[i]].last
  }

  /** The first position from i on, or `best`, at which the idle time is greatest. */
  function IdlestFrom(t: Table, scan: nat -> real, i: nat, best: nat): (r: nat)
    requires i <= |t.keys| && best < |t.keys| && forall k | k in t.keys :: k in t.vals
    ensures r < |t.keys|
    decreases |t.keys| - i
  {
    if i == |t.keys| then best
    else IdlestFrom(t, scan, i + 1, if Idle(t, scan, i) > Idle(t, scan, best) then i else best)
  }

  function WithoutIdlest(t: Table, scan: nat -> real): (r: Table)
    requires Dicts.Valid(t)
    ensures Dicts.Valid(r)
  {
    if t.keys == [] then t
    else
      var idlest := t.keys[IdlestFrom(t, scan, 0, 0)];
      SelectKeepsValid(t, t.vals.Keys - {idlest});
      Delete(t, idlest)
  }

  /** The table with a record for the key, new if there was none. */
  function Entered(t: Table, key: FlowKey, seen: real): (r: Table)
    requires Dicts.Valid(t)
    ensures Dicts.Valid(r) && key in r.vals
  {
    if key in t.vals then t else Put(t, key, Flow(seen, 0, 0))
  }

  lemma EnteredAlready(t: Table, key: FlowKey, seen: real)
    requires Dicts.Valid(t) && key in t.vals
    ensures Entered(t, key, seen) == t
  {
  }

  /** One more packet on an existing record. */
  function Counted(t: Table, key: FlowKey, size: int, seen: real): Table
    requires key in t.vals
  {
    t.(vals := t.vals[key := Flow(seen, t.vals[key].packets + 1, t.vals[key].bytes + size)])
  }

  function Touched(t: Table, key: FlowKey, size: int, seen: real): (r: Table)
    requires Dicts.Valid(t)
    ensures Dicts.Valid(r)
  {
    Counted(Entered(t, key, seen), key, size, seen)
  }

  /** The table that a key meets: one flow shorter when the key is new and the table is full. */
  function RoomFor(t: Table, key: FlowKey, maxFlows: int, scan: nat -> real): (r: Table)
    requires Dicts.Valid(t)
    ensures Dicts.Valid(r)
  {
    if key !in t.vals && |t.keys| >= maxFlows then WithoutIdlest(t, scan) else t
  }

  function Updated(t: Table, ttl: real, maxFlows: int, key: FlowKey, size: int, clock: Clock): (r: Table)
    requires Dicts.Valid(t)
    ensures Dicts.Valid(r)
  {
    Touched(RoomFor(Purged(t, clock.purge, ttl), key, maxFlows, clock.scan), key, size, clock.seen)
  }

  // ----- The table in memory -----

  class FlowRecord {
    const key: FlowKey
    var lastSeen: real
    var packetCount: nat
    var byteCount: int
    var valueCoefficient: real

    constructor (key: FlowKey, now: real)
      ensures this.key == key && State() == Flow(now, 0, 0) && valueCoefficient == 1.0
    {
      this.key, lastSeen, packetCount, byteCount, valueCoefficient := key, now, 0, 0, 1.0;
    }

    function State(): Flow
      reads `lastSeen, `packetCount, `byteCount
    {
      Flow(lastSeen, packetCount, byteCount)
    }

    method Update(size: int, now: real)
      modifies `lastSeen, `packetCount, `byteCount
      ensures State() == Flow(now, old(packetCount) + 1, old(byteCount) + size)
    {
      lastSeen := now;
      packetCount := packetCount + 1;
      byteCount := byteCount + size;
    }
  }

  /** The records of a table as values. */
  ghost function Snapshot(records: Dict<FlowKey, FlowRecord>): Table
    reads records.vals.Values`lastSeen, records.vals.Values`packetCount, records.vals.Values`byteCount
  {
    Dict(records.keys, map k | k in records.vals :: records.vals[k].State())
  }

  lemma SnapshotOfSelect(records: Dict<FlowKey, FlowRecord>, kept: set<FlowKey>)
    ensures Snapshot(Select(records, kept)) == Select(Snapshot(records), kept)
    ensures Select(records, kept).vals.Values <= records.vals.Values
  {
  }

  lemma SnapshotOfPut(records: Dict<FlowKey, FlowRecord>, key: FlowKey, record: FlowRecord)
    requires Dicts.Valid(records) && Dicts.Valid(Snapshot(records)) && key !in records.vals
    ensures Snapshot(Put(records, key, record)) == Put(Snapshot(records), key, record.State())
    ensures Put(records, key, record).vals.Values <= records.vals.Values + {record}
  {
  }

  /** All records but the key's are as they were. */
  lemma SnapshotAfterUpdate(records: Dict<FlowKey, FlowRecord>, key: FlowKey, was: Table)
    requires key in records.vals && was.keys == records.keys && was.vals.Keys == records.vals.Keys
    requires forall k | k in records.vals && k != key :: records.vals[k].State() == was.vals[k]
    ensures Snapshot(records) == was.(vals := was.vals[key := records.vals[key].State()])
  {
  }

  lemma SnapshotIsValid(records: Dict<FlowKey, FlowRecord>)
    requires Dicts.Valid(records)
    ensures Dicts.Valid(Snapshot(records)) && Snapshot(records).vals.Keys == records.vals.Keys
  {
  }

  class FlowTracker {
    const ttl: real
    const maxFlows: int
    var table: Dict<FlowKey, FlowRecord>

    ghost predicate Valid()
      reads this
    {
      Dicts.Valid(table) && forall k | k in table.vals :: table.vals[k].key == k
    }

    ghost function Records(): set<FlowRecord>
      reads this
    {
      table.vals.Values
    }

    ghost function State(): Table
      reads this, Records()`lastSeen, Records()`packetCount, Records()`byteCount
    {
      Snapshot(table)
    }

    constructor (ttl: real, maxFlows: int)
      ensures Valid() && State() == EmptyDict() && table == EmptyDict()
      ensures this.ttl == ttl && this.maxFlows == maxFlows
    {
      this.ttl, this.maxFlows, table := ttl, maxFlows, EmptyDict();
    }

    /** The record stored under a key: it carries that key, and the table's value for it is its own. */
    ghost predicate IsRecordOf(record: FlowRecord, key: FlowKey)
      reads this, record`lastSeen, record`packetCount, record`byteCount
      reads Records()`lastSeen, Records()`packetCount, Records()`byteCount
    {
      && key in table.vals && table.vals[key] == record && record.key == key
      && key in State().vals && State().vals[key] == record.State()
    }

    method EvictExpired(now: real)
      requires Valid()
      modifies `table
      ensures Valid() && State() == Purged(old(State()), now, ttl) && Records() <= old(Records())
    {
      hide Dicts.Valid, Filter;
      var expired := set k | k in table.vals && now - table.vals[k].lastSeen > ttl;
      SnapshotOfSelect(table, table.vals.Keys - expired);
      assert table.vals.Keys - expired
          == set k | k in Snapshot(table).vals && now - Snapshot(table).vals[k].last <= ttl;
      table := DeleteAll(table, expired);
    }

    /** Where the flow that has been idle longest sits; every key's idle time is read in turn. */
    method FindIdlest(scan: nat -> real) returns (best: nat)
      requires Valid() && table.keys != []
      ensures best < |table.keys| && best == IdlestFrom(State(), scan, 0, 0)
    {
      best := 0;
      for i := 0 to |table.keys|
        invariant best < |table.keys|
        invariant IdlestFrom(State(), scan, i, best) == IdlestFrom(State(), scan, 0, 0)
      {
        var here, there := table.vals[table.keys[i]], table.vals[table.keys[best]];
        if scan(i) - here.lastSeen > scan(best) - there.lastSeen {
          best := i;
        }
      }
    }

    method EvictOldest(scan: nat -> real)
      requires Valid()
      modifies `table
      ensures Valid() && State() == WithoutIdlest(old(State()), scan) && Records() <= old(Records())
      ensures table.vals.Keys <= old(table.vals.Keys)
    {
      hide Distinct, Filter, IdlestFrom;
      if table.keys == [] {
        return;
      }
      var best := FindIdlest(scan);
      var kept := table.vals.Keys - {table.keys[best]};
      SnapshotIsValid(table);
      SnapshotOfSelect(table, kept);
      SelectKeepsValid(table, kept);
      table := Delete(table, table.keys[best]);
    }

    method Insert(key: FlowKey, now: real)
      requires Valid() && key !in table.vals
      modifies `table
      ensures Valid() && State() == Entered(old(State()), key, now) && key in table.vals
      ensures fresh(Records() - old(Records()))
    {
      hide Distinct, Snapshot;
      var record := new FlowRecord(key, now);
      SnapshotIsValid(table);
      SnapshotOfPut(table, key, record);
      table := Put(table, key, record);
    }

    /** The part of an update that runs under the lock: purge, make room, find or create. */
    method Enter(key: FlowKey, clock: Clock)
      requires Valid()
      modifies `table
      ensures Valid() && key in table.vals
      ensures State() == Entered(RoomFor(Purged(old(State()), clock.purge, ttl), key, maxFlows, clock.scan), key, clock.seen)
      ensures fresh(Records() - old(Records()))
    {
      hide Distinct, Purged, WithoutIdlest, Entered;
      EvictExpired(clock.purge);
      SnapshotIsValid(table);
      if key !in table.vals {
        if |table.keys| >= maxFlows {
          EvictOldest(clock.scan);
        }
        Insert(key, clock.seen);
      } else {
        EnteredAlready(State(), key, clock.seen);
      }
    }

    /** The part after the lock is released: the record counts the packet. */
    method Count(key: FlowKey, size: int, now: real) returns (record: FlowRecord)
      requires Valid() && key in table.vals
      modifies Records()`lastSeen, Records()`packetCount, Records()`byteCount
      ensures Valid() && table == old(table)
      ensures State() == Counted(old(State()), key, size, now)
      ensures record in Records() && IsRecordOf(record, key) && record.lastSeen == now
    {
      hide Distinct;
      record := table.vals[key];
      ghost var was := State();
      assert forall k | k in table.vals && k != key :: table.vals[k] != record;
      record.Update(size, now);
      SnapshotAfterUpdate(table, key, was);
    }

    method Update(src: Endpoint, dst: Endpoint, protocol: string, size: int, clock: Clock) returns (record: FlowRecord)
      requires Valid()
      modifies this, Records()`lastSeen, Records()`packetCount, Records()`byteCount
      ensures Valid()
      ensures State() == Updated(old(State()), ttl, maxFlows, KeyOf(src, dst, protocol), size, clock)
      ensures record in Records() && fresh(Records() - old(Records()))
      ensures IsRecordOf(record, KeyOf(src, dst, protocol)) && record.lastSeen == clock.seen
    {
      hide Distinct, KeyOf, Purged, RoomFor, Entered, Counted, IsRecordOf;
      SnapshotIsValid(table);
      Enter(KeyOf(src, dst, protocol), clock);
      record := Count(KeyOf(src, dst, protocol), size, clock.seen);
    }
  }
}
