/** The capped connection table: admission, the four ways out, and the flows they hand on. */
module ConnectionTable {
  import opened Sequences
  import opened Bytes
  import opened TcpConnection
  import opened TcpFirstSeen
  import opened FlowStatistics

  datatype ConnectionId = ConnectionId(srcIp: nat, dstIp: nat, srcPort: nat, dstPort: nat)

  datatype FlowData = FlowData(id: ConnectionId, payload: seq<byte>, timestamp: real, packetCount: nat,
                               interArrivalTime: real, lengthVariance: real)

  const MAX_CONNECTIONS: nat := 50000
  const AGGRESSIVE_TIMEOUT: real := 5.0
  const CONNECTION_TIMEOUT: real := 120.0
  const EVICTION_INTERVAL: real := 60.0
  const FORCE_EVICT_INTERVAL: real := 1.0

  type Table = map<ConnectionId, Conn>

  /** A flow pushed to the output queue, with the number of its leading bytes that were reassembled
      in order and the packets its connection had received. */
  datatype Emission = Emission(flow: FlowData, reassembled: nat, packets: seq<Packet>)

  /** The table, the packets behind every entry, everything pushed so far, and how many bytes
      reassembly ever delivered. */
  datatype System = System(table: Table, history: map<ConnectionId, seq<Packet>>, emitted: seq<Emission>,
                           shed: nat, lastForceEvict: real, lastEviction: real, delivered: nat)

  datatype Operation =
    | PacketIn(id: ConnectionId, packet: Packet)
    | CheckComplete
    | EvictStale(now: real)
    | FlushAll

  // ---------------------------------------------------------------- who leaves, and with what

  predicate IdleAndEmpty(c: Conn, now: real) {
    c.stream.payload == [] && now - c.stats.lastTime > AGGRESSIVE_TIMEOUT
  }

  predicate Stale(c: Conn, now: real) {
    now - c.stats.lastTime > CONNECTION_TIMEOUT
  }

  predicate Finished(c: Conn, maxPayload: nat) {
    c.finReceived || |c.stream.payload| > maxPayload
  }

  /** At the final flush, a lone packet without payload leaves no flow behind. */
  predicate Silent(c: Conn) {
    c.stream.payload == [] && c.stats.count < 2
  }

  function FlowOf(id: ConnectionId, s: Stats, payload: seq<byte>): FlowData
    requires s.count > 0
  {
    FlowData(id, payload, s.lastTime, s.count, InterArrivalTime(s), LengthVariance(s))
  }

  function EmissionOf(id: ConnectionId, c: Conn, packets: seq<Packet>, merge: bool): Emission
    requires c.stats.count > 0
  {
    Emission(FlowOf(id, c.stats, c.stream.payload + if merge then Leftover(c.stream.pending) else []),
             |c.stream.payload|, packets)
  }

  predicate AllCounted(t: Table) {
    forall id | id in t :: t[id].stats.count > 0
  }

  /** `es` holds exactly one emission for each of `ids`, in some order. */
  ghost predicate EmittedFor(s: System, ids: set<ConnectionId>, merge: bool, es: seq<Emission>) {
    if es == [] then ids == {}
    else
      var n := |es| - 1;
      var id := es[n].flow.id;
      && id in ids && id in s.table && id in s.history && s.table[id].stats.count > 0
      && es[n] == EmissionOf(id, s.table[id], s.history[id], merge)
      && EmittedFor(s, ids - {id}, merge, es[..n])
  }

  // ---------------------------------------------------------------- one operation

  function Remove(s: System, ids: set<ConnectionId>): System {
    s.(table := s.table - ids, history := s.history - ids)
  }

  function IdleIds(t: Table, now: real): set<ConnectionId> {
    set id | id in t && IdleAndEmpty(t[id], now)
  }

  function ForceEvict(s: System, now: real): System {
    if now - s.lastForceEvict < FORCE_EVICT_INTERVAL then s
    else Remove(s, IdleIds(s.table, now)).(lastForceEvict := now)
  }

  /** Applies the packet to the entry, new or existing. */
  function Receive(s: System, id: ConnectionId, p: Packet): System {
    var before := if id in s.table then s.table[id] else FRESH;
    var packets := if id in s.history then s.history[id] else [];
    Put(s, id, packets + [p], Step(before, p), |Step(before, p).stream.payload| - |before.stream.payload|)
  }

  function Put(s: System, id: ConnectionId, packets: seq<Packet>, c: Conn, gained: int): System {
    s.(table := s.table[id := c],
       history := s.history[id := packets],
       delivered := if gained >= 0 then s.delivered + gained else s.delivered)
  }

  /** A new connection on a full table needs room made for it, or is shed. */
  function ProcessPacket(s: System, id: ConnectionId, p: Packet): System {
    if id in s.table || |s.table| < MAX_CONNECTIONS then Receive(s, id, p)
    else
      var e := ForceEvict(s, p.time);
      if |e.table| < MAX_CONNECTIONS then Receive(e, id, p) else e.(shed := e.shed + 1)
  }

  ghost predicate Sweeps(s: System, leaving: set<ConnectionId>, emitting: set<ConnectionId>, merge: bool, s': System) {
    exists es :: EmittedFor(s, emitting, merge, es) && s' == Remove(s, leaving).(emitted := s.emitted + es)
  }

  function FinishedIds(t: Table, maxPayload: nat): set<ConnectionId> {
    set id | id in t && Finished(t[id], maxPayload)
  }

  function StaleIds(t: Table, now: real): set<ConnectionId> {
    set id | id in t && Stale(t[id], now)
  }

  function WithPayload(t: Table, ids: set<ConnectionId>): set<ConnectionId> {
    set id | id in ids && id in t && t[id].stream.payload != []
  }

  function NotSilent(t: Table): set<ConnectionId> {
    set id | id in t && !Silent(t[id])
  }

  ghost predicate CompletesFinished(s: System, maxPayload: nat, s': System) {
    var done := FinishedIds(s.table, maxPayload);
    Sweeps(s, done, done, true, s')
  }

  ghost predicate RemovesStale(s: System, now: real, s': System) {
    var stale := StaleIds(s.table, now);
    Sweeps(s, stale, WithPayload(s.table, stale), false, s')
  }

  ghost predicate FlushesRemaining(s: System, s': System) {
    Sweeps(s, s.table.Keys, NotSilent(s.table), true, s')
  }

  ghost predicate Next(s: System, op: Operation, maxPayload: nat, s': System) {
    match op
    case PacketIn(id, p) => s' == ProcessPacket(s, id, p)
    case CheckComplete => CompletesFinished(s, maxPayload, s')
    case EvictStale(now) =>
      if now - s.lastEviction < EVICTION_INTERVAL then s' == s
      else RemovesStale(s.(lastEviction := now), now, s')
    case FlushAll =>
      exists mid :: CompletesFinished(s, maxPayload, mid) && FlushesRemaining(mid, s')
  }

  // ---------------------------------------------------------------- byte accounting

  ghost function BytesIn(t: Table, ids: set<ConnectionId>): nat
    requires ids <= t.Keys
  {
    if ids == {} then 0
    else
      var id :| id in ids;
      |t[id].stream.payload| + BytesIn(t, ids - {id})
  }

  lemma {:induction false} BytesInRemove(t: Table, ids: set<ConnectionId>, id: ConnectionId)
    requires ids <= t.Keys && id in ids
    ensures BytesIn(t, ids) == |t[id].stream.payload| + BytesIn(t, ids - {id})
  {
    var first :| first in ids && BytesIn(t, ids) == |t[first].stream.payload| + BytesIn(t, ids - {first});
    if first != id {
      BytesInRemove(t, ids - {first}, id);
      BytesInRemove(t, ids - {id}, first);
      assert ids - {first} - {id} == ids - {id} - {first};
    }
  }

  lemma {:induction false} BytesInSame(t: Table, u: Table, ids: set<ConnectionId>)
    requires ids <= t.Keys && ids <= u.Keys
    requires forall id | id in ids :: t[id].stream.payload == u[id].stream.payload
    ensures BytesIn(t, ids) == BytesIn(u, ids)
  {
    if ids != {} {
      var id :| id in ids;
      BytesInRemove(t, ids, id);
      BytesInRemove(u, ids, id);
      BytesInSame(t, u, ids - {id});
    }
  }

  lemma {:induction false} BytesInSplit(t: Table, a: set<ConnectionId>, b: set<ConnectionId>)
    requires a <= t.Keys && b <= t.Keys && a !! b
    ensures BytesIn(t, a + b) == BytesIn(t, a) + BytesIn(t, b)
  {
    if a == {} {
      assert a + b == b;
    } else {
      var id :| id in a;
      BytesInRemove(t, a, id);
      BytesInRemove(t, a + b, id);
      assert a + b - {id} == (a - {id}) + b;
      BytesInSplit(t, a - {id}, b);
    }
  }

  lemma {:induction false} NoBytes(t: Table, ids: set<ConnectionId>)
    requires ids <= t.Keys && forall id | id in ids :: t[id].stream.payload == []
    ensures BytesIn(t, ids) == 0
  {
    if ids != {} {
      var id :| id in ids;
      BytesInRemove(t, ids, id);
      NoBytes(t, ids - {id});
    }
  }

  function ReassembledBytes(es: seq<Emission>): nat {
    if es == [] then 0 else ReassembledBytes(es[..|es| - 1]) + es[|es| - 1].reassembled
  }

  lemma {:induction false} ReassembledBytesConcat(a: seq<Emission>, b: seq<Emission>)
    ensures ReassembledBytes(a + b) == ReassembledBytes(a) + ReassembledBytes(b)
  {
    if b == [] {
      assert a + b == a;
    } else {
      var n := |b| - 1;
      assert (a + b)[..|a| + n] == a + b[..n];
      ReassembledBytesConcat(a, b[..n]);
    }
  }

  lemma {:induction false} EmissionsCarryBytes(s: System, ids: set<ConnectionId>, merge: bool, es: seq<Emission>)
    requires ids <= s.table.Keys && EmittedFor(s, ids, merge, es)
    ensures ReassembledBytes(es) == BytesIn(s.table, ids)
  {
    if es != [] {
      var n := |es| - 1;
      var id := es[n].flow.id;
      EmissionsCarryBytes(s, ids - {id}, merge, es[..n]);
      BytesInRemove(s.table, ids, id);
    }
  }

  // ---------------------------------------------------------------- the invariant

  /** The emitted flow is what its packets say it should be. */
  ghost predicate Accurate(e: Emission) {
    && e.packets != []
    && var c := Run(FRESH, e.packets);
       && e.reassembled == |c.stream.payload|
       && c.stream.payload <= e.flow.payload
       && c.stats.count > 0
       && e.flow == FlowOf(e.flow.id, c.stats, e.flow.payload)
  }

  ghost predicate Consistent(s: System) {
    && s.history.Keys == s.table.Keys
    && (forall id | id in s.table :: s.history[id] != [] && s.table[id] == Run(FRESH, s.history[id]))
    && AllCounted(s.table)
  }

  ghost predicate Balanced(s: System) {
    s.delivered == BytesIn(s.table, s.table.Keys) + ReassembledBytes(s.emitted)
  }

  ghost predicate AllAccurate(es: seq<Emission>) {
    forall i | 0 <= i < |es| :: Accurate(es[i])
  }

  ghost predicate Invariant(s: System) {
    && |s.table| <= MAX_CONNECTIONS
    && Consistent(s)
    && AllAccurate(s.emitted)
    && Balanced(s)
  }

  const EMPTY_SYSTEM: System := System(map[], map[], [], 0, 0.0, 0.0, 0)

  lemma EmptySystemInvariant()
    ensures Invariant(EMPTY_SYSTEM)
  {
    NoBytes(map[], {});
  }

  lemma TableShrinks(t: Table, ids: set<ConnectionId>)
    ensures |t - ids| <= |t|
  {
    assert (t - ids).Keys <= t.Keys;
    SubsetSize((t - ids).Keys, t.Keys);
    assert |t - ids| == |(t - ids).Keys|;
    assert |t| == |t.Keys|;
  }

  lemma RemoveBalance(s: System, leaving: set<ConnectionId>, emitting: set<ConnectionId>)
    requires emitting <= leaving <= s.table.Keys
    requires forall id | id in leaving && id !in emitting :: s.table[id].stream.payload == []
    ensures BytesIn(s.table, s.table.Keys) == BytesIn(Remove(s, leaving).table, Remove(s, leaving).table.Keys)
                                              + BytesIn(s.table, emitting)
  {
    var t := Remove(s, leaving).table;
    assert s.table.Keys == t.Keys + leaving;
    BytesInSplit(s.table, t.Keys, leaving);
    assert leaving == emitting + (leaving - emitting);
    BytesInSplit(s.table, emitting, leaving - emitting);
    NoBytes(s.table, leaving - emitting);
    BytesInSame(s.table, t, t.Keys);
  }

  lemma {:induction false} EmissionsAccurate(s: System, ids: set<ConnectionId>, merge: bool, es: seq<Emission>)
    requires Consistent(s) && EmittedFor(s, ids, merge, es)
    ensures AllAccurate(es)
  {
    if es != [] {
      var n := |es| - 1;
      EmissionsAccurate(s, ids - {es[n].flow.id}, merge, es[..n]);
      hide Run;
      assert Accurate(es[n]);
      forall i | 0 <= i < |es|
        ensures Accurate(es[i])
      {
        if i < n {
          assert es[..n][i] == es[i];
        }
      }
    }
  }

  lemma RemoveKeepsConsistent(s: System, leaving: set<ConnectionId>, emitted: seq<Emission>)
    requires Consistent(s)
    ensures Consistent(Remove(s, leaving).(emitted := emitted))
  {
    hide Run;
  }

  lemma SweepKeepsBalanced(s: System, leaving: set<ConnectionId>, emitting: set<ConnectionId>, merge: bool,
                           es: seq<Emission>)
    requires Balanced(s) && emitting <= leaving <= s.table.Keys && EmittedFor(s, emitting, merge, es)
    requires forall id | id in leaving && id !in emitting :: s.table[id].stream.payload == []
    ensures Balanced(Remove(s, leaving).(emitted := s.emitted + es))
  {
    hide EmittedFor;
    EmissionsCarryBytes(s, emitting, merge, es);
    ReassembledBytesConcat(s.emitted, es);
    RemoveBalance(s, leaving, emitting);
  }

  lemma SweepKeepsInvariant(s: System, leaving: set<ConnectionId>, emitting: set<ConnectionId>, merge: bool, s': System)
    requires Invariant(s) && emitting <= leaving <= s.table.Keys
    requires forall id | id in leaving && id !in emitting :: s.table[id].stream.payload == []
    requires Sweeps(s, leaving, emitting, merge, s')
    ensures Invariant(s')
  {
    hide EmittedFor, Consistent, Balanced, AllAccurate;
    var es :| EmittedFor(s, emitting, merge, es) && s' == Remove(s, leaving).(emitted := s.emitted + es);
    EmissionsAccurate(s, emitting, merge, es);
    AccurateConcat(s.emitted, es);
    RemoveKeepsConsistent(s, leaving, s.emitted + es);
    SweepKeepsBalanced(s, leaving, emitting, merge, es);
    TableShrinks(s.table, leaving);
  }

  lemma AccurateConcat(a: seq<Emission>, b: seq<Emission>)
    requires AllAccurate(a) && AllAccurate(b)
    ensures AllAccurate(a + b)
  {
    hide Accurate;
  }

  lemma ForceEvictKeepsInvariant(s: System, now: real)
    requires Invariant(s)
    ensures Invariant(ForceEvict(s, now))
  {
    var leaving := IdleIds(s.table, now);
    if now - s.lastForceEvict >= FORCE_EVICT_INTERVAL {
      RemoveBalance(s, leaving, {});
      TableShrinks(s.table, leaving);
    }
  }

  lemma StepFacts(c: Conn, packets: seq<Packet>, p: Packet)
    requires c == Run(FRESH, packets)
    ensures Step(c, p) == Run(FRESH, packets + [p])
    ensures Step(c, p).stats.count > 0
    ensures |c.stream.payload| <= |Step(c, p).stream.payload|
  {
    assert (packets + [p])[..|packets|] == packets;
    hide StreamStep;
    FirstSeenWinsOverRuns(packets, 0);
    FirstSeenWins(c, p);
  }

  lemma PutKeepsConsistent(s: System, id: ConnectionId, packets: seq<Packet>, c: Conn, gained: nat)
    requires Consistent(s)
    requires packets != [] && c == Run(FRESH, packets) && c.stats.count > 0
    ensures Consistent(Put(s, id, packets, c, gained))
  {
    hide Run;
  }

  lemma PutKeepsBalanced(s: System, id: ConnectionId, packets: seq<Packet>, c: Conn, gained: nat)
    requires Balanced(s)
    requires |c.stream.payload| == gained + if id in s.table then |s.table[id].stream.payload| else 0
    ensures Balanced(Put(s, id, packets, c, gained))
  {
    var u := s.table[id := c];
    assert u.Keys == s.table.Keys + {id};
    BytesInRemove(u, u.Keys, id);
    assert u.Keys - {id} == s.table.Keys - {id};
    BytesInSame(s.table, u, s.table.Keys - {id});
    if id in s.table {
      BytesInRemove(s.table, s.table.Keys, id);
    } else {
      assert s.table.Keys - {id} == s.table.Keys;
    }
  }

  lemma PutSize(t: Table, id: ConnectionId, c: Conn)
    ensures |t[id := c]| == if id in t then |t| else |t| + 1
  {
    var u := t[id := c];
    assert u.Keys == t.Keys + {id};
    assert |u| == |u.Keys| && |t| == |t.Keys|;
    if id in t {
      assert u.Keys == t.Keys;
    }
  }

  lemma PutKeepsInvariant(s: System, id: ConnectionId, packets: seq<Packet>, c: Conn, gained: nat)
    requires Invariant(s) && (id in s.table || |s.table| < MAX_CONNECTIONS)
    requires packets != [] && c == Run(FRESH, packets) && c.stats.count > 0
    requires |c.stream.payload| == gained + if id in s.table then |s.table[id].stream.payload| else 0
    ensures Invariant(Put(s, id, packets, c, gained))
  {
    hide Run, Consistent, Balanced, AllAccurate;
    PutKeepsConsistent(s, id, packets, c, gained);
    PutKeepsBalanced(s, id, packets, c, gained);
    PutSize(s.table, id, c);
  }

  /** The entry a packet meets, and the packets behind it. */
  function EntryOf(s: System, id: ConnectionId): Conn {
    if id in s.table then s.table[id] else FRESH
  }

  function PacketsOf(s: System, id: ConnectionId): seq<Packet> {
    if id in s.history then s.history[id] else []
  }

  lemma EntryIsRun(s: System, id: ConnectionId)
    requires Invariant(s)
    ensures EntryOf(s, id) == Run(FRESH, PacketsOf(s, id))
  {
    hide Balanced, AllAccurate;
    assert Run(FRESH, []) == FRESH;
  }

  lemma ReceiveKeepsInvariant(s: System, id: ConnectionId, p: Packet)
    requires Invariant(s) && (id in s.table || |s.table| < MAX_CONNECTIONS)
    ensures Invariant(Receive(s, id, p))
  {
    hide Invariant, Run, Step, Put;
    EntryIsRun(s, id);
    StepFacts(EntryOf(s, id), PacketsOf(s, id), p);
    var c := Step(EntryOf(s, id), p);
    PutKeepsInvariant(s, id, PacketsOf(s, id) + [p], c,
                      |c.stream.payload| - |EntryOf(s, id).stream.payload|);
  }

  lemma PacketKeepsInvariant(s: System, id: ConnectionId, p: Packet)
    requires Invariant(s)
    ensures Invariant(ProcessPacket(s, id, p))
  {
    hide ForceEvict, Receive, Invariant;
    if id in s.table || |s.table| < MAX_CONNECTIONS {
      ReceiveKeepsInvariant(s, id, p);
    } else {
      ForceEvictKeepsInvariant(s, p.time);
      var e := ForceEvict(s, p.time);
      if |e.table| < MAX_CONNECTIONS {
        ReceiveKeepsInvariant(e, id, p);
      } else {
        SheddingKeepsInvariant(e);
      }
    }
  }

  lemma SheddingKeepsInvariant(s: System)
    requires Invariant(s)
    ensures Invariant(s.(shed := s.shed + 1))
  {
  }

  lemma CompletionKeepsInvariant(s: System, maxPayload: nat, s': System)
    requires Invariant(s) && CompletesFinished(s, maxPayload, s')
    ensures Invariant(s')
  {
    hide Invariant, Sweeps, Finished;
    var done := FinishedIds(s.table, maxPayload);
    SweepKeepsInvariant(s, done, done, true, s');
  }

  lemma StaleRemovalKeepsInvariant(s: System, now: real, s': System)
    requires Invariant(s) && RemovesStale(s, now, s')
    ensures Invariant(s')
  {
    hide Invariant, Sweeps, Stale;
    var stale := StaleIds(s.table, now);
    SweepKeepsInvariant(s, stale, WithPayload(s.table, stale), false, s');
  }

  lemma FlushKeepsInvariant(s: System, s': System)
    requires Invariant(s) && FlushesRemaining(s, s')
    ensures Invariant(s')
  {
    hide Invariant, Sweeps;
    SweepKeepsInvariant(s, s.table.Keys, NotSilent(s.table), true, s');
  }

  /** Every operation keeps the table within its cap, every entry equal to the outcome of its own
      packets, every pushed flow accurate, and the byte balance exact. */
  lemma NextKeepsInvariant(s: System, op: Operation, maxPayload: nat, s': System)
    requires Invariant(s) && Next(s, op, maxPayload, s')
    ensures Invariant(s')
  {
    hide Invariant, CompletesFinished, RemovesStale, FlushesRemaining, ProcessPacket;
    match op
    case PacketIn(id, p) => PacketKeepsInvariant(s, id, p);
    case CheckComplete => CompletionKeepsInvariant(s, maxPayload, s');
    case EvictStale(now) =>
      if now - s.lastEviction >= EVICTION_INTERVAL {
        EvictionTimeIrrelevant(s, now);
        StaleRemovalKeepsInvariant(s.(lastEviction := now), now, s');
      }
    case FlushAll =>
      var mid :| CompletesFinished(s, maxPayload, mid) && FlushesRemaining(mid, s');
      CompletionKeepsInvariant(s, maxPayload, mid);
      FlushKeepsInvariant(mid, s');
  }

  lemma EvictionTimeIrrelevant(s: System, now: real)
    requires Invariant(s)
    ensures Invariant(s.(lastEviction := now))
  {
  }

  // ---------------------------------------------------------------- whole runs

  ghost predicate IsRun(states: seq<System>, ops: seq<Operation>, maxPayload: nat) {
    && |states| == |ops| + 1
    && states[0] == EMPTY_SYSTEM
    && forall i | 0 <= i < |ops| :: Next(states[i], ops[i], maxPayload, states[i + 1])
  }

  /** Connection-table conservation over whole runs of any operations on any packets. */
  lemma {:induction false} RunsKeepInvariant(states: seq<System>, ops: seq<Operation>, maxPayload: nat, n: nat)
    requires IsRun(states, ops, maxPayload) && n < |states|
    ensures Invariant(states[n])
  {
    if n > 0 {
      RunsKeepInvariant(states, ops, maxPayload, n - 1);
      NextKeepsInvariant(states[n - 1], ops[n - 1], maxPayload, states[n]);
    }
  }

  /** The payload and statistics on every flow ever pushed are those of its connection's packets. */
  lemma PushedFlowsAreAccurate(states: seq<System>, ops: seq<Operation>, maxPayload: nat, n: nat, i: nat)
    requires IsRun(states, ops, maxPayload) && n < |states| && i < |states[n].emitted|
    ensures var e := states[n].emitted[i];
            var ps := e.packets;
            && ps != []
            && Run(FRESH, ps).stream.payload <= e.flow.payload
            && e.reassembled == |Run(FRESH, ps).stream.payload|
            && e.flow.packetCount == |ps|
            && e.flow.timestamp == ps[|ps| - 1].time
            && e.flow.lengthVariance == PopulationVariance(ps) >= 0.0
            && e.flow.interArrivalTime * ((|ps| - 1) as real) == ps[|ps| - 1].time - ps[0].time
            && (|ps| == 1 ==> e.flow.interArrivalTime == 0.0)
  {
    hide IsRun, Run, LengthVariance, InterArrivalTime, PopulationVariance, Consistent, Balanced;
    RunsKeepInvariant(states, ops, maxPayload, n);
    var e := states[n].emitted[i];
    assert Accurate(e);
    EmittedVarianceIsVariance(e.packets);
    InterArrivalTelescopes(e.packets);
  }
}
