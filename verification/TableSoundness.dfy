/** From the packets of a connection to the flows pushed for it. */
module TableSoundness {
  import opened SerialNumbers
  import opened Bytes
  import opened TcpConnection
  import opened TcpSoundness
  import opened ConnectionTable

  /** The packets that arrived for a connection, in order. */
  function Received(ops: seq<Operation>, id: ConnectionId): seq<Packet> {
    if ops == [] then []
    else
      var op := ops[|ops| - 1];
      Received(ops[..|ops| - 1], id) + if op.PacketIn? && op.id == id then [op.packet] else []
  }

  predicate IsSuffix<T(==)>(a: seq<T>, b: seq<T>) {
    |a| <= |b| && a == b[|b| - |a|..]
  }

  predicate PartAt<T(==)>(a: seq<T>, b: seq<T>, k: nat) {
    k + |a| <= |b| && b[k..k + |a|] == a
  }

  /** A contiguous part. */
  ghost predicate IsPart<T>(a: seq<T>, b: seq<T>) {
    exists k: nat :: PartAt(a, b, k)
  }

  /** The packets behind an entry are the latest of its connection, those behind a pushed flow are some
      that arrived one after the other. */
  ghost predicate Traced(s: System, ops: seq<Operation>) {
    && (forall id | id in s.history :: IsSuffix(s.history[id], Received(ops, id)))
    && TracedFlows(s.emitted, ops)
  }

  ghost predicate TracedFlows(es: seq<Emission>, ops: seq<Operation>) {
    forall i | 0 <= i < |es| :: IsPart(es[i].packets, Received(ops, es[i].flow.id))
  }

  lemma ReceivedMore(ops: seq<Operation>, op: Operation, id: ConnectionId)
    ensures Received(ops + [op], id)
            == Received(ops, id) + if op.PacketIn? && op.id == id then [op.packet] else []
  {
    assert (ops + [op])[..|ops|] == ops;
  }

  lemma SuffixIsPart<T>(a: seq<T>, b: seq<T>)
    requires IsSuffix(a, b)
    ensures IsPart(a, b)
  {
    assert PartAt(a, b, |b| - |a|);
  }

  lemma PartOfMore<T>(a: seq<T>, b: seq<T>, more: seq<T>)
    requires IsPart(a, b)
    ensures IsPart(a, b + more)
  {
    var k: nat :| PartAt(a, b, k);
    assert (b + more)[k..k + |a|] == a;
    assert PartAt(a, b + more, k);
  }

  lemma SuffixGrows<T>(a: seq<T>, b: seq<T>, x: T)
    requires IsSuffix(a, b)
    ensures IsSuffix(a + [x], b + [x])
  {
  }

  lemma FlowsStayTraced(es: seq<Emission>, ops: seq<Operation>, op: Operation)
    requires TracedFlows(es, ops)
    ensures TracedFlows(es, ops + [op])
  {
    hide IsPart;
    forall i | 0 <= i < |es|
      ensures IsPart(es[i].packets, Received(ops + [op], es[i].flow.id))
    {
      var id := es[i].flow.id;
      ReceivedMore(ops, op, id);
      PartOfMore(es[i].packets, Received(ops, id), if op.PacketIn? && op.id == id then [op.packet] else []);
    }
  }

  /** An operation that brings no packet for a stored connection leaves the trace as it is. */
  lemma StaysTraced(s: System, ops: seq<Operation>, op: Operation)
    requires Traced(s, ops) && (op.PacketIn? ==> op.id !in s.history)
    ensures Traced(s, ops + [op])
  {
    FlowsStayTraced(s.emitted, ops, op);
    hide TracedFlows;
    forall id | id in s.history
      ensures IsSuffix(s.history[id], Received(ops + [op], id))
    {
      ReceivedMore(ops, op, id);
      assert Received(ops, id) + [] == Received(ops, id);
    }
  }

  lemma ReceiveStaysTraced(s: System, ops: seq<Operation>, id: ConnectionId, p: Packet)
    requires Traced(s, ops)
    ensures Traced(Receive(s, id, p), ops + [PacketIn(id, p)])
  {
    var op := PacketIn(id, p);
    FlowsStayTraced(s.emitted, ops, op);
    hide TracedFlows, Step;
    var t := Receive(s, id, p);
    forall other | other in t.history
      ensures IsSuffix(t.history[other], Received(ops + [op], other))
    {
      ReceivedMore(ops, op, other);
      if other == id {
        var before := if id in s.history then s.history[id] else [];
        assert IsSuffix(before, Received(ops, id));
        SuffixGrows(before, Received(ops, id), p);
      } else {
        assert Received(ops, other) + [] == Received(ops, other);
      }
    }
  }

  lemma RemoveStaysTraced(s: System, ops: seq<Operation>, ids: set<ConnectionId>)
    requires Traced(s, ops)
    ensures Traced(Remove(s, ids), ops)
  {
    hide IsSuffix, TracedFlows;
  }

  lemma EvictStaysTraced(s: System, ops: seq<Operation>, now: real)
    requires Traced(s, ops)
    ensures Traced(ForceEvict(s, now), ops)
  {
    RemoveStaysTraced(s, ops, IdleIds(s.table, now));
    hide IsSuffix, TracedFlows;
  }

  lemma ShedStaysTraced(s: System, ops: seq<Operation>, id: ConnectionId, p: Packet)
    requires Traced(s, ops) && id !in s.history
    ensures Traced(s.(shed := s.shed + 1), ops + [PacketIn(id, p)])
  {
    StaysTraced(s, ops, PacketIn(id, p));
    hide IsSuffix, TracedFlows, Received;
  }

  lemma EvictingAddsNoEntry(s: System, now: real, id: ConnectionId)
    requires id !in s.history
    ensures id !in ForceEvict(s, now).history
  {
  }

  lemma PacketStaysTraced(s: System, ops: seq<Operation>, id: ConnectionId, p: Packet)
    requires Traced(s, ops) && s.history.Keys == s.table.Keys
    ensures Traced(ProcessPacket(s, id, p), ops + [PacketIn(id, p)])
  {
    hide Traced, Receive, ForceEvict;
    if id in s.table || |s.table| < MAX_CONNECTIONS {
      ReceiveStaysTraced(s, ops, id, p);
    } else {
      var e := ForceEvict(s, p.time);
      EvictStaysTraced(s, ops, p.time);
      EvictingAddsNoEntry(s, p.time, id);
      if |e.table| < MAX_CONNECTIONS {
        ReceiveStaysTraced(e, ops, id, p);
      } else {
        ShedStaysTraced(e, ops, id, p);
      }
    }
  }

  lemma {:induction false} EmittedAreTraced(s: System, ids: set<ConnectionId>, merge: bool, es: seq<Emission>,
                                            ops: seq<Operation>)
    requires Traced(s, ops) && EmittedFor(s, ids, merge, es)
    ensures TracedFlows(es, ops)
  {
    if es != [] {
      var n := |es| - 1;
      LastEmission(s, ids, merge, es);
      hide EmittedFor, Traced;
      EmittedAreTraced(s, ids - {es[n].flow.id}, merge, es[..n], ops);
      EntryIsTraced(s, ops, es[n].flow.id);
      OneFlowMore(es[..n], es[n], ops);
      assert es == es[..n] + [es[n]];
    }
  }

  lemma LastEmission(s: System, ids: set<ConnectionId>, merge: bool, es: seq<Emission>)
    requires es != [] && EmittedFor(s, ids, merge, es)
    ensures var n := |es| - 1; var id := es[n].flow.id;
            && id in s.history && es[n].packets == s.history[id]
            && EmittedFor(s, ids - {id}, merge, es[..n])
  {
  }

  lemma EntryIsTraced(s: System, ops: seq<Operation>, id: ConnectionId)
    requires Traced(s, ops) && id in s.history
    ensures IsPart(s.history[id], Received(ops, id))
  {
    hide TracedFlows, Received;
    SuffixIsPart(s.history[id], Received(ops, id));
  }

  lemma OneFlowMore(es: seq<Emission>, e: Emission, ops: seq<Operation>)
    requires TracedFlows(es, ops) && IsPart(e.packets, Received(ops, e.flow.id))
    ensures TracedFlows(es + [e], ops)
  {
    hide IsPart, Received;
  }

  lemma FlowsConcat(a: seq<Emission>, b: seq<Emission>, ops: seq<Operation>)
    requires TracedFlows(a, ops) && TracedFlows(b, ops)
    ensures TracedFlows(a + b, ops)
  {
    hide IsPart;
  }

  lemma SweepStaysTraced(s: System, ops: seq<Operation>, leaving: set<ConnectionId>, emitting: set<ConnectionId>,
                         merge: bool, s': System)
    requires Traced(s, ops) && Sweeps(s, leaving, emitting, merge, s')
    ensures Traced(s', ops)
  {
    hide EmittedFor;
    var es :| EmittedFor(s, emitting, merge, es) && s' == Remove(s, leaving).(emitted := s.emitted + es);
    EmittedAreTraced(s, emitting, merge, es, ops);
    FlowsConcat(s.emitted, es, ops);
    RemoveStaysTraced(s, ops, leaving);
    hide IsSuffix, TracedFlows;
  }

  lemma NextStaysTraced(s: System, ops: seq<Operation>, op: Operation, maxPayload: nat, s': System)
    requires Traced(s, ops) && Invariant(s) && Next(s, op, maxPayload, s')
    ensures Traced(s', ops + [op])
  {
    assert s.history.Keys == s.table.Keys;
    hide Invariant, Traced, Sweeps, ProcessPacket;
    match op
    case PacketIn(id, p) => PacketStaysTraced(s, ops, id, p);
    case CheckComplete =>
      var done := FinishedIds(s.table, maxPayload);
      SweepStaysTraced(s, ops, done, done, true, s');
      StaysTraced(s', ops, op);
    case EvictStale(now) =>
      if now - s.lastEviction >= EVICTION_INTERVAL {
        var t := s.(lastEviction := now);
        EvictionTimeUntraced(s, ops, now);
        var stale := StaleIds(t.table, now);
        SweepStaysTraced(t, ops, stale, WithPayload(t.table, stale), false, s');
      }
      StaysTraced(s', ops, op);
    case FlushAll =>
      var mid :| CompletesFinished(s, maxPayload, mid) && FlushesRemaining(mid, s');
      var done := FinishedIds(s.table, maxPayload);
      SweepStaysTraced(s, ops, done, done, true, mid);
      SweepStaysTraced(mid, ops, mid.table.Keys, NotSilent(mid.table), true, s');
      StaysTraced(s', ops, op);
  }

  lemma EvictionTimeUntraced(s: System, ops: seq<Operation>, now: real)
    requires Traced(s, ops)
    ensures Traced(s.(lastEviction := now), ops)
  {
    hide IsSuffix, TracedFlows;
  }

  /** In every run, what stands behind an entry or a pushed flow are packets of its connection, without gaps
      and in the order of their arrival. */
  lemma {:induction false} RunsStayTraced(states: seq<System>, ops: seq<Operation>, maxPayload: nat, n: nat)
    requires IsRun(states, ops, maxPayload) && n < |states|
    ensures Traced(states[n], ops[..n])
  {
    assert states[0] == EMPTY_SYSTEM && ops[..0] == [];
    hide Traced, Next, Invariant, IsRun;
    if n == 0 {
      NothingTraced();
    } else {
      RunsStayTraced(states, ops, maxPayload, n - 1);
      NextOfRun(states, ops, maxPayload, n);
      NextStaysTraced(states[n - 1], ops[..n - 1], ops[n - 1], maxPayload, states[n]);
    }
  }

  lemma NextOfRun(states: seq<System>, ops: seq<Operation>, maxPayload: nat, n: nat)
    requires IsRun(states, ops, maxPayload) && 0 < n < |states|
    ensures n <= |ops| && ops[..n] == ops[..n - 1] + [ops[n - 1]]
    ensures Invariant(states[n - 1]) && Next(states[n - 1], ops[n - 1], maxPayload, states[n])
  {
    hide Next, Invariant;
    RunsKeepInvariant(states, ops, maxPayload, n - 1);
    assert Next(states[n - 1], ops[n - 1], maxPayload, states[n - 1 + 1]);
  }

  lemma NothingTraced()
    ensures Traced(EMPTY_SYSTEM, [])
  {
  }

  // ---------------------------------------------------------------- slices of one stream

  /** Data packets are slices of the stream, a SYN announces its first byte and comes before all data. */
  ghost predicate Slices(stream: seq<byte>, base: uint32, ps: seq<Packet>) {
    forall i | 0 <= i < |ps| ::
      && (ps[i].syn ==> Add32(ps[i].seqNum, 1) == base && forall j | 0 <= j < i :: !ps[j].CarriesData())
      && (ps[i].CarriesData() ==> exists o: nat :: SliceAt(stream, base, o, ps[i].seqNum, ps[i].payload.bytes))
  }

  lemma PartSlices(stream: seq<byte>, base: uint32, ps: seq<Packet>, all: seq<Packet>)
    requires Slices(stream, base, all) && IsPart(ps, all)
    ensures Slices(stream, base, ps)
  {
    hide Add32, SliceAt;
    var k: nat :| PartAt(ps, all, k);
    forall i | 0 <= i < |ps|
      ensures ps[i] == all[k + i]
    {
      assert all[k..k + |ps|][i] == all[k + i];
    }
  }

  lemma {:induction false} NoDataNoPayload(ps: seq<Packet>)
    requires forall j | 0 <= j < |ps| :: !ps[j].CarriesData()
    ensures Run(FRESH, ps).stream.payload == []
  {
    if ps != [] {
      NoDataNoPayload(ps[..|ps| - 1]);
    }
  }

  lemma OffsetOf(stream: seq<byte>, base: uint32, ps: seq<Packet>, i: nat) returns (o: nat)
    requires Slices(stream, base, ps) && i < |ps|
    ensures Admissible(stream, base, Run(FRESH, ps[..i]), ps[i], o)
  {
    o := 0;
    if ps[i].CarriesData() {
      o :| SliceAt(stream, base, o, ps[i].seqNum, ps[i].payload.bytes);
    }
    if ps[i].syn {
      NoDataNoPayload(ps[..i]);
    }
  }

  lemma {:induction false} Offsets(stream: seq<byte>, base: uint32, ps: seq<Packet>, n: nat) returns (offsets: seq<nat>)
    requires Slices(stream, base, ps) && n <= |ps|
    ensures |offsets| == n
    ensures forall i | 0 <= i < n :: Admissible(stream, base, Run(FRESH, ps[..i]), ps[i], offsets[i])
  {
    hide Slices, Admissible, Run;
    if n == 0 {
      offsets := [];
    } else {
      var front := Offsets(stream, base, ps, n - 1);
      var o := OffsetOf(stream, base, ps, n - 1);
      offsets := front + [o];
    }
  }

  lemma {:induction false} SynSeen(ps: seq<Packet>, i: nat)
    requires i < |ps| && ps[i].syn
    ensures Run(FRESH, ps).synReceived
  {
    var n := |ps| - 1;
    if i < n {
      SynSeen(ps[..n], i);
    }
  }

  lemma PayloadIsPiece(stream: seq<byte>, base: uint32, ps: seq<Packet>) returns (start: nat)
    requires |stream| < HALF && Slices(stream, base, ps)
    ensures start <= |stream| && Run(FRESH, ps).stream.payload <= stream[start..]
    ensures (exists i | 0 <= i < |ps| :: ps[i].syn) ==> start == 0
  {
    var offsets := Offsets(stream, base, ps, |ps|);
    assert ps[..|ps|] == ps;
    if i: nat :| i < |ps| && ps[i].syn {
      SynSeen(ps, i);
    }
    hide Run, Slices, Admissible, FirstOffset, Add32;
    ReassemblyIsSound(stream, base, ps, offsets);
    var c := Run(FRESH, ps);
    start := if c.synReceived || !AnyData(ps) then 0 else FirstOffset(ps, offsets);
  }

  /** Soundness through the table. In any run, when the packets that arrived for a connection are slices of
      one stream below 2^31 bytes, whatever arrived for others and however often tables were swept, the
      reassembled bytes of every flow pushed for it are a piece of that stream, from its start when the
      packets behind the flow include the SYN. */
  lemma PushedFlowsAreSound(states: seq<System>, ops: seq<Operation>, maxPayload: nat, n: nat, i: nat,
                            stream: seq<byte>, base: uint32) returns (start: nat)
    requires IsRun(states, ops, maxPayload) && n < |states| && i < |states[n].emitted| && |stream| < HALF
    requires Slices(stream, base, Received(ops[..n], states[n].emitted[i].flow.id))
    ensures var e := states[n].emitted[i];
            && e.reassembled <= |e.flow.payload|
            && start <= |stream| && e.flow.payload[..e.reassembled] <= stream[start..]
            && ((exists j | 0 <= j < |e.packets| :: e.packets[j].syn) ==> start == 0)
  {
    assert n <= |ops|;
    hide IsRun, Slices, Run, Received, IsPart;
    var e := states[n].emitted[i];
    RunsStayTraced(states, ops, maxPayload, n);
    PartSlices(stream, base, e.packets, Received(ops[..n], e.flow.id));
    start := PayloadIsPiece(stream, base, e.packets);
    PushedFlowsAreAccurate(states, ops, maxPayload, n, i);
    PrefixTaken(Run(FRESH, e.packets).stream.payload, e.flow.payload, e.reassembled);
  }

  lemma PrefixTaken<T>(a: seq<T>, b: seq<T>, n: nat)
    requires a <= b && n == |a|
    ensures n <= |b| && b[..n] == a
  {
  }
}
